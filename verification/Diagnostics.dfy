/** What the daemon keeps of a child's stderr: each line with known secret values
    cut out and suspicious lines withheld, in a tail of bounded size. */
module Diagnostics {
  import opened Options
  import opened Text

  const STDERR_TAIL_MAX_LINES := 20
  const STDERR_TAIL_MAX_BYTES := 8 * 1024
  const STDERR_LINE_MAX_CHARS := 500

  const REDACTED := "[redacted]"
  const REDACTED_OUTPUT := "[redacted potentially sensitive output]"
  const REDACTED_URL := "[redacted URL containing query parameters]"

  // ------------------------------------------------------------- redaction

  /** Which values are worth redacting, longest first. */
  function KeptValues(values: set<string>): (kept: seq<string>)
    ensures forall v :: v in kept <==> v in values && Utf8Len(v) >= 4
    ensures forall i, j | 0 <= i < j < |kept| :: kept[i] != kept[j] && Utf8Len(kept[i]) >= Utf8Len(kept[j])
    ensures forall i, j | 0 <= i < j < |kept| && Utf8Len(kept[i]) == Utf8Len(kept[j]) :: LexLe(kept[i], kept[j])
  {
    OrdersAreTotal();
    SortBy((set v | v in values && Utf8Len(v) >= 4), LongestFirst)
  }

  function RedactAll(line: string, sensitive: seq<string>): string
    decreases |sensitive|
  {
    if sensitive == [] then line
    else RedactAll(Replace(line, sensitive[0], REDACTED), sensitive[1..])
  }

  predicate NoneEmpty(vs: seq<string>) { forall i | 0 <= i < |vs| :: vs[i] != "" }

  predicate BracketFree(v: string) { forall i | 0 <= i < |v| :: v[i] != '[' && v[i] != ']' }

  /** One text begins with the other. */
  predicate Agree(x: string, y: string) { x <= y || y <= x }

  /** No end of `v`, the whole included, can begin where a marker begins. */
  predicate NotIntoMarker(v: string) { forall i | 0 <= i < |v| :: !Agree(v[i..], REDACTED) }

  /** `v` cannot begin inside a marker. */
  predicate NotOutOfMarker(v: string) { forall j | 0 <= j < |REDACTED| :: !Agree(REDACTED[j..], v) }

  /** Wherever `v` and a marker stand in a line, they have no character in common. */
  predicate Apart(v: string) { v != "" && NotIntoMarker(v) && NotOutOfMarker(v) }

  /** A text at the head of the result that cannot run into a marker was at the head
      of the input. */
  lemma {:induction false} HeadSurvives(s: string, p: string, w: string)
    requires p != "" && NotIntoMarker(w) && w <= Replace(s, p, REDACTED)
    ensures w <= s
  {
    if w != "" {
      var out := Replace(s, p, REDACTED);
      assert w[0..] == w;
      if !(p <= s) {
        assert out[1..] == Replace(s[1..], p, REDACTED);
        forall i | 0 <= i < |w| - 1 ensures !Agree(w[1..][i..], REDACTED) {
          assert w[1..][i..] == w[i + 1..];
        }
        HeadSurvives(s[1..], p, w[1..]);
        assert w == [w[0]] + w[1..] && s == [s[0]] + s[1..];
      } else {
        BothBegin(w, REDACTED, out);
      }
    }
  }

  lemma BothBegin(x: string, y: string, s: string)
    requires x <= s && y <= s
    ensures Agree(x, y)
  {
  }

  /** A value apart from the marker that is seen at offset `i` after a replacement
      was there before, and was not the value replaced. */
  lemma {:induction false} NoNewOccurrence(s: string, p: string, v: string, i: nat)
    requires p != "" && Apart(v) && OccursAt(Replace(s, p, REDACTED), v, i)
    ensures v != p && Contains(s, v)
  {
    if p <= s {
      var rest := Replace(s[|p|..], p, REDACTED);
      if i >= |REDACTED| {
        OccursAfter(REDACTED, rest, v, i);
        NoNewOccurrence(s[|p|..], p, v, i - |REDACTED|);
        ContainsInSuffix(s, |p|, v);
      } else {
        BeginsInMarker(rest, v, i);
      }
    } else if i > 0 {
      OccursAfter([s[0]], Replace(s[1..], p, REDACTED), v, i);
      NoNewOccurrence(s[1..], p, v, i - 1);
      ContainsInSuffix(s, 1, v);
    } else {
      OccursAtZero(Replace(s, p, REDACTED), v);
      HeadSurvives(s, p, v);
      OccursAtZero(s, v);
    }
  }

  lemma OccursAfter(front: string, rest: string, v: string, i: nat)
    requires |front| <= i && OccursAt(front + rest, v, i)
    ensures OccursAt(rest, v, i - |front|)
  {
    SliceAfter(front, rest, i, |v|);
  }

  lemma SliceAfter(front: string, rest: string, i: nat, n: nat)
    requires |front| <= i && i + n <= |front| + |rest|
    ensures (front + rest)[i..i + n] == rest[i - |front|..i - |front| + n]
  {
  }

  /** A text that begins inside a marker agrees with the rest of it. */
  lemma BeginsInMarker(rest: string, v: string, i: nat)
    requires i < |REDACTED| && OccursAt(REDACTED + rest, v, i)
    ensures Agree(REDACTED[i..], v)
  {
    var s := REDACTED + rest;
    assert s[i..] == REDACTED[i..] + rest;
    assert s[i..][..|v|] == s[i..i + |v|];
    BothBegin(REDACTED[i..], v, s[i..]);
  }

  lemma ReplaceKeepsOut(s: string, p: string, v: string)
    requires p != "" && Apart(v) && Contains(Replace(s, p, REDACTED), v)
    ensures v != p && Contains(s, v)
  {
    var out := Replace(s, p, REDACTED);
    var i :| 0 <= i <= |out| && OccursAt(out, v, i);
    NoNewOccurrence(s, p, v, i);
  }

  /** What is not in the line stays out through all replacements. */
  lemma {:induction false} RedactAllKeepsOut(line: string, sensitive: seq<string>, v: string)
    requires Apart(v) && NoneEmpty(sensitive)
    ensures Contains(RedactAll(line, sensitive), v) ==> Contains(line, v) && v !in sensitive
    decreases |sensitive|
  {
    if sensitive != [] {
      var w := sensitive[0];
      var line' := Replace(line, w, REDACTED);
      assert sensitive == [w] + sensitive[1..];
      RedactAllKeepsOut(line', sensitive[1..], v);
      if Contains(line', v) { ReplaceKeepsOut(line, w, v); }
    }
  }

  /** Nothing but the sensitive values is cut out. */
  lemma {:induction false} NothingToRedact(line: string, sensitive: seq<string>)
    requires NoneEmpty(sensitive) && forall v | v in sensitive :: !Contains(line, v)
    ensures RedactAll(line, sensitive) == line
    decreases |sensitive|
  {
    if sensitive != [] {
      assert sensitive == [sensitive[0]] + sensitive[1..];
      assert sensitive[0] in sensitive;
      forall q | 0 <= q <= |line| ensures !OccursAt(line, sensitive[0], q) {}
      NoMatchStays(line, sensitive[0], REDACTED);
      NothingToRedact(line, sensitive[1..]);
    }
  }

  // --------------------------------------- when redaction works, exactly

  lemma {:induction false} MarkerStays(line: string, sensitive: seq<string>)
    requires Contains(line, REDACTED) && NoneEmpty(sensitive)
    ensures Contains(RedactAll(line, sensitive), REDACTED)
    decreases |sensitive|
  {
    if sensitive != [] {
      var w := sensitive[0];
      ReplaceChangesOnlyByInserting(line, w, REDACTED);
      MarkerStays(Replace(line, w, REDACTED), sensitive[1..]);
    }
  }

  /** A line that is one of the sensitive values always ends up with a marker in it. */
  lemma {:induction false} SecretLineIsMarked(v: string, sensitive: seq<string>)
    requires v in sensitive && NoneEmpty(sensitive)
    ensures Contains(RedactAll(v, sensitive), REDACTED)
    decreases |sensitive|
  {
    var w := sensitive[0];
    var line := Replace(v, w, REDACTED);
    ReplaceChangesOnlyByInserting(v, w, REDACTED);
    if line == v && !Contains(v, REDACTED) {
      if v == w { assert OccursAt(v, w, 0); }
      assert sensitive == [w] + sensitive[1..];
      SecretLineIsMarked(v, sensitive[1..]);
    } else {
      MarkerStays(line, sensitive[1..]);
    }
  }

  /** After redaction the line does not show the value. */
  predicate Hides(line: string, sensitive: seq<string>, v: string) { !Contains(RedactAll(line, sensitive), v) }

  /** A sensitive value that is apart from the marker or spelled out by it is hidden in
      every line exactly when it is not spelled out, whatever the other values are. */
  lemma RedactionWorksIff(sensitive: seq<string>, v: string)
    requires NoneEmpty(sensitive) && v in sensitive && (Apart(v) || Contains(REDACTED, v))
    ensures (forall line :: Hides(line, sensitive, v)) <==> !Contains(REDACTED, v)
  {
    if Contains(REDACTED, v) {
      SecretLineIsMarked(v, sensitive);
      ContainsTrans(RedactAll(v, sensitive), REDACTED, v);
      assert !Hides(v, sensitive, v);
    } else {
      forall line ensures Hides(line, sensitive, v) { RedactAllKeepsOut(line, sensitive, v); }
    }
  }

  /** A value without brackets is apart from the marker unless the word inside the
      brackets spells it out. */
  lemma BracketFreeIsApart(v: string)
    requires v != "" && BracketFree(v)
    ensures Apart(v) <==> !Contains("redacted", v)
    ensures Contains("redacted", v) ==> Contains(REDACTED, v)
  {
    if Contains("redacted", v) {
      SpelledOut(v);
    } else {
      forall i | 0 <= i < |v| ensures !Agree(v[i..], REDACTED) { assert v[i..][0] == v[i]; }
      forall j | 0 <= j < |REDACTED| ensures !Agree(REDACTED[j..], v) { NoAgreement(v, j); }
    }
  }

  lemma SpelledOut(v: string)
    requires Contains("redacted", v)
    ensures Contains(REDACTED, v) && !Apart(v)
  {
    var marker, word := REDACTED, "redacted";
    assert marker[1..9] == word;
    var i :| 0 <= i <= 8 && OccursAt(word, v, i);
    SliceOfSlice(marker, 1, 9, i, i + |v|);
    assert OccursAt(marker, v, i + 1);
    assert marker[i + 1..][..|v|] == marker[i + 1..i + 1 + |v|];
    assert Agree(marker[i + 1..], v);
  }

  lemma NoAgreement(v: string, j: nat)
    requires v != "" && BracketFree(v) && !Contains("redacted", v) && j < |REDACTED|
    ensures !Agree(REDACTED[j..], v)
  {
    var tail := REDACTED[j..];
    assert tail[0] == '[' || tail[|tail| - 1] == ']';
    if v <= tail && |v| < |tail| && j > 0 {
      assert "redacted"[j - 1..j - 1 + |v|] == v;
      assert OccursAt("redacted", v, j - 1);
    }
  }

  /** Brackets alone do no harm. */
  lemma JsonArrayIsApart(v: string)
    requires |v| >= 2 && v[0] == '[' && v[1] == '"' && '[' !in v[1..]
    ensures Apart(v)
  {
    forall i | 0 <= i < |v| ensures !Agree(v[i..], REDACTED) {
      assert v[i..][0] == v[i] && (i > 0 ==> v[i] == v[1..][i - 1]);
      assert i == 0 ==> v[i..][1] == '"';
    }
    forall j | 0 <= j < |REDACTED| ensures !Agree(REDACTED[j..], v) {
      assert REDACTED[j..][0] == REDACTED[j];
      assert j == 0 ==> REDACTED[j..][1] == 'r';
    }
  }

  // ------------------------------------------- one value, all cases

  /** `v` first stands in `v[..i] + v` where it was put. */
  predicate FirstAfter(v: string, i: nat)
    requires i <= |v|
  {
    forall q | 0 <= q < i :: !OccursAt(v[..i] + v, v, q)
  }

  /** `v` can begin inside a marker, or run into one from text that the replacement
      leaves alone. */
  predicate Leaks(v: string) {
    || (exists j | 0 <= j < |REDACTED| :: Agree(REDACTED[j..], v))
    || (exists i | 0 < i < |v| :: Agree(v[i..], REDACTED) && FirstAfter(v, i))
  }

  predicate HiddenAlone(v: string, line: string) { !Contains(Replace(line, v, REDACTED), v) }

  /** Replacing one value hides it in every line exactly when it does not leak. */
  lemma OneValueWorksIff(v: string)
    requires v != ""
    ensures (forall line :: HiddenAlone(v, line)) <==> !Leaks(v)
  {
    if Leaks(v) {
      var line := LeakingLine(v);
      assert !HiddenAlone(v, line);
    } else {
      forall line ensures HiddenAlone(v, line) {
        var out := Replace(line, v, REDACTED);
        if Contains(out, v) {
          var i :| 0 <= i <= |out| && OccursAt(out, v, i);
          ShownMeansLeaks(line, v, i);
        }
      }
    }
  }

  lemma {:induction false} ShownMeansLeaks(s: string, v: string, i: nat)
    requires v != "" && OccursAt(Replace(s, v, REDACTED), v, i)
    ensures Leaks(v)
  {
    if v <= s {
      var rest := Replace(s[|v|..], v, REDACTED);
      if i >= |REDACTED| {
        OccursAfter(REDACTED, rest, v, i);
        ShownMeansLeaks(s[|v|..], v, i - |REDACTED|);
      } else {
        BeginsInMarker(rest, v, i);
      }
    } else if i > 0 {
      OccursAfter([s[0]], Replace(s[1..], v, REDACTED), v, i);
      ShownMeansLeaks(s[1..], v, i - 1);
    } else {
      OccursAtZero(Replace(s, v, REDACTED), v);
      ShownAtHead(s, v);
    }
  }

  /** At the head of the result, but not of the line: text before the first match
      and the marker put there make up `v`. */
  lemma ShownAtHead(s: string, v: string)
    requires v != "" && !(v <= s) && v <= Replace(s, v, REDACTED)
    ensures Leaks(v)
  {
    var n := FirstMatch(s, v, 0);
    if !OccursAt(s, v, n) { NoMatchStays(s, v, REDACTED); }
    ReplaceAtFirst(s, v, REDACTED, n);
    RunsIntoMarker(s[..n], REDACTED, Replace(s[n + |v|..], v, REDACTED), v);
    BeginningOfBeginning(v, s, n);
    OccursAtZero(s, v);
    FirstMatchIsFirst(s, v, n);
  }

  lemma BeginningOfBeginning(v: string, s: string, n: nat)
    requires n <= |s|
    ensures v <= s[..n] ==> v <= s
  {
    if v <= s[..n] { assert s[..n][..|v|] == s[..|v|]; }
  }

  lemma RunsIntoMarker(a: string, marker: string, rest: string, v: string)
    requires v <= a + (marker + rest)
    ensures if |v| <= |a| then v <= a else v[..|a|] == a && Agree(v[|a|..], marker)
  {
    var s := a + (marker + rest);
    if |v| > |a| {
      assert s[|a|..] == marker + rest;
      assert v[|a|..] <= s[|a|..];
      BothBegin(v[|a|..], marker, s[|a|..]);
    }
  }

  lemma FirstMatchIsFirst(s: string, v: string, n: nat)
    requires OccursAt(s, v, n) && forall q | 0 <= q < n :: !OccursAt(s, v, q)
    requires n <= |v| && v[..n] == s[..n]
    ensures FirstAfter(v, n)
  {
    assert s[..n + |v|] == s[..n] + s[n..n + |v|];
    forall q | 0 <= q < n ensures !OccursAt(v[..n] + v, v, q) { OccursInPrefix(s, n + |v|, v, q); }
  }

  /** A line from which `v` is not removed for good. */
  lemma LeakingLine(v: string) returns (line: string)
    requires v != "" && Leaks(v)
    ensures Contains(Replace(line, v, REDACTED), v)
  {
    if j :| 0 <= j < |REDACTED| && Agree(REDACTED[j..], v) {
      line := LeaksOut(v, j);
    } else {
      var i :| 0 < i < |v| && Agree(v[i..], REDACTED) && FirstAfter(v, i);
      line := LeaksInto(v, i);
    }
  }

  /** What is missing of `w` after a marker. */
  function After(w: string): string { if |w| <= |REDACTED| then "" else w[|REDACTED|..] }

  lemma LeaksOut(v: string, j: nat) returns (line: string)
    requires v != "" && j < |REDACTED| && Agree(REDACTED[j..], v)
    ensures Contains(Replace(line, v, REDACTED), v)
  {
    var k := |REDACTED| - j;
    var b := if |v| <= k then "" else v[k..];
    line := v + b;
    TooShortToReplace(b, v, REDACTED);
    assert line[|v|..] == b;
    assert Replace(line, v, REDACTED) == REDACTED + b;
    AgreesWithRest(REDACTED, j, v, b);
  }

  lemma AgreesWithRest(marker: string, j: nat, v: string, b: string)
    requires j < |marker| && Agree(marker[j..], v)
    requires b == if |v| <= |marker| - j then "" else v[|marker| - j..]
    ensures Contains(marker + b, v)
  {
    var out := marker + b;
    assert out[j..] == marker[j..] + b;
    assert v <= marker[j..] + b;
    OccursAtZero(out[j..], v);
    assert Contains(out[j..], v);
    ContainsInSuffix(out, j, v);
  }

  lemma LeaksInto(v: string, i: nat) returns (line: string)
    requires 0 < i < |v| && Agree(v[i..], REDACTED) && FirstAfter(v, i)
    ensures Contains(Replace(line, v, REDACTED), v)
  {
    var a, b := v[..i], After(v[i..]);
    line := a + (v + b);
    forall q | 0 <= q < i ensures !OccursAt(line, v, q) {
      assert !OccursAt(a + v, v, q);
      assert line == (a + v) + b && line[..|a + v|] == a + v;
      OccursInPrefix(line, |a + v|, v, q);
    }
    ReplaceIsLeftmost(a, v, b, REDACTED);
    TooShortToReplace(b, v, REDACTED);
    MadeUp(v, i, REDACTED, b);
    OccursAtZero(a + (REDACTED + b), v);
  }

  lemma MadeUp(v: string, i: nat, marker: string, b: string)
    requires i <= |v| && Agree(v[i..], marker)
    requires b == if |v| - i <= |marker| then "" else v[i..][|marker|..]
    ensures v <= v[..i] + (marker + b)
  {
    assert v[i..] <= marker + b;
    assert v == v[..i] + v[i..];
  }

  /** A value with a bracket can be re-created by the marker's own bracket, and one
      that only looks as if it could is safe. */
  lemma BracketedValueLeaks(bad: string, good: string)
    requires bad == "a[re" && good == "[["
    ensures Leaks(bad) && !Leaks(good) && !Apart(good)
  {
    assert bad[1..] == "[re" == REDACTED[..3];
    assert (bad[..1] + bad)[0..4][1] == 'a';
    assert !OccursAt(bad[..1] + bad, bad, 0);
    assert FirstAfter(bad, 1);
    assert good[1..] == REDACTED[..1];
    assert (good[..1] + good)[0..2] == good;
    assert OccursAt(good[..1] + good, good, 0);
    forall j | 0 <= j < |REDACTED| ensures !Agree(REDACTED[j..], good) {
      assert REDACTED[j..][0] == REDACTED[j];
      assert j == 0 ==> REDACTED[j..][1] == 'r';
    }
  }

  // ------------------------------------------------------------ sanitizing

  /** Unicode `White_Space`, what `str::trim` strips. */
  predicate IsWhitespace(c: char) {
    var n := c as int;
    || 9 <= n <= 13 || n == 0x20 || n == 0x85 || n == 0xA0 || n == 0x1680
    || 0x2000 <= n <= 0x200A || n == 0x2028 || n == 0x2029 || n == 0x202F || n == 0x205F || n == 0x3000
  }

  function TrimStart(s: string): (r: string)
    ensures |r| <= |s| && r == s[|s| - |r|..]
    ensures r != "" ==> !IsWhitespace(r[0])
  {
    if s != "" && IsWhitespace(s[0]) then TrimStart(s[1..]) else s
  }

  function TrimEnd(s: string): (r: string)
    ensures r <= s && (s != "" && !IsWhitespace(s[0]) ==> r != "")
    ensures r != "" ==> !IsWhitespace(r[|r| - 1])
  {
    if s != "" && IsWhitespace(s[|s| - 1]) then TrimEnd(s[..|s| - 1]) else s
  }

  function Trim(s: string): string { TrimEnd(TrimStart(s)) }

  function AsciiLower(s: string): string {
    seq(|s|, i requires 0 <= i < |s| =>
      if 'A' <= s[i] <= 'Z' then (s[i] as int + 32) as char else s[i])
  }

  predicate NoCapitals(m: string) { forall i | 0 <= i < |m| :: !('A' <= m[i] <= 'Z') }

  /** `x` is `m` in any mixture of upper and lower case. */
  predicate Spells(x: string, m: string) {
    |x| == |m| && forall i | 0 <= i < |m| :: x[i] == m[i] || CapitalOf(x[i], m[i])
  }

  predicate CapitalOf(c: char, small: char) { 'a' <= small <= 'z' && c as int + 32 == small as int }

  lemma LowerSpells(x: string, m: string)
    requires NoCapitals(m)
    ensures AsciiLower(x) == m <==> Spells(x, m)
  {
    var y := AsciiLower(x);
    if |x| == |m| {
      forall i | 0 <= i < |m| ensures y[i] == m[i] <==> x[i] == m[i] || CapitalOf(x[i], m[i]) {}
      if Spells(x, m) { assert y == m; }
    }
  }

  /** `m` stands in `s` at offset `i`, in any mixture of cases. */
  predicate SpelledAt(s: string, m: string, i: nat) {
    i + |m| <= |s| && Spells(s[i..i + |m|], m)
  }

  lemma LowerContains(s: string, m: string)
    requires NoCapitals(m)
    ensures Contains(AsciiLower(s), m) <==> exists i: nat :: SpelledAt(s, m, i)
  {
    forall i: nat ensures OccursAt(AsciiLower(s), m, i) <==> SpelledAt(s, m, i) {
      if i + |m| <= |s| {
        assert AsciiLower(s)[i..i + |m|] == AsciiLower(s[i..i + |m|]);
        LowerSpells(s[i..i + |m|], m);
      }
    }
    if i: nat :| SpelledAt(s, m, i) { assert OccursAt(AsciiLower(s), m, i); }
  }

  const SECRET_WORDS := ["authorization", "bearer ", "token", "secret", "password", "cookie", "credential"]
  const KEY_NAMES := ["api_key", "apikey", "api-key", "private key", "access_key", "access-key", "session_key"]
  const TOKEN_PREFIXES := ["ghp_", "github_pat_", "sk-proj-", "xoxb-", "xoxp-"]

  const CREDENTIAL_MARKERS := SECRET_WORDS + KEY_NAMES + TOKEN_PREFIXES

  predicate HasCredentialMarker(s: string) {
    exists m | m in CREDENTIAL_MARKERS :: Contains(AsciiLower(s), m)
  }

  function Authority(s: string): string {
    if s == "" || s[0] == '/' || s[0] == ' ' || s[0] == '\t' then "" else [s[0]] + Authority(s[1..])
  }

  /** The text between the first "://" and the next separator contains an '@'. */
  predicate HasUrlUserinfo(s: string) {
    var n := Find(s, "://");
    n < |s| && '@' in Authority(s[n + 3..])
  }

  function CountDots(s: string): nat {
    if s == "" then 0 else (if s[0] == '.' then 1 else 0) + CountDots(s[1..])
  }

  predicate LooksLikeJwt(s: string) { Contains(s, "eyJ") && CountDots(s) >= 2 }

  /** The notice that replaces a suspicious line. */
  function Notice(trimmed: string): (n: Option<string>)
    ensures n.Some? ==> n.value == REDACTED_OUTPUT || n.value == REDACTED_URL
  {
    if HasCredentialMarker(trimmed) then Some(REDACTED_OUTPUT)
    else if HasUrlUserinfo(trimmed) || LooksLikeJwt(trimmed) then Some(REDACTED_OUTPUT)
    else if Contains(trimmed, "://") && '?' in trimmed then Some(REDACTED_URL)
    else None
  }

  function Shortened(s: string): string {
    if |s| <= STDERR_LINE_MAX_CHARS then s else s[..STDERR_LINE_MAX_CHARS]
  }

  function Sanitize(line: string): Option<string> {
    var trimmed := Trim(line);
    if trimmed == "" then None
    else if Notice(trimmed).Some? then Notice(trimmed)
    else Some(Shortened(trimmed))
  }

  lemma PartOfLine(line: string, start: string, trimmed: string, out: string)
    requires |start| <= |line| && start == line[|line| - |start|..] && out <= trimmed <= start
    ensures Contains(line, out)
  {
    var off := |line| - |start|;
    assert out == line[off..off + |out|];
    SliceIsContained(line, off, off + |out|);
  }

  lemma ShortenedTrim(line: string)
    ensures Contains(line, Shortened(Trim(line)))
  {
    PartOfLine(line, TrimStart(line), Trim(line), Shortened(Trim(line)));
  }

  predicate IsNotice(out: string) { out == REDACTED_OUTPUT || out == REDACTED_URL }

  /** A line is withheld, or shortened: nothing is added to it. */
  lemma SanitizeOnlyCuts(line: string)
    ensures Sanitize(line).Some? ==>
      var out := Sanitize(line).value;
      IsNotice(out) || (Contains(line, out) && |out| <= STDERR_LINE_MAX_CHARS)
  {
    ShortenedTrim(line);
  }

  lemma ContainsInPrefix(s: string, n: nat, p: string)
    requires n <= |s| && Contains(s[..n], p)
    ensures Contains(s, p)
  {
    SliceIsContained(s, 0, n);
    assert s[0..n] == s[..n];
    ContainsTrans(s, s[..n], p);
  }

  lemma {:induction false} DotsInPrefix(s: string, n: nat)
    requires n <= |s|
    ensures CountDots(s[..n]) <= CountDots(s)
  {
    if n > 0 {
      assert s[..n][1..] == s[1..][..n - 1];
      DotsInPrefix(s[1..], n - 1);
    }
  }

  /** A text with one of the markers in it, in any mixture of cases. */
  ghost predicate NamesCredential(t: string) {
    exists m, i: nat | m in CREDENTIAL_MARKERS :: SpelledAt(t, m, i)
  }

  /** After the first "://", and before the next separator, comes an '@'. */
  ghost predicate NamesUser(t: string) {
    exists i: nat :: FirstScheme(t, i) && UserAfter(t, i + 3)
  }

  ghost predicate UserAfter(t: string, k: nat) { exists j: nat :: UserFrom(t, k, j) }

  predicate FirstScheme(t: string, i: nat) {
    OccursAt(t, "://", i) && forall q | 0 <= q < i :: !OccursAt(t, "://", q)
  }

  predicate UserFrom(t: string, k: nat, j: nat) {
    k <= j < |t| && t[j] == '@' && forall q | k <= q < j :: t[q] != '/' && t[q] != ' ' && t[q] != '\t'
  }

  /** A text with "eyJ" and at least two dots. */
  ghost predicate ResemblesJwt(t: string) {
    Contains(t, "eyJ") && exists i, j | 0 <= i < j < |t| :: t[i] == '.' && t[j] == '.'
  }

  predicate HasQuery(t: string) { Contains(t, "://") && '?' in t }

  lemma MarkersAreSmall()
    ensures forall m | m in CREDENTIAL_MARKERS :: NoCapitals(m)
  {
    WordsAreSmall();
    KeyNamesAreSmall();
    PrefixesAreSmall();
  }

  lemma WordsAreSmall()
    ensures forall m | m in SECRET_WORDS :: NoCapitals(m)
  {
  }

  lemma KeyNamesAreSmall()
    ensures forall m | m in KEY_NAMES :: NoCapitals(m)
  {
  }

  lemma PrefixesAreSmall()
    ensures forall m | m in TOKEN_PREFIXES :: NoCapitals(m)
  {
  }

  lemma CredentialMeans(t: string)
    ensures HasCredentialMarker(t) <==> NamesCredential(t)
  {
    MarkersAreSmall();
    if HasCredentialMarker(t) {
      var m :| m in CREDENTIAL_MARKERS && Contains(AsciiLower(t), m);
      LowerContains(t, m);
    }
    if NamesCredential(t) {
      var m, i: nat :| m in CREDENTIAL_MARKERS && SpelledAt(t, m, i);
      LowerContains(t, m);
    }
  }

  lemma {:induction false} InAuthority(s: string)
    ensures '@' in Authority(s) <==> UserAfter(s, 0)
  {
    if s != "" {
      InAuthority(s[1..]);
      if s[0] != '/' && s[0] != ' ' && s[0] != '\t' {
        if j: nat :| UserFrom(s[1..], 0, j) { assert UserFrom(s, 0, j + 1); }
        if j: nat :| UserFrom(s, 0, j) {
          if j == 0 { assert Authority(s)[0] == '@'; } else { assert UserFrom(s[1..], 0, j - 1); }
        }
        assert Authority(s) == [s[0]] + Authority(s[1..]);
        if s[0] == '@' { assert UserFrom(s, 0, 0); }
      } else {
        assert forall j: nat | j < |s| && s[j] == '@' :: j > 0;
      }
    }
  }

  lemma UserInRest(t: string, k: nat)
    requires k <= |t|
    ensures UserAfter(t[k..], 0) <==> UserAfter(t, k)
  {
    if j: nat :| UserFrom(t[k..], 0, j) {
      forall q | k <= q < k + j ensures t[q] == t[k..][q - k] {}
      assert UserFrom(t, k, k + j);
    }
    if j: nat :| UserFrom(t, k, j) {
      forall q | 0 <= q < j - k ensures t[k..][q] == t[q + k] {}
      assert UserFrom(t[k..], 0, j - k);
    }
  }

  lemma UserMeans(t: string)
    ensures HasUrlUserinfo(t) <==> NamesUser(t)
  {
    var n := Find(t, "://");
    FindMeans(t, "://");
    if n < |t| {
      InAuthority(t[n + 3..]);
      UserInRest(t, n + 3);
      assert FirstScheme(t, n);
      forall i: nat | FirstScheme(t, i) ensures i == n { FindIs(t, "://", i); }
    }
  }

  lemma {:induction false} DotsMean(t: string)
    ensures CountDots(t) >= 1 <==> '.' in t
    ensures CountDots(t) >= 2 <==> exists i, j | 0 <= i < j < |t| :: t[i] == '.' && t[j] == '.'
  {
    if t != "" {
      var r := t[1..];
      DotsMean(r);
      if t[0] == '.' {
        if '.' in r { var j :| 0 <= j < |r| && r[j] == '.'; assert t[0] == '.' && t[j + 1] == '.'; }
      } else if i, j :| 0 <= i < j < |r| && r[i] == '.' && r[j] == '.' {
        assert t[i + 1] == '.' && t[j + 1] == '.';
      }
      if i, j :| 0 <= i < j < |t| && t[i] == '.' && t[j] == '.' {
        assert r[j - 1] == '.' && (i > 0 ==> r[i - 1] == '.');
      }
    }
  }

  predicate Blank(s: string) { forall i | 0 <= i < |s| :: IsWhitespace(s[i]) }

  lemma {:induction false} TrimStartOf(a: string, r: string)
    requires Blank(a) && (r != "" ==> !IsWhitespace(r[0]))
    ensures TrimStart(a + r) == r
  {
    if a == "" {
      assert a + r == r;
    } else {
      assert (a + r)[1..] == a[1..] + r;
      TrimStartOf(a[1..], r);
    }
  }

  lemma {:induction false} TrimEndOf(t: string, b: string)
    requires Blank(b) && (t != "" ==> !IsWhitespace(t[|t| - 1]))
    ensures TrimEnd(t + b) == t
  {
    if b == "" {
      assert t + b == t;
    } else {
      assert (t + b)[..|t + b| - 1] == t + b[..|b| - 1];
      TrimEndOf(t, b[..|b| - 1]);
    }
  }

  /** Blanks at both ends of a line go, and nothing else. */
  lemma TrimMeans(a: string, t: string, b: string)
    requires Blank(a) && Blank(b) && (t != "" ==> !IsWhitespace(t[0]) && !IsWhitespace(t[|t| - 1]))
    ensures Trim(a + t + b) == t
  {
    if t == "" {
      assert a + t + b == (a + b) + "";
      TrimStartOf(a + b, "");
    } else {
      assert a + t + b == a + (t + b);
      TrimStartOf(a, t + b);
      TrimEndOf(t, b);
    }
  }

  /** Why a text is not shown. */
  lemma NoticeMeans(t: string)
    ensures Notice(t) ==
      if NamesCredential(t) || NamesUser(t) || ResemblesJwt(t) then Some("[redacted potentially sensitive output]")
      else if HasQuery(t) then Some("[redacted URL containing query parameters]")
      else None
  {
    CredentialMeans(t);
    UserMeans(t);
    DotsMean(t);
  }

  /** What becomes of a line: the text between the blanks at its ends, at most 500
      characters of it, unless something in it is suspicious. */
  lemma SanitizeMeans(a: string, t: string, b: string)
    requires Blank(a) && Blank(b) && (t != "" ==> !IsWhitespace(t[0]) && !IsWhitespace(t[|t| - 1]))
    ensures Sanitize(a + t + b) ==
      if t == "" then None
      else if NamesCredential(t) || NamesUser(t) || ResemblesJwt(t) then Some("[redacted potentially sensitive output]")
      else if HasQuery(t) then Some("[redacted URL containing query parameters]")
      else Some(if |t| <= 500 then t else t[..500])
  {
    TrimMeans(a, t, b);
    if t != "" { NoticeMeans(t); }
  }

  /** A line that is shown, even if shortened, has no credential marker in any mixture
      of cases, does not look like a JWT, and is no URL with a user name or a query. */
  lemma ShownIsClean(line: string)
    requires Sanitize(line).Some? && !IsNotice(Sanitize(line).value)
    ensures var out := Sanitize(line).value;
      !NamesCredential(out) && !ResemblesJwt(out) && !NamesUser(out) && !HasQuery(out)
  {
    var t := Trim(line);
    var n := |Sanitize(line).value|;
    assert Sanitize(line).value == t[..n];
    PrefixIsClean(t, n);
    UserinfoInPrefix(t, n);
    CredentialMeans(t[..n]);
    UserMeans(t[..n]);
    DotsMean(t[..n]);
  }

  /** The first match in a prefix is the first match. */
  lemma FindInPrefix(t: string, n: nat, p: string)
    requires n <= |t| && p != "" && Find(t[..n], p) < n
    ensures Find(t, p) == Find(t[..n], p) && Find(t, p) + |p| <= n
  {
    FindMeans(t[..n], p);
    FindMeans(t, p);
    OccursInPrefix(t, n, p, Find(t[..n], p));
    OccursInPrefix(t, n, p, Find(t, p));
  }

  lemma {:induction false} AuthorityOfPrefix(s: string, n: nat)
    requires n <= |s|
    ensures Authority(s[..n]) <= Authority(s)
  {
    if n > 0 {
      assert s[..n][1..] == s[1..][..n - 1];
      AuthorityOfPrefix(s[1..], n - 1);
    }
  }

  lemma UserinfoInPrefix(t: string, n: nat)
    requires n <= |t| && !HasUrlUserinfo(t)
    ensures !HasUrlUserinfo(t[..n])
  {
    var k := Find(t[..n], "://");
    if k < n {
      FindInPrefix(t, n, "://");
      CutFront(t, n, k + 3);
      AuthorityOfPrefix(t[k + 3..], n - k - 3);
    }
  }

  lemma PrefixIsClean(t: string, n: nat)
    requires n <= |t| && Notice(t).None?
    ensures !HasCredentialMarker(t[..n]) && !LooksLikeJwt(t[..n]) && !(Contains(t[..n], "://") && '?' in t[..n])
  {
    PrefixHasNoMarker(t, n);
    DotsInPrefix(t, n);
    if Contains(t[..n], "eyJ") { ContainsInPrefix(t, n, "eyJ"); }
    if Contains(t[..n], "://") { ContainsInPrefix(t, n, "://"); }
  }

  lemma PrefixHasNoMarker(t: string, n: nat)
    requires n <= |t| && !HasCredentialMarker(t)
    ensures !HasCredentialMarker(t[..n])
  {
    assert AsciiLower(t[..n]) == AsciiLower(t)[..n];
    forall m | m in CREDENTIAL_MARKERS ensures !Contains(AsciiLower(t[..n]), m) {
      if Contains(AsciiLower(t)[..n], m) { ContainsInPrefix(AsciiLower(t), n, m); }
    }
  }

  /** What `record_stderr` returns for one line. */
  function Recorded(line: string, sensitive: seq<string>): Option<string> {
    Sanitize(RedactAll(line, sensitive))
  }

  /** The recorded line is one of the fixed notices, or at most 500 characters that
      contain none of the sensitive values apart from the marker, whatever the others are. */
  lemma RecordedHidesSecrets(line: string, values: set<string>)
    ensures var out := Recorded(line, KeptValues(values));
      out.Some? ==>
        || IsNotice(out.value)
        || (|out.value| <= STDERR_LINE_MAX_CHARS
            && forall v | v in values && Utf8Len(v) >= 4 && Apart(v) :: !Contains(out.value, v))
  {
    KeptAreNonEmpty(values);
    var out := Recorded(line, KeptValues(values));
    SanitizeOnlyCuts(RedactAll(line, KeptValues(values)));
    if out.Some? && !IsNotice(out.value) { HiddenInPart(line, KeptValues(values), out.value); }
  }

  lemma KeptAreNonEmpty(values: set<string>)
    ensures NoneEmpty(KeptValues(values))
  {
    forall i | 0 <= i < |KeptValues(values)| ensures KeptValues(values)[i] != "" {
      assert KeptValues(values)[i] in KeptValues(values);
    }
  }

  lemma HiddenInPart(line: string, sensitive: seq<string>, out: string)
    requires NoneEmpty(sensitive) && Contains(RedactAll(line, sensitive), out)
    ensures forall v | v in sensitive && Apart(v) :: !Contains(out, v)
  {
    forall v | v in sensitive && Apart(v) ensures !Contains(out, v) {
      RedactAllKeepsOut(line, sensitive, v);
      if Contains(out, v) { ContainsTrans(RedactAll(line, sensitive), out, v); }
    }
  }

  // ---------------------------------------------------------- bounded tail

  function TotalBytes(tail: seq<string>): nat {
    if tail == [] then 0 else Utf8Len(tail[0]) + TotalBytes(tail[1..])
  }

  /** All lines one after the other. */
  function Concat(tail: seq<string>): string { if tail == [] then "" else tail[0] + Concat(tail[1..]) }

  lemma {:induction false} TotalBytesMeans(tail: seq<string>)
    ensures TotalBytes(tail) == |Utf8Encode(Concat(tail))|
  {
    if tail != [] {
      TotalBytesMeans(tail[1..]);
      Utf8EncodeConcat(tail[0], Concat(tail[1..]));
      Utf8LenMeans(tail[0]);
    }
  }

  /** At most 20 lines and 8192 bytes. */
  predicate Fits(tail: seq<string>) {
    |tail| <= 20 && TotalBytes(tail) <= 8192
  }

  /** The last `n` lines. */
  function Last(h: seq<string>, n: nat): seq<string>
    requires n <= |h|
  {
    h[|h| - n..]
  }

  /** `tail` is the longest end of `history` within both limits. */
  ghost predicate LongestFittingSuffix(tail: seq<string>, history: seq<string>) {
    && |tail| <= |history| && tail == Last(history, |tail|) && Fits(tail)
    && TooLongBeyond(tail, history)
  }

  ghost predicate TooLongBeyond(tail: seq<string>, history: seq<string>) {
    forall n | |tail| < n <= |history| :: !Fits(Last(history, n))
  }

  lemma BytesOfFront(t: seq<string>)
    requires t != []
    ensures TotalBytes(t[..|t| - 1]) <= TotalBytes(t)
  {
    if |t| > 1 {
      BytesOfFront(t[1..]);
      assert t[..|t| - 1][1..] == t[1..][..|t| - 2];
    }
  }

  /** Ends that did not fit before a line was added do not fit afterwards. */
  lemma StillTooLong(tail: seq<string>, history: seq<string>, line: string)
    requires |tail| <= |history| && TooLongBeyond(tail, history)
    ensures TooLongBeyond(tail + [line], history + [line])
  {
    forall n | |tail| + 1 < n <= |history| + 1 ensures !Fits(Last(history + [line], n)) {
      var t := Last(history + [line], n);
      assert t[..n - 1] == Last(history, n - 1);
      BytesOfFront(t);
    }
  }

  /** An end of the history that still holds the newest line and may still be too long. */
  ghost predicate Candidate(tail: seq<string>, history: seq<string>, line: string) {
    && tail != [] && |tail| <= |history| && tail == Last(history, |tail|)
    && tail[|tail| - 1] == line && TooLongBeyond(tail, history)
  }

  lemma NewLine(tail: seq<string>, history: seq<string>, line: string)
    requires |tail| <= |history| && tail == Last(history, |tail|) && TooLongBeyond(tail, history)
    ensures Candidate(tail + [line], history + [line], line)
  {
    StillTooLong(tail, history, line);
  }

  /** The oldest line goes; the newest always stays, being short enough by itself. */
  lemma DropOldest(tail: seq<string>, history: seq<string>, line: string)
    requires Candidate(tail, history, line) && !Fits(tail) && Utf8Len(line) <= STDERR_TAIL_MAX_BYTES
    ensures Candidate(tail[1..], history, line)
  {
    SingleLine(tail, line);
    assert tail[1..] == Last(history, |tail| - 1);
  }

  lemma RecordedIsShort(line: string, sensitive: seq<string>)
    ensures Recorded(line, sensitive).Some? ==> Utf8Len(Recorded(line, sensitive).value) <= STDERR_TAIL_MAX_BYTES
  {
    SanitizeOnlyCuts(RedactAll(line, sensitive));
    if Recorded(line, sensitive).Some? { Utf8LenBound(Recorded(line, sensitive).value); }
  }

  lemma SingleLine(tail: seq<string>, line: string)
    requires tail != [] && tail[|tail| - 1] == line && Utf8Len(line) <= STDERR_TAIL_MAX_BYTES
    ensures |tail| == 1 ==> Fits(tail)
  {
    if |tail| == 1 { assert tail == [line] && TotalBytes(tail[1..]) == 0; }
  }

  /** The diagnostics of one child process. */
  class ChildDiagnostics {
    const sensitiveValues: seq<string>
    var stderrTail: seq<string>
    var exited: bool
    var reported: bool
    ghost var history: seq<string>   // every line recorded so far

    ghost predicate Valid() reads this {
      && LongestFittingSuffix(stderrTail, history)
      && (history != [] ==> stderrTail != [])
      && NoneEmpty(sensitiveValues)
    }

    constructor (values: set<string>)
      ensures Valid() && history == [] && stderrTail == [] && !exited && !reported
      ensures sensitiveValues == KeptValues(values)
    {
      sensitiveValues := KeptValues(values);
      stderrTail, history := [], [];
      exited, reported := false, false;
    }

    method Redact(line: string) returns (redacted: string)
      ensures redacted == RedactAll(line, sensitiveValues)
    {
      redacted := line;
      for i := 0 to |sensitiveValues|
        invariant RedactAll(redacted, sensitiveValues[i..]) == RedactAll(line, sensitiveValues)
      {
        assert sensitiveValues[i..][1..] == sensitiveValues[i + 1..];
        redacted := Replace(redacted, sensitiveValues[i], REDACTED);
      }
    }

    method RecordStderr(line: string) returns (out: Option<string>)
      requires Valid()
      modifies this`stderrTail, this`history
      ensures Valid()
      ensures out == Recorded(line, sensitiveValues)
      ensures history == if out.Some? then old(history) + [out.value] else old(history)
      ensures out.Some? ==> stderrTail != [] && stderrTail[|stderrTail| - 1] == out.value
    {
      var redacted := Redact(line);
      out := Sanitize(redacted);
      if out.None? { return; }
      RecordedIsShort(line, sensitiveValues);
      Push(out.value);
    }

    method Push(line: string)
      requires Valid() && Utf8Len(line) <= STDERR_TAIL_MAX_BYTES
      modifies this`stderrTail, this`history
      ensures Valid() && history == old(history) + [line]
      ensures stderrTail != [] && stderrTail[|stderrTail| - 1] == line
    {
      NewLine(stderrTail, history, line);
      stderrTail := stderrTail + [line];
      history := history + [line];
      DropOldLines(line);
    }

    /** Oldest lines go until the rest fits. */
    method DropOldLines(line: string)
      requires Candidate(stderrTail, history, line) && Utf8Len(line) <= STDERR_TAIL_MAX_BYTES
      modifies this`stderrTail
      ensures LongestFittingSuffix(stderrTail, history)
      ensures stderrTail != [] && stderrTail[|stderrTail| - 1] == line
    {
      while |stderrTail| > STDERR_TAIL_MAX_LINES || TotalBytes(stderrTail) > STDERR_TAIL_MAX_BYTES
        invariant Candidate(stderrTail, history, line)
        decreases |stderrTail|
      {
        DropOldest(stderrTail, history, line);
        stderrTail := stderrTail[1..];
      }
    }

    /** One caller's turn at the one-shot report; `text` is the message built from the tail. */
    method TakeTerminalError() returns (error: Option<seq<string>>)
      modifies this`exited, this`reported
      ensures exited && reported
      ensures error == if old(reported) then None else Some(stderrTail)
    {
      if reported {
        exited := true;
        return None;
      }
      reported := true;
      exited := true;
      return Some(stderrTail);
    }
  }
}
