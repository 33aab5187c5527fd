/** Strings as the daemon uses them: substring search, leftmost replacement,
    byte lengths, and the key order of a `BTreeMap<String, _>`. */
module Text {

  /** `p` stands in `s` at offset `i`. */
  predicate OccursAt(s: string, p: string, i: int) {
    0 <= i && i + |p| <= |s| && s[i..i + |p|] == p
  }

  predicate Contains(s: string, p: string) {
    exists i | 0 <= i <= |s| :: OccursAt(s, p, i)
  }

  /** `str::replace`: leftmost, non-overlapping. An empty pattern matches at
      every character boundary. */
  function Replace(s: string, p: string, v: string): string {
    if p == "" then v + Interleave(s, v)
    else if s == "" then ""
    else if p <= s then v + Replace(s[|p|..], p, v)
    else [s[0]] + Replace(s[1..], p, v)
  }

  function Interleave(s: string, v: string): string {
    if s == "" then "" else [s[0]] + v + Interleave(s[1..], v)
  }

  /** An empty pattern: the value goes before every character and after the last. */
  lemma {:induction false} EmptyPattern(s: string, v: string)
    ensures Replace("", "", v) == v
    ensures s != "" ==> Replace(s, "", v) == v + [s[0]] + Replace(s[1..], "", v)
  {
    if s != "" {
      assert v + ([s[0]] + v + Interleave(s[1..], v)) == v + [s[0]] + (v + Interleave(s[1..], v));
    }
    assert v + Interleave("", v) == v;
  }

  lemma SliceOfSlice(s: string, lo: nat, hi: nat, a: nat, b: nat)
    requires lo <= hi <= |s| && a <= b <= hi - lo
    ensures s[lo..hi][a..b] == s[lo + a..lo + b]
  {
    var u := s[lo..hi];
    forall k | 0 <= k < b - a ensures u[a..b][k] == s[lo + a..lo + b][k] {
      assert u[a..b][k] == u[a + k];
    }
  }

  /** A substring of a substring is a substring. */
  lemma ContainsTrans(s: string, t: string, p: string)
    requires Contains(s, t) && Contains(t, p)
    ensures Contains(s, p)
  {
    var i :| 0 <= i <= |s| && OccursAt(s, t, i);
    var j :| 0 <= j <= |t| && OccursAt(t, p, j);
    SliceOfSlice(s, i, i + |t|, j, j + |p|);
    assert OccursAt(s, p, i + j);
  }

  lemma SliceIsContained(s: string, lo: nat, hi: nat)
    requires lo <= hi <= |s|
    ensures Contains(s, s[lo..hi])
  {
    assert OccursAt(s, s[lo..hi], lo);
  }

  lemma ContainsInSuffix(s: string, n: nat, p: string)
    requires n <= |s| && Contains(s[n..], p)
    ensures Contains(s, p)
  {
    assert s[n..|s|] == s[n..];
    SliceIsContained(s, n, |s|);
    ContainsTrans(s, s[n..], p);
  }

  /** The defining property of a leftmost replacement: everything before the
      first match is kept, and scanning resumes after the match. */
  lemma {:induction false} ReplaceIsLeftmost(a: string, p: string, rest: string, v: string)
    requires p != "" && forall j | 0 <= j < |a| :: !OccursAt(a + (p + rest), p, j)
    ensures Replace(a + (p + rest), p, v) == a + (v + Replace(rest, p, v))
  {
    var s := a + (p + rest);
    OccursAtZero(s, p);
    if a == "" {
      assert s == p + rest && s[|p|..] == rest;
      assert Replace(s, p, v) == v + Replace(rest, p, v);
    } else {
      var t := a[1..] + (p + rest);
      assert s[1..] == t;
      forall j | 0 <= j < |a| - 1 ensures !OccursAt(t, p, j) { ShiftOccurrence(s, p, j); }
      ReplaceIsLeftmost(a[1..], p, rest, v);
      Prepend(a, v + Replace(rest, p, v));
    }
  }

  /** Offset of the first occurrence, or the length if there is none. */
  function Find(s: string, p: string): (n: nat)
    ensures n <= |s|
    ensures n < |s| ==> p <= s[n..]
  {
    if s == "" || p <= s then 0 else 1 + Find(s[1..], p)
  }

  /** The first offset from `i` on at which `p` stands, or the length. */
  lemma FirstMatch(s: string, p: string, i: nat) returns (n: nat)
    requires i <= |s| && forall q | 0 <= q < i :: !OccursAt(s, p, q)
    ensures n <= |s| && forall q | 0 <= q < n :: !OccursAt(s, p, q)
    ensures OccursAt(s, p, n) || forall q | 0 <= q <= |s| :: !OccursAt(s, p, q)
    decreases |s| - i
  {
    if OccursAt(s, p, i) || i == |s| {
      n := i;
    } else {
      n := FirstMatch(s, p, i + 1);
    }
  }

  lemma {:induction false} NoMatchStays(s: string, p: string, v: string)
    requires p != "" && forall q | 0 <= q <= |s| :: !OccursAt(s, p, q)
    ensures Replace(s, p, v) == s
  {
    if s != "" {
      OccursAtZero(s, p);
      forall q | 0 <= q <= |s| - 1 ensures !OccursAt(s[1..], p, q) { ShiftOccurrence(s, p, q); }
      NoMatchStays(s[1..], p, v);
    }
  }

  /** Everything before the first match stays. */
  lemma ReplaceAtFirst(s: string, p: string, v: string, n: nat)
    requires p != "" && OccursAt(s, p, n) && forall q | 0 <= q < n :: !OccursAt(s, p, q)
    ensures Replace(s, p, v) == s[..n] + (v + Replace(s[n + |p|..], p, v))
  {
    var a, rest := s[..n], s[n + |p|..];
    assert s == a + (p + rest);
    ReplaceIsLeftmost(a, p, rest, v);
  }

  lemma PrefixOccurs(s: string, p: string, n: nat)
    requires n <= |s| && p <= s[n..]
    ensures OccursAt(s, p, n)
  {
    assert s[n..][..|p|] == s[n..n + |p|];
  }

  /** `Find` finds the first match. */
  lemma {:induction false} FindMeans(s: string, p: string)
    ensures forall q | 0 <= q < Find(s, p) :: !OccursAt(s, p, q)
    ensures Find(s, p) < |s| ==> OccursAt(s, p, Find(s, p))
  {
    if Find(s, p) < |s| { PrefixOccurs(s, p, Find(s, p)); }
    forall q | 0 <= q < Find(s, p) ensures !OccursAt(s, p, q) { NothingBeforeFirst(s, p, q); }
  }

  lemma {:induction false} NothingBeforeFirst(s: string, p: string, q: nat)
    requires q < Find(s, p)
    ensures !OccursAt(s, p, q)
  {
    OccursAtZero(s, p);
    if q > 0 {
      NothingBeforeFirst(s[1..], p, q - 1);
      ShiftOccurrence(s, p, q - 1);
    }
  }

  /** The first match is where there is a match and none before. */
  lemma FindIs(s: string, p: string, k: nat)
    requires p != "" && OccursAt(s, p, k) && forall q | 0 <= q < k :: !OccursAt(s, p, q)
    ensures Find(s, p) == k
  {
    FindMeans(s, p);
  }

  lemma OccursInPrefix(s: string, n: nat, p: string, q: nat)
    requires n <= |s|
    ensures OccursAt(s[..n], p, q) <==> q + |p| <= n && OccursAt(s, p, q)
  {
    if q + |p| <= n {
      SliceOfSlice(s, 0, n, q, q + |p|);
      assert s[0..n] == s[..n];
    }
  }

  lemma CutFront(s: string, n: nat, a: nat)
    requires a <= n <= |s|
    ensures s[..n][a..] == s[a..][..n - a]
  {
  }

  lemma {:induction false} TooShortToReplace(s: string, p: string, v: string)
    requires |s| < |p|
    ensures Replace(s, p, v) == s
  {
    if s != "" { TooShortToReplace(s[1..], p, v); }
  }

  lemma Prepend(a: string, tail: string)
    requires a != ""
    ensures [a[0]] + (a[1..] + tail) == a + tail
  {
  }

  lemma OccursAtZero(s: string, p: string)
    ensures OccursAt(s, p, 0) <==> p <= s
  {
    if |p| <= |s| { assert s[0..|p|] == s[..|p|]; }
  }

  lemma ShiftOccurrence(s: string, p: string, j: nat)
    requires s != ""
    ensures OccursAt(s[1..], p, j) == OccursAt(s, p, j + 1)
  {
    if j + |p| <= |s| - 1 {
      assert s[1..][j..j + |p|] == s[j + 1..j + 1 + |p|];
    }
  }

  /** Either nothing matched, or the inserted text is there to be seen. */
  lemma {:induction false} ReplaceChangesOnlyByInserting(s: string, p: string, v: string)
    requires p != ""
    ensures Contains(s, p) ==> Contains(Replace(s, p, v), v)
    ensures Replace(s, p, v) == s || Contains(Replace(s, p, v), v)
  {
    if s == "" {
    } else if p <= s {
      assert OccursAt(Replace(s, p, v), v, 0);
    } else {
      ReplaceChangesOnlyByInserting(s[1..], p, v);
      if Contains(s, p) {
        var i :| 0 <= i <= |s| && OccursAt(s, p, i);
        assert i > 0;
        ShiftOccurrence(s, p, i - 1);
      }
      var r := Replace(s[1..], p, v);
      if Contains(r, v) {
        assert Replace(s, p, v)[1..] == r;
        ContainsInSuffix(Replace(s, p, v), 1, v);
      }
    }
  }

  // ---------------------------------------------------------------- lengths

  /** Bytes a character takes in UTF-8. */
  function Utf8Width(c: char): nat {
    if c as int < 0x80 then 1 else if c as int < 0x800 then 2 else if c as int < 0x10000 then 3 else 4
  }

  /** `String::len`: bytes, not characters. */
  function Utf8Len(s: string): nat {
    if s == "" then 0 else Utf8Width(s[0]) + Utf8Len(s[1..])
  }

  /** The encoding itself (section 3 of RFC 3629). */
  function Utf8Bytes(c: char): seq<nat> {
    var n := c as int;
    if n < 0x80 then [n]
    else if n < 0x800 then [0xC0 + n / 0x40, 0x80 + n % 0x40]
    else if n < 0x10000 then [0xE0 + n / 0x1000, 0x80 + n / 0x40 % 0x40, 0x80 + n % 0x40]
    else [0xF0 + n / 0x40000, 0x80 + n / 0x1000 % 0x40, 0x80 + n / 0x40 % 0x40, 0x80 + n % 0x40]
  }

  /** The first byte tells how many follow, and those are told apart from it. */
  lemma Utf8BytesAreWellFormed(c: char)
    ensures var b := Utf8Bytes(c);
      && |b| == Utf8Width(c)
      && |b| == (if b[0] < 0x80 then 1 else if 0xC2 <= b[0] < 0xE0 then 2 else if 0xE0 <= b[0] < 0xF0 then 3 else 4)
      && b[0] < 0xF5 && forall i | 1 <= i < |b| :: 0x80 <= b[i] < 0xC0
  {
  }

  function Utf8Encode(s: string): seq<nat> { if s == "" then [] else Utf8Bytes(s[0]) + Utf8Encode(s[1..]) }

  /** The length of a string is the number of bytes of its encoding. */
  lemma {:induction false} Utf8LenMeans(s: string)
    ensures Utf8Len(s) == |Utf8Encode(s)|
  {
    if s != "" {
      Utf8LenMeans(s[1..]);
      Utf8BytesAreWellFormed(s[0]);
    }
  }

  lemma {:induction false} Utf8EncodeConcat(a: string, b: string)
    ensures |Utf8Encode(a + b)| == |Utf8Encode(a)| + |Utf8Encode(b)|
  {
    if a == "" {
      assert a + b == b;
    } else {
      assert (a + b)[1..] == a[1..] + b;
      Utf8EncodeConcat(a[1..], b);
    }
  }

  lemma {:induction false} Utf8LenBound(s: string)
    ensures |s| <= Utf8Len(s) <= 4 * |s|
  {
    if s != "" { Utf8LenBound(s[1..]); }
  }

  // ---------------------------------------------------------------- orders

  ghost predicate TotalOrder(le: (string, string) -> bool) {
    && (forall a, b :: le(a, b) || le(b, a))
    && (forall a, b :: le(a, b) && le(b, a) ==> a == b)
    && (forall a, b, c :: le(a, b) && le(b, c) ==> le(a, c))
  }

  /** `Ord for str`: byte order, which is code point order. */
  predicate LexLe(a: string, b: string) {
    a == "" || (b != "" && (a[0] < b[0] || (a[0] == b[0] && LexLe(a[1..], b[1..]))))
  }

  lemma LexTotal(a: string, b: string)
    ensures LexLe(a, b) || LexLe(b, a)
    ensures LexLe(a, b) && LexLe(b, a) ==> a == b
  {
    if a != "" && b != "" {
      LexTotal(a[1..], b[1..]);
      if a[0] == b[0] && a[1..] == b[1..] {
        assert a == [a[0]] + a[1..] && b == [b[0]] + b[1..];
      }
    }
  }

  lemma LexTrans(a: string, b: string, c: string)
    requires LexLe(a, b) && LexLe(b, c)
    ensures LexLe(a, c)
  {
    if a != "" && a[0] == b[0] && b[0] == c[0] { LexTrans(a[1..], b[1..], c[1..]); }
  }

  /** Longest first, ties in byte order: `sort`, then a stable sort by `Reverse(len)`. */
  predicate LongestFirst(a: string, b: string) {
    Utf8Len(a) > Utf8Len(b) || (Utf8Len(a) == Utf8Len(b) && LexLe(a, b))
  }

  lemma OrdersAreTotal()
    ensures TotalOrder(LexLe) && TotalOrder(LongestFirst)
  {
    forall a, b
      ensures LexLe(a, b) || LexLe(b, a)
      ensures LexLe(a, b) && LexLe(b, a) ==> a == b
    { LexTotal(a, b); }
    forall a, b, c | LexLe(a, b) && LexLe(b, c) ensures LexLe(a, c) { LexTrans(a, b, c); }
  }

  lemma LeastElement(s: set<string>, le: (string, string) -> bool) returns (m: string)
    requires TotalOrder(le) && s != {}
    ensures m in s && forall y | y in s :: le(m, y)
  {
    var z :| z in s;
    var rest := s - {z};
    if rest == {} {
      m := z;
      forall y | y in s ensures le(m, y) { assert y != z ==> y in rest; }
    } else {
      var x := LeastElement(rest, le);
      m := if le(x, z) then x else z;
      forall y | y in s ensures le(m, y) {
        if y != z { assert y in rest && le(m, x) && le(x, y); }
      }
    }
  }

  lemma LeastExists(s: set<string>, le: (string, string) -> bool)
    requires TotalOrder(le) && s != {}
    ensures exists x :: x in s && forall y | y in s :: le(x, y)
  {
    var m := LeastElement(s, le);
  }

  /** The elements of a set in ascending order, each once. */
  function SortBy(s: set<string>, le: (string, string) -> bool): (r: seq<string>)
    requires TotalOrder(le)
    ensures forall x :: x in r <==> x in s
    ensures forall i, j | 0 <= i < j < |r| :: r[i] != r[j] && le(r[i], r[j])
  {
    if s == {} then []
    else
      LeastExists(s, le);
      var x :| x in s && forall y | y in s :: le(x, y);
      [x] + SortBy(s - {x}, le)
  }

  /** Strictly ascending in byte order. */
  predicate Ascending(r: seq<string>) {
    forall i, j | 0 <= i < j < |r| :: r[i] != r[j] && LexLe(r[i], r[j])
  }

  /** Iteration order of a `BTreeMap<String, _>`. */
  function SortedKeys<V>(m: map<string, V>): (r: seq<string>)
    ensures forall x :: x in r <==> x in m
    ensures Ascending(r)
  {
    OrdersAreTotal();
    SortBy(m.Keys, LexLe)
  }

  /** There is only one ascending order. */
  lemma {:induction false} AscendingIsUnique(a: seq<string>, b: seq<string>)
    requires Ascending(a) && Ascending(b) && forall x :: x in a <==> x in b
    ensures a == b
  {
    assert b != [] ==> b[0] in b;
    if a != [] {
      assert a[0] in b && b[0] in a;
      LexTotal(a[0], b[0]);
      forall x ensures x in a[1..] <==> x in b[1..] {
        assert x in a[1..] <==> x in a && x != a[0];
        assert x in b[1..] <==> x in b && x != b[0];
      }
      AscendingIsUnique(a[1..], b[1..]);
      assert a == [a[0]] + a[1..] && b == [b[0]] + b[1..];
    }
  }

  /** A key greater than all others comes last. */
  lemma LargestKeyIsLast<V>(m: map<string, V>, k: string, v: V)
    requires k !in m && forall x | x in m :: LexLe(x, k)
    ensures SortedKeys(m[k := v]) == SortedKeys(m) + [k]
  {
    AscendingIsUnique(SortedKeys(m[k := v]), SortedKeys(m) + [k]);
  }
}
