/** The Windows command line handed to `cmd /s /c`: quoting each token, and the
    reading that gets the tokens back. */
module CommandLine {
  import opened Options
  import opened Text

  const SPECIAL := " \t\"&|<>^()"

  /** Nothing in it that `cmd` would interpret. */
  predicate Unquoted(s: string) {
    s != "" && forall i | 0 <= i < |s| :: s[i] !in SPECIAL
  }

  function CmdQuote(s: string): string {
    if Unquoted(s) then s
    else "\"" + Replace(s, "\"", "\"\"") + "\""
  }

  function JoinQuoted(tokens: seq<string>): string {
    if tokens == [] then ""
    else if |tokens| == 1 then CmdQuote(tokens[0])
    else CmdQuote(tokens[0]) + " " + JoinQuoted(tokens[1..])
  }

  function BuildCmdLine(program: string, args: seq<string>): string {
    JoinQuoted([program] + args)
  }

  // --------------------------------------------------------------- reading

  /** The rest of a quoted token, where two quotes stand for one, and what follows it. */
  function ReadQuoted(s: string): (r: Option<(string, string)>)
    ensures r.Some? ==> |r.value.1| < |s|
  {
    if s == "" then None
    else if s[0] == '"' then
      if |s| > 1 && s[1] == '"' then
        match ReadQuoted(s[2..])
        case None => None
        case Some((t, rest)) => Some((['"'] + t, rest))
      else Some(("", s[1..]))
    else
      match ReadQuoted(s[1..])
      case None => None
      case Some((t, rest)) => Some(([s[0]] + t, rest))
  }

  function ReadPlain(s: string): (r: (string, string))
    ensures |r.1| <= |s|
  {
    if s == "" || s[0] == ' ' then ("", s)
    else var (t, rest) := ReadPlain(s[1..]); ([s[0]] + t, rest)
  }

  /** The first token of a line and what follows it. */
  function FirstToken(s: string): (r: Option<(string, string)>)
    ensures r.Some? && s != "" ==> |r.value.1| <= |s|
    ensures r.Some? && s == "" ==> r.value.1 == ""
  {
    if s != "" && s[0] == '"' then ReadQuoted(s[1..]) else Some(ReadPlain(s))
  }

  /** The tokens of a line: separated by single spaces, optionally quoted. */
  function Decode(s: string): Option<seq<string>>
    decreases |s|
  {
    match FirstToken(s)
    case None => None
    case Some((t, rest)) =>
      if rest == "" then Some([t])
      else if rest[0] != ' ' then None
      else
        match Decode(rest[1..])
        case None => None
        case Some(ts) => Some([t] + ts)
  }

  // ------------------------------------------------------------ round trip

  predicate Separated(rest: string) { rest == "" || rest[0] == ' ' }

  lemma {:induction false} ReadsQuotedBack(t: string, rest: string)
    requires Separated(rest)
    ensures ReadQuoted(Replace(t, "\"", "\"\"") + "\"" + rest) == Some((t, rest))
  {
    var q, qq := "\"", "\"\"";
    if t == "" {
      assert (q + rest)[1..] == rest;
      assert Replace(t, q, qq) + q + rest == q + rest;
    } else {
      var tail := Replace(t[1..], q, qq);
      ReadsQuotedBack(t[1..], rest);
      assert t == [t[0]] + t[1..];
      var coded := tail + q + rest;
      if t[0] == '"' {
        assert q <= t;
        assert Replace(t, q, qq) + q + rest == qq + coded;
        assert (qq + coded)[2..] == coded;
      } else {
        assert Replace(t, q, qq) + q + rest == [t[0]] + coded;
        assert ([t[0]] + coded)[1..] == coded;
      }
    }
  }

  lemma {:induction false} ReadsPlainBack(t: string, rest: string)
    requires Separated(rest) && forall i | 0 <= i < |t| :: t[i] != ' '
    ensures ReadPlain(t + rest) == (t, rest)
  {
    if t == "" {
      assert t + rest == rest;
    } else {
      assert (t + rest)[1..] == t[1..] + rest;
      ReadsPlainBack(t[1..], rest);
      assert [t[0]] + t[1..] == t;
    }
  }

  /** One token is read back whatever follows it after a space. */
  lemma ReadsTokenBack(t: string, rest: string)
    requires Separated(rest)
    ensures FirstToken(CmdQuote(t) + rest) == Some((t, rest))
  {
    if Unquoted(t) {
      assert ' ' == SPECIAL[0] && '"' == SPECIAL[2];
      ReadsPlainBack(t, rest);
    } else {
      ReadsQuotedBack(t, rest);
      QuotedToken(Replace(t, "\"", "\"\""), rest);
    }
  }

  lemma QuotedToken(body: string, rest: string)
    ensures var s := "\"" + body + "\"" + rest; s[0] == '"' && s[1..] == body + "\"" + rest
  {
  }

  lemma DecodeStep(s: string, t: string, rest: string)
    requires FirstToken(s) == Some((t, rest)) && Separated(rest)
    ensures rest == "" ==> Decode(s) == Some([t])
    ensures rest != "" && Decode(rest[1..]).Some? ==> Decode(s) == Some([t] + Decode(rest[1..]).value)
  {
  }

  lemma {:induction false} DecodeInvertsJoin(tokens: seq<string>)
    requires tokens != []
    ensures Decode(JoinQuoted(tokens)) == Some(tokens)
  {
    var t := tokens[0];
    if |tokens| == 1 {
      ReadsTokenBack(t, "");
      assert CmdQuote(t) + "" == CmdQuote(t);
      DecodeStep(CmdQuote(t), t, "");
      assert tokens == [t];
    } else {
      var more := JoinQuoted(tokens[1..]);
      var rest := " " + more;
      DecodeInvertsJoin(tokens[1..]);
      assert rest[1..] == more;
      ReadsTokenBack(t, rest);
      DecodeStep(CmdQuote(t) + rest, t, rest);
      assert CmdQuote(t) + " " + more == CmdQuote(t) + rest;
      assert [t] + tokens[1..] == tokens;
    }
  }

  /** Reading the command line back gives the program followed by its arguments. */
  lemma CmdLineRoundTrip(program: string, args: seq<string>)
    ensures Decode(BuildCmdLine(program, args)) == Some([program] + args)
  {
    DecodeInvertsJoin([program] + args);
  }

  /** Two different commands never share a command line. */
  lemma CmdLineInjective(p: string, a: seq<string>, q: string, b: seq<string>)
    requires BuildCmdLine(p, a) == BuildCmdLine(q, b)
    ensures p == q && a == b
  {
    CmdLineRoundTrip(p, a);
    CmdLineRoundTrip(q, b);
    assert ([p] + a)[0] == p && ([p] + a)[1..] == a;
    assert ([q] + b)[0] == q && ([q] + b)[1..] == b;
  }

  // ----------------------------------------------------- nothing to interpret

  /** `cmd` sees a special character only outside quotes; `inside` says whether `s`
      begins within quotes. */
  predicate Sheltered(s: string, inside: bool) {
    s == "" ||
      ((s[0] in "\t&|<>^()" ==> inside) && Sheltered(s[1..], if s[0] == '"' then !inside else inside))
  }

  /** Whether `s` ends within quotes. */
  predicate EndsInside(s: string, inside: bool) {
    if s == "" then inside else EndsInside(s[1..], if s[0] == '"' then !inside else inside)
  }

  lemma {:induction false} ShelteredConcat(a: string, b: string, inside: bool)
    ensures Sheltered(a + b, inside) <==> Sheltered(a, inside) && Sheltered(b, EndsInside(a, inside))
    ensures EndsInside(a + b, inside) == EndsInside(b, EndsInside(a, inside))
  {
    if a == "" {
      assert a + b == b;
    } else {
      assert (a + b)[1..] == a[1..] + b;
      ShelteredConcat(a[1..], b, if a[0] == '"' then !inside else inside);
    }
  }

  lemma {:induction false} PlainIsSheltered(s: string)
    requires forall i | 0 <= i < |s| :: s[i] !in SPECIAL
    ensures Sheltered(s, false) && !EndsInside(s, false)
  {
    if s != "" {
      assert SPECIAL == " " + "\t" + "\"" + "&|<>^()";
      assert s[0] !in SPECIAL;
      PlainIsSheltered(s[1..]);
    }
  }

  /** Doubled quotes leave the text between them inside. */
  lemma {:induction false} DoubledIsSheltered(s: string)
    ensures Sheltered(Replace(s, "\"", "\"\""), true) && EndsInside(Replace(s, "\"", "\"\""), true)
  {
    if s != "" {
      var r := Replace(s[1..], "\"", "\"\"");
      DoubledIsSheltered(s[1..]);
      if s[0] == '"' {
        assert "\"" <= s;
        var q := ['"'] + r;
        assert Replace(s, "\"", "\"\"") == ['"'] + q;
        assert (['"'] + q)[1..] == q && q[1..] == r;
      } else {
        assert ([s[0]] + r)[1..] == r;
      }
    }
  }

  /** A token is never empty, and its quotes come in pairs. */
  lemma TokenIsSheltered(t: string)
    ensures CmdQuote(t) != "" && Sheltered(CmdQuote(t), false) && !EndsInside(CmdQuote(t), false)
  {
    if Unquoted(t) {
      PlainIsSheltered(t);
    } else {
      DoubledIsSheltered(t);
      QuotesShelter(Replace(t, "\"", "\"\""));
    }
  }

  lemma QuotesShelter(body: string)
    requires Sheltered(body, true) && EndsInside(body, true)
    ensures var s := "\"" + body + "\""; Sheltered(s, false) && !EndsInside(s, false)
  {
    var q := ['"'];
    ShelteredConcat(body, q, true);
    assert q[1..] == [];
    assert ("\"" + body + "\"")[1..] == body + q;
  }

  lemma {:induction false} JoinIsSheltered(tokens: seq<string>)
    ensures Sheltered(JoinQuoted(tokens), false) && !EndsInside(JoinQuoted(tokens), false)
  {
    if tokens != [] {
      TokenIsSheltered(tokens[0]);
      if |tokens| > 1 {
        JoinIsSheltered(tokens[1..]);
        var more := JoinQuoted(tokens[1..]);
        assert (" " + more)[1..] == more;
        ShelteredConcat(CmdQuote(tokens[0]), " " + more, false);
        assert CmdQuote(tokens[0]) + " " + more == CmdQuote(tokens[0]) + (" " + more);
      }
    }
  }

  /** Every argument shows: no token is empty. */
  lemma TokensShow(t: string)
    ensures |CmdQuote(t)| > 0 && (t == "" ==> CmdQuote(t) == "\"\"")
  {
    if t == "" { assert Replace(t, "\"", "\"\"") == ""; }
  }

  /** Whatever the program and its arguments are, no character that `cmd` would act on
      stands outside quotes, and the last quote is closed. */
  lemma CmdLineIsSheltered(program: string, args: seq<string>)
    ensures Sheltered(BuildCmdLine(program, args), false) && !EndsInside(BuildCmdLine(program, args), false)
  {
    JoinIsSheltered([program] + args);
  }
}
