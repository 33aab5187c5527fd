/** Placeholder substitution in spawn arguments. The daemon rewrites each arg by
    one naive substring replacement per binding, one after the other. This module
    says when that equals looking every placeholder up once, all at the same time. */
module Templates {
  import opened Text

  type Bindings = map<string, string>

  // ------------------------------------------------- what the daemon computes

  /** One arg after replacing the first keys of `keys`, in order. */
  function SubstituteArg(arg: string, m: Bindings, keys: seq<string>): string
    requires forall k | k in keys :: k in m
  {
    if keys == [] then arg
    else
      var n := |keys| - 1;
      Replace(SubstituteArg(arg, m, keys[..n]), keys[n], m[keys[n]])
  }

  function SubstituteTemplatedArgs(args: seq<string>, m: Bindings): (out: seq<string>) {
    seq(|args|, i requires 0 <= i < |args| => SubstituteArg(args[i], m, SortedKeys(m)))
  }

  /** The loop over args and, inside it, over the bindings in map order. */
  method SubstituteEach(args: seq<string>, m: Bindings) returns (result: seq<string>)
    ensures result == SubstituteTemplatedArgs(args, m)
  {
    var keys := SortedKeys(m);
    result := [];
    for i := 0 to |args|
      invariant |result| == i
      invariant forall j | 0 <= j < i :: result[j] == SubstituteArg(args[j], m, keys)
    {
      var out := SubstituteOne(args[i], m, keys);
      result := result + [out];
    }
  }

  method SubstituteOne(arg: string, m: Bindings, keys: seq<string>) returns (out: string)
    requires forall k | k in keys :: k in m
    ensures out == SubstituteArg(arg, m, keys)
  {
    out := arg;
    for k := 0 to |keys|
      invariant out == SubstituteArg(arg, m, keys[..k])
    {
      assert keys[..k + 1][..k] == keys[..k];
      out := Replace(out, keys[k], m[keys[k]]);
    }
    assert keys[..|keys|] == keys;
  }

  // --------------------------------------------- the simultaneous substitution

  predicate IsBrace(c: char) { c == '{' || c == '}' }

  predicate BraceFree(s: string) { forall i | 0 <= i < |s| :: !IsBrace(s[i]) }

  /** A key of the form the protocol promises: braces around brace-free text. */
  predicate IsPlaceholder(k: string) {
    |k| >= 2 && k[0] == '{' && k[|k| - 1] == '}' && BraceFree(k[1..|k| - 1])
  }

  ghost predicate Clean(m: Bindings) {
    forall k | k in m :: IsPlaceholder(k) && BraceFree(m[k])
  }

  function NextBrace(s: string): (n: nat)
    ensures n <= |s| && BraceFree(s[..n])
    ensures n < |s| ==> IsBrace(s[n])
  {
    if s == "" || IsBrace(s[0]) then 0 else 1 + NextBrace(s[1..])
  }

  /** The next brace is a closing one. */
  predicate ClosesNext(s: string) { NextBrace(s) < |s| && s[NextBrace(s)] == '}' }

  /** Length of the complete placeholder `s` starts with, or zero. */
  function TokenLen(s: string): (n: nat)
    ensures n <= |s| && (n > 0 ==> IsPlaceholder(s[..n]))
  {
    if s != "" && s[0] == '{' && ClosesNext(s[1..]) then
      var n := NextBrace(s[1..]) + 2;
      assert s[..n][1..n - 1] == s[1..][..n - 2];
      n
    else 0
  }

  /** Each placeholder of `s` is looked up once; inserted text is never rescanned. */
  function Simultaneous(s: string, m: Bindings): string {
    if s == "" then ""
    else
      var n := TokenLen(s);
      if n > 0 && s[..n] in m then m[s[..n]] + Simultaneous(s[n..], m)
      else [s[0]] + Simultaneous(s[1..], m)
  }

  /** Reading on from an open brace, past plain text and complete placeholders,
      one comes to a closing brace. */
  predicate Regroups(r: string) {
    r != "" &&
    if r[0] == '}' then true
    else if r[0] == '{' then TokenLen(r) > 0 && Regroups(r[TokenLen(r)..])
    else Regroups(r[1..])
  }

  /** No brace group of `s` has a complete placeholder inside it, so filling
      placeholders in cannot bring a new one into being. */
  predicate Flat(s: string) {
    s == "" || ((s[0] == '{' && TokenLen(s) == 0 ==> !Regroups(s[1..])) && Flat(s[1..]))
  }

  /** The placeholders in a regrouping tail, up to the brace that closes it. */
  function Inner(r: string): (ks: seq<string>)
    requires Regroups(r)
    ensures forall k | k in ks :: IsPlaceholder(k) && |k| <= |r|
  {
    if r[0] == '}' then []
    else if r[0] == '{' then [r[..TokenLen(r)]] + Inner(r[TokenLen(r)..])
    else Inner(r[1..])
  }

  /** `k` is the greater one at the first character in which it differs from `u`. */
  predicate Beyond(k: string, u: string) {
    k != "" && u != "" && (k[0] > u[0] || (k[0] == u[0] && Beyond(k[1..], u[1..])))
  }

  /** What the group begins with, before its first placeholder. */
  function Lead(r: string): string { ['{'] + r[..NextBrace(r)] }

  /** One of the placeholders inside comes later in byte order than anything that the
      group can turn into, so the group turns into it too late. */
  predicate ClosesLate(r: string)
    requires Regroups(r)
  {
    exists k | k in Inner(r) :: Beyond(k, Lead(r))
  }

  /** Every group of `s` with a complete placeholder inside it closes late. */
  predicate Harmless(s: string) {
    s == "" ||
      ((s[0] == '{' && TokenLen(s) == 0 && Regroups(s[1..]) ==> ClosesLate(s[1..])) && Harmless(s[1..]))
  }

  // -------------------------------------------------------------- scanning

  lemma NextBraceThrough(u: string, r: string)
    requires BraceFree(u)
    ensures NextBrace(u + r) == |u| + NextBrace(r)
    ensures ClosesNext(u + r) == ClosesNext(r)
  {
    if u == "" {
      assert u + r == r;
    } else {
      assert (u + r)[1..] == u[1..] + r;
      NextBraceThrough(u[1..], r);
    }
  }

  /** A placeholder at the head is recognised whatever follows it. */
  lemma TokenAtHead(k: string, r: string)
    requires IsPlaceholder(k)
    ensures TokenLen(k + r) == |k| && (k + r)[..|k|] == k && (k + r)[|k|..] == r
  {
    var inner := k[1..|k| - 1];
    assert (k + r)[1..] == inner + (['}'] + r);
    NextBraceThrough(inner, ['}'] + r);
  }

  lemma PrefixIsToken(s: string, k: string)
    requires IsPlaceholder(k)
    ensures k <= s <==> TokenLen(s) == |k| && s[..|k|] == k
  {
    if k <= s {
      TokenAtHead(k, s[|k|..]);
      assert s == k + s[|k|..];
    }
  }

  function Braced(name: string): string { ['{'] + name + ['}'] }

  lemma BracedIsPlaceholder(name: string)
    requires BraceFree(name)
    ensures IsPlaceholder(Braced(name))
  {
    assert Braced(name)[1..|Braced(name)| - 1] == name;
  }

  /** One binding at a time, the naive replacement is the simultaneous one. */
  lemma {:induction false} ReplaceIsSimultaneous(s: string, k: string, v: string)
    requires IsPlaceholder(k)
    ensures Replace(s, k, v) == Simultaneous(s, map[k := v])
  {
    if s != "" {
      PrefixIsToken(s, k);
      if k <= s {
        ReplaceIsSimultaneous(s[|k|..], k, v);
      } else {
        ReplaceIsSimultaneous(s[1..], k, v);
      }
    }
  }

  /** Text without an open brace is copied. */
  lemma {:induction false} PlainText(u: string, r: string, m: Bindings)
    requires forall i | 0 <= i < |u| :: u[i] != '{'
    ensures Simultaneous(u + r, m) == u + Simultaneous(r, m)
  {
    if u == "" {
      assert u + r == r;
    } else {
      assert (u + r)[1..] == u[1..] + r;
      PlainText(u[1..], r, m);
      assert [u[0]] + (u[1..] + Simultaneous(r, m)) == u + Simultaneous(r, m);
    }
  }

  /** An unbound placeholder is copied. */
  lemma UnboundToken(k: string, r: string, m: Bindings)
    requires IsPlaceholder(k) && k !in m
    ensures Simultaneous(k + r, m) == k + Simultaneous(r, m)
  {
    TokenAtHead(k, r);
    OneOpenBrace(k);
    var u := k[1..];
    var x := Simultaneous(r, m);
    assert (k + r)[1..] == u + r;
    PlainText(u, r, m);
    Associate(['{'], u, x);
    assert ['{'] + u == k;
  }

  /** Substitution brings a closing brace up to an open one only if the text regroups
      and every placeholder on the way is bound. */
  lemma {:induction false} NoNewToken(r: string, m: Bindings)
    requires Clean(m) && ClosesNext(Simultaneous(r, m))
    ensures Regroups(r) && forall k | k in Inner(r) :: k in m
  {
    if r != "" && r[0] != '}' {
      var n := TokenLen(r);
      if n > 0 && r[..n] in m {
        NextBraceThrough(m[r[..n]], Simultaneous(r[n..], m));
        NoNewToken(r[n..], m);
      } else {
        var x := Simultaneous(r[1..], m);
        if r[0] != '{' {
          NextBraceThrough([r[0]], x);
          NoNewToken(r[1..], m);
        }
      }
    }
  }

  /** With `m1` filled in, `r` turns an open brace before it into a placeholder of `m2`. */
  predicate Completes(r: string, m1: Bindings, m2: Bindings) {
    var x := ['{'] + Simultaneous(r, m1);
    x[..TokenLen(x)] in m2 && TokenLen(x) > 0
  }

  /** Filling in `m1` creates no placeholder of `m2`. */
  predicate StaysOpen(s: string, m1: Bindings, m2: Bindings) {
    s == "" || ((s[0] == '{' && TokenLen(s) == 0 ==> !Completes(s[1..], m1, m2)) && StaysOpen(s[1..], m1, m2))
  }

  lemma {:induction false} StaysOpenSuffix(s: string, m1: Bindings, m2: Bindings, n: nat)
    requires StaysOpen(s, m1, m2) && n <= |s|
    ensures StaysOpen(s[n..], m1, m2)
  {
    if n > 0 {
      StaysOpenSuffix(s[1..], m1, m2, n - 1);
      assert s[1..][n - 1..] == s[n..];
    } else {
      assert s[0..] == s;
    }
  }

  lemma {:induction false} FlatStaysOpen(s: string, m1: Bindings, m2: Bindings)
    requires Flat(s) && Clean(m1)
    ensures StaysOpen(s, m1, m2)
  {
    if s != "" {
      FlatStaysOpen(s[1..], m1, m2);
      if s[0] == '{' && TokenLen(s) == 0 && Completes(s[1..], m1, m2) {
        CompletedFrom(s[1..], m1, m2);
      }
    }
  }

  /** A placeholder that substitution completes begins like the group it came from. */
  lemma CompletedFrom(r: string, m1: Bindings, m2: Bindings)
    requires Clean(m1) && Completes(r, m1, m2)
    ensures Regroups(r) && (forall k | k in Inner(r) :: k in m1) && exists k | k in m2 :: Lead(r) <= k
  {
    var x := Simultaneous(r, m1);
    TokenAfterOpen(x);
    NoNewToken(r, m1);
    LeadStays(r, m1);
    LeadIn(r[..NextBrace(r)], x[..NextBrace(x)]);
    assert Lead(r) <= Braced(x[..NextBrace(x)]);
  }

  lemma TokenAfterOpen(x: string)
    requires TokenLen(['{'] + x) > 0
    ensures ClosesNext(x) && (['{'] + x)[..TokenLen(['{'] + x)] == Braced(x[..NextBrace(x)])
  {
    assert (['{'] + x)[1..] == x;
    OpenThrough(x, NextBrace(x));
  }

  lemma OpenThrough(x: string, n: nat)
    requires n < |x| && x[n] == '}'
    ensures (['{'] + x)[..n + 2] == Braced(x[..n])
  {
  }

  lemma LeadIn(u: string, y: string)
    requires u <= y
    ensures ['{'] + u <= Braced(y)
  {
  }

  lemma LeadStays(r: string, m: Bindings)
    ensures var x := Simultaneous(r, m); r[..NextBrace(r)] <= x[..NextBrace(x)]
  {
    var u, tail := r[..NextBrace(r)], r[NextBrace(r)..];
    assert r == u + tail;
    PlainText(u, tail, m);
    NextBraceThrough(u, Simultaneous(tail, m));
  }

  lemma {:induction false} BeyondIsGreater(k: string, u: string, t: string)
    requires Beyond(k, u) && u <= t
    ensures !LexLe(k, t)
  {
    if k[0] == u[0] { BeyondIsGreater(k[1..], u[1..], t[1..]); }
  }

  /** In a harmless arg the smaller keys never create a greater one. */
  lemma {:induction false} HarmlessStaysOpen(s: string, m1: Bindings, m2: Bindings)
    requires Harmless(s) && Clean(m1)
    requires forall k1, k2 | k1 in m1 && k2 in m2 :: LexLe(k1, k2)
    ensures StaysOpen(s, m1, m2)
  {
    if s != "" {
      HarmlessStaysOpen(s[1..], m1, m2);
      if s[0] == '{' && TokenLen(s) == 0 && Completes(s[1..], m1, m2) {
        CompletedFrom(s[1..], m1, m2);
        var k1 :| k1 in Inner(s[1..]) && Beyond(k1, Lead(s[1..]));
        var k2 :| k2 in m2 && Lead(s[1..]) <= k2;
        BeyondIsGreater(k1, Lead(s[1..]), k2);
      }
    }
  }

  /** Two substitutions in a row are one, in which the first takes precedence. */
  lemma {:induction false} Compose(s: string, m1: Bindings, m2: Bindings)
    requires StaysOpen(s, m1, m2) && Clean(m1)
    ensures Simultaneous(Simultaneous(s, m1), m2) == Simultaneous(s, m2 + m1)
    decreases |s|
  {
    if s != "" {
      var n := TokenLen(s);
      if n > 0 {
        StaysOpenSuffix(s, m1, m2, n);
        Compose(s[n..], m1, m2);
        ComposeToken(s[..n], s[n..], m1, m2);
        assert s == s[..n] + s[n..];
      } else {
        Compose(s[1..], m1, m2);
        assert ([s[0]] + Simultaneous(s[1..], m1))[1..] == Simultaneous(s[1..], m1);
      }
    }
  }

  lemma ComposeToken(k: string, r: string, m1: Bindings, m2: Bindings)
    requires IsPlaceholder(k) && Clean(m1)
    requires Simultaneous(Simultaneous(r, m1), m2) == Simultaneous(r, m2 + m1)
    ensures Simultaneous(Simultaneous(k + r, m1), m2) == Simultaneous(k + r, m2 + m1)
  {
    var x := Simultaneous(r, m1);
    TokenAtHead(k, r);
    TokenAtHead(k, x);
    if k in m1 {
      PlainText(m1[k], x, m2);
    } else {
      UnboundToken(k, r, m1);
      if k !in m2 {
        UnboundToken(k, x, m2);
        UnboundToken(k, r, m2 + m1);
      }
    }
  }

  // ----------------------------------------------------------- main results

  function Restrict(m: Bindings, keys: seq<string>): Bindings {
    map k | k in m && k in keys :: m[k]
  }

  /** Whatever the order of the bindings, the sequence of naive replacements is
      the simultaneous substitution of the bindings used so far. */
  lemma {:induction false} SequentialIsSimultaneous(arg: string, m: Bindings, keys: seq<string>)
    requires Flat(arg) && Clean(m) && forall k | k in keys :: k in m
    ensures SubstituteArg(arg, m, keys) == Simultaneous(arg, Restrict(m, keys))
  {
    if keys == [] {
      NoKeys(arg, m);
    } else {
      var n := |keys| - 1;
      SequentialIsSimultaneous(arg, m, keys[..n]);
      FlatStaysOpen(arg, Restrict(m, keys[..n]), map[keys[n] := m[keys[n]]]);
      NextKey(arg, m, keys);
    }
  }

  /** In ascending order that is already so for every harmless arg. */
  lemma {:induction false} AscendingIsSimultaneous(arg: string, m: Bindings, keys: seq<string>)
    requires Harmless(arg) && Clean(m) && Ascending(keys) && forall k | k in keys :: k in m
    ensures SubstituteArg(arg, m, keys) == Simultaneous(arg, Restrict(m, keys))
  {
    if keys == [] {
      NoKeys(arg, m);
    } else {
      var n := |keys| - 1;
      AscendingIsSimultaneous(arg, m, keys[..n]);
      HarmlessStaysOpen(arg, Restrict(m, keys[..n]), map[keys[n] := m[keys[n]]]);
      NextKey(arg, m, keys);
    }
  }

  lemma NoKeys(arg: string, m: Bindings)
    ensures Simultaneous(arg, Restrict(m, [])) == arg
  {
    assert Restrict(m, []) == map[];
    NothingBound(arg);
  }

  lemma NextKey(arg: string, m: Bindings, keys: seq<string>)
    requires Clean(m) && keys != [] && forall k | k in keys :: k in m
    requires var before, k := keys[..|keys| - 1], keys[|keys| - 1];
      && SubstituteArg(arg, m, before) == Simultaneous(arg, Restrict(m, before))
      && StaysOpen(arg, Restrict(m, before), map[k := m[k]])
    ensures SubstituteArg(arg, m, keys) == Simultaneous(arg, Restrict(m, keys))
  {
    var before, k := keys[..|keys| - 1], keys[|keys| - 1];
    ReplaceIsSimultaneous(SubstituteArg(arg, m, before), k, m[k]);
    Compose(arg, Restrict(m, before), map[k := m[k]]);
    assert keys == before + [k];
    RestrictMore(m, before, k);
  }

  lemma RestrictMore(m: Bindings, before: seq<string>, k: string)
    requires k in m
    ensures map[k := m[k]] + Restrict(m, before) == Restrict(m, before + [k])
  {
  }

  lemma {:induction false} NothingBound(s: string)
    ensures Simultaneous(s, map[]) == s
  {
    if s != "" { NothingBound(s[1..]); }
  }

  /** Substituting again, with any values for the same or fewer placeholders,
      changes nothing: the old values are baked in. */
  lemma {:induction false} AlreadySubstituted(arg: string, m: Bindings, m2: Bindings, keys: seq<string>)
    requires Flat(arg) && Clean(m) && Clean(m2) && m2.Keys <= m.Keys
    requires forall k | k in keys :: k in m2
    ensures SubstituteArg(Simultaneous(arg, m), m2, keys) == Simultaneous(arg, m)
  {
    if keys != [] {
      var n := |keys| - 1;
      var k := keys[n];
      AlreadySubstituted(arg, m, m2, keys[..n]);
      ReplaceIsSimultaneous(Simultaneous(arg, m), k, m2[k]);
      FlatStaysOpen(arg, m, map[k := m2[k]]);
      Compose(arg, m, map[k := m2[k]]);
      assert map[k := m2[k]] + m == m;
    }
  }

  /** Once filled in, an arg stays as it is under any values for the same or fewer
      placeholders, in the daemon's order. */
  ghost predicate StaysFilled(arg: string) {
    forall m, m2 | Clean(m) && Clean(m2) && m2.Keys <= m.Keys ::
      SubstituteArg(Simultaneous(arg, m), m2, SortedKeys(m2)) == Simultaneous(arg, m)
  }

  /** That is so exactly for the flat args. */
  lemma StaysFilledIffFlat(arg: string)
    ensures StaysFilled(arg) <==> Flat(arg)
  {
    if Flat(arg) {
      forall m, m2 | Clean(m) && Clean(m2) && m2.Keys <= m.Keys
        ensures SubstituteArg(Simultaneous(arg, m), m2, SortedKeys(m2)) == Simultaneous(arg, m)
      {
        AlreadySubstituted(arg, m, m2, SortedKeys(m2));
      }
    } else {
      var m, m2 := RefillFails(arg);
    }
  }

  lemma RefillFails(arg: string) returns (m: Bindings, m2: Bindings)
    requires !Flat(arg)
    ensures Clean(m) && Clean(m2) && m2.Keys <= m.Keys
    ensures SubstituteArg(Simultaneous(arg, m), m2, SortedKeys(m2)) != Simultaneous(arg, m)
  {
    var i := NotFlatSomewhere(arg);
    var t := CreatedToken(arg, i);
    var filled := Filled(arg[i + 1..], Filler(|arg|));
    LongKeyUnused(arg, filled, t, "");
    m, m2 := filled[t := ""], map[t := ""];
    DeletedAgain(Simultaneous(arg, m), t);
  }

  lemma DeletedAgain(s: string, t: string)
    requires t != "" && Contains(s, t)
    ensures SubstituteArg(s, map[t := ""], SortedKeys(map[t := ""])) != s
  {
    var m := map[t := ""];
    AscendingIsUnique(SortedKeys(m), [t]);
    assert [t][..0] == [];
    assert SubstituteArg(s, m, [t]) == Replace(s, t, "");
    DeletingShrinks(s, t);
  }

  ghost predicate Enumerates(keys: seq<string>, m: Bindings) {
    forall k :: k in keys <==> k in m
  }

  /** Every order of every clean set of bindings gives the simultaneous result. */
  ghost predicate OrderSafe(arg: string) {
    forall m, keys | Clean(m) && Enumerates(keys, m) ::
      SubstituteArg(arg, m, keys) == Simultaneous(arg, m)
  }

  /** The naive rewrite is safe in every order exactly for the flat args. */
  lemma OrderSafeIffFlat(arg: string)
    ensures OrderSafe(arg) <==> Flat(arg)
  {
    if Flat(arg) {
      forall m, keys | Clean(m) && Enumerates(keys, m)
        ensures SubstituteArg(arg, m, keys) == Simultaneous(arg, m)
      {
        SequentialIsSimultaneous(arg, m, keys);
        assert Restrict(m, keys) == m;
      }
    } else {
      var m, keys := OrderMatters(arg);
    }
  }

  /** Every clean set of bindings, in the one order the daemon has, gives the
      simultaneous result. */
  ghost predicate DaemonSafe(arg: string) {
    forall m | Clean(m) :: SubstituteArg(arg, m, SortedKeys(m)) == Simultaneous(arg, m)
  }

  /** In the daemon's order the rewrite is safe exactly for the harmless args. */
  lemma DaemonSafeIffHarmless(arg: string)
    ensures DaemonSafe(arg) <==> Harmless(arg)
  {
    if Harmless(arg) {
      forall m | Clean(m) ensures SubstituteArg(arg, m, SortedKeys(m)) == Simultaneous(arg, m) {
        AscendingIsSimultaneous(arg, m, SortedKeys(m));
        assert Restrict(m, SortedKeys(m)) == m;
      }
    } else {
      var m := SortedOrderFails(arg);
    }
  }

  lemma {:induction false} FlatIsHarmless(s: string)
    ensures Flat(s) ==> Harmless(s)
  {
    if s != "" { FlatIsHarmless(s[1..]); }
  }

  /** Each harmless arg has all its placeholders filled in at once. */
  lemma ArgsAreSimultaneous(args: seq<string>, m: Bindings)
    requires Clean(m)
    ensures var out := SubstituteTemplatedArgs(args, m);
      |out| == |args| && forall i | 0 <= i < |args| && Harmless(args[i]) :: out[i] == Simultaneous(args[i], m)
  {
    forall i | 0 <= i < |args| && Harmless(args[i])
      ensures SubstituteArg(args[i], m, SortedKeys(m)) == Simultaneous(args[i], m)
    {
      DaemonSafeIffHarmless(args[i]);
    }
  }

  /** Each arg has all its placeholders filled in at once. */
  predicate FillsAll(args: seq<string>, m: Bindings) {
    forall i | 0 <= i < |args| :: SubstituteTemplatedArgs(args, m)[i] == Simultaneous(args[i], m)
  }

  /** The whole command line, as the daemon's loop computes it, for all bindings. */
  lemma ArgsAreSimultaneousIff(args: seq<string>)
    ensures (forall m | Clean(m) :: FillsAll(args, m)) <==> (forall a | a in args :: Harmless(a))
  {
    if forall a | a in args :: Harmless(a) {
      forall m | Clean(m) ensures FillsAll(args, m) { ArgsAreSimultaneous(args, m); }
    } else {
      var i :| 0 <= i < |args| && !Harmless(args[i]);
      var m := SortedOrderFails(args[i]);
      assert SubstituteTemplatedArgs(args, m)[i] != Simultaneous(args[i], m);
    }
  }

  /** A placeholder made of another one's value is filled in as well. */
  lemma NestedPlaceholderGoesWrong() returns (m: Bindings)
    ensures m == map["{A}" := "x", "{x}" := ""] && Clean(m)
    ensures Simultaneous("{{A}}", m) == "{x}" && SubstituteTemplatedArgs(["{{A}}"], m) == [""]
  {
    m := map["{A}" := "x", "{x}" := ""];
    NestedAtOnce(m);
    NestedInTurn(m);
    NestedOrder(m);
    OneArg("{{A}}", m);
    BracedIsPlaceholder("A");
    BracedIsPlaceholder("x");
    assert Braced("A") == "{A}" && Braced("x") == "{x}";
  }

  lemma NestedOrder(m: Bindings)
    requires m.Keys == {"{A}", "{x}"}
    ensures SortedKeys(m) == ["{A}", "{x}"]
  {
    assert "{A}"[1..] == "A}" && "{x}"[1..] == "x}";
    assert LexLe("A}", "x}") && LexLe("{A}", "{x}") && "A}"[0] != "x}"[0];
    AscendingIsUnique(SortedKeys(m), ["{A}", "{x}"]);
  }

  lemma OneArg(arg: string, m: Bindings)
    ensures SubstituteTemplatedArgs([arg], m) == [SubstituteArg(arg, m, SortedKeys(m))]
  {
  }

  lemma NestedAtOnce(m: Bindings)
    requires "{A}" in m && m["{A}"] == "x"
    ensures Simultaneous("{{A}}", m) == "{x}"
  {
    TokenAtHead("{A}", "}");
    assert Simultaneous("}", m) == "}";
    assert Simultaneous("{A}" + "}", m) == "x" + "}";
    assert "{{A}}"[1..] == "{A}" + "}";
  }

  lemma NestedInTurn(m: Bindings)
    requires "{A}" in m && m["{A}"] == "x" && "{x}" in m && m["{x}"] == ""
    ensures SubstituteArg("{{A}}", m, ["{A}", "{x}"]) == ""
  {
    var s := "{" + ("{A}" + "}");
    assert s[1] != "{A}"[1];
    OccursAtZero(s, "{A}");
    ReplaceIsLeftmost("{", "{A}", "}", "x");
    assert Replace("}", "{A}", "x") == "}";
    assert s == "{{A}}" && Replace(s, "{A}", "x") == "{x}";
    assert Replace("{x}", "{x}", "") == "";
    var keys := ["{A}", "{x}"];
    assert keys[..1] == ["{A}"] && ["{A}"][..0] == [];
    assert SubstituteArg(s, m, keys[..1]) == "{x}";
  }

  /** ... but not if the value comes too late: `{b}` follows everything that
      `{a{b}}` can turn into, and so it is with any two such names. */
  lemma HarmlessThoughNotFlat(a: string, b: string)
    requires BraceFree(a) && BraceFree(b) && Beyond(b, a)
    ensures var arg := ['{'] + (a + (Braced(b) + "}")); !Flat(arg) && Harmless(arg)
  {
    var tail := a + (Braced(b) + "}");
    BracedIsPlaceholder(b);
    GroupClosesLate(a, b);
    PlaceholderIsHarmless(Braced(b), "}");
    NoGroups(a, Braced(b) + "}");
    HarmlessHead('{', tail);
    assert (['{'] + tail)[1..] == tail;
  }

  lemma GroupClosesLate(a: string, b: string)
    requires BraceFree(a) && Beyond(b, a) && IsPlaceholder(Braced(b))
    ensures var tail := a + (Braced(b) + "}"); Regroups(tail) && ClosesLate(tail) && !ClosesNext(tail)
  {
    var inside := Braced(b) + "}";
    OneInside(Braced(b));
    RegroupsThrough(a, inside);
    NextBraceThrough(a, inside);
    LeadIs(a, inside);
    BeyondMore(b, "}", a);
    BeyondHead('{', b + "}", a);
    assert ['{'] + (b + "}") == Braced(b);
  }

  lemma OneInside(k: string)
    requires IsPlaceholder(k)
    ensures Regroups(k + "}") && k in Inner(k + "}")
  {
    TokenAtHead(k, "}");
    assert Regroups("}");
  }

  lemma LeadIs(a: string, inside: string)
    requires BraceFree(a) && inside != "" && inside[0] == '{'
    ensures Lead(a + inside) == ['{'] + a
  {
    NextBraceThrough(a, inside);
    assert (a + inside)[..|a|] == a;
  }

  lemma BeyondHead(c: char, k: string, u: string)
    requires Beyond(k, u)
    ensures Beyond([c] + k, [c] + u)
  {
    assert ([c] + k)[1..] == k && ([c] + u)[1..] == u;
  }

  lemma PlaceholderIsHarmless(k: string, r: string)
    requires IsPlaceholder(k) && Harmless(r)
    ensures Harmless(k + r)
  {
    TokenAtHead(k, r);
    OneOpenBrace(k);
    NoGroups(k[1..], r);
    assert k + r == ['{'] + (k[1..] + r);
    HarmlessHead('{', k[1..] + r);
  }

  lemma {:induction false} RegroupsThrough(u: string, r: string)
    requires BraceFree(u) && Regroups(r)
    ensures Regroups(u + r) && Inner(u + r) == Inner(r)
  {
    if u == "" {
      assert u + r == r;
    } else {
      assert (u + r)[1..] == u[1..] + r;
      RegroupsThrough(u[1..], r);
    }
  }

  lemma {:induction false} BeyondMore(k: string, more: string, u: string)
    requires Beyond(k, u)
    ensures Beyond(k + more, u)
  {
    assert (k + more)[1..] == k[1..] + more;
    if k[0] == u[0] { BeyondMore(k[1..], more, u[1..]); }
  }

  lemma {:induction false} NoGroups(u: string, r: string)
    requires Harmless(r) && forall i | 0 <= i < |u| :: u[i] != '{'
    ensures Harmless(u + r)
  {
    if u == "" {
      assert u + r == r;
    } else {
      assert (u + r)[1..] == u[1..] + r;
      NoGroups(u[1..], r);
    }
  }

  lemma HarmlessHead(c: char, s: string)
    requires Harmless(s)
    requires c != '{' || TokenLen([c] + s) > 0 || (Regroups(s) && ClosesLate(s))
    ensures Harmless([c] + s)
  {
    assert ([c] + s)[1..] == s;
  }

  // -------------------------------------------- why the conditions are needed

  const GREATEST_CHAR := '\U{10FFFF}'

  /** A filler as long as any placeholder of an arg of length `n`, and greater. */
  function Filler(n: nat): (x: string)
    ensures |x| == n && BraceFree(x)
    ensures n > 0 ==> x == [GREATEST_CHAR] + Filler(n - 1)
  {
    seq(n, i => GREATEST_CHAR)
  }

  /** Binds the placeholders inside a group to the filler. */
  function Filled(r: string, x: string): Bindings
    requires Regroups(r)
  {
    map k | k in Inner(r) :: x
  }

  /** Filled in, a regrouping tail runs brace-free up to a closing brace. */
  lemma {:induction false} RegroupedRun(r: string, m: Bindings)
    requires Clean(m) && Regroups(r) && forall k | k in Inner(r) :: k in m
    ensures ClosesNext(Simultaneous(r, m))
  {
    if r[0] == '{' {
      var n := TokenLen(r);
      RegroupedRun(r[n..], m);
      NextBraceThrough(m[r[..n]], Simultaneous(r[n..], m));
    } else if r[0] != '}' {
      RegroupedRun(r[1..], m);
      NextBraceThrough([r[0]], Simultaneous(r[1..], m));
    }
  }

  /** The first brace of a group with a placeholder inside is that placeholder's. */
  lemma {:induction false} FirstInner(r: string)
    requires Regroups(r) && !ClosesNext(r)
    ensures var tail := r[NextBrace(r)..];
      tail != "" && tail[0] == '{' && TokenLen(tail) > 0 && tail[..TokenLen(tail)] in Inner(r)
  {
    if r[0] == '{' {
      assert r[0..] == r;
    } else {
      FirstInner(r[1..]);
      assert r[NextBrace(r)..] == r[1..][NextBrace(r[1..])..];
    }
  }

  /** ... and has become the filler. */
  lemma LeadThenFiller(r: string, m: Bindings, filler: string)
    requires Clean(m) && Regroups(r) && !ClosesNext(r) && forall k | k in Inner(r) :: k in m && m[k] == filler
    ensures var x := Simultaneous(r, m); r[..NextBrace(r)] + filler <= x[..NextBrace(x)]
  {
    FirstInner(r);
    var u, tail := r[..NextBrace(r)], r[NextBrace(r)..];
    var rest := Simultaneous(tail[TokenLen(tail)..], m);
    assert r == u + tail;
    PlainText(u, tail, m);
    Associate(u, filler, rest);
    NextBraceThrough(u + filler, rest);
  }

  /** At offset `i` an open brace begins a group with a placeholder inside. */
  predicate GroupAt(s: string, i: nat) {
    i < |s| && s[i] == '{' && TokenLen(s[i..]) == 0 && Regroups(s[i + 1..])
  }

  lemma NotFlatSomewhere(s: string) returns (i: nat)
    requires !Flat(s)
    ensures GroupAt(s, i)
  {
    if s[0] == '{' && TokenLen(s) == 0 && Regroups(s[1..]) {
      assert s[0..] == s;
      i := 0;
    } else {
      var j := NotFlatSomewhere(s[1..]);
      i := j + 1;
      assert s[1..][j..] == s[i..] && s[1..][j + 1..] == s[i + 1..];
    }
  }

  lemma NotHarmlessSomewhere(s: string) returns (i: nat)
    requires !Harmless(s)
    ensures GroupAt(s, i) && !ClosesLate(s[i + 1..])
  {
    if s[0] == '{' && TokenLen(s) == 0 && Regroups(s[1..]) && !ClosesLate(s[1..]) {
      assert s[0..] == s;
      i := 0;
    } else {
      var j := NotHarmlessSomewhere(s[1..]);
      i := j + 1;
      assert s[1..][j..] == s[i..] && s[1..][j + 1..] == s[i + 1..];
    }
  }

  predicate EndsWith(x: string, y: string) { |y| <= |x| && x[|x| - |y|..] == y }

  /** No placeholder spans an open brace, so what follows it is rewritten on its own. */
  lemma {:induction false} SplitAtOpen(s: string, m: Bindings, i: nat)
    requires i < |s| && s[i] == '{'
    ensures EndsWith(Simultaneous(s, m), Simultaneous(s[i..], m))
    decreases |s|
  {
    if i == 0 {
      assert s[0..] == s;
    } else {
      var n := TokenLen(s);
      var bound := n > 0 && s[..n] in m;
      var step := if bound then n else 1;
      if bound { OneOpenBrace(s[..n]); }
      SplitAtOpen(s[step..], m, i - step);
      DropTwice(s, step, i);
      EndsWithMore(if bound then m[s[..n]] else [s[0]], Simultaneous(s[step..], m), Simultaneous(s[i..], m));
    }
  }

  lemma EndsWithMore(head: string, x: string, y: string)
    requires EndsWith(x, y)
    ensures EndsWith(head + x, y)
  {
  }

  lemma DropTwice(s: string, a: nat, b: nat)
    requires a <= b <= |s|
    ensures s[a..][b - a..] == s[b..]
  {
  }

  lemma OneOpenBrace(k: string)
    requires IsPlaceholder(k)
    ensures forall i | 1 <= i < |k| :: k[i] != '{'
  {
    forall i | 1 <= i < |k| - 1 ensures k[i] != '{' { assert k[i] == k[1..|k| - 1][i - 1]; }
  }

  lemma Associate(a: string, b: string, c: string)
    ensures a + (b + c) == (a + b) + c
  {
  }

  lemma {:induction false} LongKeyUnused(s: string, m: Bindings, t: string, v: string)
    requires |t| > |s|
    ensures Simultaneous(s, m[t := v]) == Simultaneous(s, m)
  {
    if s != "" {
      var n := TokenLen(s);
      LongKeyUnused(s[1..], m, t, v);
      if n > 0 { LongKeyUnused(s[n..], m, t, v); }
    }
  }

  lemma {:induction false} DeletingShrinks(s: string, p: string)
    requires p != ""
    ensures |Replace(s, p, "")| <= |s|
    ensures Contains(s, p) ==> |Replace(s, p, "")| < |s|
  {
    if s != "" {
      if p <= s {
        DeletingShrinks(s[|p|..], p);
      } else {
        DeletingShrinks(s[1..], p);
        if Contains(s, p) {
          var i :| 0 <= i <= |s| && OccursAt(s, p, i);
          OccursAtZero(s, p);
          ShiftOccurrence(s, p, i - 1);
        }
      }
    }
  }

  lemma {:induction false} UnusedBinding(arg: string, m: Bindings, t: string, v: string, keys: seq<string>)
    requires t !in m && forall k | k in keys :: k in m
    ensures SubstituteArg(arg, m[t := v], keys) == SubstituteArg(arg, m, keys)
  {
    if keys != [] { UnusedBinding(arg, m, t, v, keys[..|keys| - 1]); }
  }

  lemma CutToken(x: string, whole: string) returns (t: string)
    requires ClosesNext(x) && EndsWith(whole, ['{'] + x)
    ensures IsPlaceholder(t) && t == Braced(x[..NextBrace(x)]) && Contains(whole, t)
  {
    var n := NextBrace(x);
    t := Braced(x[..n]);
    BracedIsPlaceholder(x[..n]);
    assert ['{'] + x == t + x[n + 1..];
    OccursAtZero(['{'] + x, t);
    ContainsInSuffix(whole, |whole| - |x| - 1, t);
  }

  /** A placeholder longer than the arg that filling in a group creates. */
  lemma CreatedToken(arg: string, i: nat) returns (t: string)
    requires GroupAt(arg, i)
    ensures var r := arg[i + 1..];
      var m := Filled(r, Filler(|arg|));
      && Clean(m) && IsPlaceholder(t) && |t| > |arg| && Contains(Simultaneous(arg, m), t)
      && Lead(r) + Filler(|arg|) <= t
  {
    var r, filler := arg[i + 1..], Filler(|arg|);
    var m := Filled(r, filler);
    var x := Simultaneous(r, m);
    assert arg[i..][1..] == r;
    RegroupedRun(r, m);
    LeadThenFiller(r, m, filler);
    SplitAtOpen(arg, m, i);
    t := CutToken(x, Simultaneous(arg, m));
    assert ['{'] + (r[..NextBrace(r)] + filler) == Lead(r) + filler;
  }

  /** The created placeholder can be made to follow all those inside the group. */
  lemma {:induction false} FillerIsGreater(k: string, u: string, n: nat, t: string)
    requires !Beyond(k, u) && |k| <= n && u + Filler(n) <= t
    ensures LexLe(k, t)
  {
    if k != "" {
      if u != "" {
        assert (u + Filler(n))[0] == u[0] && (u + Filler(n))[1..] == u[1..] + Filler(n);
        if k[0] == u[0] { FillerIsGreater(k[1..], u[1..], n, t[1..]); }
      } else {
        assert u + Filler(n) == Filler(n);
        assert Filler(n)[1..] == Filler(n - 1) == "" + Filler(n - 1);
        FillerIsGreater(k[1..], "", n - 1, t[1..]);
      }
    }
  }

  lemma DeletingDiffers(arg: string, m: Bindings, keys: seq<string>, t: string)
    requires t != "" && |t| > |arg| && t !in m && (forall k | k in keys :: k in m)
    requires SubstituteArg(arg, m, keys) == Simultaneous(arg, m) && Contains(Simultaneous(arg, m), t)
    ensures SubstituteArg(arg, m[t := ""], keys + [t]) != Simultaneous(arg, m[t := ""])
  {
    LongKeyUnused(arg, m, t, "");
    UnusedBinding(arg, m, t, "", keys);
    assert (keys + [t])[..|keys|] == keys;
    DeletingShrinks(Simultaneous(arg, m), t);
  }

  lemma OneMore(m: Bindings, keys: seq<string>, t: string)
    requires Clean(m) && Enumerates(keys, m) && IsPlaceholder(t)
    ensures Clean(m[t := ""]) && Enumerates(keys + [t], m[t := ""])
  {
  }

  /** For an arg that is not flat there are bindings and an order that go wrong. */
  lemma OrderMatters(arg: string) returns (m: Bindings, keys: seq<string>)
    requires !Flat(arg)
    ensures Clean(m) && Enumerates(keys, m)
    ensures SubstituteArg(arg, m, keys) != Simultaneous(arg, m)
  {
    var i := NotFlatSomewhere(arg);
    var t := CreatedToken(arg, i);
    m := Filled(arg[i + 1..], Filler(|arg|));
    keys := SortedKeys(m);
    if SubstituteArg(arg, m, keys) == Simultaneous(arg, m) {
      DeletingDiffers(arg, m, keys, t);
      OneMore(m, keys, t);
      keys := keys + [t];
      m := m[t := ""];
    }
  }

  /** For an arg that is not harmless there are bindings that go wrong in the daemon. */
  lemma SortedOrderFails(arg: string) returns (m: Bindings)
    requires !Harmless(arg)
    ensures Clean(m) && SubstituteArg(arg, m, SortedKeys(m)) != Simultaneous(arg, m)
  {
    var i := NotHarmlessSomewhere(arg);
    var r := arg[i + 1..];
    var t := CreatedToken(arg, i);
    m := Filled(r, Filler(|arg|));
    if SubstituteArg(arg, m, SortedKeys(m)) == Simultaneous(arg, m) {
      DeletingDiffers(arg, m, SortedKeys(m), t);
      OneMore(m, SortedKeys(m), t);
      forall k | k in m ensures LexLe(k, t) { FillerIsGreater(k, Lead(r), |arg|, t); }
      LargestKeyIsLast(m, t, "");
      m := m[t := ""];
    }
  }
}
