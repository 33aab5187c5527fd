/** The one-shot terminal report of a child, raced by its two pumps and the
    supervisor. Each caller first swaps `reported`, then stores `exited`; the two
    steps are atomic and steps of different callers interleave freely. */
module TerminalReport {

  type Caller = nat

  datatype Phase =
    | Swapped(first: bool)     // the swap is done, `exited` not yet stored
    | Returned(first: bool)    // the call is over; the first caller holds the error

  datatype State = State(reported: bool, exited: bool, calls: map<Caller, Phase>)

  const INITIAL := State(false, false, map[])

  datatype Action = Swap(caller: Caller) | StoreExited(caller: Caller)

  predicate Enabled(s: State, a: Action) {
    match a
    case Swap(c) => c !in s.calls
    case StoreExited(c) => c in s.calls && s.calls[c].Swapped?
  }

  function Step(s: State, a: Action): State
    requires Enabled(s, a)
  {
    match a
    case Swap(c) => State(true, s.exited, s.calls[c := Swapped(!s.reported)])
    case StoreExited(c) => State(s.reported, true, s.calls[c := Returned(s.calls[c].first)])
  }

  /** Any number of steps of any callers. */
  ghost predicate IsRun(run: seq<State>) {
    run != [] && forall i {:trigger run[i + 1]} | 0 <= i < |run| - 1 ::
      exists a :: Enabled(run[i], a) && run[i + 1] == Step(run[i], a)
  }

  ghost predicate Inv(s: State) {
    && (s.reported <==> s.calls != map[])
    && (s.reported ==> exists c :: c in s.calls && s.calls[c].first)
    && (forall c, d | c in s.calls && d in s.calls && s.calls[c].first && s.calls[d].first :: c == d)
    && (s.exited <==> exists c :: c in s.calls && s.calls[c].Returned?)
  }

  lemma StepKeepsInv(s: State, a: Action)
    requires Inv(s) && Enabled(s, a)
    ensures Inv(Step(s, a))
  {
    var t := Step(s, a);
    assert a.caller in t.calls;
    forall c | c in s.calls ensures c in t.calls && t.calls[c].first == s.calls[c].first {}
    if s.reported {
      var w :| w in s.calls && s.calls[w].first;
      assert w in t.calls && t.calls[w].first;
    }
    if s.exited && a.Swap? {
      var r :| r in s.calls && s.calls[r].Returned?;
      assert t.calls[r].Returned?;
    }
  }

  /** What every run from the start keeps, at each moment and between any two. */
  lemma {:induction false} EveryRun(run: seq<State>, i: nat, j: nat)
    requires IsRun(run) && run[0] == INITIAL && i <= j < |run|
    ensures Inv(run[i]) && Inv(run[j]) && Later(run[i], run[j])
    ensures run[j].exited ==> run[j].reported
    decreases j
  {
    if j > 0 {
      var k := j - 1;
      EveryRun(run, k, k);
      var a :| Enabled(run[k], a) && run[k + 1] == Step(run[k], a);
      StepKeepsInv(run[k], a);
      if i < j {
        EveryRun(run, i, k);
        StepIsLater(run[i], run[k], a);
      }
    }
  }

  /** Flags stay set, calls keep their outcome, and a call that starts after `exited`
      was seen gets nothing. */
  ghost predicate Later(s: State, t: State) {
    && (s.reported ==> t.reported) && (s.exited ==> t.exited)
    && (forall c | c in s.calls :: c in t.calls && t.calls[c].first == s.calls[c].first)
    && (s.exited ==> forall c | c in t.calls && t.calls[c].first :: c in s.calls)
  }

  lemma StepIsLater(s: State, t: State, a: Action)
    requires Inv(s) && Inv(t) && Later(s, t) && Enabled(t, a)
    ensures Later(s, Step(t, a))
  {
  }

  predicate SoleHolder(s: State, c: Caller) {
    && c in s.calls && s.calls[c] == Returned(true)
    && forall d | d in s.calls && d != c :: s.calls[d] == Returned(false)
  }

  /** When every call made has returned, exactly one of them holds the error. */
  lemma ExactlyOneReport(run: seq<State>)
    requires IsRun(run) && run[0] == INITIAL
    requires var s := run[|run| - 1]; s.calls != map[] && forall c | c in s.calls :: s.calls[c].Returned?
    ensures var s := run[|run| - 1]; s.exited && exists c :: SoleHolder(s, c)
  {
    var s := run[|run| - 1];
    EveryRun(run, |run| - 1, |run| - 1);
    var c :| c in s.calls && s.calls[c].first;
    assert SoleHolder(s, c);
  }
}
