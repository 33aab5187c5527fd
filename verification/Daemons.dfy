/** The outer loop of the daemon: one session after another, all with the same supervisor. */
module Daemons {
  import opened Options
  import opened Protocol
  import opened EnvStores
  import opened Slots
  import opened Supervisors
  import opened Reconciliation
  import opened Handlers
  import opened Reconnect

  /** One turn of the loop as the supervisor sees it: under which identity the daemon
      connects, and everything it tells the supervisor until it connects again. */
  datatype Session = Session(who: ResolvedRun, commands: seq<Command>)

  function Given(sessions: seq<Session>): seq<Command> {
    if sessions == [] then [] else Given(sessions[..|sessions| - 1]) + sessions[|sessions| - 1].commands
  }

  /** One id after these sessions. */
  function After(w: World, onDisk: Specs, id: string, sessions: seq<Session>): Slot {
    Run(w, id, EMPTY_SLOT.(spec := Lookup(onDisk, id)), Given(sessions))
  }

  /** The identity of the session in which attempt `k` was made. */
  function SpawnedAs(w: World, onDisk: Specs, id: string, sessions: seq<Session>, k: nat): Option<ResolvedRun> {
    if sessions == [] then None
    else
      var n := |sessions| - 1;
      if k >= After(w, onDisk, id, sessions[..n]).attempts then Some(sessions[n].who)
      else SpawnedAs(w, onDisk, id, sessions[..n], k)
  }

  /** The process now running was started for the account that is now current, with the
      values stored for it. */
  predicate Isolated(w: World, onDisk: Specs, id: string, sessions: seq<Session>, current: ResolvedRun) {
    var s := After(w, onDisk, id, sessions);
    s.child.Some? ==>
      var who := SpawnedAs(w, onDisk, id, sessions, s.child.value.instance);
      who.Some? && KeyOf(who.value) == KeyOf(current) && EnvNamespace(who.value) == EnvNamespace(current)
  }

  // ------------------------------------------------------- runs of commands

  lemma {:induction false} RunConcat(w: World, id: string, s: Slot, a: seq<Command>, b: seq<Command>)
    ensures Run(w, id, s, a + b) == Run(w, id, Run(w, id, s, a), b)
  {
    if b == [] {
      assert a + b == a;
    } else {
      assert (a + b)[..|a + b| - 1] == a + b[..|b| - 1];
      RunConcat(w, id, s, a, b[..|b| - 1]);
    }
  }

  lemma RunOne(w: World, id: string, s: Slot, c: Command)
    ensures Run(w, id, s, [c]) == Step(w, id, s, c)
  {
    assert [c][..0] == [];
  }

  /** A process in `t` was there in `s`, or was started since. */
  predicate Descends(s: Slot, t: Slot) {
    && t.attempts >= s.attempts
    && (t.child.Some? ==> t.child.value.instance >= s.attempts || Lives(s, t.child.value.instance))
  }

  lemma {:induction false} ReconcileDescends(w: World, id: string, s: Slot, items: seq<DesiredServer>)
    ensures Descends(s, ReconcileAll(w, id, s, items))
  {
    if items != [] { ReconcileDescends(w, id, s, items[..|items| - 1]); }
  }

  lemma StepDescends(w: World, id: string, s: Slot, c: Command)
    ensures Descends(s, Step(w, id, s, c))
  {
    if c.Delta? { ReconcileDescends(w, id, s, ItemsFor(c.added + c.updated, id)); }
  }

  lemma {:induction false} RunDescends(w: World, id: string, s: Slot, cs: seq<Command>)
    ensures Descends(s, Run(w, id, s, cs))
  {
    if cs != [] {
      RunDescends(w, id, s, cs[..|cs| - 1]);
      StepDescends(w, id, Run(w, id, s, cs[..|cs| - 1]), cs[|cs| - 1]);
    }
  }

  // -------------------------------------------------------------- isolation

  lemma AfterOneMore(w: World, onDisk: Specs, id: string, sessions: seq<Session>, last: Session)
    ensures After(w, onDisk, id, sessions + [last]) == Run(w, id, After(w, onDisk, id, sessions), last.commands)
  {
    assert (sessions + [last])[..|sessions|] == sessions;
    RunConcat(w, id, EMPTY_SLOT.(spec := Lookup(onDisk, id)), Given(sessions), last.commands);
  }

  /** Isolation survives a session if the next identity is of the same account or no
      process is left. */
  lemma NextSession(w: World, onDisk: Specs, id: string, sessions: seq<Session>, last: Session, to: ResolvedRun)
    requires Isolated(w, onDisk, id, sessions, last.who)
    requires SameAccount(last.who, to) || Run(w, id, After(w, onDisk, id, sessions), last.commands).child.None?
    ensures Isolated(w, onDisk, id, sessions + [last], to)
  {
    var s := After(w, onDisk, id, sessions);
    var t := Run(w, id, s, last.commands);
    AfterOneMore(w, onDisk, id, sessions, last);
    assert (sessions + [last])[..|sessions|] == sessions;
    RunDescends(w, id, s, last.commands);
    if t.child.Some? && t.child.value.instance < s.attempts {
      var who := SpawnedAs(w, onDisk, id, sessions, t.child.value.instance);
      NamespaceChangeResets(who.value, to);
      SameAccountMeans(who.value, to);
    }
    SameAccountMeans(last.who, to);
    NamespaceChangeResets(last.who, to);
  }

  // ---------------------------------------------- what a turn tells the supervisor

  function Stop(b: bool): seq<Command> { if b then [ShutdownChildren] else [] }

  /** Going on with another identity. */
  function AdoptCommands(from: ResolvedRun, to: ResolvedRun, storeData: Option<Specs>): seq<Command> {
    if EnvNamespace(from) != EnvNamespace(to) && storeData.Some? then [SwitchEnvStore(storeData.value)]
    else Stop(RequiresChildReset(from, to))
  }

  function SessionCommands(from: ResolvedRun, t: Turn): seq<Command> {
    t.commands + Stop(WatchStopsAll(from, t.watched))
  }

  function TurnCommands(from: ResolvedRun, to: ResolvedRun, delayMs: Option<nat>, t: Turn): seq<Command> {
    SessionCommands(from, t) + Stop(Rejected(from, t)) + Stop(WaitSawUnusable(from, delayMs, t.polls))
      + AdoptCommands(from, to, t.storeData)
  }

  lemma RunStop(w: World, id: string, s: Slot, b: bool)
    ensures Run(w, id, s, Stop(b)) == if b then Kill(s) else s
  {
    if b { RunOne(w, id, s, ShutdownChildren); }
  }

  lemma RunAdopt(w: World, id: string, s: Slot, from: ResolvedRun, to: ResolvedRun, storeData: Option<Specs>)
    ensures Run(w, id, s, AdoptCommands(from, to, storeData)).child ==
      if RequiresChildReset(from, to) then None else s.child
    ensures Run(w, id, s, AdoptCommands(from, to, storeData)).spec == StoredNow(id, Opened(from, to, storeData), s)
  {
    NamespaceChangeResets(from, to);
    if EnvNamespace(from) != EnvNamespace(to) && storeData.Some? {
      RunOne(w, id, s, SwitchEnvStore(storeData.value));
    } else {
      RunStop(w, id, s, RequiresChildReset(from, to));
    }
  }

  function Surviving(stops: bool, s: Slot): Option<Child> { if stops then None else s.child }

  /** The values opened for the next identity, if it needs others. */
  function Opened(from: ResolvedRun, to: ResolvedRun, storeData: Option<Specs>): Option<Specs> {
    if EnvNamespace(from) != EnvNamespace(to) then storeData else None
  }

  /** What is stored for an id: as opened, or as the session left it. */
  function StoredNow(id: string, data: Option<Specs>, s: Slot): Option<ServerSpec> {
    if data.Some? then Lookup(data.value, id) else s.spec
  }

  /** Who survives a turn: everybody, or nobody. */
  lemma TurnSurvivors(w: World, id: string, s: Slot, from: ResolvedRun, to: ResolvedRun, delayMs: Option<nat>, t: Turn)
    ensures Run(w, id, s, TurnCommands(from, to, delayMs, t)).child ==
      Surviving(StopsChildren(from, to, delayMs, t), Run(w, id, s, t.commands))
    ensures Run(w, id, s, TurnCommands(from, to, delayMs, t)).spec ==
      StoredNow(id, Opened(from, to, t.storeData), Run(w, id, s, t.commands))
  {
    var c3 := SessionCommands(from, t) + Stop(Rejected(from, t)) + Stop(WaitSawUnusable(from, delayMs, t.polls));
    StopsAddUp(w, id, s, from, delayMs, t);
    RunConcat(w, id, s, c3, AdoptCommands(from, to, t.storeData));
    RunAdopt(w, id, Run(w, id, s, c3), from, to, t.storeData);
  }

  /** Stopping once or several times is the same. */
  lemma StopsAddUp(w: World, id: string, s: Slot, from: ResolvedRun, delayMs: Option<nat>, t: Turn)
    ensures var watch, rejected := WatchStopsAll(from, t.watched), Rejected(from, t);
      var saw := WaitSawUnusable(from, delayMs, t.polls);
      Run(w, id, s, SessionCommands(from, t) + Stop(rejected) + Stop(saw)) ==
        if watch || rejected || saw then Kill(Run(w, id, s, t.commands)) else Run(w, id, s, t.commands)
  {
    var c1, rejected := SessionCommands(from, t), Rejected(from, t);
    RunConcatStop(w, id, s, t.commands, WatchStopsAll(from, t.watched));
    RunConcatStop(w, id, s, c1, rejected);
    RunConcatStop(w, id, s, c1 + Stop(rejected), WaitSawUnusable(from, delayMs, t.polls));
  }

  lemma RunConcatStop(w: World, id: string, s: Slot, cs: seq<Command>, b: bool)
    ensures Run(w, id, s, cs + Stop(b)) == if b then Kill(Run(w, id, s, cs)) else Run(w, id, s, cs)
  {
    RunConcat(w, id, s, cs, Stop(b));
    RunStop(w, id, Run(w, id, s, cs), b);
  }

  class Daemon {
    const sup: Supervisor
    ghost const onDisk: Specs          // the values stored for the first identity
    var resolved: ResolvedRun
    var backoff: nat
    var storeNamespace: Option<string>
    ghost var waits: nat               // unchanged waits since the backoff was last reset
    ghost var sessions: seq<Session>   // the turns so far
    ghost var told: seq<Command>       // what the supervisor was told in the turn under way

    /** The supervisor is where the sessions so far have brought it. */
    ghost predicate Ready() reads this, sup, sup.state, sup.envStore {
      && sup.Valid() && UpToDate()
      && storeNamespace == EnvNamespace(resolved)
      && backoff == Min(Pow2(waits), BACKOFF_MAX)
    }

    ghost predicate UpToDate() reads this, sup, sup.envStore {
      forall id :: sup.View(id) == Run(sup.world, id, After(sup.world, onDisk, id, sessions), told)
    }

    /** At the head of the loop every process belongs to the current account. */
    ghost predicate Valid() reads this, sup, sup.state, sup.envStore {
      && Ready() && told == []
      && forall id :: Isolated(sup.world, onDisk, id, sessions, resolved)
    }

    constructor (world: World, initial: ResolvedRun, onDisk: Specs)
      ensures Valid() && resolved == initial && waits == 0 && sessions == []
      ensures sup.world == world && this.onDisk == onDisk
      ensures fresh(sup) && fresh(sup.state) && fresh(sup.envStore)
    {
      var store := new EnvStore(onDisk);
      var supervisor := new Supervisor(world, store);
      sup, this.onDisk := supervisor, onDisk;
      resolved, backoff, storeNamespace := initial, BACKOFF_MIN, EnvNamespace(initial);
      waits, sessions, told := 0, [], [];
    }

    /** All children stop if `b` holds. */
    method StopIf(b: bool)
      requires Ready()
      modifies sup, sup.state, this`told
      ensures Ready() && sup.envStore == old(sup.envStore)
      ensures told == old(told) + Stop(b)
    {
      if b { sup.ShutdownAll(); }
      told := told + Stop(b);
      forall id ensures sup.View(id) == Run(sup.world, id, After(sup.world, onDisk, id, sessions), told) {
        RunConcatStop(sup.world, id, After(sup.world, onDisk, id, sessions), old(told), b);
      }
    }

    /** Connect and serve; the configuration is looked at all the while. */
    method RunSession(t: Turn)
      requires Ready() && told == []
      modifies sup, sup.state, sup.envStore, this`told
      ensures Ready() && (sup.envStore == old(sup.envStore) || fresh(sup.envStore))
      ensures told == SessionCommands(resolved, t)
    {
      sup.HandleAll(t.commands);
      told := t.commands;
      var stops := Watch(t.watched);
      StopIf(stops);
    }

    /** The look that ends the session says whether all children are to stop. */
    method Watch(watched: seq<Option<ResolvedRun>>) returns (stops: bool)
      ensures stops == WatchStopsAll(resolved, watched)
    {
      for i := 0 to |watched|
        invariant NoneEnds(resolved, watched[..i])
      {
        if EndsSession(resolved, watched[i]) {
          WatchEnds(resolved, watched, i);
          return StopsAll(resolved, watched[i]);
        }
      }
      assert watched[..|watched|] == watched;
      return false;
    }

    /** Wait for the deadline or for a configuration worth trying; `None` while the
        looks so far leave it waiting. */
    method WaitForConfig(limitMs: Option<nat>, polls: seq<ConfigPoll>) returns (next: Option<ResolvedRun>)
      requires Ready()
      modifies sup, sup.state, this`told
      ensures Ready() && sup.envStore == old(sup.envStore)
      ensures var n := FirstAnswer(resolved, limitMs, polls);
        next == if n < |polls| then polls[n].config else None
      ensures if next.Some?
        then exists n | 0 <= n < |polls| :: next == polls[n].config && GoesOnAt(resolved, limitMs, polls, n)
        else forall j | 0 <= j < |polls| :: PassedOver(resolved, limitMs, polls, j)
      ensures told == old(told) + Stop(WaitSawUnusable(resolved, limitMs, polls))
    {
      var sawUnusable := false;
      FirstAnswerMeans(resolved, limitMs, polls);
      for i := 0 to |polls|
        invariant Ready() && sup.envStore == old(sup.envStore)
        invariant sawUnusable <==> SomeUnusable(polls, i)
        invariant FirstAnswer(resolved, limitMs, polls) == AnswerFrom(resolved, limitMs, polls, i)
        invariant told == old(told) + Stop(sawUnusable)
      {
        var seen := polls[i].config;
        if seen.Some? {
          if !SameConnection(resolved, seen.value) || sawUnusable { return seen; }
        } else {
          if !sawUnusable { StopIf(true); }
          sawUnusable := true;
        }
        if !sawUnusable && limitMs.Some? && polls[i].at >= limitMs.value { return Some(resolved); }
      }
      return None;
    }

    /** One turn of the loop: the delay it set itself, if any, and whether it goes on
        to connect again. */
    method TakeTurn(t: Turn) returns (delayMs: Option<nat>, again: bool)
      requires Valid()
      modifies this, sup, sup.state, sup.envStore
      ensures Valid() && (sup.envStore == old(sup.envStore) || fresh(sup.envStore))
      ensures DelayFits(old(resolved), delayMs, t, old(waits))
      ensures again ==> waits == NextWaits(old(resolved), resolved, t, old(waits))
      // it goes on with the first configuration that answers, given a store for it
      ensures var n := FirstAnswer(old(resolved), delayMs, t.polls);
        && (again <==> n < |t.polls| && StoreReady(old(resolved), t.polls[n].config.value, t))
        && resolved == if again then t.polls[n].config.value else old(resolved)
      ensures again ==> GatedAt(old(resolved), resolved, delayMs, t)
      // who survives: everybody, unless rejected, logged out, or under another account
      ensures sessions ==
        old(sessions) + [Session(old(resolved), TurnCommands(old(resolved), resolved, delayMs, t))]
      ensures var stops := StopsChildren(old(resolved), resolved, delayMs, t);
        forall id :: sup.View(id).child == Surviving(stops, Run(sup.world, id, old(sup.View(id)), t.commands))
      // and which values are stored: those of the new namespace, or what the session made of them
      ensures EnvNamespace(old(resolved)) != EnvNamespace(resolved) ==>
        t.storeData.Some? && forall id :: sup.View(id).spec == Lookup(t.storeData.value, id)
      ensures EnvNamespace(old(resolved)) == EnvNamespace(resolved) ==>
        forall id :: sup.View(id).spec == Run(sup.world, id, old(sup.View(id)), t.commands).spec
    {
      ghost var from := resolved;
      delayMs := Serve(t);
      again := GoOn(delayMs, t);
      EndTurn(from, delayMs, t);
    }

    /** Wait, and go on with what the wait yields, if anything. */
    method GoOn(delayMs: Option<nat>, t: Turn) returns (again: bool)
      requires Ready()
      modifies this`resolved, this`backoff, this`storeNamespace, this`waits, this`told, sup, sup.state
      ensures Ready() && (sup.envStore == old(sup.envStore) || fresh(sup.envStore))
      ensures var n := FirstAnswer(old(resolved), delayMs, t.polls);
        && (again <==> n < |t.polls| && StoreReady(old(resolved), t.polls[n].config.value, t))
        && resolved == if again then t.polls[n].config.value else old(resolved)
      ensures again ==> GatedAt(old(resolved), resolved, delayMs, t)
      ensures again ==> waits == if SameConnection(old(resolved), resolved) then old(waits) + 1 else 0
      ensures told == old(told) + Stop(WaitSawUnusable(old(resolved), delayMs, t.polls))
        + AdoptCommands(old(resolved), resolved, t.storeData)
    {
      var next := WaitForConfig(delayMs, t.polls);
      if next.None? { return false; }
      again := Adopt(next.value, t.storeData);
    }

    /** One session, and how long to wait after it. */
    method Serve(t: Turn) returns (delayMs: Option<nat>)
      requires Ready() && told == []
      modifies this`backoff, this`waits, this`told, sup, sup.state, sup.envStore
      ensures Ready() && (sup.envStore == old(sup.envStore) || fresh(sup.envStore))
      ensures DelayFits(resolved, delayMs, t, old(waits))
      ensures waits == if Rejected(resolved, t) || EndedCleanly(resolved, t) then 0 else old(waits)
      ensures told == SessionCommands(resolved, t) + Stop(Rejected(resolved, t))
    {
      RunSession(t);
      var rejected := Rejected(resolved, t);
      StopIf(rejected);
      if rejected {
        backoff, waits := BACKOFF_MIN, 0;
        delayMs := None;
      } else {
        if EndedCleanly(resolved, t) { backoff, waits := BACKOFF_MIN, 0; }
        delayMs := Some(Jittered(1000 * backoff, t.nanos));
      }
    }

    /** The turn under way is over. */
    ghost method EndTurn(from: ResolvedRun, delayMs: Option<nat>, t: Turn)
      requires Ready() && told == TurnCommands(from, resolved, delayMs, t)
      requires forall id :: Isolated(sup.world, onDisk, id, sessions, from)
      modifies this`sessions, this`told
      ensures Valid() && sessions == old(sessions) + [Session(from, old(told))]
      ensures var stops := StopsChildren(from, resolved, delayMs, t);
        forall id :: sup.View(id).child == Surviving(stops, CommandsRun(id, old(sessions), t.commands))
      ensures var data := Opened(from, resolved, t.storeData);
        forall id :: sup.View(id).spec == StoredNow(id, data, CommandsRun(id, old(sessions), t.commands))
    {
      var ss, last := sessions, Session(from, told);
      sessions, told := sessions + [last], [];
      forall id
        ensures sup.View(id) == Run(sup.world, id, After(sup.world, onDisk, id, sessions), [])
        ensures Isolated(sup.world, onDisk, id, sessions, resolved)
        ensures sup.View(id).child ==
          Surviving(StopsChildren(from, resolved, delayMs, t), CommandsRun(id, ss, t.commands))
        ensures sup.View(id).spec ==
          StoredNow(id, Opened(from, resolved, t.storeData), CommandsRun(id, ss, t.commands))
      {
        AfterOneMore(sup.world, onDisk, id, ss, last);
        TurnSurvivors(sup.world, id, After(sup.world, onDisk, id, ss), from, resolved, delayMs, t);
        NextSession(sup.world, onDisk, id, ss, last, resolved);
      }
    }

    ghost function CommandsRun(id: string, ss: seq<Session>, cs: seq<Command>): Slot {
      Run(sup.world, id, After(sup.world, onDisk, id, ss), cs)
    }

    /** Go on with another configuration, unless its store cannot be opened. */
    method Adopt(next: ResolvedRun, storeData: Option<Specs>) returns (again: bool)
      requires Ready()
      modifies this`resolved, this`backoff, this`storeNamespace, this`waits, this`told, sup, sup.state
      ensures Ready() && (sup.envStore == old(sup.envStore) || fresh(sup.envStore))
      ensures again <==> EnvNamespace(old(resolved)) == EnvNamespace(next) || storeData.Some?
      ensures resolved == if again then next else old(resolved)
      ensures again ==> waits == if SameConnection(old(resolved), next) then old(waits) + 1 else 0
      ensures told == old(told) + AdoptCommands(old(resolved), resolved, storeData)
    {
      var changed := !SameConnection(resolved, next);
      if EnvNamespace(resolved) != EnvNamespace(next) {
        if storeData.None? { return false; }
        Switch(storeData.value);
        storeNamespace := EnvNamespace(next);
      } else {
        StopIf(RequiresChildReset(resolved, next));
      }
      CappedDoubling(waits);
      resolved := next;
      backoff := if changed then BACKOFF_MIN else Min(backoff * 2, BACKOFF_MAX);
      waits := if changed then 0 else waits + 1;
      return true;
    }

    /** Leave the values of one namespace for those of another. */
    method Switch(data: Specs)
      requires Ready()
      modifies this`told, sup, sup.state
      ensures Ready() && fresh(sup.envStore)
      ensures told == old(told) + [SwitchEnvStore(data)]
      ensures forall id :: sup.View(id).child.None? && sup.View(id).spec == Lookup(data, id)
    {
      var store := new EnvStore(data);
      sup.SwitchStore(store);
      told := told + [SwitchEnvStore(data)];
      forall id ensures sup.View(id) == Run(sup.world, id, After(sup.world, onDisk, id, sessions), told) {
        assert told[..|told| - 1] == old(told);
      }
    }

    /** Any number of turns: the identities dialled with and the delays set. */
    method Loop(turns: seq<Turn>) returns (dialled: seq<ResolvedRun>, delays: seq<Option<nat>>)
      requires Valid() && waits == 0 && sessions == []
      modifies this, sup, sup.state, sup.envStore
      ensures Valid()
      ensures |dialled| <= |turns| && Gated(dialled, delays, turns) && Paced(dialled, delays, turns)
      ensures |sessions| == |dialled| && forall i | 0 <= i < |dialled| :: sessions[i].who == dialled[i]
    {
      dialled, delays := [], [];
      for i := 0 to |turns|
        invariant Valid() && |dialled| == |sessions| == i
        invariant sup.envStore == old(sup.envStore) || fresh(sup.envStore)
        invariant OnCourse(dialled, delays, turns, resolved, waits)
        invariant forall j | 0 <= j < i :: sessions[j].who == dialled[j]
      {
        ghost var before := waits;
        var from := resolved;
        var delay, again := TakeTurn(turns[i]);
        StaysOnCourse(dialled, delays, turns, from, before, delay, resolved);
        dialled, delays := dialled + [from], delays + [delay];
        if !again { return; }
      }
      PrefixGated(dialled, delays, turns, resolved);
    }

    lemma AllLatest()
      requires Valid()
      ensures forall id, k :: Lookup(StoredEnv(sup.View(id)), k) == LatestEnv(onDisk, Given(sessions), id, k)
      ensures forall id, k :: Lookup(StoredArgs(sup.View(id)), k) == LatestArg(onDisk, Given(sessions), id, k)
    {
      forall id, k
        ensures Lookup(StoredEnv(sup.View(id)), k) == LatestEnv(onDisk, Given(sessions), id, k)
        ensures Lookup(StoredArgs(sup.View(id)), k) == LatestArg(onDisk, Given(sessions), id, k)
      {
        StoredIsLatest(sup.world, id, onDisk, Given(sessions), k);
      }
    }

    lemma AllAccounted()
      requires Valid()
      ensures forall id :: Inv(sup.world, id, sup.View(id))
    {
      forall id ensures Inv(sup.world, id, sup.View(id)) {
        EveryRun(sup.world, id, Lookup(onDisk, id), Given(sessions));
      }
    }
  }

  /** The daemon from its start. Through all reconnects and changes of account every
      process is accounted for, every child is up to date with the open store unless a
      merge could not be written, and nothing of another account is running. */
  method RunDaemon(world: World, initial: ResolvedRun, onDisk: Specs, turns: seq<Turn>)
    returns (d: Daemon, dialled: seq<ResolvedRun>, delays: seq<Option<nat>>)
    ensures d.Valid() && d.sup.world == world && d.onDisk == onDisk
    ensures forall id :: Inv(world, id, d.sup.View(id)) && Isolated(world, onDisk, id, d.sessions, d.resolved)
    // what is stored is what was pushed last, or opened with the store of the current account
    ensures forall id, k :: Lookup(StoredEnv(d.sup.View(id)), k) == LatestEnv(onDisk, Given(d.sessions), id, k)
    ensures forall id, k :: Lookup(StoredArgs(d.sup.View(id)), k) == LatestArg(onDisk, Given(d.sessions), id, k)
    ensures |d.sessions| == |dialled| && forall i | 0 <= i < |dialled| :: d.sessions[i].who == dialled[i]
    ensures |dialled| <= |turns| && Gated(dialled, delays, turns) && Paced(dialled, delays, turns)
  {
    d := new Daemon(world, initial, onDisk);
    dialled, delays := d.Loop(turns);
    d.AllAccounted();
    d.AllLatest();
  }
}
