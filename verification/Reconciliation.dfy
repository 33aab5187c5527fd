/** What holds of every slot after every run of commands, and what the individual
    handlers achieve. With `Supervisors.Supervisor.HandleAll` these are statements
    about the supervisor's children, store and log. */
module Reconciliation {
  import opened Options
  import opened Protocol
  import opened EnvStores
  import opened Slots
  import opened Supervisors
  import opened Text
  import Templates

  // ------------------------------------------------------ invariant of runs

  function Occurrences(events: seq<Event>, e: Event): nat {
    if events == [] then 0 else Occurrences(events[..|events| - 1], e) + One(events[|events| - 1] == e)
  }

  function Count(s: Slot, e: Event): nat { Occurrences(s.events, e) }

  predicate Lives(s: Slot, k: nat) { s.child.Some? && s.child.value.instance == k }

  predicate WasStarted(w: World, id: string, s: Slot, k: nat) { k < s.attempts && w(id, k).Started? }

  function One(b: bool): nat { if b then 1 else 0 }

  /** Attempt `k` is accounted for: one result, and one shutdown unless it is the live one. */
  predicate Accounted(w: World, id: string, s: Slot, k: nat) {
    && Count(s, SpawnResult(k, true)) == One(WasStarted(w, id, s, k))
    && Count(s, SpawnResult(k, false)) == One(k < s.attempts && w(id, k).Refused?)
    && Count(s, SpawnFailed(k)) == Count(s, SpawnResult(k, false))
    && Count(s, ShutDown(k)) == One(WasStarted(w, id, s, k) && !Lives(s, k))
    && (Lives(s, k) ==> WasStarted(w, id, s, k))
    && Count(s, Offline(k)) <= One(WasStarted(w, id, s, k))
    && (Lives(s, k) ==> Count(s, Offline(k)) == One(s.child.value.reported))
    && Count(s, Unresponsive(k)) <= One(WasStarted(w, id, s, k) && !Lives(s, k))
  }

  ghost predicate Conserved(w: World, id: string, s: Slot) {
    forall k :: Accounted(w, id, s, k)
  }

  function Pending(c: Child): seq<Json> { if c.inFlight.Some? then [c.inFlight.value] else [] }

  predicate ChildOk(id: string, c: Child) {
    && c.raw.serverId == id && c.raw.enabled
    && (c.exited <==> c.reported) && (c.closed ==> c.exited)
    && |c.queue| <= QUEUE_CAPACITY
    && c.accepted == c.consumed + Pending(c) + c.queue
  }

  /** Some merge since the last successful spawn did not reach the disk. */
  predicate Unsaved(events: seq<Event>) {
    events != [] &&
    match events[|events| - 1]
    case PersistFailed => true
    case SpawnResult(_, true) => false
    case _ => Unsaved(events[..|events| - 1])
  }

  predicate RunsCurrentValues(s: Slot) {
    s.child.Some? ==>
      && s.child.value.launched == Enrich(s.spec, s.child.value.raw)
      && s.child.value.redact == SensitiveValues(s.spec, s.child.value.launched)
  }

  predicate Fresh(s: Slot) { Unsaved(s.events) || RunsCurrentValues(s) }

  ghost predicate Inv(w: World, id: string, s: Slot) {
    Conserved(w, id, s) && (s.child.Some? ==> ChildOk(id, s.child.value)) && Fresh(s)
  }

  lemma Appended(events: seq<Event>, e: Event)
    ensures forall f :: Occurrences(events + [e], f) == Occurrences(events, f) + One(e == f)
    ensures (events + [e])[|events + [e]| - 1] == e && (events + [e])[..|events + [e]| - 1] == events
  {
  }

  /** Events that say nothing about spawning or stored values. */
  lemma SameSaved(events: seq<Event>, e: Event)
    requires e.ShutDown? || e.Offline? || e.Unresponsive?
    ensures Unsaved(events + [e]) == Unsaved(events)
  {
    Appended(events, e);
  }

  lemma KillKeeps(w: World, id: string, s: Slot)
    requires Conserved(w, id, s)
    ensures Conserved(w, id, Kill(s)) && Kill(s).child.None?
  {
    if s.child.Some? {
      var live := s.child.value.instance;
      Appended(s.events, ShutDown(live));
      assert Accounted(w, id, s, live);
      forall k ensures Accounted(w, id, Kill(s), k) {
        assert Accounted(w, id, s, k);
      }
    }
  }

  lemma StartKeeps(w: World, id: string, s: Slot, c: Child)
    requires Conserved(w, id, s) && s.child.None? && w(id, s.attempts).Started?
    requires c.instance == s.attempts && !c.reported
    ensures Conserved(w, id, Slot(Some(c), s.attempts + 1, s.spec, s.events + [SpawnResult(s.attempts, true)]))
  {
    Appended(s.events, SpawnResult(s.attempts, true));
    var t := Slot(Some(c), s.attempts + 1, s.spec, s.events + [SpawnResult(s.attempts, true)]);
    forall k ensures Accounted(w, id, t, k) { assert Accounted(w, id, s, k); }
  }

  lemma NewChildIsCurrent(id: string, s: Slot, raw: DesiredServer, pid: Option<nat>)
    requires s.attempts > 0 && s.child == Some(NewChild(s.attempts - 1, s.spec, raw, pid))
    requires raw.serverId == id && raw.enabled
    ensures ChildOk(id, s.child.value) && RunsCurrentValues(s)
  {
  }

  /** Spawning into an empty slot: nothing leaks and the process is up to date. */
  lemma SpawnKeeps(w: World, id: string, s: Slot, raw: DesiredServer)
    requires Conserved(w, id, s) && s.child.None? && raw.serverId == id && raw.enabled
    ensures Inv(w, id, TrySpawn(w, id, s, raw))
  {
    SpawnConserves(w, id, s, raw);
    var t := TrySpawn(w, id, s, raw);
    if w(id, s.attempts).Started? {
      NewChildIsCurrent(id, t, raw, w(id, s.attempts).pid);
    } else {
      assert t.child.None?;
    }
  }

  lemma SpawnConserves(w: World, id: string, s: Slot, raw: DesiredServer)
    requires Conserved(w, id, s) && s.child.None?
    ensures Conserved(w, id, TrySpawn(w, id, s, raw))
  {
    match w(id, s.attempts) {
      case Started(pid) => StartKeeps(w, id, s, NewChild(s.attempts, s.spec, raw, pid));
      case Refused => RefusalKeeps(w, id, s, raw);
    }
  }

  /** Why every caller removes the old entry first: spawning over a live child
      starts a process and loses the old one without shutting it down. */
  lemma SpawnOverLiveChildLeaks(w: World, id: string, s: Slot, raw: DesiredServer)
    requires Conserved(w, id, s) && s.child.Some?
    ensures Conserved(w, id, TrySpawn(w, id, s, raw)) <==> w(id, s.attempts).Refused?
  {
    if w(id, s.attempts).Refused? {
      RefusalKeeps(w, id, s, raw);
    } else {
      var live := s.child.value.instance;
      Appended(s.events, SpawnResult(s.attempts, true));
      assert Accounted(w, id, s, live);
      assert !Accounted(w, id, TrySpawn(w, id, s, raw), live);
    }
  }

  lemma RefusalKeeps(w: World, id: string, s: Slot, raw: DesiredServer)
    requires Conserved(w, id, s) && w(id, s.attempts).Refused?
    ensures Conserved(w, id, TrySpawn(w, id, s, raw))
  {
    var n := s.attempts;
    var e := SpawnResult(n, false);
    Appended(s.events, e);
    Appended(s.events + [e], SpawnFailed(n));
    assert s.events + [e, SpawnFailed(n)] == s.events + [e] + [SpawnFailed(n)];
    var t := s.(attempts := n + 1, events := s.events + [e] + [SpawnFailed(n)]);
    assert TrySpawn(w, id, s, raw) == t;
    forall k ensures Accounted(w, id, t, k) {
      assert Accounted(w, id, s, k);
    }
  }

  /** A spawn attempt adds only its own events. */
  lemma SpawnCounts(w: World, id: string, s: Slot, raw: DesiredServer, e: Event)
    requires !e.SpawnResult? && !e.SpawnFailed?
    ensures Count(TrySpawn(w, id, s, raw), e) == Count(s, e)
  {
    var n := s.attempts;
    var r := SpawnResult(n, w(id, n).Started?);
    Appended(s.events, r);
    Appended(s.events + [r], SpawnFailed(n));
    assert s.events + [r, SpawnFailed(n)] == s.events + [r] + [SpawnFailed(n)];
  }

  lemma RespawnKeeps(w: World, id: string, s: Slot)
    requires Conserved(w, id, s) && (s.child.Some? ==> ChildOk(id, s.child.value))
    ensures Inv(w, id, Respawn(w, id, s))
  {
    if s.child.Some? {
      KillKeeps(w, id, s);
      SpawnKeeps(w, id, Kill(s), s.child.value.raw);
    }
  }

  lemma ReconcileKeeps(w: World, id: string, s: Slot, d: DesiredServer)
    requires Inv(w, id, s) && d.serverId == id
    ensures Inv(w, id, Reconcile(w, id, s, d))
  {
    KillKeeps(w, id, s);
    if d.enabled { SpawnKeeps(w, id, Kill(s), d); }
  }

  lemma ReportKeeps(w: World, id: string, s: Slot)
    requires Inv(w, id, s)
    ensures Inv(w, id, Report(s))
  {
    if s.child.Some? {
      var c := s.child.value;
      Appended(s.events, Offline(c.instance));
      SameSaved(s.events, Offline(c.instance));
      assert Accounted(w, id, s, c.instance);
      forall k ensures Accounted(w, id, Report(s), k) { assert Accounted(w, id, s, k); }
    }
  }

  /** A change inside the live child that leaves its identity and reports alone. */
  lemma InsideKeeps(w: World, id: string, s: Slot, c: Child)
    requires Inv(w, id, s) && s.child.Some? && ChildOk(id, c)
    requires c.instance == s.child.value.instance && c.reported == s.child.value.reported
    requires c.raw == s.child.value.raw && c.launched == s.child.value.launched && c.redact == s.child.value.redact
    ensures Inv(w, id, s.(child := Some(c)))
  {
    forall k ensures Accounted(w, id, s.(child := Some(c)), k) { assert Accounted(w, id, s, k); }
  }

  lemma FrameKeeps(w: World, id: string, s: Slot, body: Json)
    requires Inv(w, id, s)
    ensures Inv(w, id, OnMcpFrame(w, id, s, body))
  {
    if s.child.None? { return; }
    var c := s.child.value;
    if c.exited || c.closed {
      ReportKeeps(w, id, s);
    } else if |c.queue| < QUEUE_CAPACITY {
      InsideKeeps(w, id, s, c.(accepted := c.accepted + [body], queue := c.queue + [body]));
    } else {
      OverflowKeeps(w, id, s);
      SpawnKeeps(w, id, Kill(Overflowed(s)), c.raw);
    }
  }

  function Overflowed(s: Slot): Slot
    requires s.child.Some?
  {
    s.(events := s.events + [Unresponsive(s.child.value.instance)])
  }

  /** The error and the shutdown belong together: between them the count is off. */
  lemma OverflowKeeps(w: World, id: string, s: Slot)
    requires Conserved(w, id, s) && s.child.Some?
    ensures Conserved(w, id, Kill(Overflowed(s)))
  {
    var k := s.child.value.instance;
    Appended(s.events, Unresponsive(k));
    Appended(s.events + [Unresponsive(k)], ShutDown(k));
    assert Accounted(w, id, s, k);
    forall n ensures Accounted(w, id, Kill(Overflowed(s)), n) { assert Accounted(w, id, s, n); }
  }

  lemma PumpKeeps(w: World, id: string, s: Slot)
    requires Inv(w, id, s)
    ensures Inv(w, id, OnPumpTakes(s)) && Inv(w, id, OnPumpDone(s)) && Inv(w, id, OnPumpFails(s))
  {
    if s.child.Some? && !s.child.value.closed {
      var c := s.child.value;
      if c.inFlight.Some? {
        var d := c.(inFlight := None, consumed := c.consumed + [c.inFlight.value]);
        InsideKeeps(w, id, s, d);
        ReportKeeps(w, id, s);
        var t := Report(s);
        InsideKeeps(w, id, t, t.child.value.(closed := true));
      } else if c.queue != [] {
        var d := c.(inFlight := Some(c.queue[0]), queue := c.queue[1..]);
        assert [c.queue[0]] + c.queue[1..] == c.queue;
        InsideKeeps(w, id, s, d);
      }
    }
  }

  lemma SpecChangeKeeps(w: World, id: string, s: Slot, spec: Option<ServerSpec>)
    requires Conserved(w, id, s)
    ensures Conserved(w, id, s.(spec := spec))
  {
    forall k ensures Accounted(w, id, s.(spec := spec), k) { assert Accounted(w, id, s, k); }
  }

  lemma PersistFailedKeeps(w: World, id: string, s: Slot)
    requires Conserved(w, id, s)
    ensures Conserved(w, id, s.(events := s.events + [PersistFailed])) && Unsaved(s.events + [PersistFailed])
  {
    Appended(s.events, PersistFailed);
    forall k ensures Accounted(w, id, s.(events := s.events + [PersistFailed]), k) { assert Accounted(w, id, s, k); }
  }

  lemma MergeKeeps(w: World, id: string, s: Slot, env: Option<Env>, templatedArgs: Option<Env>, writes: bool)
    requires Inv(w, id, s)
    ensures Inv(w, id, OnMerge(w, id, s, env, templatedArgs, writes))
  {
    var t := s.(spec := Some(MergedSpec(s.spec, env, templatedArgs)));
    SpecChangeKeeps(w, id, s, t.spec);
    if writes { RespawnKeeps(w, id, t); } else { PersistFailedKeeps(w, id, t); }
  }

  lemma ForgetKeeps(w: World, id: string, s: Slot, spec: Option<ServerSpec>)
    requires Inv(w, id, s)
    ensures Inv(w, id, Kill(s).(spec := spec))
  {
    KillKeeps(w, id, s);
    SpecChangeKeeps(w, id, Kill(s), spec);
  }

  lemma {:induction false} ReconcileAllKeeps(w: World, id: string, s: Slot, items: seq<DesiredServer>)
    requires Inv(w, id, s) && forall i | 0 <= i < |items| :: items[i].serverId == id
    ensures Inv(w, id, ReconcileAll(w, id, s, items))
  {
    if items != [] {
      ReconcileAllKeeps(w, id, s, items[..|items| - 1]);
      ReconcileKeeps(w, id, ReconcileAll(w, id, s, items[..|items| - 1]), items[|items| - 1]);
    }
  }

  lemma {:induction false} ItemsAreFor(items: seq<DesiredServer>, id: string)
    ensures forall i | 0 <= i < |ItemsFor(items, id)| :: ItemsFor(items, id)[i].serverId == id
  {
    if items != [] { ItemsAreFor(items[..|items| - 1], id); }
  }

  lemma {:induction false} WantedIsFor(servers: seq<DesiredServer>, id: string)
    ensures Wanted(servers, id).Some? ==> Wanted(servers, id).value.serverId == id
  {
    if servers != [] { WantedIsFor(servers[..|servers| - 1], id); }
  }

  lemma StepKeeps(w: World, id: string, s: Slot, c: Command)
    requires Inv(w, id, s)
    ensures Inv(w, id, Step(w, id, s, c))
  {
    match c {
      case Snapshot(servers) =>
        WantedIsFor(servers, id);
        if Wanted(servers, id).Some? { ReconcileKeeps(w, id, s, Wanted(servers, id).value); }
        else { KillKeeps(w, id, s); }
      case Delta(added, updated, removed, _) =>
        var items := ItemsFor(added + updated, id);
        ItemsAreFor(added + updated, id);
        ReconcileAllKeeps(w, id, s, items);
        ForgetKeeps(w, id, ReconcileAll(w, id, s, items), None);
      case EnvUpdate(_, values, ok) => MergeKeeps(w, id, s, Some(values), None, ok);
      case SpecUpdate(_, env, ta, ok) => MergeKeeps(w, id, s, env, ta, ok);
      case McpFrame(_, body) => FrameKeeps(w, id, s, body);
      case ShutdownChildren => KillKeeps(w, id, s);
      case SwitchEnvStore(data) => ForgetKeeps(w, id, s, Lookup(data, id));
      case StdoutEnds(_) => ReportKeeps(w, id, s);
      case _ => PumpKeeps(w, id, s);
    }
  }

  /** Conservation, frame order, one-shot reports and freshness after every run. */
  lemma {:induction false} EveryRun(w: World, id: string, stored: Option<ServerSpec>, cs: seq<Command>)
    ensures Inv(w, id, Run(w, id, EMPTY_SLOT.(spec := stored), cs))
  {
    var start := EMPTY_SLOT.(spec := stored);
    if cs == [] {
      forall k ensures Accounted(w, id, start, k) {}
    } else {
      EveryRun(w, id, stored, cs[..|cs| - 1]);
      StepKeeps(w, id, Run(w, id, start, cs[..|cs| - 1]), cs[|cs| - 1]);
    }
  }

  // ---------------------------------------------------------- freshness

  function StoredEnv(s: Slot): Env { if s.spec.Some? then s.spec.value.env else map[] }

  function StoredArgs(s: Slot): Env { if s.spec.Some? then s.spec.value.templatedArgs else map[] }

  /** Every pushed value is stored already. */
  predicate AlreadyStored(pushed: Env, stored: Env) {
    forall k | k in pushed :: k in stored && stored[k] == pushed[k]
  }

  /** A pushed env that makes no difference to a process: nothing, what is stored, or,
      while nothing is stored, exactly what the backend asked for anyway. */
  predicate EnvPushIsIdle(s: Slot, raw: DesiredServer, pushed: Env) {
    pushed == map[] || (if StoredEnv(s) != map[] then AlreadyStored(pushed, StoredEnv(s)) else pushed == raw.env)
  }

  /** After an env push that fails to be written, an up-to-date child is still up to
      date exactly when the push was idle. */
  lemma FailedEnvPushIsFreshIff(w: World, id: string, s: Slot, pushed: Env)
    requires s.child.Some? && RunsCurrentValues(s)
    ensures RunsCurrentValues(OnMerge(w, id, s, Some(pushed), None, false)) <==>
      EnvPushIsIdle(s, s.child.value.raw, pushed)
  {
    var after := MergedSpec(s.spec, Some(pushed), None);
    StaysFreshIff(s, after);
    EnvIsSameIff(s, s.child.value.raw, after, pushed);
  }

  /** What has to stay the same when other values are stored. */
  lemma StaysFreshIff(s: Slot, after: ServerSpec)
    requires s.child.Some? && RunsCurrentValues(s)
    ensures var c := s.child.value;
      RunsCurrentValues(s.(spec := Some(after))) <==>
        && ResolveEnvForSpawn(Some(after), c.raw.env) == ResolveEnvForSpawn(s.spec, c.raw.env)
        && Enrich(Some(after), c.raw).args == Enrich(s.spec, c.raw).args
        && c.launched.env.Values + after.templatedArgs.Values == c.launched.env.Values + StoredArgs(s).Values
  {
  }

  lemma EnvIsSameIff(s: Slot, raw: DesiredServer, after: ServerSpec, pushed: Env)
    requires after.env == StoredEnv(s) + pushed
    ensures ResolveEnvForSpawn(Some(after), raw.env) == ResolveEnvForSpawn(s.spec, raw.env) <==>
      EnvPushIsIdle(s, raw, pushed)
  {
    MergeIsIdleIff(StoredEnv(s), pushed);
    if pushed != map[] { NonEmptyMerge(StoredEnv(s), pushed); }
  }

  lemma MergeIsIdleIff(stored: Env, pushed: Env)
    ensures stored + pushed == stored <==> AlreadyStored(pushed, stored)
  {
    if stored + pushed == stored {
      forall k | k in pushed ensures k in stored && stored[k] == pushed[k] {
        assert k in stored + pushed && (stored + pushed)[k] == pushed[k];
      }
    }
  }

  lemma NonEmptyMerge(stored: Env, pushed: Env)
    requires pushed != map[]
    ensures stored + pushed != map[] && (stored == map[] ==> stored + pushed == pushed)
  {
    var k :| k in pushed;
    assert k in stored + pushed;
  }

  /** Both sets of values fill an arg in alike. For a harmless arg and clean values that
      is a question about its placeholders, not about the order of replacements. */
  ghost predicate FillAlike(arg: string, m: Env, m2: Env) {
    if Templates.Harmless(arg) && Templates.Clean(m) && Templates.Clean(m2)
    then Templates.Simultaneous(arg, m) == Templates.Simultaneous(arg, m2)
    else Templates.SubstituteArg(arg, m, SortedKeys(m)) == Templates.SubstituteArg(arg, m2, SortedKeys(m2))
  }

  /** Every pushed value is cut out of stderr already, and every value it replaces
      still stands somewhere. */
  predicate HidesTheSame(env: Env, stored: Env, pushed: Env) {
    && (forall k | k in pushed :: pushed[k] in env.Values || pushed[k] in stored.Values)
    && (forall k | k in pushed && k in stored ::
          stored[k] in env.Values || stored[k] in (stored + pushed).Values)
  }

  /** A push of placeholder values that makes no difference to a process. */
  ghost predicate ArgsPushIsIdle(s: Slot, c: Child, pushed: Env) {
    var stored := StoredArgs(s);
    && HidesTheSame(c.launched.env, stored, pushed)
    && forall i | 0 <= i < |c.raw.args| :: FillAlike(c.raw.args[i], stored + pushed, stored)
  }

  function Pushed(values: Option<Env>): Env { if values.Some? then values.value else map[] }

  /** The same for a spec update: both parts have to be idle. */
  lemma FailedSpecPushIsFreshIff(w: World, id: string, s: Slot, env: Option<Env>, templatedArgs: Option<Env>)
    requires s.child.Some? && RunsCurrentValues(s)
    ensures RunsCurrentValues(OnMerge(w, id, s, env, templatedArgs, false)) <==>
      EnvPushIsIdle(s, s.child.value.raw, Pushed(env)) && ArgsPushIsIdle(s, s.child.value, Pushed(templatedArgs))
  {
    var c, after := s.child.value, MergedSpec(s.spec, env, templatedArgs);
    MergedIs(s, env, templatedArgs);
    StaysFreshIff(s, after);
    EnvIsSameIff(s, c.raw, after, Pushed(env));
    ArgsAreSameIff(s, c.raw, after, Pushed(templatedArgs));
    HidesTheSameIff(c.launched.env, StoredArgs(s), Pushed(templatedArgs));
  }

  lemma HidesTheSameIff(env: Env, stored: Env, pushed: Env)
    ensures env.Values + (stored + pushed).Values == env.Values + stored.Values <==> HidesTheSame(env, stored, pushed)
  {
    var after := stored + pushed;
    var x, y := env.Values + after.Values, env.Values + stored.Values;
    forall k | k in pushed ensures pushed[k] in after.Values { assert k in after && after[k] == pushed[k]; }
    forall k | k in stored && k !in pushed ensures stored[k] in after.Values {
      assert k in after && after[k] == stored[k];
    }
    if x == y {
      forall k | k in pushed ensures pushed[k] in y { assert pushed[k] in x; }
      forall k | k in stored ensures stored[k] in x { assert stored[k] in y; }
    }
    if HidesTheSame(env, stored, pushed) {
      forall v | v in x ensures v in y {}
      forall v | v in y ensures v in x {}
    }
  }

  lemma ArgsAreSameIff(s: Slot, raw: DesiredServer, after: ServerSpec, pushed: Env)
    requires after.templatedArgs == StoredArgs(s) + pushed
    ensures Enrich(Some(after), raw).args == Enrich(s.spec, raw).args <==>
      forall i | 0 <= i < |raw.args| :: FillAlike(raw.args[i], StoredArgs(s) + pushed, StoredArgs(s))
  {
    EnrichFillsEach(Some(after), raw);
    EnrichFillsEach(s.spec, raw);
    AlikeIff(raw.args, Enrich(Some(after), raw).args, Enrich(s.spec, raw).args, after.templatedArgs, StoredArgs(s));
  }

  /** The args after the replacements, one by one. */
  predicate AreFilled(args: seq<string>, out: seq<string>, m: Env) {
    && |out| == |args|
    && forall i | 0 <= i < |args| :: out[i] == Templates.SubstituteArg(args[i], m, SortedKeys(m))
  }

  lemma AlikeIff(args: seq<string>, x: seq<string>, y: seq<string>, m: Env, m2: Env)
    requires AreFilled(args, x, m) && AreFilled(args, y, m2)
    ensures x == y <==> forall i | 0 <= i < |args| :: FillAlike(args[i], m, m2)
  {
    forall i | 0 <= i < |args| ensures x[i] == y[i] <==> FillAlike(args[i], m, m2) {
      FillAlikeMeans(args[i], m, m2);
    }
    if forall i | 0 <= i < |args| :: x[i] == y[i] { assert x == y; }
  }

  lemma FillAlikeMeans(arg: string, m: Env, m2: Env)
    ensures FillAlike(arg, m, m2) <==>
      Templates.SubstituteArg(arg, m, SortedKeys(m)) == Templates.SubstituteArg(arg, m2, SortedKeys(m2))
  {
    Templates.DaemonSafeIffHarmless(arg);
  }

  /** Each arg goes through the replacements by itself, also when nothing is stored. */
  lemma EnrichFillsEach(spec: Option<ServerSpec>, raw: DesiredServer)
    ensures AreFilled(raw.args, Enrich(spec, raw).args, if spec.Some? then spec.value.templatedArgs else map[])
  {
    var none: Env := map[];
    assert SortedKeys(none) == [] by { AscendingIsUnique(SortedKeys(none), []); }
  }

  lemma MergedIs(s: Slot, env: Option<Env>, templatedArgs: Option<Env>)
    ensures MergedSpec(s.spec, env, templatedArgs)
      == ServerSpec(StoredEnv(s) + Pushed(env), StoredArgs(s) + Pushed(templatedArgs))
  {
    assert StoredEnv(s) + map[] == StoredEnv(s) && StoredArgs(s) + map[] == StoredArgs(s);
  }

  /** A push for `id` that cannot be written, or a step of the pumps. */
  predicate LeavesRunning(c: Command, id: string) {
    match c
    case EnvUpdate(n, _, writes) => n == id && !writes
    case SpecUpdate(n, _, _, writes) => n == id && !writes
    case _ => c.PumpTakes? || c.PumpDone? || c.PumpFails? || c.StdoutEnds?
  }

  function EnvOf(c: Command): Env {
    if c.EnvUpdate? then c.values else if c.SpecUpdate? then Pushed(c.env) else map[]
  }

  function ArgsOf(c: Command): Env { if c.SpecUpdate? then Pushed(c.templatedArgs) else map[] }

  /** All env values pushed; a later one replaces an earlier one. */
  function AllPushedEnv(cs: seq<Command>): Env {
    if cs == [] then map[] else AllPushedEnv(cs[..|cs| - 1]) + EnvOf(cs[|cs| - 1])
  }

  function AllPushedArgs(cs: seq<Command>): Env {
    if cs == [] then map[] else AllPushedArgs(cs[..|cs| - 1]) + ArgsOf(cs[|cs| - 1])
  }

  /** The process is the one that was launched, with the same values. */
  predicate SameLaunch(s: Slot, t: Slot) {
    && s.child.Some? && t.child.Some? && s.child.value.raw == t.child.value.raw
    && s.child.value.launched == t.child.value.launched && s.child.value.redact == t.child.value.redact
  }

  lemma FailedPushAdds(w: World, id: string, s: Slot, c: Command)
    requires s.child.Some? && LeavesRunning(c, id)
    ensures var t := Step(w, id, s, c);
      SameLaunch(s, t) && StoredEnv(t) == StoredEnv(s) + EnvOf(c) && StoredArgs(t) == StoredArgs(s) + ArgsOf(c)
  {
    match c {
      case EnvUpdate(_, values, _) => MergedIs(s, Some(values), None);
      case SpecUpdate(_, env, ta, _) => MergedIs(s, env, ta);
      case _ => MergedIs(s, None, None);
    }
  }

  /** Failed pushes add up in memory and leave the process as it was launched. */
  lemma {:induction false} FailedPushesAddUp(w: World, id: string, s: Slot, cs: seq<Command>)
    requires s.child.Some? && forall c | c in cs :: LeavesRunning(c, id)
    ensures var t := Run(w, id, s, cs);
      && SameLaunch(s, t)
      && StoredEnv(t) == StoredEnv(s) + AllPushedEnv(cs) && StoredArgs(t) == StoredArgs(s) + AllPushedArgs(cs)
  {
    if cs == [] {
      MergedIs(s, None, None);
    } else {
      var front, c := cs[..|cs| - 1], cs[|cs| - 1];
      FailedPushesAddUp(w, id, s, front);
      FailedPushAdds(w, id, Run(w, id, s, front), c);
      MergesAssociate(StoredEnv(s), AllPushedEnv(front), EnvOf(c));
      MergesAssociate(StoredArgs(s), AllPushedArgs(front), ArgsOf(c));
    }
  }

  lemma MergesAssociate(a: Env, b: Env, c: Env)
    ensures (a + b) + c == a + (b + c)
  {
  }

  /** After any number of failed pushes a process is up to date exactly when together
      they are idle, seen from the values it was launched with. */
  lemma FailedPushesAreFreshIff(w: World, id: string, s: Slot, cs: seq<Command>)
    requires s.child.Some? && RunsCurrentValues(s) && forall c | c in cs :: LeavesRunning(c, id)
    ensures RunsCurrentValues(Run(w, id, s, cs)) <==>
      && EnvPushIsIdle(s, s.child.value.raw, AllPushedEnv(cs))
      && ArgsPushIsIdle(s, s.child.value, AllPushedArgs(cs))
  {
    var t, env, ta := Run(w, id, s, cs), Some(AllPushedEnv(cs)), Some(AllPushedArgs(cs));
    FailedPushesAddUp(w, id, s, cs);
    FailedSpecPushIsFreshIff(w, id, s, env, ta);
    MergedIs(s, env, ta);
    SameStoredSameFreshness(t, OnMerge(w, id, s, env, ta, false));
  }

  lemma SameStoredSameFreshness(s: Slot, t: Slot)
    requires StoredEnv(s) == StoredEnv(t) && StoredArgs(s) == StoredArgs(t) && SameLaunch(s, t)
    ensures RunsCurrentValues(s) <==> RunsCurrentValues(t)
  {
  }

  /** Whatever the args are: a push that only repeats stored values is idle. */
  lemma RepeatedPushIsFresh(w: World, id: string, s: Slot, env: Option<Env>, templatedArgs: Option<Env>)
    requires s.child.Some? && RunsCurrentValues(s)
    requires AlreadyStored(Pushed(env), StoredEnv(s)) && AlreadyStored(Pushed(templatedArgs), StoredArgs(s))
    ensures RunsCurrentValues(OnMerge(w, id, s, env, templatedArgs, false))
  {
    MergeIsIdleIff(StoredEnv(s), Pushed(env));
    MergeIsIdleIff(StoredArgs(s), Pushed(templatedArgs));
  }

  /** The failing case exists: a child keeps running without the value just merged. */
  lemma FailedWriteLeavesStaleChild(w: World, d: DesiredServer, key: string, value: string)
    requires w(d.serverId, 0).Started? && d.enabled && d.env == map[]
    ensures var s := Run(w, d.serverId, EMPTY_SLOT,
        [Snapshot([d]), EnvUpdate(d.serverId, map[key := value], false)]);
      s.child.Some? && s.spec.Some? && s.spec.value.env == map[key := value] && !RunsCurrentValues(s)
  {
    var id := d.serverId;
    var c1, c2 := Snapshot([d]), EnvUpdate(id, map[key := value], false);
    assert [c1, c2][..1] == [c1] && [c1][..0] == [];
    assert Run(w, id, EMPTY_SLOT, [c1]) == Step(w, id, EMPTY_SLOT, c1);
    var s := Step(w, id, EMPTY_SLOT, c1);
    assert Wanted([d], id) == Some(d);
    assert s.child.value.launched.env == map[];
    var t := Step(w, id, s, c2);
    assert t.spec.value.env == map[] + map[key := value] == map[key := value];
    assert key in t.spec.value.env;
    assert Enrich(t.spec, d).env == map[key := value];
  }

  // ------------------------------------------------------------ snapshots

  /** What a snapshot does to one id, whatever the state before. */
  lemma SnapshotConverges(w: World, id: string, s: Slot, servers: seq<DesiredServer>)
    ensures var want, t := Wanted(servers, id), Step(w, id, s, Snapshot(servers));
      var on := want.Some? && want.value.enabled;
      var kept := on && s.child.Some? && s.child.value.raw == want.value && !s.child.value.exited;
      && (t.child.Some? <==> on && (kept || w(id, s.attempts).Started?))
      && (t.child.Some? ==> t.child.value.raw == want.value && !t.child.value.exited)
      && (kept ==> t == s)
      && (on && !kept ==> t.attempts == s.attempts + 1)
      && (t.child.Some? && t.child != s.child ==> Lives(t, s.attempts))
      && t.spec == s.spec
      // repeating it at once changes nothing unless a wanted server failed to start
      && (Step(w, id, t, Snapshot(servers)) == t <==> !(on && t.child.None?))
  {
  }

  /** An id without an entry is not wanted. */
  lemma {:induction false} NoEntryIsNotWanted(servers: seq<DesiredServer>, id: string)
    ensures Wanted(servers, id).None? <==> forall d | d in servers :: d.serverId != id
  {
    if servers != [] {
      NoEntryIsNotWanted(servers[..|servers| - 1], id);
      assert servers == servers[..|servers| - 1] + [servers[|servers| - 1]];
    }
  }

  /** The last of several entries for an id is the one that counts. */
  lemma {:induction false} LastDuplicateWins(servers: seq<DesiredServer>, id: string, i: nat)
    requires i < |servers| && servers[i].serverId == id
    requires forall j | i < j < |servers| :: servers[j].serverId != id
    ensures Wanted(servers, id) == Some(servers[i])
  {
    if i < |servers| - 1 {
      LastDuplicateWins(servers[..|servers| - 1], id, i);
    }
  }

  // --------------------------------------------------------------- deltas

  /** `t` is `s` brought in line with `last`: its child, if any, runs `last`, and
      there is none only if `last` is disabled or its latest spawn failed. */
  predicate Follows(w: World, id: string, s: Slot, t: Slot, last: DesiredServer) {
    && t.spec == s.spec
    && (t.child.Some? ==> last.enabled && t.child.value.raw == last && !t.child.value.exited)
    && (last.enabled && t.child.None? ==> t.attempts > s.attempts && w(id, t.attempts - 1).Refused?)
  }

  /** Added before updated, the last entry for an id wins, and removal overrides both. */
  lemma DeltaLastWriterWins(w: World, id: string, s: Slot, added: seq<DesiredServer>, updated: seq<DesiredServer>,
                            removed: seq<string>, unwritable: set<string>)
    ensures
      var t := Step(w, id, s, Delta(added, updated, removed, unwritable));
      var last := Or(Wanted(updated, id), Wanted(added, id));
      if id in removed then t.child.None? && t.spec.None?
      else if last.None? then t == s
      else
        && Follows(w, id, s, t, last.value)
        && (last.value.enabled && HealthyAs(s, last.value) ==>
             if forall d | d in added + updated && d.serverId == id :: d == last.value then t == s
             else s.child.value.instance < s.attempts ==> !Lives(t, s.child.value.instance))
  {
    var mine := ItemsFor(added + updated, id);
    WantedIsLastItem(added + updated, id);
    WantedOfConcat(added, updated, id);
    LastItemWins(w, id, s, mine);
    var last := Or(Wanted(updated, id), Wanted(added, id));
    if last.Some? && last.value.enabled && HealthyAs(s, last.value) {
      KeptOrReplaced(w, id, s, mine, last.value);
      ItemsAreTheEntries(added + updated, id);
    }
  }

  lemma {:induction false} ItemsAreTheEntries(items: seq<DesiredServer>, id: string)
    ensures forall d :: d in ItemsFor(items, id) <==> d in items && d.serverId == id
  {
    if items != [] {
      ItemsAreTheEntries(items[..|items| - 1], id);
      assert items == items[..|items| - 1] + [items[|items| - 1]];
    }
  }

  predicate AllAre(items: seq<DesiredServer>, d: DesiredServer) { forall e | e in items :: e == d }

  /** A healthy child keeps its process while the entries for it stay the same, and
      with the first different one it is gone for good. */
  lemma {:induction false} KeptOrReplaced(w: World, id: string, s: Slot, items: seq<DesiredServer>, d: DesiredServer)
    requires d.enabled && HealthyAs(s, d)
    ensures var t := ReconcileAll(w, id, s, items);
      if AllAre(items, d) then t == s else s.child.value.instance < s.attempts ==> !Lives(t, s.child.value.instance)
  {
    if items != [] {
      var front, e := items[..|items| - 1], items[|items| - 1];
      KeptOrReplaced(w, id, s, front, d);
      AllAreButLast(items, d);
      AttemptsGrow(w, id, s, front);
      if AllAre(front, d) {
        OtherEntryReplaces(w, id, s, d, e);
      } else {
        StaysGone(w, id, ReconcileAll(w, id, s, front), e, s.child.value.instance);
      }
    }
  }

  lemma AllAreButLast(items: seq<DesiredServer>, d: DesiredServer)
    requires items != []
    ensures AllAre(items, d) <==> AllAre(items[..|items| - 1], d) && items[|items| - 1] == d
  {
    var front, e := items[..|items| - 1], items[|items| - 1];
    assert items == front + [e];
    assert e in items && forall x :: x in items <==> x in front || x == e;
  }

  lemma OtherEntryReplaces(w: World, id: string, s: Slot, d: DesiredServer, e: DesiredServer)
    requires d.enabled && HealthyAs(s, d)
    ensures var t := Reconcile(w, id, s, e);
      if e == d then t == s else s.child.value.instance < s.attempts ==> !Lives(t, s.child.value.instance)
  {
  }

  lemma StaysGone(w: World, id: string, s: Slot, e: DesiredServer, k: nat)
    ensures k < s.attempts && !Lives(s, k) ==> !Lives(Reconcile(w, id, s, e), k)
  {
  }

  lemma LastItemWins(w: World, id: string, s: Slot, items: seq<DesiredServer>)
    ensures var t := ReconcileAll(w, id, s, items);
      if items == [] then t == s else Follows(w, id, s, t, items[|items| - 1])
  {
    if items != [] { AttemptsGrow(w, id, s, items[..|items| - 1]); }
  }

  lemma {:induction false} WantedIsLastItem(items: seq<DesiredServer>, id: string)
    ensures var mine := ItemsFor(items, id);
      Wanted(items, id) == if mine == [] then None else Some(mine[|mine| - 1])
  {
    if items != [] { WantedIsLastItem(items[..|items| - 1], id); }
  }

  lemma {:induction false} WantedOfConcat(a: seq<DesiredServer>, b: seq<DesiredServer>, id: string)
    ensures Wanted(a + b, id) == Or(Wanted(b, id), Wanted(a, id))
  {
    if b == [] {
      assert a + b == a;
    } else {
      assert (a + b)[..|a + b| - 1] == a + b[..|b| - 1];
      WantedOfConcat(a, b[..|b| - 1], id);
    }
  }

  lemma {:induction false} AttemptsGrow(w: World, id: string, s: Slot, items: seq<DesiredServer>)
    ensures var t := ReconcileAll(w, id, s, items); t.attempts >= s.attempts && t.spec == s.spec
  {
    if items != [] { AttemptsGrow(w, id, s, items[..|items| - 1]); }
  }

  /** `added`, `updated` and `removed` describe the way from one list to another. */
  ghost predicate IsDiff(before: seq<DesiredServer>, after: seq<DesiredServer>,
                         added: seq<DesiredServer>, updated: seq<DesiredServer>, removed: seq<string>) {
    forall id ::
      && ItemsFor(added + updated, id) == ChangedEntry(before, after, id)
      && (id in removed <==> Wanted(before, id).Some? && Wanted(after, id).None?)
  }

  function ChangedEntry(before: seq<DesiredServer>, after: seq<DesiredServer>, id: string): seq<DesiredServer> {
    Changed(Wanted(before, id), Wanted(after, id))
  }

  /** The slot is as `want` asks for: the child is there and healthy, or rightly absent. */
  predicate InLine(s: Slot, want: Option<DesiredServer>) {
    if want.Some? && want.value.enabled then HealthyAs(s, want.value) else s.child.None?
  }

  /** In any state at all, the delta from `before` to `after` and a snapshot of `after`
      do the same to children and log, exactly for the ids that are in line or whose
      entry changes: a delta does not touch the others, a snapshot puts them right. The
      one difference is that a delta also drops the stored values of removed ids. */
  lemma DeltaMatchesSnapshot(w: World, id: string, s: Slot, before: seq<DesiredServer>, after: seq<DesiredServer>,
                             added: seq<DesiredServer>, updated: seq<DesiredServer>, removed: seq<string>,
                             unwritable: set<string>)
    requires IsDiff(before, after, added, updated, removed)
    ensures
      var byDelta := Step(w, id, s, Delta(added, updated, removed, unwritable));
      var bySnapshot := Step(w, id, s, Snapshot(after));
      (byDelta == bySnapshot.(spec := if id in removed then None else s.spec)) <==>
        (Wanted(before, id) == Wanted(after, id) ==> InLine(s, Wanted(after, id)))
  {
    assert ItemsFor(added + updated, id) == ChangedEntry(before, after, id);
    ChangedEntryMatches(w, id, s, Wanted(before, id), Wanted(after, id), id in removed);
  }

  /** Right after a snapshot an id is out of line only if its spawn has just failed. */
  lemma InLineAfterSnapshot(w: World, id: string, s: Slot, servers: seq<DesiredServer>)
    ensures var want := Wanted(servers, id);
      InLine(Step(w, id, s, Snapshot(servers)), want) <==>
        !(want.Some? && want.value.enabled && !HealthyAs(s, want.value) && w(id, s.attempts).Refused?)
  {
  }

  function Changed(before: Option<DesiredServer>, after: Option<DesiredServer>): seq<DesiredServer> {
    if after.Some? && after != before then [after.value] else []
  }

  lemma ChangedEntryMatches(w: World, id: string, s: Slot, before: Option<DesiredServer>,
                            after: Option<DesiredServer>, removed: bool)
    requires removed <==> before.Some? && after.None?
    ensures
      var byDelta := OnDelta(w, id, s, Changed(before, after), removed);
      var bySnapshot := OnSnapshot(w, id, s, after);
      (byDelta == bySnapshot.(spec := if removed then None else s.spec)) <==> (before == after ==> InLine(s, after))
  {
    if after.None? || after == before {
      assert ReconcileAll(w, id, s, Changed(before, after)) == s;
    } else {
      OneItem(w, id, s, after.value);
    }
  }

  lemma OneItem(w: World, id: string, s: Slot, d: DesiredServer)
    ensures ReconcileAll(w, id, s, [d]) == Reconcile(w, id, s, d)
  {
    assert [d][..0] == [];
  }

  // ----------------------------------------------------------- frames

  /** The fate of a frame on a slot that satisfies the invariant: nobody is there and
      it vanishes; or it joins the queue; or the queue is full and the process is
      replaced after a single error. */
  lemma FrameFate(w: World, id: string, s: Slot, body: Json)
    requires Inv(w, id, s)
    ensures var t := OnMcpFrame(w, id, s, body);
      if s.child.None? || s.child.value.exited then t == s
      else
        var c := s.child.value;
        if |c.queue| < 64 then
          && t.events == s.events && Lives(t, c.instance)
          && t.child.value.accepted == c.accepted + [body] && t.child.value.queue == c.queue + [body]
        else
          && Count(t, Unresponsive(c.instance)) == 1 && Count(t, ShutDown(c.instance)) == 1
          && Count(t, Offline(c.instance)) == Count(s, Offline(c.instance)) == 0
          && t.attempts == s.attempts + 1 && !Lives(t, c.instance)
          && (t.child.Some? ==> t.child.value.raw == c.raw && t.child.value.accepted == [])
  {
    if s.child.Some? && !s.child.value.exited && |s.child.value.queue| == QUEUE_CAPACITY {
      FrameKeeps(w, id, s, body);
      OverflowFate(w, id, s, OnMcpFrame(w, id, s, body));
    }
  }

  lemma OverflowFate(w: World, id: string, s: Slot, t: Slot)
    requires s.child.Some? && Conserved(w, id, s) && Conserved(w, id, t) && !s.child.value.reported
    requires t == TrySpawn(w, id, Kill(Overflowed(s)), s.child.value.raw)
    ensures var k := s.child.value.instance;
      && Count(t, Unresponsive(k)) == 1 && Count(t, ShutDown(k)) == 1
      && Count(t, Offline(k)) == Count(s, Offline(k)) == 0
      && !Lives(t, k)
  {
    var k := s.child.value.instance;
    assert Accounted(w, id, s, k) && Accounted(w, id, t, k);
    Appended(s.events, Unresponsive(k));
    Appended(Overflowed(s).events, ShutDown(k));
    SpawnCounts(w, id, Kill(Overflowed(s)), s.child.value.raw, Unresponsive(k));
    SpawnCounts(w, id, Kill(Overflowed(s)), s.child.value.raw, Offline(k));
  }

  // ----------------------------------------------------- why raw is kept

  /** Enriching the raw server fills the placeholders of each harmless arg. */
  lemma EnrichFillsPlaceholders(spec: ServerSpec, raw: DesiredServer)
    requires Templates.Clean(spec.templatedArgs)
    ensures forall i | 0 <= i < |raw.args| && Templates.Harmless(raw.args[i]) ::
      Enrich(Some(spec), raw).args[i] == Templates.Simultaneous(raw.args[i], spec.templatedArgs)
  {
    if spec.templatedArgs == map[] {
      forall i | 0 <= i < |raw.args| ensures raw.args[i] == Templates.Simultaneous(raw.args[i], map[]) {
        Templates.NothingBound(raw.args[i]);
      }
    } else {
      Templates.ArgsAreSimultaneous(raw.args, spec.templatedArgs);
    }
  }

  /** Enriching what was already enriched, with new values for the same or fewer
      placeholders, keeps the old values in each flat arg: a respawn has to start from
      the raw server. */
  lemma RespawnMustStartFromRaw(before: ServerSpec, after: ServerSpec, raw: DesiredServer)
    requires Templates.Clean(before.templatedArgs) && Templates.Clean(after.templatedArgs)
    requires after.templatedArgs.Keys <= before.templatedArgs.Keys
    ensures forall i | 0 <= i < |raw.args| && Templates.Flat(raw.args[i]) ::
      Enrich(Some(after), Enrich(Some(before), raw)).args[i] == Enrich(Some(before), raw).args[i]
  {
    var m, m2 := before.templatedArgs, after.templatedArgs;
    EnrichFillsPlaceholders(before, raw);
    forall i | 0 <= i < |raw.args| && Templates.Flat(raw.args[i])
      ensures Enrich(Some(after), Enrich(Some(before), raw)).args[i] == Enrich(Some(before), raw).args[i]
    {
      Templates.FlatIsHarmless(raw.args[i]);
      Templates.AlreadySubstituted(raw.args[i], m, m2, SortedKeys(m2));
    }
  }

  // ------------------------------------------------------ the whole daemon

  /** A supervisor that has lived through any commands: each id is in a state the
      invariant describes, and the published list is the list of children. */
  method Life(world: World, onDisk: Specs, cs: seq<Command>) returns (sup: Supervisor)
    ensures sup.Valid() && sup.world == world
    ensures forall id, pid :: ServerEntry(id, pid) in sup.state.inner.servers <==>
      sup.View(id).child.Some? && sup.View(id).child.value.pid == pid
    ensures forall id :: sup.View(id) == Run(world, id, EMPTY_SLOT.(spec := Lookup(onDisk, id)), cs)
    ensures forall id :: Inv(world, id, sup.View(id))
  {
    var store := new EnvStore(onDisk);
    sup := new Supervisor(world, store);
    sup.HandleAll(cs);
    forall id ensures Inv(world, id, sup.View(id)) {
      EveryRun(world, id, Lookup(onDisk, id), cs);
    }
  }
}
