/** What the commands achieve for one id, in terms of what can be observed: values
    launched and stored, processes stopped and started, frames delivered. */
module Handlers {
  import opened Options
  import opened Protocol
  import opened EnvStores
  import opened Slots
  import opened Reconciliation
  import Templates

  // ------------------------------------------------------------- launching

  /** The values a process gets: the stored env if there is any, or else the backend's;
      its placeholders filled in; all of them cut out of its stderr. */
  lemma LaunchedValues(instance: nat, spec: Option<ServerSpec>, raw: DesiredServer, pid: Option<nat>)
    ensures var c := NewChild(instance, spec, raw, pid);
      && c.instance == instance && c.raw == raw && c.pid == pid
      && !c.reported && !c.exited && !c.closed && c.queue == [] && c.inFlight.None?
      && c.launched.env == (if spec.Some? && spec.value.env != map[] then spec.value.env else raw.env)
      && (forall k | k in c.launched.env :: c.launched.env[k] in c.redact)
      && (spec.Some? ==> forall k | k in spec.value.templatedArgs :: spec.value.templatedArgs[k] in c.redact)
      && (forall v | v in c.redact ::
           || (exists k | k in c.launched.env :: c.launched.env[k] == v)
           || (spec.Some? && exists k | k in spec.value.templatedArgs :: spec.value.templatedArgs[k] == v))
  {
  }

  /** A spawn into an empty slot. */
  lemma SpawnMeans(w: World, id: string, s: Slot, raw: DesiredServer)
    requires s.child.None?
    ensures var t := TrySpawn(w, id, s, raw);
      && t.attempts == s.attempts + 1 && t.spec == s.spec
      && (t.child.Some? <==> w(id, s.attempts).Started?)
      && (t.child.Some? ==>
           t.child.value == NewChild(s.attempts, s.spec, raw, w(id, s.attempts).pid)
           && t.events == s.events + [SpawnResult(s.attempts, true)])
      && (t.child.None? ==> t.events == s.events + [SpawnResult(s.attempts, false), SpawnFailed(s.attempts)])
  {
  }

  // ------------------------------------------------------------------ pushes

  /** The process of `s` has been replaced, at the next attempt, by one of the same raw
      server, if that attempt succeeds; all that is left of the old one is its shutdown. */
  predicate Replaced(w: World, id: string, s: Slot, t: Slot)
    requires s.child.Some?
  {
    var k, n := s.child.value.instance, s.attempts;
    && t.attempts == n + 1
    && (t.child.Some? <==> w(id, n).Started?)
    && t.events == s.events + [ShutDown(k)] +
         (if t.child.Some? then [SpawnResult(n, true)] else [SpawnResult(n, false), SpawnFailed(n)])
    && (t.child.Some? ==>
         var c := t.child.value;
         && c.instance == n && c.raw == s.child.value.raw && c.pid == w(id, n).pid
         && !c.exited && c.queue == [] && c.inFlight.None?)
  }

  /** `now` is `stored` with the pushed values laid over it, key by key. */
  predicate Overlaid(stored: Env, pushed: Env, now: Env) {
    && (forall k | k in pushed :: k in now && now[k] == pushed[k])
    && (forall k | k in stored && k !in pushed :: k in now && now[k] == stored[k])
    && (forall k | k in now :: k in pushed || k in stored)
  }

  /** A pushed env that was written: it is stored, and a running child restarts with it. */
  lemma EnvPushRestarts(w: World, id: string, s: Slot, values: Env)
    ensures var t := Step(w, id, s, EnvUpdate(id, values, true));
      && t.spec.Some? && Overlaid(StoredEnv(s), values, StoredEnv(t)) && StoredArgs(t) == StoredArgs(s)
      && (s.child.None? ==> t.child.None? && t.attempts == s.attempts && t.events == s.events)
      && (s.child.Some? ==> Replaced(w, id, s, t))
      && (s.child.Some? && t.child.Some? && (values != map[] || StoredEnv(s) != map[]) ==>
           Overlaid(StoredEnv(s), values, t.child.value.launched.env))
      && (s.child.Some? && t.child.Some? && values == map[] && StoredEnv(s) == map[] ==>
           t.child.value.launched.env == s.child.value.raw.env)
  {
    MergedIs(s, Some(values), None);
    OverlayMeans(StoredEnv(s), values);
  }

  lemma OverlayMeans(stored: Env, pushed: Env)
    ensures Overlaid(stored, pushed, stored + pushed)
    ensures stored + pushed == map[] <==> stored == map[] && pushed == map[]
  {
    if stored != map[] {
      var k :| k in stored;
      assert k in stored + pushed;
    }
    if pushed != map[] {
      var k :| k in pushed;
      assert k in stored + pushed;
    }
  }

  /** A spec update that was written: both parts are stored, and a running child restarts
      with its env and its harmless args filled in anew. */
  lemma SpecPushRestarts(w: World, id: string, s: Slot, env: Option<Env>, templatedArgs: Option<Env>)
    ensures var t := Step(w, id, s, SpecUpdate(id, env, templatedArgs, true));
      && t.spec.Some? && Overlaid(StoredEnv(s), Pushed(env), StoredEnv(t))
      && Overlaid(StoredArgs(s), Pushed(templatedArgs), StoredArgs(t))
      && (s.child.None? ==> t.child.None? && t.attempts == s.attempts && t.events == s.events)
      && (s.child.Some? ==> Replaced(w, id, s, t))
      && (s.child.Some? && t.child.Some? ==>
           var c := t.child.value;
           && c.launched.env == (if StoredEnv(t) != map[] then StoredEnv(t) else c.raw.env)
           && |c.launched.args| == |c.raw.args|
           && (Templates.Clean(StoredArgs(t)) ==>
                forall i | 0 <= i < |c.raw.args| && Templates.Harmless(c.raw.args[i]) ::
                  c.launched.args[i] == Templates.Simultaneous(c.raw.args[i], StoredArgs(t))))
  {
    var t := Step(w, id, s, SpecUpdate(id, env, templatedArgs, true));
    MergedIs(s, env, templatedArgs);
    OverlayMeans(StoredEnv(s), Pushed(env));
    OverlayMeans(StoredArgs(s), Pushed(templatedArgs));
    if s.child.Some? && Templates.Clean(StoredArgs(t)) {
      EnrichFillsPlaceholders(t.spec.value, s.child.value.raw);
    }
  }

  /** A push that cannot be written is stored in memory all the same, and only logged. */
  lemma FailedPushIsOnlyLogged(w: World, id: string, s: Slot, env: Option<Env>, templatedArgs: Option<Env>)
    ensures var t := Step(w, id, s, SpecUpdate(id, env, templatedArgs, false));
      && t.child == s.child && t.attempts == s.attempts && t.events == s.events + [PersistFailed]
      && Overlaid(StoredEnv(s), Pushed(env), StoredEnv(t))
      && Overlaid(StoredArgs(s), Pushed(templatedArgs), StoredArgs(t))
    ensures env.Some? ==>
      Step(w, id, s, EnvUpdate(id, env.value, false)) == Step(w, id, s, SpecUpdate(id, env, None, false))
  {
    MergedIs(s, env, templatedArgs);
    OverlayMeans(StoredEnv(s), Pushed(env));
    OverlayMeans(StoredArgs(s), Pushed(templatedArgs));
  }

  // ------------------------------------------------- stored values over a run

  /** What is stored under one key at the end of a run: the latest of what was pushed to
      this id, removed with it, or opened with another store. */
  function LatestEnv(onDisk: Specs, cs: seq<Command>, id: string, k: string): Option<string> {
    if cs == [] then EnvIn(onDisk, id, k)
    else
      var c, earlier := cs[|cs| - 1], cs[..|cs| - 1];
      if c.SwitchEnvStore? then EnvIn(c.data, id, k)
      else if c.Delta? && id in c.removed then None
      else if c.EnvUpdate? && c.serverId == id && k in c.values then Some(c.values[k])
      else if c.SpecUpdate? && c.serverId == id && c.env.Some? && k in c.env.value then Some(c.env.value[k])
      else LatestEnv(onDisk, earlier, id, k)
  }

  function EnvIn(data: Specs, id: string, k: string): Option<string> {
    if id in data && k in data[id].env then Some(data[id].env[k]) else None
  }

  function LatestArg(onDisk: Specs, cs: seq<Command>, id: string, k: string): Option<string> {
    if cs == [] then ArgIn(onDisk, id, k)
    else
      var c, earlier := cs[|cs| - 1], cs[..|cs| - 1];
      if c.SwitchEnvStore? then ArgIn(c.data, id, k)
      else if c.Delta? && id in c.removed then None
      else if c.SpecUpdate? && c.serverId == id && c.templatedArgs.Some? && k in c.templatedArgs.value
      then Some(c.templatedArgs.value[k])
      else LatestArg(onDisk, earlier, id, k)
  }

  function ArgIn(data: Specs, id: string, k: string): Option<string> {
    if id in data && k in data[id].templatedArgs then Some(data[id].templatedArgs[k]) else None
  }

  /** After every run, each stored value is the latest one for its key. */
  lemma {:induction false} StoredIsLatest(w: World, id: string, onDisk: Specs, cs: seq<Command>, k: string)
    ensures var t := Run(w, id, EMPTY_SLOT.(spec := Lookup(onDisk, id)), cs);
      && Lookup(StoredEnv(t), k) == LatestEnv(onDisk, cs, id, k)
      && Lookup(StoredArgs(t), k) == LatestArg(onDisk, cs, id, k)
  {
    if cs != [] {
      var earlier, c := cs[..|cs| - 1], cs[|cs| - 1];
      StoredIsLatest(w, id, onDisk, earlier, k);
      var s := Run(w, id, EMPTY_SLOT.(spec := Lookup(onDisk, id)), earlier);
      StoredAfterStep(w, id, s, c, k);
    }
  }

  /** What a command leaves stored under one key. */
  predicate KeepsLatest(s: Slot, t: Slot, c: Command, id: string, k: string) {
    && Lookup(StoredEnv(t), k) ==
         (if c.SwitchEnvStore? then EnvIn(c.data, id, k)
          else if c.Delta? && id in c.removed then None
          else if c.EnvUpdate? && c.serverId == id && k in c.values then Some(c.values[k])
          else if c.SpecUpdate? && c.serverId == id && c.env.Some? && k in c.env.value then Some(c.env.value[k])
          else Lookup(StoredEnv(s), k))
    && Lookup(StoredArgs(t), k) ==
         (if c.SwitchEnvStore? then ArgIn(c.data, id, k)
          else if c.Delta? && id in c.removed then None
          else if c.SpecUpdate? && c.serverId == id && c.templatedArgs.Some? && k in c.templatedArgs.value
          then Some(c.templatedArgs.value[k])
          else Lookup(StoredArgs(s), k))
  }

  lemma StoredAfterStep(w: World, id: string, s: Slot, c: Command, k: string)
    ensures KeepsLatest(s, Step(w, id, s, c), c, id, k)
  {
    match c {
      case EnvUpdate(n, values, _) => if n == id { MergedIs(s, Some(values), None); }
      case SpecUpdate(n, env, ta, _) => if n == id { MergedIs(s, env, ta); }
      case Delta(added, updated, _, _) => AttemptsGrow(w, id, s, ItemsFor(added + updated, id));
      case Snapshot(_) => SpecStays(w, id, s, c);
      case McpFrame(_, _) => SpecStays(w, id, s, c);
      case ShutdownChildren =>
      case SwitchEnvStore(_) =>
      case _ => SpecStays(w, id, s, c);
    }
  }

  lemma SpecStays(w: World, id: string, s: Slot, c: Command)
    requires !c.Delta? && !c.EnvUpdate? && !c.SpecUpdate? && !c.SwitchEnvStore?
    ensures Step(w, id, s, c).spec == s.spec
  {
  }

  // ------------------------------------------------------ other commands

  /** The id a command is about, if it is about one. */
  function AddressOf(c: Command): Option<string> {
    match c
    case EnvUpdate(n, _, _) => Some(n)
    case SpecUpdate(n, _, _, _) => Some(n)
    case McpFrame(n, _) => Some(n)
    case PumpTakes(n) => Some(n)
    case PumpDone(n) => Some(n)
    case PumpFails(n) => Some(n)
    case StdoutEnds(n) => Some(n)
    case _ => None
  }

  /** A command about one id leaves all others alone, and so does a delta the ids it
      does not mention. */
  lemma OthersAreUntouched(w: World, id: string, s: Slot, c: Command)
    requires (AddressOf(c).Some? && AddressOf(c) != Some(id))
      || (c.Delta? && id !in c.removed && forall d | d in c.added + c.updated :: d.serverId != id)
    ensures Step(w, id, s, c) == s
  {
    if c.Delta? { NotMentioned(c.added + c.updated, id); }
  }

  lemma {:induction false} NotMentioned(items: seq<DesiredServer>, id: string)
    requires forall d | d in items :: d.serverId != id
    ensures ItemsFor(items, id) == [] && Wanted(items, id).None?
  {
    if items != [] { NotMentioned(items[..|items| - 1], id); }
  }

  /** When a pump ends, the process has exited and its one report is out. */
  lemma PumpEndReports(w: World, id: string, s: Slot, c: Command)
    requires Inv(w, id, s) && s.child.Some?
    requires c == StdoutEnds(id) || (c == PumpFails(id) && !s.child.value.closed && s.child.value.inFlight.Some?)
    ensures var k := s.child.value.instance;
      var t := Step(w, id, s, c);
      && Lives(t, k) && t.child.value.exited && Count(t, Offline(k)) == 1
      && (s.child.value.exited ==> t.events == s.events)
      && (!s.child.value.exited ==> t.events == s.events + [Offline(k)])
      && (c.PumpFails? ==> t.child.value.closed)
  {
    var k := s.child.value.instance;
    assert Accounted(w, id, s, k);
    Appended(s.events, Offline(k));
  }

  /** Steps of the stdin pump for one frame. */
  function Deliver(id: string, n: nat): seq<Command> {
    if n == 0 then [] else Deliver(id, n - 1) + [PumpTakes(id)] + [PumpDone(id)]
  }

  lemma OneFrame(w: World, id: string, s: Slot)
    requires s.child.Some? && !s.child.value.closed && s.child.value.inFlight.None? && s.child.value.queue != []
    ensures var c := s.child.value;
      Step(w, id, Step(w, id, s, PumpTakes(id)), PumpDone(id)) ==
        s.(child := Some(c.(consumed := c.consumed + [c.queue[0]], queue := c.queue[1..])))
  {
  }

  lemma RunTwo(w: World, id: string, s: Slot, cs: seq<Command>, c: Command, d: Command)
    ensures Run(w, id, s, cs + [c] + [d]) == Step(w, id, Step(w, id, Run(w, id, s, cs), c), d)
  {
    var front := cs + [c];
    assert (front + [d])[..|front|] == front && front[..|cs|] == cs;
  }

  /** The pump hands the queued frames over one by one, in order. */
  lemma {:induction false} PumpDelivers(w: World, id: string, s: Slot, n: nat)
    requires s.child.Some? && !s.child.value.closed && s.child.value.inFlight.None? && n <= |s.child.value.queue|
    ensures Run(w, id, s, Deliver(id, n)) == Delivered(s, n)
  {
    if n == 0 {
      var c := s.child.value;
      assert c.consumed + c.queue[..0] == c.consumed && c.queue[0..] == c.queue;
    } else {
      PumpDelivers(w, id, s, n - 1);
      RunTwo(w, id, s, Deliver(id, n - 1), PumpTakes(id), PumpDone(id));
      OneFrame(w, id, Delivered(s, n - 1));
      OneMoreDelivered(s.child.value.consumed, s.child.value.queue, n);
    }
  }

  /** The first `n` frames of the queue have been consumed. */
  function Delivered(s: Slot, n: nat): Slot
    requires s.child.Some? && n <= |s.child.value.queue|
  {
    var c := s.child.value;
    s.(child := Some(c.(consumed := c.consumed + c.queue[..n], queue := c.queue[n..])))
  }

  lemma OneMoreDelivered(consumed: seq<Json>, queue: seq<Json>, n: nat)
    requires 0 < n <= |queue|
    ensures consumed + queue[..n - 1] + [queue[n - 1..][0]] == consumed + queue[..n]
    ensures queue[n - 1..][1..] == queue[n..]
  {
  }
}
