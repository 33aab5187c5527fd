/** The supervisor itself: a map of live children and a store of values, changed in
    place by the handlers. Each handler is proved to take every slot to exactly what
    `Slots.Step` says, for all ids at once and for every order in which the handler
    may visit them. */
module Supervisors {
  import opened Options
  import opened Protocol
  import opened EnvStores
  import opened Slots

  const GENERATION_MAX := 0xFFFF_FFFF_FFFF_FFFF

  datatype ServerEntry = ServerEntry(name: string, pid: Option<nat>)

  datatype ConnectionState = Starting | Connected | Reconnecting | NeedsReauth | NeedsUpgrade

  /** What `state.json` says. */
  datatype State = State(
    connectionState: ConnectionState,
    backendUrl: Option<string>,
    deviceId: Option<string>,
    deviceLabel: Option<string>,
    lastConnectedAt: Option<nat>,
    lastError: Option<string>,
    servers: set<ServerEntry>,
    generation: nat)

  const INITIAL_STATE := State(Starting, None, None, None, None, None, {}, 0)

  /** One more write, as far as the counter reaches. */
  function Bumped(s: State): State {
    if s.generation < GENERATION_MAX then s.(generation := s.generation + 1) else s
  }

  class StateWriter {
    var inner: State

    constructor ()
      ensures inner == INITIAL_STATE
    {
      inner := INITIAL_STATE;
    }

    /** Any change of the state, which then counts as a new generation. */
    method Update(change: State -> State)
      modifies this
      ensures inner == Bumped(change(old(inner)))
      ensures var s := change(old(inner));
        inner == s.(generation := if s.generation < 0xFFFF_FFFF_FFFF_FFFF then s.generation + 1 else s.generation)
    {
      inner := change(inner);
      if inner.generation < GENERATION_MAX { inner := inner.(generation := inner.generation + 1); }
    }
  }

  function Entries(children: map<string, Child>): set<ServerEntry> {
    set id | id in children :: ServerEntry(id, children[id].pid)
  }

  /** The part of the log that concerns one id. */
  function EventsOf(log: seq<(string, Event)>, id: string): seq<Event> {
    if log == [] then []
    else
      var n := |log| - 1;
      EventsOf(log[..n], id) + if log[n].0 == id then [log[n].1] else []
  }

  /** The two passes of a snapshot over one slot. */
  function Dropped(s: Slot, want: Option<DesiredServer>): Slot {
    if want.None? || !want.value.enabled then Kill(s) else s
  }

  function StartIfWanted(w: World, id: string, s: Slot, want: Option<DesiredServer>): Slot {
    if want.None? || !want.value.enabled || HealthyAs(s, want.value) then s
    else Slots.TrySpawn(w, id, Kill(s), want.value)
  }

  class Supervisor {
    const world: World
    const state: StateWriter
    var children: map<string, Child>
    var envStore: EnvStore
    var attempts: map<string, nat>
    ghost var log: seq<(string, Event)>

    function AttemptsOf(id: string): nat reads this { if id in attempts then attempts[id] else 0 }

    /** All there is to know about one id. */
    ghost function View(id: string): Slot reads this, envStore {
      Slot(Lookup(children, id), AttemptsOf(id), envStore.Get(id), EventsOf(log, id))
    }

    /** Every child is filed under its own server id. */
    ghost predicate Keyed() reads this {
      forall id | id in children :: children[id].raw.serverId == id
    }

    /** Between handlers the published list is the list of children. */
    ghost predicate Valid() reads this, state {
      Keyed() && state.inner.servers == Entries(children)
    }

    constructor (world: World, envStore: EnvStore)
      ensures Valid() && fresh(state) && this.world == world && this.envStore == envStore
      ensures forall id :: View(id) == EMPTY_SLOT.(spec := envStore.Get(id))
    {
      this.world, this.envStore := world, envStore;
      children, attempts, log := map[], map[], [];
      state := new StateWriter();
    }

    method Publish()
      requires Keyed()
      modifies state
      ensures Valid() && state.inner == Bumped(old(state.inner).(servers := Entries(children)))
    {
      var entries := Entries(children);
      state.Update((s: State) => s.(servers := entries));
    }

    ghost method Emit(id: string, e: Event)
      modifies this`log
      ensures View(id) == old(View(id)).(events := old(View(id)).events + [e])
      ensures forall j | j != id :: View(j) == old(View(j))
    {
      log := log + [(id, e)];
      assert log[..|log| - 1] == old(log);
    }

    /** Take a child out of the map and shut its process down. */
    method RemoveAndShutDown(id: string)
      requires Keyed()
      modifies this`children, this`log
      ensures Keyed()
      ensures View(id) == Kill(old(View(id)))
      ensures forall j | j != id :: View(j) == old(View(j))
    {
      if id in children {
        Emit(id, ShutDown(children[id].instance));
        children := children - {id};
      }
    }

    method TrySpawn(raw: DesiredServer)
      requires Keyed()
      modifies this`children, this`attempts, this`log
      ensures Keyed()
      ensures View(raw.serverId) == Slots.TrySpawn(world, raw.serverId, old(View(raw.serverId)), raw)
      ensures forall j | j != raw.serverId :: View(j) == old(View(j))
    {
      var id := raw.serverId;
      var k := AttemptsOf(id);
      attempts := attempts[id := k + 1];
      match world(id, k) {
        case Started(pid) =>
          children := children[id := NewChild(k, envStore.Get(id), raw, pid)];
          Emit(id, SpawnResult(k, true));
        case Refused =>
          Emit(id, SpawnResult(k, false));
          Emit(id, SpawnFailed(k));
      }
    }

    method RespawnChild(id: string)
      requires Keyed()
      modifies this`children, this`attempts, this`log
      ensures Keyed()
      ensures View(id) == Respawn(world, id, old(View(id)))
      ensures forall j | j != id :: View(j) == old(View(j))
      ensures id !in old(children) ==> children == old(children)
    {
      if id in children {
        var raw := children[id].raw;
        RemoveAndShutDown(id);
        TrySpawn(raw);
      }
    }

    method ShutdownAll()
      requires Keyed()
      modifies this`children, this`log, state
      ensures Valid()
      ensures forall id :: View(id) == Kill(old(View(id)))
    {
      var rest := children.Keys;
      while rest != {}
        invariant Keyed() && rest <= children.Keys
        invariant forall id :: View(id) == if id in rest then old(View(id)) else Kill(old(View(id)))
        decreases rest
      {
        var id :| id in rest;
        RemoveAndShutDown(id);
        rest := rest - {id};
      }
      Publish();
    }

    method SwitchStore(next: EnvStore)
      requires Keyed()
      modifies this`children, this`log, this`envStore, state
      ensures Valid() && envStore == next
      ensures forall id :: View(id) == Kill(old(View(id))).(spec := next.Get(id))
    {
      ShutdownAll();
      envStore := next;
    }

    /** Index the wanted servers by id; a later duplicate replaces an earlier one. */
    method Collect(servers: seq<DesiredServer>) returns (wanted: map<string, DesiredServer>)
      ensures forall id :: Lookup(wanted, id) == Wanted(servers, id)
      ensures forall id | id in wanted :: wanted[id].serverId == id
    {
      wanted := map[];
      for i := 0 to |servers|
        invariant forall id :: Lookup(wanted, id) == Wanted(servers[..i], id)
        invariant forall id | id in wanted :: wanted[id].serverId == id
      {
        assert servers[..i + 1][..i] == servers[..i];
        wanted := wanted[servers[i].serverId := servers[i]];
      }
      assert servers[..|servers|] == servers;
    }

    /** Shut down every child that is not wanted any more, in any order. */
    method DropUnwanted(wanted: map<string, DesiredServer>)
      requires Keyed()
      modifies this`children, this`log
      ensures Keyed()
      ensures forall id :: View(id) == Dropped(old(View(id)), Lookup(wanted, id))
    {
      var toDrop := set id | id in children && (id !in wanted || !wanted[id].enabled);
      ghost var dropping := toDrop;
      while toDrop != {}
        invariant Keyed() && toDrop <= dropping
        invariant forall id :: View(id) == (if id in dropping - toDrop then Kill(old(View(id))) else old(View(id)))
        decreases toDrop
      {
        var id :| id in toDrop;
        RemoveAndShutDown(id);
        toDrop := toDrop - {id};
      }
    }

    /** Start what is wanted and not running as wanted, in any order. */
    method SpawnWanted(wanted: map<string, DesiredServer>)
      requires Keyed() && forall id | id in wanted :: wanted[id].serverId == id
      modifies this`children, this`attempts, this`log
      ensures Keyed()
      ensures forall id :: View(id) == StartIfWanted(world, id, old(View(id)), Lookup(wanted, id))
    {
      var todo := wanted.Keys;
      while todo != {}
        invariant Keyed() && todo <= wanted.Keys
        invariant forall id | id in todo :: View(id) == old(View(id))
        invariant forall id | id !in todo :: View(id) == StartIfWanted(world, id, old(View(id)), Lookup(wanted, id))
        decreases todo
      {
        var id :| id in todo;
        todo := todo - {id};
        StartOne(wanted[id]);
      }
    }

    /** The body of the second snapshot loop. */
    method StartOne(desired: DesiredServer)
      requires Keyed()
      modifies this`children, this`attempts, this`log
      ensures Keyed()
      ensures View(desired.serverId) ==
        StartIfWanted(world, desired.serverId, old(View(desired.serverId)), Some(desired))
      ensures forall j | j != desired.serverId :: View(j) == old(View(j))
    {
      var id := desired.serverId;
      if !desired.enabled { return; }
      if id in children {
        if children[id].raw == desired && !children[id].exited { return; }
        RemoveAndShutDown(id);
      }
      TrySpawn(desired);
    }

    method ApplySnapshot(servers: seq<DesiredServer>)
      requires Valid()
      modifies this`children, this`attempts, this`log, state
      ensures Valid()
      ensures forall id :: View(id) == Step(world, id, old(View(id)), Snapshot(servers))
    {
      var wanted := Collect(servers);
      DropUnwanted(wanted);
      SpawnWanted(wanted);
      Publish();
    }

    method ApplyDelta(added: seq<DesiredServer>, updated: seq<DesiredServer>, removed: seq<string>,
                      unwritable: set<string>)
      requires Valid()
      modifies this`children, this`attempts, this`log, state, envStore
      ensures Valid()
      ensures forall id :: View(id) == Step(world, id, old(View(id)), Delta(added, updated, removed, unwritable))
    {
      ReconcileItems(added + updated);
      RemoveServers(removed, unwritable);
      Publish();
    }

    method ReconcileItems(items: seq<DesiredServer>)
      requires Keyed()
      modifies this`children, this`attempts, this`log
      ensures Keyed()
      ensures forall id :: View(id) == ReconcileAll(world, id, old(View(id)), ItemsFor(items, id))
    {
      for i := 0 to |items|
        invariant Keyed()
        invariant forall id :: View(id) == ReconcileAll(world, id, old(View(id)), ItemsFor(items[..i], id))
      {
        var d := items[i];
        ReconcileOne(d);
        forall id ensures View(id) == ReconcileAll(world, id, old(View(id)), ItemsFor(items[..i + 1], id)) {
          NextItem(items, i, id);
          NextReconcile(world, id, old(View(id)), ItemsFor(items[..i], id), d);
        }
      }
      assert items[..|items|] == items;
    }

    method RemoveServers(removed: seq<string>, unwritable: set<string>)
      requires Keyed()
      modifies this`children, this`log, envStore
      ensures Keyed()
      ensures forall id :: View(id) == if id in removed then OnRemove(old(View(id))) else old(View(id))
    {
      for i := 0 to |removed|
        invariant Keyed()
        invariant forall id | id in removed[..i] :: View(id) == OnRemove(old(View(id)))
        invariant forall id | id !in removed[..i] :: View(id) == old(View(id))
      {
        RemoveOne(removed[i], removed[i] !in unwritable);
        assert removed[..i + 1] == removed[..i] + [removed[i]];
      }
    }

    method RemoveOne(id: string, writes: bool)
      requires Keyed()
      modifies this`children, this`log, envStore
      ensures Keyed()
      ensures View(id) == OnRemove(old(View(id)))
      ensures forall j | j != id :: View(j) == old(View(j))
    {
      RemoveAndShutDown(id);
      var _ := envStore.Remove(id, writes);
    }

    /** The body of the delta loop. */
    method ReconcileOne(d: DesiredServer)
      requires Keyed()
      modifies this`children, this`attempts, this`log
      ensures Keyed()
      ensures View(d.serverId) == Reconcile(world, d.serverId, old(View(d.serverId)), d)
      ensures forall j | j != d.serverId :: View(j) == old(View(j))
    {
      if !d.enabled {
        RemoveAndShutDown(d.serverId);
        return;
      }
      if d.serverId in children && children[d.serverId].raw == d && !children[d.serverId].exited { return; }
      RemoveAndShutDown(d.serverId);
      TrySpawn(d);
    }

    method ApplyEnvUpdate(serverId: string, values: Env, writes: bool)
      requires Valid()
      modifies this`children, this`attempts, this`log, state, envStore
      ensures Valid()
      ensures forall id :: View(id) == Step(world, id, old(View(id)), EnvUpdate(serverId, values, writes))
    {
      var ok := envStore.MergeEnv(serverId, values, writes);
      AfterMerge(serverId, ok);
    }

    method ApplySpecUpdate(serverId: string, env: Option<Env>, templatedArgs: Option<Env>, writes: bool)
      requires Valid()
      modifies this`children, this`attempts, this`log, state, envStore
      ensures Valid()
      ensures forall id :: View(id) == Step(world, id, old(View(id)), SpecUpdate(serverId, env, templatedArgs, writes))
    {
      var ok := envStore.MergeTemplateValues(serverId, env, templatedArgs, writes);
      AfterMerge(serverId, ok);
    }

    method AfterMerge(serverId: string, ok: bool)
      requires Valid()
      modifies this`children, this`attempts, this`log, state
      ensures Valid()
      ensures View(serverId) ==
        var s := old(View(serverId));
        if ok then Respawn(world, serverId, s) else s.(events := s.events + [PersistFailed])
      ensures forall j | j != serverId :: View(j) == old(View(j))
    {
      if !ok {
        Emit(serverId, PersistFailed);
        return;
      }
      if serverId in children {
        RespawnChild(serverId);
        Publish();
      }
    }

    method RouteMcpFrame(serverId: string, body: Json)
      requires Valid()
      modifies this`children, this`attempts, this`log, state
      ensures Valid()
      ensures forall id :: View(id) == Step(world, id, old(View(id)), McpFrame(serverId, body))
    {
      if serverId !in children { return; }
      var child := children[serverId];
      if child.exited || child.closed {
        ReportTerminal(serverId);
      } else if |child.queue| < QUEUE_CAPACITY {
        SetChild(serverId, child.(accepted := child.accepted + [body], queue := child.queue + [body]));
      } else {
        Emit(serverId, Unresponsive(child.instance));
        RespawnChild(serverId);
        Publish();
      }
    }

    /** A child changes by itself; its process and its published entry stay. */
    method SetChild(id: string, child: Child)
      requires Valid() && id in children
      requires child.raw == children[id].raw && child.pid == children[id].pid
      modifies this`children
      ensures Valid()
      ensures View(id) == old(View(id)).(child := Some(child))
      ensures forall j | j != id :: View(j) == old(View(j))
    {
      var before := children;
      children := children[id := child];
      forall j | j in before ensures ServerEntry(j, before[j].pid) == ServerEntry(j, children[j].pid) {}
      assert Entries(children) == Entries(before);
    }

    method ReportTerminal(id: string)
      requires Valid()
      modifies this`children, this`log
      ensures Valid()
      ensures View(id) == Report(old(View(id)))
      ensures forall j | j != id :: View(j) == old(View(j))
    {
      if id in children {
        var child := children[id];
        if !child.reported { Emit(id, Offline(child.instance)); }
        SetChild(id, child.(reported := true, exited := true));
      }
    }

    /** One step of a child's pumps. */
    method PumpStep(c: Command)
      requires Valid() && (c.PumpTakes? || c.PumpDone? || c.PumpFails? || c.StdoutEnds?)
      modifies this`children, this`log
      ensures Valid()
      ensures forall id :: View(id) == Step(world, id, old(View(id)), c)
    {
      var id := c.serverId;
      if id !in children { return; }
      var child := children[id];
      match c {
        case PumpTakes(_) =>
          if !child.closed && child.inFlight.None? && child.queue != [] {
            SetChild(id, child.(inFlight := Some(child.queue[0]), queue := child.queue[1..]));
          }
        case PumpDone(_) =>
          if !child.closed && child.inFlight.Some? {
            SetChild(id, child.(inFlight := None, consumed := child.consumed + [child.inFlight.value]));
          }
        case PumpFails(_) =>
          if !child.closed && child.inFlight.Some? {
            ReportTerminal(id);
            SetChild(id, children[id].(closed := true));
          }
        case StdoutEnds(_) => ReportTerminal(id);
      }
    }

    /** Dispatch one command. */
    method Handle(c: Command)
      requires Valid()
      modifies this, state, envStore
      ensures Valid()
      ensures forall id :: View(id) == Step(world, id, old(View(id)), c)
      ensures envStore == old(envStore) || fresh(envStore)
      ensures c.SwitchEnvStore? ==> forall id :: View(id).child.None? && View(id).spec == Lookup(c.data, id)
    {
      match c {
        case Snapshot(servers) => ApplySnapshot(servers);
        case Delta(added, updated, removed, unwritable) => ApplyDelta(added, updated, removed, unwritable);
        case EnvUpdate(id, values, ok) => ApplyEnvUpdate(id, values, ok);
        case SpecUpdate(id, env, ta, ok) => ApplySpecUpdate(id, env, ta, ok);
        case McpFrame(id, body) => RouteMcpFrame(id, body);
        case ShutdownChildren => ShutdownAll();
        case SwitchEnvStore(data) =>
          var next := new EnvStore(data);
          SwitchStore(next);
        case _ => PumpStep(c);
      }
    }

    /** A whole life of the daemon, one command after the other. */
    method HandleAll(cs: seq<Command>)
      requires Valid()
      modifies this, state, envStore
      ensures Valid()
      ensures forall id :: View(id) == Run(world, id, old(View(id)), cs)
      ensures envStore == old(envStore) || fresh(envStore)
    {
      for i := 0 to |cs|
        invariant Valid() && (envStore == old(envStore) || fresh(envStore))
        invariant forall id :: View(id) == Run(world, id, old(View(id)), cs[..i])
      {
        assert cs[..i + 1][..i] == cs[..i];
        Handle(cs[i]);
      }
      assert cs[..|cs|] == cs;
    }
  }

  lemma NextItem(items: seq<DesiredServer>, i: nat, id: string)
    requires i < |items|
    ensures ItemsFor(items[..i + 1], id)
         == ItemsFor(items[..i], id) + if items[i].serverId == id then [items[i]] else []
  {
    assert items[..i + 1][..i] == items[..i];
  }

  lemma NextReconcile(w: World, id: string, s: Slot, items: seq<DesiredServer>, d: DesiredServer)
    ensures ReconcileAll(w, id, s, items + [d]) == Reconcile(w, id, ReconcileAll(w, id, s, items), d)
    ensures ReconcileAll(w, id, s, items + []) == ReconcileAll(w, id, s, items)
  {
    assert (items + [d])[..|items|] == items;
    assert items + [] == items;
  }
}
