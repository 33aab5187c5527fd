/** What the supervisor does about one server id. Every handler of the supervisor
    treats different ids independently, so the whole supervisor is a family of
    these slots, one for each id. The class in `Supervisors` is proved to act on
    every slot by the functions here, whatever order it visits the ids in. */
module Slots {
  import opened Options
  import opened Protocol
  import opened EnvStores
  import Templates

  const QUEUE_CAPACITY := 64

  /** One running process. `instance` numbers the spawn attempts of its id.
      `accepted` records every frame taken over from the tunnel and `consumed`
      every frame the stdin pump is done with. */
  datatype Child = Child(
    instance: nat,
    raw: DesiredServer,          // as the backend sent it
    launched: DesiredServer,     // as the process was started
    redact: set<string>,         // values cut out of its stderr
    pid: Option<nat>,
    reported: bool,
    exited: bool,
    closed: bool,                // the stdin pump is gone
    accepted: seq<Json>,
    consumed: seq<Json>,
    inFlight: Option<Json>,
    queue: seq<Json>)

  /** What can be seen from outside: frames to the backend and processes shut down. */
  datatype Event =
    | SpawnResult(instance: nat, ok: bool)
    | SpawnFailed(instance: nat)       // tunnel_error "spawn_failed"
    | Offline(instance: nat)           // tunnel_error "server_offline"
    | Unresponsive(instance: nat)      // tunnel_error "server_unresponsive"
    | ShutDown(instance: nat)
    | PersistFailed                    // logged: values merged in memory but not written

  datatype Slot = Slot(child: Option<Child>, attempts: nat, spec: Option<ServerSpec>, events: seq<Event>)

  const EMPTY_SLOT := Slot(None, 0, None, [])

  datatype SpawnOutcome = Started(pid: Option<nat>) | Refused

  /** The outside world: the outcome of the n-th spawn attempt for each id. */
  type World = (string, nat) -> SpawnOutcome

  /** One call of a handler, or one step of a child's pumps. `writes` is the
      outcome of the handler's write to disk; a delta writes once for each stored
      id it removes, unsuccessfully for those in `unwritable`. */
  datatype Command =
    | Snapshot(servers: seq<DesiredServer>)
    | Delta(added: seq<DesiredServer>, updated: seq<DesiredServer>, removed: seq<string>, unwritable: set<string>)
    | EnvUpdate(serverId: string, values: Env, writes: bool)
    | SpecUpdate(serverId: string, env: Option<Env>, templatedArgs: Option<Env>, writes: bool)
    | McpFrame(serverId: string, body: Json)
    | ShutdownChildren
    | SwitchEnvStore(data: Specs)
    | PumpTakes(serverId: string)      // the stdin pump receives the next queued frame
    | PumpDone(serverId: string)       // ... and has written it, or skipped it
    | PumpFails(serverId: string)      // ... or could not write it, reports and ends
    | StdoutEnds(serverId: string)     // the stdout pump saw the end, reports and ends

  // ------------------------------------------------------------- pieces

  /** Overlay the stored values on what the backend asked for. */
  function Enrich(spec: Option<ServerSpec>, raw: DesiredServer): (launched: DesiredServer)
    ensures launched.(args := raw.args, env := raw.env) == raw && |launched.args| == |raw.args|
  {
    var args :=
      if spec.Some? && spec.value.templatedArgs != map[]
      then Templates.SubstituteTemplatedArgs(raw.args, spec.value.templatedArgs)
      else raw.args;
    raw.(args := args, env := ResolveEnvForSpawn(spec, raw.env))
  }

  /** Values cut out of the stderr of a process: its env and its substituted args. */
  function SensitiveValues(spec: Option<ServerSpec>, launched: DesiredServer): set<string> {
    launched.env.Values + if spec.Some? then spec.value.templatedArgs.Values else {}
  }

  function NewChild(instance: nat, spec: Option<ServerSpec>, raw: DesiredServer, pid: Option<nat>): Child {
    var launched := Enrich(spec, raw);
    Child(instance, raw, launched, SensitiveValues(spec, launched), pid, false, false, false, [], [], None, [])
  }

  function Kill(s: Slot): Slot {
    if s.child.None? then s
    else s.(child := None, events := s.events + [ShutDown(s.child.value.instance)])
  }

  /** Blindly puts a started process into the slot. */
  function TrySpawn(w: World, id: string, s: Slot, raw: DesiredServer): Slot {
    var k := s.attempts;
    match w(id, k)
    case Started(pid) =>
      s.(child := Some(NewChild(k, s.spec, raw, pid)), attempts := k + 1, events := s.events + [SpawnResult(k, true)])
    case Refused =>
      s.(attempts := k + 1, events := s.events + [SpawnResult(k, false), SpawnFailed(k)])
  }

  predicate HealthyAs(s: Slot, d: DesiredServer) {
    s.child.Some? && s.child.value.raw == d && !s.child.value.exited
  }

  /** Bring the slot in line with one wanted server. */
  function Reconcile(w: World, id: string, s: Slot, d: DesiredServer): Slot {
    if !d.enabled then Kill(s)
    else if HealthyAs(s, d) then s
    else TrySpawn(w, id, Kill(s), d)
  }

  function Respawn(w: World, id: string, s: Slot): Slot {
    if s.child.None? then s else TrySpawn(w, id, Kill(s), s.child.value.raw)
  }

  /** The one-shot terminal report; afterwards the process counts as exited. */
  function Report(s: Slot): Slot {
    if s.child.None? then s
    else
      var c := s.child.value;
      s.(child := Some(c.(reported := true, exited := true)),
         events := if c.reported then s.events else s.events + [Offline(c.instance)])
  }

  // ------------------------------------------------------------ handlers

  /** Last duplicate wins. */
  function Wanted(servers: seq<DesiredServer>, id: string): Option<DesiredServer> {
    if servers == [] then None
    else
      var last := servers[|servers| - 1];
      if last.serverId == id then Some(last) else Wanted(servers[..|servers| - 1], id)
  }

  function OnSnapshot(w: World, id: string, s: Slot, want: Option<DesiredServer>): Slot {
    if want.None? then Kill(s) else Reconcile(w, id, s, want.value)
  }

  /** The entries for `id`, in order. */
  function ItemsFor(items: seq<DesiredServer>, id: string): seq<DesiredServer> {
    if items == [] then []
    else
      var n := |items| - 1;
      ItemsFor(items[..n], id) + if items[n].serverId == id then [items[n]] else []
  }

  function ReconcileAll(w: World, id: string, s: Slot, items: seq<DesiredServer>): Slot {
    if items == [] then s
    else
      var n := |items| - 1;
      Reconcile(w, id, ReconcileAll(w, id, s, items[..n]), items[n])
  }

  function OnRemove(s: Slot): Slot { Kill(s).(spec := None) }

  function OnDelta(w: World, id: string, s: Slot, items: seq<DesiredServer>, removed: bool): Slot {
    var t := ReconcileAll(w, id, s, items);
    if removed then OnRemove(t) else t
  }

  /** Values are merged in memory first; if the write then fails the child keeps running. */
  function OnMerge(w: World, id: string, s: Slot, env: Option<Env>, templatedArgs: Option<Env>, writes: bool): Slot {
    var t := s.(spec := Some(MergedSpec(s.spec, env, templatedArgs)));
    if writes then Respawn(w, id, t) else t.(events := t.events + [PersistFailed])
  }

  /** Route a frame to the child, or say why it cannot be delivered. */
  function OnMcpFrame(w: World, id: string, s: Slot, body: Json): Slot {
    if s.child.None? then s
    else
      var c := s.child.value;
      if c.exited || c.closed then Report(s)
      else if |c.queue| < QUEUE_CAPACITY then
        s.(child := Some(c.(accepted := c.accepted + [body], queue := c.queue + [body])))
      else Respawn(w, id, s.(events := s.events + [Unresponsive(c.instance)]))
  }

  function OnPumpTakes(s: Slot): Slot {
    if s.child.Some? && !s.child.value.closed && s.child.value.inFlight.None? && s.child.value.queue != [] then
      var c := s.child.value;
      s.(child := Some(c.(inFlight := Some(c.queue[0]), queue := c.queue[1..])))
    else s
  }

  function OnPumpDone(s: Slot): Slot {
    if s.child.Some? && !s.child.value.closed && s.child.value.inFlight.Some? then
      var c := s.child.value;
      s.(child := Some(c.(inFlight := None, consumed := c.consumed + [c.inFlight.value])))
    else s
  }

  function OnPumpFails(s: Slot): Slot {
    if s.child.Some? && !s.child.value.closed && s.child.value.inFlight.Some? then
      var t := Report(s);
      t.(child := Some(t.child.value.(closed := true)))
    else s
  }

  /** One command, seen by the slot of `id`. */
  function Step(w: World, id: string, s: Slot, c: Command): Slot {
    match c
    case Snapshot(servers) => OnSnapshot(w, id, s, Wanted(servers, id))
    case Delta(added, updated, removed, _) =>
      OnDelta(w, id, s, ItemsFor(added + updated, id), id in removed)
    case EnvUpdate(n, values, ok) => if n == id then OnMerge(w, id, s, Some(values), None, ok) else s
    case SpecUpdate(n, env, ta, ok) => if n == id then OnMerge(w, id, s, env, ta, ok) else s
    case McpFrame(n, body) => if n == id then OnMcpFrame(w, id, s, body) else s
    case ShutdownChildren => Kill(s)
    case SwitchEnvStore(data) => Kill(s).(spec := Lookup(data, id))
    case PumpTakes(n) => if n == id then OnPumpTakes(s) else s
    case PumpDone(n) => if n == id then OnPumpDone(s) else s
    case PumpFails(n) => if n == id then OnPumpFails(s) else s
    case StdoutEnds(n) => if n == id then Report(s) else s
  }

  /** Any number of commands. */
  function Run(w: World, id: string, s: Slot, cs: seq<Command>): Slot {
    if cs == [] then s
    else Step(w, id, Run(w, id, s, cs[..|cs| - 1]), cs[|cs| - 1])
  }
}
