/** The device's stored values, kept in memory and written through to disk. */
module EnvStores {
  import opened Options
  import opened Protocol

  type Specs = map<string, ServerSpec>

  function Lookup<V>(m: map<string, V>, id: string): Option<V> {
    if id in m then Some(m[id]) else None
  }

  /** The pushed value for a key, or else the stored one. */
  function Newer(pushed: Option<Env>, stored: Env, k: string): Option<string> {
    if pushed.Some? && k in pushed.value then Some(pushed.value[k]) else Lookup(stored, k)
  }

  function Base(stored: Option<ServerSpec>): ServerSpec { if stored.Some? then stored.value else EMPTY_SPEC }

  /** `extend`: new keys are added, matching keys overwritten, the rest kept. */
  function MergedSpec(stored: Option<ServerSpec>, env: Option<Env>, templatedArgs: Option<Env>): (spec: ServerSpec)
    ensures var base := Base(stored);
      forall k :: Lookup(spec.env, k) == Newer(env, base.env, k)
    ensures var base := Base(stored);
      forall k :: Lookup(spec.templatedArgs, k) == Newer(templatedArgs, base.templatedArgs, k)
  {
    var base := Base(stored);
    ServerSpec(
      if env.Some? then base.env + env.value else base.env,
      if templatedArgs.Some? then base.templatedArgs + templatedArgs.value else base.templatedArgs)
  }

  /** The stored env wins as soon as it holds anything. */
  function ResolveEnvForSpawn(stored: Option<ServerSpec>, fallback: Env): Env {
    if stored.Some? && stored.value.env != map[] then stored.value.env else fallback
  }

  /** `writes` says whether the next write to disk succeeds. A failed write leaves
      memory ahead of the file, which keeps its old content. */
  class EnvStore {
    var data: Specs
    var disk: Specs

    constructor (onDisk: Specs)
      ensures data == onDisk && disk == onDisk
    {
      data, disk := onDisk, onDisk;
    }

    function Get(id: string): Option<ServerSpec> reads this { Lookup(data, id) }

    method Flush(writes: bool) returns (ok: bool)
      modifies this`disk
      ensures ok == writes && disk == if ok then data else old(disk)
    {
      if writes { disk := data; }
      ok := writes;
    }

    method Set(id: string, spec: ServerSpec, writes: bool) returns (ok: bool)
      modifies this
      ensures data == old(data)[id := spec]
      ensures ok == writes && disk == if ok then data else old(disk)
    {
      data := data[id := spec];
      ok := Flush(writes);
    }

    method MergeEnv(id: string, env: Env, writes: bool) returns (ok: bool)
      modifies this
      ensures data == old(data)[id := MergedSpec(old(Get(id)), Some(env), None)]
      ensures ok == writes && disk == if ok then data else old(disk)
    {
      var entry := if id in data then data[id] else EMPTY_SPEC;
      entry := entry.(env := entry.env + env);
      data := data[id := entry];
      ok := Flush(writes);
    }

    method MergeTemplateValues(id: string, env: Option<Env>, templatedArgs: Option<Env>, writes: bool)
      returns (ok: bool)
      modifies this
      ensures data == old(data)[id := MergedSpec(old(Get(id)), env, templatedArgs)]
      ensures ok == writes && disk == if ok then data else old(disk)
    {
      var entry := if id in data then data[id] else EMPTY_SPEC;
      if env.Some? { entry := entry.(env := entry.env + env.value); }
      if templatedArgs.Some? { entry := entry.(templatedArgs := entry.templatedArgs + templatedArgs.value); }
      data := data[id := entry];
      ok := Flush(writes);
    }

    method Remove(id: string, writes: bool) returns (ok: bool)
      modifies this
      ensures data == old(data) - {id}
      ensures ok == (id in old(data) ==> writes)
      ensures disk == if id in old(data) && ok then data else old(disk)
    {
      ok := true;
      if id in data {
        data := data - {id};
        ok := Flush(writes);
      }
    }
  }
}
