/** The data the backend and the daemon exchange about servers. */
module Protocol {
  import opened Options

  type Env = map<string, string>

  /** A JSON-RPC body; the daemon never looks inside. */
  type Json = string

  datatype DesiredServer = DesiredServer(
    serverId: string,
    name: string,
    command: string,
    args: seq<string>,
    env: Env,
    workingDir: Option<string>,
    enabled: bool)

  /** Values the device stores for one server. */
  datatype ServerSpec = ServerSpec(env: Env, templatedArgs: Env)

  const EMPTY_SPEC := ServerSpec(map[], map[])
}
