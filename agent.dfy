/**
 * The agent server: one JSON request read from a connection, one response
 * written back. The server holds only its port and an unused secret, and
 * nothing it does changes them. The host's environment (hostname sources,
 * addresses, tool output, the provisioning record) and the command runner
 * are parameters.
 */
module Agent {
  import opened Wrappers
  import opened Strings
  import TailscaleService
  import Discovery
  import Json

  datatype AgentRequest =
    | ExecuteCommand(command: string, args: seq<string>, token: string)
    | GetHostInfo
    | SyncConfig(data: seq<bv8>)
    | Ping

  datatype HostInfo = HostInfo(
    hostname: string,
    localIp: Option<string>,
    tailscaleIp: Option<string>,
    tailscaleHostname: Option<string>,
    dockerVersion: Option<string>,
    tailscaleInstalled: bool,
    portainerInstalled: bool)

  datatype AgentResponse =
    | Success(output: string)
    | Error(message: string)
    | HostInfoResponse(info: HostInfo)
    | Pong

  datatype AgentServer = AgentServer(port: nat, secret: Option<string>)

  /** `AgentServer::default()`: port 23500 and no secret, which is not the port discovery probes. */
  function DefaultServer(): (s: AgentServer)
    ensures s.port == 23500 && s.secret.None?
    ensures s.port != Discovery.DefaultDiscovery().agentPort
  {
    AgentServer(23500, None)
  }

  /** `AgentServer::new`. */
  function NewServer(port: nat, secret: Option<string>): (s: AgentServer)
    ensures s.port == port && s.secret == secret
  {
    AgentServer(port, secret)
  }

  // ---------------------------------------------------------------------------
  // Host information

  /** The provisioning flags of this host's database record. */
  datatype ProvisionFlags = ProvisionFlags(tailscaleInstalled: bool, portainerInstalled: bool)

  /**
   * What `get_host_info` reads. `docker` is `None` when `docker` could not be
   * run, else its exit status and its stdout when that is valid UTF-8.
   */
  datatype HostEnv = HostEnv(
    hostnameVar: Option<string>,
    hostnameFile: Option<string>,
    localIps: Result<seq<string>>,
    tailscaleIpOutput: Option<(bool, string)>,
    tailscaleStatus: Option<(bool, Result<Json.Value>)>,
    docker: Option<(bool, Option<string>)>,
    provisioned: Result<Option<ProvisionFlags>>)

  /** `Result::ok().flatten()`. */
  function OkFlatten(r: Result<Option<string>>): (o: Option<string>)
    ensures o.Some? <==> r.Ok? && r.value.Some?
    ensures o.Some? ==> o.value == r.value.value
  {
    if r.Ok? then r.value else None
  }

  /** `$HOSTNAME`, else `/etc/hostname`, else `unknown`, trimmed. */
  function HostnameOf(env: HostEnv): (h: string)
    ensures env.hostnameVar.Some? ==> h == Trim(env.hostnameVar.value)
    ensures env.hostnameVar.None? && env.hostnameFile.Some? ==> h == Trim(env.hostnameFile.value)
    ensures env.hostnameVar.None? && env.hostnameFile.None? ==> h == "unknown"
  {
    Trim(env.hostnameVar.Or(env.hostnameFile).UnwrapOr("unknown"))
  }

  /** The first local address, if the addresses could be read and there is one. */
  function LocalIpOf(env: HostEnv): (ip: Option<string>)
    ensures ip.Some? <==> env.localIps.Ok? && |env.localIps.value| > 0
    ensures ip.Some? ==> ip.value == env.localIps.value[0]
  {
    if env.localIps.Ok? && |env.localIps.value| > 0 then Some(env.localIps.value[0]) else None
  }

  /** The trimmed server version, only from a successful run with UTF-8 output. */
  function DockerVersionOf(env: HostEnv): (v: Option<string>)
    ensures v.Some? <==> env.docker.Some? && env.docker.value.0 && env.docker.value.1.Some?
    ensures v.Some? ==> v.value == Trim(env.docker.value.1.value)
  {
    if env.docker.Some? && env.docker.value.0 && env.docker.value.1.Some? then Some(Trim(env.docker.value.1.value)) else None
  }

  /** The record's flags, `(false, false)` when there is no record or it cannot be read. */
  function FlagsOf(env: HostEnv): (f: ProvisionFlags)
    ensures !(env.provisioned.Ok? && env.provisioned.value.Some?) ==> f == ProvisionFlags(false, false)
    ensures env.provisioned.Ok? && env.provisioned.value.Some? ==> f == env.provisioned.value.value
  {
    if env.provisioned.Ok? && env.provisioned.value.Some? then env.provisioned.value.value else ProvisionFlags(false, false)
  }

  /** `get_host_info`: it never fails; each field falls back when its source is unavailable. */
  function HostInfoOf(env: HostEnv): (info: HostInfo)
    ensures info.hostname == HostnameOf(env) && info.localIp == LocalIpOf(env) && info.dockerVersion == DockerVersionOf(env)
    ensures info.tailscaleIp == OkFlatten(TailscaleService.GetTailscaleIp(env.tailscaleIpOutput))
    ensures info.tailscaleHostname == OkFlatten(TailscaleService.GetTailscaleHostname(env.tailscaleStatus))
    ensures info.tailscaleInstalled == FlagsOf(env).tailscaleInstalled && info.portainerInstalled == FlagsOf(env).portainerInstalled
  {
    var flags := FlagsOf(env);
    HostInfo(HostnameOf(env), LocalIpOf(env),
      OkFlatten(TailscaleService.GetTailscaleIp(env.tailscaleIpOutput)),
      OkFlatten(TailscaleService.GetTailscaleHostname(env.tailscaleStatus)),
      DockerVersionOf(env), flags.tailscaleInstalled, flags.portainerInstalled)
  }

  /** The reported name has no surrounding whitespace, whichever source it came from. */
  lemma HostnameTrimmed(env: HostEnv)
    ensures Trim(HostInfoOf(env).hostname) == HostInfoOf(env).hostname
  {
    TrimIdempotent(env.hostnameVar.Or(env.hostnameFile).UnwrapOr("unknown"));
  }

  // ---------------------------------------------------------------------------
  // Requests

  /**
   * The outcome of running a program: `None` when it could not be spawned,
   * else its exit status, stdout and stderr.
   */
  type Runner = (string, seq<string>) -> Option<(bool, string, string)>

  function ExecuteCommandResponse(command: string, args: seq<string>, token: string, run: Runner): (r: Result<AgentResponse>)
    ensures run(command, args).None? ==> r == Err("Failed to execute command: " + command)
    ensures run(command, args).Some? && run(command, args).value.0 ==> r == Ok(Success(run(command, args).value.1))
    ensures run(command, args).Some? && !run(command, args).value.0 ==> r == Ok(Error("Command failed: " + run(command, args).value.2))
  {
    match run(command, args)
    case None => Err("Failed to execute command: " + command)
    case Some((success, stdout, stderr)) =>
      if success then Ok(Success(stdout)) else Ok(Error("Command failed: " + stderr))
  }

  /** The response the server computes for one request. */
  function Dispatch(server: AgentServer, req: AgentRequest, env: HostEnv, run: Runner): (r: Result<AgentResponse>)
    ensures req.Ping? ==> r == Ok(Pong)
    ensures req.SyncConfig? ==> r == Ok(Success("Config synced"))
    ensures req.GetHostInfo? ==> r == Ok(HostInfoResponse(HostInfoOf(env)))
    ensures req.ExecuteCommand? ==> r == ExecuteCommandResponse(req.command, req.args, req.token, run)
  {
    match req
    case Ping => Ok(Pong)
    case GetHostInfo => Ok(HostInfoResponse(HostInfoOf(env)))
    case ExecuteCommand(command, args, token) => ExecuteCommandResponse(command, args, token, run)
    case SyncConfig(data) => Ok(Success("Config synced"))
  }

  /** `execute_command` never consults the token: any token gives the same response. */
  lemma TokenIgnored(server: AgentServer, command: string, args: seq<string>, t1: string, t2: string, env: HostEnv, run: Runner)
    ensures Dispatch(server, ExecuteCommand(command, args, t1), env, run)
         == Dispatch(server, ExecuteCommand(command, args, t2), env, run)
  {
  }

  /** The response depends on the request and the host only, never on the server's port or secret. */
  lemma Stateless(s1: AgentServer, s2: AgentServer, req: AgentRequest, env: HostEnv, run: Runner)
    ensures Dispatch(s1, req, env, run) == Dispatch(s2, req, env, run)
  {
  }

  /**
   * `handle_connection`. `request` is what `read_json` produced, `writeOk`
   * whether `write_json` succeeded. The second component is the response
   * written to the stream, if one was.
   */
  function HandleConnection(server: AgentServer, request: Result<AgentRequest>, env: HostEnv, run: Runner, writeOk: Result<()>)
    : (r: (Result<()>, Option<AgentResponse>))
    ensures r.1.Some? <==> request.Ok? && Dispatch(server, request.value, env, run).Ok?
    ensures r.1.Some? ==> r.1.value == Dispatch(server, request.value, env, run).value
    ensures r.0.Ok? <==> r.1.Some? && writeOk.Ok?
    ensures request.Err? ==> r.0 == Err(request.msg)
  {
    match request
    case Err(m) => (Err(m), None)
    case Ok(req) =>
      match Dispatch(server, req, env, run)
      case Err(m) => (Err(m), None)
      case Ok(resp) => (writeOk, Some(resp))
  }

  /**
   * Every readable request except a command that cannot be spawned is
   * answered with exactly one response; `Ping` is always answered with `Pong`.
   */
  lemma OneResponse(server: AgentServer, req: AgentRequest, env: HostEnv, run: Runner, writeOk: Result<()>)
    ensures var (_, reply) := HandleConnection(server, Ok(req), env, run, writeOk);
      reply.None? <==> req.ExecuteCommand? && run(req.command, req.args).None?
    ensures req.Ping? ==> HandleConnection(server, Ok(req), env, run, writeOk).1 == Some(Pong)
  {
  }
}
