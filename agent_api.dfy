/**
 * The agent client: each call connects to `host:port`, writes one request,
 * reads one response and interprets it. The connection is a parameter of
 * type `Transport`: the response (or the connect/read/write error) that one
 * exchange of a request with an address produces.
 */
module AgentApi {
  import opened Wrappers
  import opened Agent

  datatype AgentClient = AgentClient(host: string, port: nat, token: Option<string>)

  type Transport = (string, nat, AgentRequest) -> Result<AgentResponse>

  /** `AgentClient::new`: no token. */
  function NewClient(host: string, port: nat): (c: AgentClient)
    ensures c.host == host && c.port == port && c.token.None?
  {
    AgentClient(host, port, None)
  }

  /** `with_token`: only the token changes. */
  function WithToken(c: AgentClient, token: string): (d: AgentClient)
    ensures d.host == c.host && d.port == c.port && d.token == Some(token)
  {
    c.(token := Some(token))
  }

  /** `send_request`: one exchange with the client's own address. */
  function SendRequest(c: AgentClient, req: AgentRequest, send: Transport): Result<AgentResponse>
  {
    send(c.host, c.port, req)
  }

  /** `ping`: `Ok(true)` exactly on `Pong`; any other response is `Ok(false)`, not an error. */
  function Ping(c: AgentClient, send: Transport): (r: Result<bool>)
    ensures r.Ok? <==> send(c.host, c.port, Agent.Ping).Ok?
    ensures r == Ok(true) <==> send(c.host, c.port, Agent.Ping) == Ok(Pong)
    ensures r.Err? ==> r.msg == send(c.host, c.port, Agent.Ping).msg
  {
    match SendRequest(c, Agent.Ping, send)
    case Err(m) => Err(m)
    case Ok(resp) => Ok(resp.Pong?)
  }

  function GetHostInfo(c: AgentClient, send: Transport): (r: Result<HostInfo>)
    ensures var resp := send(c.host, c.port, Agent.GetHostInfo);
      && (r.Ok? <==> resp.Ok? && resp.value.HostInfoResponse?)
      && (r.Ok? ==> r.value == resp.value.info)
      && (resp.Ok? && resp.value.Error? ==> r == Err("Agent error: " + resp.value.message))
      && (resp.Ok? && (resp.value.Success? || resp.value.Pong?) ==> r == Err("Unexpected response type"))
  {
    match SendRequest(c, Agent.GetHostInfo, send)
    case Err(m) => Err(m)
    case Ok(resp) =>
      match resp
      case HostInfoResponse(info) => Ok(info)
      case Error(message) => Err("Agent error: " + message)
      case _ => Err("Unexpected response type")
  }

  /** The request `execute_command` sends: the arguments as given, the token or `default`. */
  function ExecuteRequest(c: AgentClient, command: string, args: seq<string>): (req: AgentRequest)
    ensures req.ExecuteCommand? && req.command == command && req.args == args
    ensures req.token == if c.token.Some? then c.token.value else "default"
  {
    Agent.ExecuteCommand(command, args, c.token.UnwrapOr("default"))
  }

  function ExecuteCommand(c: AgentClient, command: string, args: seq<string>, send: Transport): (r: Result<string>)
    ensures var resp := send(c.host, c.port, ExecuteRequest(c, command, args));
      && (r.Ok? <==> resp.Ok? && resp.value.Success?)
      && (r.Ok? ==> r.value == resp.value.output)
      && (resp.Ok? && resp.value.Error? ==> r == Err("Command failed: " + resp.value.message))
      && (resp.Ok? && (resp.value.HostInfoResponse? || resp.value.Pong?) ==> r == Err("Unexpected response type"))
  {
    match SendRequest(c, ExecuteRequest(c, command, args), send)
    case Err(m) => Err(m)
    case Ok(resp) =>
      match resp
      case Success(output) => Ok(output)
      case Error(message) => Err("Command failed: " + message)
      case _ => Err("Unexpected response type")
  }

  /**
   * Each call is one exchange and no retry: two transports that agree on
   * that single exchange give the same result.
   */
  lemma OneExchange(c: AgentClient, command: string, args: seq<string>, s1: Transport, s2: Transport)
    ensures s1(c.host, c.port, Agent.Ping) == s2(c.host, c.port, Agent.Ping) ==> Ping(c, s1) == Ping(c, s2)
    ensures s1(c.host, c.port, Agent.GetHostInfo) == s2(c.host, c.port, Agent.GetHostInfo) ==>
      GetHostInfo(c, s1) == GetHostInfo(c, s2)
    ensures var req := ExecuteRequest(c, command, args);
      s1(c.host, c.port, req) == s2(c.host, c.port, req) ==> ExecuteCommand(c, command, args, s1) == ExecuteCommand(c, command, args, s2)
  {
  }

  // ---------------------------------------------------------------------------
  // Client and server together

  /** A connection that reaches `server` on the given host, with requests and responses carried unchanged. */
  function Loopback(server: AgentServer, env: HostEnv, run: Runner): Transport
  {
    (host: string, port: nat, req: AgentRequest) => Dispatch(server, req, env, run)
  }

  /** Against a live server, `ping` is always `true`. */
  lemma PingThroughServer(c: AgentClient, server: AgentServer, env: HostEnv, run: Runner)
    ensures Ping(c, Loopback(server, env, run)) == Ok(true)
  {
    assert Loopback(server, env, run)(c.host, c.port, Agent.Ping) == Ok(Pong);
  }

  /**
   * Against a live server, `execute_command` returns the program's stdout
   * exactly when it runs and exits successfully, whatever the token.
   */
  lemma ExecuteThroughServer(c: AgentClient, server: AgentServer, env: HostEnv, run: Runner, command: string, args: seq<string>)
    ensures var r := ExecuteCommand(c, command, args, Loopback(server, env, run));
      && (r.Ok? <==> run(command, args).Some? && run(command, args).value.0)
      && (r.Ok? ==> r.value == run(command, args).value.1)
      && (run(command, args).Some? && !run(command, args).value.0 ==> r == Err("Command failed: Command failed: " + run(command, args).value.2))
  {
    var req := ExecuteRequest(c, command, args);
    assert Loopback(server, env, run)(c.host, c.port, req) == ExecuteCommandResponse(command, args, req.token, run);
  }

  /** Against a live server, `get_host_info` returns the server's own report. */
  lemma HostInfoThroughServer(c: AgentClient, server: AgentServer, env: HostEnv, run: Runner)
    ensures GetHostInfo(c, Loopback(server, env, run)) == Ok(HostInfoOf(env))
  {
    assert Loopback(server, env, run)(c.host, c.port, Agent.GetHostInfo) == Ok(HostInfoResponse(HostInfoOf(env)));
  }
}
