/**
 * The C entry points over the client. A client pointer is `None` when null;
 * a returned C string is `None` for null. A C string argument is null, not
 * valid UTF-8, or text. Printing JSON is a parameter (`render`); the
 * ownership of the boxed client and of returned strings is abstracted.
 */
module CFfi {
  import opened Wrappers
  import opened Discovery
  import opened FfiClient
  import Agent
  import Json

  datatype CArg = NullArg | NotUtf8 | Text(s: string)

  /** `CStr::to_str`: the text of a non-null, valid argument. */
  function ArgText(a: CArg): (r: Option<string>)
    ensures r.Some? <==> a.Text?
    ensures r.Some? ==> r.value == a.s
  {
    if a.Text? then Some(a.s) else None
  }

  /** `halvor_client_new`: a port of 0 selects the default. */
  function ClientNew(agentPort: nat): (c: Option<HalvorClient>)
    ensures c.Some?
    ensures agentPort == 0 ==> c.value.discovery.agentPort == 13001
    ensures agentPort != 0 ==> c.value.discovery.agentPort == agentPort
  {
    Some(NewHalvorClient(if agentPort == 0 then None else Some(agentPort)))
  }

  /** The free functions: how many objects a call releases (none for null). */
  function ClientFree(ptr: Option<HalvorClient>): (released: nat)
    ensures released == 0 <==> ptr.None?
  {
    if ptr.Some? then 1 else 0
  }

  function StringFree(ptr: Option<string>): (released: nat)
    ensures released == 0 <==> ptr.None?
  {
    if ptr.Some? then 1 else 0
  }

  /** `CString::new`: text containing a NUL cannot become a C string. */
  function ToCString(text: string): (p: Option<string>)
    ensures p.Some? <==> '\0' !in text
    ensures p.Some? ==> p.value == text
  {
    if '\0' in text then None else Some(text)
  }

  /** A host list as returned by the discover functions: JSON on success, null on any error. */
  function HostsResult(r: Result<seq<DiscoveredHost>>, render: Json.Value -> string): (p: Option<string>)
    ensures p.Some? <==> r.Ok? && '\0' !in render(HostsJson(r.value))
    ensures p.Some? ==> p.value == render(HostsJson(r.value))
  {
    if r.Ok? then ToCString(render(HostsJson(r.value))) else None
  }

  function DiscoverAgents(ptr: Option<HalvorClient>, net: Network, render: Json.Value -> string): (p: Option<string>)
    ensures ptr.None? ==> p.None?
    ensures ptr.Some? && '\0' !in render(HostsJson(AllHosts(ptr.value, net))) ==> p == Some(render(HostsJson(AllHosts(ptr.value, net))))
  {
    if ptr.None? then None else HostsResult(Ok(AllHosts(ptr.value, net)), render)
  }

  function DiscoverViaTailscale(ptr: Option<HalvorClient>, net: Network, render: Json.Value -> string): (p: Option<string>)
    ensures ptr.None? ==> p.None?
    ensures ptr.Some? ==> p == HostsResult(Ok(if net.devices.Ok? then TailscaleHosts(ptr.value.discovery, net.devices.value, net.reach) else []), render)
  {
    if ptr.None? then None
    else HostsResult(Ok(if net.devices.Ok? then TailscaleHosts(ptr.value.discovery, net.devices.value, net.reach) else []), render)
  }

  function DiscoverViaLocalNetwork(ptr: Option<HalvorClient>, net: Network, render: Json.Value -> string): (p: Option<string>)
    ensures ptr.None? ==> p.None?
    ensures ptr.Some? ==> p == HostsResult(Ok(if net.localIps.Ok? then LocalHosts(ptr.value.discovery, net.localIps.value, net.reach) else []), render)
  {
    if ptr.None? then None
    else HostsResult(Ok(if net.localIps.Ok? then LocalHosts(ptr.value.discovery, net.localIps.value, net.reach) else []), render)
  }

  /** `halvor_client_ping_agent`: 1 exactly when the ping succeeds with `true`, 0 on every other path. */
  function PingAgent(ptr: Option<HalvorClient>, host: CArg, port: nat, net: Network): (r: int)
    ensures r == 0 || r == 1
    ensures r == 1 <==> ptr.Some? && host.Text? && FfiClient.PingAgent(ptr.value, host.s, port, net) == Ok(true)
  {
    if ptr.None? then 0
    else match ArgText(host)
      case None => 0
      case Some(h) =>
        match FfiClient.PingAgent(ptr.value, h, port, net)
        case Ok(reachable) => if reachable then 1 else 0
        case Err(_) => 0
  }

  function GetHostInfo(ptr: Option<HalvorClient>, host: CArg, port: nat, net: Network, render: Json.Value -> string): (p: Option<string>)
    ensures ptr.None? || !host.Text? ==> p.None?
    ensures p.Some? <==>
      (ptr.Some? && host.Text? && FfiClient.GetHostInfo(ptr.value, host.s, port, net).Ok?
       && '\0' !in render(InfoJson(FfiClient.GetHostInfo(ptr.value, host.s, port, net).value)))
    ensures p.Some? ==> p.value == render(InfoJson(FfiClient.GetHostInfo(ptr.value, host.s, port, net).value))
  {
    if ptr.None? then None
    else match ArgText(host)
      case None => None
      case Some(h) =>
        match FfiClient.GetHostInfo(ptr.value, h, port, net)
        case Ok(info) => ToCString(render(InfoJson(info)))
        case Err(_) => None
  }

  /** The argument list: a null, non-UTF-8 or unparsable `args_json` is the empty list. */
  function ArgsOf(argsJson: CArg, parse: string -> Option<seq<string>>): (args: seq<string>)
    ensures !(argsJson.Text? && parse(argsJson.s).Some?) ==> args == []
    ensures argsJson.Text? && parse(argsJson.s).Some? ==> args == parse(argsJson.s).value
  {
    match ArgText(argsJson)
    case None => []
    case Some(json) => parse(json).UnwrapOr([])
  }

  /**
   * `halvor_client_execute_command`: the command's output as a C string
   * (the output itself, not a JSON encoding of it), or null.
   */
  function ExecuteCommand(ptr: Option<HalvorClient>, host: CArg, port: nat, command: CArg, argsJson: CArg,
                          parse: string -> Option<seq<string>>, net: Network): (p: Option<string>)
    ensures ptr.None? || !host.Text? || !command.Text? ==> p.None?
    ensures ptr.Some? && host.Text? && command.Text? ==>
      var r := FfiClient.ExecuteCommand(ptr.value, host.s, port, command.s, ArgsOf(argsJson, parse), net);
      (p.Some? <==> r.Ok? && '\0' !in r.value) && (p.Some? ==> p.value == r.value)
  {
    if ptr.None? then None
    else match ArgText(host)
      case None => None
      case Some(h) =>
        match ArgText(command)
        case None => None
        case Some(cmd) =>
          var args := ArgsOf(argsJson, parse);
          match FfiClient.ExecuteCommand(ptr.value, h, port, cmd, args, net)
          case Ok(output) => ToCString(output)
          case Err(_) => None
  }

  /** A null client pointer gives null or 0 from every entry point. */
  lemma NullClient(net: Network, host: CArg, port: nat, command: CArg, argsJson: CArg,
                   parse: string -> Option<seq<string>>, render: Json.Value -> string)
    ensures DiscoverAgents(None, net, render).None?
    ensures DiscoverViaTailscale(None, net, render).None?
    ensures DiscoverViaLocalNetwork(None, net, render).None?
    ensures PingAgent(None, host, port, net) == 0
    ensures GetHostInfo(None, host, port, net, render).None?
    ensures ExecuteCommand(None, host, port, command, argsJson, parse, net).None?
  {
  }

  /** A client made with port 0 discovers on 13001, not on the agent server's default port. */
  lemma DefaultPortMismatch()
    ensures ClientNew(0).value.discovery.agentPort != Agent.DefaultServer().port
  {
  }
}
