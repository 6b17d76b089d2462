/**
 * The client the foreign-function layer wraps: a discovery configuration,
 * plus agent calls that each open a fresh agent client on the address given.
 * The network is a parameter: the Tailscale roster, the local addresses,
 * the reachability probe and the agent transport.
 */
module FfiClient {
  import opened Wrappers
  import opened Discovery
  import opened TailscaleService
  import Agent
  import AgentApi
  import Json

  datatype Network = Network(
    devices: Result<seq<TailscaleDevice>>,
    localIps: Result<seq<string>>,
    reach: (string, nat) -> bool,
    send: AgentApi.Transport)

  datatype HalvorClient = HalvorClient(discovery: HostDiscovery)

  /** `HalvorClient::new`: the given port, else the discovery default 13001. */
  function NewHalvorClient(agentPort: Option<nat>): (c: HalvorClient)
    ensures agentPort.Some? ==> c.discovery.agentPort == agentPort.value
    ensures agentPort.None? ==> c.discovery.agentPort == 13001
  {
    if agentPort.Some? then HalvorClient(NewDiscovery(agentPort.value)) else HalvorClient(DefaultDiscovery())
  }

  /** What `discover_agents` finds on `net`. */
  function AllHosts(c: HalvorClient, net: Network): seq<DiscoveredHost>
  {
    MergeCandidates(
      (if net.devices.Ok? then TailscaleHosts(c.discovery, net.devices.value, net.reach) else [])
      + (if net.localIps.Ok? then LocalHosts(c.discovery, net.localIps.value, net.reach) else []))
  }

  method DiscoverAgents(c: HalvorClient, net: Network) returns (r: Result<seq<DiscoveredHost>>)
    ensures r == Ok(AllHosts(c, net))
  {
    r := DiscoverAll(c.discovery, net.devices, net.localIps, net.reach);
  }

  method DiscoverTailscale(c: HalvorClient, net: Network) returns (r: Result<seq<DiscoveredHost>>)
    ensures r == Ok(if net.devices.Ok? then TailscaleHosts(c.discovery, net.devices.value, net.reach) else [])
  {
    var hosts := DiscoverViaTailscale(c.discovery, net.devices, net.reach);
    r := Ok(hosts);
  }

  method DiscoverLocalNetwork(c: HalvorClient, net: Network) returns (r: Result<seq<DiscoveredHost>>)
    ensures r == Ok(if net.localIps.Ok? then LocalHosts(c.discovery, net.localIps.value, net.reach) else [])
  {
    var hosts := DiscoverViaLocalNetwork(c.discovery, net.localIps, net.reach);
    r := Ok(hosts);
  }

  /** `ping_agent`: one ping to the address given, not to the discovery port. */
  function PingAgent(c: HalvorClient, host: string, port: nat, net: Network): (r: Result<bool>)
    ensures r == Ok(true) <==> net.send(host, port, Agent.Ping) == Ok(Agent.Pong)
    ensures r.Err? <==> net.send(host, port, Agent.Ping).Err?
  {
    AgentApi.Ping(AgentApi.NewClient(host, port), net.send)
  }

  function GetHostInfo(c: HalvorClient, host: string, port: nat, net: Network): (r: Result<Agent.HostInfo>)
    ensures r.Ok? <==> net.send(host, port, Agent.GetHostInfo).Ok? && net.send(host, port, Agent.GetHostInfo).value.HostInfoResponse?
    ensures r.Ok? ==> r.value == net.send(host, port, Agent.GetHostInfo).value.info
  {
    AgentApi.GetHostInfo(AgentApi.NewClient(host, port), net.send)
  }

  /** `execute_command`: the client carries no token, so the request's token is `default`. */
  function ExecuteCommand(c: HalvorClient, host: string, port: nat, command: string, args: seq<string>, net: Network): (r: Result<string>)
    ensures var resp := net.send(host, port, Agent.ExecuteCommand(command, args, "default"));
      (r.Ok? <==> resp.Ok? && resp.value.Success?) && (r.Ok? ==> r.value == resp.value.output)
  {
    AgentApi.ExecuteCommand(AgentApi.NewClient(host, port), command, args, net.send)
  }

  // ---------------------------------------------------------------------------
  // The JSON the foreign callers receive (serde's derived field names)

  function OptStr(o: Option<string>): Json.Value
  {
    if o.Some? then Json.Str(o.value) else Json.Null
  }

  function HostJson(h: DiscoveredHost): Json.Value
  {
    Json.Object([
      ("hostname", Json.Str(h.hostname)),
      ("local_ip", OptStr(h.localIp)),
      ("tailscale_ip", OptStr(h.tailscaleIp)),
      ("tailscale_hostname", OptStr(h.tailscaleHostname)),
      ("agent_port", Json.Number(h.agentPort)),
      ("reachable", Json.Bool(h.reachable))])
  }

  function HostsJson(hosts: seq<DiscoveredHost>): (v: Json.Value)
    ensures v.Array? && |v.items| == |hosts|
    ensures forall i :: 0 <= i < |hosts| ==> v.items[i] == HostJson(hosts[i])
  {
    Json.Array(seq(|hosts|, i requires 0 <= i < |hosts| => HostJson(hosts[i])))
  }

  function InfoJson(info: Agent.HostInfo): Json.Value
  {
    Json.Object([
      ("hostname", Json.Str(info.hostname)),
      ("local_ip", OptStr(info.localIp)),
      ("tailscale_ip", OptStr(info.tailscaleIp)),
      ("tailscale_hostname", OptStr(info.tailscaleHostname)),
      ("docker_version", OptStr(info.dockerVersion)),
      ("tailscale_installed", Json.Bool(info.tailscaleInstalled)),
      ("portainer_installed", Json.Bool(info.portainerInstalled))])
  }

  function StrOpt(v: Option<Json.Value>): Option<Option<string>>
  {
    match v
    case Some(Null) => Some(None)
    case Some(Str(s)) => Some(Some(s))
    case _ => None
  }

  /** Reading a host back from its JSON object, as a deserialiser would. */
  function HostFromJson(v: Json.Value): Option<DiscoveredHost>
  {
    var name := Json.GetKey(v, "hostname");
    var local := StrOpt(Json.GetKey(v, "local_ip"));
    var ts := StrOpt(Json.GetKey(v, "tailscale_ip"));
    var tsName := StrOpt(Json.GetKey(v, "tailscale_hostname"));
    var port := Json.GetKey(v, "agent_port");
    var reachable := Json.GetKey(v, "reachable");
    if name.Some? && name.value.Str? && local.Some? && ts.Some? && tsName.Some?
       && port.Some? && port.value.Number? && port.value.n >= 0 && reachable.Some? && reachable.value.Bool?
    then Some(DiscoveredHost(name.value.s, local.value, ts.value, tsName.value, port.value.n, reachable.value.b))
    else None
  }

  lemma HostJsonKeys(h: DiscoveredHost)
    ensures var m := HostJson(h).members;
      forall i, j :: 0 <= j < i < |m| ==> m[j].0 != m[i].0
  {
    var m := HostJson(h).members;
    assert m[0].0[0] == 'h' && m[1].0[0] == 'l' && m[2].0[0] == 't' && m[3].0[0] == 't' && m[4].0[0] == 'a' && m[5].0[0] == 'r';
    assert m[2].0[10] == 'i' && m[3].0[10] == 'h';
  }

  lemma HostJsonFields(h: DiscoveredHost)
    ensures Json.GetKey(HostJson(h), "hostname") == Some(Json.Str(h.hostname))
    ensures Json.GetKey(HostJson(h), "local_ip") == Some(OptStr(h.localIp))
    ensures Json.GetKey(HostJson(h), "tailscale_ip") == Some(OptStr(h.tailscaleIp))
    ensures Json.GetKey(HostJson(h), "tailscale_hostname") == Some(OptStr(h.tailscaleHostname))
    ensures Json.GetKey(HostJson(h), "agent_port") == Some(Json.Number(h.agentPort))
    ensures Json.GetKey(HostJson(h), "reachable") == Some(Json.Bool(h.reachable))
  {
    var m := HostJson(h).members;
    HostJsonKeys(h);
    Json.MemberAt(m, 0);
    Json.MemberAt(m, 1);
    Json.MemberAt(m, 2);
    Json.MemberAt(m, 3);
    Json.MemberAt(m, 4);
    Json.MemberAt(m, 5);
  }

  /** The JSON a host is sent as carries every field: reading it back gives the same host. */
  lemma HostJsonRoundTrip(h: DiscoveredHost)
    ensures HostFromJson(HostJson(h)) == Some(h)
  {
    HostJsonFields(h);
  }
}
