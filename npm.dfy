/**
 * Nginx Proxy Manager set-up: the `name:port` service spec, the service
 * ports found in a compose file, and the proxy hosts created for services
 * whose `<service>.local` domain no existing proxy host lists. The HTTP API
 * (login, listing, creation) and the YAML parser are parameters: the
 * listing as a result, the compose document as the tree the parser yields.
 */
module Npm {
  import opened Wrappers
  import opened Strings
  import opened Config
  import Exec

  // ---------------------------------------------------------------------------
  // Service specs

  const PORTAINER_PORT: nat := 9000
  const NPM_PORT: nat := 81

  function InvalidPort(portStr: string): string
  {
    "Invalid port: " + portStr
  }

  function UnknownService(spec: string): string
  {
    "Unknown service '" + spec + "'. Use format 'servicename:port' (e.g., 'portainer:9000')"
  }

  /** The port of a bare service name, compared in lower case. */
  function KnownPort(spec: string): Option<nat>
  {
    var l := ToLower(spec);
    if l == "portainer" then Some(PORTAINER_PORT)
    else if l == "npm" || l == "nginx-proxy-manager" then Some(NPM_PORT)
    else None
  }

  /**
   * `name:port` splits at the first ':' and the port must be a `u16`; a bare
   * name must be one of the known services, and keeps its own spelling.
   */
  function ParseServiceSpec(spec: string): (r: Result<(string, nat)>)
    ensures r.Ok? ==> r.value.1 <= U16_MAX
    ensures ':' in spec ==> match SplitOnce(spec, ':')
      case Some((name, portStr)) =>
        && (r.Ok? <==> ParseUnsigned(portStr, U16_MAX).Some?)
        && (r.Ok? ==> r.value == (name, ParseUnsigned(portStr, U16_MAX).value))
        && (r.Err? ==> r.msg == InvalidPort(portStr))
      case None => false
    ensures ':' !in spec ==>
      r == if KnownPort(spec).Some? then Ok((spec, KnownPort(spec).value)) else Err(UnknownService(spec))
  {
    match SplitOnce(spec, ':')
    case Some((name, portStr)) =>
      (match ParseUnsigned(portStr, U16_MAX)
       case None => Err(InvalidPort(portStr))
       case Some(port) => Ok((name, port)))
    case None =>
      match KnownPort(spec)
      case Some(port) => Ok((spec, port))
      case None => Err(UnknownService(spec))
  }

  /** A name without ':' and a port in range read back from `name:port`. */
  lemma ServiceSpecRoundTrip(name: string, port: nat)
    requires ':' !in name && port <= U16_MAX
    ensures ParseServiceSpec(name + ":" + NatToString(port)) == Ok((name, port))
  {
    SplitOnceAt(name, ':', NatToString(port));
    ParseNatToString(port, U16_MAX);
  }

  /** Bare names that differ only in case are accepted or refused together, with the same port. */
  lemma ServiceSpecIgnoresCase(a: string, b: string)
    requires ':' !in a && ':' !in b && ToLower(a) == ToLower(b)
    ensures ParseServiceSpec(a).Ok? <==> ParseServiceSpec(b).Ok?
    ensures ParseServiceSpec(a).Ok? ==> ParseServiceSpec(a).value.1 == ParseServiceSpec(b).value.1
  {
  }

  /** Only the three known names are accepted bare: Portainer's port 9000, the proxy manager's 81. */
  lemma KnownPortMeaning(spec: string)
    ensures KnownPort(spec) == Some(PORTAINER_PORT) <==> ToLower(spec) == "portainer"
    ensures KnownPort(spec) == Some(NPM_PORT) <==> ToLower(spec) in {"npm", "nginx-proxy-manager"}
    ensures KnownPort(spec).Some? ==> KnownPort(spec).value in {PORTAINER_PORT, NPM_PORT}
  {
  }

  /** `<service>.local`. */
  function Domain(service: string): string
  {
    service + ".local"
  }

  lemma DomainInjective(a: string, b: string)
    ensures Domain(a) == Domain(b) <==> a == b
  {
    if Domain(a) == Domain(b) {
      assert a == Domain(a)[..|a|];
      assert b == Domain(b)[..|b|];
    }
  }

  // ---------------------------------------------------------------------------
  // Compose files

  /** A `services` entry as the YAML parser gives it: the key if it is a string, and the `ports` list if it is one (each item if it is a string). */
  datatype ServiceEntry = ServiceEntry(key: Option<string>, ports: Option<seq<Option<string>>>)

  /** A YAML document: its `services` mapping when there is one. */
  datatype ComposeDoc = ComposeDoc(services: Option<seq<ServiceEntry>>)

  /** The host side of the first port mapping: its text up to the first ':' as a `u16`. */
  function FirstPort(e: ServiceEntry): (r: Option<nat>)
    ensures r.Some? ==> r.value <= U16_MAX
  {
    match e.ports
    case None => None
    case Some(ps) =>
      if ps == [] then None
      else match ps[0]
        case None => None
        case Some(s) => ParseUnsigned(Split(s, ':')[0], U16_MAX)
  }

  /** A first mapping `host:container` with a `u16` host port gives that port. */
  lemma FirstPortMapping(key: Option<string>, host: nat, container: string, rest: seq<Option<string>>)
    requires host <= U16_MAX
    ensures FirstPort(ServiceEntry(key, Some([Some(NatToString(host) + ":" + container)] + rest))) == Some(host)
  {
    var h := NatToString(host);
    assert ':' !in h by {
      assert forall c :: c in h ==> IsDigit(c);
    }
    SplitHead(h, ':', container);
    ParseNatToString(host, U16_MAX);
  }

  /** What the parser sees of an entry: its string key and its first port. */
  function Ports(entries: seq<ServiceEntry>): (r: seq<(Option<string>, Option<nat>)>)
    ensures |r| == |entries|
  {
    seq(|entries|, i requires 0 <= i < |entries| => (entries[i].key, FirstPort(entries[i])))
  }

  /** An entry inserts its name and port when both are there. */
  predicate Exposed(p: (Option<string>, Option<nat>), name: string)
  {
    p.0 == Some(name) && p.1.Some?
  }

  /** The map the loop builds from the entries seen so far, a later insert overwriting an earlier one. */
  function Collect(ps: seq<(Option<string>, Option<nat>)>): map<string, nat>
  {
    if ps == [] then map[]
    else
      var m := Collect(ps[..|ps| - 1]);
      var p := ps[|ps| - 1];
      if p.0.Some? && p.1.Some? then m[p.0.value := p.1.value] else m
  }

  /** A name is collected iff some entry exposes it. */
  lemma {:induction false} CollectKeys(ps: seq<(Option<string>, Option<nat>)>, name: string)
    ensures name in Collect(ps) <==> exists i :: 0 <= i < |ps| && Exposed(ps[i], name)
    decreases |ps|
  {
    if ps != [] {
      var init := ps[..|ps| - 1];
      CollectKeys(init, name);
      if !Exposed(ps[|ps| - 1], name) {
        if exists i :: 0 <= i < |ps| && Exposed(ps[i], name) {
          var i :| 0 <= i < |ps| && Exposed(ps[i], name);
          assert init[i] == ps[i];
        }
      }
    }
  }

  /** The collected port is that of the last entry exposing the name. */
  lemma {:induction false} CollectLastWins(ps: seq<(Option<string>, Option<nat>)>, name: string, i: nat)
    requires i < |ps| && Exposed(ps[i], name)
    requires forall j :: i < j < |ps| ==> !Exposed(ps[j], name)
    ensures name in Collect(ps) && Collect(ps)[name] == ps[i].1.value
    decreases |ps|
  {
    var init := ps[..|ps| - 1];
    if i < |ps| - 1 {
      assert init[i] == ps[i];
      assert !Exposed(ps[|ps| - 1], name);
      CollectLastWins(init, name, i);
    }
  }

  /** The service ports of a `services` mapping. */
  function ComposeServices(entries: seq<ServiceEntry>): map<string, nat>
  {
    Collect(Ports(entries))
  }

  predicate Exposes(e: ServiceEntry, name: string)
  {
    e.key == Some(name) && FirstPort(e).Some?
  }

  /**
   * A service is collected iff an entry under its name has a parsable first
   * port; its port is that of the last such entry, so a `u16`.
   */
  lemma ComposeServicesMeaning(entries: seq<ServiceEntry>, name: string)
    ensures name in ComposeServices(entries) <==> exists i :: 0 <= i < |entries| && Exposes(entries[i], name)
    ensures forall i :: 0 <= i < |entries| && Exposes(entries[i], name) && (forall j :: i < j < |entries| ==> !Exposes(entries[j], name)) ==>
      ComposeServices(entries)[name] == FirstPort(entries[i]).value <= U16_MAX
  {
    var ps := Ports(entries);
    CollectKeys(ps, name);
    assert forall i :: 0 <= i < |entries| ==> (Exposed(ps[i], name) <==> Exposes(entries[i], name));
    forall i | 0 <= i < |entries| && Exposes(entries[i], name) && (forall j :: i < j < |entries| ==> !Exposes(entries[j], name))
      ensures ComposeServices(entries)[name] == FirstPort(entries[i]).value <= U16_MAX
    {
      CollectLastWins(ps, name, i);
    }
  }

  /**
   * `parse_compose_services`: nothing for an empty stream of documents;
   * otherwise the loop over the first document's `services` mapping.
   */
  method ParseComposeServices(docs: seq<ComposeDoc>) returns (services: map<string, nat>)
    ensures docs == [] || docs[0].services.None? ==> services == map[]
    ensures docs != [] && docs[0].services.Some? ==> services == ComposeServices(docs[0].services.value)
  {
    services := map[];
    if docs == [] || docs[0].services.None? {
      return;
    }
    var entries := docs[0].services.value;
    ghost var ps := Ports(entries);
    var i := 0;
    while i < |entries|
      invariant 0 <= i <= |entries|
      invariant services == Collect(ps[..i])
    {
      var e := entries[i];
      assert ps[..i + 1][..i] == ps[..i];
      assert ps[i] == (e.key, FirstPort(e));
      if e.key.Some? {
        var port := FirstPort(e);
        if port.Some? {
          services := services[e.key.value := port.value];
        }
      }
      i := i + 1;
    }
    assert ps[..i] == ps;
  }

  // ---------------------------------------------------------------------------
  // Proxy hosts

  /** An existing proxy host as the listing returns it. */
  datatype ProxyHost = ProxyHost(id: nat, domainNames: seq<string>)

  /** The create request; the fields the request leaves unset are not modelled. */
  datatype ProxyHostRequest = ProxyHostRequest(
    domainNames: seq<string>,
    forwardScheme: string,
    forwardHost: string,
    forwardPort: nat,
    sslForced: bool,
    blockExploits: bool,
    cachingEnabled: bool,
    allowWebsocketUpgrade: bool,
    http2Support: bool)

  /** The request `create_proxy_host` sends: plain HTTP, websockets on, the rest off. */
  function NewProxyHost(domain: string, forwardHost: string, port: nat): ProxyHostRequest
  {
    ProxyHostRequest([domain], "http", forwardHost, port, false, false, false, true, false)
  }

  /** The index of the first host from `from` on that lists `domain`. */
  function FirstListing(hosts: seq<ProxyHost>, domain: string, from: nat): (r: Option<nat>)
    requires from <= |hosts|
    ensures r.None? <==> forall j :: from <= j < |hosts| ==> domain !in hosts[j].domainNames
    ensures r.Some? ==>
      && from <= r.value < |hosts| && domain in hosts[r.value].domainNames
      && forall j :: from <= j < r.value ==> domain !in hosts[j].domainNames
    decreases |hosts| - from
  {
    if from == |hosts| then None
    else if domain in hosts[from].domainNames then Some(from)
    else FirstListing(hosts, domain, from + 1)
  }

  /** `find`: the first existing host that lists `domain`. */
  function FindExisting(hosts: seq<ProxyHost>, domain: string): (r: Option<ProxyHost>)
    ensures r.None? <==> forall i :: 0 <= i < |hosts| ==> domain !in hosts[i].domainNames
    ensures r.Some? ==> exists i ::
      && 0 <= i < |hosts| && hosts[i] == r.value && domain in r.value.domainNames
      && forall j :: 0 <= j < i ==> domain !in hosts[j].domainNames
  {
    match FirstListing(hosts, domain, 0)
    case None => None
    case Some(i) => Some(hosts[i])
  }

  /** The requests the set-up loop sends for `names`, skipping domains that are already served. */
  function RequestsFor(names: seq<string>, services: map<string, nat>, existing: seq<ProxyHost>, target: string): seq<ProxyHostRequest>
    requires forall k :: 0 <= k < |names| ==> names[k] in services
  {
    if names == [] then []
    else
      var init := names[..|names| - 1];
      var n := names[|names| - 1];
      RequestsFor(init, services, existing, target)
        + (if FindExisting(existing, Domain(n)).Some? then [] else [NewProxyHost(Domain(n), target, services[n])])
  }

  predicate Needed(n: string, services: map<string, nat>, existing: seq<ProxyHost>, target: string, req: ProxyHostRequest)
    requires n in services
  {
    FindExisting(existing, Domain(n)).None? && req == NewProxyHost(Domain(n), target, services[n])
  }

  /** A request is sent exactly for the visited services whose domain no existing host lists. */
  lemma {:induction false} RequestsForMeaning(names: seq<string>, services: map<string, nat>, existing: seq<ProxyHost>, target: string, req: ProxyHostRequest)
    requires forall k :: 0 <= k < |names| ==> names[k] in services
    ensures req in RequestsFor(names, services, existing, target) <==>
      exists k :: 0 <= k < |names| && Needed(names[k], services, existing, target, req)
    decreases |names|
  {
    if names != [] {
      var init := names[..|names| - 1];
      RequestsForMeaning(init, services, existing, target, req);
      var n := names[|names| - 1];
      if exists k :: 0 <= k < |names| && Needed(names[k], services, existing, target, req) {
        var k :| 0 <= k < |names| && Needed(names[k], services, existing, target, req);
        if k < |names| - 1 {
          assert init[k] == names[k];
        }
      }
      if exists k :: 0 <= k < |init| && Needed(init[k], services, existing, target, req) {
        var k :| 0 <= k < |init| && Needed(init[k], services, existing, target, req);
        assert names[k] == init[k];
      }
    }
  }

  /** The forward target: the IP, else the Tailscale name. */
  function ForwardHost(hostname: string, c: HostConfig): (r: Result<string>)
    ensures c.ip.Some? ==> r == Ok(c.ip.value)
    ensures c.ip.None? && c.tailscale.Some? ==> r == Ok(c.tailscale.value)
    ensures c.ip.None? && c.tailscale.None? ==> r == Err(Exec.NoAddress(hostname))
  {
    if c.ip.Some? then Ok(c.ip.value)
    else if c.tailscale.Some? then Ok(c.tailscale.value)
    else Err(Exec.NoAddress(hostname))
  }

  /**
   * `setup_proxy_hosts`: the host's address, the compose file's services,
   * and for each service (in the map's own order) a proxy host unless its
   * domain is already listed. `host` is the host lookup, `existing` the
   * login and listing; a failed creation is reported and the loop goes on,
   * so every needed request is sent.
   */
  method SetupProxyHosts(hostname: string, host: Result<HostConfig>, docs: seq<ComposeDoc>, existing: Result<seq<ProxyHost>>)
    returns (r: Result<seq<ProxyHostRequest>>)
    ensures host.Err? ==> r == Err(host.msg)
    ensures host.Ok? && ForwardHost(hostname, host.value).Err? ==> r == Err(ForwardHost(hostname, host.value).msg)
    ensures host.Ok? && ForwardHost(hostname, host.value).Ok? ==>
      var services := if docs == [] || docs[0].services.None? then map[] else ComposeServices(docs[0].services.value);
      && (services == map[] ==> r == Ok([]))
      && (services != map[] && existing.Err? ==> r == Err(existing.msg))
      && (services != map[] && existing.Ok? ==>
            && r.Ok?
            && forall req :: req in r.value <==>
                 exists n :: n in services && Needed(n, services, existing.value, ForwardHost(hostname, host.value).value, req))
  {
    if host.Err? {
      return Err(host.msg);
    }
    var forward := ForwardHost(hostname, host.value);
    if forward.Err? {
      return Err(forward.msg);
    }
    var services := ParseComposeServices(docs);
    if services == map[] {
      return Ok([]);
    }
    if existing.Err? {
      return Err(existing.msg);
    }
    var names := Enumerate(services.Keys);
    var requests := SendRequests(names, services, existing.value, forward.value);
    r := Ok(requests);
    forall req ensures req in requests <==> exists n :: n in services && Needed(n, services, existing.value, forward.value, req) {
      RequestsForMeaning(names, services, existing.value, forward.value, req);
      if exists n :: n in services && Needed(n, services, existing.value, forward.value, req) {
        var n :| n in services && Needed(n, services, existing.value, forward.value, req);
        assert n in names;
      }
    }
  }

  /** The loop over the services. */
  method SendRequests(names: seq<string>, services: map<string, nat>, existing: seq<ProxyHost>, target: string)
    returns (requests: seq<ProxyHostRequest>)
    requires forall k :: 0 <= k < |names| ==> names[k] in services
    ensures requests == RequestsFor(names, services, existing, target)
  {
    requests := [];
    var i := 0;
    while i < |names|
      invariant 0 <= i <= |names|
      invariant requests == RequestsFor(names[..i], services, existing, target)
    {
      var n := names[i];
      assert names[..i + 1][..i] == names[..i];
      var found := FindExisting(existing, Domain(n));
      if found.None? {
        requests := requests + [NewProxyHost(Domain(n), target, services[n])];
      }
      i := i + 1;
    }
    assert names[..i] == names;
  }

  function CreateFailed(message: string): string
  {
    "Failed to create proxy host: " + message
  }

  /**
   * `setup_single_proxy_host`: the spec is parsed before the host is looked
   * up; an existing host for the domain means nothing is created (`Ok(None)`);
   * otherwise the one request, whose failure (`createError`) is an error here.
   */
  function SingleProxyHost(hostname: string, spec: string, host: Result<HostConfig>, existing: Result<seq<ProxyHost>>,
                           createError: Option<string>): (r: Result<Option<ProxyHostRequest>>)
    ensures ParseServiceSpec(spec).Err? ==> r == Err(ParseServiceSpec(spec).msg)
    ensures r.Ok? && r.value.Some? ==>
      && ParseServiceSpec(spec).Ok? && host.Ok? && existing.Ok? && createError.None?
      && var (name, port) := ParseServiceSpec(spec).value;
         FindExisting(existing.value, Domain(name)).None?
         && ForwardHost(hostname, host.value).Ok?
         && r.value.value == NewProxyHost(Domain(name), ForwardHost(hostname, host.value).value, port)
    ensures r == Ok(None) <==>
      ParseServiceSpec(spec).Ok? && host.Ok? && ForwardHost(hostname, host.value).Ok? && existing.Ok?
      && FindExisting(existing.value, Domain(ParseServiceSpec(spec).value.0)).Some?
  {
    match ParseServiceSpec(spec)
    case Err(m) => Err(m)
    case Ok((name, port)) =>
      match host
      case Err(m) => Err(m)
      case Ok(c) =>
        match ForwardHost(hostname, c)
        case Err(m) => Err(m)
        case Ok(target) =>
          match existing
          case Err(m) => Err(m)
          case Ok(hosts) =>
            if FindExisting(hosts, Domain(name)).Some? then Ok(None)
            else match createError
              case Some(m) => Err(CreateFailed(m))
              case None => Ok(Some(NewProxyHost(Domain(name), target, port)))
  }
}
