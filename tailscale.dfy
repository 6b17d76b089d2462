/**
 * The Tailscale service: the peer roster read from `tailscale status --json`,
 * this machine's Tailscale address from `tailscale ip -4`, host lookup with
 * a helpful error, and installing Tailscale on a remote host. Command
 * outcomes and parsed JSON are parameters.
 */
module TailscaleService {
  import opened Wrappers
  import opened Strings
  import opened Config
  import opened ConfigService
  import opened Ssh
  import opened Exec
  import Json

  // ---------------------------------------------------------------------------
  // Peer roster

  datatype TailscaleDevice = TailscaleDevice(name: string, ip: Option<string>)

  /** The name and first address of one `Peer` entry. */
  function DeviceOf(peer: Json.Value): (d: TailscaleDevice)
    ensures d.name == Json.AsStr(Json.GetKey(peer, "DNSName")).UnwrapOr("unknown")
    ensures d.ip.Some? <==>
      var ips := Json.GetKey(peer, "TailscaleIPs");
      ips.Some? && ips.value.Array? && |ips.value.items| > 0 && ips.value.items[0].Str?
    ensures d.ip.Some? ==> d.ip.value == Json.GetKey(peer, "TailscaleIPs").value.items[0].s
  {
    var name := Json.AsStr(Json.GetKey(peer, "DNSName")).UnwrapOr("unknown");
    var ips := Json.GetKey(peer, "TailscaleIPs");
    var ip := if ips.Some? && ips.value.Array? && |ips.value.items| > 0 then Json.AsStr(Some(ips.value.items[0])) else None;
    TailscaleDevice(name, ip)
  }

  /** The members of the status document's `Peer` object, in iteration order. */
  function Peers(status: Json.Value): (r: seq<(string, Json.Value)>)
    ensures Json.GetKey(status, "Peer").None? ==> r == []
  {
    match Json.GetKey(status, "Peer")
    case Some(Object(members)) => members
    case _ => []
  }

  /** The pushing loop over the peers: one device per peer, in order. */
  method PeerDevices(status: Json.Value) returns (devices: seq<TailscaleDevice>)
    ensures |devices| == |Peers(status)|
    ensures forall i :: 0 <= i < |devices| ==> devices[i] == DeviceOf(Peers(status)[i].1)
  {
    var peers := Peers(status);
    devices := [];
    for i := 0 to |peers|
      invariant |devices| == i
      invariant forall k :: 0 <= k < i ==> devices[k] == DeviceOf(peers[k].1)
    {
      devices := devices + [DeviceOf(peers[i].1)];
    }
  }

  /**
   * `list_tailscale_devices`: `spawned` is whether `tailscale` could be run,
   * `success` its exit status, `parsed` the JSON parse of its stdout.
   */
  method ListTailscaleDevices(spawned: bool, success: bool, parsed: Result<Json.Value>)
    returns (r: Result<seq<TailscaleDevice>>)
    ensures !spawned ==> r == Err("Failed to execute tailscale status")
    ensures spawned && !success ==> r == Ok([])
    ensures spawned && success && parsed.Err? ==> r == Err("Failed to parse tailscale status JSON")
    ensures spawned && success && parsed.Ok? ==>
      r.Ok? && |r.value| == |Peers(parsed.value)|
      && forall i :: 0 <= i < |r.value| ==> r.value[i] == DeviceOf(Peers(parsed.value)[i].1)
  {
    if !spawned {
      return Err("Failed to execute tailscale status");
    }
    if !success {
      return Ok([]);
    }
    if parsed.Err? {
      return Err("Failed to parse tailscale status JSON");
    }
    var devices := PeerDevices(parsed.value);
    return Ok(devices);
  }

  /** A device with no DNS name is listed as `unknown`, and one with a non-string first address has none. */
  lemma PeerFallbacks()
    ensures DeviceOf(Json.Object([("TailscaleIPs", Json.Array([Json.Number(7), Json.Str("100.1.2.3")]))]))
         == TailscaleDevice("unknown", None)
  {
  }

  /**
   * `get_tailscale_ip`: the trimmed stdout of a successful `tailscale ip -4`
   * when non-empty; `None` otherwise, including when it could not be run.
   */
  function GetTailscaleIp(output: Option<(bool, string)>): (r: Result<Option<string>>)
    ensures r.Ok?
    ensures r.value.Some? <==> output.Some? && output.value.0 && Trim(output.value.1) != ""
    ensures r.value.Some? ==> r.value.value == Trim(output.value.1) && Trim(r.value.value) == r.value.value
  {
    if output.Some? && output.value.0 && Trim(output.value.1) != "" then
      TrimIdempotent(output.value.1);
      Ok(Some(Trim(output.value.1)))
    else Ok(None)
  }

  /** `get_tailscale_hostname`: the `Self.DNSName` string of a successful, parsable status document. */
  function GetTailscaleHostname(output: Option<(bool, Result<Json.Value>)>): (r: Result<Option<string>>)
    ensures r.Ok?
    ensures r.value.Some? ==> output.Some? && output.value.0 && output.value.1.Ok?
    ensures output.Some? && output.value.0 && output.value.1.Ok? ==>
      var self := Json.GetKey(output.value.1.value, "Self");
      r.value == (if self.Some? then Json.AsStr(Json.GetKey(self.value, "DNSName")) else None)
  {
    if output.Some? && output.value.0 && output.value.1.Ok? then
      var self := Json.GetKey(output.value.1.value, "Self");
      if self.Some? then Ok(Json.AsStr(Json.GetKey(self.value, "DNSName"))) else Ok(None)
    else Ok(None)
  }

  // ---------------------------------------------------------------------------
  // Host lookup

  function NotInEnv(hostname: string): string
  {
    var upper := ToUpper(hostname);
    "Host '" + hostname + "' not found in .env\n\nAdd configuration to .env:\n  HOST_" + upper
      + "_IP=\"<ip-address>\"\n  HOST_" + upper + "_TAILSCALE=\"<tailscale-hostname>\""
  }

  /** `get_host_config`: resolve the name as `find_hostname_in_config` does, else try it as given. */
  method GetHostConfigFor(config: EnvConfig, hostname: string) returns (r: Result<HostConfig>)
    ensures hostname in config.hosts ==> r == Ok(config.hosts[hostname])
    ensures r.Err? <==> forall k :: k in config.hosts ==> !Resolves(k, hostname)
    ensures r.Err? ==> r.msg == NotInEnv(hostname)
    ensures r.Ok? ==> exists k :: k in config.hosts && Resolves(k, hostname) && r.value == config.hosts[k]
  {
    var found := FindHostnameInConfig(hostname, config);
    var actual := found.UnwrapOr(hostname);
    if actual in config.hosts {
      r := Ok(config.hosts[actual]);
    } else {
      r := Err(NotInEnv(hostname));
    }
  }

  // ---------------------------------------------------------------------------
  // Remote installation

  const INSTALL_SCRIPT := "curl -fsSL https://tailscale.com/install.sh | sh"

  /** What the installer did on the remote host: a shell command or a package-manager command. */
  datatype Action = Shell(command: string) | Run(inv: Invocation)

  function RunActions(invs: seq<Invocation>): (r: seq<Action>)
    ensures |r| == |invs| && forall i :: 0 <= i < |invs| ==> r[i] == Run(invs[i])
  {
    seq(|invs|, i requires 0 <= i < |invs| => Run(invs[i]))
  }

  const NO_PACKAGE_MANAGER := "No supported package manager found. Please install Tailscale manually from: https://tailscale.com/download"

  /**
   * `check_and_install_remote`. `probe` says whether a program exists remotely,
   * `shell` is the outcome of a shell command (`Ok(success)`), `run` that of a
   * package-manager command.
   */
  function CheckAndInstallRemote(probe: string -> Result<bool>, shell: string -> Result<bool>,
                                 run: Invocation -> Result<()>): (r: (Result<()>, seq<Action>))
    ensures probe("tailscale").Err? ==> r == (Err(probe("tailscale").msg), [])
    ensures probe("tailscale") == Ok(true) ==> r == (Ok(()), [])
    ensures probe("tailscale") == Ok(false) && Detect(probe).Err? ==> r == (Err(Detect(probe).msg), [])
    ensures probe("tailscale") == Ok(false) && Detect(probe) == Ok(Unknown) ==> r == (Err(NO_PACKAGE_MANAGER), [])
    ensures probe("tailscale") == Ok(false) && Detect(probe).Ok? && Detect(probe).value in {Apt, Yum, Dnf} ==>
      && r.1 == [Shell(INSTALL_SCRIPT)]
      && (r.0.Ok? <==> shell(INSTALL_SCRIPT) == Ok(true))
      && (shell(INSTALL_SCRIPT).Err? ==> r.0 == Err(shell(INSTALL_SCRIPT).msg))
      && (shell(INSTALL_SCRIPT) == Ok(false) ==> r.0 == Err("Failed to install Tailscale"))
    ensures probe("tailscale") == Ok(false) && Detect(probe) == Ok(Brew) ==>
      && r.1 == [Run(Invocation("brew", ["install", "tailscale"]))]
      && (r.0.Ok? <==> run(Invocation("brew", ["install", "tailscale"])).Ok?)
      && (r.0.Err? ==> r.0.msg == run(Invocation("brew", ["install", "tailscale"])).msg)
  {
    match probe("tailscale")
    case Err(m) => (Err(m), [])
    case Ok(present) =>
      if present then (Ok(()), [])
      else match Detect(probe)
        case Err(m) => (Err(m), [])
        case Ok(pm) =>
          match pm
          case Apt => ScriptInstall(shell)
          case Yum => ScriptInstall(shell)
          case Dnf => ScriptInstall(shell)
          case Brew =>
            var (res, ran) := InstallPackage(Brew, "tailscale", run);
            assert ran == [Invocation("brew", ["install", "tailscale"])];
            assert RunActions(ran) == [Run(Invocation("brew", ["install", "tailscale"]))];
            (res, RunActions(ran))
          case Unknown =>
            (Err(NO_PACKAGE_MANAGER), [])
  }

  function ScriptInstall(shell: string -> Result<bool>): (Result<()>, seq<Action>)
  {
    match shell(INSTALL_SCRIPT)
    case Err(m) => (Err(m), [Shell(INSTALL_SCRIPT)])
    case Ok(success) => (if success then Ok(()) else Err("Failed to install Tailscale"), [Shell(INSTALL_SCRIPT)])
  }

  /**
   * `install_tailscale_on_host`: the local installer for this machine, the remote check otherwise.
   * A name that resolves only through normalisation or letter case still gets an executor, but
   * `target_host` then refuses it when the executor is remote, so nothing runs on that host.
   */
  method InstallTailscaleOnHost(hostname: string, config: EnvConfig, localIps: Result<seq<string>>, defaultUser: string,
                                keyProbe: string -> bool, localInstall: Result<()>,
                                probe: string -> Result<bool>, shell: string -> Result<bool>, run: Invocation -> Result<()>)
    returns (r: Result<()>, remote: seq<Action>)
    ensures (forall k :: k in config.hosts ==> !Resolves(k, hostname)) ==> r == Err(Exec.NotFound(hostname)) && remote == []
    ensures hostname in config.hosts ==>
      var e := ExecutorFor(hostname, config.hosts[hostname], localIps, defaultUser, keyProbe);
      && (e.Err? ==> r == Err(e.msg) && remote == [])
      && (e.Ok? && e.value.Local? ==> r == localInstall && remote == [])
      && (e.Ok? && e.value.Remote? ==> (r, remote) == CheckAndInstallRemote(probe, shell, run))
    ensures hostname !in config.hosts ==> remote == []
    ensures hostname !in config.hosts && (exists k :: k in config.hosts && Resolves(k, hostname)) ==>
      exists k :: k in config.hosts && Resolves(k, hostname) &&
        var e := ExecutorFor(hostname, config.hosts[k], localIps, defaultUser, keyProbe);
        && (e.Err? ==> r == Err(e.msg))
        && (e.Ok? && e.value.Local? ==> r == localInstall)
        && (e.Ok? && e.value.Remote? ==> r == Err(Exec.NotFound(hostname)))
  {
    remote := [];
    var exec := NewExecutor(hostname, config, localIps, defaultUser, keyProbe);
    if exec.Err? {
      return Err(exec.msg), [];
    }
    var target := TargetHost(exec.value, hostname, config);
    if target.Err? {
      return Err(target.msg), [];
    }
    if IsLocal(exec.value) {
      r := localInstall;
    } else {
      var outcome := CheckAndInstallRemote(probe, shell, run);
      r, remote := outcome.0, outcome.1;
    }
  }
}
