/**
 * Command execution context: the package manager found on a machine and
 * the commands it installs with, and the choice between running locally
 * and over SSH for a configured host. Whether a program exists, the
 * machine's own addresses, the default user name and the outcome of each
 * command are parameters.
 */
module Exec {
  import opened Wrappers
  import opened Strings
  import opened Config
  import opened ConfigService
  import opened Ssh

  // ---------------------------------------------------------------------------
  // Package managers

  datatype PackageManager = Apt | Yum | Dnf | Brew | Unknown

  /** The programs `detect` probes for, in priority order. */
  const DETECT_ORDER: seq<(string, PackageManager)> := [("apt-get", Apt), ("yum", Yum), ("dnf", Dnf), ("brew", Brew)]

  /** `PackageManager::detect`: the first program that exists wins; a failed probe fails detection. */
  function Detect(probe: string -> Result<bool>): Result<PackageManager>
  {
    match probe("apt-get")
    case Err(m) => Err(m)
    case Ok(apt) =>
      if apt then Ok(Apt)
      else match probe("yum")
        case Err(m) => Err(m)
        case Ok(yum) =>
          if yum then Ok(Yum)
          else match probe("dnf")
            case Err(m) => Err(m)
            case Ok(dnf) =>
              if dnf then Ok(Dnf)
              else match probe("brew")
                case Err(m) => Err(m)
                case Ok(brew) => if brew then Ok(Brew) else Ok(Unknown)
  }

  /** Reference reading of a priority list: probe each in turn, stop at the first that exists or fails. */
  function FirstFound(order: seq<(string, PackageManager)>, probe: string -> Result<bool>): Result<PackageManager>
    decreases |order|
  {
    if order == [] then Ok(Unknown)
    else match probe(order[0].0)
      case Err(m) => Err(m)
      case Ok(found) => if found then Ok(order[0].1) else FirstFound(order[1..], probe)
  }

  lemma DetectFollowsPriority(probe: string -> Result<bool>)
    ensures Detect(probe) == FirstFound(DETECT_ORDER, probe)
  {
    assert DETECT_ORDER[1..] == [("yum", Yum), ("dnf", Dnf), ("brew", Brew)];
    assert DETECT_ORDER[1..][1..] == [("dnf", Dnf), ("brew", Brew)];
    assert DETECT_ORDER[1..][1..][1..] == [("brew", Brew)];
    assert DETECT_ORDER[1..][1..][1..][1..] == [];
  }

  /** A manager is chosen exactly when its program exists and every earlier one was probed absent. */
  lemma {:induction false} FirstFoundMeaning(order: seq<(string, PackageManager)>, probe: string -> Result<bool>, i: nat)
    requires i < |order|
    requires forall j :: 0 <= j < i ==> probe(order[j].0) == Ok(false)
    requires probe(order[i].0) == Ok(true)
    ensures FirstFound(order, probe) == Ok(order[i].1)
    decreases i
  {
    if i > 0 {
      FirstFoundMeaning(order[1..], probe, i - 1);
    }
  }

  /** With nothing found and no probe failing, the result is `Unknown`. */
  lemma {:induction false} NothingFound(order: seq<(string, PackageManager)>, probe: string -> Result<bool>)
    requires forall j :: 0 <= j < |order| ==> probe(order[j].0) == Ok(false)
    ensures FirstFound(order, probe) == Ok(Unknown)
    decreases |order|
  {
    if order != [] {
      NothingFound(order[1..], probe);
    }
  }

  /** One program run with its arguments. */
  datatype Invocation = Invocation(program: string, args: seq<string>)

  function NoManagerFor(package: string): string
  {
    "No supported package manager found. Please install " + package + " manually."
  }

  /** The commands `install_package` runs, in order; `Unknown` fails before running anything. */
  function InstallPlan(pm: PackageManager, package: string): (r: Result<seq<Invocation>>)
    ensures r.Err? <==> pm == Unknown
    ensures r.Err? ==> r.msg == NoManagerFor(package)
    ensures pm == Apt ==> r.value == [Invocation("sudo", ["apt-get", "update"]), Invocation("sudo", ["apt-get", "install", "-y", package])]
    ensures pm == Yum ==> r.value == [Invocation("sudo", ["yum", "install", "-y", package])]
    ensures pm == Dnf ==> r.value == [Invocation("sudo", ["dnf", "install", "-y", package])]
    ensures pm == Brew ==> r.value == [Invocation("brew", ["install", package])]
    ensures r.Ok? ==> r.value != [] && var a := r.value[|r.value| - 1].args; |a| > 0 && a[|a| - 1] == package
  {
    match pm
    case Apt => Ok([Invocation("sudo", ["apt-get", "update"]), Invocation("sudo", ["apt-get", "install", "-y", package])])
    case Yum => Ok([Invocation("sudo", ["yum", "install", "-y", package])])
    case Dnf => Ok([Invocation("sudo", ["dnf", "install", "-y", package])])
    case Brew => Ok([Invocation("brew", ["install", package])])
    case Unknown => Err(NoManagerFor(package))
  }

  /** Running commands in order, stopping at the first that fails (the `?` after each). */
  function RunAll(cmds: seq<Invocation>, run: Invocation -> Result<()>): (r: (Result<()>, seq<Invocation>))
    ensures r.1 <= cmds
    ensures forall i :: 0 <= i < |r.1| - 1 ==> run(r.1[i]).Ok?
    ensures r.0.Ok? <==> r.1 == cmds && forall i :: 0 <= i < |cmds| ==> run(cmds[i]).Ok?
    ensures r.0.Err? ==> r.1 != [] && run(r.1[|r.1| - 1]) == r.0
    decreases |cmds|
  {
    if cmds == [] then (Ok(()), [])
    else match run(cmds[0])
      case Err(m) => (Err(m), [cmds[0]])
      case Ok(_) =>
        var rest := RunAll(cmds[1..], run);
        assert [cmds[0]] + cmds[1..] == cmds;
        (rest.0, [cmds[0]] + rest.1)
  }

  /** `install_package`: the outcome and the commands that were run. */
  function InstallPackage(pm: PackageManager, package: string, run: Invocation -> Result<()>): (r: (Result<()>, seq<Invocation>))
    ensures pm == Unknown ==> r == (Err(NoManagerFor(package)), [])
    ensures pm != Unknown ==> r == RunAll(InstallPlan(pm, package).value, run)
    ensures r.0.Ok? <==> pm != Unknown && forall c :: c in InstallPlan(pm, package).value ==> run(c).Ok?
    ensures r.0.Ok? ==> r.1 == InstallPlan(pm, package).value
    ensures pm == Apt && run(Invocation("sudo", ["apt-get", "update"])).Err? ==> |r.1| == 1 && r.0.Err?
  {
    match InstallPlan(pm, package)
    case Err(m) => (Err(m), [])
    case Ok(cmds) => RunAll(cmds, run)
  }

  /** `_install_packages` as written: the Brew branch repeats the program name among its arguments. */
  function InstallPackagesAsWritten(pm: PackageManager, packages: seq<string>): Result<seq<Invocation>>
  {
    match pm
    case Apt => Ok([Invocation("sudo", ["apt-get", "update"]), Invocation("sudo", ["apt-get", "install", "-y"] + packages)])
    case Yum => Ok([Invocation("sudo", ["yum", "install", "-y"] + packages)])
    case Dnf => Ok([Invocation("sudo", ["dnf", "install", "-y"] + packages)])
    case Brew => Ok([Invocation("brew", ["brew", "install"] + packages)])
    case Unknown => Err("No supported package manager found. Please install packages manually.")
  }

  /** The Brew branch runs `brew brew install <pkg>`, unlike the single-package installer. */
  lemma BrewPackagesRepeatProgram()
    ensures InstallPackagesAsWritten(Brew, ["git"]) == Ok([Invocation("brew", ["brew", "install", "git"])])
    ensures InstallPackagesAsWritten(Brew, ["git"]) != InstallPlan(Brew, "git")
  {
    assert ["brew", "install"] + ["git"] == ["brew", "install", "git"];
    assert ["brew", "install", "git"] != ["install", "git"];
  }

  /** `_install_packages` with the Brew arguments starting at `install`, like `install_package`. */
  function InstallPackagesPlan(pm: PackageManager, packages: seq<string>): (r: Result<seq<Invocation>>)
    ensures r.Err? <==> pm == Unknown
  {
    match pm
    case Apt => Ok([Invocation("sudo", ["apt-get", "update"]), Invocation("sudo", ["apt-get", "install", "-y"] + packages)])
    case Yum => Ok([Invocation("sudo", ["yum", "install", "-y"] + packages)])
    case Dnf => Ok([Invocation("sudo", ["dnf", "install", "-y"] + packages)])
    case Brew => Ok([Invocation("brew", ["install"] + packages)])
    case Unknown => Err("No supported package manager found. Please install packages manually.")
  }

  /** Installing a one-package list runs the same commands as installing that package. */
  lemma SinglePackageListAgrees(pm: PackageManager, package: string)
    requires pm != Unknown
    ensures InstallPackagesPlan(pm, [package]) == InstallPlan(pm, package)
  {
    assert ["apt-get", "install", "-y"] + [package] == ["apt-get", "install", "-y", package];
    assert ["yum", "install", "-y"] + [package] == ["yum", "install", "-y", package];
    assert ["dnf", "install", "-y"] + [package] == ["dnf", "install", "-y", package];
    assert ["install"] + [package] == ["install", package];
  }

  /** `display_name`. */
  function DisplayName(pm: PackageManager): string
  {
    match pm
    case Apt => "apt (Debian/Ubuntu)"
    case Yum => "yum (RHEL/CentOS)"
    case Dnf => "dnf (Fedora)"
    case Brew => "brew (macOS)"
    case Unknown => "unknown"
  }

  /** Distinct managers have distinct display names. */
  lemma DisplayNamesDistinct(a: PackageManager, b: PackageManager)
    requires a != b
    ensures DisplayName(a) != DisplayName(b)
  {
    var x, y := DisplayName(a), DisplayName(b);
    assert x[0] != y[0];
  }

  // ---------------------------------------------------------------------------
  // Local or remote

  datatype Executor = Local | Remote(conn: SshConnection)

  function NotFound(hostname: string): string
  {
    "Host '" + hostname + "' not found in config"
  }

  function NoAddress(hostname: string): string
  {
    "No IP or Tailscale hostname configured for " + hostname
  }

  /**
   * The decision `Executor::new` makes once the host's config is found:
   * without an IP, SSH to the Tailscale name; with an IP that is one of this
   * machine's, run locally; otherwise SSH to the IP.
   */
  function ExecutorFor(hostname: string, c: HostConfig, localIps: Result<seq<string>>, defaultUser: string,
                       keyProbe: string -> bool): (r: Result<Executor>)
    ensures r.Ok? && r.value.Local? <==> c.ip.Some? && localIps.Ok? && c.ip.value in localIps.value
    ensures r.Err? <==> (c.ip.None? && c.tailscale.None?) || (c.ip.Some? && localIps.Err?)
    ensures c.ip.None? && c.tailscale.None? ==> r == Err(NoAddress(hostname))
    ensures r.Ok? && r.value.Remote? ==>
      r.value.conn.host == defaultUser + "@" + (if c.ip.Some? then c.ip.value else c.tailscale.value)
      && r.value.conn.useKeyAuth == keyProbe(r.value.conn.host)
  {
    if c.ip.None? then
      if c.tailscale.None? then Err(NoAddress(hostname))
      else Ok(Remote(NewConnection(defaultUser + "@" + c.tailscale.value, keyProbe)))
    else match localIps
      case Err(m) => Err(m)
      case Ok(ips) =>
        if c.ip.value in ips then Ok(Local)
        else Ok(Remote(NewConnection(defaultUser + "@" + c.ip.value, keyProbe)))
  }

  predicate Resolves(k: string, hostname: string)
  {
    EqIgnoreCase(k, hostname) || EqIgnoreCase(k, Normalize(hostname))
  }

  /** `Executor::new`: find the host (exactly, normalised, or ignoring case), then decide. */
  method NewExecutor(hostname: string, config: EnvConfig, localIps: Result<seq<string>>, defaultUser: string,
                     keyProbe: string -> bool) returns (r: Result<Executor>)
    ensures (forall k :: k in config.hosts ==> !Resolves(k, hostname)) ==> r == Err(NotFound(hostname))
    ensures hostname in config.hosts ==> r == ExecutorFor(hostname, config.hosts[hostname], localIps, defaultUser, keyProbe)
    ensures (exists k :: k in config.hosts && Resolves(k, hostname)) ==>
      exists k :: k in config.hosts && Resolves(k, hostname) && r == ExecutorFor(hostname, config.hosts[k], localIps, defaultUser, keyProbe)
  {
    var actual := FindHostnameInConfig(hostname, config);
    if actual.None? {
      return Err(NotFound(hostname));
    }
    r := ExecutorFor(hostname, config.hosts[actual.value], localIps, defaultUser, keyProbe);
  }

  /** `target_host`: the hostname itself when local; the configured IP, else Tailscale name, when remote. */
  function TargetHost(e: Executor, hostname: string, config: EnvConfig): (r: Result<string>)
    ensures e.Local? ==> r == Ok(hostname)
    ensures e.Remote? && hostname !in config.hosts ==> r == Err(NotFound(hostname))
    ensures e.Remote? && hostname in config.hosts ==>
      var c := config.hosts[hostname];
      && (c.ip.Some? ==> r == Ok(c.ip.value))
      && (c.ip.None? && c.tailscale.Some? ==> r == Ok(c.tailscale.value))
      && (c.ip.None? && c.tailscale.None? ==> r == Err(NoAddress(hostname)))
  {
    match e
    case Local => Ok(hostname)
    case Remote(_) =>
      match Get(config.hosts, hostname)
      case None => Err(NotFound(hostname))
      case Some(c) =>
        if c.ip.Some? then Ok(c.ip.value)
        else if c.tailscale.Some? then Ok(c.tailscale.value)
        else Err(NoAddress(hostname))
  }

  /** `is_local`. */
  predicate IsLocal(e: Executor)
  {
    e.Local?
  }

  /** For a host under its exact name, the remote executor connects to `user@<target_host>`. */
  lemma RemoteTargetsConnection(hostname: string, config: EnvConfig, localIps: Result<seq<string>>, defaultUser: string,
                                keyProbe: string -> bool)
    requires hostname in config.hosts
    requires var r := ExecutorFor(hostname, config.hosts[hostname], localIps, defaultUser, keyProbe); r.Ok? && r.value.Remote?
    ensures var e := ExecutorFor(hostname, config.hosts[hostname], localIps, defaultUser, keyProbe).value;
      TargetHost(e, hostname, config).Ok? && e.conn.host == defaultUser + "@" + TargetHost(e, hostname, config).value
      && !IsLocal(e)
  {
  }

  /** A host found only through its normalised name gets an executor, but `target_host` then misses it. */
  lemma TargetHostNeedsExactName()
    ensures var config := EnvConfig("ts.net", map["pi" := HostConfig(None, None, Some("pi"), None)], map[]);
      && Normalize("pi.local") == "pi"
      && ExecutorFor("pi.local", config.hosts["pi"], Ok([]), "root", _ => true).Ok?
      && TargetHost(Remote(SshConnection("root@pi", true)), "pi.local", config) == Err(NotFound("pi.local"))
  {
    var s := "pi.local";
    assert EndsWith(s, TLDS[2]) by { assert s[|s| - 6..] == ".local"; }
    assert !EndsWith(s, TLDS[0]) by { assert |s| < |TLDS[0]|; }
    assert !EndsWith(s, TLDS[1]) by { assert s[|s| - 7..][0] != TLDS[1][0]; }
    assert StripFirstTld(s, TLDS) == "pi";
  }
}
