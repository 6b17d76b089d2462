/**
 * The host service: where a host's configuration comes from (the database
 * first, the `.env` file second), the list of known hosts, and the listing
 * that merges both sources and tags each host with where it was found.
 * The database and the env file are parameters: the database row for a
 * name (`None` both when there is no row and when the query fails), the
 * database's host list, and the result of loading the env file.
 */
module HostService {
  import opened Wrappers
  import opened Strings
  import opened Config

  /**
   * The database tables the host and config services read and write, keyed
   * by name: host configurations, SMB servers and settings.
   */
  class Database {
    var hosts: map<string, HostConfig>
    var smbServers: map<string, SmbServerConfig>
    var settings: map<string, string>

    constructor (hosts: map<string, HostConfig>, smbServers: map<string, SmbServerConfig>, settings: map<string, string>)
      ensures this.hosts == hosts && this.smbServers == smbServers && this.settings == settings
    {
      this.hosts := hosts;
      this.smbServers := smbServers;
      this.settings := settings;
    }

    /** `store_host_config`: insert or replace one host row; a failed write changes nothing. */
    method StoreHostConfig(hostname: string, config: HostConfig, outcome: Result<()>) returns (r: Result<()>)
      modifies this
      ensures r == outcome
      ensures outcome.Ok? ==> hosts == old(hosts)[hostname := config]
      ensures outcome.Err? ==> hosts == old(hosts)
      ensures smbServers == old(smbServers) && settings == old(settings)
    {
      r := outcome;
      if outcome.Ok? {
        hosts := hosts[hostname := config];
      }
    }

    /** `delete_host_config`: remove one host row, if there is one; a failed delete changes nothing. */
    method DeleteHostConfig(hostname: string, outcome: Result<()>) returns (r: Result<()>)
      modifies this
      ensures r == outcome
      ensures outcome.Ok? ==> hosts == old(hosts) - {hostname}
      ensures outcome.Err? ==> hosts == old(hosts)
      ensures smbServers == old(smbServers) && settings == old(settings)
    {
      r := outcome;
      if outcome.Ok? {
        hosts := hosts - {hostname};
      }
    }
  }

  /** `get_host_config`: the database row wins; otherwise the env file decides. */
  function GetHostConfig(dbRow: Option<HostConfig>, env: Result<EnvConfig>, hostname: string): (r: Result<Option<HostConfig>>)
    ensures dbRow.Some? ==> r == Ok(dbRow)
    ensures dbRow.None? && env.Err? ==> r == Err(env.msg)
    ensures dbRow.None? && env.Ok? ==> r.Ok? && (r.value.Some? <==> hostname in env.value.hosts)
    ensures dbRow.None? && env.Ok? && hostname in env.value.hosts ==> r.value.value == env.value.hosts[hostname]
  {
    if dbRow.Some? then Ok(dbRow)
    else match env
      case Err(m) => Err(m)
      case Ok(cfg) => Ok(if hostname in cfg.hosts then Some(cfg.hosts[hostname]) else None)
  }

  /** The names of `s` in ascending order, each once. */
  method SortedNames(s: set<string>) returns (r: seq<string>)
    ensures SortedStrings(r)
    ensures NoDuplicates(r)
    ensures forall h :: h in r <==> h in s
  {
    var xs := Enumerate(s);
    r := SortStrings(xs);
    NoDuplicatesCounts(xs);
    NoDuplicatesCounts(r);
    assert forall h :: h in r <==> h in multiset(r);
  }

  /** `list_hosts`: a non-empty database list as is, else the env file's hosts sorted. */
  method ListHosts(dbList: Result<seq<string>>, env: Result<EnvConfig>) returns (r: Result<seq<string>>)
    ensures dbList.Ok? && dbList.value != [] ==> r == dbList
    ensures !(dbList.Ok? && dbList.value != []) && env.Err? ==> r == Err(env.msg)
    ensures !(dbList.Ok? && dbList.value != []) && env.Ok? ==>
      r.Ok? && SortedStrings(r.value) && NoDuplicates(r.value) &&
      forall h :: h in r.value <==> h in env.value.hosts
  {
    if dbList.Ok? && dbList.value != [] {
      return dbList;
    }
    if env.Err? {
      return Err(env.msg);
    }
    var names := SortedNames(env.value.hosts.Keys);
    r := Ok(names);
  }

  // ---------------------------------------------------------------------------
  // The merged listing

  /** Where a listed host was found. */
  datatype Source = FromEnv | FromDb | FromBoth

  type Entry = (Source, HostConfig)

  /** Every host of a loaded env file, tagged as coming from it. */
  function EnvEntries(env: Result<EnvConfig>): map<string, Entry>
  {
    if env.Ok? then map n | n in env.value.hosts :: (FromEnv, env.value.hosts[n]) else map[]
  }

  /** One database name folded into the listing. */
  function MergeStep(all: map<string, Entry>, name: string, rows: map<string, HostConfig>, env: Result<EnvConfig>): map<string, Entry>
  {
    match GetHostConfig(Get(rows, name), env, name)
    case Ok(Some(c)) =>
      if name in all then all[name := (FromBoth, all[name].1)] else all[name := (FromDb, c)]
    case _ =>
      if name in all then all else all[name := (FromDb, EmptyHost)]
  }

  function MergeDb(all: map<string, Entry>, names: seq<string>, rows: map<string, HostConfig>, env: Result<EnvConfig>): map<string, Entry>
    decreases |names|
  {
    if |names| == 0 then all
    else MergeStep(MergeDb(all, names[..|names| - 1], rows, env), names[|names| - 1], rows, env)
  }

  /**
   * The source tag and configuration each name ends up with: a name in both
   * places keeps its env configuration, a database-only name takes its row or
   * an empty configuration.
   */
  function Expected(env: Result<EnvConfig>, names: seq<string>, rows: map<string, HostConfig>, name: string): Option<Entry>
  {
    var inEnv := env.Ok? && name in env.value.hosts;
    if inEnv && name in names then Some((FromBoth, env.value.hosts[name]))
    else if inEnv then Some((FromEnv, env.value.hosts[name]))
    else if name in names then Some((FromDb, if name in rows then rows[name] else EmptyHost))
    else None
  }

  lemma MergeStepOther(all: map<string, Entry>, last: string, rows: map<string, HostConfig>, env: Result<EnvConfig>, name: string)
    requires name != last
    ensures Get(MergeStep(all, last, rows, env), name) == Get(all, name)
  {
  }

  lemma MergeStepFirst(all: map<string, Entry>, last: string, names: seq<string>, rows: map<string, HostConfig>, env: Result<EnvConfig>)
    requires last in names
    requires Get(all, last) == (if env.Ok? && last in env.value.hosts then Some((FromEnv, env.value.hosts[last])) else None)
    ensures Get(MergeStep(all, last, rows, env), last) == Expected(env, names, rows, last)
  {
  }

  /** The merge gives every name exactly the tag and configuration `Expected` describes. */
  lemma {:induction false} MergeMeaning(env: Result<EnvConfig>, names: seq<string>, rows: map<string, HostConfig>, name: string)
    requires NoDuplicates(names)
    ensures Get(MergeDb(EnvEntries(env), names, rows, env), name) == Expected(env, names, rows, name)
  {
    if |names| > 0 {
      var p, last := names[..|names| - 1], names[|names| - 1];
      assert names == p + [last];
      assert NoDuplicates(p);
      var before := MergeDb(EnvEntries(env), p, rows, env);
      assert MergeDb(EnvEntries(env), names, rows, env) == MergeStep(before, last, rows, env);
      if name == last {
        assert last !in p by {
          forall i | 0 <= i < |p| ensures p[i] != last {
            assert names[i] != names[|names| - 1];
          }
        }
        MergeMeaning(env, p, rows, last);
        MergeStepFirst(before, last, names, rows, env);
      } else {
        MergeMeaning(env, p, rows, name);
        MergeStepOther(before, last, rows, env, name);
        assert name in names <==> name in p;
      }
    } else {
      assert MergeDb(EnvEntries(env), names, rows, env) == EnvEntries(env);
    }
  }

  /** `list_hosts_display`'s two loops: env hosts first, then the database names in order. */
  method MergeHosts(env: Result<EnvConfig>, dbList: Option<seq<string>>, rows: map<string, HostConfig>) returns (all: map<string, Entry>)
    ensures all == MergeDb(EnvEntries(env), dbList.UnwrapOr([]), rows, env)
  {
    all := map[];
    if env.Ok? {
      var hosts := env.value.hosts;
      var todo := hosts.Keys;
      while todo != {}
        invariant todo <= hosts.Keys
        invariant all == map n | n in hosts && n !in todo :: (FromEnv, hosts[n])
        decreases |todo|
      {
        var n :| n in todo;
        all := all[n := (FromEnv, hosts[n])];
        todo := todo - {n};
      }
    }
    assert all == EnvEntries(env);
    var names := dbList.UnwrapOr([]);
    var i := 0;
    while i < |names|
      invariant 0 <= i <= |names|
      invariant all == MergeDb(EnvEntries(env), names[..i], rows, env)
    {
      var name := names[i];
      MergeDbStep(EnvEntries(env), names, i, rows, env);
      ghost var before := all;
      var found := GetHostConfig(Get(rows, name), env, name);
      if found.Ok? && found.value.Some? {
        if name in all {
          all := all[name := (FromBoth, all[name].1)];
        } else {
          all := all[name := (FromDb, found.value.value)];
        }
      } else if name !in all {
        all := all[name := (FromDb, EmptyHost)];
      }
      assert all == MergeStep(before, name, rows, env);
      i := i + 1;
    }
    assert names[..i] == names;
  }

  lemma MergeDbStep(all: map<string, Entry>, names: seq<string>, i: nat, rows: map<string, HostConfig>, env: Result<EnvConfig>)
    requires i < |names|
    ensures MergeDb(all, names[..i + 1], rows, env) == MergeStep(MergeDb(all, names[..i], rows, env), names[i], rows, env)
  {
    assert names[..i + 1][..i] == names[..i];
  }

  // ---------------------------------------------------------------------------
  // The short listing's lines

  /** The Tailscale name is shown only when no hostname is set or it differs. */
  predicate ShowTailscale(c: HostConfig)
  {
    c.tailscale.Some? && (c.hostname.None? || c.hostname.value != c.tailscale.value)
  }

  function IpPiece(c: HostConfig): seq<string>
  {
    if c.ip.Some? then ["IP: " + c.ip.value] else []
  }

  function HostPiece(c: HostConfig): seq<string>
  {
    if c.hostname.Some? then ["Host: " + c.hostname.value] else []
  }

  function TsPiece(c: HostConfig): seq<string>
  {
    if ShowTailscale(c) then ["TS: " + c.tailscale.value] else []
  }

  /** The parenthesised details of one host, in the order IP, Host, TS. */
  function InfoPieces(c: HostConfig): seq<string>
  {
    IpPiece(c) + HostPiece(c) + TsPiece(c)
  }

  /** A "TS: " detail is present exactly when the Tailscale name is shown. */
  lemma TailscalePieceIff(c: HostConfig)
    ensures (exists k :: 0 <= k < |InfoPieces(c)| && StartsWith(InfoPieces(c)[k], "TS: ")) <==> ShowTailscale(c)
  {
    var info := InfoPieces(c);
    if ShowTailscale(c) {
      assert info[|info| - 1] == "TS: " + c.tailscale.value;
      assert StartsWith(info[|info| - 1], "TS: ");
    } else {
      forall k | 0 <= k < |info| ensures !StartsWith(info[k], "TS: ") {
        if k < |IpPiece(c)| {
          assert info[k][0] == 'I';
        } else {
          assert info[k][0] == 'H';
        }
      }
    }
  }

  function Marker(s: Source): string
  {
    match s
    case FromEnv => "[env]"
    case FromDb => "[db]"
    case FromBoth => "[env+db]"
  }

  /** One host's line: name, source marker, then the details when there are any. */
  function DisplayLine(name: string, e: Entry): string
  {
    var head := "  " + name + " " + Marker(e.0);
    var info := InfoPieces(e.1);
    if info == [] then head else head + " (" + Join(info, ", ") + ")"
  }

  /** The line always starts with the name and marker, and is exactly that when there are no details. */
  lemma DisplayLineShape(name: string, e: Entry)
    ensures StartsWith(DisplayLine(name, e), "  " + name + " " + Marker(e.0))
    ensures InfoPieces(e.1) == [] <==> DisplayLine(name, e) == "  " + name + " " + Marker(e.0)
  {
    var head := "  " + name + " " + Marker(e.0);
    var info := InfoPieces(e.1);
    if info != [] {
      var line := head + " (" + Join(info, ", ") + ")";
      assert line[..|head|] == head;
      assert |line| > |head|;
    }
  }

  const NO_SERVERS: seq<string> := ["No servers found.", "", "To add servers:", "  halvor config create ssh <hostname>"]
  const VERBOSE_HINT := "Use 'halvor list --verbose' for detailed information."

  /** The host lines, one per name, in the order of `names`. */
  function DisplayLines(names: seq<string>, all: map<string, Entry>): seq<string>
  {
    if names == [] then []
    else DisplayLines(names[..|names| - 1], all) + [HostLine(names[|names| - 1], all)]
  }

  /** The line of a merged host; every listed name is one. */
  function HostLine(name: string, all: map<string, Entry>): string
  {
    if name in all then DisplayLine(name, all[name]) else ""
  }

  /** The loop printing one line per name. */
  method RenderLines(names: seq<string>, all: map<string, Entry>) returns (lines: seq<string>)
    requires forall h :: h in names ==> h in all
    ensures lines == DisplayLines(names, all)
  {
    lines := [];
    for i := 0 to |names|
      invariant lines == DisplayLines(names[..i], all)
    {
      var line := DisplayLine(names[i], all[names[i]]);
      assert names[..i + 1][..i] == names[..i];
      lines := lines + [line];
    }
    assert names[..|names|] == names;
  }

  // ---------------------------------------------------------------------------
  // The verbose listing's lines

  /** The provisioning row `get_host_info` returns for a host: Docker version, the two installed flags, metadata. */
  datatype ProvisionInfo = ProvisionInfo(dockerVersion: Option<string>, tailscaleInstalled: bool, portainerInstalled: bool, metadata: Option<string>)

  /** The Tailscale domain the verbose listing appends: the env file's, or `ts.net` when it does not load. */
  function TailnetBaseOf(env: Result<EnvConfig>): string
  {
    if env.Ok? then env.value.tailnetBase else "ts.net"
  }

  function SourceText(s: Source): string
  {
    match s
    case FromEnv => "Environment file (.env)"
    case FromDb => "Database (SQLite)"
    case FromBoth => "Environment file & Database"
  }

  function YesNo(b: bool): string
  {
    if b then "Yes" else "No"
  }

  const TS_LINE := "  Tailscale: "
  const TS_DIFFERENT := " (different from hostname)"

  /** The configuration lines of one host, in the order IP, hostname, Tailscale, backup path. */
  function ConfigLines(c: HostConfig, base: string): seq<string>
  {
    (if c.ip.Some? then ["  IP Address: " + c.ip.value] else [])
    + (if c.hostname.Some? then ["  Hostname: " + c.hostname.value + "." + base] else [])
    + (if ShowTailscale(c) then [TS_LINE + c.tailscale.value + "." + base + TS_DIFFERENT] else [])
    + (if c.backupPath.Some? then ["  Backup Path: " + c.backupPath.value] else [])
  }

  /** The provisioning lines: nothing without a row; otherwise Docker version, both flags, metadata. */
  function ProvisionLines(info: Option<ProvisionInfo>): seq<string>
  {
    match info
    case None => []
    case Some(p) =>
      (if p.dockerVersion.Some? then ["  Docker Version: " + p.dockerVersion.value] else [])
      + ["  Tailscale Installed: " + YesNo(p.tailscaleInstalled), "  Portainer Installed: " + YesNo(p.portainerInstalled)]
      + (if p.metadata.Some? then ["  Metadata: " + p.metadata.value] else [])
  }

  /** One host's block: its name, its source, its configuration and provisioning lines, then a blank line. */
  function VerboseBlock(name: string, e: Entry, base: string, info: Option<ProvisionInfo>): seq<string>
  {
    ["Hostname: " + name, "  Source: " + SourceText(e.0)] + ConfigLines(e.1, base) + ProvisionLines(info) + [""]
  }

  function InfoOf(name: string, provisioned: map<string, ProvisionInfo>): Option<ProvisionInfo>
  {
    if name in provisioned then Some(provisioned[name]) else None
  }

  /** The blocks, one per name, in the order of `names`. */
  function VerboseLines(names: seq<string>, all: map<string, Entry>, base: string, provisioned: map<string, ProvisionInfo>): seq<string>
  {
    if names == [] then []
    else
      var n := names[|names| - 1];
      VerboseLines(names[..|names| - 1], all, base, provisioned)
        + (if n in all then VerboseBlock(n, all[n], base, InfoOf(n, provisioned)) else [])
  }

  /** In the verbose form too, a Tailscale line is present exactly when the Tailscale name is shown. */
  lemma VerboseTailscaleIff(c: HostConfig, base: string)
    ensures (exists k :: 0 <= k < |ConfigLines(c, base)| && StartsWith(ConfigLines(c, base)[k], TS_LINE)) <==> ShowTailscale(c)
  {
    var ls := ConfigLines(c, base);
    var ip := if c.ip.Some? then ["  IP Address: " + c.ip.value] else [];
    var hn := if c.hostname.Some? then ["  Hostname: " + c.hostname.value + "." + base] else [];
    assert ls == ip + hn + (if ShowTailscale(c) then [TS_LINE + c.tailscale.value + "." + base + TS_DIFFERENT] else [])
      + (if c.backupPath.Some? then ["  Backup Path: " + c.backupPath.value] else []);
    if ShowTailscale(c) {
      var k := |ip| + |hn|;
      assert ls[k] == TS_LINE + c.tailscale.value + "." + base + TS_DIFFERENT;
      assert StartsWith(ls[k], TS_LINE);
    } else {
      forall k | 0 <= k < |ls| ensures !StartsWith(ls[k], TS_LINE) {
        assert |ls[k]| > 2;
        if k < |ip| {
          assert ls[k][2] == 'I';
        } else if k < |ip| + |hn| {
          assert ls[k][2] == 'H';
        } else {
          assert ls[k][2] == 'B';
        }
      }
    }
  }

  /** The loop printing one block per name. */
  method RenderVerbose(names: seq<string>, all: map<string, Entry>, base: string, provisioned: map<string, ProvisionInfo>)
    returns (lines: seq<string>)
    requires forall h :: h in names ==> h in all
    ensures lines == VerboseLines(names, all, base, provisioned)
  {
    lines := [];
    for i := 0 to |names|
      invariant lines == VerboseLines(names[..i], all, base, provisioned)
    {
      var info := if names[i] in provisioned then Some(provisioned[names[i]]) else None;
      var block := VerboseBlock(names[i], all[names[i]], base, info);
      assert names[..i + 1][..i] == names[..i];
      lines := lines + block;
    }
    assert names[..|names|] == names;
  }

  /**
   * `list_hosts_display`: the lines after the banner. Each merged host appears
   * once, in ascending name order: one line each in the short form, one
   * block each (with its provisioning row, when there is one) in the verbose
   * form. `provisioned` holds the hosts whose `get_host_info` found a row.
   */
  method ListHostsDisplay(verbose: bool, env: Result<EnvConfig>, dbList: Option<seq<string>>, rows: map<string, HostConfig>,
                          provisioned: map<string, ProvisionInfo>)
    returns (out: seq<string>, names: seq<string>)
    ensures MergeDb(EnvEntries(env), dbList.UnwrapOr([]), rows, env) == map[] ==> out == NO_SERVERS && names == []
    ensures var all := MergeDb(EnvEntries(env), dbList.UnwrapOr([]), rows, env);
      all != map[] ==>
        && SortedStrings(names) && NoDuplicates(names)
        && (forall h :: h in names <==> h in all)
        && (!verbose ==> out == ["Servers:"] + DisplayLines(names, all) + ["", VERBOSE_HINT])
        && (verbose ==> out == VerboseLines(names, all, TailnetBaseOf(env), provisioned))
  {
    var all := MergeHosts(env, dbList, rows);
    if all == map[] {
      return NO_SERVERS, [];
    }
    names := SortedNames(all.Keys);
    if verbose {
      out := RenderVerbose(names, all, TailnetBaseOf(env), provisioned);
    } else {
      var lines := RenderLines(names, all);
      out := ["Servers:"] + lines + ["", VERBOSE_HINT];
    }
  }
}
