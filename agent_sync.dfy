/**
 * Syncing host information from discovered agents into the local database:
 * the provisioning record is replaced, and the stored host config only gains
 * the addresses it is missing. The database holds two tables here, host
 * configs and provisioning records, keyed by host name; each of its calls may
 * fail, and the first failure ends the sync with what was written before it.
 */
module AgentSync {
  import opened Wrappers
  import opened Config
  import Agent
  import AgentApi
  import opened Discovery

  /** What `store_host_info` keeps for one host (the provisioning time is left unset by the sync). */
  datatype ProvisionRecord = ProvisionRecord(dockerVersion: Option<string>, tailscaleInstalled: bool, portainerInstalled: bool)

  datatype StoreState = StoreState(configs: map<string, HostConfig>, records: map<string, ProvisionRecord>)

  /**
   * What each database call of the sync returns, by host name: `store_host_info`,
   * `get_host_config` and `store_host_config` either succeed or fail with a message.
   */
  datatype DbOutcomes = DbOutcomes(storeInfo: string -> Result<()>, getConfig: string -> Result<()>, storeConfig: string -> Result<()>)

  /** Every database call succeeds. */
  ghost predicate FaultFree(db: DbOutcomes)
  {
    forall n :: db.storeInfo(n).Ok? && db.getConfig(n).Ok? && db.storeConfig(n).Ok?
  }

  class HostStore {
    var configs: map<string, HostConfig>
    var records: map<string, ProvisionRecord>

    constructor (configs: map<string, HostConfig>, records: map<string, ProvisionRecord>)
      ensures this.configs == configs && this.records == records
    {
      this.configs := configs;
      this.records := records;
    }

    function State(): StoreState
      reads this
    {
      StoreState(configs, records)
    }

    /** `store_host_info`: insert or replace one record; a failed write changes nothing. */
    method StoreHostInfo(hostname: string, record: ProvisionRecord, outcome: Result<()>) returns (r: Result<()>)
      modifies this
      ensures r == outcome && configs == old(configs)
      ensures outcome.Ok? ==> records == old(records)[hostname := record]
      ensures outcome.Err? ==> records == old(records)
    {
      r := outcome;
      if outcome.Ok? {
        records := records[hostname := record];
      }
    }

    /** `get_host_config`: the stored config, if any, unless the read fails. */
    method GetHostConfig(hostname: string, outcome: Result<()>) returns (r: Result<Option<HostConfig>>)
      ensures outcome.Err? ==> r == Err(outcome.msg)
      ensures outcome.Ok? ==> r.Ok? && (r.value.Some? <==> hostname in configs)
      ensures outcome.Ok? && hostname in configs ==> r.value.value == configs[hostname]
    {
      if outcome.Err? {
        return Err(outcome.msg);
      }
      r := Ok(Get(configs, hostname));
    }

    /** `store_host_config`: insert or replace one config; a failed write changes nothing. */
    method StoreHostConfig(hostname: string, config: HostConfig, outcome: Result<()>) returns (r: Result<()>)
      modifies this
      ensures r == outcome && records == old(records)
      ensures outcome.Ok? ==> configs == old(configs)[hostname := config]
      ensures outcome.Err? ==> configs == old(configs)
    {
      r := outcome;
      if outcome.Ok? {
        configs := configs[hostname := config];
      }
    }
  }

  datatype ConfigSync = ConfigSync(localHostname: string)

  function NewConfigSync(localHostname: string): (c: ConfigSync)
    ensures c.localHostname == localHostname
  {
    ConfigSync(localHostname)
  }

  /** The stored config gains a remote address only where it has none. */
  function FillMissing(config: HostConfig, remote: Agent.HostInfo): (r: HostConfig)
    ensures config.ip.Some? ==> r.ip == config.ip
    ensures config.ip.None? ==> r.ip == remote.localIp
    ensures config.tailscale.Some? ==> r.tailscale == config.tailscale
    ensures config.tailscale.None? ==> r.tailscale == remote.tailscaleHostname
    ensures r.hostname == config.hostname && r.backupPath == config.backupPath
  {
    config.(ip := if remote.localIp.Some? && config.ip.None? then remote.localIp else config.ip,
            tailscale := if remote.tailscaleHostname.Some? && config.tailscale.None? then remote.tailscaleHostname else config.tailscale)
  }

  /** Filling twice from the same report changes nothing more. */
  lemma FillMissingIdempotent(config: HostConfig, remote: Agent.HostInfo)
    ensures FillMissing(FillMissing(config, remote), remote) == FillMissing(config, remote)
  {
  }

  function RecordOf(info: Agent.HostInfo): ProvisionRecord
  {
    ProvisionRecord(info.dockerVersion, info.tailscaleInstalled, info.portainerInstalled)
  }

  /** The agent's report for a reachable host with an address. */
  function Fetch(h: DiscoveredHost, send: AgentApi.Transport): Result<Agent.HostInfo>
    requires Key(h).Some?
  {
    AgentApi.GetHostInfo(AgentApi.NewClient(Key(h).value, h.agentPort), send)
  }

  /**
   * Whether one host stops the sync, given the host names that have a stored
   * config: no address, or a failing database call after a successful report.
   */
  predicate StepFails(keys: set<string>, h: DiscoveredHost, send: AgentApi.Transport, db: DbOutcomes)
  {
    && h.reachable
    && (Key(h).None? ||
        (Fetch(h, send).Ok? &&
         var n := Fetch(h, send).value.hostname;
         db.storeInfo(n).Err? || db.getConfig(n).Err? || (n in keys && db.storeConfig(n).Err?)))
  }

  /**
   * One host of `sync_host_info`: the outcome and the store after it. A failing
   * database call ends the step with its error and with what was already written.
   */
  function SyncStep(s: StoreState, h: DiscoveredHost, send: AgentApi.Transport, db: DbOutcomes): (r: (Result<()>, StoreState))
    ensures !h.reachable ==> r == (Ok(()), s)
    ensures h.reachable && Key(h).None? ==> r == (Err("No IP for host " + h.hostname), s)
    ensures h.reachable && Key(h).Some? && Fetch(h, send).Err? ==> r == (Ok(()), s)
    ensures h.reachable && Key(h).Some? && Fetch(h, send).Ok? ==> r == ApplyReport(s, Fetch(h, send).value, db)
    ensures r.0.Err? <==> StepFails(s.configs.Keys, h, send, db)
    ensures ConfigsExtended(s.configs, r.1.configs)
  {
    if !h.reachable then (Ok(()), s)
    else match Key(h)
      case None => (Err("No IP for host " + h.hostname), s)
      case Some(addr) =>
        match Fetch(h, send)
        case Err(_) => (Ok(()), s)
        case Ok(remote) => ApplyReport(s, remote, db)
  }

  /**
   * The database writes for one successful report: the record, then the stored
   * config's missing addresses; the first failing call ends them with its error.
   */
  function ApplyReport(s: StoreState, remote: Agent.HostInfo, db: DbOutcomes): (r: (Result<()>, StoreState))
    ensures db.storeInfo(remote.hostname).Err? ==> r == (db.storeInfo(remote.hostname), s)
    ensures db.storeInfo(remote.hostname).Ok? ==> r.1.records == s.records[remote.hostname := RecordOf(remote)]
    ensures db.getConfig(remote.hostname).Err? || remote.hostname !in s.configs || db.storeConfig(remote.hostname).Err? ==>
              r.1.configs == s.configs
    ensures r.0.Ok? && remote.hostname in s.configs ==>
              r.1.configs == s.configs[remote.hostname := FillMissing(s.configs[remote.hostname], remote)]
    ensures r.0.Err? <==> db.storeInfo(remote.hostname).Err? || db.getConfig(remote.hostname).Err? ||
                          (remote.hostname in s.configs && db.storeConfig(remote.hostname).Err?)
    ensures r.0.Err? ==> r.0 in {db.storeInfo(remote.hostname), db.getConfig(remote.hostname), db.storeConfig(remote.hostname)}
  {
    var n := remote.hostname;
    if db.storeInfo(n).Err? then (db.storeInfo(n), s)
    else
      var s1 := s.(records := s.records[n := RecordOf(remote)]);
      if db.getConfig(n).Err? then (db.getConfig(n), s1)
      else if n !in s.configs then (Ok(()), s1)
      else if db.storeConfig(n).Err? then (db.storeConfig(n), s1)
      else (Ok(()), s1.(configs := s.configs[n := FillMissing(s.configs[n], remote)]))
  }

  /** The hosts in order; the first error stops the sync, keeping what was stored before it. */
  function SyncAll(s: StoreState, hosts: seq<DiscoveredHost>, send: AgentApi.Transport, db: DbOutcomes): (Result<()>, StoreState)
    decreases |hosts|
  {
    if hosts == [] then (Ok(()), s)
    else
      var step := SyncStep(s, hosts[0], send, db);
      if step.0.Err? then step else SyncAll(step.1, hosts[1..], send, db)
  }

  /** `sync_host_info`. */
  method SyncHostInfo(c: ConfigSync, hosts: seq<DiscoveredHost>, send: AgentApi.Transport, db: DbOutcomes, store: HostStore)
    returns (r: Result<()>)
    modifies store
    ensures (r, store.State()) == SyncAll(old(store.State()), hosts, send, db)
  {
    for i := 0 to |hosts|
      invariant SyncAll(store.State(), hosts[i..], send, db) == SyncAll(old(store.State()), hosts, send, db)
    {
      var h := hosts[i];
      assert hosts[i..][1..] == hosts[i + 1..];
      if !h.reachable {
        continue;
      }
      var addr := h.tailscaleIp.Or(h.localIp);
      if addr.None? {
        return Err("No IP for host " + h.hostname);
      }
      var client := AgentApi.NewClient(addr.value, h.agentPort);
      var info := AgentApi.GetHostInfo(client, send);
      if info.Ok? {
        r := StoreReport(info.value, db, store);
        if r.Err? {
          return;
        }
      }
    }
    r := Ok(());
  }

  /** The database writes for one successful report. */
  method StoreReport(remote: Agent.HostInfo, db: DbOutcomes, store: HostStore) returns (r: Result<()>)
    modifies store
    ensures (r, store.State()) == ApplyReport(old(store.State()), remote, db)
  {
    var n := remote.hostname;
    var stored := store.StoreHostInfo(n, RecordOf(remote), db.storeInfo(n));
    if stored.Err? {
      return Err(stored.msg);
    }
    var config := store.GetHostConfig(n, db.getConfig(n));
    if config.Err? {
      return Err(config.msg);
    }
    if config.value.Some? {
      stored := store.StoreHostConfig(n, FillMissing(config.value.value, remote), db.storeConfig(n));
      if stored.Err? {
        return Err(stored.msg);
      }
    }
    r := Ok(());
  }

  /** `b` is `a` with at most its missing addresses filled in. */
  predicate Extends(a: HostConfig, b: HostConfig)
  {
    && (a.ip.Some? ==> b.ip == a.ip)
    && (a.tailscale.Some? ==> b.tailscale == a.tailscale)
    && b.hostname == a.hostname && b.backupPath == a.backupPath
  }

  /** No config is created or deleted, and each one only gains missing addresses. */
  predicate ConfigsExtended(before: map<string, HostConfig>, after: map<string, HostConfig>)
  {
    before.Keys == after.Keys && forall k :: k in before ==> Extends(before[k], after[k])
  }

  lemma {:induction false} SyncAllExtends(s: StoreState, hosts: seq<DiscoveredHost>, send: AgentApi.Transport, db: DbOutcomes)
    ensures ConfigsExtended(s.configs, SyncAll(s, hosts, send, db).1.configs)
    decreases |hosts|
  {
    if hosts != [] {
      var step := SyncStep(s, hosts[0], send, db);
      if step.0.Ok? {
        SyncAllExtends(step.1, hosts[1..], send, db);
        var fin := SyncAll(s, hosts, send, db).1.configs;
        forall k | k in s.configs ensures Extends(s.configs[k], fin[k]) {
          assert Extends(step.1.configs[k], fin[k]);
        }
      }
    }
  }

  function Reachable(hosts: seq<DiscoveredHost>): (r: seq<DiscoveredHost>)
    ensures forall h :: h in r <==> h in hosts && h.reachable
    decreases |hosts|
  {
    if hosts == [] then []
    else (if hosts[0].reachable then [hosts[0]] else []) + Reachable(hosts[1..])
  }

  /** Unreachable hosts play no part: syncing only the reachable ones gives the same outcome. */
  lemma {:induction false} UnreachableSkipped(s: StoreState, hosts: seq<DiscoveredHost>, send: AgentApi.Transport, db: DbOutcomes)
    ensures SyncAll(s, hosts, send, db) == SyncAll(s, Reachable(hosts), send, db)
    decreases |hosts|
  {
    if hosts != [] {
      if hosts[0].reachable {
        var step := SyncStep(s, hosts[0], send, db);
        var r := Reachable(hosts);
        assert r[0] == hosts[0] && r[1..] == Reachable(hosts[1..]);
        if step.0.Ok? {
          UnreachableSkipped(step.1, hosts[1..], send, db);
        }
      } else {
        assert SyncStep(s, hosts[0], send, db) == (Ok(()), s);
        assert Reachable(hosts) == Reachable(hosts[1..]);
        assert SyncAll(s, hosts, send, db) == SyncAll(s, hosts[1..], send, db);
        UnreachableSkipped(s, hosts[1..], send, db);
      }
    }
  }

  /**
   * The sync fails exactly when some host's step fails; whether it does depends
   * only on which host names have a stored config, and the sync never changes those.
   */
  lemma {:induction false} SyncFailsExactly(s: StoreState, hosts: seq<DiscoveredHost>, send: AgentApi.Transport, db: DbOutcomes)
    ensures SyncAll(s, hosts, send, db).0.Err? <==> exists h :: h in hosts && StepFails(s.configs.Keys, h, send, db)
    decreases |hosts|
  {
    if hosts != [] {
      var step := SyncStep(s, hosts[0], send, db);
      assert forall h :: h in hosts <==> h == hosts[0] || h in hosts[1..];
      if step.0.Ok? {
        assert step.1.configs.Keys == s.configs.Keys;
        SyncFailsExactly(step.1, hosts[1..], send, db);
      }
    }
  }

  /** With every database call succeeding, the sync fails exactly when some reachable host has neither address. */
  lemma SyncFailsOnMissingAddress(s: StoreState, hosts: seq<DiscoveredHost>, send: AgentApi.Transport, db: DbOutcomes)
    requires FaultFree(db)
    ensures SyncAll(s, hosts, send, db).0.Err? <==> exists h :: h in hosts && h.reachable && Key(h).None?
  {
    SyncFailsExactly(s, hosts, send, db);
    forall h | h in hosts
      ensures StepFails(s.configs.Keys, h, send, db) <==> h.reachable && Key(h).None?
    {
      if h.reachable && Key(h).Some? && Fetch(h, send).Ok? {
        var n := Fetch(h, send).value.hostname;
        assert db.storeInfo(n).Ok? && db.getConfig(n).Ok? && db.storeConfig(n).Ok?;
      }
    }
  }

  /** `sync_encrypted_data`: a placeholder that succeeds without effect. */
  function SyncEncryptedData(c: ConfigSync, s: StoreState, hosts: seq<DiscoveredHost>): (r: (Result<()>, StoreState))
    ensures r == (Ok(()), s)
  {
    (Ok(()), s)
  }
}
