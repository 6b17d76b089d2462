/**
 * The config service: hostname normalisation and lookup, partial updates of
 * a host's configuration, the `config` command's hostname/command split, and
 * the reconciliation that makes the database match the `.env` file.
 */
module ConfigService {
  import opened Wrappers
  import opened Strings
  import opened Config
  import opened HostService

  // ---------------------------------------------------------------------------
  // Hostname normalisation

  /** The suffixes tried in order; only the first one that matches is removed. */
  const TLDS: seq<string> := [".scottkey.me", ".ts.net", ".local", ".lan"]

  /** Removes the first suffix of `tlds` that `s` ends with, if any. */
  function StripFirstTld(s: string, tlds: seq<string>): (r: string)
    ensures (forall i :: 0 <= i < |tlds| ==> !EndsWith(s, tlds[i])) ==> r == s
    ensures forall i :: 0 <= i < |tlds| && EndsWith(s, tlds[i]) && (forall j :: 0 <= j < i ==> !EndsWith(s, tlds[j]))
              ==> r == s[..|s| - |tlds[i]|]
    decreases |tlds|
  {
    if |tlds| == 0 then s
    else if EndsWith(s, tlds[0]) then s[..|s| - |tlds[0]|]
    else
      TailIndices(tlds);
      StripFirstTld(s, tlds[1..])
  }

  lemma TailIndices(tlds: seq<string>)
    requires |tlds| > 0
    ensures forall i :: 1 <= i < |tlds| ==> tlds[1..][i - 1] == tlds[i]
  {
  }

  /** One step of the suffix loop: a match at `i` decides, a miss moves on. */
  lemma StripStep(s: string, tlds: seq<string>, i: nat)
    requires i < |tlds|
    ensures EndsWith(s, tlds[i]) ==> StripFirstTld(s, tlds[i..]) == s[..|s| - |tlds[i]|]
    ensures !EndsWith(s, tlds[i]) ==> StripFirstTld(s, tlds[i..]) == StripFirstTld(s, tlds[i + 1..])
  {
    assert tlds[i..][0] == tlds[i];
    assert tlds[i..][1..] == tlds[i + 1..];
  }

  /** Names starting like a private or loopback IPv4 address are never truncated. */
  predicate IpLikePrefix(s: string)
  {
    StartsWith(s, "127.") || StartsWith(s, "192.168.") || StartsWith(s, "10.")
  }

  /** What follows the first dot is short (at most 10 characters) and digit-free. */
  predicate LooksLikeTld(tail: string)
  {
    |tail| <= 10 && forall k :: 0 <= k < |tail| ==> !IsDigit(tail[k])
  }

  /** Drops everything from the first dot when the rest looks like a domain. */
  function TruncateDomain(s: string): (r: string)
    ensures r != s <==>
      && '.' in s && !IpLikePrefix(s)
      && LooksLikeTld(s[IndexOf(s, '.').value + 1..])
    ensures r != s ==> |r| < |s| && s[|r|] == '.' && r == s[..|r|] && '.' !in r
  {
    if '.' in s && !IpLikePrefix(s) then
      var d := IndexOf(s, '.').value;
      if LooksLikeTld(s[d + 1..]) then
        s[..d]
      else s
    else s
  }

  /** `normalize_hostname`. */
  function Normalize(hostname: string): string
  {
    TruncateDomain(StripFirstTld(hostname, TLDS))
  }

  /** The loop over the suffixes, leaving at the first match. */
  method NormalizeHostname(hostname: string) returns (r: string)
    ensures r == Normalize(hostname)
  {
    var normalized := hostname;
    var i := 0;
    while i < |TLDS|
      invariant 0 <= i <= |TLDS|
      invariant normalized == hostname
      invariant StripFirstTld(hostname, TLDS) == StripFirstTld(hostname, TLDS[i..])
    {
      StripStep(hostname, TLDS, i);
      if EndsWith(normalized, TLDS[i]) {
        normalized := normalized[..|normalized| - |TLDS[i]|];
        break;
      }
      i := i + 1;
    }
    assert i == |TLDS| ==> TLDS[i..] == [];
    assert normalized == StripFirstTld(hostname, TLDS);
    if '.' in normalized && !IpLikePrefix(normalized) {
      var firstDot := IndexOf(normalized, '.');
      if firstDot.Some? {
        var afterDot := normalized[firstDot.value + 1..];
        if LooksLikeTld(afterDot) {
          normalized := normalized[..firstDot.value];
        }
      }
    }
    r := normalized;
  }

  /** Only one suffix comes off: `.local` is removed, `.scottkey.me` then stays. */
  lemma StripsOneSuffixOnly()
    ensures Normalize("pi.scottkey.me.local") == "pi.scottkey.me"
  {
    var s := "pi.scottkey.me.local";
    assert !EndsWith(s, TLDS[0]) by { assert s[|s| - |TLDS[0]|..][0] != TLDS[0][0]; }
    assert !EndsWith(s, TLDS[1]) by { assert s[|s| - |TLDS[1]|..][0] != TLDS[1][0]; }
    assert EndsWith(s, TLDS[2]) by { assert s[|s| - 6..] == ".local"; }
    var t := StripFirstTld(s, TLDS);
    assert t == "pi.scottkey.me";
    assert IndexOf(t, '.') == Some(2) by { assert t[2] == '.' && '.' !in t[..2]; }
    assert !LooksLikeTld(t[3..]) by { assert |t[3..]| == 11; }
  }

  /** A full private address is left alone: it starts like one. */
  lemma PrivateAddressUnchanged()
    ensures Normalize("192.168.1.20") == "192.168.1.20"
  {
    var s := "192.168.1.20";
    forall i | 0 <= i < |TLDS| ensures !EndsWith(s, TLDS[i]) {
      assert !EndsWith(s, TLDS[i]) by {
        if |TLDS[i]| <= |s| {
          assert TLDS[i][|TLDS[i]| - 1] != s[|s| - 1];
        }
      }
    }
    assert StripFirstTld(s, TLDS) == s;
    assert StartsWith(s, "192.168.") by { assert s[..8] == "192.168."; }
  }

  /** Case-insensitive ASCII comparison, `eq_ignore_ascii_case`. */
  predicate EqIgnoreCase(a: string, b: string)
  {
    ToLower(a) == ToLower(b)
  }

  /**
   * `find_hostname_in_config`: the exact key, then the normalised name, then
   * any key equal to either ignoring ASCII case (in the map's own order).
   */
  method FindHostnameInConfig(hostname: string, config: EnvConfig) returns (r: Option<string>)
    ensures hostname in config.hosts ==> r == Some(hostname)
    ensures hostname !in config.hosts && Normalize(hostname) in config.hosts ==> r == Some(Normalize(hostname))
    ensures r.Some? ==> r.value in config.hosts
    ensures r.Some? ==> EqIgnoreCase(r.value, hostname) || EqIgnoreCase(r.value, Normalize(hostname))
    ensures r.None? <==> forall k :: k in config.hosts ==> !EqIgnoreCase(k, hostname) && !EqIgnoreCase(k, Normalize(hostname))
  {
    if hostname in config.hosts {
      return Some(hostname);
    }
    var normalized := NormalizeHostname(hostname);
    if normalized != hostname && normalized in config.hosts {
      return Some(normalized);
    }
    var todo := config.hosts.Keys;
    while todo != {}
      invariant todo <= config.hosts.Keys
      invariant forall k :: k in config.hosts && k !in todo ==> !EqIgnoreCase(k, hostname) && !EqIgnoreCase(k, normalized)
      decreases |todo|
    {
      var key :| key in todo;
      if EqIgnoreCase(key, hostname) {
        return Some(key);
      }
      if EqIgnoreCase(key, normalized) {
        return Some(key);
      }
      todo := todo - {key};
    }
    return None;
  }

  // ---------------------------------------------------------------------------
  // Partial updates of one host

  /** `update_host_config`'s merge: every field present in `updates` replaces the stored one. */
  function UpdateHostConfig(c: HostConfig, updates: HostConfig): (r: HostConfig)
    ensures updates.ip.Some? ==> r.ip == updates.ip
    ensures updates.ip.None? ==> r.ip == c.ip
    ensures updates.hostname.Some? ==> r.hostname == updates.hostname
    ensures updates.hostname.None? ==> r.hostname == c.hostname
    ensures updates.tailscale.Some? ==> r.tailscale == updates.tailscale
    ensures updates.tailscale.None? ==> r.tailscale == c.tailscale
    ensures updates.backupPath.Some? ==> r.backupPath == updates.backupPath
    ensures updates.backupPath.None? ==> r.backupPath == c.backupPath
  {
    HostConfig(updates.ip.Or(c.ip), updates.hostname.Or(c.hostname),
               updates.tailscale.Or(c.tailscale), updates.backupPath.Or(c.backupPath))
  }

  /** An update with no fields changes nothing. */
  lemma UpdateWithNothing(c: HostConfig)
    ensures UpdateHostConfig(c, EmptyHost) == c
  {
  }

  /** Applying the same update twice is applying it once. */
  lemma UpdateIdempotent(c: HostConfig, u: HostConfig)
    ensures UpdateHostConfig(UpdateHostConfig(c, u), u) == UpdateHostConfig(c, u)
  {
  }

  /** Two updates in a row are one update by their merge, the later one winning. */
  lemma UpdatesCompose(c: HostConfig, a: HostConfig, b: HostConfig)
    ensures UpdateHostConfig(UpdateHostConfig(c, a), b) == UpdateHostConfig(c, UpdateHostConfig(a, b))
  {
  }

  /** The field names `set_host_field` accepts. */
  const HOST_FIELDS: seq<string> := ["ip", "hostname", "tailscale", "backup_path"]

  /** The one-field update that `set_host_field` performs for a known field. */
  function FieldUpdate(field: string, value: string): HostConfig
  {
    if field == "ip" then HostConfig(Some(value), None, None, None)
    else if field == "hostname" then HostConfig(None, Some(value), None, None)
    else if field == "tailscale" then HostConfig(None, None, Some(value), None)
    else HostConfig(None, None, None, Some(value))
  }

  /** `set_host_field`'s match: an unknown field is an error, a known one a one-field update. */
  function SetNamedField(c: HostConfig, field: string, value: string): (r: Result<HostConfig>)
    ensures r.Err? <==> field !in HOST_FIELDS
    ensures r.Err? ==> r.msg == "Unknown field: " + field
    ensures r.Ok? ==> r.value == UpdateHostConfig(c, FieldUpdate(field, value))
  {
    if field == "ip" then Ok(c.(ip := Some(value)))
    else if field == "hostname" then Ok(c.(hostname := Some(value)))
    else if field == "tailscale" then Ok(c.(tailscale := Some(value)))
    else if field == "backup_path" then Ok(c.(backupPath := Some(value)))
    else Err("Unknown field: " + field)
  }

  /**
   * `set_host_field`: reads the host (database, then env file), changes one field,
   * stores it; `store` is what the database write returns.
   */
  method SetHostField(db: Database, env: Result<EnvConfig>, hostname: string, field: string, value: string, store: Result<()>)
    returns (r: Result<()>)
    modifies db
    ensures db.smbServers == old(db.smbServers) && db.settings == old(db.settings)
    ensures var cur := GetHostConfig(Get(old(db.hosts), hostname), env, hostname);
      && (cur.Err? ==> r == Err(cur.msg) && db.hosts == old(db.hosts))
      && (cur.Ok? && field !in HOST_FIELDS ==> r == Err("Unknown field: " + field) && db.hosts == old(db.hosts))
      && (cur.Ok? && field in HOST_FIELDS && store.Err? ==> r == Err(store.msg) && db.hosts == old(db.hosts))
      && (cur.Ok? && field in HOST_FIELDS && store.Ok? ==>
            (r == Ok(()) &&
             db.hosts == old(db.hosts)[hostname := UpdateHostConfig(cur.value.UnwrapOr(EmptyHost), FieldUpdate(field, value))]))
  {
    var cur := GetHostConfig(Get(db.hosts, hostname), env, hostname);
    if cur.Err? {
      return Err(cur.msg);
    }
    var updated := SetNamedField(cur.value.UnwrapOr(EmptyHost), field, value);
    if updated.Err? {
      return Err(updated.msg);
    }
    var stored := db.StoreHostConfig(hostname, updated.value, store);
    if stored.Err? {
      return Err(stored.msg);
    }
    r := Ok(());
  }

  /**
   * `update_host_config`: reads the host, merges the present fields of `updates`,
   * stores it; `store` is what the database write returns.
   */
  method UpdateHostConfigIn(db: Database, env: Result<EnvConfig>, hostname: string, updates: HostConfig, store: Result<()>)
    returns (r: Result<()>)
    modifies db
    ensures db.smbServers == old(db.smbServers) && db.settings == old(db.settings)
    ensures var cur := GetHostConfig(Get(old(db.hosts), hostname), env, hostname);
      && (cur.Err? ==> r == Err(cur.msg) && db.hosts == old(db.hosts))
      && (cur.Ok? && store.Err? ==> r == Err(store.msg) && db.hosts == old(db.hosts))
      && (cur.Ok? && store.Ok? ==> (r == Ok(()) &&
            db.hosts == old(db.hosts)[hostname := UpdateHostConfig(cur.value.UnwrapOr(EmptyHost), updates)]))
  {
    var cur := GetHostConfig(Get(db.hosts, hostname), env, hostname);
    if cur.Err? {
      return Err(cur.msg);
    }
    var config := cur.value.UnwrapOr(EmptyHost);
    if updates.ip.Some? {
      config := config.(ip := updates.ip);
    }
    if updates.hostname.Some? {
      config := config.(hostname := updates.hostname);
    }
    if updates.tailscale.Some? {
      config := config.(tailscale := updates.tailscale);
    }
    if updates.backupPath.Some? {
      config := config.(backupPath := updates.backupPath);
    }
    var stored := db.StoreHostConfig(hostname, config, store);
    if stored.Err? {
      return Err(stored.msg);
    }
    r := Ok(());
  }

  // ---------------------------------------------------------------------------
  // The `config` command's argument

  /** Words that name a global `config` command rather than a host. */
  const GLOBAL_COMMANDS: seq<string> := ["list", "init", "set-env", "stable", "experimental", "create",
                                         "env", "db", "backup", "commit", "delete", "diff"]

  /** An argument names a host unless its lower-case form is a global command word. */
  predicate IsHostnameArg(arg: string)
  {
    ToLower(arg) !in GLOBAL_COMMANDS
  }

  /** The split ignores ASCII case. */
  lemma HostnameArgIgnoresCase(arg: string)
    ensures IsHostnameArg(ToUpper(arg)) <==> IsHostnameArg(arg)
    ensures IsHostnameArg(ToLower(arg)) <==> IsHostnameArg(arg)
  {
    LowerOfUpper(arg);
    ToLowerIdempotent(arg);
  }

  /** The `config` subcommands (the `create` subcommand's own arguments are not modelled). */
  datatype ConfigCommand =
    | List | Init | SetEnv(path: string) | SetStable | SetExperimental | Create | Env
    | SetBackup(host: Option<string>) | Commit | Backup | Delete(fromEnv: bool)
    | Ip(value: string) | Hostname(value: string) | Tailscale(value: string) | BackupPath(value: string)
    | Diff

  /** Where `handle_config_command` sends a call. */
  datatype Dispatch =
    | ShowHost(target: string)
    | CommitHost(target: string)
    | BackupHost(target: string)
    | DeleteHost(target: string, fromEnv: bool)
    | SetField(target: string, field: string, value: string)
    | SetBackupFor(target: string)
    | Fail(msg: string)
    | Global(cmd: ConfigCommand)

  /** The hostname-specific branch. */
  function HostDispatch(hostname: string, command: Option<ConfigCommand>): Dispatch
  {
    match command
    case None => ShowHost(hostname)
    case Some(List) => ShowHost(hostname)
    case Some(Commit) => CommitHost(hostname)
    case Some(Backup) => BackupHost(hostname)
    case Some(Delete(fromEnv)) => DeleteHost(hostname, fromEnv)
    case Some(Ip(v)) => SetField(hostname, "ip", v)
    case Some(Hostname(v)) => SetField(hostname, "hostname", v)
    case Some(Tailscale(v)) => SetField(hostname, "tailscale", v)
    case Some(BackupPath(v)) => SetField(hostname, "backup_path", v)
    case Some(SetBackup(_)) => SetBackupFor(hostname)
    case Some(Diff) => Fail("Diff command is global only. Use 'halvor config diff' to see all differences")
    case Some(_) => Fail("Command not valid for hostname-specific operations")
  }

  /** The global branch: a command word wins over the subcommand, which defaults to `list`. */
  function GlobalCommand(arg: Option<string>, command: Option<ConfigCommand>): ConfigCommand
  {
    var fallback := command.UnwrapOr(List);
    if arg.None? then fallback
    else
      var w := ToLower(arg.value);
      if w == "list" then List
      else if w == "init" then Init
      else if w == "env" then Env
      else if w == "stable" then SetStable
      else if w == "experimental" then SetExperimental
      else if w == "commit" then Commit
      else if w == "backup" then Backup
      else if w == "diff" then Diff
      else fallback
  }

  /** `handle_config_command`'s routing. */
  function DispatchConfig(arg: Option<string>, command: Option<ConfigCommand>): (r: Dispatch)
    ensures arg.Some? && IsHostnameArg(arg.value) ==> !r.Global?
    ensures arg.None? || !IsHostnameArg(arg.value) ==> r == Global(GlobalCommand(arg, command))
    ensures r.SetField? ==> r.field in HOST_FIELDS
    ensures !r.Global? && !r.Fail? ==> arg == Some(r.target)
  {
    if arg.Some? && IsHostnameArg(arg.value) then HostDispatch(arg.value, command)
    else Global(GlobalCommand(arg, command))
  }

  /** A command word is recognised in any letter case. */
  lemma CommandWordIgnoresCase(arg: string, command: Option<ConfigCommand>)
    requires !IsHostnameArg(arg)
    ensures DispatchConfig(Some(ToUpper(arg)), command) == DispatchConfig(Some(arg), command)
  {
    HostnameArgIgnoresCase(arg);
    LowerOfUpper(arg);
  }

  /** The four field subcommands never reach `set_host_field`'s unknown-field error. */
  lemma DispatchedFieldIsKnown(arg: Option<string>, command: Option<ConfigCommand>, c: HostConfig)
    requires DispatchConfig(arg, command).SetField?
    ensures SetNamedField(c, DispatchConfig(arg, command).field, DispatchConfig(arg, command).value).Ok?
  {
  }

  // ---------------------------------------------------------------------------
  // Making the database match the env file

  /** The names in a list, as a set. */
  function Names(listed: seq<string>): set<string>
  {
    set h | h in listed
  }

  /** Entries of `listed` that are not keys of the env side, counted with repetition. */
  function CountMissing(listed: seq<string>, keep: set<string>): nat
    decreases |listed|
  {
    if |listed| == 0 then 0
    else CountMissing(listed[..|listed| - 1], keep) + (if listed[|listed| - 1] in keep then 0 else 1)
  }

  /** For a list without duplicates that count is the size of the set difference. */
  lemma {:induction false} CountMissingDistinct(listed: seq<string>, keep: set<string>)
    requires NoDuplicates(listed)
    ensures CountMissing(listed, keep) == |Names(listed) - keep|
  {
    if |listed| > 0 {
      var p, last := listed[..|listed| - 1], listed[|listed| - 1];
      LastIsNew(listed);
      CountMissingDistinct(p, keep);
      MissingSnoc(Names(p), last, keep);
    } else {
      assert Names(listed) == {};
    }
  }

  /** Splitting the last name off a list without duplicates. */
  lemma LastIsNew(listed: seq<string>)
    requires NoDuplicates(listed) && |listed| > 0
    ensures NoDuplicates(listed[..|listed| - 1])
    ensures listed[|listed| - 1] !in Names(listed[..|listed| - 1])
    ensures Names(listed) == Names(listed[..|listed| - 1]) + {listed[|listed| - 1]}
  {
    var p, last := listed[..|listed| - 1], listed[|listed| - 1];
    assert listed == p + [last];
    assert last !in p by {
      forall i | 0 <= i < |p| ensures p[i] != last {
        assert listed[i] != listed[|listed| - 1];
      }
    }
  }

  lemma MissingSnoc(names: set<string>, last: string, keep: set<string>)
    requires last !in names
    ensures |(names + {last}) - keep| == |names - keep| + (if last in keep then 0 else 1)
  {
    if last in keep {
      assert (names + {last}) - keep == names - keep;
    } else {
      assert (names + {last}) - keep == (names - keep) + {last};
    }
  }

  /** The names `listed` holds that the env side does not. */
  function Stale<V>(listed: seq<string>, env: map<string, V>): set<string>
  {
    set h | h in listed && h !in env
  }

  /** The writes of the store loop, in visiting order. */
  function StoreSeq<V>(rows: map<string, V>, env: map<string, V>, ks: seq<string>): map<string, V>
    requires forall k :: k in ks ==> k in env
    decreases |ks|
  {
    if |ks| == 0 then rows
    else
      var p := ks[..|ks| - 1];
      assert forall k :: k in p ==> k in ks;
      StoreSeq(rows, env, p)[ks[|ks| - 1] := env[ks[|ks| - 1]]]
  }

  /** Storing every key of `env`, in any order without repeats, gives `rows + env`. */
  lemma {:induction false} StoreSeqIsUnion<V>(rows: map<string, V>, env: map<string, V>, ks: seq<string>)
    requires forall k :: k in ks <==> k in env
    ensures StoreSeq(rows, env, ks) == rows + env
  {
    StoreSeqPrefix(rows, env, ks);
    assert (map k | k in Names(ks) && k in env :: env[k]) == env;
  }

  lemma {:induction false} StoreSeqPrefix<V>(rows: map<string, V>, env: map<string, V>, ks: seq<string>)
    requires forall k :: k in ks ==> k in env
    ensures StoreSeq(rows, env, ks) == rows + (map k | k in Names(ks) && k in env :: env[k])
  {
    if |ks| > 0 {
      var p, last := ks[..|ks| - 1], ks[|ks| - 1];
      assert forall k :: k in p ==> k in ks;
      StoreSeqPrefix(rows, env, p);
      assert Names(ks) == Names(p) + {last};
    } else {
      assert Names(ks) == {};
    }
  }

  /** Every row of `m` is as in `before` or as in `after`, and none that both hold is missing: a table left partway. */
  ghost predicate Mid<V>(before: map<string, V>, after: map<string, V>, m: map<string, V>)
  {
    && (forall k :: k in m ==> (k in before && m[k] == before[k]) || (k in after && m[k] == after[k]))
    && (forall k :: k in before && k in after ==> k in m)
  }

  /** Every call on the names of `keys` succeeds. */
  ghost predicate AllOk(keys: set<string>, call: string -> Result<()>)
  {
    forall k :: k in keys ==> call(k).Ok?
  }

  lemma StoreSeqMid<V>(rows: map<string, V>, env: map<string, V>, ks: seq<string>)
    requires forall k :: k in ks ==> k in env
    ensures Mid(rows, rows + env, StoreSeq(rows, env, ks))
  {
    StoreSeqPrefix(rows, env, ks);
  }

  /**
   * The store loop: every env entry written, in the map's order, counted as an
   * update when `listedSet` holds it; `store` is what each write returns, and
   * the first failing write ends the loop with its error.
   */
  method StoreAll<V>(rows: map<string, V>, env: map<string, V>, listedSet: set<string>, store: string -> Result<()>)
    returns (newRows: map<string, V>, added: nat, updated: nat, order: seq<string>, ok: Result<()>)
    ensures NoDuplicates(order) && forall k :: k in order <==> k in env
    ensures ok.Ok? <==> AllOk(env.Keys, store)
    ensures ok.Ok? ==> newRows == rows + env && added == CountMissing(order, listedSet) && added + updated == |order|
    ensures ok.Err? ==> (exists k :: k in env && store(k) == ok) && Mid(rows, rows + env, newRows)
  {
    order := Enumerate(env.Keys);
    newRows := rows;
    added, updated := 0, 0;
    var i := 0;
    while i < |order|
      invariant 0 <= i <= |order|
      invariant newRows == StoreSeq(rows, env, order[..i])
      invariant added == CountMissing(order[..i], listedSet)
      invariant added + updated == i
      invariant forall j :: 0 <= j < i ==> store(order[j]).Ok?
    {
      var h := order[i];
      assert order[..i + 1][..i] == order[..i];
      var inDb := h in listedSet;
      if store(h).Err? {
        StoreSeqMid(rows, env, order[..i]);
        ok := store(h);
        return;
      }
      newRows := newRows[h := env[h]];
      if inDb {
        updated := updated + 1;
      } else {
        added := added + 1;
      }
      i := i + 1;
    }
    assert order[..i] == order;
    StoreSeqIsUnion(rows, env, order);
    ok := Ok(());
  }

  /** The store loop's counts as set sizes. */
  lemma StoreCounts(order: seq<string>, keys: set<string>, listedSet: set<string>, added: nat, updated: nat)
    requires NoDuplicates(order) && forall k :: k in order <==> k in keys
    requires added == CountMissing(order, listedSet) && added + updated == |order|
    ensures added == |keys - listedSet|
    ensures updated == |keys * listedSet|
  {
    CountMissingDistinct(order, listedSet);
    assert Names(order) == keys;
    DistinctLength(order, keys);
    assert keys == (keys - listedSet) + (keys * listedSet);
    assert (keys - listedSet) !! (keys * listedSet);
  }

  /**
   * The delete loop: every listed name the env side lacks is removed and
   * counted; the first failing delete ends the loop with its error.
   */
  method DeleteStale<V>(rows: map<string, V>, env: map<string, V>, listed: seq<string>, delete: string -> Result<()>)
    returns (newRows: map<string, V>, deleted: nat, ok: Result<()>)
    ensures ok.Ok? <==> AllOk(Stale(listed, env), delete)
    ensures ok.Ok? ==> newRows == rows - Stale(listed, env) && deleted == CountMissing(listed, env.Keys)
    ensures ok.Err? ==> (exists k :: k in Stale(listed, env) && delete(k) == ok) && Mid(rows, rows - Stale(listed, env), newRows)
  {
    newRows := rows;
    deleted := 0;
    var i := 0;
    while i < |listed|
      invariant 0 <= i <= |listed|
      invariant newRows == rows - Stale(listed[..i], env)
      invariant deleted == CountMissing(listed[..i], env.Keys)
      invariant forall j :: 0 <= j < i && listed[j] !in env ==> delete(listed[j]).Ok?
    {
      assert listed[..i + 1][..i] == listed[..i];
      assert Stale(listed[..i + 1], env) == Stale(listed[..i], env) + (if listed[i] in env then {} else {listed[i]});
      if listed[i] !in env {
        if delete(listed[i]).Err? {
          assert listed[i] in Stale(listed, env);
          assert Stale(listed[..i], env) <= Stale(listed, env);
          ok := delete(listed[i]);
          return;
        }
        newRows := newRows - {listed[i]};
        deleted := deleted + 1;
      }
      i := i + 1;
    }
    assert listed[..i] == listed;
    ok := Ok(());
  }

  /**
   * One table of `sync_db_from_env`: every env entry is stored (an update when
   * the listed names hold it, an addition otherwise), then every listed name
   * the env file lacks is deleted. The first failing call ends the table with
   * its error, every row then as it was or as it was to become.
   */
  method Reconcile<V>(rows: map<string, V>, env: map<string, V>, listed: seq<string>, stale: set<string>,
                      store: string -> Result<()>, delete: string -> Result<()>)
    returns (newRows: map<string, V>, added: nat, updated: nat, deleted: nat, ok: Result<()>)
    requires stale == Stale(listed, env)
    ensures TableSynced(rows, env, stale, (rows + env) - stale, store, delete, ok, newRows)
    ensures ok.Ok? ==> added == |env.Keys - Names(listed)| && updated == |env.Keys * Names(listed)|
    ensures ok.Ok? ==> deleted == CountMissing(listed, env.Keys)
  {
    var stored, order;
    stored, added, updated, order, ok := StoreAll(rows, env, Names(listed), store);
    if ok.Err? {
      newRows, deleted := stored, 0;
      MidAfterStore(rows, env, stale, newRows);
      return;
    }
    StoreCounts(order, env.Keys, Names(listed), added, updated);
    newRows, deleted, ok := DeleteStale(stored, env, listed, delete);
    if ok.Err? {
      MidAfterDelete(rows, env, stale, newRows);
    }
  }

  /**
   * A table's sync towards `target`, storing every `env` entry and deleting
   * the `stale` names: it succeeds exactly when every one of those calls does,
   * and the table is then `target`; otherwise the error is one of the calls'
   * and the table is left partway.
   */
  ghost predicate TableSynced<V>(rows: map<string, V>, env: map<string, V>, stale: set<string>, target: map<string, V>,
                                 store: string -> Result<()>, delete: string -> Result<()>, ok: Result<()>, newRows: map<string, V>)
  {
    && (ok.Ok? <==> AllOk(env.Keys, store) && AllOk(stale, delete))
    && (ok.Ok? ==> newRows == target)
    && (ok.Err? ==> exists k :: (k in env && store(k) == ok) || (k in stale && delete(k) == ok))
    && (ok.Err? ==> Mid(rows, target, newRows))
  }

  /** The names a table's sync deletes: the stored ones the env file lacks, when the stored list could be read. */
  function StaleRows<V>(rows: map<string, V>, env: map<string, V>, listOk: bool): set<string>
  {
    if listOk then rows.Keys - env.Keys else {}
  }

  lemma MidAfterStore<V>(rows: map<string, V>, env: map<string, V>, stale: set<string>, m: map<string, V>)
    requires stale !! env.Keys
    requires Mid(rows, rows + env, m)
    ensures Mid(rows, (rows + env) - stale, m)
  {
  }

  lemma MidAfterDelete<V>(rows: map<string, V>, env: map<string, V>, stale: set<string>, m: map<string, V>)
    requires stale !! env.Keys
    requires Mid(rows + env, (rows + env) - stale, m)
    ensures Mid(rows, (rows + env) - stale, m)
  {
  }

  /** When the listed names cover every row, the table ends up equal to the env side. */
  lemma ReconcileCovering<V>(rows: map<string, V>, env: map<string, V>, listed: seq<string>)
    requires forall h :: h in rows ==> h in listed
    ensures (rows + env) - Stale(listed, env) == env
  {
    var m := (rows + env) - Stale(listed, env);
    assert m.Keys == env.Keys;
  }

  /** The host table `sync_db_from_env` aims at: the env hosts, plus the old rows when the database list could not be read. */
  function HostsTarget(rows: map<string, HostConfig>, cfg: EnvConfig, listOk: bool): map<string, HostConfig>
  {
    if listOk then cfg.hosts else rows + cfg.hosts
  }

  /**
   * The host part of `sync_db_from_env`, with `list_hosts` over the database's
   * own names, or over the env file's when the database list fails or is
   * empty. With database names the counts are the set sizes; with the env
   * file's, every host counts as updated and nothing is deleted.
   */
  method SyncHosts(rows: map<string, HostConfig>, cfg: EnvConfig, listOk: bool,
                   store: string -> Result<()>, delete: string -> Result<()>)
    returns (newRows: map<string, HostConfig>, added: nat, updated: nat, deleted: nat, ok: Result<()>)
    ensures TableSynced(rows, cfg.hosts, StaleRows(rows, cfg.hosts, listOk), HostsTarget(rows, cfg, listOk), store, delete, ok, newRows)
    ensures ok.Ok? ==> added + updated == |cfg.hosts|
    ensures ok.Ok? && listOk && rows != map[] ==>
      updated == |cfg.hosts.Keys * rows.Keys| && deleted == |rows.Keys - cfg.hosts.Keys|
    ensures ok.Ok? && !(listOk && rows != map[]) ==> updated == |cfg.hosts| && added == 0 && deleted == 0
  {
    var dbNames := SortedNames(rows.Keys);
    if rows != map[] {
      var h :| h in rows;
      assert h in dbNames;
    }
    var dbHosts := ListHosts(if listOk then Ok(dbNames) else Err("database list failed"), Ok(cfg));
    var listed := dbHosts.value;
    var fromDb := listOk && rows != map[];
    ghost var source := if fromDb then rows.Keys else cfg.hosts.Keys;
    if fromDb {
      assert listed == dbNames;
      assert forall h :: h in listed <==> h in rows;
    } else {
      if listOk {
        DistinctLength(dbNames, rows.Keys);
      }
      assert forall h :: h in listed <==> h in cfg.hosts;
    }
    assert NoDuplicates(listed) && forall h :: h in listed <==> h in source;
    ListedFacts(rows, cfg.hosts, listOk, listed, source);
    newRows, added, updated, deleted, ok := Reconcile(rows, cfg.hosts, listed, StaleRows(rows, cfg.hosts, listOk), store, delete);
    SplitCard(cfg.hosts.Keys, source);
    if !fromDb {
      SelfCounts(cfg.hosts.Keys);
    }
  }

  lemma NamesOf(listed: seq<string>, s: set<string>)
    requires forall h :: h in listed <==> h in s
    ensures Names(listed) == s
  {
  }

  lemma SplitCard(a: set<string>, b: set<string>)
    ensures |a| == |a - b| + |a * b|
  {
    assert a == (a - b) + (a * b);
    assert (a - b) !! (a * b);
  }

  lemma SelfCounts(a: set<string>)
    ensures |a - a| == 0 && |a * a| == |a|
  {
    assert a - a == {};
    assert a * a == a;
  }

  // Settings

  /** The settings `sync_db_from_env` manages, in its order. */
  const SETTING_KEYS: seq<string> := [
    "TAILNET_BASE", "TAILNET_TLD", "ACME_EMAIL", "PIA_USERNAME", "PIA_PASSWORD",
    "DOWNLOADS_PATH", "MOVIES_PATH", "TV_PATH", "MOVIES_4K_PATH", "MUSIC_PATH",
    "NGINX_PROXY_MANAGER_URL", "NGINX_PROXY_MANAGER_USERNAME", "NGINX_PROXY_MANAGER_PASSWORD"]

  /** An environment variable, or the empty string when unset. */
  function EnvOrEmpty(vars: seq<(string, string)>, key: string): string
  {
    Lookup(vars, key).UnwrapOr("")
  }

  /**
   * The value for each managed key: the loaded tailnet base, `TAILNET_TLD`
   * falling back to `TLD`, and the rest read from the environment.
   */
  function SettingValues(tailnetBase: string, vars: seq<(string, string)>): (r: seq<(string, string)>)
    ensures |r| == |SETTING_KEYS|
    ensures forall i :: 0 <= i < |r| ==> r[i].0 == SETTING_KEYS[i]
  {
    [("TAILNET_BASE", tailnetBase),
     ("TAILNET_TLD", Lookup(vars, "TAILNET_TLD").Or(Lookup(vars, "TLD")).UnwrapOr(""))] +
    seq(|SETTING_KEYS| - 2, i requires 0 <= i < |SETTING_KEYS| - 2 => (SETTING_KEYS[i + 2], EnvOrEmpty(vars, SETTING_KEYS[i + 2])))
  }

  function Managed(values: seq<(string, string)>): set<string>
  {
    set i | 0 <= i < |values| :: values[i].0
  }

  function Present(values: seq<(string, string)>): set<string>
  {
    set i | 0 <= i < |values| && values[i].1 != "" :: values[i].0
  }

  /** The last non-empty value given for `key`. */
  function LastNonEmpty(values: seq<(string, string)>, key: string): Option<string>
    decreases |values|
  {
    if |values| == 0 then None
    else
      var (k, v) := values[|values| - 1];
      if k == key && v != "" then Some(v) else LastNonEmpty(values[..|values| - 1], key)
  }

  /** The upsert loop's result: every non-empty value set, later ones winning. */
  function Upserted(rows: map<string, string>, values: seq<(string, string)>): map<string, string>
    decreases |values|
  {
    if |values| == 0 then rows
    else
      var (k, v) := values[|values| - 1];
      var before := Upserted(rows, values[..|values| - 1]);
      if v != "" then before[k := v] else before
  }

  /** A setting reads as its last non-empty value, else as it was. */
  lemma {:induction false} UpsertedMeaning(rows: map<string, string>, values: seq<(string, string)>, key: string)
    ensures Get(Upserted(rows, values), key) == LastNonEmpty(values, key).Or(Get(rows, key))
    ensures LastNonEmpty(values, key).Some? <==> key in Present(values)
  {
    if |values| > 0 {
      var p := values[..|values| - 1];
      UpsertedMeaning(rows, p, key);
      assert forall i :: 0 <= i < |p| ==> p[i] == values[i];
      assert Present(values) == Present(p) + (if values[|values| - 1].1 != "" then {values[|values| - 1].0} else {});
    }
  }

  /** Number of non-empty values, the upserts the first loop performs. */
  function NonEmptyCount(values: seq<(string, string)>): nat
    decreases |values|
  {
    if |values| == 0 then 0
    else NonEmptyCount(values[..|values| - 1]) + (if values[|values| - 1].1 != "" then 1 else 0)
  }

  /** Every non-empty value's write succeeds. */
  ghost predicate UpsertsOk(values: seq<(string, string)>, put: string -> Result<()>)
  {
    forall i :: 0 <= i < |values| && values[i].1 != "" ==> put(values[i].0).Ok?
  }

  /**
   * The upsert loop over the managed keys, counting additions and updates;
   * `put` is what each `set_setting` returns, and the first failing one ends
   * the loop with its error, the earlier values stored.
   */
  method UpsertSettings(rows: map<string, string>, values: seq<(string, string)>, put: string -> Result<()>)
    returns (newRows: map<string, string>, added: nat, updated: nat, ok: Result<()>)
    ensures ok.Ok? <==> UpsertsOk(values, put)
    ensures ok.Ok? ==> newRows == Upserted(rows, values) && added + updated == NonEmptyCount(values)
    ensures ok.Err? ==> exists n :: 0 <= n < |values| && values[n].1 != "" && put(values[n].0) == ok &&
                                    UpsertsOk(values[..n], put) && newRows == Upserted(rows, values[..n])
  {
    newRows := rows;
    added, updated := 0, 0;
    var i := 0;
    while i < |values|
      invariant 0 <= i <= |values|
      invariant newRows == Upserted(rows, values[..i])
      invariant added + updated == NonEmptyCount(values[..i])
      invariant UpsertsOk(values[..i], put)
    {
      assert values[..i + 1][..i] == values[..i];
      var (key, val) := values[i];
      if val != "" {
        if put(key).Err? {
          ok := put(key);
          return;
        }
        var existing := key in newRows;
        newRows := newRows[key := val];
        if existing {
          updated := updated + 1;
        } else {
          added := added + 1;
        }
      }
      i := i + 1;
    }
    assert values[..i] == values;
    ok := Ok(());
  }

  lemma InterStep(done: set<string>, h: string, s: set<string>)
    requires h !in done
    ensures |(done + {h}) * s| == |done * s| + (if h in s then 1 else 0)
  {
    if h in s {
      assert (done + {h}) * s == (done * s) + {h};
    } else {
      assert (done + {h}) * s == done * s;
    }
  }

  /** The settings delete loop's invariant, with `done` the rows already visited. */
  ghost predicate DeleteInv(rows: map<string, string>, gone: set<string>, todo: set<string>, done: set<string>,
                            newRows: map<string, string>, deleted: nat)
  {
    && todo !! done && todo + done == rows.Keys
    && newRows == rows - (done * gone)
    && deleted == |done * gone|
  }

  lemma MapRemoveStep(rows: map<string, string>, gone: set<string>, done: set<string>, key: string)
    ensures rows - ((done + {key}) * gone) == if key in gone then (rows - (done * gone)) - {key} else rows - (done * gone)
  {
  }

  lemma DeleteStep(rows: map<string, string>, gone: set<string>, todo: set<string>, done: set<string>,
                   newRows: map<string, string>, deleted: nat, key: string)
    requires DeleteInv(rows, gone, todo, done, newRows, deleted)
    requires key in todo
    ensures DeleteInv(rows, gone, todo - {key}, done + {key},
                      if key in gone then newRows - {key} else newRows,
                      if key in gone then deleted + 1 else deleted)
  {
    MapRemoveStep(rows, gone, done, key);
    InterStep(done, key, gone);
    assert todo - {key} !! done + {key};
    assert (todo - {key}) + (done + {key}) == rows.Keys;
  }

  /** The delete loop over every stored setting, in the table's order. */
  method DeleteUnset(rows: map<string, string>, gone: set<string>, delete: string -> Result<()>)
    returns (newRows: map<string, string>, deleted: nat, ok: Result<()>)
    ensures ok.Ok? <==> AllOk(rows.Keys * gone, delete)
    ensures ok.Ok? ==> newRows == rows - gone && deleted == |rows.Keys * gone|
    ensures ok.Err? ==> (exists k :: k in rows && k in gone && delete(k) == ok) && Mid(rows, rows - gone, newRows)
  {
    newRows := rows;
    deleted := 0;
    var todo := rows.Keys;
    ghost var done: set<string> := {};
    while todo != {}
      invariant DeleteInv(rows, gone, todo, done, newRows, deleted)
      invariant AllOk(done * gone, delete)
      decreases |todo|
    {
      var key :| key in todo;
      if key in gone && delete(key).Err? {
        ok := delete(key);
        return;
      }
      DeleteStep(rows, gone, todo, done, newRows, deleted, key);
      if key in gone {
        newRows := newRows - {key};
        deleted := deleted + 1;
      }
      todo := todo - {key};
      done := done + {key};
    }
    assert done == rows.Keys;
    assert rows - (done * gone) == rows - gone;
    ok := Ok(());
  }

  /** The settings the delete loop removes: the managed keys whose value is empty. */
  function Unset(values: seq<(string, string)>): set<string>
  {
    Managed(values) - Present(values)
  }

  /** Every settings write of the sync succeeds. */
  ghost predicate SettingWritesOk(rows: map<string, string>, values: seq<(string, string)>, selectOk: bool,
                                  put: string -> Result<()>, delete: string -> Result<()>)
  {
    UpsertsOk(values, put) && (selectOk ==> AllOk(Upserted(rows, values).Keys * Unset(values), delete))
  }

  /** The settings table the sync aims at: the upserts, then the unset keys removed when the table could be read back. */
  function SettingsTarget(rows: map<string, string>, values: seq<(string, string)>, selectOk: bool): map<string, string>
  {
    if selectOk then Upserted(rows, values) - Unset(values) else Upserted(rows, values)
  }

  /**
   * The settings sync: it succeeds exactly when every write does, and the
   * table is then the target; a failing `set_setting` is the first among the
   * non-empty values, with the earlier ones stored; a failing delete leaves
   * the table between the upserts and the target.
   */
  ghost predicate SettingsSynced(rows: map<string, string>, values: seq<(string, string)>, selectOk: bool,
                                 put: string -> Result<()>, delete: string -> Result<()>, ok: Result<()>, newRows: map<string, string>)
  {
    && (ok.Ok? <==> SettingWritesOk(rows, values, selectOk, put, delete))
    && (ok.Ok? ==> newRows == SettingsTarget(rows, values, selectOk))
    && (ok.Err? && !UpsertsOk(values, put) ==>
          exists n :: 0 <= n < |values| && values[n].1 != "" && put(values[n].0) == ok &&
                      UpsertsOk(values[..n], put) && newRows == Upserted(rows, values[..n]))
    && (ok.Err? && UpsertsOk(values, put) ==>
          (exists k :: k in Upserted(rows, values) && k in Unset(values) && delete(k) == ok) &&
          Mid(Upserted(rows, values), SettingsTarget(rows, values, selectOk), newRows))
  }

  /**
   * The settings part of `sync_db_from_env`: upsert every non-empty value,
   * then, if the table could be read back, delete the managed keys whose
   * value is empty; the first failing write ends it with its error.
   */
  method SyncSettings(rows: map<string, string>, values: seq<(string, string)>, selectOk: bool,
                      put: string -> Result<()>, delete: string -> Result<()>)
    returns (newRows: map<string, string>, added: nat, updated: nat, deleted: nat, ok: Result<()>)
    ensures SettingsSynced(rows, values, selectOk, put, delete, ok, newRows)
    ensures ok.Ok? ==> added + updated == NonEmptyCount(values)
    ensures ok.Ok? ==> deleted == if selectOk then |Upserted(rows, values).Keys * Unset(values)| else 0
  {
    newRows, added, updated, ok := UpsertSettings(rows, values, put);
    deleted := 0;
    if ok.Ok? && selectOk {
      newRows, deleted, ok := DeleteUnset(newRows, Unset(values), delete);
    }
  }

  /**
   * What the settings sync leaves: non-empty managed values stored, managed
   * keys with an empty value gone (when the table could be read back), and
   * every other key as it was.
   */
  lemma SettingsSyncMeaning(rows: map<string, string>, values: seq<(string, string)>, key: string)
    ensures var after := Upserted(rows, values) - Unset(values);
      && (key !in Managed(values) ==> Get(after, key) == Get(rows, key))
      && (key in Present(values) ==> Get(after, key) == LastNonEmpty(values, key))
      && (key in Managed(values) && key !in Present(values) ==> key !in after)
  {
    UpsertedMeaning(rows, values, key);
  }

  /** What each table's sync reported. */
  datatype SyncReport = SyncReport(
    hostsAdded: nat, hostsUpdated: nat, hostsDeleted: nat,
    smbAdded: nat, smbUpdated: nat, smbDeleted: nat,
    settingsAdded: nat, settingsUpdated: nat, settingsDeleted: nat)

  /** The SMB table the sync aims at: the env servers, plus the old rows when the database list could not be read. */
  function SmbTarget(rows: map<string, SmbServerConfig>, env: map<string, SmbServerConfig>, listOk: bool): map<string, SmbServerConfig>
  {
    if listOk then env else rows + env
  }

  /**
   * A reconciled table's list of names, `source` as a set without repeats:
   * what it deletes, what the table becomes and how the deletions count. The
   * source is the stored names when they could be listed, else names that
   * the env side all has.
   */
  lemma ListedFacts<V>(rows: map<string, V>, env: map<string, V>, listOk: bool, listed: seq<string>, source: set<string>)
    requires NoDuplicates(listed) && forall h :: h in listed <==> h in source
    requires listOk ==> rows.Keys <= source
    requires source <= rows.Keys || source <= env.Keys
    requires !listOk ==> source <= env.Keys
    ensures Names(listed) == source
    ensures Stale(listed, env) == StaleRows(rows, env, listOk)
    ensures (rows + env) - StaleRows(rows, env, listOk) == if listOk then env else rows + env
    ensures CountMissing(listed, env.Keys) == |source - env.Keys|
  {
    NamesOf(listed, source);
    CountMissingDistinct(listed, env.Keys);
    StaleOfSource(rows, env, listOk, listed, source);
    if listOk {
      assert source - env.Keys == rows.Keys - env.Keys;
      ReconcileCovering(rows, env, listed);
    } else {
      assert Stale(listed, env) == {};
    }
  }

  lemma StaleOfSource<V>(rows: map<string, V>, env: map<string, V>, listOk: bool, listed: seq<string>, source: set<string>)
    requires forall h :: h in listed <==> h in source
    requires listOk ==> rows.Keys <= source
    requires source <= rows.Keys || source <= env.Keys
    requires !listOk ==> source <= env.Keys
    ensures Stale(listed, env) == source - env.Keys == StaleRows(rows, env, listOk)
  {
    assert Stale(listed, env) == source - env.Keys;
    if source <= env.Keys {
      assert source - env.Keys == {};
    }
  }

  /**
   * The SMB half of the sync: every server in the env file is stored; when
   * the database's server list can be read, servers it holds that the env
   * file no longer names are deleted, otherwise nothing is deleted. The first
   * failing write ends it with its error.
   */
  method SyncSmb(rows: map<string, SmbServerConfig>, env: map<string, SmbServerConfig>, listOk: bool,
                 store: string -> Result<()>, delete: string -> Result<()>)
    returns (newRows: map<string, SmbServerConfig>, added: nat, updated: nat, deleted: nat, ok: Result<()>)
    ensures TableSynced(rows, env, StaleRows(rows, env, listOk), SmbTarget(rows, env, listOk), store, delete, ok, newRows)
    ensures ok.Ok? ==> added + updated == |env|
    ensures ok.Ok? && listOk ==> updated == |env.Keys * rows.Keys| && deleted == |rows.Keys - env.Keys|
    ensures ok.Ok? && !listOk ==> updated == 0 && deleted == 0
  {
    var names: seq<string> := [];
    if listOk {
      names := SortedNames(rows.Keys);
    }
    ListedFacts(rows, env, listOk, names, if listOk then rows.Keys else {});
    newRows, added, updated, deleted, ok := Reconcile(rows, env, names, StaleRows(rows, env, listOk), store, delete);
    if listOk {
      SplitCard(env.Keys, rows.Keys);
    } else {
      SplitCard(env.Keys, {});
    }
  }

  /** What each database write of the sync returns, by name: host, SMB server and setting stores and deletes. */
  datatype SyncWrites = SyncWrites(
    storeHost: string -> Result<()>, deleteHost: string -> Result<()>,
    storeSmb: string -> Result<()>, deleteSmb: string -> Result<()>,
    setSetting: string -> Result<()>, deleteSetting: string -> Result<()>)

  /**
   * The SMB and settings half of `sync_db_from_env`, once the hosts are in:
   * `smbOk` and `settingsOk` are how each table's writes went (the settings
   * carry the SMB error when they are never reached), and the report carries
   * the host counts it is given.
   */
  method SyncServersAndSettings(db: Database, cfg: EnvConfig, vars: seq<(string, string)>,
                                smbListOk: bool, settingsSelectOk: bool, w: SyncWrites,
                                hostsAdded: nat, hostsUpdated: nat, hostsDeleted: nat)
    returns (r: Result<SyncReport>, ghost smbOk: Result<()>, ghost settingsOk: Result<()>)
    modifies db
    ensures db.hosts == old(db.hosts)
    ensures TableSynced(old(db.smbServers), cfg.smbServers, StaleRows(old(db.smbServers), cfg.smbServers, smbListOk),
                        SmbTarget(old(db.smbServers), cfg.smbServers, smbListOk), w.storeSmb, w.deleteSmb, smbOk, db.smbServers)
    ensures smbOk.Err? ==> r == Err(smbOk.msg) && db.settings == old(db.settings)
    ensures smbOk.Ok? ==>
      SettingsSynced(old(db.settings), SettingValues(cfg.tailnetBase, vars), settingsSelectOk,
                     w.setSetting, w.deleteSetting, settingsOk, db.settings)
    ensures smbOk.Ok? && settingsOk.Err? ==> r == Err(settingsOk.msg)
    ensures r.Ok? <==> smbOk.Ok? && settingsOk.Ok?
    ensures r.Ok? ==> r.value.hostsAdded == hostsAdded && r.value.hostsUpdated == hostsUpdated && r.value.hostsDeleted == hostsDeleted
    ensures r.Ok? ==> r.value.smbAdded + r.value.smbUpdated == |cfg.smbServers|
    ensures r.Ok? && smbListOk ==>
      && r.value.smbUpdated == |cfg.smbServers.Keys * old(db.smbServers).Keys|
      && r.value.smbDeleted == |old(db.smbServers).Keys - cfg.smbServers.Keys|
    ensures r.Ok? && !smbListOk ==> r.value.smbUpdated == 0 && r.value.smbDeleted == 0
    ensures r.Ok? ==> r.value.settingsAdded + r.value.settingsUpdated == NonEmptyCount(SettingValues(cfg.tailnetBase, vars))
  {
    var smbRows, smbAdded, smbUpdated, smbDeleted, smbWrites := SyncSmb(db.smbServers, cfg.smbServers, smbListOk, w.storeSmb, w.deleteSmb);
    db.smbServers, smbOk := smbRows, smbWrites;
    if smbWrites.Err? {
      return Err(smbWrites.msg), smbWrites, smbWrites;
    }

    var values := SettingValues(cfg.tailnetBase, vars);
    var settingRows, sAdded, sUpdated, sDeleted, settingWrites := SyncSettings(db.settings, values, settingsSelectOk, w.setSetting, w.deleteSetting);
    db.settings, settingsOk := settingRows, settingWrites;
    if settingWrites.Err? {
      return Err(settingWrites.msg), smbOk, settingsOk;
    }

    r := Ok(SyncReport(hostsAdded, hostsUpdated, hostsDeleted, smbAdded, smbUpdated, smbDeleted, sAdded, sUpdated, sDeleted));
  }

  /**
   * `sync_db_from_env`. The host list is `list_hosts`: the database's names
   * when they can be read and there are any, else the env file's. The SMB
   * list is empty when it cannot be read; the settings deletions need the
   * settings table to be readable. `vars` is the process environment after
   * loading the env file; `w` gives each write's outcome. The tables are
   * synced in turn, `hostsOk`, `smbOk` and `settingsOk` being how each one's
   * writes went (a table never reached carries the error that stopped the
   * sync): the first failing write ends the sync with its error, its own
   * table left partway and the later ones untouched.
   */
  method SyncDbFromEnv(db: Database, env: Result<EnvConfig>, vars: seq<(string, string)>,
                       hostListOk: bool, smbListOk: bool, settingsSelectOk: bool, w: SyncWrites)
    returns (r: Result<SyncReport>, ghost hostsOk: Result<()>, ghost smbOk: Result<()>, ghost settingsOk: Result<()>)
    modifies db
    ensures env.Err? ==> r == Err(env.msg) && db.hosts == old(db.hosts) && db.smbServers == old(db.smbServers) && db.settings == old(db.settings)
    ensures env.Ok? ==>
      TableSynced(old(db.hosts), env.value.hosts, StaleRows(old(db.hosts), env.value.hosts, hostListOk),
                  HostsTarget(old(db.hosts), env.value, hostListOk), w.storeHost, w.deleteHost, hostsOk, db.hosts)
    ensures env.Ok? && hostsOk.Err? ==> r == Err(hostsOk.msg) && db.smbServers == old(db.smbServers) && db.settings == old(db.settings)
    ensures env.Ok? && hostsOk.Ok? ==>
      TableSynced(old(db.smbServers), env.value.smbServers, StaleRows(old(db.smbServers), env.value.smbServers, smbListOk),
                  SmbTarget(old(db.smbServers), env.value.smbServers, smbListOk), w.storeSmb, w.deleteSmb, smbOk, db.smbServers)
    ensures env.Ok? && hostsOk.Ok? && smbOk.Err? ==> r == Err(smbOk.msg) && db.settings == old(db.settings)
    ensures env.Ok? && hostsOk.Ok? && smbOk.Ok? ==>
      SettingsSynced(old(db.settings), SettingValues(env.value.tailnetBase, vars), settingsSelectOk,
                     w.setSetting, w.deleteSetting, settingsOk, db.settings)
    ensures env.Ok? && hostsOk.Ok? && smbOk.Ok? && settingsOk.Err? ==> r == Err(settingsOk.msg)
    ensures env.Ok? ==> (r.Ok? <==> hostsOk.Ok? && smbOk.Ok? && settingsOk.Ok?)
    ensures r.Ok? ==> r.value.hostsAdded + r.value.hostsUpdated == |env.value.hosts|
    ensures r.Ok? && hostListOk && old(db.hosts) != map[] ==>
      && r.value.hostsUpdated == |env.value.hosts.Keys * old(db.hosts).Keys|
      && r.value.hostsDeleted == |old(db.hosts).Keys - env.value.hosts.Keys|
    ensures r.Ok? && !(hostListOk && old(db.hosts) != map[]) ==>
      r.value.hostsUpdated == |env.value.hosts| && r.value.hostsAdded == 0 && r.value.hostsDeleted == 0
    ensures r.Ok? ==> r.value.smbAdded + r.value.smbUpdated == |env.value.smbServers|
    ensures r.Ok? && smbListOk ==>
      && r.value.smbUpdated == |env.value.smbServers.Keys * old(db.smbServers).Keys|
      && r.value.smbDeleted == |old(db.smbServers).Keys - env.value.smbServers.Keys|
    ensures r.Ok? && !smbListOk ==> r.value.smbUpdated == 0 && r.value.smbDeleted == 0
    ensures r.Ok? ==> r.value.settingsAdded + r.value.settingsUpdated == NonEmptyCount(SettingValues(env.value.tailnetBase, vars))
  {
    if env.Err? {
      return Err(env.msg), Err(env.msg), Err(env.msg), Err(env.msg);
    }
    var cfg := env.value;
    var hostRows, added, updated, deleted, hostWrites := SyncHosts(db.hosts, cfg, hostListOk, w.storeHost, w.deleteHost);
    db.hosts, hostsOk := hostRows, hostWrites;
    if hostWrites.Err? {
      return Err(hostWrites.msg), hostWrites, hostWrites, hostWrites;
    }
    r, smbOk, settingsOk := SyncServersAndSettings(db, cfg, vars, smbListOk, settingsSelectOk, w, added, updated, deleted);
  }
}
