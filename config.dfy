/**
 * The `.env` configuration: per-host address records and SMB server
 * records, parsed from the process environment's `(key, value)` pairs.
 */
module Config {
  import opened Wrappers
  import opened Strings

  /** `HostConfig`: every field optional. */
  datatype HostConfig = HostConfig(
    ip: Option<string>,
    hostname: Option<string>,
    tailscale: Option<string>,
    backupPath: Option<string>)

  const EmptyHost := HostConfig(None, None, None, None)

  /** `SmbServerConfig`: `host` and `shares` start empty and are checked after parsing. */
  datatype SmbServerConfig = SmbServerConfig(
    host: string,
    shares: seq<string>,
    username: Option<string>,
    password: Option<string>,
    options: Option<string>)

  const EmptySmb := SmbServerConfig("", [], None, None, None)

  datatype EnvConfig = EnvConfig(
    tailnetBase: string,
    hosts: map<string, HostConfig>,
    smbServers: map<string, SmbServerConfig>)

  /** The five `HOST_<name>_<FIELD>` suffixes, in the order they are tried. */
  datatype HostField = TailscaleIpField | IpField | HostnameField | TailscaleField | BackupPathField

  const DEFAULT_TAILNET_BASE := "ts.net"

  // ---------------------------------------------------------------------------
  // Key classification

  function FieldSuffix(f: HostField): string
  {
    match f
    case TailscaleIpField => "_TAILSCALE_IP"
    case IpField => "_IP"
    case HostnameField => "_HOSTNAME"
    case TailscaleField => "_TAILSCALE"
    case BackupPathField => "_BACKUP_PATH"
  }

  /**
   * The host and field a `HOST_` key names: the suffixes are tried in the order
   * `_TAILSCALE_IP`, `_IP`, `_HOSTNAME`, `_TAILSCALE`, `_BACKUP_PATH`, and the
   * host name is what precedes the suffix, lower-cased.
   */
  function HostKey(key: string): (r: Option<(string, HostField)>)
    ensures r.Some? ==> StartsWith(key, "HOST_")
    ensures r.Some? ==> exists n :: key == "HOST_" + n + FieldSuffix(r.value.1) && r.value.0 == ToLower(n)
  {
    if !StartsWith(key, "HOST_") then None
    else
      var rest := key[5..];
      assert key == "HOST_" + rest;
      if EndsWith(rest, FieldSuffix(TailscaleIpField)) then Classified(key, rest, TailscaleIpField)
      else if EndsWith(rest, FieldSuffix(IpField)) then Classified(key, rest, IpField)
      else if EndsWith(rest, FieldSuffix(HostnameField)) then Classified(key, rest, HostnameField)
      else if EndsWith(rest, FieldSuffix(TailscaleField)) then Classified(key, rest, TailscaleField)
      else if EndsWith(rest, FieldSuffix(BackupPathField)) then Classified(key, rest, BackupPathField)
      else None
  }

  /** The rest of a `HOST_` key, ending with the suffix of `f`, names the host before that suffix. */
  function Classified(key: string, rest: string, f: HostField): (r: Option<(string, HostField)>)
    requires key == "HOST_" + rest && EndsWith(rest, FieldSuffix(f))
    ensures r.Some? && r.value.1 == f
    ensures exists n :: key == "HOST_" + n + FieldSuffix(f) && r.value.0 == ToLower(n)
  {
    var n := rest[..|rest| - |FieldSuffix(f)|];
    assert rest == n + FieldSuffix(f);
    assert key == "HOST_" + n + FieldSuffix(f);
    Some((ToLower(n), f))
  }

  /**
   * The server and property an `SMB_<server>_<PROPERTY>` key names. The part
   * after `SMB_` is split at every `'_'`; with at least two pieces the server is
   * the first piece lower-cased and the property the other pieces re-joined.
   * `HOST_` keys are never SMB keys.
   */
  function SmbKey(key: string): Option<(string, string)>
  {
    if StartsWith(key, "HOST_") then None
    else match StripPrefix(key, "SMB_")
      case None => None
      case Some(rest) =>
        var parts := Split(rest, '_');
        if |parts| >= 2 then Some((ToLower(parts[0]), Join(parts[1..], "_"))) else None
  }

  /** The SMB split is a split at the first `'_'`: keys without one are ignored. */
  lemma SmbKeyIsFirstUnderscore(key: string, rest: string)
    requires !StartsWith(key, "HOST_") && key == "SMB_" + rest
    ensures SmbKey(key).None? <==> '_' !in rest
    ensures SmbKey(key).Some? ==>
      exists i :: 0 <= i < |rest| && rest[i] == '_' && '_' !in rest[..i] &&
        SmbKey(key).value == (ToLower(rest[..i]), rest[i + 1..])
  {
    assert StripPrefix(key, "SMB_") == Some(rest) by {
      assert key[..4] == "SMB_";
      assert key[4..] == rest;
    }
    match IndexOf(rest, '_')
    case None =>
      assert Split(rest, '_') == [rest];
    case Some(i) =>
      var parts := Split(rest, '_');
      assert parts == [rest[..i]] + Split(rest[i + 1..], '_');
      assert parts[1..] == Split(rest[i + 1..], '_');
      JoinSplit(rest[i + 1..], '_');
  }

  // ---------------------------------------------------------------------------
  // Applying one variable

  /** The record update of one `HOST_` variable. */
  function SetHostField(c: HostConfig, f: HostField, value: string): (r: HostConfig)
    ensures f == IpField ==> r == c.(ip := Some(value))
    ensures f == TailscaleIpField ==> r == if c.ip.None? then c.(ip := Some(value)) else c
    ensures f == HostnameField ==> r == c.(hostname := Some(value))
    ensures f == TailscaleField ==> r == c.(tailscale := Some(value))
    ensures f == BackupPathField ==> r == c.(backupPath := Some(value))
  {
    match f
    case TailscaleIpField => if c.ip.None? then c.(ip := Some(value)) else c
    case IpField => c.(ip := Some(value))
    case HostnameField => c.(hostname := Some(value))
    case TailscaleField => c.(tailscale := Some(value))
    case BackupPathField => c.(backupPath := Some(value))
  }

  /** `hosts.entry(name).or_insert_with(empty)` followed by the field update. */
  function ApplyHost(hosts: map<string, HostConfig>, name: string, f: HostField, value: string): (r: map<string, HostConfig>)
    ensures r.Keys == hosts.Keys + {name}
    ensures forall n :: n in hosts && n != name ==> r[n] == hosts[n]
    ensures r[name] == SetHostField(if name in hosts then hosts[name] else EmptyHost, f, value)
  {
    hosts[name := SetHostField(if name in hosts then hosts[name] else EmptyHost, f, value)]
  }

  /** Trimmed, non-empty pieces, in order (the `SHARES` list). */
  function NonEmptyTrimmed(parts: seq<string>): (r: seq<string>)
    ensures forall x :: x in r ==> x != "" && Trim(x) == x
    ensures forall x :: x in r <==> exists p :: p in parts && Trim(p) == x && x != ""
  {
    if |parts| == 0 then []
    else
      var rest := NonEmptyTrimmed(parts[1..]);
      assert parts == [parts[0]] + parts[1..];
      TrimIdempotent(parts[0]);
      TrimmedStep(parts[0], parts[1..], rest, Trim);
      if Trim(parts[0]) == "" then rest else [Trim(parts[0])] + rest
  }

  /** The trimmed non-empty pieces of `tail` extended by those of one more piece in front, for an idempotent `trim`. */
  lemma TrimmedStep(p: string, tail: seq<string>, rest: seq<string>, trim: string -> string)
    requires trim(trim(p)) == trim(p)
    requires forall x :: x in rest ==> x != "" && trim(x) == x
    requires forall x :: x in rest <==> exists q :: q in tail && trim(q) == x && x != ""
    ensures var r := if trim(p) == "" then rest else [trim(p)] + rest;
      && (forall x :: x in r ==> x != "" && trim(x) == x)
      && (forall x :: x in r <==> exists q :: q in [p] + tail && trim(q) == x && x != "")
  {
    var r := if trim(p) == "" then rest else [trim(p)] + rest;
    forall x ensures x in r <==> exists q :: q in [p] + tail && trim(q) == x && x != "" {
      if x in r && x !in rest {
        assert p in [p] + tail;
      }
      if exists q :: q in [p] + tail && trim(q) == x && x != "" {
        var q :| q in [p] + tail && trim(q) == x && x != "";
        if q != p {
          assert q in tail;
        }
      }
    }
  }

  /** `value.split(',')`, each piece trimmed, empty pieces dropped. */
  function ParseShares(value: string): seq<string>
  {
    NonEmptyTrimmed(Split(value, ','))
  }

  /** The record update of one `SMB_` property; unknown properties change nothing. */
  function SetSmbProperty(c: SmbServerConfig, prop: string, value: string): (r: SmbServerConfig)
    ensures prop == "HOST" ==> r == c.(host := value)
    ensures prop == "SHARES" ==> r == c.(shares := ParseShares(value))
    ensures prop == "SHARE" ==> r == if Trim(value) != "" && Trim(value) !in c.shares
                                      then c.(shares := c.shares + [Trim(value)]) else c
    ensures prop == "USERNAME" ==> r == c.(username := Some(value))
    ensures prop == "PASSWORD" ==> r == c.(password := Some(value))
    ensures prop == "OPTIONS" ==> r == c.(options := Some(value))
    ensures prop !in {"HOST", "SHARES", "SHARE", "USERNAME", "PASSWORD", "OPTIONS"} ==> r == c
  {
    match prop
    case "HOST" => c.(host := value)
    case "SHARES" => c.(shares := ParseShares(value))
    case "SHARE" =>
      var share := Trim(value);
      if share != "" && share !in c.shares then c.(shares := c.shares + [share]) else c
    case "USERNAME" => c.(username := Some(value))
    case "PASSWORD" => c.(password := Some(value))
    case "OPTIONS" => c.(options := Some(value))
    case _ => c
  }

  /** The entry is created whatever the property is. */
  function ApplySmb(smb: map<string, SmbServerConfig>, name: string, prop: string, value: string): (r: map<string, SmbServerConfig>)
    ensures r.Keys == smb.Keys + {name}
    ensures forall n :: n in smb && n != name ==> r[n] == smb[n]
    ensures r[name] == SetSmbProperty(if name in smb then smb[name] else EmptySmb, prop, value)
  {
    smb[name := SetSmbProperty(if name in smb then smb[name] else EmptySmb, prop, value)]
  }

  datatype Parsed = Parsed(hosts: map<string, HostConfig>, smb: map<string, SmbServerConfig>)

  function ApplyVar(p: Parsed, kv: (string, string)): Parsed
  {
    match HostKey(kv.0)
    case Some((name, f)) => p.(hosts := ApplyHost(p.hosts, name, f, kv.1))
    case None =>
      match SmbKey(kv.0)
      case Some((server, prop)) => p.(smb := ApplySmb(p.smb, server, prop, kv.1))
      case None => p
  }

  /** The state after applying the variables to `p`, in order. */
  function FoldVars(p: Parsed, vars: seq<(string, string)>): Parsed
  {
    if |vars| == 0 then p
    else ApplyVar(FoldVars(p, vars[..|vars| - 1]), vars[|vars| - 1])
  }

  /** The state the parse loop builds from empty maps. */
  function ParseVars(vars: seq<(string, string)>): Parsed
  {
    FoldVars(Parsed(map[], map[]), vars)
  }

  lemma {:induction false} FoldVarsAppend(p: Parsed, a: seq<(string, string)>, b: seq<(string, string)>)
    ensures FoldVars(p, a + b) == FoldVars(FoldVars(p, a), b)
  {
    if |b| > 0 {
      assert (a + b)[..|a + b| - 1] == a + b[..|b| - 1];
      assert (a + b)[|a + b| - 1] == b[|b| - 1];
      FoldVarsAppend(p, a, b[..|b| - 1]);
    } else {
      assert a + b == a;
    }
  }

  /** `env::var(key)`: the value of the first variable with that key. */
  function Lookup(vars: seq<(string, string)>, key: string): (r: Option<string>)
    ensures r.None? <==> forall i :: 0 <= i < |vars| ==> vars[i].0 != key
    ensures r.Some? ==> exists i :: 0 <= i < |vars| && vars[i] == (key, r.value)
  {
    if |vars| == 0 then None
    else if vars[0].0 == key then Some(vars[0].1)
    else
      var r := Lookup(vars[1..], key);
      assert forall i :: 1 <= i < |vars| ==> vars[i] == vars[1..][i - 1];
      r
  }

  // ---------------------------------------------------------------------------
  // Validation and loading

  predicate SmbComplete(c: SmbServerConfig)
  {
    c.host != "" && c.shares != []
  }

  function SmbErrorFor(name: string, c: SmbServerConfig): string
  {
    if c.host == "" then "SMB server '" + name + "' is missing required configuration (HOST)"
    else "SMB server '" + name + "' is missing required configuration (SHARES or SHARE)"
  }

  /**
   * The validation loop over the SMB map. `HashMap` order is unspecified, so the
   * servers are visited in an arbitrary order; the first incomplete one visited
   * is reported.
   */
  method ValidateSmb(smb: map<string, SmbServerConfig>) returns (r: Result<()>)
    ensures r.Ok? <==> forall n :: n in smb ==> SmbComplete(smb[n])
    ensures r.Err? ==> exists n :: n in smb && !SmbComplete(smb[n]) && r.msg == SmbErrorFor(n, smb[n])
  {
    var todo := smb.Keys;
    while todo != {}
      invariant todo <= smb.Keys
      invariant forall n :: n in smb.Keys - todo ==> SmbComplete(smb[n])
      decreases |todo|
    {
      var name :| name in todo;
      var config := smb[name];
      if config.host == "" || config.shares == [] {
        return Err(SmbErrorFor(name, config));
      }
      todo := todo - {name};
    }
    return Ok(());
  }

  function EnvNotFound(envPath: string): string
  {
    "Error: .env file not found at " + envPath + ENV_HINT
  }

  const ENV_HINT := "\n\nRun 'hal config init' to configure the environment file location.\nOr copy .env.example to .env and configure your settings."

  /** `TAILNET_BASE`, or the default when it is not set. */
  function TailnetOf(vars: seq<(string, string)>): string
  {
    Lookup(vars, "TAILNET_BASE").UnwrapOr(DEFAULT_TAILNET_BASE)
  }

  /**
   * `load_env_config`. `envFound` says whether the env file exists; `vars` is the
   * process environment after the file was loaded, in `env::vars()` order.
   */
  method LoadEnvConfig(envPath: string, envFound: bool, vars: seq<(string, string)>) returns (r: Result<EnvConfig>)
    ensures !envFound ==> r == Err(EnvNotFound(envPath))
    ensures envFound ==> (r.Ok? <==> forall n :: n in ParseVars(vars).smb ==> SmbComplete(ParseVars(vars).smb[n]))
    ensures r.Ok? ==> r.value == EnvConfig(TailnetOf(vars),
                                           ParseVars(vars).hosts, ParseVars(vars).smb)
    ensures envFound && r.Err? ==> exists n :: n in ParseVars(vars).smb && r.msg == SmbErrorFor(n, ParseVars(vars).smb[n])
  {
    if !envFound {
      return Err(EnvNotFound(envPath));
    }
    var tailnetBase := TailnetOf(vars);
    var hosts, smb := CollectVars(vars);
    var valid := ValidateSmb(smb);
    if valid.Err? {
      return Err(valid.msg);
    }
    return Ok(EnvConfig(tailnetBase, hosts, smb));
  }

  /** The loop of `load_env_config` over the process environment. */
  method CollectVars(vars: seq<(string, string)>) returns (hosts: map<string, HostConfig>, smb: map<string, SmbServerConfig>)
    ensures Parsed(hosts, smb) == ParseVars(vars)
  {
    hosts := map[];
    smb := map[];
    var i := 0;
    while i < |vars|
      invariant 0 <= i <= |vars|
      invariant Parsed(hosts, smb) == ParseVars(vars[..i])
    {
      ParseVarsStep(vars, i);
      ghost var before := Parsed(hosts, smb);
      var (key, value) := vars[i];
      match HostKey(key) {
        case Some((name, f)) =>
          hosts := ApplyHost(hosts, name, f, value);
        case None =>
          match SmbKey(key) {
            case Some((server, prop)) =>
              smb := ApplySmb(smb, server, prop, value);
            case None =>
          }
      }
      assert Parsed(hosts, smb) == ApplyVar(before, vars[i]);
      i := i + 1;
    }
    assert vars[..i] == vars;
  }

  lemma ParseVarsStep(vars: seq<(string, string)>, i: nat)
    requires i < |vars|
    ensures ParseVars(vars[..i + 1]) == ApplyVar(ParseVars(vars[..i]), vars[i])
  {
    assert vars[..i + 1][..i] == vars[..i];
  }

  // ---------------------------------------------------------------------------
  // What the parse means

  /** The value of the last variable naming field `f` of host `n`, if any. */
  function LastFieldValue(vars: seq<(string, string)>, n: string, f: HostField): Option<string>
  {
    if |vars| == 0 then None
    else if HostKey(vars[|vars| - 1].0) == Some((n, f)) then Some(vars[|vars| - 1].1)
    else LastFieldValue(vars[..|vars| - 1], n, f)
  }

  /** The value of the first variable naming field `f` of host `n`, if any. */
  function FirstFieldValue(vars: seq<(string, string)>, n: string, f: HostField): Option<string>
  {
    if |vars| == 0 then None
    else match FirstFieldValue(vars[..|vars| - 1], n, f)
      case Some(v) => Some(v)
      case None => if HostKey(vars[|vars| - 1].0) == Some((n, f)) then Some(vars[|vars| - 1].1) else None
  }

  predicate NamesHost(vars: seq<(string, string)>, n: string)
  {
    exists i, f :: 0 <= i < |vars| && HostKey(vars[i].0) == Some((n, f))
  }

  /** The record the variables describe for host `n`. */
  predicate DescribedBy(c: HostConfig, vars: seq<(string, string)>, n: string)
  {
    && c.ip == LastFieldValue(vars, n, IpField).Or(FirstFieldValue(vars, n, TailscaleIpField))
    && c.hostname == LastFieldValue(vars, n, HostnameField)
    && c.tailscale == LastFieldValue(vars, n, TailscaleField)
    && c.backupPath == LastFieldValue(vars, n, BackupPathField)
  }

  lemma NamesHostSnoc(vars: seq<(string, string)>, n: string)
    requires |vars| > 0
    ensures NamesHost(vars, n) <==>
      NamesHost(vars[..|vars| - 1], n) || (HostKey(vars[|vars| - 1].0).Some? && HostKey(vars[|vars| - 1].0).value.0 == n)
  {
    NamedBySnoc(vars, n, HostKey);
  }

  /** `NamesHostSnoc` for any key classifier, so that the classifier's body stays out of the proof. */
  lemma NamedBySnoc(vars: seq<(string, string)>, n: string, key: string -> Option<(string, HostField)>)
    requires |vars| > 0
    ensures var init := vars[..|vars| - 1];
      (exists i, f :: 0 <= i < |vars| && key(vars[i].0) == Some((n, f))) <==>
      (exists i, f :: 0 <= i < |init| && key(init[i].0) == Some((n, f)))
      || (key(vars[|vars| - 1].0).Some? && key(vars[|vars| - 1].0).value.0 == n)
  {
    var init := vars[..|vars| - 1];
    var last := |vars| - 1;
    if exists i, f :: 0 <= i < |init| && key(init[i].0) == Some((n, f)) {
      var i, f :| 0 <= i < |init| && key(init[i].0) == Some((n, f));
      assert init[i] == vars[i];
    }
    var k := key(vars[last].0);
    if k.Some? && k.value.0 == n {
      assert key(vars[last].0) == Some((n, k.value.1));
    }
    if exists i, f :: 0 <= i < |vars| && key(vars[i].0) == Some((n, f)) {
      var i, f :| 0 <= i < |vars| && key(vars[i].0) == Some((n, f));
      if i < last {
        assert vars[i] == init[i];
      }
    }
  }

  /**
   * A host exists iff some variable names it. Its `ip` is the last `_IP` value,
   * and only when there is none the first `_TAILSCALE_IP` value, wherever the
   * two kinds of key sit relative to each other; the other three fields are
   * the last value given for exactly that field.
   */
  lemma {:induction false} ParsedHosts(vars: seq<(string, string)>, n: string)
    ensures n in ParseVars(vars).hosts <==> NamesHost(vars, n)
    ensures n in ParseVars(vars).hosts ==> DescribedBy(ParseVars(vars).hosts[n], vars, n)
  {
    if |vars| > 0 {
      var init := vars[..|vars| - 1];
      var last := vars[|vars| - 1];
      ParsedHosts(init, n);
      NamesHostSnoc(vars, n);
      ParseHostsStep(vars);
      var k := HostKey(last.0);
      if k.Some? && k.value.0 == n {
        if !NamesHost(init, n) {
          NoNameNoValues(init, n);
        }
        var prev := if n in ParseVars(init).hosts then ParseVars(init).hosts[n] else EmptyHost;
        assert DescribedBy(prev, init, n);
        DescribedHit(prev, vars, n, k.value.1);
        assert ParseVars(vars).hosts[n] == SetHostField(prev, k.value.1, last.1);
      } else {
        assert n in ParseVars(vars).hosts <==> n in ParseVars(init).hosts;
        if n in ParseVars(init).hosts {
          assert ParseVars(vars).hosts[n] == ParseVars(init).hosts[n];
          DescribedMiss(ParseVars(init).hosts[n], vars, n);
        }
      }
    }
  }

  /** One more variable changes the hosts only when its key is a host key. */
  lemma ParseHostsStep(vars: seq<(string, string)>)
    requires |vars| > 0
    ensures var init, last := vars[..|vars| - 1], vars[|vars| - 1];
      ParseVars(vars).hosts ==
        match HostKey(last.0)
        case Some((name, f)) => ApplyHost(ParseVars(init).hosts, name, f, last.1)
        case None => ParseVars(init).hosts
  {
  }

  /** A variable for field `f` of host `n` updates the described record accordingly. */
  lemma DescribedHit(c: HostConfig, vars: seq<(string, string)>, n: string, f: HostField)
    requires |vars| > 0 && HostKey(vars[|vars| - 1].0) == Some((n, f))
    requires DescribedBy(c, vars[..|vars| - 1], n)
    ensures DescribedBy(SetHostField(c, f, vars[|vars| - 1].1), vars, n)
  {
  }

  /** A variable not naming host `n` leaves its description as it was. */
  lemma DescribedMiss(c: HostConfig, vars: seq<(string, string)>, n: string)
    requires |vars| > 0
    requires !(HostKey(vars[|vars| - 1].0).Some? && HostKey(vars[|vars| - 1].0).value.0 == n)
    requires DescribedBy(c, vars[..|vars| - 1], n)
    ensures DescribedBy(c, vars, n)
  {
    var k := HostKey(vars[|vars| - 1].0);
    assert forall f :: k != Some((n, f));
  }

  lemma {:induction false} NoNameNoValues(vars: seq<(string, string)>, n: string)
    requires !NamesHost(vars, n)
    ensures forall f :: LastFieldValue(vars, n, f).None? && FirstFieldValue(vars, n, f).None?
  {
    if |vars| > 0 {
      NamesHostSnoc(vars, n);
      NoNameNoValues(vars[..|vars| - 1], n);
      forall f
        ensures LastFieldValue(vars, n, f).None? && FirstFieldValue(vars, n, f).None?
      {
        assert HostKey(vars[|vars| - 1].0) != Some((n, f));
      }
    }
  }

  /** `HOST_<n>_IP` wins over `HOST_<n>_TAILSCALE_IP` in either order. */
  lemma IpWinsInEitherOrder(name: string, ip: string, tsIp: string)
    requires HostKey("HOST_" + name + "_IP") == Some((ToLower(name), IpField))
    requires HostKey("HOST_" + name + "_TAILSCALE_IP") == Some((ToLower(name), TailscaleIpField))
    ensures ParseVars([("HOST_" + name + "_IP", ip), ("HOST_" + name + "_TAILSCALE_IP", tsIp)]).hosts[ToLower(name)].ip == Some(ip)
    ensures ParseVars([("HOST_" + name + "_TAILSCALE_IP", tsIp), ("HOST_" + name + "_IP", ip)]).hosts[ToLower(name)].ip == Some(ip)
  {
    var a := [("HOST_" + name + "_IP", ip), ("HOST_" + name + "_TAILSCALE_IP", tsIp)];
    var b := [("HOST_" + name + "_TAILSCALE_IP", tsIp), ("HOST_" + name + "_IP", ip)];
    var p0 := Parsed(map[], map[]);
    assert a[..1][..0] == [] && b[..1][..0] == [];
    assert FoldVars(p0, a[..1]) == ApplyVar(FoldVars(p0, []), a[0]);
    assert FoldVars(p0, b[..1]) == ApplyVar(FoldVars(p0, []), b[0]);
    assert FoldVars(p0, a[..1]).hosts[ToLower(name)].ip == Some(ip);
    assert FoldVars(p0, b[..1]).hosts[ToLower(name)].ip == Some(tsIp);
  }

  /** An SMB server mentioned only with an unknown property fails validation. */
  lemma UnknownPropertyFails(key: string, value: string, server: string, prop: string)
    requires SmbKey(key) == Some((server, prop))
    requires prop !in {"HOST", "SHARES", "SHARE", "USERNAME", "PASSWORD", "OPTIONS"}
    ensures server in ParseVars([(key, value)]).smb
    ensures !SmbComplete(ParseVars([(key, value)]).smb[server])
  {
    assert [(key, value)][..0] == [];
    assert !StartsWith(key, "HOST_");
    assert HostKey(key).None?;
    var p0 := Parsed(map[], map[]);
    assert FoldVars(p0, [(key, value)]) == ApplyVar(FoldVars(p0, []), (key, value));
  }

  // ---------------------------------------------------------------------------
  // load_config and the default user

  /** The database overrides: each listed host with a stored config replaces the env entry. */
  function OverrideHosts(hosts: map<string, HostConfig>, names: seq<string>,
                         dbGet: string -> Result<Option<HostConfig>>): map<string, HostConfig>
  {
    if |names| == 0 then hosts
    else
      var prev := OverrideHosts(hosts, names[..|names| - 1], dbGet);
      var h := names[|names| - 1];
      match dbGet(h)
      case Ok(Some(c)) => prev[h := c]
      case _ => prev
  }

  predicate InDb(names: seq<string>, dbGet: string -> Result<Option<HostConfig>>, h: string)
  {
    h in names && dbGet(h).Ok? && dbGet(h).value.Some?
  }

  /** A stored config replaces the env one per host name; every other entry is kept. */
  lemma {:induction false} OverrideHostsMeaning(hosts: map<string, HostConfig>, names: seq<string>,
                                                 dbGet: string -> Result<Option<HostConfig>>, h: string)
    ensures h in OverrideHosts(hosts, names, dbGet) <==> h in hosts || InDb(names, dbGet, h)
    ensures InDb(names, dbGet, h) ==> OverrideHosts(hosts, names, dbGet)[h] == dbGet(h).value.value
    ensures !InDb(names, dbGet, h) && h in hosts ==> OverrideHosts(hosts, names, dbGet)[h] == hosts[h]
  {
    if |names| > 0 {
      var init := names[..|names| - 1];
      OverrideHostsMeaning(hosts, init, dbGet, h);
      assert h in names <==> h in init || h == names[|names| - 1];
    }
  }

  /**
   * `load_config`: the env config, then every host the database lists that has a
   * stored config replaces the env entry. A failing database listing leaves the
   * env config as it is.
   */
  method LoadConfig(env: Result<EnvConfig>, dbHosts: Result<seq<string>>,
                    dbGet: string -> Result<Option<HostConfig>>) returns (r: Result<EnvConfig>)
    ensures env.Err? ==> r == env
    ensures env.Ok? && dbHosts.Err? ==> r == env
    ensures env.Ok? && dbHosts.Ok? ==>
      r == Ok(env.value.(hosts := OverrideHosts(env.value.hosts, dbHosts.value, dbGet)))
  {
    if env.Err? {
      return env;
    }
    var config := env.value;
    if dbHosts.Ok? {
      var names := dbHosts.value;
      var i := 0;
      while i < |names|
        invariant 0 <= i <= |names|
        invariant config == env.value.(hosts := OverrideHosts(env.value.hosts, names[..i], dbGet))
      {
        assert names[..i + 1][..i] == names[..i];
        var stored := dbGet(names[i]);
        if stored.Ok? && stored.value.Some? {
          config := config.(hosts := config.hosts[names[i] := stored.value.value]);
        }
        i := i + 1;
      }
      assert names[..i] == names;
    }
    return Ok(config);
  }

  /** `get_default_username`: `$USER`, else `$USERNAME`, else `root`. */
  function DefaultUsername(user: Option<string>, username: Option<string>): (r: string)
    ensures user.Some? ==> r == user.value
    ensures user.None? && username.Some? ==> r == username.value
    ensures user.None? && username.None? ==> r == "root"
  {
    user.Or(username).UnwrapOr("root")
  }
}
