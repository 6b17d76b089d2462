/**
 * The decision and parsing helpers of the Docker service module: reading
 * `/etc/os-release`, the IPv6 configuration of the Docker daemon, the line
 * lists read from `docker` output, stopping and starting containers, the
 * compose command, and stop-then-remove of one container. Commands are
 * oracles from an argument list or a shell line to an exit status.
 */
module Docker {
  import opened Wrappers
  import opened Strings
  import Json
  import DockerBuild

  // ---------------------------------------------------------------------------
  // /etc/os-release

  const DEBIAN_ID := "ID=debian"
  const DEBIAN_ID_QUOTED := "ID=\"debian\""

  predicate DebianLine(l: string)
  {
    StartsWith(l, DEBIAN_ID) || StartsWith(l, DEBIAN_ID_QUOTED)
  }

  /** Some line of the os-release text starts with `ID=debian` or `ID="debian"`. */
  predicate IsDebian(osRelease: string)
  {
    exists l :: l in Lines(osRelease) && DebianLine(l)
  }

  /** A file written one line at a time is Debian exactly when one of those lines is a Debian `ID` line. */
  lemma IsDebianOfLines(ls: seq<string>)
    requires forall i :: 0 <= i < |ls| ==> PlainLine(ls[i])
    ensures IsDebian(Unlines(ls)) <==> exists i :: 0 <= i < |ls| && DebianLine(ls[i])
  {
    LinesOfUnlines(ls);
  }

  const CODENAME_KEY := "VERSION_CODENAME="
  const DEFAULT_CODENAME := "bookworm"

  /** The position of the first line starting with `p`. */
  function FirstStarting(ls: seq<string>, p: string): (r: Option<nat>)
    ensures r.Some? ==> r.value < |ls| && StartsWith(ls[r.value], p)
    ensures r.Some? ==> forall j :: 0 <= j < r.value ==> !StartsWith(ls[j], p)
    ensures r.None? <==> forall j :: 0 <= j < |ls| ==> !StartsWith(ls[j], p)
    decreases |ls|
  {
    if ls == [] then None
    else if StartsWith(ls[0], p) then Some(0)
    else
      match FirstStarting(ls[1..], p)
      case None => None
      case Some(i) => Some(i + 1)
  }

  /**
   * The Debian codename: the text after the first '=' (up to the next '=')
   * of the first `VERSION_CODENAME=` line, with surrounding double quotes
   * removed; "bookworm" when the file cannot be read (`None`) or has no
   * such line.
   */
  function Codename(osRelease: Option<string>): (r: string)
    ensures osRelease.None? ==> r == DEFAULT_CODENAME
    ensures osRelease.Some? && FirstStarting(Lines(osRelease.value), CODENAME_KEY).None? ==> r == DEFAULT_CODENAME
  {
    if osRelease.None? then DEFAULT_CODENAME
    else
      var ls := Lines(osRelease.value);
      match FirstStarting(ls, CODENAME_KEY)
      case None => DEFAULT_CODENAME
      case Some(i) =>
        var pieces := Split(ls[i], '=');
        if |pieces| >= 2 then TrimMatches(pieces[1], '"') else DEFAULT_CODENAME
  }

  function Quote(quoted: bool): string
  {
    if quoted then "\"" else ""
  }

  /** A value without `c` at its ends, wrapped in one `c` on each side, loses exactly that pair. */
  lemma TrimWrapped(v: string, c: char)
    requires v == [] || (v[0] != c && v[|v| - 1] != c)
    ensures TrimMatches([c] + v + [c], c) == v
  {
    var s := [c] + v + [c];
    var t := v + [c];
    assert s[1..] == t;
    if v == [] {
      assert t == [c] && t[1..] == [];
      assert TrimMatches(t, c) == TrimMatches([], c);
    } else {
      assert t[0] == v[0] && t[|t| - 1] == c && t[..|t| - 1] == v;
      assert TrimMatches(t, c) == TrimMatches(v, c);
    }
    assert TrimMatches(s, c) == TrimMatches(t, c);
  }

  /** A value without quotes at its ends, optionally wrapped in one pair, loses exactly that pair. */
  lemma TrimQuotes(v: string, quoted: bool)
    requires v == [] || (v[0] != '"' && v[|v| - 1] != '"')
    ensures TrimMatches(Quote(quoted) + v + Quote(quoted), '"') == v
  {
    if quoted {
      TrimWrapped(v, '"');
    } else {
      assert Quote(quoted) + v + Quote(quoted) == v;
    }
  }

  /** The key and a value without '=' are split back apart at '='. */
  lemma CodenameLineSplit(w: string)
    requires '=' !in w
    ensures Split(CODENAME_KEY + w, '=') == ["VERSION_CODENAME", w]
  {
    var parts := ["VERSION_CODENAME", w];
    assert Join(parts[1..], "=") == w;
    assert Join(parts, "=") == CODENAME_KEY + w;
    SplitJoin(parts, '=');
  }

  /** Naming the first line that starts with `p`. */
  lemma FirstStartingAt(ls: seq<string>, p: string, k: nat)
    requires k < |ls| && StartsWith(ls[k], p)
    requires forall j :: 0 <= j < k ==> !StartsWith(ls[j], p)
    ensures FirstStarting(ls, p) == Some(k)
  {
  }

  lemma PlainAround(before: seq<string>, line: string, after: seq<string>)
    requires forall i :: 0 <= i < |before| ==> PlainLine(before[i])
    requires forall i :: 0 <= i < |after| ==> PlainLine(after[i])
    requires PlainLine(line)
    ensures var ls := before + [line] + after;
            forall i :: 0 <= i < |ls| ==> PlainLine(ls[i])
  {
    var ls := before + [line] + after;
    forall i | 0 <= i < |ls| ensures PlainLine(ls[i]) {
      if i < |before| {
        assert ls[i] == before[i];
      } else if i > |before| {
        assert ls[i] == after[i - |before| - 1];
      }
    }
  }

  /** The `VERSION_CODENAME=` line for `v`, quoted or not. */
  function CodenameLine(v: string, quoted: bool): string
  {
    CODENAME_KEY + Quote(quoted) + v + Quote(quoted)
  }

  /** The line fits in a file, starts with the key, and its codename value is `v`. */
  lemma CodenameLineFacts(v: string, quoted: bool)
    requires '=' !in v && '\n' !in v && '"' !in v && '\r' !in v
    ensures var l := CodenameLine(v, quoted);
            PlainLine(l) && StartsWith(l, CODENAME_KEY) &&
            (var pieces := Split(l, '='); |pieces| >= 2 && TrimMatches(pieces[1], '"') == v)
  {
    var w := Quote(quoted) + v + Quote(quoted);
    var l := CodenameLine(v, quoted);
    assert l == CODENAME_KEY + w;
    assert '=' !in w && '\n' !in w && '\r' !in w;
    assert l[..|CODENAME_KEY|] == CODENAME_KEY;
    assert '\n' !in l;
    CodenameLineSplit(w);
    TrimQuotes(v, quoted);
  }

  lemma CodenameAt(s: string, k: nat, v: string)
    requires k < |Lines(s)| && FirstStarting(Lines(s), CODENAME_KEY) == Some(k)
    requires var pieces := Split(Lines(s)[k], '='); |pieces| >= 2 && TrimMatches(pieces[1], '"') == v
    ensures Codename(Some(s)) == v
  {
  }

  /**
   * Reading back a codename: in a file written one line at a time whose
   * first `VERSION_CODENAME=` line carries `v` (quoted or not), the
   * codename is `v`.
   */
  lemma CodenameRoundTrip(before: seq<string>, v: string, quoted: bool, after: seq<string>)
    requires forall i :: 0 <= i < |before| ==> PlainLine(before[i]) && !StartsWith(before[i], CODENAME_KEY)
    requires forall i :: 0 <= i < |after| ==> PlainLine(after[i])
    requires '=' !in v && '\n' !in v && '"' !in v && '\r' !in v
    ensures Codename(Some(Unlines(before + [CodenameLine(v, quoted)] + after))) == v
  {
    var line := CodenameLine(v, quoted);
    CodenameLineFacts(v, quoted);
    PlainAround(before, line, after);
    var ls := before + [line] + after;
    LinesOfUnlines(ls);
    forall j | 0 <= j < |before| ensures !StartsWith(ls[j], CODENAME_KEY) {
      assert ls[j] == before[j];
    }
    assert ls[|before|] == line;
    FirstStartingAt(ls, CODENAME_KEY, |before|);
    CodenameAt(Unlines(ls), |before|, v);
  }

  // ---------------------------------------------------------------------------
  // IPv6 in /etc/docker/daemon.json

  const IPV6_SUBNET := "fd00:172:20::/64"
  const IPV6_KEY := "ipv6"
  const CIDR_KEY := "fixed-cidr-v6"
  const IPV6_QUOTED := "\"ipv6\""
  const PARSE_FAILED := "Failed to parse /etc/docker/daemon.json"

  /**
   * The "already enabled" test as written: the daemon file exists and its
   * text contains `"ipv6"` and, anywhere, `true`. Failing to look the file
   * up or to read it is an error.
   */
  function Ipv6EnabledAsWritten(present: Result<bool>, content: Result<string>): (r: Result<bool>)
    ensures r.Err? <==> present.Err? || (present == Ok(true) && content.Err?)
    ensures r == Ok(true) ==> present == Ok(true) && content.Ok? && Contains(content.value, IPV6_QUOTED)
  {
    match present
    case Err(m) => Err(m)
    case Ok(false) => Ok(false)
    case Ok(true) =>
      match content
      case Err(m) => Err(m)
      case Ok(c) => Ok(Contains(c, IPV6_QUOTED) && Contains(c, "true"))
  }

  /** The two-member object the daemon file holds when IPv6 is turned off but some other option is on. */
  const IPV6_OFF_TEXT := "{\"ipv6\": false, \"debug\": true}"
  const IPV6_OFF: Json.Value := Json.Object([(IPV6_KEY, Json.Bool(false)), ("debug", Json.Bool(true))])

  /** The test as written reports IPv6 enabled for a file that turns it off, so it is never configured. */
  lemma Ipv6FalsePositive()
    ensures Ipv6EnabledAsWritten(Ok(true), Ok(IPV6_OFF_TEXT)) == Ok(true)
    ensures !Ipv6Set(Some(IPV6_OFF))
  {
    var pre := "{";
    var mid := ": false, \"debug\": ";
    assert IPV6_OFF_TEXT == pre + "\"ipv6\"" + (mid + "true}");
    ContainsMiddle(pre, "\"ipv6\"", mid + "true}");
    assert IPV6_OFF_TEXT == (pre + "\"ipv6\"" + mid) + "true" + "}";
    ContainsMiddle(pre + "\"ipv6\"" + mid, "true", "}");
  }

  /** The intended test on the parsed file: its `ipv6` member is `true`. */
  predicate Ipv6Set(parsed: Option<Json.Value>)
  {
    parsed.Some? && Json.GetKey(parsed.value, IPV6_KEY) == Some(Json.Bool(true))
  }

  /** `object[key] = v`: the member is replaced where it stands, or appended. */
  function SetMember(members: seq<(string, Json.Value)>, key: string, v: Json.Value): (r: seq<(string, Json.Value)>)
    ensures Json.Member(r, key) == Some(v)
    ensures forall k :: k != key ==> Json.Member(r, k) == Json.Member(members, k)
    decreases |members|
  {
    if members == [] then [(key, v)]
    else if members[0].0 == key then [(key, v)] + members[1..]
    else
      var rest := SetMember(members[1..], key, v);
      assert ([members[0]] + rest)[1..] == rest;
      [members[0]] + rest
  }

  /** `value[key] = v` on a JSON value: null becomes an object first; any other non-object panics. */
  function SetKey(value: Json.Value, key: string, v: Json.Value): (r: Option<Json.Value>)
    ensures r.Some? <==> value.Null? || value.Object?
    ensures r.Some? ==> r.value.Object? && Json.GetKey(r.value, key) == Some(v)
    ensures r.Some? && value.Object? ==> forall k :: k != key ==> Json.GetKey(r.value, k) == Json.GetKey(value, k)
    ensures r.Some? && value.Null? ==> r.value == Json.Object([(key, v)])
  {
    match value
    case Null => Some(Json.Object(SetMember([], key, v)))
    case Object(ms) => Some(Json.Object(SetMember(ms, key, v)))
    case _ => None
  }

  /** How `update_daemon_json_rust` ends on the parsed file. */
  datatype DaemonUpdate = Updated(config: Json.Value) | UpdateFailed(msg: string) | Panicked

  /**
   * The key update of `update_daemon_json_rust`: `None` is a file that does
   * not parse. On success `ipv6` is `true`, `fixed-cidr-v6` is the subnet
   * and every other member is as it was.
   */
  function UpdateDaemon(parsed: Option<Json.Value>, subnet: string): (r: DaemonUpdate)
    ensures parsed.None? <==> r == UpdateFailed(PARSE_FAILED)
    ensures r.Panicked? <==> parsed.Some? && !parsed.value.Null? && !parsed.value.Object?
    ensures r.Updated? ==> Ipv6Set(Some(r.config))
    ensures r.Updated? ==> Json.GetKey(r.config, CIDR_KEY) == Some(Json.Str(subnet))
    ensures r.Updated? && parsed.value.Object? ==>
              forall k :: k != IPV6_KEY && k != CIDR_KEY ==> Json.GetKey(r.config, k) == Json.GetKey(parsed.value, k)
  {
    if parsed.None? then UpdateFailed(PARSE_FAILED)
    else
      match SetKey(parsed.value, IPV6_KEY, Json.Bool(true))
      case None => Panicked
      case Some(a) =>
        var b := SetKey(a, CIDR_KEY, Json.Str(subnet));
        assert b.Some?;
        assert Json.GetKey(b.value, IPV6_KEY) == Json.GetKey(a, IPV6_KEY);
        Updated(b.value)
  }

  /** The configuration written when there is none, or when the update fails. */
  function FreshDaemon(subnet: string): (r: Json.Value)
    ensures Ipv6Set(Some(r)) && Json.GetKey(r, CIDR_KEY) == Some(Json.Str(subnet))
  {
    var ms := [(IPV6_KEY, Json.Bool(true)), (CIDR_KEY, Json.Str(subnet))];
    assert |IPV6_KEY| != |CIDR_KEY|;
    Json.MemberAt(ms, 1);
    Json.Object(ms)
  }

  /** What `configure_ipv6` does with the daemon file. */
  datatype Ipv6Outcome =
    | NotLinux
    | AlreadyEnabled
    | Written(config: Json.Value, backedUp: bool)
    | Aborted
    | Failed(msg: string)

  /**
   * The outcomes of the executor calls `configure_ipv6` makes, each passed
   * on with `?` unless said otherwise: `isLinux`; `present` and `read` for
   * the "already enabled" test; `mkdir` for `sudo mkdir -p /etc/docker`;
   * `presentAgain` for the second look-up; `reread` for the read that starts
   * `update_daemon_json_rust` and `update` for its write, read-back and
   * `sudo mv`, both caught by the fallback; `backup` for the fallback's
   * `sudo cp`; `write` and `mv` for putting a fresh file in place. Commands
   * run with `execute_interactive` fail on a non-zero exit.
   */
  datatype Ipv6Calls = Ipv6Calls(isLinux: Result<bool>, present: Result<bool>, read: Result<()>,
                                 mkdir: Result<()>, presentAgain: Result<bool>,
                                 reread: Result<()>, update: Result<()>,
                                 backup: Result<()>, write: Result<()>, mv: Result<()>)

  /** The "already enabled" test has passed through without error and found IPv6 not set. */
  predicate Configuring(calls: Ipv6Calls, parsed: Option<Json.Value>)
  {
    calls.isLinux == Ok(true) && calls.present.Ok? && (calls.present.value ==> calls.read.Ok? && !Ipv6Set(parsed))
  }

  /** Writing the fresh configuration to `/tmp/daemon.json` and moving it into place. */
  function WriteFresh(calls: Ipv6Calls, backedUp: bool): (r: Ipv6Outcome)
    ensures r.Written? <==> calls.write.Ok? && calls.mv.Ok?
    ensures r.Written? ==> r == Written(FreshDaemon(IPV6_SUBNET), backedUp)
    ensures !r.Written? ==> r == Failed(if calls.write.Err? then calls.write.msg else calls.mv.msg)
  {
    if calls.write.Err? then Failed(calls.write.msg)
    else if calls.mv.Err? then Failed(calls.mv.msg)
    else Written(FreshDaemon(IPV6_SUBNET), backedUp)
  }

  /** The fallback: back the old file up, then write the fresh configuration. */
  function BackUpAndWrite(calls: Ipv6Calls): (r: Ipv6Outcome)
    ensures calls.backup.Err? ==> r == Failed(calls.backup.msg)
    ensures calls.backup.Ok? ==> r == WriteFresh(calls, true)
  {
    if calls.backup.Err? then Failed(calls.backup.msg) else WriteFresh(calls, true)
  }

  /**
   * `configure_ipv6` up to the daemon restart, with the "already enabled"
   * test on the parsed file: off Linux nothing is done; a missing file is
   * created; an existing one is updated, or backed up and replaced when the
   * update fails. Every failure the source passes on with `?` is the
   * outcome, and no later step is taken.
   */
  function ConfigureIpv6(calls: Ipv6Calls, parsed: Option<Json.Value>): (r: Ipv6Outcome)
    ensures calls.isLinux.Err? ==> r == Failed(calls.isLinux.msg)
    ensures r.NotLinux? <==> calls.isLinux == Ok(false)
    ensures calls.isLinux == Ok(true) && calls.present.Err? ==> r == Failed(calls.present.msg)
    ensures calls.isLinux == Ok(true) && calls.present == Ok(true) && calls.read.Err? ==> r == Failed(calls.read.msg)
    ensures r.AlreadyEnabled? <==> calls.isLinux == Ok(true) && calls.present == Ok(true) && calls.read.Ok? && Ipv6Set(parsed)
    ensures Configuring(calls, parsed) && calls.mkdir.Err? ==> r == Failed(calls.mkdir.msg)
    ensures Configuring(calls, parsed) && calls.mkdir.Ok? && calls.presentAgain.Err? ==> r == Failed(calls.presentAgain.msg)
    ensures Configuring(calls, parsed) && calls.mkdir.Ok? && calls.presentAgain == Ok(false) ==> r == WriteFresh(calls, false)
    ensures r.Aborted? <==> Configuring(calls, parsed) && calls.mkdir.Ok? && calls.presentAgain == Ok(true) &&
                            calls.reread.Ok? && UpdateDaemon(parsed, IPV6_SUBNET).Panicked?
    ensures Configuring(calls, parsed) && calls.mkdir.Ok? && calls.presentAgain == Ok(true) && !r.Aborted? ==>
              r == if calls.reread.Ok? && UpdateDaemon(parsed, IPV6_SUBNET).Updated? && calls.update.Ok?
                   then Written(UpdateDaemon(parsed, IPV6_SUBNET).config, false)
                   else BackUpAndWrite(calls)
    ensures r.Written? ==> Ipv6Set(Some(r.config)) && Json.GetKey(r.config, CIDR_KEY) == Some(Json.Str(IPV6_SUBNET))
    ensures r.Written? ==> Configuring(calls, parsed) && calls.mkdir.Ok? && calls.presentAgain.Ok? &&
                           (if r.backedUp || !calls.presentAgain.value then calls.write.Ok? && calls.mv.Ok?
                            else calls.reread.Ok? && calls.update.Ok?)
    ensures r.Written? && r.backedUp ==> calls.presentAgain == Ok(true) && calls.backup.Ok?
  {
    if calls.isLinux.Err? then Failed(calls.isLinux.msg)
    else if !calls.isLinux.value then NotLinux
    else if calls.present.Err? then Failed(calls.present.msg)
    else if calls.present.value && calls.read.Err? then Failed(calls.read.msg)
    else if calls.present.value && Ipv6Set(parsed) then AlreadyEnabled
    else if calls.mkdir.Err? then Failed(calls.mkdir.msg)
    else if calls.presentAgain.Err? then Failed(calls.presentAgain.msg)
    else if !calls.presentAgain.value then WriteFresh(calls, false)
    else if calls.reread.Err? then BackUpAndWrite(calls)
    else
      match UpdateDaemon(parsed, IPV6_SUBNET)
      case Updated(c) => if calls.update.Ok? then Written(c, false) else BackUpAndWrite(calls)
      case UpdateFailed(_) => BackUpAndWrite(calls)
      case Panicked => Aborted
  }

  /** Running the configuration again on the file it wrote finds IPv6 already enabled. */
  lemma ConfigureIpv6Idempotent(calls: Ipv6Calls, parsed: Option<Json.Value>, again: Ipv6Calls)
    requires ConfigureIpv6(calls, parsed).Written?
    requires again.isLinux == Ok(true) && again.present == Ok(true) && again.read.Ok?
    ensures ConfigureIpv6(again, Some(ConfigureIpv6(calls, parsed).config)) == AlreadyEnabled
  {
  }

  /** Updating an existing object keeps every member other than the two IPv6 keys. */
  lemma ConfigureIpv6KeepsOptions(calls: Ipv6Calls, parsed: Option<Json.Value>, k: string)
    requires parsed.Some? && parsed.value.Object? && !Ipv6Set(parsed)
    requires calls.isLinux == Ok(true) && calls.present.Ok? && (calls.present.value ==> calls.read.Ok?)
    requires calls.mkdir.Ok? && calls.presentAgain == Ok(true) && calls.reread.Ok? && calls.update.Ok?
    requires k != IPV6_KEY && k != CIDR_KEY
    ensures ConfigureIpv6(calls, parsed).Written? && !ConfigureIpv6(calls, parsed).backedUp
    ensures Json.GetKey(ConfigureIpv6(calls, parsed).config, k) == Json.GetKey(parsed.value, k)
  {
  }

  // ---------------------------------------------------------------------------
  // Line lists read from docker output

  predicate Blank(l: string)
  {
    Trim(l) == ""
  }

  /** `filter(|l| !l.trim().is_empty())` over lines. */
  function KeepNonBlank(ls: seq<string>): seq<string>
  {
    KeepBy(ls, Blank)
  }

  /** The lines `drop` does not reject, in order. */
  function KeepBy(ls: seq<string>, drop: string -> bool): seq<string>
    decreases |ls|
  {
    if ls == [] then []
    else (if drop(ls[0]) then [] else [ls[0]]) + KeepBy(ls[1..], drop)
  }

  /** Every kept line is a non-blank line of the input. */
  lemma KeepNonBlankSound(ls: seq<string>)
    ensures forall i :: 0 <= i < |KeepNonBlank(ls)| ==> !Blank(KeepNonBlank(ls)[i]) && KeepNonBlank(ls)[i] in ls
  {
    KeepBySound(ls, Blank);
  }

  /** No non-blank line is lost. */
  lemma KeepNonBlankComplete(ls: seq<string>, l: string)
    requires l in ls && !Blank(l)
    ensures l in KeepNonBlank(ls)
  {
    KeepByComplete(ls, Blank, l);
  }

  /** Filtering distributes over concatenation, so the kept lines are in their original order. */
  lemma KeepNonBlankConcat(a: seq<string>, b: seq<string>)
    ensures KeepNonBlank(a + b) == KeepNonBlank(a) + KeepNonBlank(b)
  {
    KeepByConcat(a, b, Blank);
  }

  lemma {:induction false} KeepBySound(ls: seq<string>, drop: string -> bool)
    ensures forall i :: 0 <= i < |KeepBy(ls, drop)| ==> !drop(KeepBy(ls, drop)[i]) && KeepBy(ls, drop)[i] in ls
    decreases |ls|
  {
    if ls != [] {
      KeepBySound(ls[1..], drop);
    }
  }

  lemma {:induction false} KeepByComplete(ls: seq<string>, drop: string -> bool, l: string)
    requires l in ls && !drop(l)
    ensures l in KeepBy(ls, drop)
    decreases |ls|
  {
    if ls[0] != l {
      KeepByComplete(ls[1..], drop, l);
    }
  }

  lemma {:induction false} KeepByConcat(a: seq<string>, b: seq<string>, drop: string -> bool)
    ensures KeepBy(a + b, drop) == KeepBy(a, drop) + KeepBy(b, drop)
    decreases |a|
  {
    if a == [] {
      assert a + b == b;
    } else {
      assert (a + b)[1..] == a[1..] + b;
      assert (a + b)[0] == a[0];
      KeepByConcat(a[1..], b, drop);
    }
  }

  lemma {:induction false} KeepByAll(ls: seq<string>, drop: string -> bool)
    requires forall i :: 0 <= i < |ls| ==> !drop(ls[i])
    ensures KeepBy(ls, drop) == ls
    decreases |ls|
  {
    if ls != [] {
      KeepByAll(ls[1..], drop);
    }
  }

  /** The non-blank lines of command output, unchanged and in order. */
  function NonBlankLines(out: string): seq<string>
  {
    KeepNonBlank(Lines(out))
  }

  /** Names printed one per line are read back exactly. */
  lemma {:induction false} ListRoundTrip(names: seq<string>)
    requires forall i :: 0 <= i < |names| ==> PlainLine(names[i]) && !Blank(names[i])
    ensures NonBlankLines(Unlines(names)) == names
  {
    LinesOfUnlines(names);
    KeepAll(names);
  }

  lemma KeepAll(ls: seq<string>)
    requires forall i :: 0 <= i < |ls| ==> !Blank(ls[i])
    ensures KeepNonBlank(ls) == ls
  {
    KeepByAll(ls, Blank);
  }

  /** A blank line among the printed names is skipped without disturbing the others. */
  lemma BlankLineSkipped(a: seq<string>, b: string, c: seq<string>)
    requires Blank(b)
    ensures KeepNonBlank(a + [b] + c) == KeepNonBlank(a) + KeepNonBlank(c)
  {
    KeepNonBlankConcat(a + [b], c);
    KeepNonBlankConcat(a, [b]);
    assert KeepBy([b][1..], Blank) == [];
    assert KeepNonBlank([b]) == [];
    assert KeepNonBlank(a + [b]) == KeepNonBlank(a);
  }

  /** `list_volumes`, `list_containers`, `get_bind_mounts`: a failed command is an error, else its non-blank lines. */
  function ListOf(out: Result<string>): (r: Result<seq<string>>)
    ensures r.Err? <==> out.Err?
    ensures r.Ok? ==> forall i :: 0 <= i < |r.value| ==> !Blank(r.value[i]) && r.value[i] in Lines(out.value)
    ensures out.Err? ==> r == Err(out.msg)
    ensures out.Ok? ==> r == Ok(NonBlankLines(out.value))
  {
    match out
    case Err(m) => Err(m)
    case Ok(s) => KeepNonBlankSound(Lines(s)); Ok(NonBlankLines(s))
  }

  // ---------------------------------------------------------------------------
  // Commands with a sudo retry

  /** The commands issued and how the sequence ended. */
  datatype Attempt<C> = Attempt(issued: seq<C>, result: Result<()>)

  /**
   * Run a command; when it runs but does not succeed, run its sudo form;
   * when that does not succeed either, fail with `failMsg`. A command that
   * cannot be started is an error at once.
   */
  function Retry<C>(cmd: C, sudoCmd: C, run: C -> Result<bool>, failMsg: string): (a: Attempt<C>)
    ensures a.result.Ok? <==> run(cmd) == Ok(true) || (run(cmd) == Ok(false) && run(sudoCmd) == Ok(true))
    ensures |a.issued| >= 1 && a.issued[0] == cmd
    ensures |a.issued| == 2 <==> run(cmd) == Ok(false)
    ensures |a.issued| == 2 ==> a.issued[1] == sudoCmd
    ensures |a.issued| <= 2
    ensures a.result.Err? && run(cmd) == Ok(false) && run(sudoCmd).Ok? ==> a.result.msg == failMsg
  {
    match run(cmd)
    case Err(m) => Attempt([cmd], Err(m))
    case Ok(true) => Attempt([cmd], Ok(()))
    case Ok(false) =>
      match run(sudoCmd)
      case Err(m) => Attempt([cmd, sudoCmd], Err(m))
      case Ok(ok) => Attempt([cmd, sudoCmd], if ok then Ok(()) else Err(failMsg))
  }

  const STOP_ALL_FAILED := "Failed to stop containers"
  const START_ALL_FAILED := "Failed to start containers"

  function StopLine(ids: seq<string>): string
  {
    "docker stop " + Join(ids, " ")
  }

  function StartLine(ids: seq<string>): string
  {
    "docker start " + Join(ids, " ")
  }

  /**
   * `stop_all_containers`: the ids are the non-blank lines of `docker ps -q`;
   * none means no command; otherwise they are stopped in one command line.
   */
  function StopAllContainers(ps: Result<string>, shell: string -> Result<bool>): (r: Result<seq<string>>)
    ensures ps.Err? ==> r == Err(ps.msg)
    ensures r.Ok? ==> ps.Ok? && r.value == NonBlankLines(ps.value)
    ensures ps.Ok? && NonBlankLines(ps.value) == [] ==> r == Ok([])
    ensures ps.Ok? && NonBlankLines(ps.value) != [] ==>
              var ids := NonBlankLines(ps.value);
              && (r.Ok? <==> shell(StopLine(ids)) == Ok(true)
                             || (shell(StopLine(ids)) == Ok(false) && shell("sudo " + StopLine(ids)) == Ok(true)))
              && (shell(StopLine(ids)) == Ok(false) && shell("sudo " + StopLine(ids)) == Ok(false) ==>
                    r == Err(STOP_ALL_FAILED))
  {
    match ps
    case Err(m) => Err(m)
    case Ok(out) =>
      var ids := NonBlankLines(out);
      if ids == [] then Ok([])
      else
        var a := Retry(StopLine(ids), "sudo " + StopLine(ids), shell, STOP_ALL_FAILED);
        if a.result.Ok? then Ok(ids) else Err(a.result.msg)
  }

  /** `start_containers`: nothing to do for no ids, else one command line starting them all. */
  function StartContainers(ids: seq<string>, shell: string -> Result<bool>): (r: Result<()>)
    ensures ids == [] ==> r.Ok?
    ensures ids != [] ==>
              (r.Ok? <==>
                 (shell(StartLine(ids)) == Ok(true) ||
                  (shell(StartLine(ids)) == Ok(false) && shell("sudo " + StartLine(ids)) == Ok(true))))
  {
    if ids == [] then Ok(())
    else Retry(StartLine(ids), "sudo " + StartLine(ids), shell, START_ALL_FAILED).result
  }

  /** The stop and start command lines name exactly the given ids, in order, when no id contains a space. */
  lemma StopStartLinesName(ids: seq<string>)
    requires ids != []
    requires forall i :: 0 <= i < |ids| ==> ' ' !in ids[i]
    ensures Split(StopLine(ids), ' ') == ["docker", "stop"] + ids
    ensures Split(StartLine(ids), ' ') == ["docker", "start"] + ids
  {
    var stop := ["docker", "stop"] + ids;
    var start := ["docker", "start"] + ids;
    JoinCons("stop", ids, " ");
    JoinCons("docker", ["stop"] + ids, " ");
    assert ["docker"] + (["stop"] + ids) == stop;
    assert Join(stop, " ") == StopLine(ids);
    JoinCons("start", ids, " ");
    JoinCons("docker", ["start"] + ids, " ");
    assert ["docker"] + (["start"] + ids) == start;
    assert Join(start, " ") == StartLine(ids);
    forall i | 0 <= i < |stop| ensures ' ' !in stop[i] {
      if i >= 2 { assert stop[i] == ids[i - 2]; }
    }
    forall i | 0 <= i < |start| ensures ' ' !in start[i] {
      if i >= 2 { assert start[i] == ids[i - 2]; }
    }
    SplitJoin(stop, ' ');
    SplitJoin(start, ' ');
  }

  // ---------------------------------------------------------------------------
  // docker compose

  const COMPOSE_PLUGIN := "docker compose"
  const COMPOSE_STANDALONE := "docker-compose"
  const NO_COMPOSE := "Neither 'docker compose' nor 'docker-compose' is available"

  /**
   * `get_compose_command`: the plugin when `docker` exists and
   * `docker compose version` succeeds, else the standalone binary when it
   * exists, else an error. A failed existence check is an error.
   */
  function ComposeCommand(commandExists: string -> Result<bool>, version: DockerBuild.RunStatus): (r: Result<string>)
    ensures r == Ok(COMPOSE_PLUGIN) <==> commandExists("docker") == Ok(true) && version == DockerBuild.Ran(true)
    ensures r == Ok(COMPOSE_STANDALONE) <==>
              commandExists("docker").Ok? && !(commandExists("docker") == Ok(true) && version == DockerBuild.Ran(true)) &&
              commandExists(COMPOSE_STANDALONE) == Ok(true)
    ensures r.Ok? ==> r.value == COMPOSE_PLUGIN || r.value == COMPOSE_STANDALONE
    ensures (commandExists("docker").Ok? && !(commandExists("docker") == Ok(true) && version == DockerBuild.Ran(true)) &&
             commandExists(COMPOSE_STANDALONE) == Ok(false)) ==> r == Err(NO_COMPOSE)
    ensures commandExists("docker").Err? ==> r.Err?
  {
    match commandExists("docker")
    case Err(m) => Err(m)
    case Ok(hasDocker) =>
      if hasDocker && version == DockerBuild.Ran(true) then Ok(COMPOSE_PLUGIN)
      else
        match commandExists(COMPOSE_STANDALONE)
        case Err(m) => Err(m)
        case Ok(true) => Ok(COMPOSE_STANDALONE)
        case Ok(false) => Err(NO_COMPOSE)
  }

  /** When the plugin works, whether the standalone binary exists makes no difference. */
  lemma ComposePrefersPlugin(e1: string -> Result<bool>, e2: string -> Result<bool>, version: DockerBuild.RunStatus)
    requires e1("docker") == Ok(true) && e2("docker") == Ok(true) && version == DockerBuild.Ran(true)
    ensures ComposeCommand(e1, version) == ComposeCommand(e2, version) == Ok(COMPOSE_PLUGIN)
  {
  }

  // ---------------------------------------------------------------------------
  // Stopping and removing one container

  function StopFailed(name: string): string
  {
    "Failed to stop container: " + name
  }

  function RemoveFailed(name: string): string
  {
    "Failed to remove container: " + name
  }

  /** `stop_container`: `docker stop <name>`, retried with sudo. */
  function StopContainer(name: string, run: seq<string> -> Result<bool>): (a: Attempt<seq<string>>)
    ensures |a.issued| >= 1 && a.issued[0] == ["docker", "stop", name]
    ensures a.result.Ok? <==> run(["docker", "stop", name]) == Ok(true) ||
                              (run(["docker", "stop", name]) == Ok(false) && run(["sudo", "docker", "stop", name]) == Ok(true))
  {
    Retry(["docker", "stop", name], ["sudo", "docker", "stop", name], run, StopFailed(name))
  }

  /** `remove_container`: `docker rm <name>`, retried with sudo. */
  function RemoveContainer(name: string, run: seq<string> -> Result<bool>): (a: Attempt<seq<string>>)
    ensures |a.issued| >= 1 && a.issued[0] == ["docker", "rm", name]
    ensures a.result.Ok? <==> run(["docker", "rm", name]) == Ok(true) ||
                              (run(["docker", "rm", name]) == Ok(false) && run(["sudo", "docker", "rm", name]) == Ok(true))
  {
    Retry(["docker", "rm", name], ["sudo", "docker", "rm", name], run, RemoveFailed(name))
  }

  /** `stop_and_remove_container`: stop (whatever its outcome), then remove. */
  function StopAndRemove(name: string, run: seq<string> -> Result<bool>): (a: Attempt<seq<string>>)
    ensures |a.issued| >= 1 && a.issued[0] == ["docker", "stop", name]
    ensures a.result == RemoveContainer(name, run).result
  {
    var stop := StopContainer(name, run);
    var rm := RemoveContainer(name, run);
    Attempt(stop.issued + rm.issued, rm.result)
  }

  /** The outcome of the stop commands never matters: runners that agree on the remove commands agree on the result. */
  lemma StopOutcomeIgnored(name: string, run1: seq<string> -> Result<bool>, run2: seq<string> -> Result<bool>)
    requires run1(["docker", "rm", name]) == run2(["docker", "rm", name])
    requires run1(["sudo", "docker", "rm", name]) == run2(["sudo", "docker", "rm", name])
    ensures StopAndRemove(name, run1).result == StopAndRemove(name, run2).result
  {
  }

  /** The remove commands always follow the stop commands. */
  lemma StopBeforeRemove(name: string, run: seq<string> -> Result<bool>)
    ensures var a := StopAndRemove(name, run);
            var k := |StopContainer(name, run).issued|;
            k < |a.issued| && a.issued[k] == ["docker", "rm", name] &&
            forall i :: 0 <= i < k ==> a.issued[i] == ["docker", "stop", name] || a.issued[i] == ["sudo", "docker", "stop", name]
  {
    var s := StopContainer(name, run);
    var a := StopAndRemove(name, run);
    assert a.issued == s.issued + RemoveContainer(name, run).issued;
  }
}
