/**
 * Writing and removing one host's `HOST_<NAME>_<FIELD>=value` lines in the
 * `.env` file, as transformations of its line sequence.
 */
module EnvFile {
  import opened Wrappers
  import opened Strings
  import opened Config

  /** Every line of host `hostname` starts with this, after trimming. */
  function HostPrefix(hostname: string): string
  {
    "HOST_" + ToUpper(hostname) + "_"
  }

  predicate IsComment(line: string)
  {
    StartsWith(Trim(line), "#")
  }

  predicate IsHostLine(line: string, hostname: string)
  {
    StartsWith(Trim(line), HostPrefix(hostname))
  }

  /** `Iterator::filter` / `Vec::retain` on lines. */
  function Filter(lines: seq<string>, keep: string -> bool): (r: seq<string>)
    ensures |r| <= |lines|
    ensures forall l :: l in r <==> l in lines && keep(l)
  {
    if |lines| == 0 then []
    else
      var init := Filter(lines[..|lines| - 1], keep);
      var last := lines[|lines| - 1];
      assert forall l :: l in lines <==> l in lines[..|lines| - 1] || l == last;
      init + (if keep(last) then [last] else [])
  }

  /** Filtering distributes over concatenation, so relative order is kept. */
  lemma {:induction false} FilterAppend(a: seq<string>, b: seq<string>, keep: string -> bool)
    ensures Filter(a + b, keep) == Filter(a, keep) + Filter(b, keep)
  {
    if |b| == 0 {
      assert a + b == a;
    } else {
      assert (a + b)[..|a + b| - 1] == a + b[..|b| - 1];
      assert (a + b)[|a + b| - 1] == b[|b| - 1];
      FilterAppend(a, b[..|b| - 1], keep);
    }
  }

  lemma FilterSingle(l: string, keep: string -> bool)
    ensures Filter([l], keep) == if keep(l) then [l] else []
  {
    assert [l][..0] == [];
  }

  /** The write keeps the lines that are neither comments nor this host's. */
  function KeptOnWrite(lines: seq<string>, hostname: string): seq<string>
  {
    Filter(lines, l => !IsComment(l) && !IsHostLine(l, hostname))
  }

  /** The remove keeps comments and every line that is not this host's. */
  function KeptOnRemove(lines: seq<string>, hostname: string): seq<string>
  {
    Filter(lines, l => IsComment(l) || !IsHostLine(l, hostname))
  }

  function OptLine(key: string, v: Option<string>): seq<string>
  {
    if v.Some? then [key + "=" + v.value] else []
  }

  function FieldKey(hostname: string, f: HostField): string
  {
    "HOST_" + ToUpper(hostname) + FieldSuffix(f)
  }

  /** The host's own lines, one per present field, in the order IP, HOSTNAME, TAILSCALE, BACKUP_PATH. */
  function HostLines(hostname: string, c: HostConfig): (r: seq<string>)
    ensures |r| == |OptLine("", c.ip)| + |OptLine("", c.hostname)| + |OptLine("", c.tailscale)| + |OptLine("", c.backupPath)|
  {
    OptLine(FieldKey(hostname, IpField), c.ip)
    + OptLine(FieldKey(hostname, HostnameField), c.hostname)
    + OptLine(FieldKey(hostname, TailscaleField), c.tailscale)
    + OptLine(FieldKey(hostname, BackupPathField), c.backupPath)
  }

  /** The existing file's lines; a missing file reads as empty. */
  function ExistingLines(content: Option<string>): seq<string>
  {
    Lines(content.UnwrapOr(""))
  }

  /** The line sequence the write produces. */
  function WrittenLines(content: Option<string>, hostname: string, c: HostConfig): seq<string>
  {
    KeptOnWrite(ExistingLines(content), hostname) + HostLines(hostname, c)
  }

  /**
   * `write_host_to_env_file`: `content` is the file, `None` when it does not
   * exist; the result is what is written back.
   */
  method WriteHostToEnvFile(content: Option<string>, hostname: string, config: HostConfig) returns (written: string)
    ensures written == Join(WrittenLines(content, hostname, config), "\n") + "\n"
    ensures EndsWith(written, "\n")
  {
    var lines := ExistingLines(content);
    lines := KeptOnWrite(lines, hostname);
    // one push per present field, in the order IP, HOSTNAME, TAILSCALE, BACKUP_PATH
    var own := OptLine(FieldKey(hostname, IpField), config.ip);
    own := own + OptLine(FieldKey(hostname, HostnameField), config.hostname);
    own := own + OptLine(FieldKey(hostname, TailscaleField), config.tailscale);
    own := own + OptLine(FieldKey(hostname, BackupPathField), config.backupPath);
    lines := lines + own;
    written := Join(lines, "\n") + "\n";
  }

  /**
   * `remove_host_from_env_file`: `None` when the file does not exist (nothing is
   * written), otherwise the new content.
   */
  function RemoveHostFromEnvFile(content: Option<string>, hostname: string): (r: Option<string>)
    ensures r.None? <==> content.None?
    ensures r.Some? ==> EndsWith(r.value, "\n")
  {
    match content
    case None => None
    case Some(text) => Some(Join(KeptOnRemove(Lines(text), hostname), "\n") + "\n")
  }

  // ---------------------------------------------------------------------------
  // Properties of the two transformations

  /**
   * After a write no comment line is left, every other line that is not the
   * host's survives, none of the host's old lines survives, and the host's new
   * lines come last.
   */
  lemma WriteLayout(content: Option<string>, hostname: string, c: HostConfig)
    ensures forall l :: l in WrittenLines(content, hostname, c) ==> !IsComment(l)
    ensures forall l :: l in ExistingLines(content) && !IsComment(l) && !IsHostLine(l, hostname) ==>
      l in WrittenLines(content, hostname, c)
    ensures forall l :: l in KeptOnWrite(ExistingLines(content), hostname) ==> !IsHostLine(l, hostname)
    ensures WrittenLines(content, hostname, c)[|KeptOnWrite(ExistingLines(content), hostname)|..] == HostLines(hostname, c)
  {
    forall l | l in HostLines(hostname, c) ensures !IsComment(l) {
      HostLinesShape(hostname, c, l);
    }
  }

  lemma HostLinesShape(hostname: string, c: HostConfig, l: string)
    requires l in HostLines(hostname, c)
    ensures !IsComment(l)
  {
    if l in OptLine(FieldKey(hostname, IpField), c.ip) {
      FieldLineNotComment(hostname, IpField, c.ip.value);
    } else if l in OptLine(FieldKey(hostname, HostnameField), c.hostname) {
      FieldLineNotComment(hostname, HostnameField, c.hostname.value);
    } else if l in OptLine(FieldKey(hostname, TailscaleField), c.tailscale) {
      FieldLineNotComment(hostname, TailscaleField, c.tailscale.value);
    } else {
      FieldLineNotComment(hostname, BackupPathField, c.backupPath.value);
    }
  }

  lemma FieldLineNotComment(hostname: string, f: HostField, v: string)
    ensures !IsComment(FieldKey(hostname, f) + "=" + v)
  {
    var l := FieldKey(hostname, f) + "=" + v;
    assert l[0] == 'H';
    var e := TrimEnd(l);
    assert |e| >= 1;
    assert e[0] == 'H';
    assert TrimStart(e) == e;
  }

  /** A line with no whitespace at either end is its own trim. */
  lemma TrimmedLine(l: string)
    requires |l| > 0 && !IsWhitespace(l[0]) && !IsWhitespace(l[|l| - 1])
    ensures Trim(l) == l
  {
    assert TrimEnd(l) == l;
  }

  /** A remove keeps every comment line and every line that is not the host's, and drops the host's lines. */
  lemma RemoveLayout(text: string, hostname: string)
    ensures forall l :: l in Lines(text) && IsComment(l) ==> l in KeptOnRemove(Lines(text), hostname)
    ensures forall l :: l in Lines(text) && !IsHostLine(l, hostname) ==> l in KeptOnRemove(Lines(text), hostname)
    ensures forall l :: l in KeptOnRemove(Lines(text), hostname) ==> IsComment(l) || !IsHostLine(l, hostname)
  {
  }

  /** Matching is by prefix: removing `foo` also removes the lines of a host `foo_bar`. */
  lemma RemoveMatchesByPrefix()
    ensures KeptOnRemove(["HOST_FOO_BAR_IP=1"], "foo") == []
  {
    var a := "HOST_FOO_BAR_IP=1";
    assert HostPrefix("foo") == "HOST_FOO_" by {
      assert ToUpper("foo") == "FOO";
    }
    TrimmedLine(a);
    assert IsHostLine(a, "foo") by {
      assert a[..9] == "HOST_FOO_";
    }
    assert !IsComment(a) by {
      assert a[0] == 'H';
    }
    FilterSingle(a, l => IsComment(l) || !IsHostLine(l, "foo"));
  }

  // ---------------------------------------------------------------------------
  // Round trip through the parser

  /** The `KEY=VALUE` assignment of a line, split at its first `'='`. */
  function EnvVarOf(line: string): Option<(string, string)>
  {
    SplitOnce(line, '=')
  }

  /** The assignments of a file's lines, in order. */
  function DotenvVars(lines: seq<string>): seq<(string, string)>
  {
    if |lines| == 0 then []
    else
      DotenvVars(lines[..|lines| - 1])
      + (match EnvVarOf(lines[|lines| - 1]) case Some(kv) => [kv] case None => [])
  }

  lemma {:induction false} DotenvVarsAppend(a: seq<string>, b: seq<string>)
    ensures DotenvVars(a + b) == DotenvVars(a) + DotenvVars(b)
  {
    if |b| == 0 {
      assert a + b == a;
    } else {
      assert (a + b)[..|a + b| - 1] == a + b[..|b| - 1];
      assert (a + b)[|a + b| - 1] == b[|b| - 1];
      DotenvVarsAppend(a, b[..|b| - 1]);
    }
  }

  /** Each written key parses back to the host and the field it was written for. */
  lemma HostKeyOfFieldKey(hostname: string, f: HostField)
    requires f != TailscaleIpField
    requires !EndsWith(ToUpper(hostname), "_TAILSCALE")
    ensures HostKey(FieldKey(hostname, f)) == Some((ToLower(hostname), f))
  {
    LowerOfUpper(hostname);
    HostKeyOfRest(ToUpper(hostname), f);
  }

  lemma HostKeyOfRest(u: string, f: HostField)
    requires f != TailscaleIpField
    requires !EndsWith(u, "_TAILSCALE")
    ensures HostKey("HOST_" + u + FieldSuffix(f)) == Some((ToLower(u), f))
  {
    var sfx := FieldSuffix(f);
    var key := "HOST_" + u + sfx;
    var rest := u + sfx;
    assert key[..5] == "HOST_" && key[5..] == rest;
    assert StripPrefix(key, "HOST_") == Some(rest);
    assert rest[|rest| - |sfx|..] == sfx;
    assert rest[..|rest| - |sfx|] == u;
    match f {
      case IpField => IpRest(u);
      case HostnameField => HostnameRest(u);
      case TailscaleField => TailscaleRest(u);
      case BackupPathField => BackupPathRest(u);
    }
  }

  lemma IpRest(u: string)
    requires !EndsWith(u, "_TAILSCALE")
    ensures !EndsWith(u + "_IP", "_TAILSCALE_IP") && EndsWith(u + "_IP", "_IP")
  {
    var rest := u + "_IP";
    assert rest[|rest| - 3..] == "_IP";
  }

  lemma HostnameRest(u: string)
    ensures !EndsWith(u + "_HOSTNAME", "_TAILSCALE_IP") && !EndsWith(u + "_HOSTNAME", "_IP")
    ensures EndsWith(u + "_HOSTNAME", "_HOSTNAME")
  {
    var rest := u + "_HOSTNAME";
    assert rest[|rest| - 1] == 'E';
    assert rest[|rest| - 9..] == "_HOSTNAME";
    NotEndsWith(rest, "_TAILSCALE_IP");
    NotEndsWith(rest, "_IP");
  }

  lemma TailscaleRest(u: string)
    ensures !EndsWith(u + "_TAILSCALE", "_TAILSCALE_IP") && !EndsWith(u + "_TAILSCALE", "_IP")
    ensures !EndsWith(u + "_TAILSCALE", "_HOSTNAME") && EndsWith(u + "_TAILSCALE", "_TAILSCALE")
  {
    var rest := u + "_TAILSCALE";
    assert rest[|rest| - 1] == 'E';
    assert rest[|rest| - 10..] == "_TAILSCALE";
    NotEndsWith(rest, "_TAILSCALE_IP");
    NotEndsWith(rest, "_IP");
    assert rest[|rest| - 9] == 'T';
  }

  lemma BackupPathRest(u: string)
    ensures !EndsWith(u + "_BACKUP_PATH", "_TAILSCALE_IP") && !EndsWith(u + "_BACKUP_PATH", "_IP")
    ensures !EndsWith(u + "_BACKUP_PATH", "_HOSTNAME") && !EndsWith(u + "_BACKUP_PATH", "_TAILSCALE")
    ensures EndsWith(u + "_BACKUP_PATH", "_BACKUP_PATH")
  {
    var rest := u + "_BACKUP_PATH";
    assert rest[|rest| - 1] == 'H';
    assert rest[|rest| - 12..] == "_BACKUP_PATH";
    NotEndsWith(rest, "_TAILSCALE_IP");
    NotEndsWith(rest, "_IP");
    NotEndsWith(rest, "_HOSTNAME");
    NotEndsWith(rest, "_TAILSCALE");
  }

  /** Different last characters rule out the suffix. */
  lemma NotEndsWith(s: string, p: string)
    requires |p| > 0 && |s| > 0 && s[|s| - 1] != p[|p| - 1]
    ensures !EndsWith(s, p)
  {
    if |p| <= |s| {
      assert s[|s| - |p|..][|p| - 1] == s[|s| - 1];
    }
  }

  /** Applying one optional written line to the parser state. */
  lemma {:induction false} StepField(p: Parsed, hostname: string, f: HostField, v: Option<string>, cur: HostConfig)
    requires f != TailscaleIpField && '=' !in hostname && !EndsWith(ToUpper(hostname), "_TAILSCALE")
    requires ToLower(hostname) in p.hosts ==> p.hosts[ToLower(hostname)] == cur
    requires ToLower(hostname) !in p.hosts ==> cur == EmptyHost
    ensures var q := FoldVars(p, DotenvVars(OptLine(FieldKey(hostname, f), v)));
      var next := if v.Some? then SetHostField(cur, f, v.value) else cur;
      && (ToLower(hostname) in q.hosts ==> q.hosts[ToLower(hostname)] == next)
      && (ToLower(hostname) !in q.hosts ==> next == EmptyHost)
      && (ToLower(hostname) in q.hosts <==> ToLower(hostname) in p.hosts || v.Some?)
  {
    var key := FieldKey(hostname, f);
    if v.Some? {
      FieldLineApplies(p, hostname, f, v.value);
      assert OptLine(key, v) == [key + "=" + v.value];
    } else {
      assert DotenvVars([]) == [];
    }
  }

  /** A written field line sets that field of that host. */
  lemma FieldLineApplies(p: Parsed, hostname: string, f: HostField, value: string)
    requires f != TailscaleIpField && '=' !in hostname && !EndsWith(ToUpper(hostname), "_TAILSCALE")
    ensures FoldVars(p, DotenvVars([FieldKey(hostname, f) + "=" + value]))
         == p.(hosts := ApplyHost(p.hosts, ToLower(hostname), f, value))
  {
    var key := FieldKey(hostname, f);
    assert '=' !in ToUpper(hostname);
    assert '=' !in FieldSuffix(f);
    assert '=' !in key;
    OneLineRead(key, value);
    HostKeyOfFieldKey(hostname, f);
    FoldOne(p, (key, value));
  }

  /** One `KEY=value` line whose key holds no `=` is read as that one variable. */
  lemma OneLineRead(key: string, value: string)
    requires '=' !in key
    ensures DotenvVars([key + "=" + value]) == [(key, value)]
  {
    SplitOnceAt(key, '=', value);
    assert key + "=" + value == key + ['='] + value;
    var line := key + "=" + value;
    assert [line][..0] == [];
  }

  lemma FoldOne(p: Parsed, kv: (string, string))
    ensures FoldVars(p, [kv]) == ApplyVar(p, kv)
  {
    assert [kv][..0] == [];
  }

  lemma FieldLinePlain(hostname: string, f: HostField, v: string)
    requires '\n' !in hostname && PlainLine(v)
    ensures PlainLine(FieldKey(hostname, f) + "=" + v)
  {
    assert '\n' !in ToUpper(hostname);
    assert '\n' !in FieldSuffix(f);
    KeyValuePlain(FieldKey(hostname, f), v);
  }

  lemma KeyValuePlain(k: string, v: string)
    requires '\n' !in k && PlainLine(v)
    ensures PlainLine(k + "=" + v)
  {
    var l := k + "=" + v;
    if |v| > 0 {
      assert l[|l| - 1] == v[|v| - 1];
    } else {
      assert l[|l| - 1] == '=';
    }
  }

  lemma HostLinesPlain(hostname: string, c: HostConfig)
    requires '\n' !in hostname
    requires c.ip.Some? ==> PlainLine(c.ip.value)
    requires c.hostname.Some? ==> PlainLine(c.hostname.value)
    requires c.tailscale.Some? ==> PlainLine(c.tailscale.value)
    requires c.backupPath.Some? ==> PlainLine(c.backupPath.value)
    ensures forall l :: l in HostLines(hostname, c) ==> PlainLine(l)
  {
    if c.ip.Some? { FieldLinePlain(hostname, IpField, c.ip.value); }
    if c.hostname.Some? { FieldLinePlain(hostname, HostnameField, c.hostname.value); }
    if c.tailscale.Some? { FieldLinePlain(hostname, TailscaleField, c.tailscale.value); }
    if c.backupPath.Some? { FieldLinePlain(hostname, BackupPathField, c.backupPath.value); }
  }

  lemma LinesOfWritten(written: seq<string>)
    requires forall l :: l in written ==> PlainLine(l)
    ensures DotenvVars(Lines(Join(written, "\n") + "\n")) == DotenvVars(written)
  {
    if |written| == 0 {
      assert Join(written, "\n") + "\n" == "\n";
      assert IndexOf("\n", '\n') == Some(0);
      assert "\n"[1..] == "";
      assert Split("", '\n') == [""];
      assert Split("\n", '\n') == ["", ""];
      assert Lines("\n") == [""];
      assert [""][..0] == [];
      assert DotenvVars([""]) == [];
    } else {
      LinesOfJoined(written);
    }
  }

  function HostVars(hostname: string, c: HostConfig): seq<(string, string)>
  {
    DotenvVars(OptLine(FieldKey(hostname, IpField), c.ip))
    + DotenvVars(OptLine(FieldKey(hostname, HostnameField), c.hostname))
    + DotenvVars(OptLine(FieldKey(hostname, TailscaleField), c.tailscale))
    + DotenvVars(OptLine(FieldKey(hostname, BackupPathField), c.backupPath))
  }

  lemma VarsOfWritten(kept: seq<string>, hostname: string, c: HostConfig)
    ensures DotenvVars(kept + HostLines(hostname, c)) == DotenvVars(kept) + HostVars(hostname, c)
  {
    var o1 := OptLine(FieldKey(hostname, IpField), c.ip);
    var o2 := OptLine(FieldKey(hostname, HostnameField), c.hostname);
    var o3 := OptLine(FieldKey(hostname, TailscaleField), c.tailscale);
    var o4 := OptLine(FieldKey(hostname, BackupPathField), c.backupPath);
    DotenvVarsAppend(kept, HostLines(hostname, c));
    DotenvVarsAppend(o1 + o2 + o3, o4);
    DotenvVarsAppend(o1 + o2, o3);
    DotenvVarsAppend(o1, o2);
  }

  /** Parsing the host's own lines into a state that has no entry for the host rebuilds the record. */
  lemma FoldHostVars(p: Parsed, hostname: string, c: HostConfig)
    requires '=' !in hostname && !EndsWith(ToUpper(hostname), "_TAILSCALE")
    requires ToLower(hostname) !in p.hosts
    ensures var q := FoldVars(p, HostVars(hostname, c));
      && (c == EmptyHost ==> ToLower(hostname) !in q.hosts)
      && (c != EmptyHost ==> ToLower(hostname) in q.hosts && q.hosts[ToLower(hostname)] == c)
  {
    var v1 := DotenvVars(OptLine(FieldKey(hostname, IpField), c.ip));
    var v2 := DotenvVars(OptLine(FieldKey(hostname, HostnameField), c.hostname));
    var v3 := DotenvVars(OptLine(FieldKey(hostname, TailscaleField), c.tailscale));
    var v4 := DotenvVars(OptLine(FieldKey(hostname, BackupPathField), c.backupPath));
    FoldVarsAppend(p, v1 + v2 + v3, v4);
    FoldVarsAppend(p, v1 + v2, v3);
    FoldVarsAppend(p, v1, v2);
    StepField(p, hostname, IpField, c.ip, EmptyHost);
    var c1 := if c.ip.Some? then SetHostField(EmptyHost, IpField, c.ip.value) else EmptyHost;
    var p1 := FoldVars(p, v1);
    StepField(p1, hostname, HostnameField, c.hostname, c1);
    var c2 := if c.hostname.Some? then SetHostField(c1, HostnameField, c.hostname.value) else c1;
    var p2 := FoldVars(p1, v2);
    StepField(p2, hostname, TailscaleField, c.tailscale, c2);
    var c3 := if c.tailscale.Some? then SetHostField(c2, TailscaleField, c.tailscale.value) else c2;
    var p3 := FoldVars(p2, v3);
    StepField(p3, hostname, BackupPathField, c.backupPath, c3);
    assert c == (if c.backupPath.Some? then SetHostField(c3, BackupPathField, c.backupPath.value) else c3);
  }

  /**
   * Round trip: with a host name free of `'='` and newlines whose upper-case
   * form does not itself end in `_TAILSCALE`, values that are plain lines, and
   * no kept line assigning a field of the same host, re-reading the written
   * file gives back exactly the written record under the lower-cased name,
   * and no entry at all when every field is `None`.
   */
  lemma WriteThenParse(content: Option<string>, hostname: string, c: HostConfig)
    requires '=' !in hostname && '\n' !in hostname
    requires !EndsWith(ToUpper(hostname), "_TAILSCALE")
    requires c.ip.Some? ==> PlainLine(c.ip.value)
    requires c.hostname.Some? ==> PlainLine(c.hostname.value)
    requires c.tailscale.Some? ==> PlainLine(c.tailscale.value)
    requires c.backupPath.Some? ==> PlainLine(c.backupPath.value)
    requires forall l :: l in ExistingLines(content) ==> PlainLine(l)
    requires !NamesHost(DotenvVars(KeptOnWrite(ExistingLines(content), hostname)), ToLower(hostname))
    ensures var parsed := ParseVars(DotenvVars(Lines(Join(WrittenLines(content, hostname, c), "\n") + "\n")));
      && (c == EmptyHost ==> ToLower(hostname) !in parsed.hosts)
      && (c != EmptyHost ==> ToLower(hostname) in parsed.hosts && parsed.hosts[ToLower(hostname)] == c)
  {
    var kept := KeptOnWrite(ExistingLines(content), hostname);
    var written := WrittenLines(content, hostname, c);
    HostLinesPlain(hostname, c);
    LinesOfWritten(written);
    VarsOfWritten(kept, hostname, c);
    var vk := DotenvVars(kept);
    FoldVarsAppend(Parsed(map[], map[]), vk, HostVars(hostname, c));
    ParsedHosts(vk, ToLower(hostname));
    FoldHostVars(ParseVars(vk), hostname, c);
  }
}
