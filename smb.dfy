/**
 * SMB share mounting: the mount point and share path formats, the CIFS
 * mount options, the `/etc/fstab` line for a share and the two helpers that
 * add and remove such a line, the credential checks and the mount steps of
 * one share, the mount plan over all configured servers and the `/etc/fstab`
 * clean-up of an uninstall. The file system, the `sudo mkdir`, `mountpoint`,
 * `mount` and `sudo mv` commands and the user and group ids are parameters.
 */
module Smb {
  import opened Wrappers
  import opened Strings
  import opened Config

  // ---------------------------------------------------------------------------
  // Paths

  const MOUNT_ROOT: string := "/mnt/smb/"

  /** `/mnt/smb/<server>/<share>`. */
  function MountPoint(server: string, share: string): string
  {
    MOUNT_ROOT + server + "/" + share
  }

  /** `//<host>/<share>`. */
  function SharePath(host: string, share: string): string
  {
    "//" + host + "/" + share
  }

  /** Distinct (server, share) pairs get distinct mount points, as long as server names have no '/'. */
  lemma MountPointInjective(s1: string, h1: string, s2: string, h2: string)
    requires '/' !in s1 && '/' !in s2
    ensures MountPoint(s1, h1) == MountPoint(s2, h2) <==> s1 == s2 && h1 == h2
  {
    if MountPoint(s1, h1) == MountPoint(s2, h2) {
      var r1 := s1 + "/" + h1;
      var r2 := s2 + "/" + h2;
      assert MountPoint(s1, h1) == MOUNT_ROOT + r1;
      assert MountPoint(s2, h2) == MOUNT_ROOT + r2;
      assert r1 == MountPoint(s1, h1)[|MOUNT_ROOT|..] == r2;
      SplitOnceAt(s1, '/', h1);
      SplitOnceAt(s2, '/', h2);
    }
  }

  // ---------------------------------------------------------------------------
  // Mount options and the fstab line

  /** The comma-separated fields of the CIFS options, the extra options last when configured. */
  function OptionFields(username: string, password: string, uid: nat, gid: nat, options: Option<string>): seq<string>
  {
    ["username=" + username, "password=" + password, "uid=" + NatToString(uid), "gid=" + NatToString(gid)]
      + (if options.Some? then [options.value] else [])
  }

  /** The mount options are built with `format!` and one `push_str` for the extra options. */
  method BuildMountOptions(username: string, password: string, uid: nat, gid: nat, options: Option<string>)
    returns (opts: string)
    ensures opts == Join(OptionFields(username, password, uid, gid, options), ",")
  {
    var user, pass := "username=" + username, "password=" + password;
    var u, g := "uid=" + NatToString(uid), "gid=" + NatToString(gid);
    opts := user + "," + pass + "," + u + "," + g;
    if options.Some? {
      opts := opts + "," + options.value;
    }
    OptionFieldsJoin(user, pass, u, g, options);
  }

  lemma OptionFieldsJoin(a: string, b: string, c: string, d: string, options: Option<string>)
    ensures Join([a, b, c, d] + (if options.Some? then [options.value] else []), ",")
      == if options.Some? then a + "," + b + "," + c + "," + d + "," + options.value else a + "," + b + "," + c + "," + d
  {
    JoinSnoc([a], b, ",");
    assert [a] + [b] == [a, b];
    JoinSnoc([a, b], c, ",");
    assert [a, b] + [c] == [a, b, c];
    JoinSnoc([a, b, c], d, ",");
    assert [a, b, c] + [d] == [a, b, c, d];
    if options.Some? {
      JoinSnoc([a, b, c, d], options.value, ",");
    } else {
      assert [a, b, c, d] + [] == [a, b, c, d];
    }
  }

  /** Splitting the options at ',' gives the fields back, when no field holds a comma. */
  lemma MountOptionsReadBack(username: string, password: string, uid: nat, gid: nat, options: Option<string>)
    requires ',' !in username && ',' !in password
    requires options.Some? ==> ',' !in options.value
    ensures var fields := OptionFields(username, password, uid, gid, options);
      Split(Join(fields, ","), ',') == fields
  {
    var fields := OptionFields(username, password, uid, gid, options);
    assert forall c :: c in NatToString(uid) ==> IsDigit(c);
    assert forall c :: c in NatToString(gid) ==> IsDigit(c);
    assert forall i :: 0 <= i < |fields| ==> ',' !in fields[i];
    SplitJoin(fields, ',');
  }

  const NETDEV_SUFFIX: string := ",_netdev"

  /** `<share path> <mount point> cifs <options>,_netdev 0 0`. */
  function FstabEntry(sharePath: string, mountPoint: string, opts: string): string
  {
    sharePath + " " + mountPoint + " cifs " + opts + NETDEV_SUFFIX + " 0 0"
  }

  /** The six whitespace-separated fstab fields of the entry. */
  function FstabFields(sharePath: string, mountPoint: string, opts: string): seq<string>
  {
    [sharePath, mountPoint, "cifs", opts + NETDEV_SUFFIX, "0", "0"]
  }

  /** The entry is the six fields joined by single spaces, and it names its mount point. */
  lemma FstabEntryFields(sharePath: string, mountPoint: string, opts: string)
    ensures FstabEntry(sharePath, mountPoint, opts) == Join(FstabFields(sharePath, mountPoint, opts), " ")
    ensures Contains(FstabEntry(sharePath, mountPoint, opts), mountPoint)
  {
    var o := opts + NETDEV_SUFFIX;
    JoinSnoc([sharePath], mountPoint, " ");
    assert [sharePath] + [mountPoint] == [sharePath, mountPoint];
    JoinSnoc([sharePath, mountPoint], "cifs", " ");
    assert [sharePath, mountPoint] + ["cifs"] == [sharePath, mountPoint, "cifs"];
    JoinSnoc([sharePath, mountPoint, "cifs"], o, " ");
    assert [sharePath, mountPoint, "cifs"] + [o] == [sharePath, mountPoint, "cifs", o];
    JoinSnoc([sharePath, mountPoint, "cifs", o], "0", " ");
    assert [sharePath, mountPoint, "cifs", o] + ["0"] == [sharePath, mountPoint, "cifs", o, "0"];
    JoinSnoc([sharePath, mountPoint, "cifs", o, "0"], "0", " ");
    assert [sharePath, mountPoint, "cifs", o, "0"] + ["0"] == FstabFields(sharePath, mountPoint, opts);
    ContainsMiddle(sharePath + " ", mountPoint, " cifs " + opts + NETDEV_SUFFIX + " 0 0");
    assert FstabEntry(sharePath, mountPoint, opts) == (sharePath + " ") + mountPoint + (" cifs " + opts + NETDEV_SUFFIX + " 0 0");
  }

  /** With no space inside a field, the entry splits at ' ' into exactly its six fields. */
  lemma FstabEntryReadBack(sharePath: string, mountPoint: string, opts: string)
    requires ' ' !in sharePath && ' ' !in mountPoint && ' ' !in opts
    ensures Split(FstabEntry(sharePath, mountPoint, opts), ' ') == FstabFields(sharePath, mountPoint, opts)
  {
    FstabEntryFields(sharePath, mountPoint, opts);
    var f := FstabFields(sharePath, mountPoint, opts);
    assert ' ' !in opts + NETDEV_SUFFIX;
    assert forall i :: 0 <= i < |f| ==> ' ' !in f[i];
    SplitJoin(f, ' ');
  }

  // ---------------------------------------------------------------------------
  // add_fstab_entry

  predicate AnyLineContains(lines: seq<string>, sub: string)
  {
    exists i :: 0 <= i < |lines| && Contains(lines[i], sub)
  }

  /**
   * `add_fstab_entry`: `None` when some line already names the mount point
   * (nothing is written), else the trimmed old content, a line break and the
   * entry.
   */
  function AddFstabEntry(content: string, mountPoint: string, entry: string): Option<string>
  {
    if AnyLineContains(Lines(content), mountPoint) then None
    else Some(TrimEnd(content) + "\n" + entry)
  }

  /**
   * After an entry naming the mount point has been added, the entry is the
   * last line of the file and adding it again writes nothing.
   */
  lemma AddFstabIdempotent(content: string, mountPoint: string, entry: string)
    requires Contains(entry, mountPoint) && '\n' !in entry && entry != ""
    ensures match AddFstabEntry(content, mountPoint, entry)
      case None => AnyLineContains(Lines(content), mountPoint)
      case Some(c) =>
        && !AnyLineContains(Lines(content), mountPoint)
        && (var ls := Lines(c); |ls| > 0 && ls[|ls| - 1] == entry)
        && AddFstabEntry(c, mountPoint, entry).None?
  {
    if !AnyLineContains(Lines(content), mountPoint) {
      var c := TrimEnd(content) + "\n" + entry;
      LastLine(TrimEnd(content), entry);
      var ls := Lines(c);
      assert Contains(ls[|ls| - 1], mountPoint);
    }
  }

  // ---------------------------------------------------------------------------
  // remove_fstab_entry

  /** The lines that do not contain `sub`, in their order. */
  function Without(lines: seq<string>, sub: string): (r: seq<string>)
    ensures |r| <= |lines|
  {
    if lines == [] then []
    else (if Contains(lines[0], sub) then [] else [lines[0]]) + Without(lines[1..], sub)
  }

  /**
   * The filter keeps exactly the lines without `sub`, keeps their order
   * (it distributes over concatenation), and drops nothing exactly when no
   * line contains `sub`.
   */
  lemma {:induction false} WithoutMeaning(lines: seq<string>, sub: string)
    ensures forall l :: l in Without(lines, sub) <==> l in lines && !Contains(l, sub)
    ensures |Without(lines, sub)| == |lines| <==> !AnyLineContains(lines, sub)
    decreases |lines|
  {
    if lines != [] {
      WithoutMeaning(lines[1..], sub);
      assert lines == [lines[0]] + lines[1..];
      if AnyLineContains(lines[1..], sub) {
        var i :| 0 <= i < |lines[1..]| && Contains(lines[1..][i], sub);
        assert Contains(lines[i + 1], sub);
      }
      if AnyLineContains(lines, sub) && !Contains(lines[0], sub) {
        var i :| 0 <= i < |lines| && Contains(lines[i], sub);
        assert Contains(lines[1..][i - 1], sub);
      }
    }
  }

  lemma {:induction false} WithoutConcat(a: seq<string>, b: seq<string>, sub: string)
    ensures Without(a + b, sub) == Without(a, sub) + Without(b, sub)
    decreases |a|
  {
    if a == [] {
      assert a + b == b;
    } else {
      assert (a + b)[1..] == a[1..] + b;
      WithoutConcat(a[1..], b, sub);
    }
  }

  /**
   * `remove_fstab_entry`: the lines not containing the mount point joined
   * with '\n'; `None` (nothing written) when no line matched or when the
   * result would be empty.
   */
  function RemoveFstabEntry(content: string, mountPoint: string): Option<string>
  {
    var lines := Lines(content);
    var kept := Without(lines, mountPoint);
    if |kept| == |lines| then None
    else
      var joined := Join(kept, "\n");
      if joined == "" then None else Some(joined)
  }

  /** Nothing is written when no line names the mount point; otherwise exactly the other lines are kept. */
  lemma RemoveFstabMeaning(content: string, mountPoint: string)
    ensures !AnyLineContains(Lines(content), mountPoint) ==> RemoveFstabEntry(content, mountPoint).None?
    ensures match RemoveFstabEntry(content, mountPoint)
      case None => true
      case Some(c) =>
        && AnyLineContains(Lines(content), mountPoint)
        && exists kept :: kept != [] && c == Join(kept, "\n") && kept == Without(Lines(content), mountPoint)
  {
    WithoutMeaning(Lines(content), mountPoint);
    var kept := Without(Lines(content), mountPoint);
    if RemoveFstabEntry(content, mountPoint).Some? {
      assert kept != [];
    }
  }

  /** A '\n'-join of '\n'-free lines none of which contains `sub` has no line containing `sub`. */
  lemma JoinedLinesAvoid(kept: seq<string>, sub: string)
    requires kept != []
    requires forall i :: 0 <= i < |kept| ==> '\n' !in kept[i] && !Contains(kept[i], sub)
    ensures !AnyLineContains(Lines(Join(kept, "\n")), sub)
  {
    SplitJoin(kept, '\n');
    LinesAvoid(Join(kept, "\n"), sub);
  }

  /** The content `remove_fstab_entry` leaves behind. */
  function AfterRemove(content: string, mountPoint: string): string
  {
    match RemoveFstabEntry(content, mountPoint)
    case None => content
    case Some(c) => c
  }

  /** The filtered lines, when they are non-empty but join to nothing: then nothing is written. */
  predicate EmptiesOut(content: string, mountPoint: string)
  {
    var kept := Without(Lines(content), mountPoint);
    |kept| < |Lines(content)| && Join(kept, "\n") == ""
  }

  /** The lines `remove_fstab_entry` keeps are all lines of the old content without `sub`. */
  lemma KeptLinesPlain(content: string, mountPoint: string, sub: string)
    requires forall i :: 0 <= i < |Lines(content)| ==> !Contains(Lines(content)[i], sub) || Contains(Lines(content)[i], mountPoint)
    ensures var kept := Without(Lines(content), mountPoint);
      forall i :: 0 <= i < |kept| ==> '\n' !in kept[i] && !Contains(kept[i], sub)
  {
    var lines := Lines(content);
    var kept := Without(lines, mountPoint);
    WithoutMeaning(lines, mountPoint);
    LinesPlainBreaks(content);
    forall i | 0 <= i < |kept| ensures '\n' !in kept[i] && !Contains(kept[i], sub) {
      assert kept[i] in lines;
    }
  }

  /**
   * Unless the file would be left empty, no line names the mount point after
   * the removal, so removing again writes nothing.
   */
  lemma RemoveClears(content: string, mountPoint: string)
    requires !EmptiesOut(content, mountPoint)
    ensures !AnyLineContains(Lines(AfterRemove(content, mountPoint)), mountPoint)
    ensures RemoveFstabEntry(AfterRemove(content, mountPoint), mountPoint).None?
  {
    var lines := Lines(content);
    var kept := Without(lines, mountPoint);
    WithoutMeaning(lines, mountPoint);
    if |kept| < |lines| {
      KeptLinesPlain(content, mountPoint, mountPoint);
      JoinedLinesAvoid(kept, mountPoint);
    }
    RemoveFstabMeaning(AfterRemove(content, mountPoint), mountPoint);
  }

  /** A removal never brings back a line naming another mount point. */
  lemma RemoveKeepsClear(content: string, mountPoint: string, other: string)
    requires !AnyLineContains(Lines(content), other)
    ensures !AnyLineContains(Lines(AfterRemove(content, mountPoint)), other)
  {
    var lines := Lines(content);
    var kept := Without(lines, mountPoint);
    if RemoveFstabEntry(content, mountPoint).Some? {
      assert kept != [];
      WithoutMeaning(lines, mountPoint);
      LinesPlainBreaks(content);
      forall i | 0 <= i < |kept| ensures '\n' !in kept[i] && !Contains(kept[i], other) {
        assert kept[i] in lines;
      }
      JoinedLinesAvoid(kept, other);
    }
  }

  /** When every line names the mount point, the file is left as it was: the entry stays. */
  lemma RemoveKeepsWhenAllMatch(content: string, mountPoint: string)
    requires Lines(content) != []
    requires forall i :: 0 <= i < |Lines(content)| ==> Contains(Lines(content)[i], mountPoint)
    ensures RemoveFstabEntry(content, mountPoint).None?
    ensures AnyLineContains(Lines(AfterRemove(content, mountPoint)), mountPoint)
  {
    var lines := Lines(content);
    WithoutAllMatch(lines, mountPoint);
    WithoutMeaning(lines, mountPoint);
    assert Contains(lines[0], mountPoint);
  }

  lemma {:induction false} WithoutAllMatch(lines: seq<string>, sub: string)
    requires forall i :: 0 <= i < |lines| ==> Contains(lines[i], sub)
    ensures Without(lines, sub) == []
    decreases |lines|
  {
    if lines != [] {
      assert Contains(lines[0], sub);
      WithoutAllMatch(lines[1..], sub);
    }
  }

  // ---------------------------------------------------------------------------
  // setup_smb_share

  /** What setting up one share does: nothing when it is already mounted, else the mount command and the fstab write. */
  datatype ShareSetup =
    | AlreadyMounted
    | Mounted(mountArgs: seq<string>, newFstab: Option<string>)

  function NoUsername(server: string, share: string): string
  {
    "No username configured for " + server + " - " + share
  }

  function NoPassword(server: string, share: string): string
  {
    "No password configured for " + server + " - " + share
  }

  function MountFailed(server: string, share: string, mountPoint: string): string
  {
    "Failed to mount " + server + " - " + share + " at " + mountPoint
  }

  /** The `sudo mount` arguments for one share. */
  function MountArgs(sharePath: string, mountPoint: string, opts: string): seq<string>
  {
    ["mount", "-t", "cifs", sharePath, mountPoint, "-o", opts]
  }

  /**
   * `add_fstab_entry` with its file and command outcomes: `read` is reading
   * `/etc/fstab`, `write` writing `/tmp/fstab.new` and `mv` the `sudo mv`
   * into place, whose non-zero exit is an error. The write and the move are
   * made only when the entry is missing; the first failure is the result.
   */
  function AddFstabSteps(read: Result<string>, write: Result<()>, mv: Result<()>, mountPoint: string, entry: string)
    : (r: Result<Option<string>>)
    ensures r.Ok? <==> read.Ok? && (AddFstabEntry(read.value, mountPoint, entry).None? || (write.Ok? && mv.Ok?))
    ensures r.Ok? ==> r.value == AddFstabEntry(read.value, mountPoint, entry)
    ensures r.Err? ==> r.msg == if read.Err? then read.msg else if write.Err? then write.msg else mv.msg
  {
    if read.Err? then Err(read.msg)
    else
      var c := AddFstabEntry(read.value, mountPoint, entry);
      if c.None? then Ok(None)
      else if write.Err? then Err(write.msg)
      else if mv.Err? then Err(mv.msg)
      else Ok(c)
  }

  /**
   * `setup_smb_share`: the credentials are checked first, username before
   * password; then `sudo mkdir -p` of the mount point (`mkdir`, an error only
   * when it cannot be run), the `mountpoint -q` answer (`mounted`), the user
   * and group ids (`uid`, `gid`), the mount command (`mountOk`) and the fstab
   * steps (`fstab`, `write`, `mv`). Every failure the source passes on with
   * `?` is the result, and nothing after it happens.
   */
  method SetupShare(server: string, share: string, cfg: SmbServerConfig,
                    mkdir: Result<()>, mounted: bool, uid: Result<nat>, gid: Result<nat>, mountOk: bool,
                    fstab: Result<string>, write: Result<()>, mv: Result<()>)
    returns (r: Result<ShareSetup>)
    ensures cfg.username.None? ==> r == Err(NoUsername(server, share))
    ensures cfg.username.Some? && cfg.password.None? ==> r == Err(NoPassword(server, share))
    ensures cfg.username.Some? && cfg.password.Some? && mkdir.Err? ==> r == Err(mkdir.msg)
    ensures r == Ok(AlreadyMounted) <==> cfg.username.Some? && cfg.password.Some? && mkdir.Ok? && mounted
    ensures cfg.username.Some? && cfg.password.Some? && mkdir.Ok? && !mounted ==>
      (uid.Err? ==> r == Err(uid.msg)) && (uid.Ok? && gid.Err? ==> r == Err(gid.msg))
    ensures cfg.username.Some? && cfg.password.Some? && mkdir.Ok? && !mounted && uid.Ok? && gid.Ok? ==>
      var mp := MountPoint(server, share);
      var sp := SharePath(cfg.host, share);
      var opts := Join(OptionFields(cfg.username.value, cfg.password.value, uid.value, gid.value, cfg.options), ",");
      var added := AddFstabSteps(fstab, write, mv, mp, FstabEntry(sp, mp, opts));
      r == if !mountOk then Err(MountFailed(server, share, mp))
           else if added.Err? then Err(added.msg)
           else Ok(Mounted(MountArgs(sp, mp, opts), added.value))
    ensures r.Ok? && r.value.Mounted? ==>
      !mounted && uid.Ok? && gid.Ok? && mountOk && fstab.Ok? && (r.value.newFstab.Some? ==> write.Ok? && mv.Ok?)
  {
    if cfg.username.None? {
      return Err(NoUsername(server, share));
    }
    if cfg.password.None? {
      return Err(NoPassword(server, share));
    }
    if mkdir.Err? {
      return Err(mkdir.msg);
    }
    var mp := MountPoint(server, share);
    if mounted {
      return Ok(AlreadyMounted);
    }
    if uid.Err? {
      return Err(uid.msg);
    }
    if gid.Err? {
      return Err(gid.msg);
    }
    var sp := SharePath(cfg.host, share);
    var opts := BuildMountOptions(cfg.username.value, cfg.password.value, uid.value, gid.value, cfg.options);
    if !mountOk {
      return Err(MountFailed(server, share, mp));
    }
    var added := AddFstabSteps(fstab, write, mv, mp, FstabEntry(sp, mp, opts));
    if added.Err? {
      return Err(added.msg);
    }
    r := Ok(Mounted(MountArgs(sp, mp, opts), added.value));
  }

  /**
   * After a successful mount, `/etc/fstab` names the mount point: either it
   * already did, or the new entry is its last line.
   */
  lemma SetupRecordsMount(host: string, server: string, share: string, opts: string, fstab: string)
    requires '\n' !in host && '\n' !in server && '\n' !in share && '\n' !in opts
    ensures var mp := MountPoint(server, share);
      var entry := FstabEntry(SharePath(host, share), mp, opts);
      match AddFstabEntry(fstab, mp, entry)
      case None => AnyLineContains(Lines(fstab), mp)
      case Some(c) => AnyLineContains(Lines(c), mp) && AddFstabEntry(c, mp, entry).None?
  {
    var mp := MountPoint(server, share);
    var sp := SharePath(host, share);
    FstabEntryFields(sp, mp, opts);
    var entry := FstabEntry(sp, mp, opts);
    assert '\n' !in entry;
    AddFstabIdempotent(fstab, mp, entry);
    if AddFstabEntry(fstab, mp, entry).Some? {
      var c := AddFstabEntry(fstab, mp, entry).value;
      var ls := Lines(c);
      assert Contains(ls[|ls| - 1], mp);
    }
  }

  // ---------------------------------------------------------------------------
  // The mount plan of setup_smb_mounts_remote

  /** One share to mount: its server and share names, mount point and share path. */
  datatype Target = Target(server: string, share: string, mountPoint: string, sharePath: string)

  function TargetOf(server: string, cfg: SmbServerConfig, share: string): Target
  {
    Target(server, share, MountPoint(server, share), SharePath(cfg.host, share))
  }

  /** The targets of one server, shares in their configured order. */
  function ServerTargets(server: string, cfg: SmbServerConfig, shares: seq<string>): (r: seq<Target>)
    ensures |r| == |shares|
    ensures forall j :: 0 <= j < |shares| ==> r[j] == TargetOf(server, cfg, shares[j])
  {
    if shares == [] then [] else ServerTargets(server, cfg, shares[..|shares| - 1]) + [TargetOf(server, cfg, shares[|shares| - 1])]
  }

  /** The targets of all servers, in the order the servers are visited. */
  function PlanOf(servers: seq<(string, SmbServerConfig)>): seq<Target>
  {
    if servers == [] then []
    else
      var last := servers[|servers| - 1];
      PlanOf(servers[..|servers| - 1]) + ServerTargets(last.0, last.1, last.1.shares)
  }

  /** Every configured share of every visited server is planned, and nothing else. */
  lemma {:induction false} PlanOfMeaning(servers: seq<(string, SmbServerConfig)>, t: Target)
    ensures t in PlanOf(servers) <==>
      exists i, j :: 0 <= i < |servers| && 0 <= j < |servers[i].1.shares| &&
        t == TargetOf(servers[i].0, servers[i].1, servers[i].1.shares[j])
    decreases |servers|
  {
    if servers != [] {
      var init := servers[..|servers| - 1];
      var last := servers[|servers| - 1];
      PlanOfMeaning(init, t);
      var tail := ServerTargets(last.0, last.1, last.1.shares);
      if t in tail {
        var j :| 0 <= j < |tail| && tail[j] == t;
        assert t == TargetOf(servers[|servers| - 1].0, servers[|servers| - 1].1, servers[|servers| - 1].1.shares[j]);
      }
      if exists i, j :: 0 <= i < |servers| && 0 <= j < |servers[i].1.shares| &&
          t == TargetOf(servers[i].0, servers[i].1, servers[i].1.shares[j]) {
        var i, j :| 0 <= i < |servers| && 0 <= j < |servers[i].1.shares| &&
          t == TargetOf(servers[i].0, servers[i].1, servers[i].1.shares[j]);
        if i < |servers| - 1 {
          assert servers[i] == init[i];
        } else {
          assert tail[j] == t;
        }
      }
    }
  }

  /** The nested loops over servers and their shares. */
  method PlanMounts(servers: seq<(string, SmbServerConfig)>) returns (plan: seq<Target>)
    ensures plan == PlanOf(servers)
  {
    plan := [];
    var i := 0;
    while i < |servers|
      invariant 0 <= i <= |servers|
      invariant plan == PlanOf(servers[..i])
    {
      var (name, cfg) := servers[i];
      ghost var before := plan;
      var j := 0;
      while j < |cfg.shares|
        invariant 0 <= j <= |cfg.shares|
        invariant plan == before + ServerTargets(name, cfg, cfg.shares[..j])
      {
        assert cfg.shares[..j + 1][..j] == cfg.shares[..j];
        plan := plan + [TargetOf(name, cfg, cfg.shares[j])];
        j := j + 1;
      }
      assert cfg.shares[..j] == cfg.shares;
      assert servers[..i + 1][..i] == servers[..i];
      i := i + 1;
    }
    assert servers[..i] == servers;
  }

  // ---------------------------------------------------------------------------
  // The fstab side of uninstall_smb_mounts_remote

  /** The fstab content after removing the entries of `mountPoints` one after another. */
  function Uninstalled(content: string, mountPoints: seq<string>): string
    decreases |mountPoints|
  {
    if mountPoints == [] then content
    else Uninstalled(AfterRemove(content, mountPoints[0]), mountPoints[1..])
  }

  /** Each removal along the way leaves a non-empty file. */
  predicate NeverEmptied(content: string, mountPoints: seq<string>)
    decreases |mountPoints|
  {
    mountPoints == [] ||
    (!EmptiesOut(content, mountPoints[0]) && NeverEmptied(AfterRemove(content, mountPoints[0]), mountPoints[1..]))
  }

  /** The uninstall loop calls `remove_fstab_entry` once per planned mount point. */
  method UninstallFstab(content: string, mountPoints: seq<string>) returns (fstab: string)
    ensures fstab == Uninstalled(content, mountPoints)
  {
    fstab := content;
    var i := 0;
    while i < |mountPoints|
      invariant 0 <= i <= |mountPoints|
      invariant Uninstalled(content, mountPoints) == Uninstalled(fstab, mountPoints[i..])
    {
      assert mountPoints[i..][1..] == mountPoints[i + 1..];
      fstab := AfterRemove(fstab, mountPoints[i]);
      i := i + 1;
    }
  }

  /** Unless a removal would have emptied the file, no line of the result names any uninstalled mount point. */
  lemma {:induction false} UninstallClears(content: string, mountPoints: seq<string>)
    requires NeverEmptied(content, mountPoints)
    ensures forall k :: 0 <= k < |mountPoints| ==> !AnyLineContains(Lines(Uninstalled(content, mountPoints)), mountPoints[k])
    decreases |mountPoints|
  {
    if mountPoints != [] {
      var next := AfterRemove(content, mountPoints[0]);
      UninstallClears(next, mountPoints[1..]);
      RemoveClears(content, mountPoints[0]);
      UninstalledKeepsClear(next, mountPoints[1..], mountPoints[0]);
      forall k | 0 <= k < |mountPoints|
        ensures !AnyLineContains(Lines(Uninstalled(content, mountPoints)), mountPoints[k])
      {
        if k > 0 {
          assert mountPoints[k] == mountPoints[1..][k - 1];
        }
      }
    }
  }

  lemma {:induction false} UninstalledKeepsClear(content: string, mountPoints: seq<string>, other: string)
    requires !AnyLineContains(Lines(content), other)
    ensures !AnyLineContains(Lines(Uninstalled(content, mountPoints)), other)
    decreases |mountPoints|
  {
    if mountPoints != [] {
      RemoveKeepsClear(content, mountPoints[0], other);
      UninstalledKeepsClear(AfterRemove(content, mountPoints[0]), mountPoints[1..], other);
    }
  }
}
