/**
 * Backups of a host's Docker volumes and bind mounts: which containers
 * belong to a service, which backup is restored, how archive and volume
 * names are derived, and the order of effects in a host backup and a host
 * restore. Commands run on the host are given as their outcomes.
 */
module Backup {
  import opened Wrappers
  import opened Strings
  import Docker

  // ---------------------------------------------------------------------------
  // Containers of a service

  predicate MatchesService(container: string, service: string)
  {
    Contains(ToLower(container), ToLower(service))
  }

  /** The listed containers whose lower-cased name contains the lower-cased service name, in order. */
  function ServiceMatches(containers: seq<string>, service: string): seq<string>
  {
    if containers == [] then []
    else
      var rest := ServiceMatches(containers[..|containers| - 1], service);
      var last := containers[|containers| - 1];
      if MatchesService(last, service) then rest + [last] else rest
  }

  lemma {:induction false} ServiceMatchesExactly(containers: seq<string>, service: string, x: string)
    ensures x in ServiceMatches(containers, service) <==> x in containers && MatchesService(x, service)
    decreases |containers|
  {
    if containers != [] {
      var init := containers[..|containers| - 1];
      ServiceMatchesExactly(init, service, x);
      assert containers == init + [containers[|containers| - 1]];
    }
  }

  /** The service name is matched without regard to letter case. */
  lemma {:induction false} ServiceMatchesIgnoresCase(containers: seq<string>, s: string, t: string)
    requires ToLower(s) == ToLower(t)
    ensures ServiceMatches(containers, s) == ServiceMatches(containers, t)
    decreases |containers|
  {
    if containers != [] {
      ServiceMatchesIgnoresCase(containers[..|containers| - 1], s, t);
    }
  }

  function NoContainers(service: string): string
  {
    "No containers found for service '" + service + "'"
  }

  /** `backup_service`: the service's containers, or an error when the listing fails or nothing matches. */
  function ServiceContainers(listed: Result<seq<string>>, service: string): (r: Result<seq<string>>)
    ensures listed.Err? ==> r == Err(listed.msg)
    ensures listed.Ok? && ServiceMatches(listed.value, service) == [] ==> r == Err(NoContainers(service))
    ensures r.Ok? <==> listed.Ok? && ServiceMatches(listed.value, service) != []
    ensures r.Ok? ==> r.value == ServiceMatches(listed.value, service)
  {
    if listed.Err? then Err(listed.msg)
    else
      var ms := ServiceMatches(listed.value, service);
      if ms == [] then Err(NoContainers(service)) else Ok(ms)
  }

  // ---------------------------------------------------------------------------
  // Choosing the backup to restore

  /** The first backup whose path contains `t`. */
  function FirstContaining(bs: seq<string>, t: string): (r: Option<nat>)
    ensures r.None? <==> forall i :: 0 <= i < |bs| ==> !Contains(bs[i], t)
    ensures r.Some? ==> r.value < |bs| && Contains(bs[r.value], t) && forall i :: 0 <= i < r.value ==> !Contains(bs[i], t)
    decreases |bs|
  {
    if bs == [] then None
    else if Contains(bs[0], t) then Some(0)
    else
      match FirstContaining(bs[1..], t)
      case None => None
      case Some(k) => Some(k + 1)
  }

  function NoBackups(service: string): string
  {
    "No backups found for service '" + service + "'"
  }

  function TimestampNotFound(t: string): string
  {
    "Backup with timestamp '" + t + "' not found"
  }

  /**
   * `restore_service`: from the listing of the service's backups (newest
   * first), the first one containing the timestamp, or without a timestamp
   * the first one listed.
   */
  function SelectBackup(service: string, listing: string, timestamp: Option<string>): (r: Result<string>)
    ensures Docker.NonBlankLines(listing) == [] ==> r == Err(NoBackups(service))
    ensures Docker.NonBlankLines(listing) != [] && timestamp.None? ==> r == Ok(Docker.NonBlankLines(listing)[0])
    ensures Docker.NonBlankLines(listing) != [] && timestamp.Some? ==>
              (r.Ok? <==> exists i :: 0 <= i < |Docker.NonBlankLines(listing)| && Contains(Docker.NonBlankLines(listing)[i], timestamp.value))
    ensures Docker.NonBlankLines(listing) != [] && timestamp.Some? && r.Ok? ==>
              exists i :: 0 <= i < |Docker.NonBlankLines(listing)| && r.value == Docker.NonBlankLines(listing)[i] &&
                Contains(r.value, timestamp.value) &&
                forall j :: 0 <= j < i ==> !Contains(Docker.NonBlankLines(listing)[j], timestamp.value)
    ensures Docker.NonBlankLines(listing) != [] && timestamp.Some? && r.Err? ==> r.msg == TimestampNotFound(timestamp.value)
  {
    var backups := Docker.NonBlankLines(listing);
    if backups == [] then Err(NoBackups(service))
    else if timestamp.None? then Ok(backups[0])
    else
      match FirstContaining(backups, timestamp.value)
      case None => Err(TimestampNotFound(timestamp.value))
      case Some(i) => Ok(backups[i])
  }

  /** The chosen backup is always one of the listed lines. */
  lemma SelectBackupListed(service: string, listing: string, timestamp: Option<string>)
    requires SelectBackup(service, listing, timestamp).Ok?
    ensures SelectBackup(service, listing, timestamp).value in Lines(listing)
  {
    Docker.KeepNonBlankSound(Lines(listing));
  }

  /** A zip archive is unpacked under the service's name and restored from there; a directory is restored in place. */
  function ServiceRestoreDir(base: string, service: string, backup: string): (dir: string)
    ensures EndsWith(backup, ".zip") ==> dir == base + "/" + service
    ensures !EndsWith(backup, ".zip") ==> dir == backup
  {
    if EndsWith(backup, ".zip") then base + "/" + service else backup
  }

  // ---------------------------------------------------------------------------
  // Archive and volume names

  const TAR_GZ := ".tar.gz"

  /** The text after the last '/', the whole path when there is none. */
  function LastComponent(path: string): (r: string)
    ensures '/' !in r
  {
    var ps := Split(path, '/');
    ps[|ps| - 1]
  }

  /** The volume an archive restores: its last path component with every trailing ".tar.gz" removed. */
  function VolumeName(file: string): (r: string)
    ensures '/' !in r && !EndsWith(r, TAR_GZ)
  {
    var r := TrimEndMatches(LastComponent(file), TAR_GZ);
    assert forall k :: 0 <= k < |r| ==> r[k] == LastComponent(file)[k];
    r
  }

  /** The archive a volume is saved to names that volume again. */
  lemma VolumeOfArchive(dir: string, volume: string)
    requires '/' !in volume && !EndsWith(volume, TAR_GZ)
    ensures VolumeName(dir + "/" + volume + TAR_GZ) == volume
  {
    var leaf := volume + TAR_GZ;
    assert '/' !in TAR_GZ;
    assert '/' !in leaf by {
      forall k | 0 <= k < |leaf| ensures leaf[k] != '/' {
        if k >= |volume| {
          assert leaf[k] == TAR_GZ[k - |volume|];
        }
      }
    }
    assert dir + "/" + volume + TAR_GZ == dir + ['/'] + leaf;
    SplitLastPiece(dir, '/', leaf);
    assert EndsWith(leaf, TAR_GZ) by {
      assert leaf[|leaf| - |TAR_GZ|..] == TAR_GZ;
    }
    assert leaf[..|leaf| - |TAR_GZ|] == volume;
    assert TrimEndMatches(leaf, TAR_GZ) == TrimEndMatches(volume, TAR_GZ) == volume;
  }

  /** The bind-mount archive name: the container, '_', and the mount's last path component. */
  function BindName(container: string, mount: string): string
  {
    container + "_" + Replace(LastComponent(mount), "/", "_")
  }

  lemma BindNameOf(container: string, parent: string, leaf: string)
    requires '/' !in leaf
    ensures BindName(container, parent + "/" + leaf) == container + "_" + leaf
  {
    assert parent + "/" + leaf == parent + ['/'] + leaf;
    SplitLastPiece(parent, '/', leaf);
    NoCharNoContains(leaf, '/');
    ReplaceAbsent(leaf, "/", "_");
  }

  lemma {:induction false} NoCharNoContains(s: string, c: char)
    requires c !in s
    ensures !Contains(s, [c])
    decreases |s|
  {
    if |s| > 0 {
      assert s[0] != c;
      NoCharNoContains(s[1..], c);
    }
  }

  /** Whether the line is one of the archives a host restore considers. */
  predicate IsArchive(l: string)
  {
    !Docker.Blank(l) && EndsWith(l, TAR_GZ)
  }

  /** `perform_restore`: only the non-blank listed lines ending in ".tar.gz", in order. */
  function ArchiveLines(ls: seq<string>): (r: seq<string>)
    ensures forall i :: 0 <= i < |r| ==> IsArchive(r[i])
  {
    if ls == [] then []
    else
      var rest := ArchiveLines(ls[..|ls| - 1]);
      if IsArchive(ls[|ls| - 1]) then rest + [ls[|ls| - 1]] else rest
  }

  /** A listed line that is not an archive contributes nothing. */
  lemma ArchiveLinesSkip(ls: seq<string>, l: string)
    requires !IsArchive(l)
    ensures ArchiveLines(ls + [l]) == ArchiveLines(ls)
  {
    assert (ls + [l])[..|ls|] == ls;
  }

  /** The volumes restored from the archives, in order, skipping empty names. */
  function RestoreNames(files: seq<string>): (r: seq<string>)
    ensures forall i :: 0 <= i < |r| ==> r[i] != "" && '/' !in r[i]
  {
    if files == [] then []
    else
      var rest := RestoreNames(files[..|files| - 1]);
      var v := VolumeName(files[|files| - 1]);
      if v != "" then rest + [v] else rest
  }

  lemma {:induction false} RestoreNamesExactly(files: seq<string>, v: string)
    ensures v in RestoreNames(files) <==> v != "" && exists i :: 0 <= i < |files| && VolumeName(files[i]) == v
    decreases |files|
  {
    if files != [] {
      var init := files[..|files| - 1];
      RestoreNamesExactly(init, v);
      if exists i :: 0 <= i < |files| && VolumeName(files[i]) == v {
        var i :| 0 <= i < |files| && VolumeName(files[i]) == v;
        if i < |init| {
          assert init[i] == files[i];
        }
      }
      if exists i :: 0 <= i < |init| && VolumeName(init[i]) == v {
        var i :| 0 <= i < |init| && VolumeName(init[i]) == v;
        assert files[i] == init[i];
      }
    }
  }

  /**
   * `restore_service`'s volume loop: each volume is restored in order and
   * the first failure stops the loop and is returned.
   */
  method RestoreVolumes(names: seq<string>, restore: string -> Result<()>) returns (attempted: seq<string>, r: Result<()>)
    ensures r.Ok? <==> forall i :: 0 <= i < |names| ==> restore(names[i]).Ok?
    ensures r.Ok? ==> attempted == names
    ensures r.Err? ==>
      && 0 < |attempted| <= |names| && attempted == names[..|attempted|]
      && restore(attempted[|attempted| - 1]) == Err(r.msg)
      && forall i :: 0 <= i < |attempted| - 1 ==> restore(attempted[i]).Ok?
  {
    attempted := [];
    var i := 0;
    while i < |names|
      invariant 0 <= i <= |names| && attempted == names[..i]
      invariant forall k :: 0 <= k < i ==> restore(names[k]).Ok?
    {
      attempted := attempted + [names[i]];
      var outcome := restore(names[i]);
      if outcome.Err? {
        return attempted, Err(outcome.msg);
      }
      i := i + 1;
    }
    r := Ok(());
  }

  // ---------------------------------------------------------------------------
  // Host backup and restore

  /** The outcomes of the host operations a backup or restore uses. */
  datatype Host = Host(
    mkdir: Result<()>,
    stopAll: Result<seq<string>>,
    volumes: Result<seq<string>>,
    containers: Result<seq<string>>,
    mounts: string -> Result<seq<string>>,
    isDir: string -> Result<bool>,
    shell: string -> Result<bool>,
    listing: string -> Result<string>,
    write: Result<()>,
    start: Result<()>)

  /** The effects on the host, in the order they are issued. */
  datatype Effect =
    | MakeDir(path: string)
    | StopAll
    | SaveVolume(volume: string, dir: string)
    | Shell(command: string)
    | WriteFile(path: string, content: string)
    | RestoreVolume(volume: string, dir: string)
    | StartContainers(names: seq<string>)

  /** The `docker run … tar czf` line archiving a bind mount, optionally under sudo. */
  function BindBackupCommand(mount: string, dir: string, name: string, sudo: bool): string
  {
    (if sudo then "sudo " else "") +
    "docker run --rm -v " + mount + ":/data:ro -v " + dir + ":/backup alpine tar czf /backup/" + name + ".tar.gz -C /data ."
  }

  /** The steps for one bind mount: directories only, retried under sudo when the first run fails. */
  function MountSteps(h: Host, dir: string, container: string, mount: string): (s: (seq<Effect>, Result<()>))
    ensures forall i :: 0 <= i < |s.0| ==> s.0[i].Shell?
  {
    match h.isDir(mount)
    case Err(m) => ([], Err(m))
    case Ok(false) => ([], Ok(()))
    case Ok(true) =>
      var cmd := BindBackupCommand(mount, dir, BindName(container, mount), false);
      match h.shell(cmd)
      case Err(m) => ([Shell(cmd)], Err(m))
      case Ok(true) => ([Shell(cmd)], Ok(()))
      case Ok(false) =>
        var sudo := BindBackupCommand(mount, dir, BindName(container, mount), true);
        match h.shell(sudo)
        case Err(m) => ([Shell(cmd), Shell(sudo)], Err(m))
        case Ok(_) => ([Shell(cmd), Shell(sudo)], Ok(()))
  }

  /** The steps for a container's bind mounts in order; the first error ends them. */
  function MountsSteps(h: Host, dir: string, container: string, mounts: seq<string>): (s: (seq<Effect>, Result<()>))
    ensures forall i :: 0 <= i < |s.0| ==> s.0[i].Shell?
    decreases |mounts|
  {
    if mounts == [] then ([], Ok(()))
    else
      var first := MountSteps(h, dir, container, mounts[0]);
      if first.1.Err? then first
      else
        var rest := MountsSteps(h, dir, container, mounts[1..]);
        (first.0 + rest.0, rest.1)
  }

  /** The steps for one container: its bind mounts are listed, then archived. */
  function ContainerSteps(h: Host, dir: string, container: string): (s: (seq<Effect>, Result<()>))
    ensures forall i :: 0 <= i < |s.0| ==> s.0[i].Shell?
  {
    match h.mounts(container)
    case Err(m) => ([], Err(m))
    case Ok(ms) => MountsSteps(h, dir, container, ms)
  }

  /** The bind-mount steps for each container in order; the first error ends them. */
  function BindSteps(h: Host, dir: string, containers: seq<string>): (s: (seq<Effect>, Result<()>))
    ensures forall i :: 0 <= i < |s.0| ==> s.0[i].Shell?
    decreases |containers|
  {
    if containers == [] then ([], Ok(()))
    else
      var first := ContainerSteps(h, dir, containers[0]);
      if first.1.Err? then first
      else
        var rest := BindSteps(h, dir, containers[1..]);
        (first.0 + rest.0, rest.1)
  }

  function SaveVolumes(volumes: seq<string>, dir: string): (s: seq<Effect>)
    ensures |s| == |volumes| && forall i :: 0 <= i < |s| ==> s[i] == SaveVolume(volumes[i], dir)
  {
    seq(|volumes|, i requires 0 <= i < |volumes| => SaveVolume(volumes[i], dir))
  }

  /** The metadata file's text; `date` is the wall-clock date, given. */
  function Metadata(hostname: string, timestamp: string, date: string, volumes: seq<string>): string
  {
    "Host: " + hostname + "\nTimestamp: " + timestamp + "\nDate: " + date +
    "\nVolume Count: " + NatToString(|volumes|) + "\nVolumes:\n" + Join(volumes, "\n")
  }

  /** The closing step of both runs: the stopped containers are started again, if there were any. */
  function Restart(log: seq<Effect>, stopped: seq<string>, start: Result<()>): (seq<Effect>, Result<()>)
  {
    if stopped == [] then (log, Ok(())) else (log + [StartContainers(stopped)], start)
  }

  /**
   * `perform_backup`: make the backup directory (named after the clock's
   * seconds), stop every container, archive every volume (failures
   * ignored), archive the bind mounts, write the metadata, then start the
   * stopped containers. Any failing step other than a volume archive stops
   * the run.
   */
  function BackupRun(h: Host, hostname: string, base: string, seconds: nat, date: string): (s: (seq<Effect>, Result<()>))
  {
    var dir := base + "/" + NatToString(seconds);
    var log := [MakeDir(dir)];
    if h.mkdir.Err? then (log, Err(h.mkdir.msg))
    else
      var log := log + [StopAll];
      if h.stopAll.Err? then (log, Err(h.stopAll.msg))
      else if h.volumes.Err? then (log, Err(h.volumes.msg))
      else
        var log := log + SaveVolumes(h.volumes.value, dir);
        if h.containers.Err? then (log, Err(h.containers.msg))
        else
          var bind := BindSteps(h, dir, h.containers.value);
          var log := log + bind.0;
          if bind.1.Err? then (log, bind.1)
          else
            var log := log + [WriteFile(dir + "/metadata.txt", Metadata(hostname, NatToString(seconds), date, h.volumes.value))];
            if h.write.Err? then (log, Err(h.write.msg))
            else Restart(log, h.stopAll.value, h.start)
  }

  /** `perform_backup`, step by step. */
  method PerformBackup(h: Host, hostname: string, base: string, seconds: nat, date: string)
    returns (log: seq<Effect>, r: Result<()>)
    ensures (log, r) == BackupRun(h, hostname, base, seconds, date)
  {
    var dir := base + "/" + NatToString(seconds);
    log := [MakeDir(dir)];
    if h.mkdir.Err? {
      return log, Err(h.mkdir.msg);
    }
    log := log + [StopAll];
    if h.stopAll.Err? {
      return log, Err(h.stopAll.msg);
    }
    var running := h.stopAll.value;
    if h.volumes.Err? {
      return log, Err(h.volumes.msg);
    }
    var volumes := h.volumes.value;
    var saves := [];
    for i := 0 to |volumes|
      invariant saves == SaveVolumes(volumes[..i], dir)
    {
      saves := saves + [SaveVolume(volumes[i], dir)];
    }
    assert volumes[..|volumes|] == volumes;
    log := log + saves;
    if h.containers.Err? {
      return log, Err(h.containers.msg);
    }
    var bind, failed := BackupBindMounts(h, dir, h.containers.value);
    log := log + bind;
    if failed.Err? {
      return log, failed;
    }
    log := log + [WriteFile(dir + "/metadata.txt", Metadata(hostname, NatToString(seconds), date, volumes))];
    if h.write.Err? {
      return log, Err(h.write.msg);
    }
    if running != [] {
      log := log + [StartContainers(running)];
      r := h.start;
    } else {
      r := Ok(());
    }
  }

  /** The bind-mount loop of `perform_backup` over the containers. */
  method BackupBindMounts(h: Host, dir: string, containers: seq<string>) returns (log: seq<Effect>, r: Result<()>)
    ensures (log, r) == BindSteps(h, dir, containers)
  {
    log := [];
    assert containers[0..] == containers;
    var i := 0;
    while i < |containers|
      invariant 0 <= i <= |containers|
      invariant BindSteps(h, dir, containers).0 == log + BindSteps(h, dir, containers[i..]).0
      invariant BindSteps(h, dir, containers).1 == BindSteps(h, dir, containers[i..]).1
    {
      var container := containers[i];
      assert containers[i..][1..] == containers[i + 1..];
      assert containers[i..][0] == container;
      var mounts := h.mounts(container);
      if mounts.Err? {
        assert log + [] == log;
        return log, Err(mounts.msg);
      }
      var steps, failed := BackupMounts(h, dir, container, mounts.value);
      log := log + steps;
      if failed.Err? {
        return log, failed;
      }
      i := i + 1;
    }
    assert containers[i..] == [] && log + [] == log;
    r := Ok(());
  }

  /** The loop over one container's bind mounts. */
  method BackupMounts(h: Host, dir: string, container: string, mounts: seq<string>) returns (log: seq<Effect>, r: Result<()>)
    ensures (log, r) == MountsSteps(h, dir, container, mounts)
  {
    log := [];
    assert mounts[0..] == mounts;
    var j := 0;
    while j < |mounts|
      invariant 0 <= j <= |mounts|
      invariant MountsSteps(h, dir, container, mounts).0 == log + MountsSteps(h, dir, container, mounts[j..]).0
      invariant MountsSteps(h, dir, container, mounts).1 == MountsSteps(h, dir, container, mounts[j..]).1
    {
      assert mounts[j..][1..] == mounts[j + 1..];
      assert mounts[j..][0] == mounts[j];
      var step := MountSteps(h, dir, container, mounts[j]);
      log := log + step.0;
      if step.1.Err? {
        return log, step.1;
      }
      j := j + 1;
    }
    assert mounts[j..] == [] && log + [] == log;
    r := Ok(());
  }

  /** A host backup starts containers only as its last step, only the ones it stopped, and only when every earlier step succeeded. */
  lemma BackupRestartsStopped(h: Host, hostname: string, base: string, seconds: nat, date: string)
    ensures var (log, r) := BackupRun(h, hostname, base, seconds, date);
            forall i :: 0 <= i < |log| && log[i].StartContainers? ==>
              && i == |log| - 1
              && h.stopAll == Ok(log[i].names) && log[i].names != []
              && h.mkdir.Ok? && h.volumes.Ok? && h.containers.Ok? && h.write.Ok?
    ensures var (log, r) := BackupRun(h, hostname, base, seconds, date);
            r.Ok? ==> h.stopAll.Ok? && (h.stopAll.value != [] ==> log[|log| - 1] == StartContainers(h.stopAll.value))
  {
  }

  /** A failure after the containers were stopped leaves them stopped. */
  lemma BackupFailureLeavesStopped(h: Host, hostname: string, base: string, seconds: nat, date: string)
    requires h.mkdir.Ok? && h.stopAll.Ok? && (h.volumes.Err? || h.containers.Err? || h.write.Err?)
    ensures var (log, r) := BackupRun(h, hostname, base, seconds, date);
            r.Err? && forall i :: 0 <= i < |log| ==> !log[i].StartContainers?
  {
  }

  function ArchiveListCommand(dir: string): string
  {
    "ls -1 " + dir + "/*.tar.gz 2>/dev/null || true"
  }

  function BackupNotFound(dir: string): string
  {
    "Backup directory not found: " + dir
  }

  function RestoreEffects(names: seq<string>, dir: string): (s: seq<Effect>)
    ensures |s| == |names| && forall i :: 0 <= i < |s| ==> s[i] == RestoreVolume(names[i], dir)
  {
    seq(|names|, i requires 0 <= i < |names| => RestoreVolume(names[i], dir))
  }

  /**
   * `perform_restore`: check that the backup directory exists, stop every
   * container, restore a volume from each listed archive (failures
   * ignored), then start the stopped containers.
   */
  function RestoreRun(h: Host, base: string, name: string): (s: (seq<Effect>, Result<()>))
  {
    var dir := base + "/" + name;
    match h.isDir(dir)
    case Err(m) => ([], Err(m))
    case Ok(false) => ([], Err(BackupNotFound(dir)))
    case Ok(true) =>
      var log := [StopAll];
      if h.stopAll.Err? then (log, Err(h.stopAll.msg))
      else
        match h.listing(ArchiveListCommand(dir))
        case Err(m) => (log, Err(m))
        case Ok(out) =>
          Restart(log + RestoreEffects(RestoreNames(ArchiveLines(Lines(out))), dir), h.stopAll.value, h.start)
  }

  /** `perform_restore`, step by step. */
  method PerformRestore(h: Host, base: string, name: string) returns (log: seq<Effect>, r: Result<()>)
    ensures (log, r) == RestoreRun(h, base, name)
  {
    var dir := base + "/" + name;
    var present := h.isDir(dir);
    if present.Err? {
      return [], Err(present.msg);
    }
    if !present.value {
      return [], Err(BackupNotFound(dir));
    }
    log := [StopAll];
    if h.stopAll.Err? {
      return log, Err(h.stopAll.msg);
    }
    var running := h.stopAll.value;
    var listed := h.listing(ArchiveListCommand(dir));
    if listed.Err? {
      return log, Err(listed.msg);
    }
    var restores := RestoreArchives(ArchiveLines(Lines(listed.value)), dir);
    log := log + restores;
    if running != [] {
      log := log + [StartContainers(running)];
      r := h.start;
    } else {
      r := Ok(());
    }
  }

  /** The archive loop of `perform_restore`: one restore per non-empty volume name, in order. */
  method RestoreArchives(files: seq<string>, dir: string) returns (restores: seq<Effect>)
    ensures restores == RestoreEffects(RestoreNames(files), dir)
  {
    restores := [];
    for i := 0 to |files|
      invariant restores == RestoreEffects(RestoreNames(files[..i]), dir)
    {
      assert files[..i + 1][..i] == files[..i];
      var volume := VolumeName(files[i]);
      if volume != "" {
        restores := restores + [RestoreVolume(volume, dir)];
      }
    }
    assert files[..|files|] == files;
  }

  /** A host restore starts containers only as its last step and only the ones it stopped; a missing backup touches nothing. */
  lemma RestoreRestartsStopped(h: Host, base: string, name: string)
    ensures var (log, r) := RestoreRun(h, base, name);
            forall i :: 0 <= i < |log| && log[i].StartContainers? ==>
              i == |log| - 1 && h.stopAll == Ok(log[i].names) && log[i].names != []
    ensures var (log, r) := RestoreRun(h, base, name);
            r.Ok? ==> h.stopAll.Ok? && (h.stopAll.value != [] ==> log[|log| - 1] == StartContainers(h.stopAll.value))
    ensures h.isDir(base + "/" + name) == Ok(false) ==> RestoreRun(h, base, name) == ([], Err(BackupNotFound(base + "/" + name)))
  {
    var dir := base + "/" + name;
    if h.isDir(dir) == Ok(true) && h.stopAll.Ok? && h.listing(ArchiveListCommand(dir)).Ok? {
      RestoreRanThrough(h, base, name);
    } else {
      RestoreStoppedEarly(h, base, name);
    }
  }

  lemma RestoreRanThrough(h: Host, base: string, name: string)
    requires var dir := base + "/" + name; h.isDir(dir) == Ok(true) && h.stopAll.Ok? && h.listing(ArchiveListCommand(dir)).Ok?
    ensures var (log, r) := RestoreRun(h, base, name);
            && (forall i :: 0 <= i < |log| && log[i].StartContainers? ==>
                  i == |log| - 1 && h.stopAll == Ok(log[i].names) && log[i].names != [])
            && (h.stopAll.value != [] ==> log[|log| - 1] == StartContainers(h.stopAll.value))
  {
    var dir := base + "/" + name;
    var listed := h.listing(ArchiveListCommand(dir));
    var restores := RestoreEffects(RestoreNames(ArchiveLines(Lines(listed.value))), dir);
    var log := [StopAll] + restores;
    forall i | 0 <= i < |log| ensures !log[i].StartContainers? {
      if i > 0 {
        assert log[i] == restores[i - 1];
      }
    }
    assert RestoreRun(h, base, name) == Restart(log, h.stopAll.value, h.start);
    RestartOnlyAtEnd(log, h.stopAll.value, h.start);
  }

  lemma RestoreStoppedEarly(h: Host, base: string, name: string)
    requires var dir := base + "/" + name; !(h.isDir(dir) == Ok(true) && h.stopAll.Ok? && h.listing(ArchiveListCommand(dir)).Ok?)
    ensures var (log, r) := RestoreRun(h, base, name);
            r.Err? && (log == [] || log == [StopAll])
    ensures h.isDir(base + "/" + name) == Ok(false) ==> RestoreRun(h, base, name) == ([], Err(BackupNotFound(base + "/" + name)))
  {
  }

  /** Restarting appends the one start of the stopped containers, if any, to a log that had none. */
  lemma RestartOnlyAtEnd(log: seq<Effect>, stopped: seq<string>, start: Result<()>)
    requires forall i :: 0 <= i < |log| ==> !log[i].StartContainers?
    ensures var (log2, r) := Restart(log, stopped, start);
            && (forall i :: 0 <= i < |log2| && log2[i].StartContainers? ==>
                  i == |log2| - 1 && log2[i].names == stopped && stopped != [])
            && (stopped != [] ==> log2[|log2| - 1] == StartContainers(stopped))
            && (stopped == [] ==> r == Ok(()))
  {
  }
}
