/**
 * The self-update decision: whether the latest GitHub release is newer
 * than the running version, and the name and download address of the
 * release archive for a platform. The HTTP exchange is a parameter.
 */
module Update {
  import opened Wrappers
  import opened Strings

  const REPO_OWNER := "scottdkey"
  const REPO_NAME := "homelab"
  const FETCH_FAILED := "Failed to fetch latest release"
  const PARSE_FAILED := "Failed to parse release JSON"

  /** The reply to the latest-release request: not sent, or a status and the `tag_name` of a body that parses. */
  datatype Reply = SendFailed | Reply(success: bool, tagName: Option<string>)

  /** A version without its leading 'v's. */
  function Normalize(v: string): (r: string)
    ensures r == [] || r[0] != 'v'
  {
    TrimStartMatches(v, 'v')
  }

  /** `n` letters 'v'. */
  function Vs(n: nat): string
  {
    if n == 0 then "" else "v" + Vs(n - 1)
  }

  /** Leading 'v's do not change the normalized version. */
  lemma {:induction false} NormalizeIgnoresV(n: nat, v: string)
    ensures Normalize(Vs(n) + v) == Normalize(v)
    decreases n
  {
    if n > 0 {
      var s := Vs(n) + v;
      assert s == "v" + (Vs(n - 1) + v);
      assert s[0] == 'v' && s[1..] == Vs(n - 1) + v;
      NormalizeIgnoresV(n - 1, v);
    } else {
      assert Vs(n) + v == v;
    }
  }

  /** The comparison as written: the normalized versions differ and the latest is greater in string order. */
  predicate IsNewerAsWritten(latest: string, current: string)
  {
    var l := Normalize(latest);
    var c := Normalize(current);
    l != c && StrLt(c, l)
  }

  /**
   * `check_for_updates`: nothing in development mode or for a debug build,
   * nothing for an HTTP failure status, an error when the request cannot be
   * sent or its body not parsed, and otherwise the raw tag of a newer
   * release.
   */
  function CheckForUpdates(current: string, devMode: bool, debugBuild: bool, reply: Reply): (r: Result<Option<string>>)
    ensures devMode || debugBuild ==> r == Ok(None)
    ensures !devMode && !debugBuild && reply.Reply? && !reply.success ==> r == Ok(None)
    ensures r.Err? <==> !devMode && !debugBuild && (reply.SendFailed? || (reply.success && reply.tagName.None?))
    ensures r.Ok? && r.value.Some? ==>
              reply.Reply? && reply.tagName == Some(r.value.value) && IsNewerAsWritten(r.value.value, current)
    ensures (!devMode && !debugBuild && reply.Reply? && reply.success && reply.tagName.Some? &&
             IsNewerAsWritten(reply.tagName.value, current)) ==> r == Ok(reply.tagName)
  {
    if devMode || debugBuild then Ok(None)
    else
      match reply
      case SendFailed => Err(FETCH_FAILED)
      case Reply(success, tag) =>
        if !success then Ok(None)
        else if tag.None? then Err(PARSE_FAILED)
        else if IsNewerAsWritten(tag.value, current) then Ok(Some(tag.value))
        else Ok(None)
  }

  /** The inequality test is implied by the order test: newer is exactly greater in string order. */
  lemma NewerIsGreater(latest: string, current: string)
    ensures IsNewerAsWritten(latest, current) <==> StrLt(Normalize(current), Normalize(latest))
  {
    if StrLt(Normalize(current), Normalize(latest)) {
      StrLtIrreflexive(Normalize(current));
    }
  }

  /** No update between versions equal up to leading 'v's, and never in both directions. */
  lemma NewerIsStrict(a: string, b: string)
    ensures Normalize(a) == Normalize(b) ==> !IsNewerAsWritten(a, b)
    ensures !(IsNewerAsWritten(a, b) && IsNewerAsWritten(b, a))
  {
    if IsNewerAsWritten(a, b) && IsNewerAsWritten(b, a) {
      StrLtAsymmetric(Normalize(a), Normalize(b));
    }
  }

  /** Of two versions that differ after normalizing, exactly one is newer than the other. */
  lemma NewerIsTotal(a: string, b: string)
    requires Normalize(a) != Normalize(b)
    ensures IsNewerAsWritten(a, b) != IsNewerAsWritten(b, a)
  {
    StrLtTotal(Normalize(a), Normalize(b));
    NewerIsStrict(a, b);
  }

  /** Release v0.10.0 is not offered to a user of 0.9.0: '1' sorts before '9'. */
  lemma TenAfterNineNotOffered()
    ensures CheckForUpdates("0.9.0", false, false, Reply(true, Some("v0.10.0"))) == Ok(None)
  {
    assert Normalize("v0.10.0") == "0.10.0" by {
      assert "v0.10.0"[1..] == "0.10.0";
    }
    assert Normalize("0.9.0") == "0.9.0";
    assert "0.9.0"[1..] == ".9.0" && "0.10.0"[1..] == ".10.0";
    assert ".9.0"[1..] == "9.0" && ".10.0"[1..] == "10.0";
    assert !StrLt("9.0", "10.0");
    assert !StrLt("0.9.0", "0.10.0");
  }

  // ---------------------------------------------------------------------------
  // Version order by numeric components

  /** Each '.'-separated component as a number, when all of them are decimal numbers. */
  function ParseComponents(ps: seq<string>): (r: Option<seq<nat>>)
    ensures r.Some? ==> |r.value| == |ps|
  {
    if ps == [] then Some([])
    else
      match (ParseUnsigned(ps[0], U32_MAX), ParseComponents(ps[1..]))
      case (Some(n), Some(ns)) => Some([n] + ns)
      case _ => None
  }

  function VersionParts(v: string): Option<seq<nat>>
  {
    ParseComponents(Split(Normalize(v), '.'))
  }

  /** Lexicographic order of component lists; a proper prefix is smaller. */
  predicate PartsLt(a: seq<nat>, b: seq<nat>)
    decreases |a|
  {
    if a == [] then b != []
    else if b == [] then false
    else if a[0] != b[0] then a[0] < b[0]
    else PartsLt(a[1..], b[1..])
  }

  lemma {:induction false} PartsLtIrreflexive(a: seq<nat>)
    ensures !PartsLt(a, a)
    decreases |a|
  {
    if a != [] {
      PartsLtIrreflexive(a[1..]);
    }
  }

  lemma {:induction false} PartsLtAsymmetric(a: seq<nat>, b: seq<nat>)
    ensures !(PartsLt(a, b) && PartsLt(b, a))
    decreases |a|
  {
    if a != [] && b != [] && a[0] == b[0] {
      PartsLtAsymmetric(a[1..], b[1..]);
    }
  }

  /**
   * The intended comparison: by numeric components when both versions are
   * dotted numbers, else by string order as before.
   */
  predicate SemverNewer(latest: string, current: string)
  {
    match (VersionParts(latest), VersionParts(current))
    case (Some(l), Some(c)) => PartsLt(c, l)
    case _ => IsNewerAsWritten(latest, current)
  }

  /** A version written out from its components. */
  function Render(ns: seq<nat>): string
  {
    Join(RenderAll(ns), ".")
  }

  function RenderAll(ns: seq<nat>): (r: seq<string>)
    ensures |r| == |ns|
    ensures forall i :: 0 <= i < |r| ==> r[i] == NatToString(ns[i])
  {
    if ns == [] then [] else [NatToString(ns[0])] + RenderAll(ns[1..])
  }

  lemma {:induction false} ParseRendered(ns: seq<nat>)
    requires forall i :: 0 <= i < |ns| ==> ns[i] <= U32_MAX
    ensures ParseComponents(RenderAll(ns)) == Some(ns)
    decreases |ns|
  {
    if ns != [] {
      ParseNatToString(ns[0], U32_MAX);
      ParseRendered(ns[1..]);
      assert RenderAll(ns)[1..] == RenderAll(ns[1..]);
      assert [ns[0]] + ns[1..] == ns;
    }
  }

  /** A rendered version reads back as its components. */
  lemma VersionPartsOfRender(ns: seq<nat>)
    requires ns != []
    requires forall i :: 0 <= i < |ns| ==> ns[i] <= U32_MAX
    ensures VersionParts(Render(ns)) == Some(ns)
  {
    var strs := RenderAll(ns);
    forall i | 0 <= i < |strs| ensures '.' !in strs[i] {
      forall k | 0 <= k < |strs[i]| ensures strs[i][k] != '.' {
        assert IsDigit(strs[i][k]);
      }
    }
    SplitJoin(strs, '.');
    assert IsDigit(strs[0][0]);
    assert Render(ns) == [strs[0][0]] + Render(ns)[1..] by {
      JoinHead(strs, ".");
    }
    assert Normalize(Render(ns)) == Render(ns);
    ParseRendered(ns);
  }

  lemma JoinHead(ps: seq<string>, sep: string)
    requires ps != [] && ps[0] != []
    ensures Join(ps, sep) != [] && Join(ps, sep)[0] == ps[0][0]
  {
  }

  /** On rendered versions the intended comparison is the numeric one, so 0.10.0 is newer than 0.9.0. */
  lemma SemverNewerOfRender(latest: seq<nat>, current: seq<nat>)
    requires latest != [] && current != []
    requires forall i :: 0 <= i < |latest| ==> latest[i] <= U32_MAX
    requires forall i :: 0 <= i < |current| ==> current[i] <= U32_MAX
    ensures SemverNewer(Render(latest), Render(current)) <==> PartsLt(current, latest)
    ensures SemverNewer(Render(latest), Render(current)) ==> !SemverNewer(Render(current), Render(latest))
    ensures !SemverNewer(Render(latest), Render(latest))
  {
    VersionPartsOfRender(latest);
    VersionPartsOfRender(current);
    PartsLtAsymmetric(current, latest);
    PartsLtIrreflexive(latest);
  }

  // ---------------------------------------------------------------------------
  // Release archive

  datatype Os = Linux | MacOs | Windows | OtherOs
  datatype Cpu = X86_64 | Aarch64 | OtherCpu

  const UNSUPPORTED_PLATFORM := "Unsupported platform for auto-update"
  const UNSUPPORTED_ARCH := "Unsupported architecture for auto-update"

  function PlatformName(os: Os): string
    requires os != OtherOs
  {
    match os
    case Linux => "linux"
    case MacOs => "darwin"
    case Windows => "windows"
  }

  function ArchName(cpu: Cpu): string
    requires cpu != OtherCpu
  {
    match cpu
    case X86_64 => "amd64"
    case Aarch64 => "arm64"
  }

  function Extension(os: Os): string
  {
    if os == Windows then ".zip" else ".tar.gz"
  }

  /** The archive's file name and its download address. */
  datatype Download = Download(asset: string, url: string)

  function UrlPrefix(): string
  {
    "https://github.com/" + REPO_OWNER + "/" + REPO_NAME + "/releases/download/"
  }

  /** What follows the version in an archive name: `-<os>-<arch><ext>`. */
  function Tail(os: Os, cpu: Cpu): (r: string)
    requires os != OtherOs && cpu != OtherCpu
    ensures '/' !in r && EndsWith(r, Extension(os))
  {
    var e := Extension(os);
    var r := "-" + PlatformName(os) + "-" + ArchName(cpu) + e;
    assert r[|r| - |e|..] == e;
    r
  }

  function AssetName(version: string, os: Os, cpu: Cpu): string
    requires os != OtherOs && cpu != OtherCpu
  {
    "hal-" + Normalize(version) + Tail(os, cpu)
  }

  /**
   * The archive for a release on a platform: `hal-<version without 'v'>-<os>-<arch><ext>`,
   * downloaded from the release of the unmodified version. An unknown
   * platform is rejected before an unknown architecture.
   */
  function ReleaseDownload(version: string, os: Os, cpu: Cpu): (r: Result<Download>)
    ensures os == OtherOs ==> r == Err(UNSUPPORTED_PLATFORM)
    ensures os != OtherOs && cpu == OtherCpu ==> r == Err(UNSUPPORTED_ARCH)
    ensures r.Ok? <==> os != OtherOs && cpu != OtherCpu
    ensures r.Ok? ==> r.value.url == UrlPrefix() + version + "/" + r.value.asset
  {
    if os == OtherOs then Err(UNSUPPORTED_PLATFORM)
    else if cpu == OtherCpu then Err(UNSUPPORTED_ARCH)
    else
      var asset := AssetName(version, os, cpu);
      Ok(Download(asset, UrlPrefix() + version + "/" + asset))
  }

  lemma Affixes(p: string, m: string, t: string)
    ensures (p + m + t)[..|p|] == p
    ensures (p + m + t)[|p|..|p| + |m|] == m
  {
  }

  lemma EndsWithAppend(q: string, t: string, e: string)
    requires EndsWith(t, e)
    ensures StartsWith(q + t, q) && EndsWith(q + t, e)
  {
    var a := q + t;
    assert a[..|q|] == q;
    assert a[|a| - |e|..] == t[|t| - |e|..];
  }

  /** The archive name starts with `hal-` and the normalized version and ends with the platform's extension. */
  lemma AssetShape(version: string, os: Os, cpu: Cpu)
    requires os != OtherOs && cpu != OtherCpu
    ensures var a := ReleaseDownload(version, os, cpu).value.asset;
            StartsWith(a, "hal-" + Normalize(version)) && EndsWith(a, Extension(os))
  {
    EndsWithAppend("hal-" + Normalize(version), Tail(os, cpu), Extension(os));
  }

  /** Different normalized versions get different archive names on the same platform. */
  lemma AssetDistinguishesVersions(v1: string, v2: string, os: Os, cpu: Cpu)
    requires os != OtherOs && cpu != OtherCpu
    requires ReleaseDownload(v1, os, cpu).value.asset == ReleaseDownload(v2, os, cpu).value.asset
    ensures Normalize(v1) == Normalize(v2)
  {
    var t := Tail(os, cpu);
    Affixes("hal-", Normalize(v1), t);
    Affixes("hal-", Normalize(v2), t);
  }

  lemma SlashSeparated(p: string, v1: string, a1: string, v2: string, a2: string)
    requires '/' !in v1 && '/' !in v2
    requires p + v1 + "/" + a1 == p + v2 + "/" + a2
    ensures v1 == v2
  {
    var r1 := v1 + "/" + a1;
    var r2 := v2 + "/" + a2;
    assert r1 == (p + v1 + "/" + a1)[|p|..];
    assert r2 == (p + v2 + "/" + a2)[|p|..];
    IndexOfAfter(v1, '/', a1);
    IndexOfAfter(v2, '/', a2);
    assert r1[..|v1|] == v1 && r2[..|v2|] == v2;
  }

  /** The raw version is recoverable from the address: two versions without '/' share an address only when equal. */
  lemma UrlDistinguishesVersions(v1: string, v2: string, os: Os, cpu: Cpu)
    requires os != OtherOs && cpu != OtherCpu
    requires '/' !in v1 && '/' !in v2
    requires ReleaseDownload(v1, os, cpu).value.url == ReleaseDownload(v2, os, cpu).value.url
    ensures v1 == v2
  {
    SlashSeparated(UrlPrefix(), v1, AssetName(v1, os, cpu), v2, AssetName(v2, os, cpu));
  }

  /** The archive name is the last path component of the address. */
  lemma UrlEndsWithAsset(version: string, os: Os, cpu: Cpu)
    requires os != OtherOs && cpu != OtherCpu
    requires '/' !in version
    ensures var d := ReleaseDownload(version, os, cpu).value;
            var ps := Split(d.url, '/');
            ps[|ps| - 1] == d.asset
  {
    var d := ReleaseDownload(version, os, cpu).value;
    var a := AssetName(version, os, cpu);
    assert d.asset == a;
    AssetNoSlash(version, os, cpu);
    var pre := UrlPrefix() + version;
    assert d.url == pre + ['/'] + a;
    SplitLastPiece(pre, '/', a);
  }

  lemma AssetNoSlash(version: string, os: Os, cpu: Cpu)
    requires os != OtherOs && cpu != OtherCpu
    requires '/' !in version
    ensures '/' !in AssetName(version, os, cpu)
  {
    var n := Normalize(version);
    assert n == version[|version| - |n|..];
    assert '/' !in n;
    var t := Tail(os, cpu);
    assert '/' !in "hal-" + n;
    assert AssetName(version, os, cpu) == ("hal-" + n) + t;
  }
}
