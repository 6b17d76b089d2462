/**
 * Local and Tailscale address discovery from the output of `ip addr show`,
 * `hostname -I`, `ifconfig` (Unix) and `ipconfig` (Windows).
 * Each command's stdout is a parameter: `None` when the command could not be spawned.
 */
module Networking {
  import opened Wrappers
  import opened Strings

  // ---------------------------------------------------------------------------
  // Generic collection: candidates extracted per line, appended when accepted and new

  /** The candidates that `extract` yields for `lines`, in order. */
  function Candidates(lines: seq<string>, extract: string -> Option<string>): seq<string>
    decreases |lines|
  {
    if lines == [] then []
    else
      var prev := Candidates(lines[..|lines| - 1], extract);
      match extract(lines[|lines| - 1])
      case None => prev
      case Some(c) => prev + [c]
  }

  /** `acc` extended by every accepted candidate not already present (the `!ips.contains` guard). */
  function Accumulate(acc: seq<string>, cands: seq<string>, ok: string -> bool): seq<string>
    decreases |cands|
  {
    if cands == [] then acc
    else
      var prev := Accumulate(acc, cands[..|cands| - 1], ok);
      var c := cands[|cands| - 1];
      if ok(c) && c !in prev then prev + [c] else prev
  }

  /** `acc` extended by every accepted candidate, duplicates included (the Windows branch). */
  function AppendAccepted(acc: seq<string>, cands: seq<string>, ok: string -> bool): seq<string>
    decreases |cands|
  {
    if cands == [] then acc
    else
      var prev := AppendAccepted(acc, cands[..|cands| - 1], ok);
      var c := cands[|cands| - 1];
      if ok(c) then prev + [c] else prev
  }

  /** One collection loop: for each line, extract a candidate and push it when accepted and new. */
  method CollectNew(acc: seq<string>, lines: seq<string>, extract: string -> Option<string>, ok: string -> bool)
    returns (ips: seq<string>)
    ensures ips == Accumulate(acc, Candidates(lines, extract), ok)
  {
    ips := acc;
    var i := 0;
    while i < |lines|
      invariant 0 <= i <= |lines|
      invariant ips == Accumulate(acc, Candidates(lines[..i], extract), ok)
    {
      assert lines[..i + 1][..i] == lines[..i];
      match extract(lines[i]) {
        case None =>
        case Some(ip) =>
          if ok(ip) && ip !in ips {
            ips := ips + [ip];
          }
      }
      i := i + 1;
    }
    assert lines[..i] == lines;
  }

  /** The same loop without the duplicate guard. */
  method CollectAll(acc: seq<string>, lines: seq<string>, extract: string -> Option<string>, ok: string -> bool)
    returns (ips: seq<string>)
    ensures ips == AppendAccepted(acc, Candidates(lines, extract), ok)
  {
    ips := acc;
    var i := 0;
    while i < |lines|
      invariant 0 <= i <= |lines|
      invariant ips == AppendAccepted(acc, Candidates(lines[..i], extract), ok)
    {
      CandidatesStep(lines, i, extract);
      match extract(lines[i]) {
        case None =>
        case Some(ip) =>
          AppendAcceptedSnoc(acc, Candidates(lines[..i], extract), ip, ok);
          if ok(ip) {
            ips := ips + [ip];
          }
      }
      i := i + 1;
    }
    assert lines[..i] == lines;
  }

  /** One more line adds its candidate, if it has one. */
  lemma CandidatesStep(lines: seq<string>, i: nat, extract: string -> Option<string>)
    requires i < |lines|
    ensures Candidates(lines[..i + 1], extract) ==
      match extract(lines[i])
      case None => Candidates(lines[..i], extract)
      case Some(c) => Candidates(lines[..i], extract) + [c]
  {
    assert lines[..i + 1][..i] == lines[..i];
  }

  lemma AppendAcceptedSnoc(acc: seq<string>, cands: seq<string>, c: string, ok: string -> bool)
    ensures AppendAccepted(acc, cands + [c], ok) ==
      if ok(c) then AppendAccepted(acc, cands, ok) + [c] else AppendAccepted(acc, cands, ok)
  {
    assert (cands + [c])[..|cands|] == cands;
  }

  lemma {:induction false} AccumulateKeepsPrefix(acc: seq<string>, cands: seq<string>, ok: string -> bool)
    ensures |acc| <= |Accumulate(acc, cands, ok)|
    ensures Accumulate(acc, cands, ok)[..|acc|] == acc
    decreases |cands|
  {
    if cands != [] {
      AccumulateKeepsPrefix(acc, cands[..|cands| - 1], ok);
    }
  }

  lemma {:induction false} AccumulateNoDuplicates(acc: seq<string>, cands: seq<string>, ok: string -> bool)
    requires NoDuplicates(acc)
    ensures NoDuplicates(Accumulate(acc, cands, ok))
    decreases |cands|
  {
    if cands != [] {
      AccumulateNoDuplicates(acc, cands[..|cands| - 1], ok);
    }
  }

  /** Everything in the result was already there or is an accepted candidate. */
  lemma {:induction false} AccumulateSound(acc: seq<string>, cands: seq<string>, ok: string -> bool, x: string)
    requires x in Accumulate(acc, cands, ok)
    ensures x in acc || (x in cands && ok(x))
    decreases |cands|
  {
    if cands != [] {
      var init := cands[..|cands| - 1];
      if x in Accumulate(acc, init, ok) {
        AccumulateSound(acc, init, ok, x);
        if x in init {
          var k :| 0 <= k < |init| && init[k] == x;
          assert cands[k] == x;
        }
      }
    }
  }

  /** Every accepted candidate ends up in the result. */
  lemma {:induction false} AccumulateComplete(acc: seq<string>, cands: seq<string>, ok: string -> bool, x: string)
    requires x in acc || (x in cands && ok(x))
    ensures x in Accumulate(acc, cands, ok)
    decreases |cands|
  {
    if cands != [] {
      var init := cands[..|cands| - 1];
      var last := cands[|cands| - 1];
      if x in acc || x in init {
        AccumulateComplete(acc, init, ok, x);
        PrefixMember(Accumulate(acc, init, ok), Accumulate(acc, cands, ok), x);
      } else {
        assert cands == init + [last];
        assert x == last;
      }
    }
  }

  lemma PrefixMember(a: seq<string>, b: seq<string>, x: string)
    requires x in a
    requires b == a || (|b| == |a| + 1 && b[..|a|] == a)
    ensures x in b
  {
    if b != a {
      var k :| 0 <= k < |a| && a[k] == x;
      assert b[k] == x;
    }
  }

  lemma {:induction false} AppendAcceptedSplit(acc: seq<string>, c1: seq<string>, c2: seq<string>, ok: string -> bool)
    ensures AppendAccepted(acc, c1 + c2, ok) == AppendAccepted(AppendAccepted(acc, c1, ok), c2, ok)
    decreases |c2|
  {
    if c2 == [] {
      assert c1 + c2 == c1;
    } else {
      assert (c1 + c2)[..|c1 + c2| - 1] == c1 + c2[..|c2| - 1];
      assert (c1 + c2)[|c1 + c2| - 1] == c2[|c2| - 1];
      AppendAcceptedSplit(acc, c1, c2[..|c2| - 1], ok);
    }
  }

  // ---------------------------------------------------------------------------
  // Line filters and extraction

  /** `ip addr show`: a line mentioning "inet " and no loopback; token 2 up to '/'. */
  function IpAddrLocal(line: string): Option<string>
  {
    if Contains(line, "inet ") && !Contains(line, "127.0.0.1") && !Contains(line, "::1") then
      var t := SplitWhitespace(line);
      if |t| >= 2 then Some(Trim(Split(t[1], '/')[0])) else None
    else None
  }

  /** `ifconfig`: same line filter, token 2 as is. */
  function IfconfigLocal(line: string): Option<string>
  {
    if Contains(line, "inet ") && !Contains(line, "127.0.0.1") && !Contains(line, "::1") then
      var t := SplitWhitespace(line);
      if |t| >= 2 then Some(Trim(t[1])) else None
    else None
  }

  /** `ip addr show` for Tailscale: a line mentioning "inet " and "100.". */
  function IpAddrTailscale(line: string): Option<string>
  {
    if Contains(line, "inet ") && Contains(line, "100.") then
      var t := SplitWhitespace(line);
      if |t| >= 2 then Some(Trim(Split(t[1], '/')[0])) else None
    else None
  }

  function IfconfigTailscale(line: string): Option<string>
  {
    if Contains(line, "inet ") && Contains(line, "100.") then
      var t := SplitWhitespace(line);
      if |t| >= 2 then Some(Trim(t[1])) else None
    else None
  }

  /** `hostname -I`: every whitespace token, trimmed. */
  function Token(tok: string): Option<string>
  {
    Some(Trim(tok))
  }

  /** `ipconfig`: an "IPv4 Address" line; the text after the first ':' up to the next, trimmed. */
  function IpconfigLocal(line: string): Option<string>
  {
    if Contains(line, "IPv4 Address") || Contains(line, "IPv4 地址") then
      var parts := Split(line, ':');
      if |parts| >= 2 then Some(Trim(parts[1])) else None
    else None
  }

  function IpconfigTailscale(line: string): Option<string>
  {
    if (Contains(line, "IPv4 Address") || Contains(line, "IPv4 地址")) && Contains(line, "100.") then
      var parts := Split(line, ':');
      if |parts| >= 2 then Some(Trim(parts[1])) else None
    else None
  }

  /** Acceptance of a local address: not empty, not Tailscale (100.), not loopback (127.). */
  predicate LocalOk(ip: string)
  {
    ip != "" && !StartsWith(ip, "100.") && !StartsWith(ip, "127.")
  }

  /** `hostname -I` additionally rejects "::1". */
  predicate LocalOkToken(ip: string)
  {
    LocalOk(ip) && !StartsWith(ip, "::1")
  }

  predicate TailscaleOk(ip: string)
  {
    ip != "" && StartsWith(ip, "100.")
  }

  predicate NonEmpty(ip: string) { ip != "" }

  function OutputLines(out: Option<string>): seq<string>
  {
    match out
    case None => []
    case Some(s) => Lines(s)
  }

  function OutputTokens(out: Option<string>): seq<string>
  {
    match out
    case None => []
    case Some(s) => SplitWhitespace(s)
  }

  // ---------------------------------------------------------------------------
  // The specification of both lookups

  function IpAddrLocalIps(ipAddr: Option<string>): seq<string>
  {
    Accumulate([], Candidates(OutputLines(ipAddr), IpAddrLocal), LocalOk)
  }

  function LocalIps(ipAddr: Option<string>, hostnameI: Option<string>, ifconfig: Option<string>): seq<string>
  {
    var a := IpAddrLocalIps(ipAddr);
    var b := Accumulate(a, Candidates(OutputTokens(hostnameI), Token), LocalOkToken);
    Accumulate(b, Candidates(OutputLines(ifconfig), IfconfigLocal), LocalOk)
  }

  function TailscaleIps(ipAddr: Option<string>, hostnameI: Option<string>, ifconfig: Option<string>): seq<string>
  {
    var a := Accumulate([], Candidates(OutputLines(ipAddr), IpAddrTailscale), TailscaleOk);
    var b := Accumulate(a, Candidates(OutputTokens(hostnameI), Token), TailscaleOk);
    Accumulate(b, Candidates(OutputLines(ifconfig), IfconfigTailscale), TailscaleOk)
  }

  function WindowsLocalIps(ipconfig: Option<string>): seq<string>
  {
    AppendAccepted([], Candidates(OutputLines(ipconfig), IpconfigLocal), NonEmpty)
  }

  function WindowsTailscaleIps(ipconfig: Option<string>): seq<string>
  {
    AppendAccepted([], Candidates(OutputLines(ipconfig), IpconfigTailscale), TailscaleOk)
  }

  // ---------------------------------------------------------------------------
  // The operations

  /** `get_local_ips` on Unix: the three sources in order; never an error. */
  method GetLocalIps(ipAddr: Option<string>, hostnameI: Option<string>, ifconfig: Option<string>)
    returns (ips: seq<string>)
    ensures ips == LocalIps(ipAddr, hostnameI, ifconfig)
    ensures NoDuplicates(ips)
    ensures forall k :: 0 <= k < |ips| ==> LocalOk(ips[k])
  {
    ips := CollectNew([], OutputLines(ipAddr), IpAddrLocal, LocalOk);
    ips := CollectNew(ips, OutputTokens(hostnameI), Token, LocalOkToken);
    ips := CollectNew(ips, OutputLines(ifconfig), IfconfigLocal, LocalOk);
    LocalIpsProperties(ipAddr, hostnameI, ifconfig);
  }

  /** `get_tailscale_ips` on Unix. */
  method GetTailscaleIps(ipAddr: Option<string>, hostnameI: Option<string>, ifconfig: Option<string>)
    returns (ips: seq<string>)
    ensures ips == TailscaleIps(ipAddr, hostnameI, ifconfig)
    ensures NoDuplicates(ips)
    ensures forall k :: 0 <= k < |ips| ==> TailscaleOk(ips[k])
  {
    ips := CollectNew([], OutputLines(ipAddr), IpAddrTailscale, TailscaleOk);
    ips := CollectNew(ips, OutputTokens(hostnameI), Token, TailscaleOk);
    ips := CollectNew(ips, OutputLines(ifconfig), IfconfigTailscale, TailscaleOk);
    TailscaleIpsProperties(ipAddr, hostnameI, ifconfig);
  }

  /** `get_local_ips` on Windows: no duplicate guard. */
  method GetLocalIpsWindows(ipconfig: Option<string>) returns (ips: seq<string>)
    ensures ips == WindowsLocalIps(ipconfig)
  {
    ips := CollectAll([], OutputLines(ipconfig), IpconfigLocal, NonEmpty);
  }

  /** `get_tailscale_ips` on Windows. */
  method GetTailscaleIpsWindows(ipconfig: Option<string>) returns (ips: seq<string>)
    ensures ips == WindowsTailscaleIps(ipconfig)
  {
    ips := CollectAll([], OutputLines(ipconfig), IpconfigTailscale, TailscaleOk);
  }

  // ---------------------------------------------------------------------------
  // Properties

  lemma AccumulateAll(acc: seq<string>, cands: seq<string>, ok: string -> bool, P: string -> bool)
    requires forall k :: 0 <= k < |acc| ==> P(acc[k])
    requires forall x :: ok(x) ==> P(x)
    ensures forall k :: 0 <= k < |Accumulate(acc, cands, ok)| ==> P(Accumulate(acc, cands, ok)[k])
  {
    var r := Accumulate(acc, cands, ok);
    forall k | 0 <= k < |r| ensures P(r[k]) {
      AccumulateSound(acc, cands, ok, r[k]);
    }
  }

  /** The Unix local lookup has no duplicates and never yields a Tailscale or loopback address. */
  lemma LocalIpsProperties(ipAddr: Option<string>, hostnameI: Option<string>, ifconfig: Option<string>)
    ensures NoDuplicates(LocalIps(ipAddr, hostnameI, ifconfig))
    ensures forall k :: 0 <= k < |LocalIps(ipAddr, hostnameI, ifconfig)| ==>
      var ip := LocalIps(ipAddr, hostnameI, ifconfig)[k];
      ip != "" && !StartsWith(ip, "100.") && !StartsWith(ip, "127.")
  {
    var ca := Candidates(OutputLines(ipAddr), IpAddrLocal);
    var cb := Candidates(OutputTokens(hostnameI), Token);
    var cc := Candidates(OutputLines(ifconfig), IfconfigLocal);
    var a := Accumulate([], ca, LocalOk);
    var b := Accumulate(a, cb, LocalOkToken);
    AccumulateNoDuplicates([], ca, LocalOk);
    AccumulateNoDuplicates(a, cb, LocalOkToken);
    AccumulateNoDuplicates(b, cc, LocalOk);
    AccumulateAll([], ca, LocalOk, LocalOk);
    AccumulateAll(a, cb, LocalOkToken, LocalOk);
    AccumulateAll(b, cc, LocalOk, LocalOk);
  }

  /** The Unix Tailscale lookup has no duplicates and every address is in 100.x. */
  lemma TailscaleIpsProperties(ipAddr: Option<string>, hostnameI: Option<string>, ifconfig: Option<string>)
    ensures NoDuplicates(TailscaleIps(ipAddr, hostnameI, ifconfig))
    ensures forall k :: 0 <= k < |TailscaleIps(ipAddr, hostnameI, ifconfig)| ==>
      StartsWith(TailscaleIps(ipAddr, hostnameI, ifconfig)[k], "100.")
  {
    var ca := Candidates(OutputLines(ipAddr), IpAddrTailscale);
    var cb := Candidates(OutputTokens(hostnameI), Token);
    var cc := Candidates(OutputLines(ifconfig), IfconfigTailscale);
    var a := Accumulate([], ca, TailscaleOk);
    var b := Accumulate(a, cb, TailscaleOk);
    AccumulateNoDuplicates([], ca, TailscaleOk);
    AccumulateNoDuplicates(a, cb, TailscaleOk);
    AccumulateNoDuplicates(b, cc, TailscaleOk);
    AccumulateAll([], ca, TailscaleOk, TailscaleOk);
    AccumulateAll(a, cb, TailscaleOk, TailscaleOk);
    AccumulateAll(b, cc, TailscaleOk, TailscaleOk);
  }

  /**
   * Order: the addresses from `ip addr` come first, in their own order, and every
   * address accepted from any of the three sources is present.
   */
  lemma LocalIpsOrderAndCompleteness(ipAddr: Option<string>, hostnameI: Option<string>, ifconfig: Option<string>, x: string)
    ensures var r := LocalIps(ipAddr, hostnameI, ifconfig);
      |IpAddrLocalIps(ipAddr)| <= |r| && r[..|IpAddrLocalIps(ipAddr)|] == IpAddrLocalIps(ipAddr)
    ensures (x in Candidates(OutputLines(ipAddr), IpAddrLocal) && LocalOk(x))
         || (x in Candidates(OutputTokens(hostnameI), Token) && LocalOkToken(x))
         || (x in Candidates(OutputLines(ifconfig), IfconfigLocal) && LocalOk(x))
         <==> x in LocalIps(ipAddr, hostnameI, ifconfig)
  {
    var ca := Candidates(OutputLines(ipAddr), IpAddrLocal);
    var cb := Candidates(OutputTokens(hostnameI), Token);
    var cc := Candidates(OutputLines(ifconfig), IfconfigLocal);
    var a := Accumulate([], ca, LocalOk);
    var b := Accumulate(a, cb, LocalOkToken);
    var r := Accumulate(b, cc, LocalOk);
    AccumulateKeepsPrefix(a, cb, LocalOkToken);
    AccumulateKeepsPrefix(b, cc, LocalOk);
    assert r[..|a|] == r[..|b|][..|a|];
    if x in r {
      AccumulateSound(b, cc, LocalOk, x);
      if x in b {
        AccumulateSound(a, cb, LocalOkToken, x);
        if x in a { AccumulateSound([], ca, LocalOk, x); }
      }
    }
    if (x in ca && LocalOk(x)) || (x in cb && LocalOkToken(x)) || (x in cc && LocalOk(x)) {
      if x in ca && LocalOk(x) { AccumulateComplete([], ca, LocalOk, x); }
      if x in a || (x in cb && LocalOkToken(x)) { AccumulateComplete(a, cb, LocalOkToken, x); }
      AccumulateComplete(b, cc, LocalOk, x);
    }
  }

  /** The Windows branch keeps duplicates: two identical address lines give the address twice. */
  lemma WindowsKeepsDuplicates(line: string, ip: string)
    requires IpconfigLocal(line) == Some(ip) && ip != ""
    ensures AppendAccepted([], Candidates([line, line], IpconfigLocal), NonEmpty) == [ip, ip]
  {
    assert [line, line][..1] == [line];
    assert [line][..0] == [];
    assert Candidates([line], IpconfigLocal) == [ip];
    assert Candidates([line, line], IpconfigLocal) == [ip, ip];
    assert [ip, ip][..1] == [ip];
    assert [ip][..0] == [];
    assert AppendAccepted([], [ip], NonEmpty) == [ip];
  }
}
