/**
 * Agent discovery: candidate hosts from the Tailscale peer roster and from a
 * sweep of addresses near each local address, merged by sorting on the
 * host's address and dropping adjacent duplicates. Whether an agent answers
 * at an address and port is a parameter (`reach`).
 */
module Discovery {
  import opened Wrappers
  import opened Strings
  import opened TailscaleService

  /** `HostDiscovery::default()`: the port agents are probed on. */
  const DEFAULT_AGENT_PORT: nat := 13001

  datatype DiscoveredHost = DiscoveredHost(
    hostname: string,
    localIp: Option<string>,
    tailscaleIp: Option<string>,
    tailscaleHostname: Option<string>,
    agentPort: nat,
    reachable: bool)

  datatype HostDiscovery = HostDiscovery(agentPort: nat)

  function NewDiscovery(agentPort: nat): (d: HostDiscovery)
    ensures d.agentPort == agentPort
  {
    HostDiscovery(agentPort)
  }

  function DefaultDiscovery(): (d: HostDiscovery)
    ensures d.agentPort == 13001
  {
    HostDiscovery(DEFAULT_AGENT_PORT)
  }

  // ---------------------------------------------------------------------------
  // Tailscale candidates

  function TailscaleHost(d: HostDiscovery, dev: TailscaleDevice): DiscoveredHost
  {
    DiscoveredHost(dev.name, None, dev.ip, Some(dev.name), d.agentPort, true)
  }

  predicate Answers(d: HostDiscovery, dev: TailscaleDevice, reach: (string, nat) -> bool)
  {
    dev.ip.Some? && reach(dev.ip.value, d.agentPort)
  }

  /** The devices that have an address and answer there, in roster order. */
  function TailscaleHosts(d: HostDiscovery, devs: seq<TailscaleDevice>, reach: (string, nat) -> bool): seq<DiscoveredHost>
    decreases |devs|
  {
    if devs == [] then []
    else
      var dev := devs[|devs| - 1];
      TailscaleHosts(d, devs[..|devs| - 1], reach) + (if Answers(d, dev, reach) then [TailscaleHost(d, dev)] else [])
  }

  /** `discover_via_tailscale`: a failed roster read gives no candidates. */
  method DiscoverViaTailscale(d: HostDiscovery, devices: Result<seq<TailscaleDevice>>, reach: (string, nat) -> bool)
    returns (hosts: seq<DiscoveredHost>)
    ensures hosts == if devices.Ok? then TailscaleHosts(d, devices.value, reach) else []
  {
    hosts := [];
    if devices.Err? {
      return;
    }
    var devs := devices.value;
    for i := 0 to |devs|
      invariant hosts == TailscaleHosts(d, devs[..i], reach)
    {
      assert devs[..i + 1][..i] == devs[..i];
      if devs[i].ip.Some? && reach(devs[i].ip.value, d.agentPort) {
        hosts := hosts + [TailscaleHost(d, devs[i])];
      }
    }
    assert devs[..|devs|] == devs;
  }

  /**
   * A Tailscale candidate is exactly an answering device, reported with its
   * Tailscale address and name, no local address, and the discovery port.
   */
  lemma {:induction false} TailscaleHostsMeaning(d: HostDiscovery, devs: seq<TailscaleDevice>, reach: (string, nat) -> bool, h: DiscoveredHost)
    ensures h in TailscaleHosts(d, devs, reach) <==> exists dev :: dev in devs && Answers(d, dev, reach) && h == TailscaleHost(d, dev)
    decreases |devs|
  {
    if devs != [] {
      var p := devs[..|devs| - 1];
      TailscaleHostsMeaning(d, p, reach, h);
      assert devs == p + [devs[|devs| - 1]];
      assert forall dev :: dev in devs <==> dev in p || dev == devs[|devs| - 1];
    }
  }

  lemma TailscaleHostShape(d: HostDiscovery, devs: seq<TailscaleDevice>, reach: (string, nat) -> bool, h: DiscoveredHost)
    requires h in TailscaleHosts(d, devs, reach)
    ensures h.localIp.None? && h.tailscaleIp.Some? && h.tailscaleHostname == Some(h.hostname)
    ensures h.reachable && h.agentPort == d.agentPort && reach(h.tailscaleIp.value, d.agentPort)
  {
    TailscaleHostsMeaning(d, devs, reach, h);
  }

  // ---------------------------------------------------------------------------
  // Local-network candidates

  /** `ip.rsplit('.').nth(1)`: the second piece from the right, for IPv4 the third octet. */
  function LocalPrefix(ip: string): (r: Option<string>)
    ensures r.Some? <==> '.' in ip
    ensures r.Some? ==> '.' !in r.value
  {
    var parts := Split(ip, '.');
    SplitCount(ip, '.');
    if |parts| >= 2 then Some(parts[|parts| - 2]) else None
  }

  lemma {:induction false} SplitCount(s: string, c: char)
    ensures |Split(s, c)| >= 2 <==> c in s
    decreases |s|
  {
    match IndexOf(s, c)
    case None =>
    case Some(i) =>
  }

  function LocalHost(d: HostDiscovery, prefix: string, i: nat): DiscoveredHost
  {
    DiscoveredHost("host-" + NatToString(i), Some(prefix + "." + NatToString(i)), None, None, d.agentPort, true)
  }

  /** The answering addresses `<prefix>.1` … `<prefix>.n`, in order. */
  function Sweep(d: HostDiscovery, prefix: string, n: nat, reach: (string, nat) -> bool): seq<DiscoveredHost>
  {
    if n == 0 then []
    else Sweep(d, prefix, n - 1, reach) + (if reach(prefix + "." + NatToString(n), d.agentPort) then [LocalHost(d, prefix, n)] else [])
  }

  predicate Loopback(ip: string) { ip == "127.0.0.1" || ip == "::1" }

  function SweepOf(d: HostDiscovery, ip: string, reach: (string, nat) -> bool): seq<DiscoveredHost>
  {
    if Loopback(ip) then []
    else match LocalPrefix(ip)
      case None => []
      case Some(p) => Sweep(d, p, 254, reach)
  }

  function LocalHosts(d: HostDiscovery, ips: seq<string>, reach: (string, nat) -> bool): seq<DiscoveredHost>
    decreases |ips|
  {
    if ips == [] then [] else LocalHosts(d, ips[..|ips| - 1], reach) + SweepOf(d, ips[|ips| - 1], reach)
  }

  /** `discover_via_local_network`: for each non-loopback local address, probe `<prefix>.1` to `<prefix>.254`. */
  method DiscoverViaLocalNetwork(d: HostDiscovery, localIps: Result<seq<string>>, reach: (string, nat) -> bool)
    returns (hosts: seq<DiscoveredHost>)
    ensures hosts == if localIps.Ok? then LocalHosts(d, localIps.value, reach) else []
  {
    hosts := [];
    if localIps.Err? {
      return;
    }
    var ips := localIps.value;
    for j := 0 to |ips|
      invariant hosts == LocalHosts(d, ips[..j], reach)
    {
      LocalHostsStep(d, ips, j, reach);
      var ip := ips[j];
      if Loopback(ip) {
        continue;
      }
      var prefix := LocalPrefix(ip);
      if prefix.Some? {
        var found := SweepPrefix(d, prefix.value, reach);
        hosts := hosts + found;
      }
    }
    assert ips[..|ips|] == ips;
  }

  /** The inner loop: probe `<prefix>.1` to `<prefix>.254` in order. */
  method SweepPrefix(d: HostDiscovery, prefix: string, reach: (string, nat) -> bool) returns (found: seq<DiscoveredHost>)
    ensures found == Sweep(d, prefix, 254, reach)
  {
    found := [];
    for i := 1 to 255
      invariant found == Sweep(d, prefix, i - 1, reach)
    {
      var testIp := prefix + "." + NatToString(i);
      if reach(testIp, d.agentPort) {
        found := found + [LocalHost(d, prefix, i)];
      }
    }
  }

  lemma LocalHostsStep(d: HostDiscovery, ips: seq<string>, j: nat, reach: (string, nat) -> bool)
    requires j < |ips|
    ensures LocalHosts(d, ips[..j + 1], reach) == LocalHosts(d, ips[..j], reach) + SweepOf(d, ips[j], reach)
  {
    assert ips[..j + 1][..j] == ips[..j];
  }

  lemma {:induction false} SweepMeaning(d: HostDiscovery, p: string, n: nat, reach: (string, nat) -> bool, h: DiscoveredHost)
    ensures h in Sweep(d, p, n, reach) <==>
      exists i :: 1 <= i <= n && reach(p + "." + NatToString(i), d.agentPort) && h == LocalHost(d, p, i)
    decreases n
  {
    if n > 0 {
      SweepMeaning(d, p, n - 1, reach, h);
    }
  }

  /**
   * A local candidate is exactly an answering `<p>.<i>` with 1 <= i <= 254,
   * where `p` is the second-to-last piece of a non-loopback local address;
   * it is named `host-<i>`.
   */
  lemma {:induction false} LocalHostsMeaning(d: HostDiscovery, ips: seq<string>, reach: (string, nat) -> bool, h: DiscoveredHost)
    ensures h in LocalHosts(d, ips, reach) <==>
      exists ip, i :: ip in ips && !Loopback(ip) && LocalPrefix(ip).Some? && 1 <= i <= 254
        && reach(LocalPrefix(ip).value + "." + NatToString(i), d.agentPort) && h == LocalHost(d, LocalPrefix(ip).value, i)
    decreases |ips|
  {
    if ips != [] {
      var p := ips[..|ips| - 1];
      var last := ips[|ips| - 1];
      LocalHostsMeaning(d, p, reach, h);
      assert ips == p + [last];
      assert forall ip :: ip in ips <==> ip in p || ip == last;
      if !Loopback(last) && LocalPrefix(last).Some? {
        SweepMeaning(d, LocalPrefix(last).value, 254, reach, h);
      }
    }
  }

  lemma SplitAtFirst(x: string, rest: string, c: char)
    requires c !in x
    ensures Split(x + [c] + rest, c) == [x] + Split(rest, c)
  {
    var s := x + [c] + rest;
    assert s[|x|] == c;
    assert s[..|x|] == x;
    assert s[|x| + 1..] == rest;
  }

  lemma SplitPair(c: string, d: string)
    requires '.' !in c && '.' !in d
    ensures Split(c + ['.'] + d, '.') == [c, d]
  {
    assert Split(d, '.') == [d];
    SplitAtFirst(c, d, '.');
  }

  lemma SplitTriple(b: string, c: string, d: string)
    requires '.' !in b && '.' !in c && '.' !in d
    ensures Split(b + ['.'] + (c + ['.'] + d), '.') == [b, c, d]
  {
    SplitPair(c, d);
    SplitAtFirst(b, c + ['.'] + d, '.');
  }

  lemma SplitQuad(a: string, b: string, c: string, d: string)
    requires '.' !in a && '.' !in b && '.' !in c && '.' !in d
    ensures Split(a + ['.'] + (b + ['.'] + (c + ['.'] + d)), '.') == [a, b, c, d]
  {
    SplitTriple(b, c, d);
    SplitAtFirst(a, b + ['.'] + (c + ['.'] + d), '.');
  }

  /** For a dotted quad `a.b.c.d` the sweep prefix is the third octet `c`. */
  lemma PrefixIsThirdOctet(a: string, b: string, c: string, d: string)
    requires '.' !in a && '.' !in b && '.' !in c && '.' !in d
    ensures LocalPrefix(a + "." + b + "." + c + "." + d) == Some(c)
  {
    var s := a + ['.'] + (b + ['.'] + (c + ['.'] + d));
    assert a + "." + b + "." + c + "." + d == s;
    SplitQuad(a, b, c, d);
    assert Split(s, '.')[2] == c;
    assert '.' in s by { assert s[|a|] == '.'; }
  }

  // ---------------------------------------------------------------------------
  // Merging: stable sort by address, then adjacent deduplication

  /** The address a host is merged by: its Tailscale address, else its local address. */
  function Key(h: DiscoveredHost): Option<string>
  {
    h.tailscaleIp.Or(h.localIp)
  }

  /** `Option<&String>` ordering: `None` first, then the string order. */
  predicate KeyLt(a: Option<string>, b: Option<string>)
  {
    (a.None? && b.Some?) || (a.Some? && b.Some? && StrLt(a.value, b.value))
  }

  lemma KeyLtFacts(a: Option<string>, b: Option<string>, c: Option<string>)
    ensures !KeyLt(a, a)
    ensures KeyLt(a, b) ==> !KeyLt(b, a)
    ensures a == b || KeyLt(a, b) || KeyLt(b, a)
    ensures KeyLt(a, b) && KeyLt(b, c) ==> KeyLt(a, c)
  {
    if a.Some? { StrLtIrreflexive(a.value); }
    if a.Some? && b.Some? {
      StrLtAsymmetric(a.value, b.value);
      StrLtTotal(a.value, b.value);
    }
    if a.Some? && b.Some? && c.Some? && StrLt(a.value, b.value) && StrLt(b.value, c.value) {
      StrLtTransitive(a.value, b.value, c.value);
    }
  }

  predicate SortedByKey(s: seq<DiscoveredHost>)
  {
    forall i, j :: 0 <= i < j < |s| ==> !KeyLt(Key(s[j]), Key(s[i]))
  }

  /** Insert before the first element whose key is not smaller, so earlier equal keys stay first. */
  function InsertByKey(x: DiscoveredHost, s: seq<DiscoveredHost>): (r: seq<DiscoveredHost>)
    ensures multiset(r) == multiset(s) + multiset{x}
  {
    if s == [] then [x]
    else if !KeyLt(Key(s[0]), Key(x)) then [x] + s
    else
      assert s == [s[0]] + s[1..];
      [s[0]] + InsertByKey(x, s[1..])
  }

  lemma {:induction false} InsertSorted(x: DiscoveredHost, s: seq<DiscoveredHost>)
    requires SortedByKey(s)
    ensures SortedByKey(InsertByKey(x, s))
    decreases |s|
  {
    if s == [] {
    } else if !KeyLt(Key(s[0]), Key(x)) {
      SortedCons(x, s);
    } else {
      assert SortedByKey(s[1..]) by {
        forall i, j | 0 <= i < j < |s[1..]| ensures !KeyLt(Key(s[1..][j]), Key(s[1..][i])) {
          assert s[1..][j] == s[j + 1] && s[1..][i] == s[i + 1];
        }
      }
      InsertSorted(x, s[1..]);
      var rest := InsertByKey(x, s[1..]);
      assert rest[0] in multiset(s[1..]) + multiset{x};
      assert rest[0] == x || rest[0] in s[1..];
      KeyLtFacts(Key(s[0]), Key(x), Key(x));
      SortedCons(s[0], rest);
    }
  }

  lemma SortedCons(x: DiscoveredHost, s: seq<DiscoveredHost>)
    ensures SortedByKey(s) && (s == [] || !KeyLt(Key(s[0]), Key(x))) ==> SortedByKey([x] + s)
  {
    if SortedByKey(s) && (s == [] || !KeyLt(Key(s[0]), Key(x))) {
      var r := [x] + s;
      forall i, j | 0 <= i < j < |r| ensures !KeyLt(Key(r[j]), Key(r[i])) {
        if i == 0 && j > 1 {
          KeyLtFacts(Key(s[j - 1]), Key(s[0]), Key(x));
          KeyLtFacts(Key(s[j - 1]), Key(x), Key(s[0]));
          KeyLtFacts(Key(x), Key(s[0]), Key(s[j - 1]));
          KeyLtFacts(Key(s[0]), Key(x), Key(s[j - 1]));
        }
      }
    }
  }

  /** `sort_by` on the key: ascending and a permutation. */
  function SortByKey(s: seq<DiscoveredHost>): (r: seq<DiscoveredHost>)
    ensures SortedByKey(r)
    ensures multiset(r) == multiset(s)
  {
    if s == [] then []
    else
      assert s == [s[0]] + s[1..];
      InsertSorted(s[0], SortByKey(s[1..]));
      InsertByKey(s[0], SortByKey(s[1..]))
  }

  /** The first element carrying key `k`. */
  function FirstWith(s: seq<DiscoveredHost>, k: Option<string>): (r: Option<DiscoveredHost>)
    ensures r.Some? ==> r.value in s && Key(r.value) == k
    ensures r.None? <==> forall i :: 0 <= i < |s| ==> Key(s[i]) != k
  {
    if s == [] then None
    else if Key(s[0]) == k then Some(s[0])
    else
      var r := FirstWith(s[1..], k);
      assert forall i :: 0 < i < |s| ==> s[i] == s[1..][i - 1];
      r
  }

  lemma {:induction false} InsertKeepsFirst(x: DiscoveredHost, s: seq<DiscoveredHost>, k: Option<string>)
    ensures FirstWith(InsertByKey(x, s), k) == if Key(x) == k then Some(x) else FirstWith(s, k)
    decreases |s|
  {
    if s != [] && KeyLt(Key(s[0]), Key(x)) {
      KeyLtFacts(Key(s[0]), Key(x), Key(x));
      InsertKeepsFirst(x, s[1..], k);
      var r := InsertByKey(x, s);
      assert r == [s[0]] + InsertByKey(x, s[1..]);
      assert r[1..] == InsertByKey(x, s[1..]);
    }
  }

  /** The sort is stable: for every key, the first element carrying it is unchanged. */
  lemma {:induction false} SortKeepsFirst(s: seq<DiscoveredHost>, k: Option<string>)
    ensures FirstWith(SortByKey(s), k) == FirstWith(s, k)
    decreases |s|
  {
    if s != [] {
      SortKeepsFirst(s[1..], k);
      InsertKeepsFirst(s[0], SortByKey(s[1..]), k);
    }
  }

  /** `dedup_by` on the key: of each run of adjacent equal keys, the first is kept. */
  function DedupByKey(t: seq<DiscoveredHost>): (r: seq<DiscoveredHost>)
    ensures |t| > 0 ==> |r| > 0 && r[0] == t[0]
    ensures forall y :: y in r ==> y in t
    decreases |t|
  {
    if |t| <= 1 then t
    else if Key(t[0]) == Key(t[1]) then
      var r := DedupByKey([t[0]] + t[2..]);
      assert forall y :: y in [t[0]] + t[2..] ==> y in t;
      r
    else [t[0]] + DedupByKey(t[1..])
  }

  predicate StrictlySortedByKey(s: seq<DiscoveredHost>)
  {
    forall i, j :: 0 <= i < j < |s| ==> KeyLt(Key(s[i]), Key(s[j]))
  }

  lemma SortedDropSecond(t: seq<DiscoveredHost>)
    requires |t| >= 2 && SortedByKey(t)
    ensures SortedByKey([t[0]] + t[2..])
  {
    var u := [t[0]] + t[2..];
    forall i, j | 0 <= i < j < |u| ensures !KeyLt(Key(u[j]), Key(u[i])) {
      assert u[j] == t[j + 1];
      assert i == 0 ==> u[i] == t[0];
      assert i > 0 ==> u[i] == t[i + 1];
    }
  }

  /** Deduplicating a sorted sequence leaves strictly increasing keys. */
  lemma {:induction false} DedupStrict(t: seq<DiscoveredHost>)
    requires SortedByKey(t)
    ensures StrictlySortedByKey(DedupByKey(t))
    decreases |t|
  {
    if |t| >= 2 {
      if Key(t[0]) == Key(t[1]) {
        SortedDropSecond(t);
        DedupStrict([t[0]] + t[2..]);
      } else {
        var rest := DedupByKey(t[1..]);
        DedupStrict(t[1..]);
        KeyLtFacts(Key(t[0]), Key(t[1]), Key(t[1]));
        assert KeyLt(Key(t[0]), Key(t[1]));
        var r := [t[0]] + rest;
        forall i, j | 0 <= i < j < |r| ensures KeyLt(Key(r[i]), Key(r[j])) {
          if i == 0 {
            if j > 1 {
              KeyLtFacts(Key(t[0]), Key(rest[0]), Key(rest[j - 1]));
            }
          }
        }
      }
    }
  }

  /** Every survivor is the first element of its key, and every key keeps a survivor. */
  lemma {:induction false} DedupKeepsFirsts(t: seq<DiscoveredHost>)
    requires SortedByKey(t)
    ensures forall y :: y in DedupByKey(t) ==> FirstWith(t, Key(y)) == Some(y)
    ensures forall x :: x in t ==> FirstWith(t, Key(x)).value in DedupByKey(t)
    decreases |t|
  {
    if |t| >= 2 {
      if Key(t[0]) == Key(t[1]) {
        var u := [t[0]] + t[2..];
        SortedDropSecond(t);
        DedupKeepsFirsts(u);
        forall k ensures FirstWith(u, k) == FirstWith(t, k) {
          assert u[1..] == t[2..];
          assert t[1..][1..] == t[2..];
        }
        forall x | x in t ensures FirstWith(t, Key(x)).value in DedupByKey(t) {
          if x == t[1] {
            assert FirstWith(t, Key(x)) == Some(t[0]);
            assert t[0] in u;
          } else {
            assert x in u;
          }
        }
      } else {
        var rest := DedupByKey(t[1..]);
        DedupKeepsFirsts(t[1..]);
        DedupStrict(t);
        assert DedupByKey(t) == [t[0]] + rest;
        forall y | y in DedupByKey(t) ensures FirstWith(t, Key(y)) == Some(y) {
          if y != t[0] {
            var j :| 0 <= j < |DedupByKey(t)| && DedupByKey(t)[j] == y;
            assert j > 0;
            assert Key(y) != Key(t[0]);
          }
        }
        forall x | x in t ensures FirstWith(t, Key(x)).value in DedupByKey(t) {
          if x != t[0] && Key(x) != Key(t[0]) {
            assert x in t[1..];
          }
        }
      }
    }
  }

  lemma StrictDistinct(s: seq<DiscoveredHost>)
    requires StrictlySortedByKey(s)
    ensures forall i, j :: 0 <= i < j < |s| ==> Key(s[i]) != Key(s[j])
  {
    forall i, j | 0 <= i < j < |s| ensures Key(s[i]) != Key(s[j]) {
      KeyLtFacts(Key(s[i]), Key(s[j]), Key(s[j]));
    }
  }

  /** The merge itself: stable sort on the key, then adjacent deduplication. */
  function MergeCandidates(s: seq<DiscoveredHost>): seq<DiscoveredHost>
  {
    DedupByKey(SortByKey(s))
  }

  /**
   * What the merge promises for every input: ascending and pairwise-distinct
   * keys, no key lost, only input hosts, and of several hosts sharing a key
   * the earliest in input order is the one kept. Hosts whose addresses
   * differ are never combined.
   */
  lemma MergeCandidatesMeaning(s: seq<DiscoveredHost>)
    ensures var r := MergeCandidates(s);
      && StrictlySortedByKey(r)
      && (forall i, j :: 0 <= i < j < |r| ==> Key(r[i]) != Key(r[j]))
      && (forall x :: x in s ==> exists y :: y in r && Key(y) == Key(x))
      && (forall y :: y in r ==> y in s && FirstWith(s, Key(y)) == Some(y))
  {
    var t := SortByKey(s);
    var r := DedupByKey(t);
    DedupStrict(t);
    StrictDistinct(r);
    DedupKeepsFirsts(t);
    forall x | x in s ensures exists y :: y in r && Key(y) == Key(x) {
      assert x in multiset(t);
      SortKeepsFirst(s, Key(x));
      var y := FirstWith(t, Key(x)).value;
      assert y in r;
    }
    forall y | y in r ensures y in s && FirstWith(s, Key(y)) == Some(y) {
      SortKeepsFirst(s, Key(y));
      assert y in multiset(s);
    }
  }

  /** `discover_all`: Tailscale candidates, then local ones, merged; it never fails. */
  method DiscoverAll(d: HostDiscovery, devices: Result<seq<TailscaleDevice>>, localIps: Result<seq<string>>,
                     reach: (string, nat) -> bool) returns (r: Result<seq<DiscoveredHost>>)
    ensures r.Ok?
    ensures r.value == MergeCandidates(
      (if devices.Ok? then TailscaleHosts(d, devices.value, reach) else [])
      + (if localIps.Ok? then LocalHosts(d, localIps.value, reach) else []))
  {
    var hosts := DiscoverViaTailscale(d, devices, reach);
    var local := DiscoverViaLocalNetwork(d, localIps, reach);
    hosts := hosts + local;
    return Ok(MergeCandidates(hosts));
  }

  /**
   * Two candidates: one survives when their addresses agree (the earlier),
   * both survive in address order when they differ.
   */
  lemma MergePair(x: DiscoveredHost, y: DiscoveredHost)
    ensures Key(x) == Key(y) ==> MergeCandidates([x, y]) == [x]
    ensures KeyLt(Key(x), Key(y)) ==> MergeCandidates([x, y]) == [x, y]
    ensures KeyLt(Key(y), Key(x)) ==> MergeCandidates([x, y]) == [y, x]
  {
    KeyLtFacts(Key(x), Key(y), Key(y));
    assert [x, y][1..] == [y];
    assert SortByKey([y]) == [y];
    var t := SortByKey([x, y]);
    assert t == InsertByKey(x, [y]);
    if KeyLt(Key(y), Key(x)) {
      assert t == [y, x];
      assert t[1..] == [x];
      assert DedupByKey(t) == [y] + DedupByKey([x]);
    } else if Key(x) == Key(y) {
      assert t == [x, y];
      assert [t[0]] + t[2..] == [x];
      assert DedupByKey(t) == DedupByKey([x]);
    } else {
      assert t == [x, y];
      assert t[1..] == [y];
      assert DedupByKey(t) == [x] + DedupByKey([y]);
    }
  }
}
