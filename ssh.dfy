/**
 * SSH connections: argument vectors handed to the `ssh` program, shell
 * quoting for paths embedded in remote commands, and the ordered list of
 * addresses `ssh <host>` tries. Spawning `ssh` is not modelled; whether
 * key-based authentication works for a host is a parameter.
 */
module Ssh {
  import opened Wrappers
  import opened Strings
  import opened Config

  // ---------------------------------------------------------------------------
  // Shell quoting

  /** Characters `shell_escape` passes through unquoted. */
  predicate SafeChar(c: char)
  {
    IsAlphanumeric(c) || c == '-' || c == '_' || c == '/' || c == '.' || c == '$'
  }

  /** What a quote inside a quoted word becomes: close, `"'"`, reopen. */
  const QUOTED_QUOTE := "'\"'\"'"

  /** `shell_escape`. */
  function ShellEscape(s: string): (r: string)
    ensures s == [] ==> r == "''"
    ensures s != [] && (forall i :: 0 <= i < |s| ==> SafeChar(s[i])) ==> r == s
    ensures (exists i :: 0 <= i < |s| && !SafeChar(s[i])) ==> |r| >= 2 && r[0] == '\'' && r[|r| - 1] == '\''
  {
    if s == [] then "''"
    else if forall i :: 0 <= i < |s| ==> SafeChar(s[i]) then s
    else "'" + Replace(s, "'", QUOTED_QUOTE) + "'"
  }

  /**
   * How a POSIX shell reads one word made of bare characters, single-quoted
   * and double-quoted runs: `None` when the word is unterminated, holds an
   * expansion (`$`, a backquote, a backslash) or a character that would
   * split or redirect it.
   */
  datatype QuoteMode = Bare | InSingle | InDouble

  predicate BareLiteral(c: char)
  {
    IsAlphanumeric(c) || c == '-' || c == '_' || c == '/' || c == '.'
  }

  function ReadWord(w: string, mode: QuoteMode): Option<string>
    decreases |w|
  {
    if w == [] then (if mode == Bare then Some("") else None)
    else
      var c := w[0];
      match mode
      case Bare =>
        if c == '\'' then ReadWord(w[1..], InSingle)
        else if c == '"' then ReadWord(w[1..], InDouble)
        else if BareLiteral(c) then Prepend(c, ReadWord(w[1..], Bare))
        else None
      case InSingle =>
        if c == '\'' then ReadWord(w[1..], Bare)
        else Prepend(c, ReadWord(w[1..], InSingle))
      case InDouble =>
        if c == '"' then ReadWord(w[1..], Bare)
        else if c == '$' || c == '`' || c == '\\' then None
        else Prepend(c, ReadWord(w[1..], InDouble))
  }

  function Prepend(c: char, r: Option<string>): Option<string>
  {
    match r
    case None => None
    case Some(x) => Some([c] + x)
  }

  function PrependAll(s: string, r: Option<string>): Option<string>
  {
    match r
    case None => None
    case Some(x) => Some(s + x)
  }

  /** Inside single quotes, the escaped text reads back as the original, whatever follows. */
  lemma {:induction false} ReadEscapedRun(s: string, tail: string)
    ensures ReadWord(Replace(s, "'", QUOTED_QUOTE) + tail, InSingle) == PrependAll(s, ReadWord(tail, InSingle))
    decreases |s|
  {
    if s == [] {
      assert Replace(s, "'", QUOTED_QUOTE) == "";
      assert "" + tail == tail;
      match ReadWord(tail, InSingle) {
        case None =>
        case Some(x) => assert s + x == x;
      }
    } else {
      var rest := Replace(s[1..], "'", QUOTED_QUOTE) + tail;
      ReadEscapedRun(s[1..], tail);
      if s[0] == '\'' {
        assert StartsWith(s, "'");
        assert Replace(s, "'", QUOTED_QUOTE) == QUOTED_QUOTE + Replace(s[1..], "'", QUOTED_QUOTE);
        var w := QUOTED_QUOTE + rest;
        assert w == Replace(s, "'", QUOTED_QUOTE) + tail;
        var w1, w2, w3, w4 := w[1..], w[2..], w[3..], w[4..];
        assert w[0] == '\'' && w1 == w[1..] && w[1] == '"' && w2 == w1[1..];
        assert w[2] == '\'' && w3 == w2[1..] && w[3] == '"' && w4 == w3[1..];
        assert w[4] == '\'' && w4[1..] == rest;
        assert ReadWord(w4, Bare) == ReadWord(rest, InSingle);
        assert ReadWord(w3, InDouble) == ReadWord(rest, InSingle);
        assert ReadWord(w2, InDouble) == Prepend('\'', ReadWord(rest, InSingle));
        assert ReadWord(w1, Bare) == ReadWord(w2, InDouble);
        assert ReadWord(w, InSingle) == Prepend('\'', ReadWord(rest, InSingle));
      } else {
        assert !StartsWith(s, "'");
        assert Replace(s, "'", QUOTED_QUOTE) == [s[0]] + Replace(s[1..], "'", QUOTED_QUOTE);
        var w := [s[0]] + rest;
        assert w == Replace(s, "'", QUOTED_QUOTE) + tail;
        assert w[1..] == rest;
      }
      match ReadWord(tail, InSingle) {
        case None =>
        case Some(x) => assert [s[0]] + (s[1..] + x) == s + x;
      }
    }
  }

  /** Every string the shell can hold literally survives `shell_escape`, except bare words with a `$`. */
  lemma ShellEscapeRoundTrip(s: string)
    requires '$' !in s
    ensures ReadWord(ShellEscape(s), Bare) == Some(s)
  {
    if s == [] {
      assert ShellEscape(s)[1..] == "'";
      assert ShellEscape(s)[1..][1..] == "";
    } else if forall i :: 0 <= i < |s| ==> SafeChar(s[i]) {
      BareRead(s);
    } else {
      var w := ShellEscape(s);
      assert w == "'" + (Replace(s, "'", QUOTED_QUOTE) + "'");
      assert w[1..] == Replace(s, "'", QUOTED_QUOTE) + "'";
      ReadEscapedRun(s, "'");
      assert "'"[1..] == "";
      assert ReadWord("'", InSingle) == Some("");
      assert s + "" == s;
    }
  }

  lemma {:induction false} BareRead(s: string)
    requires forall i :: 0 <= i < |s| ==> BareLiteral(s[i])
    ensures ReadWord(s, Bare) == Some(s)
    decreases |s|
  {
    if s != [] {
      BareRead(s[1..]);
      assert [s[0]] + s[1..] == s;
    }
  }

  /** A word of safe characters holding a `$` is left bare, so the remote shell expands it. */
  lemma DollarLeftToTheShell(s: string)
    requires s != [] && '$' in s && forall i :: 0 <= i < |s| ==> SafeChar(s[i])
    ensures ShellEscape(s) == s
    ensures ReadWord(s, Bare).None?
  {
    DollarBlocks(s);
  }

  lemma {:induction false} DollarBlocks(s: string)
    requires '$' in s && forall i :: 0 <= i < |s| ==> SafeChar(s[i])
    ensures ReadWord(s, Bare).None?
    decreases |s|
  {
    if s[0] != '$' {
      assert '$' in s[1..];
      DollarBlocks(s[1..]);
    }
  }

  // ---------------------------------------------------------------------------
  // Argument vectors

  /** `SshConnection`: the `user@host` target and whether key-only authentication was accepted. */
  datatype SshConnection = SshConnection(host: string, useKeyAuth: bool)

  /** `SshConnection::new`: never fails; the key probe's outcome is a parameter. */
  function NewConnection(host: string, keyProbe: string -> bool): (r: SshConnection)
    ensures r.host == host && r.useKeyAuth == keyProbe(host)
  {
    SshConnection(host, keyProbe(host))
  }

  /** The key probe `SshConnection::new` runs: batch mode, publickey only, one-second timeout, `echo test`. */
  function ProbeArgv(host: string): seq<string>
  {
    ["-o", "ConnectTimeout=1", "-o", "BatchMode=yes", "-o", "PreferredAuthentications=publickey",
     "-o", "PasswordAuthentication=no", "-o", "StrictHostKeyChecking=no", host, "echo", "test"]
  }

  /** The `-o` values `build_ssh_args` passes. */
  const NO_HOST_KEY_CHECK := "StrictHostKeyChecking=no"
  const KEY_ONLY := "PreferredAuthentications=publickey"
  const NO_PASSWORD := "PasswordAuthentication=no"
  const ANY_AUTH := "PreferredAuthentications=publickey,keyboard-interactive,password"

  function SshOptions(useKeyAuth: bool): (r: seq<string>)
    ensures |r| >= 2 && r[0] == NO_HOST_KEY_CHECK
    ensures useKeyAuth <==> NO_PASSWORD in r
    ensures !useKeyAuth <==> ANY_AUTH in r
  {
    if useKeyAuth then [NO_HOST_KEY_CHECK, KEY_ONLY, NO_PASSWORD]
    else [NO_HOST_KEY_CHECK, ANY_AUTH]
  }

  /** Each option value preceded by `-o`. */
  function OptionArgs(opts: seq<string>): (r: seq<string>)
    ensures |r| == 2 * |opts|
  {
    if opts == [] then [] else ["-o", opts[0]] + OptionArgs(opts[1..])
  }

  /** `build_ssh_args`. */
  function BaseArgs(c: SshConnection): seq<string>
  {
    OptionArgs(SshOptions(c.useKeyAuth)) + [c.host]
  }

  /** The argv of `execute_simple` (`tty` false) and `execute_interactive` (`tty` true). */
  method ProgramArgv(c: SshConnection, tty: bool, program: string, args: seq<string>) returns (argv: seq<string>)
    ensures argv == BaseArgs(c) + TtyFlag(tty) + [program] + args
  {
    argv := BaseArgs(c);
    if tty {
      argv := argv + ["-tt"];
    }
    argv := argv + [program];
    ghost var start := argv;
    for i := 0 to |args|
      invariant argv == start + args[..i]
    {
      argv := argv + [args[i]];
      assert args[..i + 1] == args[..i] + [args[i]];
    }
    assert args[..|args|] == args;
  }

  /** The argv of `execute_shell` (`tty` false) and `execute_shell_interactive` (`tty` true). */
  function ShellArgv(c: SshConnection, tty: bool, command: string): seq<string>
  {
    BaseArgs(c) + TtyFlag(tty) + ["sh", "-c", command]
  }

  /** The argv of `write_file`: the content goes to `cat` through stdin. */
  function WriteFileArgv(c: SshConnection, path: string): seq<string>
  {
    ShellArgv(c, false, "cat > " + ShellEscape(path))
  }

  /**
   * How `ssh` reads an argv: `-o VALUE` pairs and `-tt` flags, the
   * destination, further flags, then the remote command words. `dest` is the
   * destination once it has been read.
   */
  datatype SshCall = SshCall(options: seq<string>, tty: bool, destination: string, command: seq<string>)

  predicate IsFlagWord(s: string) { s == "-o" || s == "-tt" }

  function TtyFlag(tty: bool): seq<string> { if tty then ["-tt"] else [] }

  function ParseSshArgv(argv: seq<string>, dest: Option<string>): Option<SshCall>
    decreases |argv|
  {
    if argv == [] then (if dest.Some? then Some(SshCall([], false, dest.value, [])) else None)
    else if argv[0] == "-o" then
      if |argv| < 2 then None
      else match ParseSshArgv(argv[2..], dest)
        case None => None
        case Some(call) => Some(call.(options := [argv[1]] + call.options))
    else if argv[0] == "-tt" then
      match ParseSshArgv(argv[1..], dest)
      case None => None
      case Some(call) => Some(call.(tty := true))
    else if dest.None? then ParseSshArgv(argv[1..], Some(argv[0]))
    else Some(SshCall([], false, dest.value, argv))
  }

  lemma {:induction false} ParseOptions(opts: seq<string>, rest: seq<string>, dest: Option<string>)
    requires ParseSshArgv(rest, dest).Some?
    ensures ParseSshArgv(OptionArgs(opts) + rest, dest)
         == Some(ParseSshArgv(rest, dest).value.(options := opts + ParseSshArgv(rest, dest).value.options))
    decreases |opts|
  {
    var call := ParseSshArgv(rest, dest).value;
    if opts == [] {
      assert OptionArgs(opts) + rest == rest;
      assert opts + call.options == call.options;
    } else {
      ParseOptions(opts[1..], rest, dest);
      var argv := OptionArgs(opts) + rest;
      assert argv[0] == "-o" && argv[1] == opts[0];
      assert argv[2..] == OptionArgs(opts[1..]) + rest;
      assert [opts[0]] + (opts[1..] + call.options) == opts + call.options;
    }
  }

  /** The words after the destination: an optional `-tt`, then a command whose first word is no flag. */
  lemma AfterDestination(host: string, tty: bool, command: seq<string>)
    requires command != [] && !IsFlagWord(command[0])
    ensures ParseSshArgv(TtyFlag(tty) + command, Some(host)) == Some(SshCall([], tty, host, command))
  {
    if tty {
      var argv := ["-tt"] + command;
      assert argv[1..] == command;
    } else {
      assert [] + command == command;
    }
  }

  /**
   * Every argv built here reaches the connection's host, with the options of
   * its authentication mode, and runs exactly the given words there.
   */
  lemma ArgvReachesHost(c: SshConnection, tty: bool, command: seq<string>)
    requires !IsFlagWord(c.host) && command != [] && !IsFlagWord(command[0])
    ensures ParseSshArgv(BaseArgs(c) + TtyFlag(tty) + command, None)
         == Some(SshCall(SshOptions(c.useKeyAuth), tty, c.host, command))
  {
    var opts := SshOptions(c.useKeyAuth);
    OptionsThenCall(opts, c.host, tty, command);
    assert BaseArgs(c) + TtyFlag(tty) + command == OptionArgs(opts) + ([c.host] + (TtyFlag(tty) + command));
  }

  lemma OptionsThenCall(opts: seq<string>, host: string, tty: bool, command: seq<string>)
    requires !IsFlagWord(host) && command != [] && !IsFlagWord(command[0])
    ensures ParseSshArgv(OptionArgs(opts) + ([host] + (TtyFlag(tty) + command)), None)
         == Some(SshCall(opts, tty, host, command))
  {
    var after := TtyFlag(tty) + command;
    AfterDestination(host, tty, command);
    ReadDestination(host, after);
    ParseOptions(opts, [host] + after, None);
    assert opts + [] == opts;
  }

  lemma ReadDestination(host: string, after: seq<string>)
    requires !IsFlagWord(host)
    ensures ParseSshArgv([host] + after, None) == ParseSshArgv(after, Some(host))
  {
    assert ([host] + after)[1..] == after;
  }

  /** `execute_shell` and `execute_shell_interactive` hand the remote side exactly `sh -c <command>`. */
  lemma ShellArgvRunsCommand(c: SshConnection, tty: bool, command: string)
    requires !IsFlagWord(c.host)
    ensures ParseSshArgv(ShellArgv(c, tty, command), None) == Some(SshCall(SshOptions(c.useKeyAuth), tty, c.host, ["sh", "-c", command]))
  {
    ArgvReachesHost(c, tty, ["sh", "-c", command]);
  }

  /** `execute_simple` and `execute_interactive` run the program with its arguments in their order. */
  lemma ProgramArgvRunsProgram(c: SshConnection, tty: bool, program: string, args: seq<string>)
    requires !IsFlagWord(c.host) && !IsFlagWord(program)
    ensures ParseSshArgv(BaseArgs(c) + TtyFlag(tty) + [program] + args, None)
         == Some(SshCall(SshOptions(c.useKeyAuth), tty, c.host, [program] + args))
  {
    ArgvReachesHost(c, tty, [program] + args);
    assert BaseArgs(c) + TtyFlag(tty) + [program] + args == BaseArgs(c) + TtyFlag(tty) + ([program] + args);
  }

  // ---------------------------------------------------------------------------
  // The addresses `ssh <host>` tries

  /** `hosts_to_try`: the IP, the Tailscale name, then the Tailscale name under the tailnet, each with its label. */
  function HostsToTry(c: HostConfig, tailnetBase: string): (r: seq<(string, string)>)
    ensures |r| == (if c.ip.Some? then 1 else 0) + (if c.tailscale.Some? then 2 else 0)
    ensures c.ip.Some? ==> r[0].0 == c.ip.value
    ensures c.tailscale.Some? ==> r[|r| - 2].0 == c.tailscale.value && r[|r| - 1].0 == c.tailscale.value + "." + tailnetBase
  {
    (if c.ip.Some? then [(c.ip.value, "IP: " + c.ip.value)] else [])
    + (if c.tailscale.Some? then
         [(c.tailscale.value, "Tailscale: " + c.tailscale.value),
          (c.tailscale.value + "." + tailnetBase, "Tailscale FQDN: " + c.tailscale.value + "." + tailnetBase)]
       else [])
  }

  /** One connection attempt: key-only or password-capable, as a user at an address. */
  datatype Attempt = KeyAuth(host: string, user: string) | PasswordAuth(host: string, user: string)

  /** The attempts made at one address: default user by key, the given user by key, then a password login. */
  function AttemptsFor(host: string, defaultUser: string, user: Option<string>): (r: seq<Attempt>)
    ensures 2 <= |r| <= 3 && r[0] == KeyAuth(host, defaultUser)
    ensures r[|r| - 1] == PasswordAuth(host, user.UnwrapOr(defaultUser))
    ensures forall i :: 0 <= i < |r| ==> r[i].host == host
  {
    [KeyAuth(host, defaultUser)]
    + (if user.Some? && user.value != defaultUser then [KeyAuth(host, user.value)] else [])
    + [PasswordAuth(host, user.UnwrapOr(defaultUser))]
  }

  function AllAttempts(hosts: seq<(string, string)>, defaultUser: string, user: Option<string>): seq<Attempt>
    decreases |hosts|
  {
    if hosts == [] then [] else AllAttempts(hosts[..|hosts| - 1], defaultUser, user) + AttemptsFor(hosts[|hosts| - 1].0, defaultUser, user)
  }

  function Addresses(hosts: seq<(string, string)>): (r: seq<string>)
    ensures |r| == |hosts| && forall i :: 0 <= i < |hosts| ==> r[i] == hosts[i].0
  {
    seq(|hosts|, i requires 0 <= i < |hosts| => hosts[i].0)
  }

  /** The attempts at one address, stopping at the first success (`None` when all fail). */
  method TryHost(host: string, defaultUser: string, user: Option<string>, succeeds: Attempt -> bool)
    returns (ok: Option<Attempt>, made: seq<Attempt>)
    ensures made != [] && made <= AttemptsFor(host, defaultUser, user)
    ensures forall i :: 0 <= i < |made| - 1 ==> !succeeds(made[i])
    ensures ok.Some? ==> ok.value == made[|made| - 1] && succeeds(ok.value)
    ensures ok.None? ==> made == AttemptsFor(host, defaultUser, user) && forall i :: 0 <= i < |made| ==> !succeeds(made[i])
  {
    var first := KeyAuth(host, defaultUser);
    made := [first];
    if succeeds(first) {
      return Some(first), made;
    }
    if user.Some? && user.value != defaultUser {
      var second := KeyAuth(host, user.value);
      made := made + [second];
      if succeeds(second) {
        return Some(second), made;
      }
    }
    var last := PasswordAuth(host, user.UnwrapOr(defaultUser));
    made := made + [last];
    if succeeds(last) {
      return Some(last), made;
    }
    return None, made;
  }

  /**
   * The connection loop of `ssh <host>`: addresses in order, each address's
   * attempts in order, stopping at the first that succeeds. `succeeds` is the
   * outcome of each attempt. With no success the command exits.
   */
  method TryHosts(hosts: seq<(string, string)>, defaultUser: string, user: Option<string>, succeeds: Attempt -> bool)
    returns (r: Result<Attempt>, tried: seq<string>, made: seq<Attempt>)
    ensures made <= AllAttempts(hosts, defaultUser, user)
    ensures tried <= Addresses(hosts)
    ensures forall i :: 0 <= i < |made| - 1 ==> !succeeds(made[i])
    ensures r.Ok? ==> made != [] && tried != [] && r.value == made[|made| - 1] && succeeds(r.value)
                      && r.value.host == tried[|tried| - 1]
    ensures r.Err? ==> made == AllAttempts(hosts, defaultUser, user) && tried == Addresses(hosts)
                       && (forall i :: 0 <= i < |made| ==> !succeeds(made[i]))
  {
    tried := [];
    made := [];
    var i := 0;
    while i < |hosts|
      invariant 0 <= i <= |hosts|
      invariant made == AllAttempts(hosts[..i], defaultUser, user)
      invariant tried == Addresses(hosts[..i])
      invariant forall k :: 0 <= k < |made| ==> !succeeds(made[k])
    {
      var host := hosts[i].0;
      var ok, these := TryHost(host, defaultUser, user, succeeds);
      StepAttempts(hosts, i, defaultUser, user);
      if ok.Some? {
        SuccessPrefix(hosts, i, defaultUser, user, these);
        NoneSucceedsAppend(made, these, succeeds, 1);
        tried := tried + [host];
        made := made + these;
        return Ok(ok.value), tried, made;
      }
      NoneSucceedsAppend(made, these, succeeds, 0);
      tried := tried + [host];
      made := made + these;
      i := i + 1;
    }
    assert hosts[..i] == hosts;
    r := Err("Failed to connect to any host");
  }

  /** Failures before and failures after, up to the last `last` attempts, are failures of the whole. */
  lemma NoneSucceedsAppend(a: seq<Attempt>, b: seq<Attempt>, succeeds: Attempt -> bool, last: nat)
    requires forall k :: 0 <= k < |a| ==> !succeeds(a[k])
    requires forall k :: 0 <= k < |b| - last ==> !succeeds(b[k])
    ensures forall k :: 0 <= k < |a + b| - last ==> !succeeds((a + b)[k])
  {
    forall k | 0 <= k < |a + b| - last ensures !succeeds((a + b)[k]) {
      if k >= |a| {
        assert (a + b)[k] == b[k - |a|];
      }
    }
  }

  /** A successful attempt at address `i`: what was made and tried so far are prefixes of the full lists, and the attempt was at that address. */
  lemma SuccessPrefix(hosts: seq<(string, string)>, i: nat, defaultUser: string, user: Option<string>, these: seq<Attempt>)
    requires i < |hosts| && these != [] && these <= AttemptsFor(hosts[i].0, defaultUser, user)
    ensures AllAttempts(hosts[..i], defaultUser, user) + these <= AllAttempts(hosts, defaultUser, user)
    ensures Addresses(hosts[..i]) + [hosts[i].0] <= Addresses(hosts)
    ensures these[|these| - 1].host == hosts[i].0
  {
    AttemptsPrefix(hosts, i, defaultUser, user, these);
    StepAttempts(hosts, i, defaultUser, user);
    AddressesPrefix(hosts, i + 1);
    assert these[|these| - 1] == AttemptsFor(hosts[i].0, defaultUser, user)[|these| - 1];
  }

  lemma StepAttempts(hosts: seq<(string, string)>, i: nat, defaultUser: string, user: Option<string>)
    requires i < |hosts|
    ensures AllAttempts(hosts[..i + 1], defaultUser, user) == AllAttempts(hosts[..i], defaultUser, user) + AttemptsFor(hosts[i].0, defaultUser, user)
    ensures Addresses(hosts[..i + 1]) == Addresses(hosts[..i]) + [hosts[i].0]
  {
    assert hosts[..i + 1][..i] == hosts[..i];
  }

  lemma AttemptsPrefix(hosts: seq<(string, string)>, i: nat, defaultUser: string, user: Option<string>, these: seq<Attempt>)
    requires i < |hosts| && these <= AttemptsFor(hosts[i].0, defaultUser, user)
    ensures AllAttempts(hosts[..i], defaultUser, user) + these <= AllAttempts(hosts, defaultUser, user)
  {
    StepAttempts(hosts, i, defaultUser, user);
    PrefixAttempts(hosts, i + 1, defaultUser, user);
  }

  lemma PrefixTrans<T>(a: seq<T>, b: seq<T>, c: seq<T>)
    requires a <= b && b <= c
    ensures a <= c
  {
  }

  lemma {:induction false} PrefixAttempts(hosts: seq<(string, string)>, n: nat, defaultUser: string, user: Option<string>)
    requires n <= |hosts|
    ensures AllAttempts(hosts[..n], defaultUser, user) <= AllAttempts(hosts, defaultUser, user)
    decreases |hosts|
  {
    if n < |hosts| {
      var p := hosts[..|hosts| - 1];
      assert p[..n] == hosts[..n];
      PrefixAttempts(p, n, defaultUser, user);
    } else {
      assert hosts[..n] == hosts;
    }
  }

  lemma AddressesPrefix(hosts: seq<(string, string)>, n: nat)
    requires n <= |hosts|
    ensures Addresses(hosts[..n]) <= Addresses(hosts)
  {
  }

  /** Each address is tried at most once: the candidate list holds no address twice when the names differ. */
  lemma CandidatesDistinct(c: HostConfig, tailnetBase: string)
    requires c.ip.Some? && c.tailscale.Some? && c.ip.value != c.tailscale.value
    requires c.ip.value != c.tailscale.value + "." + tailnetBase
    ensures var a := Addresses(HostsToTry(c, tailnetBase)); NoDuplicates(a) && |a| == 3
  {
    var a := Addresses(HostsToTry(c, tailnetBase));
    assert a == [c.ip.value, c.tailscale.value, c.tailscale.value + "." + tailnetBase];
    assert |c.tailscale.value + "." + tailnetBase| > |c.tailscale.value|;
  }
}
