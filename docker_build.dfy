/**
 * Docker image builds: the build configuration and its builder methods,
 * the `docker build` argument list, pushing tags one after another, the
 * GitHub user and git hash used for image names, and the GitHub Container
 * Registry tags. Running `docker` and `git` is a parameter: their exit
 * status and output are given.
 */
module DockerBuild {
  import opened Wrappers
  import opened Strings

  /** How a spawned command ended: it ran and exited with or without success, or it could not be started. */
  datatype RunStatus = Ran(success: bool) | SpawnFailed

  /** `DockerBuildConfig`, whose builder methods update it in place. */
  class DockerBuildConfig {
    var dockerfile: string
    var context: string
    var target: Option<string>
    var buildArgs: seq<(string, string)>
    var tags: seq<string>

    /** `new`: no target, no build arguments, no tags. */
    constructor (dockerfile: string, context: string)
      ensures this.dockerfile == dockerfile && this.context == context
      ensures target == None && buildArgs == [] && tags == []
    {
      this.dockerfile := dockerfile;
      this.context := context;
      target := None;
      buildArgs := [];
      tags := [];
    }

    method WithTarget(t: string)
      modifies this
      ensures target == Some(t)
      ensures dockerfile == old(dockerfile) && context == old(context)
      ensures buildArgs == old(buildArgs) && tags == old(tags)
    {
      target := Some(t);
    }

    method WithBuildArg(key: string, value: string)
      modifies this
      ensures buildArgs == old(buildArgs) + [(key, value)]
      ensures dockerfile == old(dockerfile) && context == old(context)
      ensures target == old(target) && tags == old(tags)
    {
      buildArgs := buildArgs + [(key, value)];
    }

    method WithTag(tag: string)
      modifies this
      ensures tags == old(tags) + [tag]
      ensures dockerfile == old(dockerfile) && context == old(context)
      ensures target == old(target) && buildArgs == old(buildArgs)
    {
      tags := tags + [tag];
    }

    /** `with_tags` extends: the earlier tags stay in front. */
    method WithTags(more: seq<string>)
      modifies this
      ensures tags == old(tags) + more
      ensures dockerfile == old(dockerfile) && context == old(context)
      ensures target == old(target) && buildArgs == old(buildArgs)
    {
      tags := tags + more;
    }
  }

  // ---------------------------------------------------------------------------
  // The docker build argument list

  /** A build argument as passed: `key=value`. */
  function KeyValue(kv: (string, string)): string
  {
    kv.0 + "=" + kv.1
  }

  function KeyValues(args: seq<(string, string)>): (r: seq<string>)
    ensures |r| == |args|
    ensures forall i :: 0 <= i < |args| ==> r[i] == KeyValue(args[i])
  {
    seq(|args|, i requires 0 <= i < |args| => KeyValue(args[i]))
  }

  /** The four options `docker build` is given, each followed by its value. */
  datatype Flag = BuildArgFlag | TagFlag | FileFlag | TargetFlag

  function FlagText(f: Flag): string
  {
    match f
    case BuildArgFlag => "--build-arg"
    case TagFlag => "-t"
    case FileFlag => "-f"
    case TargetFlag => "--target"
  }

  function FlagOf(s: string): (r: Option<Flag>)
    ensures r.Some? ==> FlagText(r.value) == s
  {
    if s == "--build-arg" then Some(BuildArgFlag)
    else if s == "-t" then Some(TagFlag)
    else if s == "-f" then Some(FileFlag)
    else if s == "--target" then Some(TargetFlag)
    else None
  }

  lemma FlagOfText(f: Flag)
    ensures FlagOf(FlagText(f)) == Some(f)
  {
  }

  predicate IsFlag(s: string)
  {
    FlagOf(s).Some?
  }

  /** `flag v` for each value, in order. */
  function Pairs(flag: Flag, vals: seq<string>): seq<string>
  {
    if vals == [] then [] else [FlagText(flag), vals[0]] + Pairs(flag, vals[1..])
  }

  lemma {:induction false} PairsSnoc(flag: Flag, vals: seq<string>, v: string)
    ensures Pairs(flag, vals + [v]) == Pairs(flag, vals) + [FlagText(flag), v]
    decreases |vals|
  {
    if vals == [] {
      assert [v][1..] == [];
    } else {
      assert (vals + [v])[1..] == vals[1..] + [v];
      PairsSnoc(flag, vals[1..], v);
    }
  }

  function TargetArgs(target: Option<string>): seq<string>
  {
    if target.Some? then [FlagText(TargetFlag), target.value] else []
  }

  /** The argument list of `build_image`. */
  function BuildArgv(dockerfile: string, context: string, target: Option<string>, buildArgs: seq<(string, string)>, tags: seq<string>): seq<string>
  {
    ["build"] + Pairs(BuildArgFlag, KeyValues(buildArgs)) + Pairs(TagFlag, tags) + [FlagText(FileFlag), dockerfile] + TargetArgs(target) + [context]
  }

  /** What a reader of a `docker build` argument list sees: the values of each option, and the positional arguments. */
  datatype ArgvView = ArgvView(buildArgs: seq<string>, tags: seq<string>, dockerfiles: seq<string>, targets: seq<string>, positionals: seq<string>)

  const NoArgs := ArgvView([], [], [], [], [])

  /** The view with `vs` put in front of the values of `flag`, or of the positional arguments. */
  function Prepend(flag: Option<Flag>, vs: seq<string>, r: ArgvView): ArgvView
  {
    match flag
    case Some(BuildArgFlag) => r.(buildArgs := vs + r.buildArgs)
    case Some(TagFlag) => r.(tags := vs + r.tags)
    case Some(FileFlag) => r.(dockerfiles := vs + r.dockerfiles)
    case Some(TargetFlag) => r.(targets := vs + r.targets)
    case None => r.(positionals := vs + r.positionals)
  }

  /** A reference reading of an argument list: an option takes the next argument as its value. */
  function ReadArgv(xs: seq<string>): ArgvView
    decreases |xs|
  {
    if xs == [] then NoArgs
    else if FlagOf(xs[0]).Some? && |xs| >= 2 then Prepend(FlagOf(xs[0]), [xs[1]], ReadArgv(xs[2..]))
    else Prepend(None, [xs[0]], ReadArgv(xs[1..]))
  }

  /** An option followed by its value is read as that one value. */
  lemma ReadFlagPair(flag: Flag, v: string, xs: seq<string>)
    ensures ReadArgv([FlagText(flag), v] + xs) == Prepend(Some(flag), [v], ReadArgv(xs))
  {
    var ys := [FlagText(flag), v] + xs;
    assert ys[0] == FlagText(flag) && ys[1] == v && ys[2..] == xs;
    FlagOfText(flag);
  }

  lemma PrependTwice(flag: Option<Flag>, a: seq<string>, b: seq<string>, r: ArgvView)
    ensures Prepend(flag, a, Prepend(flag, b, r)) == Prepend(flag, a + b, r)
  {
  }

  lemma {:induction false} ReadPairs(flag: Flag, vals: seq<string>, rest: seq<string>)
    ensures ReadArgv(Pairs(flag, vals) + rest) == Prepend(Some(flag), vals, ReadArgv(rest))
    decreases |vals|
  {
    if vals == [] {
      assert Pairs(flag, vals) + rest == rest;
    } else {
      var tail := Pairs(flag, vals[1..]) + rest;
      assert Pairs(flag, vals) + rest == [FlagText(flag), vals[0]] + tail;
      ReadFlagPair(flag, vals[0], tail);
      ReadPairs(flag, vals[1..], rest);
      PrependTwice(Some(flag), [vals[0]], vals[1..], ReadArgv(rest));
      assert vals == [vals[0]] + vals[1..];
    }
  }

  /** The end of the argument list: `-f dockerfile`, the target option when set, the context. */
  function ArgvTail(dockerfile: string, context: string, target: Option<string>): seq<string>
  {
    [FlagText(FileFlag), dockerfile] + TargetArgs(target) + [context]
  }

  lemma ReadTail(dockerfile: string, context: string, target: Option<string>)
    requires !IsFlag(context)
    ensures ReadArgv(ArgvTail(dockerfile, context, target))
      == ArgvView([], [], [dockerfile], if target.Some? then [target.value] else [], [context])
  {
    var afterF := TargetArgs(target) + [context];
    assert ReadArgv([context]) == ArgvView([], [], [], [], [context]);
    if target.Some? {
      FlagOfText(TargetFlag);
      assert afterF[2..] == [context];
    } else {
      assert afterF == [context];
    }
    var tail := ArgvTail(dockerfile, context, target);
    assert tail[2..] == afterF;
    FlagOfText(FileFlag);
  }

  /**
   * Reading the argument list back gives the configuration: every build
   * argument and every tag in order, the one Dockerfile, the target when set
   * and the one context, as long as the context is not itself an option.
   */
  lemma BuildArgvReadBack(dockerfile: string, context: string, target: Option<string>, buildArgs: seq<(string, string)>, tags: seq<string>)
    requires !IsFlag(context)
    ensures var argv := BuildArgv(dockerfile, context, target, buildArgs, tags);
      && argv[0] == "build"
      && ReadArgv(argv[1..]) == ArgvView(KeyValues(buildArgs), tags, [dockerfile], if target.Some? then [target.value] else [], [context])
  {
    var kvs := KeyValues(buildArgs);
    var tail := ArgvTail(dockerfile, context, target);
    var argv := BuildArgv(dockerfile, context, target, buildArgs, tags);
    var middle := Pairs(TagFlag, tags) + tail;
    assert argv == ["build"] + (Pairs(BuildArgFlag, kvs) + middle);
    assert argv[1..] == Pairs(BuildArgFlag, kvs) + middle;
    ReadTail(dockerfile, context, target);
    ReadPairs(TagFlag, tags, tail);
    ReadPairs(BuildArgFlag, kvs, middle);
    var view := ReadArgv(tail);
    assert ReadArgv(argv[1..]) == Prepend(Some(BuildArgFlag), kvs, Prepend(Some(TagFlag), tags, view));
  }

  /** `--target` is among the values of the reading exactly when a target is set. */
  lemma TargetIffSet(dockerfile: string, context: string, target: Option<string>, buildArgs: seq<(string, string)>, tags: seq<string>)
    requires !IsFlag(context)
    ensures ReadArgv(BuildArgv(dockerfile, context, target, buildArgs, tags)[1..]).targets != [] <==> target.Some?
  {
    BuildArgvReadBack(dockerfile, context, target, buildArgs, tags);
  }

  /**
   * `build_image`: the argument list is pushed step by step; the build
   * fails when docker cannot be started or exits without success.
   */
  method BuildImage(config: DockerBuildConfig, status: RunStatus) returns (argv: seq<string>, r: Result<()>)
    ensures argv == BuildArgv(config.dockerfile, config.context, config.target, config.buildArgs, config.tags)
    ensures r == match status
      case SpawnFailed => Err("Failed to build Docker image")
      case Ran(ok) => if ok then Ok(()) else Err("Docker build failed")
  {
    argv := ["build"];
    var kvs: seq<string> := [];
    var i := 0;
    while i < |config.buildArgs|
      invariant 0 <= i <= |config.buildArgs|
      invariant kvs == KeyValues(config.buildArgs[..i])
    {
      kvs := kvs + [KeyValue(config.buildArgs[i])];
      i := i + 1;
    }
    assert config.buildArgs[..i] == config.buildArgs;
    i := 0;
    while i < |kvs|
      invariant 0 <= i <= |kvs|
      invariant argv == ["build"] + Pairs(BuildArgFlag, kvs[..i])
    {
      PairsSnoc(BuildArgFlag, kvs[..i], kvs[i]);
      assert kvs[..i + 1] == kvs[..i] + [kvs[i]];
      argv := argv + ["--build-arg", kvs[i]];
      i := i + 1;
    }
    assert kvs[..i] == kvs;
    ghost var head := argv;
    i := 0;
    while i < |config.tags|
      invariant 0 <= i <= |config.tags|
      invariant argv == head + Pairs(TagFlag, config.tags[..i])
    {
      PairsSnoc(TagFlag, config.tags[..i], config.tags[i]);
      assert config.tags[..i + 1] == config.tags[..i] + [config.tags[i]];
      argv := argv + ["-t", config.tags[i]];
      i := i + 1;
    }
    assert config.tags[..i] == config.tags;
    argv := argv + ["-f", config.dockerfile];
    if config.target.Some? {
      argv := argv + ["--target", config.target.value];
    }
    argv := argv + [config.context];
    match status
    case SpawnFailed => r := Err("Failed to build Docker image");
    case Ran(ok) => r := if ok then Ok(()) else Err("Docker build failed");
  }

  // ---------------------------------------------------------------------------
  // push_images

  function PushFailed(tag: string): string
  {
    "Push failed for " + tag + " - see instructions above"
  }

  function CannotPush(tag: string): string
  {
    "Failed to push " + tag
  }

  /**
   * `push_images`: `docker push` for each tag in order; the first tag whose
   * push cannot start or fails ends the run with its error. `status` gives
   * the outcome of pushing a tag; `attempted` are the tags pushed.
   */
  method PushImages(tags: seq<string>, status: string -> RunStatus) returns (attempted: seq<string>, r: Result<()>)
    ensures r.Ok? <==> forall i :: 0 <= i < |tags| ==> status(tags[i]) == Ran(true)
    ensures r.Ok? ==> attempted == tags
    ensures r.Err? ==>
      && 0 < |attempted| <= |tags| && attempted == tags[..|attempted|]
      && (var last := attempted[|attempted| - 1];
          && status(last) != Ran(true)
          && r.msg == (if status(last) == SpawnFailed then CannotPush(last) else PushFailed(last)))
      && forall i :: 0 <= i < |attempted| - 1 ==> status(attempted[i]) == Ran(true)
  {
    attempted := [];
    var i := 0;
    while i < |tags|
      invariant 0 <= i <= |tags|
      invariant attempted == tags[..i]
      invariant forall k :: 0 <= k < i ==> status(tags[k]) == Ran(true)
    {
      var tag := tags[i];
      attempted := attempted + [tag];
      assert tags[..i + 1] == tags[..i] + [tag];
      var s := status(tag);
      if s == SpawnFailed {
        return attempted, Err(CannotPush(tag));
      }
      if s == Ran(false) {
        return attempted, Err(PushFailed(tag));
      }
      i := i + 1;
    }
    assert tags[..i] == tags;
    r := Ok(());
  }

  // ---------------------------------------------------------------------------
  // get_github_user and get_git_hash

  const UNKNOWN: string := "unknown"

  /** The user `get_github_user` reads off the `git remote get-url origin` output, as written. */
  function RemoteUserAsWritten(url: string): (r: Option<string>)
    ensures r.Some? ==> '/' !in r.value && r.value + ".git" in Split(url, '/')
  {
    var pieces := Split(url, '/');
    var n := if Contains(url, "github.com:") then 1 else 3;
    if n < |pieces| then
      var piece := pieces[n];
      assert piece in pieces;
      assert EndsWith(piece, ".git") ==> piece[..|piece| - 4] + ".git" == piece && '/' !in piece[..|piece| - 4];
      StripSuffix(piece, ".git")
    else None
  }

  /**
   * `get_github_user`: `GITHUB_USER`, else `GITHUB_REPOSITORY_OWNER`, else
   * the user read off the git remote's output (`None` when git could not be
   * run or its output is not UTF-8), else `unknown`.
   */
  function GithubUserAsWritten(githubUser: Option<string>, owner: Option<string>, remote: Option<string>): (r: string)
    ensures githubUser.Some? || owner.Some? || remote.None? ==> r == GithubUser(githubUser, owner, remote)
    ensures githubUser.None? && owner.None? ==> '/' !in r
  {
    if githubUser.Some? then githubUser.value
    else if owner.Some? then owner.value
    else if remote.Some? && RemoteUserAsWritten(remote.value).Some? then RemoteUserAsWritten(remote.value).value
    else UNKNOWN
  }

  /** A string containing `sub` has the last character of `sub` at or after index `|sub| - 1`. */
  lemma {:induction false} ContainsLastChar(s: string, sub: string)
    requires |sub| > 0
    ensures Contains(s, sub) ==> |sub| - 1 <= |s| && sub[|sub| - 1] in s[|sub| - 1..]
    decreases |s|
  {
    if StartsWith(s, sub) {
      assert s[|sub| - 1] == sub[|sub| - 1];
    } else if |s| > 0 {
      ContainsLastChar(s[1..], sub);
      if |sub| <= |s| {
        assert s[1..][|sub| - 1..] == s[|sub|..];
      }
    }
  }

  /** The pieces of an HTTPS remote URL. */
  lemma HttpsPieces(owner: string, rest: string)
    requires '/' !in owner && '/' !in rest
    ensures Split("https://github.com/" + owner + "/" + rest, '/') == ["https:", "", "github.com", owner, rest]
  {
    var pieces := ["https:", "", "github.com", owner, rest];
    var j4 := Join([owner, rest], "/");
    JoinCons(owner, [rest], "/");
    var j3 := Join(["github.com", owner, rest], "/");
    JoinCons("github.com", [owner, rest], "/");
    assert ["github.com"] + [owner, rest] == ["github.com", owner, rest];
    JoinCons("", ["github.com", owner, rest], "/");
    assert [""] + ["github.com", owner, rest] == ["", "github.com", owner, rest];
    JoinCons("https:", ["", "github.com", owner, rest], "/");
    assert ["https:"] + ["", "github.com", owner, rest] == pieces;
    assert Join(pieces, "/") == "https:" + "/" + ("" + "/" + ("github.com" + "/" + (owner + "/" + rest)));
    assert "https:" + "/" + ("" + "/" + ("github.com" + "/" + (owner + "/" + rest))) == "https://github.com/" + owner + "/" + rest;
    SplitJoin(pieces, '/');
  }

  /** An HTTPS remote URL has no `github.com:` in it when the owner and the rest have no ':'. */
  lemma HttpsNoColonHost(owner: string, rest: string)
    requires ':' !in owner && ':' !in rest
    ensures !Contains("https://github.com/" + owner + "/" + rest, "github.com:")
  {
    var pre, post := "https://gi", "thub.com/" + owner + "/" + rest;
    var url := pre + post;
    assert url == "https://github.com/" + owner + "/" + rest;
    assert url[10..] == post;
    NoColonHostAfter(url, post);
  }

  /** A text with no ':' from index 10 on cannot hold `github.com:`, whose ':' is its eleventh character. */
  lemma NoColonHostAfter(url: string, post: string)
    requires |url| >= 10 && url[10..] == post && ':' !in post
    ensures !Contains(url, "github.com:")
  {
    ContainsLastChar(url, "github.com:");
  }

  /**
   * For an HTTPS remote the fourth piece is the owner, which has no `.git`
   * to strip, so the user is `unknown` (and so it is for any output ending
   * in the line break git prints).
   */
  lemma HttpsRemoteAsWritten(owner: string, repo: string)
    requires '/' !in owner && '/' !in repo && ':' !in owner && ':' !in repo
    requires !EndsWith(owner, ".git")
    ensures GithubUserAsWritten(None, None, Some("https://github.com/" + owner + "/" + repo + ".git")) == UNKNOWN
  {
    var rest := repo + ".git";
    var url := "https://github.com/" + owner + "/" + rest;
    assert url == "https://github.com/" + owner + "/" + repo + ".git";
    HttpsPieces(owner, rest);
    HttpsNoColonHost(owner, rest);
    HttpsUserIsFourthPiece(url, owner);
  }

  /** An HTTPS remote's user is its fourth '/'-piece with `.git` stripped. */
  lemma HttpsUserIsFourthPiece(url: string, piece: string)
    requires !Contains(url, "github.com:") && |Split(url, '/')| > 3 && Split(url, '/')[3] == piece
    ensures GithubUserAsWritten(None, None, Some(url)) ==
      if StripSuffix(piece, ".git").Some? then StripSuffix(piece, ".git").value else UNKNOWN
  {
  }

  lemma SshPieces(user: string, host: string, owner: string, rest: string)
    requires '/' !in user && '/' !in host && '/' !in owner
    ensures var url := user + host + owner + "/" + rest;
      Split(url, '/')[0] == user + host + owner && Contains(url, host)
  {
    var url := user + host + owner + "/" + rest;
    var first := user + host + owner;
    var tail := owner + "/" + rest;
    assert url == first + "/" + rest;
    assert url == user + host + tail;
    SshFirstPiece(first, rest);
    HostInRemote(user, host, tail);
  }

  lemma SshFirstPiece(first: string, rest: string)
    requires '/' !in first
    ensures Split(first + "/" + rest, '/')[0] == first
  {
    assert first + "/" + rest == first + ['/'] + rest;
    SplitHead(first, '/', rest);
  }

  lemma HostInRemote(user: string, host: string, tail: string)
    ensures Contains(user + host + tail, host)
  {
    ContainsMiddle(user, host, tail);
  }

  /** The last ':' of `pre + owner` is the one ending `pre`, when `owner` has none. */
  lemma {:induction false} LastColon(pre: string, owner: string)
    requires |pre| > 0 && pre[|pre| - 1] == ':' && ':' !in owner
    ensures LastIndexOf(pre + owner, ':') == Some(|pre| - 1)
    decreases |owner|
  {
    if owner != [] {
      var s := pre + owner;
      assert s[..|s| - 1] == pre + owner[..|owner| - 1];
      LastColon(pre, owner[..|owner| - 1]);
    } else {
      assert pre + owner == pre;
    }
  }

  lemma SplitOfSlashFree(first: string, rest: string)
    requires '/' !in first && '/' !in rest
    ensures Split(first + "/" + rest, '/') == [first, rest]
  {
    JoinCons(first, [rest], "/");
    assert [first] + [rest] == [first, rest];
    SplitJoin([first, rest], '/');
  }

  /** For an SSH remote the second piece is `repo.git`: the repository name is taken for the user. */
  lemma SshRemoteAsWritten(owner: string, repo: string)
    requires '/' !in owner && '/' !in repo
    ensures GithubUserAsWritten(None, None, Some("git@github.com:" + owner + "/" + repo + ".git")) == repo
  {
    var rest := repo + ".git";
    var url := "git@" + "github.com:" + owner + "/" + rest;
    assert url == "git@github.com:" + owner + "/" + repo + ".git";
    SshPieces("git@", "github.com:", owner, rest);
    SplitOfSlashFree("git@" + "github.com:" + owner, rest);
    StripGit(repo);
    assert RemoteUserAsWritten(url) == Some(repo);
  }

  /**
   * `git remote get-url` ends its output with a line break, which the code
   * never trims: the second piece is then `repo.git\n`, `.git` is not its
   * suffix, and the SSH form gives `unknown` as well.
   */
  lemma SshRemoteLineEndAsWritten(owner: string, repo: string)
    requires '/' !in owner && '/' !in repo
    ensures GithubUserAsWritten(None, None, Some("git@github.com:" + owner + "/" + repo + ".git\n")) == UNKNOWN
  {
    var rest := repo + ".git\n";
    var url := "git@" + "github.com:" + owner + "/" + rest;
    assert url == "git@github.com:" + owner + "/" + repo + ".git\n";
    SshPieces("git@", "github.com:", owner, rest);
    SplitOfSlashFree("git@" + "github.com:" + owner, rest);
    assert rest[|rest| - 1] == '\n';
    assert !EndsWith(rest, ".git");
    SshUserIsSecondPiece(url, rest);
  }

  /** An SSH remote's user is its second '/'-piece with `.git` stripped. */
  lemma SshUserIsSecondPiece(url: string, piece: string)
    requires Contains(url, "github.com:") && |Split(url, '/')| > 1 && Split(url, '/')[1] == piece
    ensures RemoteUserAsWritten(url) == StripSuffix(piece, ".git")
  {
  }

  lemma StripGit(repo: string)
    ensures StripSuffix(repo + ".git", ".git") == Some(repo)
  {
    var rest := repo + ".git";
    assert rest[|rest| - 4..] == ".git";
    assert rest[..|rest| - 4] == repo;
  }

  /**
   * The owner the comment in `get_github_user` describes, read from the
   * trimmed output: in the SSH form the text after the last ':' of the first
   * '/'-piece, in the HTTPS form the fourth '/'-piece.
   */
  function RemoteOwner(url: string): Option<string>
  {
    OwnerOf(Trim(url))
  }

  function OwnerOf(u: string): Option<string>
  {
    var pieces := Split(u, '/');
    var owner :=
      if Contains(u, "github.com:") then
        match LastIndexOf(pieces[0], ':')
        case Some(i) => pieces[0][i + 1..]
        case None => ""
      else if 3 < |pieces| then pieces[3] else "";
    if owner == "" then None else Some(owner)
  }

  /** `get_github_user` reading the owner with `RemoteOwner`. */
  function GithubUser(githubUser: Option<string>, owner: Option<string>, remote: Option<string>): (r: string)
    ensures githubUser.Some? ==> r == githubUser.value
    ensures githubUser.None? && owner.Some? ==> r == owner.value
    ensures githubUser.None? && owner.None? ==>
      r == if remote.Some? && RemoteOwner(remote.value).Some? then RemoteOwner(remote.value).value else UNKNOWN
  {
    if githubUser.Some? then githubUser.value
    else if owner.Some? then owner.value
    else if remote.Some? && RemoteOwner(remote.value).Some? then RemoteOwner(remote.value).value
    else UNKNOWN
  }

  lemma TrimEol(s: string, eol: string)
    requires eol == "" || eol == "\n"
    requires s != [] && !IsWhitespace(s[0]) && !IsWhitespace(s[|s| - 1])
    ensures Trim(s + eol) == s
  {
    if eol == "\n" {
      assert (s + eol)[..|s|] == s;
    }
  }

  lemma SshOwnerOf(owner: string, rest: string)
    requires owner != "" && '/' !in owner && ':' !in owner
    ensures OwnerOf("git@" + "github.com:" + owner + "/" + rest) == Some(owner)
  {
    var pre := "git@" + "github.com:";
    SshPieces("git@", "github.com:", owner, rest);
    LastColon(pre, owner);
    assert (pre + owner)[|pre|..] == owner;
  }

  lemma HttpsOwnerOf(owner: string, rest: string)
    requires owner != "" && '/' !in owner && ':' !in owner && '/' !in rest && ':' !in rest
    ensures OwnerOf("https://github.com/" + owner + "/" + rest) == Some(owner)
  {
    HttpsPieces(owner, rest);
    HttpsNoColonHost(owner, rest);
  }

  /** The SSH form, with or without git's trailing line break, gives its owner. */
  lemma SshRemoteOwner(owner: string, repo: string, eol: string)
    requires owner != "" && '/' !in owner && ':' !in owner
    requires eol == "" || eol == "\n"
    ensures GithubUser(None, None, Some("git@github.com:" + owner + "/" + repo + ".git" + eol)) == owner
  {
    var rest := repo + ".git";
    var ssh := "git@github.com:" + owner + "/" + repo + ".git";
    assert ssh == "git@" + "github.com:" + owner + "/" + rest;
    assert ssh[0] == 'g' && ssh[|ssh| - 1] == 't';
    TrimEol(ssh, eol);
    SshOwnerOf(owner, rest);
    UserOfTrimmedRemote(ssh + eol, ssh, owner);
  }

  /** The HTTPS form, with or without git's trailing line break, gives its owner. */
  lemma HttpsRemoteOwner(owner: string, repo: string, eol: string)
    requires owner != "" && '/' !in owner && ':' !in owner && '/' !in repo && ':' !in repo
    requires eol == "" || eol == "\n"
    ensures GithubUser(None, None, Some("https://github.com/" + owner + "/" + repo + ".git" + eol)) == owner
  {
    var rest := repo + ".git";
    var https := "https://github.com/" + owner + "/" + repo + ".git";
    assert https == "https://github.com/" + owner + "/" + rest;
    assert https[0] == 'h' && https[|https| - 1] == 't';
    TrimEol(https, eol);
    HttpsOwnerOf(owner, rest);
    UserOfTrimmedRemote(https + eol, https, owner);
  }

  /** A remote whose trimmed text reads as `owner` gives that owner when no variable is set. */
  lemma UserOfTrimmedRemote(remote: string, trimmed: string, owner: string)
    requires Trim(remote) == trimmed && OwnerOf(trimmed) == Some(owner)
    ensures GithubUser(None, None, Some(remote)) == owner
  {
  }

  /** `get_git_hash`: the trimmed output of a successful `git rev-parse --short HEAD`, else `unknown`. */
  function GitHash(status: RunStatus, output: Option<string>): (r: string)
    ensures r == UNKNOWN || (output.Some? && r == Trim(output.value))
    ensures status == Ran(true) && output.Some? ==> r == Trim(output.value)
    ensures !(status == Ran(true) && output.Some?) ==> r == UNKNOWN
  {
    if status == Ran(true) && output.Some? then Trim(output.value) else UNKNOWN
  }

  // ---------------------------------------------------------------------------
  // generate_ghcr_tags

  function BaseImage(githubUser: string, imageName: string): string
  {
    "ghcr.io/" + githubUser + "/" + imageName
  }

  function ChannelTag(release: bool): string
  {
    if release then "development" else "dev"
  }

  /** `generate_ghcr_tags`: the channel tag, then the hash tag, of one image. */
  function GhcrTags(githubUser: string, imageName: string, release: bool, gitHash: string): seq<string>
  {
    var base := BaseImage(githubUser, imageName);
    [base + ":" + ChannelTag(release), base + ":" + gitHash]
  }

  /**
   * Exactly two tags, both of the image `ghcr.io/<user>/<image>`, the first
   * naming the channel and the second the hash; they differ unless the hash
   * is the channel name.
   */
  lemma GhcrTagsMeaning(githubUser: string, imageName: string, release: bool, gitHash: string)
    ensures var tags := GhcrTags(githubUser, imageName, release, gitHash);
      var base := BaseImage(githubUser, imageName) + ":";
      && |tags| == 2
      && (forall i :: 0 <= i < 2 ==> StartsWith(tags[i], base))
      && tags[0][|base|..] == ChannelTag(release)
      && tags[1][|base|..] == gitHash
      && (tags[0] == tags[1] <==> gitHash == ChannelTag(release))
  {
    var tags := GhcrTags(githubUser, imageName, release, gitHash);
    var base := BaseImage(githubUser, imageName) + ":";
    assert tags[0] == base + ChannelTag(release);
    assert tags[1] == base + gitHash;
    PrefixStarts(base, ChannelTag(release));
    PrefixStarts(base, gitHash);
    if tags[0] == tags[1] {
      assert tags[0][|base|..] == tags[1][|base|..];
    }
  }

  lemma PrefixStarts(a: string, b: string)
    ensures StartsWith(a + b, a) && (a + b)[|a|..] == b
  {
    assert (a + b)[..|a|] == a;
  }
}
