/**
 * Portainer installation: the edition names, the removal of earlier
 * Portainer containers, and the order of the install steps. The executor's
 * effects (container listing, `mkdir -p`, the compose-file checks, the
 * compose command and the interactive shell) are given as their outcomes.
 */
module Portainer {
  import opened Wrappers
  import opened Strings
  import Docker

  datatype Edition = Ce | Be

  /** The edition names, compared after lower-casing. */
  function FromStr(s: string): (r: Result<Edition>)
    ensures r == Ok(Ce) <==> ToLower(s) == "ce"
    ensures r == Ok(Be) <==> (ToLower(s) == "be" || ToLower(s) == "business" || ToLower(s) == "business-edition")
    ensures r.Err? ==> r.msg == "Invalid portainer edition: " + s + ". Must be 'ce' or 'be'"
  {
    var l := ToLower(s);
    if l == "ce" then Ok(Ce)
    else if l == "be" || l == "business" || l == "business-edition" then Ok(Be)
    else Err("Invalid portainer edition: " + s + ". Must be 'ce' or 'be'")
  }

  /** Two spellings that differ only in letter case name the same edition, or are both rejected. */
  lemma FromStrIgnoresCase(s: string, t: string)
    requires ToLower(s) == ToLower(t)
    ensures FromStr(s).Ok? <==> FromStr(t).Ok?
    ensures FromStr(s).Ok? ==> FromStr(s).value == FromStr(t).value
  {
  }

  /** Lower-casing the name first changes nothing but the error text. */
  lemma FromStrOfLowered(s: string)
    ensures FromStr(ToLower(s)).Ok? <==> FromStr(s).Ok?
    ensures FromStr(s).Ok? ==> FromStr(ToLower(s)).value == FromStr(s).value
  {
    ToLowerIdempotent(s);
    FromStrIgnoresCase(ToLower(s), s);
  }

  const CE_COMPOSE := "portainer.docker-compose.yml"
  const BE_COMPOSE := "portainer-be.docker-compose.yml"
  const AGENT_COMPOSE := "portainer-agent.docker-compose.yml"

  function ComposeFile(e: Edition): (r: string)
    ensures r == CE_COMPOSE <==> e == Ce
    ensures r != AGENT_COMPOSE
  {
    match e
    case Ce => CE_COMPOSE
    case Be => BE_COMPOSE
  }

  function DisplayName(e: Edition): string
  {
    match e
    case Ce => "Community Edition"
    case Be => "Business Edition"
  }

  /** The editions have distinct compose files and display names. */
  lemma EditionsDistinct(a: Edition, b: Edition)
    ensures ComposeFile(a) == ComposeFile(b) <==> a == b
    ensures DisplayName(a) == DisplayName(b) <==> a == b
  {
    if a != b {
      assert ComposeFile(a)[9] != ComposeFile(b)[9];
      assert DisplayName(a)[0] != DisplayName(b)[0];
    }
  }

  // ---------------------------------------------------------------------------
  // Removing earlier instances

  predicate IsPortainerContainer(name: string)
  {
    name == "portainer" || name == "portainer_agent"
  }

  /** The listed containers that are removed, in listing order. */
  function PortainerContainers(names: seq<string>): seq<string>
  {
    if names == [] then []
    else
      var rest := PortainerContainers(names[..|names| - 1]);
      if IsPortainerContainer(names[|names| - 1]) then rest + [names[|names| - 1]] else rest
  }

  /** Exactly the containers named `portainer` or `portainer_agent` are removed. */
  lemma {:induction false} PortainerContainersExactly(names: seq<string>, x: string)
    ensures x in PortainerContainers(names) <==> x in names && IsPortainerContainer(x)
    decreases |names|
  {
    if names != [] {
      var init := names[..|names| - 1];
      PortainerContainersExactly(init, x);
      assert names == init + [names[|names| - 1]];
    }
  }

  /** The commands issued for each removal, in order. */
  function RemovalCommands(names: seq<string>, run: seq<string> -> Result<bool>): seq<seq<string>>
  {
    if names == [] then []
    else RemovalCommands(names[..|names| - 1], run) + Docker.StopAndRemove(names[|names| - 1], run).issued
  }

  /**
   * The removal loop of `install_host` and `install_agent`: a failed listing
   * removes nothing, and a failed stop or removal is ignored.
   */
  method RemoveExisting(listed: Result<seq<string>>, run: seq<string> -> Result<bool>)
    returns (removed: seq<string>, issued: seq<seq<string>>)
    ensures listed.Err? ==> removed == [] && issued == []
    ensures listed.Ok? ==> removed == PortainerContainers(listed.value) && issued == RemovalCommands(removed, run)
  {
    removed := [];
    issued := [];
    if listed.Err? {
      return;
    }
    var containers := listed.value;
    for i := 0 to |containers|
      invariant removed == PortainerContainers(containers[..i])
      invariant issued == RemovalCommands(removed, run)
    {
      var container := containers[i];
      assert containers[..i + 1][..i] == containers[..i];
      if container == "portainer" || container == "portainer_agent" {
        var attempt := Docker.StopAndRemove(container, run);
        assert (removed + [container])[..|removed|] == removed;
        removed := removed + [container];
        issued := issued + attempt.issued;
      }
    }
    assert containers[..|containers|] == containers;
  }

  // ---------------------------------------------------------------------------
  // The install sequence

  const COMPOSE_PATH := "$HOME/portainer/docker-compose.yml"
  const COMPOSE_MISSING := "Docker compose file not found at " + COMPOSE_PATH + ". Please ensure the compose file has been copied."

  /** The part of the shell line that takes the project down, failures ignored. */
  const DOWN := COMPOSE_PATH + " down 2>/dev/null || true && "
  /** The part that brings it up again, detached. */
  const UP := COMPOSE_PATH + " up -d"

  /** The shell line that restarts the compose project. */
  function UpLine(compose: string): string
  {
    "cd $HOME/portainer && " + compose + " -f " + DOWN + compose + " -f " + UP
  }

  /** `upLine` is the shell line run, if the sequence got that far. */
  datatype Steps = Steps(upLine: Option<string>, result: Result<()>)

  /**
   * What follows the removals in `install_host` / `install_agent`, from the
   * outcomes of `mkdir -p`, the existence check of the compose file, the
   * compose command lookup and the interactive shell.
   */
  function InstallSteps(mkdir: Result<()>, composeExists: Result<bool>, compose: Result<string>, up: Result<()>): (s: Steps)
    ensures s.upLine.Some? <==> mkdir.Ok? && composeExists == Ok(true) && compose.Ok?
    ensures s.upLine.Some? ==> s.upLine.value == UpLine(compose.value) && s.result == up
    ensures s.result.Ok? ==> s.upLine.Some?
    ensures mkdir.Ok? && composeExists == Ok(false) ==> s.result == Err(COMPOSE_MISSING)
  {
    if mkdir.Err? then Steps(None, Err(mkdir.msg))
    else if composeExists.Err? then Steps(None, Err(composeExists.msg))
    else if !composeExists.value then Steps(None, Err(COMPOSE_MISSING))
    else if compose.Err? then Steps(None, Err(compose.msg))
    else Steps(Some(UpLine(compose.value)), up)
  }

  /** A missing compose file stops the install before the compose command is looked up or run. */
  lemma MissingComposeStops(mkdir: Result<()>, compose1: Result<string>, compose2: Result<string>, up1: Result<()>, up2: Result<()>)
    ensures InstallSteps(mkdir, Ok(false), compose1, up1) == InstallSteps(mkdir, Ok(false), compose2, up2)
    ensures InstallSteps(mkdir, Ok(false), compose1, up1).upLine == None
  {
  }

  /** The compose file is named twice: once to take the project down, then to bring it up. */
  lemma UpLineMentionsFile(compose: string)
    ensures Contains(UpLine(compose), DOWN)
    ensures EndsWith(UpLine(compose), UP)
  {
    var before := "cd $HOME/portainer && " + compose + " -f ";
    var after := compose + " -f " + UP;
    assert UpLine(compose) == before + DOWN + after;
    ContainsMiddle(before, DOWN, after);
    var head := before + DOWN + compose + " -f ";
    assert UpLine(compose) == head + UP;
    assert (head + UP)[|head|..] == UP;
  }

  // ---------------------------------------------------------------------------
  // The public entry points

  /** `install_portainer_host`: the compose file to copy, or the edition error raised before anything else. */
  function HostComposeFile(edition: string): (r: Result<string>)
    ensures r.Ok? <==> FromStr(edition).Ok?
    ensures r.Ok? ==> r.value == ComposeFile(FromStr(edition).value)
    ensures r.Err? ==> r.msg == "Invalid portainer edition: " + edition
  {
    var e := FromStr(edition);
    if e.Err? then Err("Invalid portainer edition: " + edition) else Ok(ComposeFile(e.value))
  }

  /** `install_portainer_agent`: the agent's compose file; the edition is checked although it is not used. */
  function AgentComposeFile(edition: string): (r: Result<string>)
    ensures r.Ok? <==> FromStr(edition).Ok?
    ensures r.Ok? ==> r.value == AGENT_COMPOSE
    ensures r.Err? ==> r.msg == "Invalid portainer edition: " + edition
  {
    if FromStr(edition).Err? then Err("Invalid portainer edition: " + edition) else Ok(AGENT_COMPOSE)
  }

  /** Every valid edition gives the agent the same compose file, which is neither edition's host file. */
  lemma AgentIgnoresEdition(e1: string, e2: string)
    requires FromStr(e1).Ok? && FromStr(e2).Ok?
    ensures AgentComposeFile(e1) == AgentComposeFile(e2)
    ensures AgentComposeFile(e1).value != HostComposeFile(e1).value
  {
  }

  /** `copied` is the file copied to the host, if the sequence got that far. */
  datatype Installation = Installation(copied: Option<string>, steps: Option<Steps>, result: Result<()>)

  /**
   * The whole install: the edition check, the executor set-up, the copy of
   * the compose file, and the install steps.
   */
  function Install(file: Result<string>, executor: Result<()>, copy: Result<()>,
                   mkdir: Result<()>, composeExists: Result<bool>, compose: Result<string>, up: Result<()>): (i: Installation)
    ensures file.Err? ==> i == Installation(None, None, Err(file.msg))
    ensures i.copied.Some? <==> file.Ok? && executor.Ok?
    ensures i.copied.Some? ==> i.copied.value == file.value
    ensures i.steps.Some? <==> i.copied.Some? && copy.Ok?
    ensures i.steps.Some? ==> i.steps.value == InstallSteps(mkdir, composeExists, compose, up) && i.result == i.steps.value.result
    ensures i.result.Ok? ==> i.steps.Some? && i.steps.value.upLine.Some?
  {
    if file.Err? then Installation(None, None, Err(file.msg))
    else if executor.Err? then Installation(None, None, Err(executor.msg))
    else if copy.Err? then Installation(Some(file.value), None, Err(copy.msg))
    else
      var s := InstallSteps(mkdir, composeExists, compose, up);
      Installation(Some(file.value), Some(s), s.result)
  }

  /** An invalid edition is rejected, for the host and for the agent, before anything is copied or run. */
  lemma InvalidEditionFirst(edition: string, agent: bool, executor: Result<()>, copy: Result<()>,
                            mkdir: Result<()>, composeExists: Result<bool>, compose: Result<string>, up: Result<()>)
    requires FromStr(edition).Err?
    ensures var file := if agent then AgentComposeFile(edition) else HostComposeFile(edition);
            var i := Install(file, executor, copy, mkdir, composeExists, compose, up);
            i.copied == None && i.steps == None && i.result.Err?
  {
  }
}
