/**
 * The provisioning entry point: which Portainer edition is used and whether
 * the host is provisioned locally or over SSH. The provisioning steps
 * themselves are outside the model.
 */
module Provision {
  import opened Wrappers
  import Portainer

  /** Where provisioning runs. */
  datatype Route = Local | Remote

  /** The edition used: parsed only when a Portainer host is installed, otherwise Community Edition. */
  function ProvisionEdition(portainerHost: bool, edition: string): (r: Result<Portainer.Edition>)
    ensures !portainerHost ==> r == Ok(Portainer.Ce)
    ensures portainerHost ==> (r.Ok? <==> Portainer.FromStr(edition).Ok?)
    ensures portainerHost && r.Ok? ==> r.value == Portainer.FromStr(edition).value
    ensures r.Err? ==> r.msg == "Invalid portainer edition: " + edition
  {
    if !portainerHost then Ok(Portainer.Ce)
    else
      var e := Portainer.FromStr(edition);
      if e.Err? then Err("Invalid portainer edition: " + edition) else Ok(e.value)
  }

  /**
   * `provision_host`: the edition check comes first, then the locality test
   * (given as its outcome) alone picks the route.
   */
  function ProvisionHost(portainerHost: bool, edition: string, isLocal: Result<bool>): (r: Result<(Route, Portainer.Edition)>)
    ensures ProvisionEdition(portainerHost, edition).Err? ==> r == Err(ProvisionEdition(portainerHost, edition).msg)
    ensures r.Ok? <==> ProvisionEdition(portainerHost, edition).Ok? && isLocal.Ok?
    ensures r.Ok? ==> r.value.0 == (if isLocal.value then Local else Remote)
    ensures r.Ok? ==> r.value.1 == ProvisionEdition(portainerHost, edition).value
  {
    var e := ProvisionEdition(portainerHost, edition);
    if e.Err? then Err(e.msg)
    else if isLocal.Err? then Err(isLocal.msg)
    else Ok((if isLocal.value then Local else Remote, e.value))
  }

  /** Without a Portainer host the edition text is never looked at. */
  lemma EditionIgnoredWithoutHost(e1: string, e2: string, isLocal: Result<bool>)
    ensures ProvisionHost(false, e1, isLocal) == ProvisionHost(false, e2, isLocal)
  {
  }

  /** The route depends on the locality test alone, for any edition and host flag. */
  lemma RouteByLocality(h1: bool, e1: string, h2: bool, e2: string, isLocal: Result<bool>)
    requires ProvisionHost(h1, e1, isLocal).Ok? && ProvisionHost(h2, e2, isLocal).Ok?
    ensures ProvisionHost(h1, e1, isLocal).value.0 == ProvisionHost(h2, e2, isLocal).value.0
  {
  }

  /** The two editions a Portainer host can get use different compose files. */
  lemma EditionsUseDifferentFiles(e1: string, e2: string, isLocal: Result<bool>)
    requires ProvisionHost(true, e1, isLocal).Ok? && ProvisionHost(true, e2, isLocal).Ok?
    requires ProvisionHost(true, e1, isLocal).value.1 != ProvisionHost(true, e2, isLocal).value.1
    ensures Portainer.ComposeFile(ProvisionHost(true, e1, isLocal).value.1) != Portainer.ComposeFile(ProvisionHost(true, e2, isLocal).value.1)
  {
    Portainer.EditionsDistinct(ProvisionHost(true, e1, isLocal).value.1, ProvisionHost(true, e2, isLocal).value.1);
  }
}
