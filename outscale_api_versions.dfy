/** API versions of Outscale regions (src/outscale_api_versions.rs): each
    configured endpoint is asked for its version every 600 s, changes are
    announced, and `/oapi-versions` lists the known versions. */
module OutscaleApiVersions {
  import opened Common
  import opened Config
  import opened Bot
  import opened Liveness
  import opened VersionWatch
  import opened Webex

  const NAME: string := "outscale_api_versions"

  /** One variation, every 600 s. */
  const VARIATION_DURATIONS: seq<nat> := [600]

  /** `capabilities`: the single trigger "/oapi-versions", no catch flags. */
  const CAPABILITIES: Capabilities := TriggersOnly(["/oapi-versions"])

  class Endpoint {
    const name: string
    const endpoint: string
    var version: Option<string>

    /** `Endpoint::new`: no version yet. */
    constructor (name: string, endpoint: string)
      ensures this.name == name && this.endpoint == endpoint && version.None?
    {
      this.name := name;
      this.endpoint := endpoint;
      version := None;
    }

    /** `update_version` given the fetch (`None` when it failed). */
    method UpdateVersion(fetched: Option<string>) returns (r: Option<string>)
      modifies this
      ensures r == VersionReport(old(version), fetched)
      ensures version == VersionStore(old(version), fetched)
    {
      if fetched.None? {
        return None;
      }
      r := None;
      if version.Some? && fetched != version {
        r := fetched;
      }
      version := fetched;
    }
  }

  /** One line of the `/oapi-versions` answer. */
  function VersionLine(name: string, version: Option<string>): string
  {
    name + ": version=" + VersionText(version) + "\n"
  }

  class OutscaleApiVersions {
    const webex: WebexAgent
    var endpoints: seq<Endpoint>

    ghost predicate Distinct()
      reads this
    {
      forall i, j :: 0 <= i < j < |endpoints| ==> endpoints[i] != endpoints[j]
    }

    constructor (webex: WebexAgent)
      ensures this.webex == webex && endpoints == [] && Distinct()
    {
      this.webex := webex;
      endpoints := [];
    }

    /** `OutscaleApiVersions::new`: fails when the Webex agent cannot be
        built; otherwise one endpoint per configured
        `OUTSCALE_API_VERSIONS_<i>_NAME` / `_ENDPOINT` pair, from index 0 up
        to the first gap, at most 100 (none at all only logs a warning). */
    static method New(env: Env, webex: Result<WebexAgent, VarError>) returns (r: Result<OutscaleApiVersions, VarError>)
      ensures webex.Err? ==> r.Err? && r.error == webex.error
      ensures webex.Ok? ==> r.Ok? && fresh(r.value) && r.value.Distinct() && r.value.webex == webex.value
      ensures webex.Ok? ==> var list := r.value.endpoints;
        && |list| <= MAX_INDEXED
        && (forall k :: 0 <= k < |list| ==> fresh(list[k]) && list[k].version.None?)
        && (forall k :: 0 <= k < |list| ==>
              && IndexedKey("OUTSCALE_API_VERSIONS_", k, "_NAME") in env
              && IndexedKey("OUTSCALE_API_VERSIONS_", k, "_ENDPOINT") in env
              && list[k].name == env[IndexedKey("OUTSCALE_API_VERSIONS_", k, "_NAME")]
              && list[k].endpoint == env[IndexedKey("OUTSCALE_API_VERSIONS_", k, "_ENDPOINT")])
        && (|list| < MAX_INDEXED ==>
              !(IndexedKey("OUTSCALE_API_VERSIONS_", |list|, "_NAME") in env
                && IndexedKey("OUTSCALE_API_VERSIONS_", |list|, "_ENDPOINT") in env))
    {
      if webex.Err? {
        return Err(webex.error);
      }
      var oav := new OutscaleApiVersions(webex.value);
      var pairs := ReadIndexedPairs(env, "OUTSCALE_API_VERSIONS_", "_NAME", "_ENDPOINT");
      for k := 0 to |pairs|
        invariant fresh(oav) && oav.webex == webex.value && oav.Distinct()
        invariant |oav.endpoints| == k
        invariant forall j :: 0 <= j < k ==> fresh(oav.endpoints[j]) && oav.endpoints[j].version.None?
        invariant forall j :: 0 <= j < k ==> oav.endpoints[j].name == pairs[j].0 && oav.endpoints[j].endpoint == pairs[j].1
      {
        var e := new Endpoint(pairs[k].0, pairs[k].1);
        oav.endpoints := oav.endpoints + [e];
      }
      r := Ok(oav);
    }

    /** `run_version`: one fetch per endpoint, in order, `fetch(k)` being
        endpoint `k`'s; the announcements (`outcomes`, one per endpoint)
        that are present form the batch handed to `say_messages`. */
    method RunVersion(fetch: nat -> Option<string>) returns (messages: seq<string>, ghost outcomes: seq<Option<string>>)
      requires Distinct()
      modifies endpoints
      ensures Distinct()
      ensures |outcomes| == |endpoints|
      ensures forall k :: 0 <= k < |endpoints| ==>
        && endpoints[k].version == VersionStore(old(endpoints[k].version), fetch(k))
        && outcomes[k] == VersionNews(endpoints[k].name, old(endpoints[k].version), fetch(k))
      ensures messages == Somes(outcomes)
    {
      messages, outcomes := [], [];
      for i := 0 to |endpoints|
        invariant |outcomes| == i
        invariant forall k :: 0 <= k < |endpoints| ==>
          endpoints[k].version == if k < i then VersionStore(old(endpoints[k].version), fetch(k)) else old(endpoints[k].version)
        invariant forall k :: 0 <= k < i ==> outcomes[k] == VersionNews(endpoints[k].name, old(endpoints[k].version), fetch(k))
        invariant messages == Somes(outcomes)
      {
        var m := VersionAt(i, fetch(i));
        SomesSnoc(outcomes, m);
        outcomes := outcomes + [m];
        if m.Some? {
          messages := messages + [m.value];
        }
      }
    }

    /** `update_version` on the endpoint at index `i`, with its announcement. */
    method VersionAt(i: nat, fetched: Option<string>) returns (m: Option<string>)
      requires Distinct() && i < |endpoints|
      modifies endpoints[i]
      ensures endpoints[i].version == VersionStore(old(endpoints[i].version), fetched)
      ensures forall k :: 0 <= k < |endpoints| && k != i ==> endpoints[k].version == old(endpoints[k].version)
      ensures m == VersionNews(endpoints[i].name, old(endpoints[i].version), fetched)
    {
      var v := endpoints[i].UpdateVersion(fetched);
      m := if v.Some? then Some("New API version on " + endpoints[i].name + ": " + v.value) else None;
    }

    /** `run`: whatever the variation, a version round. */
    method Run(variation: nat, fetch: nat -> Option<string>) returns (said: seq<string>, ghost outcomes: seq<Option<string>>)
      requires Distinct()
      modifies endpoints
      ensures Distinct()
      ensures |outcomes| == |endpoints|
      ensures forall k :: 0 <= k < |endpoints| ==>
        && endpoints[k].version == VersionStore(old(endpoints[k].version), fetch(k))
        && outcomes[k] == VersionNews(endpoints[k].name, old(endpoints[k].version), fetch(k))
      ensures said == Somes(outcomes)
    {
      said, outcomes := RunVersion(fetch);
    }

    /** The `/oapi-versions` text for the first `k` endpoints. */
    function VersionsUpTo(k: nat): string
      requires k <= |endpoints|
      reads this, endpoints
      decreases k
    {
      if k == 0 then "" else VersionsUpTo(k - 1) + VersionLine(endpoints[k - 1].name, endpoints[k - 1].version)
    }

    /** `trigger`: whatever the message, the version text lists every
        endpoint with its version, one line each, in order. The call
        `respond(&response, id)` hands the text as the parent and the
        message id as the text of the reply. */
    method Trigger(id: string) returns (q: WebexQuery)
      ensures q == WebexQuery(webex.roomId, VersionsUpTo(|endpoints|), Some(id), None)
    {
      var response := "";
      for i := 0 to |endpoints|
        invariant response == VersionsUpTo(i)
      {
        response := response + VersionLine(endpoints[i].name, endpoints[i].version);
      }
      q := webex.Respond(response, id);
    }
  }
}
