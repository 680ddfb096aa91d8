/** Region endpoints (src/endpoints.rs): each Outscale region endpoint is
    probed for liveness, sampled for its error rate and asked for its API
    version on three cadences; `/status` lists them all. */
module Endpoints {
  import opened Common
  import opened Config
  import opened Bot
  import opened Liveness
  import opened VersionWatch
  import opened Webex

  const NAME: string := "endpoints"

  /** Variation 0 samples the error rate and 1 checks liveness, every 2 s;
      2 fetches the versions every 600 s. */
  const VARIATION_DURATIONS: seq<nat> := [2, 2, 600]

  /** The command `trigger` answers. */
  const STATUS_COMMAND: string := "/status"

  class Endpoint {
    const name: string
    const endpoint: string
    var version: Option<string>
    /** `alive`, `access_failure_cnt`, `last_error` and `error_rate_cnt`. */
    var monitor: Monitor


    ghost predicate Valid()
      reads this
    {
      ValidMonitor(monitor)
    }

    /** `Endpoint::new`: no version yet, alive, no failures, no error, no samples. */
    constructor (name: string, endpoint: string)
      ensures this.name == name && this.endpoint == endpoint
      ensures version.None? && monitor == Fresh && Valid()
    {
      this.name := name;
      this.endpoint := endpoint;
      version := None;
      monitor := Fresh;
    }

    /** `update_version` given the fetch (`None` when it failed). */
    method UpdateVersion(fetched: Option<string>) returns (r: Option<string>)
      modifies this`version
      ensures r == VersionReport(old(version), fetched)
      ensures version == VersionStore(old(version), fetched)
    {
      if fetched.None? {
        return None;
      }
      r := None;
      if version.Some? && fetched != version {
        r := fetched;
      }
      version := fetched;
    }

    /** `update_alive` with its count stored; returns the state before and after. */
    method UpdateAlive(probe: Probe) returns (before: bool, after: bool)
      requires Valid()
      modifies this`monitor
      ensures Valid()
      ensures monitor == AliveStep(old(monitor), probe)
      ensures before == old(monitor.alive) && after == monitor.alive
    {
      before := monitor.alive;
      if probe.Err? {
        monitor := monitor.(lastError := Some(probe.error));
      }
      var count := NextCount(monitor.failures, probe);
      monitor := monitor.(failures := count, alive := NextAlive(monitor.alive, count));
      after := monitor.alive;
    }

    /** `update_error_rate`, sample counting only: `true` when a value is returned. */
    method UpdateErrorRate() returns (reported: bool)
      requires Valid()
      modifies this`monitor
      ensures Valid()
      ensures monitor == SampleStep(old(monitor))
      ensures reported <==> Reports(monitor)
    {
      monitor := monitor.(samples := if monitor.samples == U32_MAX then U32_MAX else monitor.samples + 1);
      reported := monitor.samples >= WINDOW;
    }

    /** `alive`: one liveness step and its announcement, if any. */
    method Alive(probe: Probe) returns (message: Option<string>)
      requires Valid()
      modifies this`monitor
      ensures Valid()
      ensures monitor == AliveStep(old(monitor), probe)
      ensures message == AliveOutcome(name, old(monitor), probe)
    {
      var before, after := UpdateAlive(probe);
      message := AliveMessage(RegionWording, name, before, monitor);
    }
  }

  /** The announcement of one liveness step from state `m`. */
  function AliveOutcome(name: string, m: Monitor, probe: Probe): Option<string>
    requires m.failures <= MAX_HIGH
  {
    AliveMessage(RegionWording, name, m.alive, AliveStep(m, probe))
  }

  /** One line of the `/status` answer. */
  function StatusLine(name: string, alive: bool, version: Option<string>, rate: RateText): string
  {
    name + ": alive=" + BoolToString(alive) + ", version=" + VersionText(version) + ", error_rate=" + rate + "\n"
  }

  class Endpoints {
    const webex: WebexAgent
    var endpoints: seq<Endpoint>

    ghost predicate Valid()
      reads this, endpoints
    {
      && (forall i, j :: 0 <= i < j < |endpoints| ==> endpoints[i] != endpoints[j])
      && (forall i :: 0 <= i < |endpoints| ==> endpoints[i].Valid())
    }

    constructor (webex: WebexAgent)
      ensures this.webex == webex && endpoints == [] && Valid()
    {
      this.webex := webex;
      endpoints := [];
    }

    /** `Endpoints::new`: fails when the Webex agent cannot be built;
        otherwise one fresh endpoint per configured `REGION_<i>_NAME` /
        `_ENDPOINT` pair, from index 0 up to the first gap, at most 100. */
    static method New(env: Env, webex: Result<WebexAgent, VarError>) returns (r: Result<Endpoints, VarError>)
      ensures webex.Err? ==> r.Err? && r.error == webex.error
      ensures webex.Ok? ==> r.Ok? && fresh(r.value) && r.value.Valid() && r.value.webex == webex.value
      ensures webex.Ok? ==> var list := r.value.endpoints;
        && |list| <= MAX_INDEXED
        && (forall k :: 0 <= k < |list| ==> fresh(list[k]) && list[k].version.None? && list[k].monitor == Fresh)
        && (forall k :: 0 <= k < |list| ==>
              && IndexedKey("REGION_", k, "_NAME") in env && IndexedKey("REGION_", k, "_ENDPOINT") in env
              && list[k].name == env[IndexedKey("REGION_", k, "_NAME")]
              && list[k].endpoint == env[IndexedKey("REGION_", k, "_ENDPOINT")])
        && (|list| < MAX_INDEXED ==>
              !(IndexedKey("REGION_", |list|, "_NAME") in env && IndexedKey("REGION_", |list|, "_ENDPOINT") in env))
    {
      if webex.Err? {
        return Err(webex.error);
      }
      var pairs := ReadIndexedPairs(env, "REGION_", "_NAME", "_ENDPOINT");
      var list: seq<Endpoint> := [];
      for k := 0 to |pairs|
        invariant |list| == k
        invariant forall i, j :: 0 <= i < j < k ==> list[i] != list[j]
        invariant forall j :: 0 <= j < k ==> fresh(list[j]) && list[j].version.None? && list[j].monitor == Fresh
        invariant forall j :: 0 <= j < k ==> list[j].name == pairs[j].0 && list[j].endpoint == pairs[j].1
      {
        var e := new Endpoint(pairs[k].0, pairs[k].1);
        list := list + [e];
      }
      var es := new Endpoints(webex.value);
      es.endpoints := list;
      r := Ok(es);
    }

    /** `run_version`: one fetch per endpoint, in order, `fetch(k)` being
        endpoint `k`'s; the announcements (`outcomes`, one per endpoint)
        that are present form the batch handed to `say_messages`. */
    method RunVersion(fetch: nat -> Option<string>) returns (messages: seq<string>, ghost outcomes: seq<Option<string>>)
      requires Valid()
      modifies endpoints`version
      ensures Valid()
      ensures |outcomes| == |endpoints|
      ensures forall k :: 0 <= k < |endpoints| ==>
        && endpoints[k].version == VersionStore(old(endpoints[k].version), fetch(k))
        && endpoints[k].monitor == old(endpoints[k].monitor)
        && outcomes[k] == VersionNews(endpoints[k].name, old(endpoints[k].version), fetch(k))
      ensures messages == Somes(outcomes)
    {
      ghost var eps := endpoints;
      messages, outcomes := [], [];
      for i := 0 to |endpoints|
        invariant endpoints == eps && Valid()
        invariant |outcomes| == i
        invariant forall k {:trigger eps[k].version} :: 0 <= k < |eps| ==>
          eps[k].version == if k < i then VersionStore(old(eps[k].version), fetch(k)) else old(eps[k].version)
        invariant forall k {:trigger outcomes[k]} :: 0 <= k < i ==> outcomes[k] == VersionNews(eps[k].name, old(eps[k].version), fetch(k))
        invariant messages == Somes(outcomes)
      {
        var m := VersionAt(i, fetch(i));
        SomesSnoc(outcomes, m);
        outcomes := outcomes + [m];
        if m.Some? {
          messages := messages + [m.value];
        }
      }
    }

    /** `update_version` on the endpoint at index `i`, with its announcement. */
    method VersionAt(i: nat, fetched: Option<string>) returns (m: Option<string>)
      requires i < |endpoints|
      requires forall k :: 0 <= k < |endpoints| && k != i ==> endpoints[k] != endpoints[i]
      modifies {endpoints[i]}`version
      ensures endpoints[i].version == VersionStore(old(endpoints[i].version), fetched)
      ensures forall k :: 0 <= k < |endpoints| && k != i ==> endpoints[k].version == old(endpoints[k].version)
      ensures m == VersionNews(endpoints[i].name, old(endpoints[i].version), fetched)
    {
      var v := endpoints[i].UpdateVersion(fetched);
      m := if v.Some? then Some("New API version on " + endpoints[i].name + ": " + v.value) else None;
    }

    /** `run_error_rate`: one sample per endpoint; the reported values only
        feed a log line. */
    method RunErrorRate()
      requires Valid()
      modifies endpoints`monitor
      ensures Valid()
      ensures forall k :: 0 <= k < |endpoints| ==>
        endpoints[k].monitor == SampleStep(old(endpoints[k].monitor)) && endpoints[k].version == old(endpoints[k].version)
    {
      for i := 0 to |endpoints|
        invariant Valid()
        invariant forall k :: 0 <= k < |endpoints| ==>
          endpoints[k].monitor == if k < i then SampleStep(old(endpoints[k].monitor)) else old(endpoints[k].monitor)
      {
        var _ := endpoints[i].UpdateErrorRate();
      }
    }

    /** `run_alive`: one liveness step per endpoint, in order; the
        announcements that are present form the batch handed to
        `say_messages`. */
    method RunAlive(probe: nat -> Probe) returns (messages: seq<string>, ghost outcomes: seq<Option<string>>)
      requires Valid()
      modifies endpoints`monitor
      ensures Valid()
      ensures |outcomes| == |endpoints|
      ensures forall k :: 0 <= k < |endpoints| ==>
        && endpoints[k].monitor == AliveStep(old(endpoints[k].monitor), probe(k))
        && endpoints[k].version == old(endpoints[k].version)
      ensures forall k :: 0 <= k < |endpoints| ==>
        old(endpoints[k].Valid()) && outcomes[k] == AliveOutcome(endpoints[k].name, old(endpoints[k].monitor), probe(k))
      ensures messages == Somes(outcomes)
    {
      ghost var eps := endpoints;
      messages, outcomes := [], [];
      for i := 0 to |endpoints|
        invariant endpoints == eps && Valid()
        invariant |outcomes| == i
        invariant forall k {:trigger eps[k].monitor} :: 0 <= k < |eps| ==>
          eps[k].monitor == if k < i then AliveStep(old(eps[k].monitor), probe(k)) else old(eps[k].monitor)
        invariant forall k {:trigger outcomes[k]} :: 0 <= k < i ==> outcomes[k] == AliveOutcome(eps[k].name, old(eps[k].monitor), probe(k))
        invariant messages == Somes(outcomes)
      {
        var m := AliveAt(i, probe(i));
        SomesSnoc(outcomes, m);
        outcomes := outcomes + [m];
        if m.Some? {
          messages := messages + [m.value];
        }
      }
    }

    /** `alive` on the endpoint at index `i`; the others are untouched. */
    method AliveAt(i: nat, probe: Probe) returns (m: Option<string>)
      requires i < |endpoints| && endpoints[i].Valid()
      requires forall k :: 0 <= k < |endpoints| && k != i ==> endpoints[k] != endpoints[i]
      modifies {endpoints[i]}`monitor
      ensures endpoints[i].monitor == AliveStep(old(endpoints[i].monitor), probe)
      ensures forall k :: 0 <= k < |endpoints| && k != i ==> endpoints[k].monitor == old(endpoints[k].monitor)
      ensures m == AliveOutcome(endpoints[i].name, old(endpoints[i].monitor), probe)
    {
      m := endpoints[i].Alive(probe);
    }

    /** `run`: variation 0 samples, 1 checks liveness, 2 fetches versions,
        each handing its batch (if any) to `say_messages`; any other
        variation only logs and changes nothing. */
    method Run(variation: nat, probe: nat -> Probe, fetch: nat -> Option<string>) returns (said: Option<seq<string>>, ghost outcomes: seq<Option<string>>)
      requires Valid()
      modifies endpoints
      ensures Valid()
      ensures said.Some? <==> variation == 1 || variation == 2
      ensures said.Some? ==> |outcomes| == |endpoints| && said == Some(Somes(outcomes))
      ensures variation == 1 ==> forall k :: 0 <= k < |endpoints| ==>
        outcomes[k] == AliveOutcome(endpoints[k].name, old(endpoints[k].monitor), probe(k))
      ensures variation == 2 ==> forall k :: 0 <= k < |endpoints| ==>
        outcomes[k] == VersionNews(endpoints[k].name, old(endpoints[k].version), fetch(k))
      ensures variation == 0 ==> forall k :: 0 <= k < |endpoints| ==>
        endpoints[k].monitor == SampleStep(old(endpoints[k].monitor)) && endpoints[k].version == old(endpoints[k].version)
      ensures variation == 1 ==> forall k :: 0 <= k < |endpoints| ==>
        endpoints[k].monitor == AliveStep(old(endpoints[k].monitor), probe(k)) && endpoints[k].version == old(endpoints[k].version)
      ensures variation == 2 ==> forall k :: 0 <= k < |endpoints| ==>
        endpoints[k].monitor == old(endpoints[k].monitor) && endpoints[k].version == VersionStore(old(endpoints[k].version), fetch(k))
      ensures variation > 2 ==> forall k :: 0 <= k < |endpoints| ==>
        endpoints[k].monitor == old(endpoints[k].monitor) && endpoints[k].version == old(endpoints[k].version)
    {
      outcomes := [];
      if variation == 0 {
        RunErrorRate();
        said := None;
      } else if variation == 1 {
        var messages;
        messages, outcomes := RunAlive(probe);
        said := Some(messages);
      } else if variation == 2 {
        var messages;
        messages, outcomes := RunVersion(fetch);
        said := Some(messages);
      } else {
        said := None;
      }
    }

    /** The `/status` text for the first `k` endpoints. */
    function StatusUpTo(k: nat, rates: nat -> RateText): string
      requires k <= |endpoints|
      reads this, endpoints
      decreases k
    {
      if k == 0 then ""
      else
        var e := endpoints[k - 1];
        StatusUpTo(k - 1, rates) + StatusLine(e.name, e.monitor.alive, e.version, rates(k - 1))
    }

    /** `trigger`: nothing unless the message contains "/status"; then the
        status text lists every endpoint with its state, version and error
        rate, one line each, in order. The call `respond(&response, id)`
        hands the text as the parent and the message id as the text of the
        reply. */
    method Trigger(message: string, id: string, rates: nat -> RateText) returns (q: Option<WebexQuery>)
      ensures !Contains(message, STATUS_COMMAND) ==> q.None?
      ensures Contains(message, STATUS_COMMAND) ==>
        q == Some(WebexQuery(webex.roomId, StatusUpTo(|endpoints|, rates), Some(id), None))
    {
      if !Contains(message, STATUS_COMMAND) {
        return None;
      }
      var response := "";
      for i := 0 to |endpoints|
        invariant response == StatusUpTo(i, rates)
      {
        var e := endpoints[i];
        response := response + StatusLine(e.name, e.monitor.alive, e.version, rates(i));
      }
      var query := webex.Respond(response, id);
      q := Some(query);
    }
  }
}
