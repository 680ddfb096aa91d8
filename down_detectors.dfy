/** Down detectors (src/down_detectors.rs): a list of named URLs, each probed
    on two cadences, one feeding the error-rate sample counter and one the
    liveness trigger, with a `/status` command listing them all. */
module DownDetectors {
  import opened Common
  import opened Config
  import opened Bot
  import opened Liveness
  import opened Webex

  const NAME: string := "down_detectors"

  /** Variation 0 samples the error rate, variation 1 checks liveness, both every 2 s. */
  const VARIATION_DURATIONS: seq<nat> := [2, 2]

  /** Only the "/status" trigger. */
  const CAPABILITIES: Capabilities := TriggersOnly(["/status"])

  /** One watched URL. */
  class DownDetector {
    const name: string
    const url: string
    /** `alive`, `access_failure_cnt`, `last_error` and `error_rate_cnt`. */
    var monitor: Monitor


    ghost predicate Valid()
      reads this
    {
      ValidMonitor(monitor)
    }

    /** `DownDetector::new`: alive, no failures, no error, no samples. */
    constructor (name: string, url: string)
      ensures this.name == name && this.url == url
      ensures monitor == Fresh && Valid()
    {
      this.name := name;
      this.url := url;
      monitor := Fresh;
    }

    /** `update_alive` with its count stored; returns the state before and after. */
    method UpdateAlive(probe: Probe) returns (before: bool, after: bool)
      requires Valid()
      modifies this
      ensures Valid()
      ensures monitor == AliveStep(old(monitor), probe)
      ensures before == old(monitor.alive) && after == monitor.alive
    {
      before := monitor.alive;
      if probe.Err? {
        monitor := monitor.(lastError := Some(probe.error));
      }
      var count := NextCount(monitor.failures, probe);
      monitor := monitor.(failures := count, alive := NextAlive(monitor.alive, count));
      after := monitor.alive;
    }

    /** `update_error_rate`, sample counting only: `true` when a value is returned. */
    method UpdateErrorRate() returns (reported: bool)
      requires Valid()
      modifies this
      ensures Valid()
      ensures monitor == SampleStep(old(monitor))
      ensures reported <==> Reports(monitor)
    {
      monitor := monitor.(samples := if monitor.samples == U32_MAX then U32_MAX else monitor.samples + 1);
      reported := monitor.samples >= WINDOW;
    }

    /** `alive`: one liveness step and its announcement, if any. */
    method Alive(probe: Probe) returns (message: Option<string>)
      requires Valid()
      modifies this
      ensures Valid()
      ensures monitor == AliveStep(old(monitor), probe)
      ensures message == AliveOutcome(name, old(monitor), probe)
    {
      var before, after := UpdateAlive(probe);
      message := AliveMessage(TargetWording, name, before, monitor);
    }
  }

  /** The announcement of one liveness step from state `m`. */
  function AliveOutcome(name: string, m: Monitor, probe: Probe): Option<string>
    requires m.failures <= MAX_HIGH
  {
    AliveMessage(TargetWording, name, m.alive, AliveStep(m, probe))
  }

  /** One line of the `/status` answer. */
  function StatusLine(name: string, alive: bool, rate: RateText): string
  {
    name + ": alive=" + BoolToString(alive) + ", error_rate=" + rate + "\n"
  }

  class DownDetectors {
    const webex: WebexAgent
    var watchList: seq<DownDetector>

    ghost predicate Valid()
      reads this, watchList
    {
      && (forall i, j :: 0 <= i < j < |watchList| ==> watchList[i] != watchList[j])
      && (forall i :: 0 <= i < |watchList| ==> watchList[i].Valid())
    }

    constructor (webex: WebexAgent)
      ensures this.webex == webex && watchList == [] && Valid()
    {
      this.webex := webex;
      watchList := [];
    }

    /** `DownDetectors::new`: fails when the Webex agent cannot be built;
        otherwise one fresh detector per configured `DOWN_DETECTORS_<i>_NAME`
        / `_URL` pair, from index 0 up to the first gap, at most 100. */
    static method New(env: Env, webex: Result<WebexAgent, VarError>) returns (r: Result<DownDetectors, VarError>)
      ensures webex.Err? ==> r.Err? && r.error == webex.error
      ensures webex.Ok? ==> r.Ok? && fresh(r.value) && r.value.Valid() && r.value.webex == webex.value
      ensures webex.Ok? ==> var list := r.value.watchList;
        && |list| <= MAX_INDEXED
        && (forall k :: 0 <= k < |list| ==> fresh(list[k]) && list[k].monitor == Fresh)
        && (forall k :: 0 <= k < |list| ==>
              && IndexedKey("DOWN_DETECTORS_", k, "_NAME") in env && IndexedKey("DOWN_DETECTORS_", k, "_URL") in env
              && list[k].name == env[IndexedKey("DOWN_DETECTORS_", k, "_NAME")]
              && list[k].url == env[IndexedKey("DOWN_DETECTORS_", k, "_URL")])
        && (|list| < MAX_INDEXED ==>
              !(IndexedKey("DOWN_DETECTORS_", |list|, "_NAME") in env && IndexedKey("DOWN_DETECTORS_", |list|, "_URL") in env))
    {
      if webex.Err? {
        return Err(webex.error);
      }
      var pairs := ReadIndexedPairs(env, "DOWN_DETECTORS_", "_NAME", "_URL");
      var list: seq<DownDetector> := [];
      for k := 0 to |pairs|
        invariant |list| == k
        invariant forall i, j :: 0 <= i < j < k ==> list[i] != list[j]
        invariant forall j :: 0 <= j < k ==> fresh(list[j]) && list[j].monitor == Fresh
        invariant forall j :: 0 <= j < k ==> list[j].name == pairs[j].0 && list[j].url == pairs[j].1
      {
        var d := new DownDetector(pairs[k].0, pairs[k].1);
        list := list + [d];
      }
      var dd := new DownDetectors(webex.value);
      dd.watchList := list;
      r := Ok(dd);
    }

    /** `run_error_rate`: one sample per detector; the reported values only
        feed a log line. */
    method RunErrorRate()
      requires Valid()
      modifies watchList
      ensures Valid()
      ensures forall k :: 0 <= k < |watchList| ==> watchList[k].monitor == SampleStep(old(watchList[k].monitor))
    {
      for i := 0 to |watchList|
        invariant Valid()
        invariant forall k :: 0 <= k < i ==> watchList[k].monitor == SampleStep(old(watchList[k].monitor))
        invariant forall k :: i <= k < |watchList| ==> watchList[k].monitor == old(watchList[k].monitor)
      {
        var _ := watchList[i].UpdateErrorRate();
      }
    }

    /** `run_alive`: one liveness step per detector, in order; the
        announcements (`outcomes`, one per detector) that are present form
        the batch handed to `say_messages`. */
    method RunAlive(probe: nat -> Probe) returns (messages: seq<string>, ghost outcomes: seq<Option<string>>)
      requires Valid()
      modifies watchList
      ensures Valid()
      ensures |outcomes| == |watchList|
      ensures forall k :: 0 <= k < |watchList| ==> watchList[k].monitor == AliveStep(old(watchList[k].monitor), probe(k))
      ensures forall k :: 0 <= k < |watchList| ==>
        old(watchList[k].Valid()) && outcomes[k] == AliveOutcome(watchList[k].name, old(watchList[k].monitor), probe(k))
      ensures messages == Somes(outcomes)
    {
      ghost var ds := watchList;
      messages, outcomes := [], [];
      for i := 0 to |watchList|
        invariant watchList == ds
        invariant |outcomes| == i
        invariant forall k {:trigger ds[k].monitor} :: 0 <= k < |ds| ==>
          ValidMonitor(old(ds[k].monitor)) &&
          ds[k].monitor == if k < i then AliveStep(old(ds[k].monitor), probe(k)) else old(ds[k].monitor)
        invariant forall k {:trigger outcomes[k]} :: 0 <= k < i ==> outcomes[k] == AliveOutcome(ds[k].name, old(ds[k].monitor), probe(k))
        invariant messages == Somes(outcomes)
      {
        var m := AliveAt(i, probe(i));
        SomesSnoc(outcomes, m);
        outcomes := outcomes + [m];
        if m.Some? {
          messages := messages + [m.value];
        }
      }
    }

    /** `alive` on the detector at index `i`; the others are untouched. */
    method AliveAt(i: nat, probe: Probe) returns (m: Option<string>)
      requires i < |watchList| && watchList[i].Valid()
      requires forall k :: 0 <= k < |watchList| && k != i ==> watchList[k] != watchList[i]
      modifies watchList[i]
      ensures watchList[i].monitor == AliveStep(old(watchList[i].monitor), probe)
      ensures forall k :: 0 <= k < |watchList| && k != i ==> watchList[k].monitor == old(watchList[k].monitor)
      ensures m == AliveOutcome(watchList[i].name, old(watchList[i].monitor), probe)
    {
      m := watchList[i].Alive(probe);
    }

    /** `run`: variation 0 samples, variation 1 checks liveness and returns
        the batch it says; any other variation only logs. */
    method Run(variation: nat, probe: nat -> Probe) returns (said: Option<seq<string>>, ghost outcomes: seq<Option<string>>)
      requires Valid()
      modifies watchList
      ensures Valid()
      ensures variation != 1 ==> said.None?
      ensures variation == 0 ==>
        forall k :: 0 <= k < |watchList| ==> watchList[k].monitor == SampleStep(old(watchList[k].monitor))
      ensures variation == 1 ==>
        forall k :: 0 <= k < |watchList| ==> watchList[k].monitor == AliveStep(old(watchList[k].monitor), probe(k))
      ensures variation == 1 ==> |outcomes| == |watchList| && said == Some(Somes(outcomes))
      ensures variation == 1 ==> forall k :: 0 <= k < |watchList| ==>
        outcomes[k] == AliveOutcome(watchList[k].name, old(watchList[k].monitor), probe(k))
      ensures variation >= 2 ==>
        forall k :: 0 <= k < |watchList| ==> watchList[k].monitor == old(watchList[k].monitor)
    {
      outcomes := [];
      if variation == 0 {
        RunErrorRate();
        said := None;
      } else if variation == 1 {
        var messages;
        messages, outcomes := RunAlive(probe);
        said := Some(messages);
      } else {
        said := None;
      }
    }

    /** The `/status` text for the first `k` detectors. */
    function StatusUpTo(k: nat, rates: nat -> RateText): string
      requires k <= |watchList|
      reads this, watchList
      decreases k
    {
      if k == 0 then ""
      else StatusUpTo(k - 1, rates) + StatusLine(watchList[k - 1].name, watchList[k - 1].monitor.alive, rates(k - 1))
    }

    /** `trigger`: whatever the message, the status text lists every
        detector with its state and error rate, one line each, in order;
        `rates(k)` is the rendering of detector `k`'s error rate. The call
        `respond(&response, id)` hands the text as the parent and the
        message id as the text of the reply. */
    method Trigger(id: string, rates: nat -> RateText) returns (q: WebexQuery)
      ensures q == WebexQuery(webex.roomId, StatusUpTo(|watchList|, rates), Some(id), None)
    {
      var response := "";
      for i := 0 to |watchList|
        invariant response == StatusUpTo(i, rates)
      {
        response := response + StatusLine(watchList[i].name, watchList[i].monitor.alive, rates(i));
      }
      q := webex.Respond(response, id);
    }
  }
}
