/** The liveness rule shared by the down detectors (src/down_detectors.rs)
    and the region endpoints (src/endpoints.rs, src/osc.rs): a Schmitt
    trigger over a saturating `u8` failure counter, the sample counter that
    gates the error-rate report, the rendering of probe errors and the
    up/down notifications. */
module Liveness {
  import opened Common

  /** Thresholds of the trigger and the counter's ceiling. */
  const LOW: nat := 3
  const HIGH: nat := 6
  const MAX_HIGH: nat := 10

  const U8_MAX: nat := 0xFF
  const U32_MAX: nat := 0xFFFF_FFFF

  /** Size of the sliding window: the error rate is reported once this many
      samples have been taken. */
  const WINDOW: nat := 100

  /** Why a probe failed; `status` is an HTTP status code (`u16`). */
  datatype ProbeError = AgentInit(reason: string) | Code(status: nat) | Transport(reason: string)

  /** The outcome of one probe of the monitored URL. */
  type Probe = Result<(), ProbeError>

  const MAINTENANCE_TEXT: string :=
    "API has been very properly put in maintenance mode by the wonderful ops team, thanks for your understanding"

  const CODE_PREFIX: string := "API is down (error code: "

  /** `to_string` of a probe error. */
  function ErrorText(e: ProbeError): string
  {
    match e
    case AgentInit(reason) => "Internal error: " + reason
    case Code(503) => MAINTENANCE_TEXT
    case Code(status) => CODE_PREFIX + NatToString(status) + ")"
    case Transport(reason) => "API seems down (transport error: " + reason + ")"
  }

  /** A status code other than 503 can be read back from its message; 503
      gives the maintenance text instead. */
  lemma CodeTextShowsStatus(status: nat)
    requires status < 0x1_0000
    ensures status == 503 ==> ErrorText(Code(status)) == MAINTENANCE_TEXT
    ensures status != 503 ==>
      var t := ErrorText(Code(status));
      && CODE_PREFIX <= t && t[|t| - 1] == ')'
      && ParseUsize(t[|CODE_PREFIX|..|t| - 1]) == Some(status)
  {
    if status != 503 {
      var t := ErrorText(Code(status));
      assert t[|CODE_PREFIX|..|t| - 1] == NatToString(status);
      ParseUsizeOfNatToString(status);
    }
  }

  /** `u8::saturating_add(1)` and `u8::saturating_sub(1)`. */
  function SaturatingIncU8(x: nat): nat
    requires x <= U8_MAX
  {
    if x == U8_MAX then U8_MAX else x + 1
  }

  function SaturatingDecU8(x: nat): nat
  {
    if x == 0 then 0 else x - 1
  }

  /** The failure count after a probe: one less (not below 0) on success, one
      more (not above 10) on failure. */
  function NextCount(count: nat, probe: Probe): (c: nat)
    requires count <= MAX_HIGH
    ensures c <= MAX_HIGH
    ensures probe.Ok? ==> c == if count == 0 then 0 else count - 1
    ensures probe.Err? ==> c == if count == MAX_HIGH then MAX_HIGH else count + 1
  {
    match probe
    case Ok(_) => SaturatingDecU8(count)
    case Err(_) => var up := SaturatingIncU8(count); if up < MAX_HIGH then up else MAX_HIGH
  }

  /** The trigger: a live target dies when the count is exactly 6, a dead one
      revives when it is exactly 3, and nothing else changes the state. */
  function NextAlive(alive: bool, count: nat): (r: bool)
    ensures r != alive <==> (alive && count == HIGH) || (!alive && count == LOW)
  {
    if alive && count == HIGH then false
    else if !alive && count == LOW then true
    else alive
  }

  /** The liveness state of one monitored target. */
  datatype Monitor = Monitor(alive: bool, failures: nat, lastError: Option<ProbeError>, samples: nat)

  /** A new target: alive, no failures, no error seen, no samples. */
  const Fresh: Monitor := Monitor(true, 0, None, 0)

  /** Bounds of the counters; a live target's count is below 6 and a dead
      one's above 3; a non-zero failure count has a reason. */
  ghost predicate ValidMonitor(m: Monitor)
  {
    && m.failures <= MAX_HIGH
    && m.samples <= U32_MAX
    && (m.alive ==> m.failures < HIGH)
    && (!m.alive ==> m.failures > LOW)
    && (m.failures > 0 ==> m.lastError.Some?)
  }

  /** `update_alive` with the computed count stored: a failure records its
      error, a success keeps the last one. */
  function AliveStep(m: Monitor, probe: Probe): (r: Monitor)
    requires m.failures <= MAX_HIGH
    ensures r.samples == m.samples
    ensures probe.Err? ==> r.lastError == Some(probe.error)
    ensures probe.Ok? ==> r.lastError == m.lastError
    ensures ValidMonitor(m) ==> ValidMonitor(r)
  {
    var c := NextCount(m.failures, probe);
    Monitor(NextAlive(m.alive, c), c,
      if probe.Err? then Some(probe.error) else m.lastError,
      m.samples)
  }

  /** `update_alive` as written: the new count is computed and dropped (the
      `match` is a statement), so the transition is decided on the old count. */
  function AliveStepAsWritten(m: Monitor, probe: Probe): (r: Monitor)
    ensures r.failures == m.failures && r.samples == m.samples
  {
    Monitor(NextAlive(m.alive, m.failures), m.failures,
      if probe.Err? then Some(probe.error) else m.lastError,
      m.samples)
  }

  /** The monitor after a sequence of probes, from a fresh target. */
  function RunAlive(probes: seq<Probe>): (m: Monitor)
    ensures ValidMonitor(m)
    decreases |probes|
  {
    if |probes| == 0 then Fresh
    else AliveStep(RunAlive(probes[..|probes| - 1]), probes[|probes| - 1])
  }

  function RunAliveAsWritten(probes: seq<Probe>): Monitor
    decreases |probes|
  {
    if |probes| == 0 then Fresh
    else AliveStepAsWritten(RunAliveAsWritten(probes[..|probes| - 1]), probes[|probes| - 1])
  }

  /** The count after the first `i + 1` probes. */
  function CountAt(probes: seq<Probe>, i: nat): nat
    requires i < |probes|
  {
    RunAlive(probes[..i + 1]).failures
  }

  /** The count was at 6 after probe `i` and never back at 3 since. */
  ghost predicate HighSince(probes: seq<Probe>, i: nat)
    requires i < |probes|
  {
    CountAt(probes, i) == HIGH && forall j :: i < j < |probes| ==> CountAt(probes, j) != LOW
  }

  lemma CountAtPrefix(probes: seq<Probe>, n: nat, k: nat)
    requires k < n <= |probes|
    ensures CountAt(probes[..n], k) == CountAt(probes, k)
  {
    assert probes[..n][..k + 1] == probes[..k + 1];
  }

  /** Extending the probes by one whose count is neither 3 nor 6 keeps every witness. */
  lemma HighSinceExtend(probes: seq<Probe>, i: nat)
    requires 0 < |probes| && i < |probes| - 1
    requires CountAt(probes, |probes| - 1) != LOW
    ensures HighSince(probes, i) <==> HighSince(probes[..|probes| - 1], i)
  {
    var n := |probes| - 1;
    CountAtPrefix(probes, n, i);
    forall j | i < j < n ensures CountAt(probes[..n], j) == CountAt(probes, j) {
      CountAtPrefix(probes, n, j);
    }
  }

  /** Hysteresis: a target is dead exactly when its count was last at 6 more
      recently than at 3. */
  lemma {:induction false} Hysteresis(probes: seq<Probe>)
    ensures !RunAlive(probes).alive <==> exists i :: 0 <= i < |probes| && HighSince(probes, i)
    decreases |probes|
  {
    if |probes| > 0 {
      var n := |probes| - 1;
      var init := probes[..n];
      Hysteresis(init);
      assert probes[..n + 1] == probes;
      var c := CountAt(probes, n);
      if c == HIGH {
        assert HighSince(probes, n);
      } else if c == LOW {
        assert RunAlive(probes).alive;
        forall i | 0 <= i < |probes| ensures !HighSince(probes, i) {
        }
      } else {
        assert RunAlive(probes).alive == RunAlive(init).alive;
        assert !HighSince(probes, n);
        forall i | 0 <= i < n ensures HighSince(probes, i) <==> HighSince(init, i) {
          HighSinceExtend(probes, i);
        }
      }
    }
  }

  /** As written, the count never leaves 0, so a target is never reported dead. */
  lemma {:induction false} AsWrittenNeverDies(probes: seq<Probe>)
    ensures RunAliveAsWritten(probes).failures == 0
    ensures RunAliveAsWritten(probes).alive
    decreases |probes|
  {
    if |probes| > 0 {
      AsWrittenNeverDies(probes[..|probes| - 1]);
    }
  }

  function Failures(n: nat): (ps: seq<Probe>)
    ensures |ps| == n && forall i :: 0 <= i < n ==> ps[i].Err?
  {
    seq(n, i => Err(Code(500)))
  }

  /** `n` failures in a row from a fresh target: the count is `min(n, 10)`
      and the target is dead from the sixth failure on. */
  lemma {:induction false} ConsecutiveFailures(n: nat)
    ensures RunAlive(Failures(n)).failures == if n < MAX_HIGH then n else MAX_HIGH
    ensures RunAlive(Failures(n)).alive <==> n < HIGH
    decreases n
  {
    if n > 0 {
      assert Failures(n)[..n - 1] == Failures(n - 1);
      ConsecutiveFailures(n - 1);
    }
  }

  /** Six failures: the target is dead as intended, alive as written. */
  lemma SixFailuresCounterexample()
    ensures !RunAlive(Failures(6)).alive
    ensures RunAliveAsWritten(Failures(6)).alive
  {
    ConsecutiveFailures(6);
    AsWrittenNeverDies(Failures(6));
  }

  /** `update_error_rate`'s sample counter (a saturating `u32`); the
      floating-point mean is not part of this model. */
  function SampleStep(m: Monitor): (r: Monitor)
    requires m.samples <= U32_MAX
    ensures r.samples <= U32_MAX
    ensures r == m.(samples := r.samples)
  {
    m.(samples := if m.samples == U32_MAX then U32_MAX else m.samples + 1)
  }

  /** A value is returned once the window is full. */
  predicate Reports(m: Monitor)
  {
    m.samples >= WINDOW
  }

  function RunSamples(m: Monitor, k: nat): (r: Monitor)
    requires m.samples <= U32_MAX
    ensures r.samples <= U32_MAX
    decreases k
  {
    if k == 0 then m else SampleStep(RunSamples(m, k - 1))
  }

  /** After `k` calls on a fresh target the counter is `min(k, u32::MAX)`, so
      the first 99 calls return nothing and every later call a value. */
  lemma {:induction false} SampleGating(k: nat)
    ensures RunSamples(Fresh, k).samples == if k < U32_MAX then k else U32_MAX
    ensures Reports(RunSamples(Fresh, k)) <==> k >= WINDOW
    decreases k
  {
    if k > 0 {
      SampleGating(k - 1);
    }
  }

  /** From a valid state, a step to dead always has a recorded reason, so the
      "no reason found" message cannot be produced. */
  lemma DeathHasReason(m: Monitor, probe: Probe)
    requires ValidMonitor(m)
    ensures !AliveStep(m, probe).alive ==> AliveStep(m, probe).lastError.Some?
  {
  }

  /** The two ways the transitions are worded. */
  datatype Wording =
    | TargetWording  // down_detectors: "{name}: ...", "{name} is up"
    | RegionWording  // endpoints and osc: "{name} region: ...", "API on {name} region is up"

  function DownText(w: Wording, name: string, e: ProbeError): string
  {
    match w
    case TargetWording => name + ": " + ErrorText(e)
    case RegionWording => name + " region: " + ErrorText(e)
  }

  function NoReasonText(w: Wording, name: string): string
  {
    match w
    case TargetWording => name + " seems down (no reason found)"
    case RegionWording => "API on " + name + " region seems down (no reason found)"
  }

  function UpText(w: Wording, name: string): string
  {
    match w
    case TargetWording => name + " is up"
    case RegionWording => "API on " + name + " region is up"
  }

  /** `alive()`'s message for a transition from `before` to the state `after`:
      only a change of state is announced, and a death whose last error is
      an agent-initialisation failure is not announced either. */
  function AliveMessage(w: Wording, name: string, before: bool, after: Monitor): (r: Option<string>)
    ensures r.Some? <==>
      (before != after.alive && !(before && after.lastError.Some? && after.lastError.value.AgentInit?))
    ensures !before && after.alive ==> r == Some(UpText(w, name))
    ensures before && !after.alive && after.lastError.Some? && !after.lastError.value.AgentInit? ==>
      r == Some(DownText(w, name, after.lastError.value))
  {
    if before && !after.alive then
      (match after.lastError
       case Some(AgentInit(_)) => None
       case Some(e) => Some(DownText(w, name, e))
       case None => Some(NoReasonText(w, name)))
    else if !before && after.alive then Some(UpText(w, name))
    else None
  }

  /** As written, `alive()` never announces anything. */
  lemma AsWrittenIsSilent(w: Wording, name: string, probes: seq<Probe>, probe: Probe)
    ensures AliveMessage(w, name, RunAliveAsWritten(probes).alive,
                         AliveStepAsWritten(RunAliveAsWritten(probes), probe)).None?
  {
    AsWrittenNeverDies(probes);
  }

  /** `"{rate}"` of the floating-point error rate; floating point is not
      modelled, so the rendering is given. */
  type RateText = string

  /** `{}` of an optional version: the value, or "unkown" (sic) when unset. */
  function VersionText(v: Option<string>): (t: string)
    ensures v.Some? ==> t == v.value
    ensures v.None? ==> t == "unkown"
  {
    match v
    case Some(s) => s
    case None => "unkown"
  }
}
