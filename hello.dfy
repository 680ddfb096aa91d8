/** The hello module (src/hello.rs): a weekly quote, except on the very
    first run. The quote table and the random pick are inputs: `quotes`
    holds (author, quote) pairs and `pick` chooses among them. */
module Hello {
  import opened Common
  import opened Bot

  const NAME: string := "hello"

  /** One variation, weekly. */
  const VARIATION_DURATIONS: seq<nat> := [7 * 24 * 60 * 60]

  /** The default capabilities: never routed a message. */
  const CAPABILITIES: Capabilities := DefaultCapabilities

  /** "{quote} — {author}". */
  function QuoteLine(q: (string, string)): string
  {
    q.1 + " \U{2014} " + q.0
  }

  /** One `run` from the flag `skipped`: the flag afterwards and the answer. */
  function HelloStep(skipped: bool, quotes: seq<(string, string)>, pick: nat): (r: (bool, Option<seq<string>>))
    ensures r.0
    ensures r.1.Some? <==> skipped && |quotes| > 0
    ensures r.1.Some? ==> |r.1.value| == 1 && exists j :: 0 <= j < |quotes| && r.1.value[0] == QuoteLine(quotes[j])
  {
    if !skipped then (true, None)
    else if |quotes| == 0 then (true, None)
    else
      var j := pick % |quotes|;
      (true, Some([QuoteLine(quotes[j])]))
  }

  /** The answers of successive runs from the flag `skipped`, `picks[k]`
      being the pick of run `k`, and the flag afterwards. */
  function Runs(skipped: bool, quotes: seq<(string, string)>, picks: seq<nat>): (bool, seq<Option<seq<string>>>)
    decreases |picks|
  {
    if |picks| == 0 then (skipped, [])
    else
      var before := Runs(skipped, quotes, picks[..|picks| - 1]);
      var step := HelloStep(before.0, quotes, picks[|picks| - 1]);
      (step.0, before.1 + [step.1])
  }

  /** From a new module, the first run is silent and every later run says
      exactly one quote of the table. */
  lemma {:induction false} OnlyTheFirstRunIsSilent(quotes: seq<(string, string)>, picks: seq<nat>)
    requires |quotes| > 0
    ensures |Runs(false, quotes, picks).1| == |picks|
    ensures |picks| > 0 ==> Runs(false, quotes, picks).0
    ensures |picks| > 0 ==> Runs(false, quotes, picks).1[0].None?
    ensures forall k :: 1 <= k < |picks| ==> Runs(false, quotes, picks).1[k].Some? && |Runs(false, quotes, picks).1[k].value| == 1
    decreases |picks|
  {
    if |picks| > 0 {
      var init := picks[..|picks| - 1];
      OnlyTheFirstRunIsSilent(quotes, init);
      var before := Runs(false, quotes, init);
      if |init| == 0 {
        assert before == (false, []);
      } else {
        assert before.0;
      }
    }
  }

  class Hello {
    var hasSkippedFirstTime: bool

    /** `Hello::new`: the first run is still to be skipped. */
    constructor ()
      ensures !hasSkippedFirstTime
    {
      hasSkippedFirstTime := false;
    }

    /** `run`: the first call only sets the flag; later calls say one quote. */
    method Run(variation: nat, quotes: seq<(string, string)>, pick: nat) returns (r: Option<seq<string>>)
      modifies this
      ensures (hasSkippedFirstTime, r) == HelloStep(old(hasSkippedFirstTime), quotes, pick)
    {
      if !hasSkippedFirstTime {
        hasSkippedFirstTime := true;
        return None;
      }
      if |quotes| == 0 {
        return None;
      }
      var q := quotes[pick % |quotes|];
      r := Some([QuoteLine(q)]);
    }

    /** `trigger` never answers. */
    method Trigger(message: string) returns (r: Option<seq<string>>)
      ensures r.None?
    {
      r := None;
    }
  }
}
