/** The stand-alone feed of src/feed.rs. Unlike the feed of src/feeds.rs it
    remembers a fetched entry only when `update` reports a change, and a
    change needs a remembered entry: a new feed therefore never remembers
    anything and never reports. */
module Feed {
  import opened Common
  import Feeds

  /** `update` from remembered entry `latest` and fetched entry `fetched`:
      the report, and the entry remembered afterwards. */
  function UpdateStep(latest: Option<Feeds.Entry>, fetched: Option<Feeds.Entry>): (r: (bool, Option<Feeds.Entry>))
    ensures r.0 <==> latest.Some? && fetched.Some? && latest.value.id != fetched.value.id
    ensures r.1 == if r.0 then fetched else latest
  {
    var changed := Feeds.Changed(latest, fetched);
    (changed, if changed then fetched else latest)
  }

  /** The remembered entry after a history of fetches. */
  function LatestAfter(latest: Option<Feeds.Entry>, fetches: seq<Option<Feeds.Entry>>): Option<Feeds.Entry>
    decreases |fetches|
  {
    if |fetches| == 0 then latest
    else UpdateStep(LatestAfter(latest, fetches[..|fetches| - 1]), fetches[|fetches| - 1]).1
  }

  /** From no remembered entry, no history of fetches makes `update` report
      a change or remember an entry. */
  lemma {:induction false} NeverLeavesNone(fetches: seq<Option<Feeds.Entry>>)
    ensures LatestAfter(None, fetches) == None
    ensures forall k :: 0 <= k < |fetches| ==> !UpdateStep(LatestAfter(None, fetches[..k]), fetches[k]).0
    decreases |fetches|
  {
    if |fetches| > 0 {
      var init := fetches[..|fetches| - 1];
      NeverLeavesNone(init);
      forall k | 0 <= k < |fetches|
        ensures !UpdateStep(LatestAfter(None, fetches[..k]), fetches[k]).0
      {
        if k < |init| {
          assert fetches[..k] == init[..k];
          assert fetches[k] == init[k];
        } else {
          assert fetches[..k] == init;
        }
      }
    }
  }

  /** Two entries with different ids fetched one after the other by a new
      feed: as written nothing is remembered and the second is not reported,
      whereas the feed of src/feeds.rs remembers the first and reports the
      second. */
  lemma TwoEntriesCounterexample(a: Feeds.Entry, b: Feeds.Entry)
    requires a.id != b.id
    ensures UpdateStep(None, Some(a)).1 == None
    ensures !UpdateStep(UpdateStep(None, Some(a)).1, Some(b)).0
    ensures Feeds.FeedOutcome("feed", Some(a), Some(b)).Some?
  {
  }

  class Feed {
    const name: string
    const url: string
    var latest: Option<Feeds.Entry>

    constructor (name: string, url: string)
      ensures this.name == name && this.url == url && latest.None?
    {
      this.name := name;
      this.url := url;
      latest := None;
    }

    /** `update` given the newest entry fetched (`None` when nothing could
        be fetched). */
    method Update(fetched: Option<Feeds.Entry>) returns (changed: bool)
      modifies this
      ensures (changed, latest) == UpdateStep(old(latest), fetched)
    {
      changed := match (latest, fetched)
        case (Some(a), Some(b)) => a.id != b.id
        case _ => false;
      if changed {
        latest := fetched;
      }
    }

    /** `announce`, the same texts as the feed of src/feeds.rs. */
    function Announce(): (r: Option<string>)
      reads this
      ensures r.None? <==> latest.None?
      ensures r == Feeds.Announcement(name, latest)
    {
      Feeds.Announcement(name, latest)
    }
  }
}
