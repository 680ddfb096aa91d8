/** Feeds (src/feeds.rs): each configured feed remembers its newest entry
    and is announced when the newest entry's id changes. */
module Feeds {
  import opened Common
  import opened Config
  import opened Bot
  import opened VersionWatch

  const NAME: string := "feeds"

  /** One variation, hourly. */
  const VARIATION_DURATIONS: seq<nat> := [3600]

  /** The default capabilities: never routed a message. */
  const CAPABILITIES: Capabilities := DefaultCapabilities

  /** A feed entry as far as the bot looks at it: its id, its title and the
      targets of its links, in order. */
  datatype Entry = Entry(id: string, title: Option<string>, links: seq<string>)

  /** `announce` for a feed called `name` whose newest known entry is
      `latest`: nothing without an entry, otherwise one of four texts
      depending on whether the entry has a title and a link. */
  function Announcement(name: string, latest: Option<Entry>): (r: Option<string>)
    ensures r.None? <==> latest.None?
  {
    match latest
    case None => None
    case Some(entry) =>
      match (entry.title, if |entry.links| > 0 then Some(entry.links[0]) else None)
      case (None, None) => Some("New post on " + name)
      case (None, Some(url)) => Some("New post on [" + name + "]" + "(" + url + ")")
      case (Some(title), None) => Some("New post on " + name + ": " + title)
      case (Some(title), Some(url)) => Some(name + ": [" + title + "]" + "(" + url + ")")
  }

  /** `x` occurs in `pre + x + post`. */
  lemma Inside(pre: string, x: string, post: string)
    ensures Contains(pre + x + post, x)
  {
    assert Contains(x, x) by {
      assert x <= x;
    }
    ContainsAppendLeft(pre, x, x);
    ContainsAppendRight(pre + x, post, x);
  }

  lemma LinkTextMentions(name: string, url: string)
    ensures Contains("New post on [" + name + "]" + "(" + url + ")", name)
    ensures Contains("New post on [" + name + "]" + "(" + url + ")", "(" + url + ")")
  {
    var a := "New post on [" + name + "]" + "(" + url + ")";
    Inside("New post on [", name, "]" + "(" + url + ")");
    assert a == "New post on [" + name + ("]" + "(" + url + ")");
    Inside("New post on [" + name + "]", "(" + url + ")", "");
    assert a == "New post on [" + name + "]" + ("(" + url + ")") + "";
  }

  lemma TitleTextMentions(name: string, title: string)
    ensures Contains("New post on " + name + ": " + title, name)
    ensures Contains("New post on " + name + ": " + title, title)
  {
    var a := "New post on " + name + ": " + title;
    Inside("New post on ", name, ": " + title);
    assert a == "New post on " + name + (": " + title);
    Inside("New post on " + name + ": ", title, "");
    assert a == "New post on " + name + ": " + title + "";
  }

  lemma FullTextMentions(name: string, title: string, url: string)
    ensures Contains(name + ": [" + title + "]" + "(" + url + ")", name)
    ensures Contains(name + ": [" + title + "]" + "(" + url + ")", title)
    ensures Contains(name + ": [" + title + "]" + "(" + url + ")", "(" + url + ")")
  {
    var a := name + ": [" + title + "]" + "(" + url + ")";
    Inside("", name, ": [" + title + "]" + "(" + url + ")");
    assert a == "" + name + (": [" + title + "]" + "(" + url + ")");
    Inside(name + ": [", title, "]" + "(" + url + ")");
    assert a == name + ": [" + title + ("]" + "(" + url + ")");
    Inside(name + ": [" + title + "]", "(" + url + ")", "");
    assert a == name + ": [" + title + "]" + ("(" + url + ")") + "";
  }

  /** Every announcement names the feed, shows the entry's title when it has
      one and links the entry's first link when it has one. */
  lemma AnnouncementMentions(name: string, entry: Entry)
    ensures Contains(Announcement(name, Some(entry)).value, name)
    ensures entry.title.Some? ==> Contains(Announcement(name, Some(entry)).value, entry.title.value)
    ensures |entry.links| > 0 ==> Contains(Announcement(name, Some(entry)).value, "(" + entry.links[0] + ")")
  {
    match (entry.title, if |entry.links| > 0 then Some(entry.links[0]) else None)
    case (None, None) =>
      Inside("New post on ", name, "");
      assert "New post on " + name == "New post on " + name + "";
    case (None, Some(url)) =>
      LinkTextMentions(name, url);
    case (Some(title), None) =>
      TitleTextMentions(name, title);
    case (Some(title), Some(url)) =>
      FullTextMentions(name, title, url);
  }

  /** The id of an optional entry. */
  function IdOf(e: Option<Entry>): Option<string>
  {
    if e.Some? then Some(e.value.id) else None
  }

  /** What `update` reports: both the remembered and the fetched entry are
      present and their ids differ. */
  predicate Changed(latest: Option<Entry>, fetched: Option<Entry>)
  {
    match (latest, fetched)
    case (Some(a), Some(b)) => a.id != b.id
    case _ => false
  }

  /** On ids, `update` is the version-change detector: nothing on the first
      entry or on a failed fetch, a report exactly when the id moves, and the
      remembered id is the last one fetched. So along any history of fetches
      the reports are exactly the changes between successive fetched ids. */
  lemma UpdateIsIdWatch(latest: Option<Entry>, fetched: Option<Entry>)
    ensures Changed(latest, fetched) <==> VersionReport(IdOf(latest), IdOf(fetched)).Some?
    ensures IdOf(if fetched.Some? then fetched else latest) == VersionStore(IdOf(latest), IdOf(fetched))
  {
  }

  class Feed {
    const name: string
    const url: string
    var latest: Option<Entry>

    constructor (name: string, url: string)
      ensures this.name == name && this.url == url && latest.None?
    {
      this.name := name;
      this.url := url;
      latest := None;
    }

    /** `update` given the newest entry fetched (`None` when the download,
        the parse or the feed itself came up empty): reports a change of id,
        and remembers any fetched entry. */
    method Update(fetched: Option<Entry>) returns (changed: bool)
      modifies this
      ensures changed <==> old(latest).Some? && fetched.Some? && old(latest).value.id != fetched.value.id
      ensures changed == Changed(old(latest), fetched)
      ensures latest == if fetched.Some? then fetched else old(latest)
    {
      changed := match (latest, fetched)
        case (Some(a), Some(b)) => a.id != b.id
        case _ => false;
      if fetched.Some? {
        latest := fetched;
      }
    }

    function Announce(): (r: Option<string>)
      reads this
      ensures r == Announcement(name, latest)
    {
      Announcement(name, latest)
    }
  }

  /** The announcement of one feed in a run: present exactly when `update`
      reports a change, and then about the fetched entry. */
  function FeedOutcome(name: string, latest: Option<Entry>, fetched: Option<Entry>): (r: Option<string>)
    ensures r.Some? <==> Changed(latest, fetched)
    ensures r.Some? ==> r == Announcement(name, fetched)
  {
    if Changed(latest, fetched) then Announcement(name, fetched) else None
  }

  class Feeds {
    var feeds: seq<Feed>

    ghost predicate Valid()
      reads this
    {
      forall i, j :: 0 <= i < j < |feeds| ==> feeds[i] != feeds[j]
    }

    constructor ()
      ensures feeds == [] && Valid()
    {
      feeds := [];
    }

    /** `Feeds::new`: never fails; one feed per configured `FEED_<i>_NAME` /
        `_URL` pair, from index 0 up to the first gap, at most 100. */
    static method New(env: Env) returns (r: Result<Feeds, VarError>)
      ensures r.Ok? && fresh(r.value) && r.value.Valid()
      ensures var list := r.value.feeds;
        && |list| <= MAX_INDEXED
        && (forall k :: 0 <= k < |list| ==> fresh(list[k]) && list[k].latest.None?)
        && (forall k :: 0 <= k < |list| ==>
              && IndexedKey("FEED_", k, "_NAME") in env && IndexedKey("FEED_", k, "_URL") in env
              && list[k].name == env[IndexedKey("FEED_", k, "_NAME")]
              && list[k].url == env[IndexedKey("FEED_", k, "_URL")])
        && (|list| < MAX_INDEXED ==>
              !(IndexedKey("FEED_", |list|, "_NAME") in env && IndexedKey("FEED_", |list|, "_URL") in env))
    {
      var fs := new Feeds();
      var pairs := ReadIndexedPairs(env, "FEED_", "_NAME", "_URL");
      for k := 0 to |pairs|
        invariant fresh(fs) && fs.Valid()
        invariant |fs.feeds| == k
        invariant forall j :: 0 <= j < k ==> fresh(fs.feeds[j]) && fs.feeds[j].latest.None?
        invariant forall j :: 0 <= j < k ==> fs.feeds[j].name == pairs[j].0 && fs.feeds[j].url == pairs[j].1
      {
        var f := new Feed(pairs[k].0, pairs[k].1);
        fs.feeds := fs.feeds + [f];
      }
      r := Ok(fs);
    }

    /** `update` then, on a change, `announce` on the feed at index `i`. */
    method UpdateAt(i: nat, fetched: Option<Entry>) returns (m: Option<string>)
      requires Valid() && i < |feeds|
      modifies feeds[i]
      ensures feeds[i].latest == if fetched.Some? then fetched else old(feeds[i].latest)
      ensures forall k :: 0 <= k < |feeds| && k != i ==> feeds[k].latest == old(feeds[k].latest)
      ensures m == FeedOutcome(feeds[i].name, old(feeds[i].latest), fetched)
    {
      var changed := feeds[i].Update(fetched);
      m := None;
      if changed {
        m := feeds[i].Announce();
      }
    }

    /** `run`: every feed is updated, in order, `fetch(k)` being feed `k`'s
        newest entry; the announcements of the changed feeds
        (`outcomes`, one per feed) form the batch, `None` when there is
        none. */
    method Run(variation: nat, fetch: nat -> Option<Entry>) returns (r: Option<seq<string>>, ghost outcomes: seq<Option<string>>)
      requires Valid()
      modifies feeds
      ensures Valid()
      ensures |outcomes| == |feeds|
      ensures forall k :: 0 <= k < |feeds| ==>
        && feeds[k].latest == (if fetch(k).Some? then fetch(k) else old(feeds[k].latest))
        && outcomes[k] == FeedOutcome(feeds[k].name, old(feeds[k].latest), fetch(k))
      ensures r == NonEmpty(Somes(outcomes))
    {
      var messages: seq<string> := [];
      outcomes := [];
      for i := 0 to |feeds|
        invariant |outcomes| == i
        invariant forall k :: 0 <= k < |feeds| ==>
          feeds[k].latest == if k < i then (if fetch(k).Some? then fetch(k) else old(feeds[k].latest)) else old(feeds[k].latest)
        invariant forall k :: 0 <= k < i ==> outcomes[k] == FeedOutcome(feeds[k].name, old(feeds[k].latest), fetch(k))
        invariant messages == Somes(outcomes)
      {
        var m := UpdateAt(i, fetch(i));
        SomesSnoc(outcomes, m);
        outcomes := outcomes + [m];
        if m.Some? {
          messages := messages + [m.value];
        }
      }
      r := NonEmpty(messages);
    }
  }
}
