/** The Webex agent (src/webex.rs): the queries it posts, and the unread
    message watermark that makes each mention be handed out once. */
module Webex {
  import opened Common

  /** The JSON body of a posted message. `parentId` is empty unless the
      message answers another; exactly one of `text` and `markdown` is set. */
  datatype WebexQuery = WebexQuery(roomId: string, parentId: string, text: Option<string>, markdown: Option<string>)

  /** A message as listed by Webex; `created` is an RFC 3339 timestamp,
      compared as a string. */
  datatype WebexMessage = WebexMessage(id: string, text: string, created: string)

  /** Why a request failed (transport, status or decoding). */
  type FetchError = string

  /** `created` values do not decrease along `ms`. */
  ghost predicate SortedByCreated(ms: seq<WebexMessage>)
  {
    forall i, j :: 0 <= i < j < |ms| ==> LexLessEq(ms[i].created, ms[j].created)
  }

  lemma LexLessEqTransitive(a: string, b: string, c: string)
    requires LexLessEq(a, b) && LexLessEq(b, c)
    ensures LexLessEq(a, c)
  {
    if a != b && b != c {
      LexLessTransitive(a, b, c);
    }
  }

  /** Insert `m` after every element not later than it (a stable insertion). */
  function Insert(sorted: seq<WebexMessage>, m: WebexMessage): (r: seq<WebexMessage>)
    ensures multiset(r) == multiset(sorted) + multiset{m}
    decreases |sorted|
  {
    if |sorted| == 0 then [m]
    else
      var last := sorted[|sorted| - 1];
      assert sorted == sorted[..|sorted| - 1] + [last];
      if LexLess(m.created, last.created) then Insert(sorted[..|sorted| - 1], m) + [last]
      else sorted + [m]
  }

  /** An upper bound on every `created` of `sorted` and on `m` bounds the insertion too. */
  lemma {:induction false} InsertBounded(sorted: seq<WebexMessage>, m: WebexMessage, b: string)
    requires forall i :: 0 <= i < |sorted| ==> LexLessEq(sorted[i].created, b)
    requires LexLessEq(m.created, b)
    ensures forall i :: 0 <= i < |Insert(sorted, m)| ==> LexLessEq(Insert(sorted, m)[i].created, b)
    decreases |sorted|
  {
    if |sorted| > 0 {
      var init := sorted[..|sorted| - 1];
      if LexLess(m.created, sorted[|sorted| - 1].created) {
        InsertBounded(init, m, b);
      }
    }
  }

  lemma {:induction false} InsertSorted(sorted: seq<WebexMessage>, m: WebexMessage)
    requires SortedByCreated(sorted)
    ensures SortedByCreated(Insert(sorted, m))
    decreases |sorted|
  {
    if |sorted| > 0 {
      var last := sorted[|sorted| - 1];
      var init := sorted[..|sorted| - 1];
      assert sorted == init + [last];
      if LexLess(m.created, last.created) {
        InsertSorted(init, m);
        assert forall i :: 0 <= i < |init| ==> init[i] == sorted[i];
        InsertBounded(init, m, last.created);
        var r := Insert(init, m);
        var r' := r + [last];
        forall i, j | 0 <= i < j < |r'| ensures LexLessEq(r'[i].created, r'[j].created) {
          if j < |r| {
            assert r'[i] == r[i] && r'[j] == r[j];
          }
        }
      } else {
        LexLessTotal(m.created, last.created);
        var r := sorted + [m];
        forall i, j | 0 <= i < j < |r| ensures LexLessEq(r[i].created, r[j].created) {
          if j == |sorted| && i < |sorted| - 1 {
            LexLessEqTransitive(r[i].created, last.created, m.created);
          }
        }
      }
    }
  }

  /** `sort_by` on `created`: a stable sort. */
  function SortByCreated(ms: seq<WebexMessage>): (r: seq<WebexMessage>)
    ensures multiset(r) == multiset(ms)
    decreases |ms|
  {
    if |ms| == 0 then []
    else
      assert ms == ms[..|ms| - 1] + [ms[|ms| - 1]];
      Insert(SortByCreated(ms[..|ms| - 1]), ms[|ms| - 1])
  }

  lemma {:induction false} SortByCreatedSorted(ms: seq<WebexMessage>)
    ensures SortedByCreated(SortByCreated(ms))
    decreases |ms|
  {
    if |ms| > 0 {
      SortByCreatedSorted(ms[..|ms| - 1]);
      InsertSorted(SortByCreated(ms[..|ms| - 1]), ms[|ms| - 1]);
    }
  }

  /** Keeping a subsequence keeps the order. */
  lemma {:induction false} FilterSorted(ms: seq<WebexMessage>, p: WebexMessage -> bool)
    requires SortedByCreated(ms)
    ensures SortedByCreated(Filter(ms, p))
    decreases |ms|
  {
    if |ms| > 0 {
      var init := ms[..|ms| - 1];
      var last := ms[|ms| - 1];
      FilterSorted(init, p);
      FilterContents(init, p);
      var f := Filter(init, p);
      if p(last) {
        forall i | 0 <= i < |f| ensures LexLessEq(f[i].created, last.created) {
          var k :| 0 <= k < |init| && init[k] == f[i];
          assert ms[k] == f[i];
        }
        var r := f + [last];
        forall i, j | 0 <= i < j < |r| ensures LexLessEq(r[i].created, r[j].created) {
          if j < |f| {
            assert r[i] == f[i] && r[j] == f[j];
          }
        }
      }
    }
  }

  /** The messages `retain` keeps: those created strictly after the watermark. */
  function NewerThan(last: string): WebexMessage -> bool
  {
    (m: WebexMessage) => LexLess(last, m.created)
  }

  /** The fetched messages, sorted, without those not newer than the watermark. */
  function Survivors(watermark: Option<string>, items: seq<WebexMessage>): seq<WebexMessage>
  {
    var sorted := SortByCreated(items);
    match watermark
    case None => sorted
    case Some(last) => Filter(sorted, NewerThan(last))
  }

  /** What `unread_messages` returns for a successful fetch: nothing on the
      first call, the survivors afterwards. */
  function Unread(watermark: Option<string>, items: seq<WebexMessage>): seq<WebexMessage>
  {
    if watermark.None? then [] else Survivors(watermark, items)
  }

  /** The watermark afterwards: the last survivor's date, else "0" on the
      first call, else unchanged. */
  function NextWatermark(watermark: Option<string>, items: seq<WebexMessage>): Option<string>
  {
    WatermarkAfter(watermark, Survivors(watermark, items))
  }

  /** The watermark after keeping the messages `kept`. */
  function WatermarkAfter(watermark: Option<string>, kept: seq<WebexMessage>): Option<string>
  {
    if |kept| > 0 then Some(kept[|kept| - 1].created)
    else if watermark.None? then Some("0")
    else watermark
  }

  /** The returned messages are in `created` order, and they are exactly the
      fetched messages created after the watermark. */
  lemma UnreadSortedAndExact(watermark: Option<string>, items: seq<WebexMessage>)
    ensures SortedByCreated(Unread(watermark, items))
    ensures watermark.None? ==> Unread(watermark, items) == []
    ensures watermark.Some? ==> forall i :: 0 <= i < |Unread(watermark, items)| ==>
      Unread(watermark, items)[i] in items && LexLess(watermark.value, Unread(watermark, items)[i].created)
    ensures watermark.Some? ==> forall i :: 0 <= i < |items| && LexLess(watermark.value, items[i].created) ==>
      items[i] in Unread(watermark, items)
  {
    SortByCreatedSorted(items);
    var sorted := SortByCreated(items);
    if watermark.Some? {
      FilterSorted(sorted, NewerThan(watermark.value));
      FilterContents(sorted, NewerThan(watermark.value));
      forall x | x in sorted ensures x in items {
        assert x in multiset(sorted);
      }
      forall i | 0 <= i < |items| ensures items[i] in sorted {
        assert items[i] in multiset(items);
      }
    }
  }

  /** The survivors are in `created` order. */
  lemma SurvivorsSorted(watermark: Option<string>, items: seq<WebexMessage>)
    ensures SortedByCreated(Survivors(watermark, items))
  {
    SortByCreatedSorted(items);
    if watermark.Some? {
      FilterSorted(SortByCreated(items), NewerThan(watermark.value));
    }
  }

  /** Every survivor is newer than the watermark. */
  lemma SurvivorsNewer(last: string, items: seq<WebexMessage>)
    ensures forall i :: 0 <= i < |Survivors(Some(last), items)| ==>
      LexLess(last, Survivors(Some(last), items)[i].created)
  {
    var s := Survivors(Some(last), items);
    FilterContents(SortByCreated(items), NewerThan(last));
    forall i | 0 <= i < |s| ensures LexLess(last, s[i].created) {
      assert NewerThan(last)(s[i]);
    }
  }

  /** Keeping a sorted run of messages newer than the watermark leaves a
      watermark no earlier than before and no earlier than any kept message. */
  lemma WatermarkAfterKept(watermark: Option<string>, kept: seq<WebexMessage>)
    requires SortedByCreated(kept)
    requires watermark.Some? ==> forall i :: 0 <= i < |kept| ==> LexLess(watermark.value, kept[i].created)
    ensures WatermarkAfter(watermark, kept).Some?
    ensures watermark.Some? ==> LexLessEq(watermark.value, WatermarkAfter(watermark, kept).value)
    ensures |kept| == 0 && watermark.Some? ==> WatermarkAfter(watermark, kept) == watermark
    ensures forall i :: 0 <= i < |kept| ==> LexLessEq(kept[i].created, WatermarkAfter(watermark, kept).value)
  {
    if |kept| > 0 {
      forall i | 0 <= i < |kept| ensures LexLessEq(kept[i].created, kept[|kept| - 1].created) {
        if i < |kept| - 1 {
          assert LexLessEq(kept[i].created, kept[|kept| - 1].created);
        }
      }
    }
  }

  /** After a successful call there is a watermark; it never moves back, and
      it is the latest date among the survivors when there are any. */
  lemma WatermarkAdvances(watermark: Option<string>, items: seq<WebexMessage>)
    ensures NextWatermark(watermark, items).Some?
    ensures watermark.Some? ==> LexLessEq(watermark.value, NextWatermark(watermark, items).value)
    ensures |Survivors(watermark, items)| == 0 && watermark.Some? ==> NextWatermark(watermark, items) == watermark
    ensures forall i :: 0 <= i < |Survivors(watermark, items)| ==>
      LexLessEq(Survivors(watermark, items)[i].created, NextWatermark(watermark, items).value)
  {
    SurvivorsSorted(watermark, items);
    if watermark.Some? {
      SurvivorsNewer(watermark.value, items);
    }
    WatermarkAfterKept(watermark, Survivors(watermark, items));
  }

  class WebexAgent {
    const authHeader: string
    const roomId: string
    var lastUnreadMessageDate: Option<string>

    /** `WebexAgent::new`: a bearer header, no watermark. */
    constructor (token: string, roomId: string)
      ensures this.authHeader == "Bearer " + token && this.roomId == roomId
      ensures lastUnreadMessageDate.None?
    {
      this.authHeader := "Bearer " + token;
      this.roomId := roomId;
      lastUnreadMessageDate := None;
    }

    /** `say_generic`: the query posted to the room; the post itself is I/O. */
    method SayGeneric(message: string, markdown: bool) returns (q: WebexQuery)
      ensures q.roomId == roomId && q.parentId == ""
      ensures markdown ==> q.markdown == Some(message) && q.text.None?
      ensures !markdown ==> q.text == Some(message) && q.markdown.None?
    {
      q := WebexQuery(roomId, "", None, None);
      if markdown {
        q := q.(markdown := Some(message));
      } else {
        q := q.(text := Some(message));
      }
    }

    method Say(message: string) returns (q: WebexQuery)
      ensures q == WebexQuery(roomId, "", Some(message), None)
    {
      q := SayGeneric(message, false);
    }

    method SayMarkdown(message: string) returns (q: WebexQuery)
      ensures q == WebexQuery(roomId, "", None, Some(message))
    {
      q := SayGeneric(message, true);
    }

    /** `respond`: a plain-text answer threaded under `parent`. */
    method Respond(parent: string, message: string) returns (q: WebexQuery)
      ensures q == WebexQuery(roomId, parent, Some(message), None)
    {
      q := WebexQuery(roomId, parent, Some(message), None);
    }

    /** `retain(|m| m.created > *last)`. */
    static method Retain(items: seq<WebexMessage>, last: string) returns (kept: seq<WebexMessage>)
      ensures kept == Filter(items, NewerThan(last))
    {
      kept := [];
      for i := 0 to |items|
        invariant kept == Filter(items[..i], NewerThan(last))
      {
        assert items[..i + 1] == items[..i] + [items[i]];
        FilterAppend(items[..i], [items[i]], NewerThan(last));
        if LexLess(last, items[i].created) {
          kept := kept + [items[i]];
        }
      }
      assert items[..|items|] == items;
    }

    /** `unread_messages`: sort by date, drop what is not newer than the
        watermark, advance the watermark to the newest survivor, and drop
        everything on the first call. A failed fetch changes nothing. */
    method UnreadMessages(fetched: Result<seq<WebexMessage>, FetchError>)
      returns (r: Result<seq<WebexMessage>, FetchError>)
      modifies this
      ensures fetched.Err? ==> r == Err(fetched.error) && lastUnreadMessageDate == old(lastUnreadMessageDate)
      ensures fetched.Ok? ==> r == Ok(Unread(old(lastUnreadMessageDate), fetched.value))
      ensures fetched.Ok? ==> lastUnreadMessageDate == NextWatermark(old(lastUnreadMessageDate), fetched.value)
    {
      if fetched.Err? {
        return Err(fetched.error);
      }
      var items := SortByCreated(fetched.value);
      if lastUnreadMessageDate.Some? {
        items := Retain(items, lastUnreadMessageDate.value);
      }
      assert items == Survivors(old(lastUnreadMessageDate), fetched.value);
      if |items| > 0 {
        var date := Some(items[|items| - 1].created);
        if lastUnreadMessageDate.None? {
          items := [];
        }
        lastUnreadMessageDate := date;
      } else if lastUnreadMessageDate.None? {
        lastUnreadMessageDate := Some("0");
      }
      r := Ok(items);
    }
  }
}
