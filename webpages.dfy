/** Webpages (src/webpages.rs): each configured page remembers the body it
    last fetched and is announced when a later fetch brings a different
    body. The remembered body follows the version-change rule of
    `VersionWatch`: nothing on the first fetch, nothing on a failure. */
module Webpages {
  import opened Common
  import opened Config
  import opened Bot
  import opened VersionWatch

  const NAME: string := "webpages"

  /** One variation, every minute. */
  const VARIATION_DURATIONS: seq<nat> := [60]

  /** The default capabilities: never routed a message. */
  const CAPABILITIES: Capabilities := DefaultCapabilities

  /** The announcement of a changed page. */
  function ChangedMessage(name: string, url: string): string
  {
    "[" + name + "](" + url + ") has changed"
  }

  class Webpage {
    const name: string
    const url: string
    var content: Option<string>

    constructor (name: string, url: string)
      ensures this.name == name && this.url == url && content.None?
    {
      this.name := name;
      this.url := url;
      content := None;
    }

    /** `changed` given the fetched body (`None` when the agent, the request
        or the body failed): `false` and nothing remembered on a failure;
        otherwise the body is remembered, and the answer is whether there
        was an earlier body and it differs. */
    method Changed(body: Option<string>) returns (changed: bool)
      modifies this
      ensures body.None? ==> !changed && content == old(content)
      ensures body.Some? ==> content == body
      ensures changed <==> old(content).Some? && body.Some? && old(content) != body
      ensures changed <==> VersionReport(old(content), body).Some?
      ensures content == VersionStore(old(content), body)
    {
      if body.None? {
        return false;
      }
      changed := false;
      if content.Some? {
        if |content.value| != |body.value| || content.value != body.value {
          changed := true;
        }
      }
      content := body;
    }
  }

  class Webpages {
    var pages: seq<Webpage>

    ghost predicate Valid()
      reads this
    {
      forall i, j :: 0 <= i < j < |pages| ==> pages[i] != pages[j]
    }

    constructor ()
      ensures pages == [] && Valid()
    {
      pages := [];
    }

    /** `Webpages::new`: never fails; one page per configured
        `WEBPAGES_<i>_NAME` / `_URL` pair, from index 0 up to the first gap,
        at most 100. */
    static method New(env: Env) returns (r: Result<Webpages, VarError>)
      ensures r.Ok? && fresh(r.value) && r.value.Valid()
      ensures var list := r.value.pages;
        && |list| <= MAX_INDEXED
        && (forall k :: 0 <= k < |list| ==> fresh(list[k]) && list[k].content.None?)
        && (forall k :: 0 <= k < |list| ==>
              && IndexedKey("WEBPAGES_", k, "_NAME") in env && IndexedKey("WEBPAGES_", k, "_URL") in env
              && list[k].name == env[IndexedKey("WEBPAGES_", k, "_NAME")]
              && list[k].url == env[IndexedKey("WEBPAGES_", k, "_URL")])
        && (|list| < MAX_INDEXED ==>
              !(IndexedKey("WEBPAGES_", |list|, "_NAME") in env && IndexedKey("WEBPAGES_", |list|, "_URL") in env))
    {
      var ws := new Webpages();
      var pairs := ReadIndexedPairs(env, "WEBPAGES_", "_NAME", "_URL");
      for k := 0 to |pairs|
        invariant fresh(ws) && ws.Valid()
        invariant |ws.pages| == k
        invariant forall j :: 0 <= j < k ==> fresh(ws.pages[j]) && ws.pages[j].content.None?
        invariant forall j :: 0 <= j < k ==> ws.pages[j].name == pairs[j].0 && ws.pages[j].url == pairs[j].1
      {
        var p := new Webpage(pairs[k].0, pairs[k].1);
        ws.pages := ws.pages + [p];
      }
      r := Ok(ws);
    }

    /** `changed` on the page at index `i`, and its announcement. */
    method ChangedAt(i: nat, body: Option<string>) returns (m: Option<string>)
      requires Valid() && i < |pages|
      modifies pages[i]
      ensures pages[i].content == VersionStore(old(pages[i].content), body)
      ensures forall k :: 0 <= k < |pages| && k != i ==> pages[k].content == old(pages[k].content)
      ensures m == if VersionReport(old(pages[i].content), body).Some? then Some(ChangedMessage(pages[i].name, pages[i].url)) else None
    {
      var changed := pages[i].Changed(body);
      m := if changed then Some(ChangedMessage(pages[i].name, pages[i].url)) else None;
    }

    /** `run`: every page is fetched once, in order, `fetch(k)` being page
        `k`'s body; one announcement per changed page (`outcomes`, one per
        page), `None` when no page changed. */
    method Run(variation: nat, fetch: nat -> Option<string>) returns (r: Option<seq<string>>, ghost outcomes: seq<Option<string>>)
      requires Valid()
      modifies pages
      ensures Valid()
      ensures |outcomes| == |pages|
      ensures forall k :: 0 <= k < |pages| ==>
        && pages[k].content == VersionStore(old(pages[k].content), fetch(k))
        && outcomes[k] == if VersionReport(old(pages[k].content), fetch(k)).Some? then Some(ChangedMessage(pages[k].name, pages[k].url)) else None
      ensures r == NonEmpty(Somes(outcomes))
    {
      var messages: seq<string> := [];
      outcomes := [];
      for i := 0 to |pages|
        invariant |outcomes| == i
        invariant forall k :: 0 <= k < |pages| ==>
          pages[k].content == if k < i then VersionStore(old(pages[k].content), fetch(k)) else old(pages[k].content)
        invariant forall k :: 0 <= k < i ==>
          outcomes[k] == if VersionReport(old(pages[k].content), fetch(k)).Some? then Some(ChangedMessage(pages[k].name, pages[k].url)) else None
        invariant messages == Somes(outcomes)
      {
        var m := ChangedAt(i, fetch(i));
        SomesSnoc(outcomes, m);
        outcomes := outcomes + [m];
        if m.Some? {
          messages := messages + [m.value];
        }
      }
      r := NonEmpty(messages);
    }
  }
}
