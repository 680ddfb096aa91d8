/** The page-by-page listings of the GitHub API used in src/github.rs,
    src/github_repos.rs and src/github_orgs.rs: pages 1, 2, … are fetched
    until one holds fewer than `perPage` items. `pages(p)` is the outcome of
    fetching page `p` (`None` when the request, its body or its decoding
    failed). The source loops for as long as pages come back full; the model
    takes a page `last` at which the listing is known to stop. */
module Paging {
  import opened Common

  /** Fetching stops after this page: it failed or it was not full. */
  predicate Stops<T>(page: Option<seq<T>>, perPage: nat)
  {
    page.None? || |page.value| < perPage
  }

  /** The listing from page `p` on when any failed page discards the whole
      listing (`get_releases`). */
  function Strict<T>(pages: nat -> Option<seq<T>>, perPage: nat, p: nat, last: nat): Option<seq<T>>
    requires p <= last && Stops(pages(last), perPage)
    decreases last - p
  {
    match pages(p)
    case None => None
    case Some(items) =>
      if |items| < perPage || p == last then Some(items)
      else
        match Strict(pages, perPage, p + 1, last)
        case None => None
        case Some(rest) => Some(items + rest)
  }

  /** The listing from page `p` on when a failed page ends the listing with
      what was gathered before it (`get_all_repos`, `get_all_org_repos`). */
  function Partial<T>(pages: nat -> Option<seq<T>>, perPage: nat, p: nat, last: nat): seq<T>
    requires p <= last && Stops(pages(last), perPage)
    decreases last - p
  {
    match pages(p)
    case None => []
    case Some(items) =>
      if |items| < perPage || p == last then items
      else items + Partial(pages, perPage, p + 1, last)
  }

  /** Both listings end at the first page that stops: any later bound gives
      the same listing. */
  lemma {:induction false} StopsAtFirstStop<T>(pages: nat -> Option<seq<T>>, perPage: nat, p: nat, s: nat, last: nat)
    requires p <= s <= last && Stops(pages(s), perPage) && Stops(pages(last), perPage)
    ensures Strict(pages, perPage, p, last) == Strict(pages, perPage, p, s)
    ensures Partial(pages, perPage, p, last) == Partial(pages, perPage, p, s)
    decreases s - p
  {
    if p < s && pages(p).Some? && |pages(p).value| >= perPage {
      StopsAtFirstStop(pages, perPage, p + 1, s, last);
    }
  }

  /** Pages after the stopping page `s` are never consulted: two fetchers
      that agree up to `s` give the same listings. */
  lemma {:induction false} OnlyPagesUpToStop<T>(pages: nat -> Option<seq<T>>, pages': nat -> Option<seq<T>>,
                                                perPage: nat, p: nat, s: nat)
    requires p <= s && Stops(pages(s), perPage)
    requires forall q :: p <= q <= s ==> pages(q) == pages'(q)
    ensures Strict(pages, perPage, p, s) == Strict(pages', perPage, p, s)
    ensures Partial(pages, perPage, p, s) == Partial(pages', perPage, p, s)
    decreases s - p
  {
    if p < s {
      OnlyPagesUpToStop(pages, pages', perPage, p + 1, s);
    }
  }

  /** When no page fails the two listings agree; otherwise the strict one is
      absent. */
  lemma {:induction false} StrictIsPartialOrNothing<T>(pages: nat -> Option<seq<T>>, perPage: nat, p: nat, last: nat)
    requires p <= last && Stops(pages(last), perPage)
    ensures Strict(pages, perPage, p, last).None? || Strict(pages, perPage, p, last) == Some(Partial(pages, perPage, p, last))
    decreases last - p
  {
    if p < last && pages(p).Some? && |pages(p).value| >= perPage {
      StrictIsPartialOrNothing(pages, perPage, p + 1, last);
    }
  }

  /** The fetch loop of `get_releases`: a failed page returns `None`. */
  method FetchStrict<T>(pages: nat -> Option<seq<T>>, perPage: nat, ghost last: nat) returns (r: Option<seq<T>>)
    requires 1 <= last && Stops(pages(last), perPage)
    ensures r == Strict(pages, perPage, 1, last)
  {
    var page := 1;
    var acc: seq<T> := [];
    while true
      invariant 1 <= page <= last
      invariant Strict(pages, perPage, 1, last).None? <==> Strict(pages, perPage, page, last).None?
      invariant Strict(pages, perPage, page, last).Some? ==>
        Strict(pages, perPage, 1, last).value == acc + Strict(pages, perPage, page, last).value
      decreases last - page
    {
      var fetched := pages(page);
      if fetched.None? {
        return None;
      }
      acc := acc + fetched.value;
      if |fetched.value| < perPage {
        return Some(acc);
      }
      assert page != last;
      page := page + 1;
    }
  }

  /** The fetch loop of `get_all_repos`: a failed page ends the listing. */
  method FetchPartial<T>(pages: nat -> Option<seq<T>>, perPage: nat, ghost last: nat) returns (r: seq<T>)
    requires 1 <= last && Stops(pages(last), perPage)
    ensures r == Partial(pages, perPage, 1, last)
  {
    var page := 1;
    r := [];
    while true
      invariant 1 <= page <= last
      invariant Partial(pages, perPage, 1, last) == r + Partial(pages, perPage, page, last)
      decreases last - page
    {
      var fetched := pages(page);
      if fetched.None? {
        return;
      }
      r := r + fetched.value;
      if |fetched.value| < perPage {
        return;
      }
      assert page != last;
      page := page + 1;
    }
  }
}
