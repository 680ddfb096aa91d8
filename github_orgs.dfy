/** Releases of every repository of some GitHub organisations
    (src/github_orgs.rs): each organisation keeps a map from full name to a
    watched repository (the repository of src/github_repos.rs), refreshed
    from the organisation's listing daily and before the first run. */
module GithubOrgs {
  import opened Common
  import opened Config
  import opened Bot
  import opened Paging
  import opened GithubRepos

  const NAME: string := "github_orgs"

  /** `DEFAULT_ITEM_PER_PAGE` of src/github_orgs.rs: organisation listings come 100 per page. */
  const LISTING_ITEM_PER_PAGE: nat := 100

  /** Variation 0 runs the repositories hourly, variation 1 refreshes the
      listings daily. */
  const VARIATION_DURATIONS: seq<nat> := [3600, 60 * 60 * 24]

  /** The default capabilities: never routed a message. */
  const CAPABILITIES: Capabilities := DefaultCapabilities

  /** An entry of an organisation listing (`GithubRepoLight`). */
  datatype OrgRepo = OrgRepo(fullName: string)

  /** The batch of one repository run, empty for `None`. */
  function RepoBatch(s: RepoState, name: string, detailsOf: string -> Option<RepoDetails>,
                     releasesOf: string -> Option<seq<Release>>, tooOld: Release -> bool): seq<string>
  {
    var r := RepoRun(s, detailsOf(name), releasesOf(name), name, tooOld);
    if r.1.Some? then r.1.value else []
  }

  /** The batches of the repositories along the iteration order `order`,
      each starting from its state in `start`. */
  function BatchesAlong(order: seq<string>, start: map<string, RepoState>, detailsOf: string -> Option<RepoDetails>,
                        releasesOf: string -> Option<seq<Release>>, tooOld: Release -> bool): seq<string>
    requires forall i :: 0 <= i < |order| ==> order[i] in start
    decreases |order|
  {
    if |order| == 0 then []
    else
      var n := order[|order| - 1];
      BatchesAlong(order[..|order| - 1], start, detailsOf, releasesOf, tooOld) + RepoBatch(start[n], n, detailsOf, releasesOf, tooOld)
  }

  /** The batch of one organisation run along `order`: from the states
      `start` it had, or from fresh repositories over `listed` when it had
      none (`refreshed`). */
  ghost predicate OrgBatch(refreshed: bool, start: map<string, RepoState>, listed: set<string>, order: seq<string>,
                           batch: seq<string>, detailsOf: string -> Option<RepoDetails>,
                           releasesOf: string -> Option<seq<Release>>, tooOld: Release -> bool)
  {
    if refreshed then
      (forall j :: 0 <= j < |order| ==> order[j] in listed)
      && batch == BatchesAlong(order, map n | n in listed :: Unknown, detailsOf, releasesOf, tooOld)
    else
      (forall j :: 0 <= j < |order| ==> order[j] in start)
      && batch == BatchesAlong(order, start, detailsOf, releasesOf, tooOld)
  }

  /** The full names of a listing. */
  ghost function ListedNames(listing: seq<OrgRepo>): set<string>
    decreases |listing|
  {
    if |listing| == 0 then {}
    else ListedNames(listing[..|listing| - 1]) + {listing[|listing| - 1].fullName}
  }

  /** The keys of `m` in the map's iteration order. */
  method KeyOrder<V>(m: map<string, V>) returns (names: seq<string>)
    ensures IsEnumeration(names, m.Keys)
  {
    var todo := m.Keys;
    names := [];
    while todo != {}
      invariant NoDuplicates(names)
      invariant forall i :: 0 <= i < |names| ==> names[i] in m && names[i] !in todo
      invariant forall k :: k in m ==> k in todo || k in names
      invariant todo <= m.Keys
      decreases todo
    {
      var n :| n in todo;
      names := names + [n];
      todo := todo - {n};
    }
  }

  class GithubOrg {
    const name: string
    const githubToken: string
    var repos: map<string, GithubRepo>

    /** Distinct repositories, each under its own full name. */
    ghost predicate Valid()
      reads this
    {
      && (forall a, b :: a in repos && b in repos && a != b ==> repos[a] != repos[b])
      && (forall n :: n in repos ==> repos[n].fullName == n)
    }

    ghost function StateMap(): map<string, RepoState>
      reads this, repos.Values
    {
      map n | n in repos :: repos[n].State()
    }

    constructor (name: string, githubToken: string)
      ensures this.name == name && this.githubToken == githubToken && repos == map[] && Valid()
    {
      this.name := name;
      this.githubToken := githubToken;
      repos := map[];
    }

    /** `GithubOrg::new`: needs `GITHUB_TOKEN`. */
    static method New(env: Env, name: string) returns (r: Result<GithubOrg, VarError>)
      ensures TOKEN_VAR !in env ==> r == Err(NotPresent)
      ensures TOKEN_VAR in env ==>
        && r.Ok? && fresh(r.value) && r.value.Valid() && r.value.repos == map[]
        && r.value.name == name && r.value.githubToken == env[TOKEN_VAR]
    {
      if TOKEN_VAR !in env {
        return Err(NotPresent);
      }
      var org := new GithubOrg(name, env[TOKEN_VAR]);
      r := Ok(org);
    }

    /** `get_all_org_repos`: an error when the agent cannot be built;
        otherwise the listing up to the first short page, a failed page
        ending it. */
    static method GetAllOrgRepos(agentOk: bool, pages: nat -> Option<seq<OrgRepo>>, ghost last: nat)
      returns (r: Option<seq<OrgRepo>>)
      requires 1 <= last && Stops(pages(last), LISTING_ITEM_PER_PAGE)
      ensures r == if agentOk then Some(Partial(pages, LISTING_ITEM_PER_PAGE, 1, last)) else None
    {
      if !agentOk {
        return None;
      }
      var listing := FetchPartial(pages, LISTING_ITEM_PER_PAGE, last);
      r := Some(listing);
    }

    /** `update_repo_listing` given the listing (`None` on error): every
        listed full name gets a fresh repository, replacing any it had; no
        name is removed. Without `GITHUB_TOKEN` no repository can be built
        and nothing changes. */
    method UpdateRepoListing(listing: Option<seq<OrgRepo>>, env: Env)
      requires Valid()
      modifies this
      ensures Valid()
      ensures listing.None? || TOKEN_VAR !in env ==> repos == old(repos)
      ensures listing.Some? && TOKEN_VAR in env ==>
        && repos.Keys == old(repos).Keys + ListedNames(listing.value)
        && (forall n :: n in ListedNames(listing.value) ==> fresh(repos[n]) && repos[n].State() == Unknown)
        && (forall n :: n in old(repos) && n !in ListedNames(listing.value) ==> repos[n] == old(repos)[n])
    {
      if listing.None? {
        return;
      }
      var rs := listing.value;
      for i := 0 to |rs|
        invariant Valid()
        invariant TOKEN_VAR !in env ==> repos == old(repos)
        invariant TOKEN_VAR in env ==>
          && repos.Keys == old(repos).Keys + ListedNames(rs[..i])
          && (forall n :: n in ListedNames(rs[..i]) ==> fresh(repos[n]) && repos[n].State() == Unknown)
          && (forall n :: n in old(repos) && n !in ListedNames(rs[..i]) ==> repos[n] == old(repos)[n])
      {
        assert rs[..i + 1][..i] == rs[..i];
        var fullName := rs[i].fullName;
        var repo := GithubRepo.New(env, fullName);
        if repo.Err? {
          continue;
        }
        repos := repos[fullName := repo.value];
      }
      assert rs[..|rs|] == rs;
    }

    /** `run` on the repository under `n`; the others are untouched. */
    method RunAt(n: string, detailsOf: string -> Option<RepoDetails>, releasesOf: string -> Option<seq<Release>>,
                 tooOld: Release -> bool) returns (batch: seq<string>)
      requires Valid() && n in repos
      modifies repos[n]
      ensures Valid()
      ensures repos[n].State() == RepoRun(old(repos[n].State()), detailsOf(n), releasesOf(n), n, tooOld).0
      ensures batch == RepoBatch(old(repos[n].State()), n, detailsOf, releasesOf, tooOld)
      ensures forall m :: m in repos && m != n ==> repos[m].State() == old(repos[m].State())
    {
      var r := repos[n].Run(detailsOf(n), releasesOf(n), tooOld);
      batch := if r.Some? then r.value else [];
    }

    /** The loop of `run`: each repository once, in the map's iteration
        order (`order`), their batches appended. */
    method RunRepos(detailsOf: string -> Option<RepoDetails>, releasesOf: string -> Option<seq<Release>>,
                    tooOld: Release -> bool) returns (all: seq<string>, ghost order: seq<string>)
      requires Valid()
      modifies repos.Values
      ensures Valid()
      ensures IsEnumeration(order, repos.Keys)
      ensures forall n :: n in repos ==> repos[n].State() == RepoRun(old(repos[n].State()), detailsOf(n), releasesOf(n), n, tooOld).0
      ensures all == BatchesAlong(order, old(StateMap()), detailsOf, releasesOf, tooOld)
    {
      ghost var before := StateMap();
      var names := KeyOrder(repos);
      all := RunAlong(names, before, detailsOf, releasesOf, tooOld);
      order := names;
      forall n | n in repos
        ensures repos[n].State() == RepoRun(before[n], detailsOf(n), releasesOf(n), n, tooOld).0
      {
        var j :| 0 <= j < |names| && names[j] == n;
      }
    }

    /** Each repository of `names` once, in that order, from the states `before`. */
    method RunAlong(names: seq<string>, ghost before: map<string, RepoState>, detailsOf: string -> Option<RepoDetails>,
                    releasesOf: string -> Option<seq<Release>>, tooOld: Release -> bool) returns (all: seq<string>)
      requires Valid() && NoDuplicates(names)
      requires forall j :: 0 <= j < |names| ==> names[j] in repos && names[j] in before && repos[names[j]].State() == before[names[j]]
      modifies repos.Values
      ensures forall j :: 0 <= j < |names| ==>
        repos[names[j]].State() == RepoRun(before[names[j]], detailsOf(names[j]), releasesOf(names[j]), names[j], tooOld).0
      ensures all == BatchesAlong(names, before, detailsOf, releasesOf, tooOld)
    {
      all := [];
      for i := 0 to |names|
        invariant forall j :: 0 <= j < |names| ==>
          repos[names[j]].State() == if j < i then RepoRun(before[names[j]], detailsOf(names[j]), releasesOf(names[j]), names[j], tooOld).0
                                     else before[names[j]]
        invariant all == BatchesAlong(names[..i], before, detailsOf, releasesOf, tooOld)
      {
        var batch := RunAt(names[i], detailsOf, releasesOf, tooOld);
        assert names[..i + 1][..i] == names[..i];
        all := all + batch;
      }
      assert names[..|names|] == names;
    }

    /** `GithubOrg::run`: refresh the listing first when no repository is
        known, then run every repository; `None` for an empty batch. */
    method Run(listing: Option<seq<OrgRepo>>, env: Env, detailsOf: string -> Option<RepoDetails>,
               releasesOf: string -> Option<seq<Release>>, tooOld: Release -> bool)
      returns (r: Option<seq<string>>, ghost order: seq<string>)
      requires Valid()
      modifies this, repos.Values
      ensures Valid()
      ensures IsEnumeration(order, repos.Keys)
      ensures old(repos) != map[] ==>
        && repos == old(repos)
        && (forall n :: n in repos ==> repos[n].State() == RepoRun(old(repos[n].State()), detailsOf(n), releasesOf(n), n, tooOld).0)
        && r == NonEmpty(BatchesAlong(order, old(StateMap()), detailsOf, releasesOf, tooOld))
      ensures old(repos) == map[] ==>
        && repos.Keys == (if listing.Some? && TOKEN_VAR in env then ListedNames(listing.value) else {})
        && (forall n :: n in repos ==> repos[n].State() == RepoRun(Unknown, detailsOf(n), releasesOf(n), n, tooOld).0)
        && r == NonEmpty(BatchesAlong(order, map n | n in repos :: Unknown, detailsOf, releasesOf, tooOld))
    {
      if |repos| == 0 {
        r, order := RefreshAndRun(listing, env, detailsOf, releasesOf, tooOld);
      } else {
        var all;
        all, order := RunRepos(detailsOf, releasesOf, tooOld);
        r := NonEmpty(all);
      }
    }

    /** The first run of an organisation with no repository: the listing,
        then a run of every fresh repository. */
    method RefreshAndRun(listing: Option<seq<OrgRepo>>, env: Env, detailsOf: string -> Option<RepoDetails>,
                         releasesOf: string -> Option<seq<Release>>, tooOld: Release -> bool)
      returns (r: Option<seq<string>>, ghost order: seq<string>)
      requires Valid() && repos == map[]
      modifies this
      ensures Valid()
      ensures IsEnumeration(order, repos.Keys)
      ensures repos.Keys == (if listing.Some? && TOKEN_VAR in env then ListedNames(listing.value) else {})
      ensures forall n :: n in repos ==> repos[n].State() == RepoRun(Unknown, detailsOf(n), releasesOf(n), n, tooOld).0
      ensures r == NonEmpty(BatchesAlong(order, map n | n in repos :: Unknown, detailsOf, releasesOf, tooOld))
    {
      UpdateRepoListing(listing, env);
      assert StateMap() == map n | n in repos :: Unknown;
      var all;
      all, order := RunRepos(detailsOf, releasesOf, tooOld);
      r := NonEmpty(all);
    }
  }

  class GithubOrgs {
    var orgs: seq<GithubOrg>

    ghost predicate Valid()
      reads this, orgs
    {
      && (forall i, j :: 0 <= i < j < |orgs| ==> orgs[i] != orgs[j])
      && (forall i :: 0 <= i < |orgs| ==> orgs[i].Valid())
    }

    constructor ()
      ensures orgs == [] && Valid()
    {
      orgs := [];
    }

    /** `GithubOrgs::new`: one organisation per configured
        `GITHUB_ORG_<i>_NAME`, from index 0 up to the first gap, at most
        100 (`names`); it fails when there is one and no `GITHUB_TOKEN`. */
    static method New(env: Env) returns (r: Result<GithubOrgs, VarError>, ghost names: seq<string>)
      ensures |names| <= MAX_INDEXED
      ensures forall k :: 0 <= k < |names| ==>
        IndexedKey("GITHUB_ORG_", k, "_NAME") in env && names[k] == env[IndexedKey("GITHUB_ORG_", k, "_NAME")]
      ensures |names| < MAX_INDEXED ==> IndexedKey("GITHUB_ORG_", |names|, "_NAME") !in env
      ensures r.Err? <==> |names| > 0 && TOKEN_VAR !in env
      ensures r.Err? ==> r.error == NotPresent
      ensures r.Ok? ==> fresh(r.value) && r.value.Valid() && |r.value.orgs| == |names|
      ensures r.Ok? ==> forall k :: 0 <= k < |names| ==>
        fresh(r.value.orgs[k]) && r.value.orgs[k].name == names[k] && r.value.orgs[k].repos == map[]
    {
      var values := ReadIndexedValues(env, "GITHUB_ORG_", "_NAME");
      names := values;
      var gos := new GithubOrgs();
      for i := 0 to |values|
        invariant fresh(gos) && gos.Valid()
        invariant TOKEN_VAR in env || i == 0
        invariant |gos.orgs| == i
        invariant forall k :: 0 <= k < i ==>
          fresh(gos.orgs[k]) && gos.orgs[k].name == values[k] && gos.orgs[k].repos == map[]
      {
        var org := GithubOrg.New(env, values[i]);
        if org.Err? {
          return Err(org.error), names;
        }
        gos.orgs := gos.orgs + [org.value];
      }
      r := Ok(gos);
    }

    /** Every watched repository of every organisation. */
    ghost function RepoFootprint(): set<object>
      reads this, orgs
    {
      set i, n | 0 <= i < |orgs| && n in orgs[i].repos :: orgs[i].repos[n] as object
    }

    /** `GithubOrg::run` on the organisation at index `i`, its batch empty
        for `None`; the other organisations keep their repositories. */
    method RunOrgAt(i: nat, listingOf: string -> Option<seq<OrgRepo>>, env: Env, detailsOf: string -> Option<RepoDetails>,
                    releasesOf: string -> Option<seq<Release>>, tooOld: Release -> bool)
      returns (batch: seq<string>, ghost order: seq<string>)
      requires Valid() && i < |orgs|
      modifies orgs[i], orgs[i].repos.Values
      ensures Valid()
      ensures forall k :: 0 <= k < |orgs| && k != i ==> orgs[k].repos == old(orgs[k].repos)
      ensures IsEnumeration(order, orgs[i].repos.Keys)
      ensures old(orgs[i].repos) != map[] ==> orgs[i].repos == old(orgs[i].repos)
      ensures OrgBatch(old(orgs[i].repos) == map[], old(orgs[i].StateMap()), orgs[i].repos.Keys, order, batch,
                       detailsOf, releasesOf, tooOld)
    {
      var org := orgs[i];
      var m;
      m, order := org.Run(listingOf(org.name), env, detailsOf, releasesOf, tooOld);
      batch := if m.Some? then m.value else [];
    }

    /** `run_all_repos`: every organisation runs once, in order, with its
        own listing; their batches (`batches`, one per organisation, empty
        for `None`) are concatenated, `None` standing for an empty result. */
    method RunAllRepos(listingOf: string -> Option<seq<OrgRepo>>, env: Env, detailsOf: string -> Option<RepoDetails>,
                       releasesOf: string -> Option<seq<Release>>, tooOld: Release -> bool)
      returns (r: Option<seq<string>>, ghost batches: seq<seq<string>>)
      requires Valid()
      modifies orgs, RepoFootprint()
      ensures Valid()
      ensures |batches| == |orgs|
      ensures r == NonEmpty(Flatten(batches))
    {
      var all: seq<string> := [];
      batches := [];
      for i := 0 to |orgs|
        invariant Valid()
        invariant |batches| == i
        invariant all == Flatten(batches)
        invariant forall k :: i <= k < |orgs| ==> orgs[k].repos == old(orgs[k].repos)
      {
        assert forall n :: n in orgs[i].repos ==> orgs[i].repos[n] in old(RepoFootprint());
        var batch, _ := RunOrgAt(i, listingOf, env, detailsOf, releasesOf, tooOld);
        FlattenAppend(batches, [batch]);
        batches := batches + [batch];
        all := all + batch;
      }
      r := NonEmpty(all);
    }

    /** `update_repo_listing`: every organisation refreshes its listing. */
    method UpdateRepoListing(listingOf: string -> Option<seq<OrgRepo>>, env: Env)
      requires Valid()
      modifies orgs
      ensures Valid()
      ensures forall k :: 0 <= k < |orgs| ==> old(orgs[k].repos).Keys <= orgs[k].repos.Keys
    {
      for i := 0 to |orgs|
        invariant Valid()
        invariant forall k :: 0 <= k < |orgs| ==> old(orgs[k].repos).Keys <= orgs[k].repos.Keys
      {
        orgs[i].UpdateRepoListing(listingOf(orgs[i].name), env);
      }
    }

    /** `run`: variation 0 runs the repositories, 1 refreshes the listings
        and gives `None`, any other variation gives `None` and changes
        nothing. */
    method Run(variation: nat, listingOf: string -> Option<seq<OrgRepo>>, env: Env,
               detailsOf: string -> Option<RepoDetails>, releasesOf: string -> Option<seq<Release>>,
               tooOld: Release -> bool) returns (r: Option<seq<string>>)
      requires Valid()
      modifies orgs, RepoFootprint()
      ensures Valid()
      ensures variation != 0 ==> r.None?
      ensures variation == 1 ==> forall k :: 0 <= k < |orgs| ==> old(orgs[k].repos).Keys <= orgs[k].repos.Keys
      ensures variation >= 2 ==> forall k :: 0 <= k < |orgs| ==> orgs[k].repos == old(orgs[k].repos)
    {
      if variation == 0 {
        ghost var batches;
        r, batches := RunAllRepos(listingOf, env, detailsOf, releasesOf, tooOld);
      } else if variation == 1 {
        UpdateRepoListing(listingOf, env);
        r := None;
      } else {
        r := None;
      }
    }
  }
}
