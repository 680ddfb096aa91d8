/** Releases of individually watched GitHub repositories
    (src/github_repos.rs): each repository learns once whether it is
    maintained, seeds a map of its releases keyed by tag on the first
    successful listing, and afterwards announces the releases whose tag is
    new and that are recent enough. */
module GithubRepos {
  import opened Common
  import opened Config
  import opened Bot
  import opened Paging

  const NAME: string := "github_repos"

  /** Releases are listed 60 per page. */
  const DEFAULT_ITEM_PER_PAGE: nat := 60

  /** One variation, every hour. */
  const VARIATION_DURATIONS: seq<nat> := [3600]

  /** The default capabilities: never routed a message. */
  const CAPABILITIES: Capabilities := DefaultCapabilities

  const TOKEN_VAR: string := "GITHUB_TOKEN"

  /** The two flags of a repository's details (`GithubRepoLight`). */
  datatype RepoDetails = RepoDetails(archived: bool, fork: bool)

  datatype Release = Release(htmlUrl: string, tagName: string, name: string, prerelease: bool,
                             draft: bool, body: string, publishedAt: Option<string>)

  /** `Release::id`: releases are told apart by their tag. */
  function ReleaseId(r: Release): string
  {
    r.tagName
  }

  /** The four characters that open the notification: the UTF-8 bytes of a
      waving-hand emoji read as Windows-1252, as they stand in the source. */
  const WAVE: string := "\U{F0}\U{178}\U{2018}\U{2039}"

  /** `notification_message`: "<wave> Release de [<project> <name>](<url>)". */
  function NotificationMessage(project: string, r: Release): string
  {
    WAVE + " Release de [" + project + " " + r.name + "](" + r.htmlUrl + ")"
  }

  /** `is_maintained` of optional details. */
  function Maintained(details: Option<RepoDetails>): (r: Option<bool>)
    ensures r.None? <==> details.None?
    ensures r == Some(true) <==> details.Some? && !details.value.fork && !details.value.archived
  {
    match details
    case None => None
    case Some(d) => Some(!d.fork && !d.archived)
  }

  /** The release map after inserting `rs` in order: a later release with
      the same tag replaces an earlier one. */
  function InsertAll(past: map<string, Release>, rs: seq<Release>): map<string, Release>
    decreases |rs|
  {
    if |rs| == 0 then past
    else InsertAll(past, rs[..|rs| - 1])[ReleaseId(rs[|rs| - 1]) := rs[|rs| - 1]]
  }

  /** The tags of a listing. */
  ghost function Tags(rs: seq<Release>): set<string>
  {
    set r | r in rs :: ReleaseId(r)
  }

  /** Inserting only adds: the keys afterwards are the old keys and the
      fetched tags. */
  lemma {:induction false} InsertAllKeys(past: map<string, Release>, rs: seq<Release>)
    ensures InsertAll(past, rs).Keys == past.Keys + Tags(rs)
    decreases |rs|
  {
    if |rs| > 0 {
      var init := rs[..|rs| - 1];
      InsertAllKeys(past, init);
      assert rs == init + [rs[|rs| - 1]];
      assert Tags(rs) == Tags(init) + {ReleaseId(rs[|rs| - 1])};
    }
  }

  /** Release `i` of the listing is the first with its tag and the tag was
      not known before: `insert` returns `None` for it. */
  predicate Unseen(past: map<string, Release>, rs: seq<Release>, i: nat)
    requires i < |rs|
  {
    ReleaseId(rs[i]) !in past && forall j :: 0 <= j < i ==> ReleaseId(rs[j]) != ReleaseId(rs[i])
  }

  /** The notifications of a later listing: one per unseen release that is
      not too old, in listing order. */
  function NewReleaseMessages(past: map<string, Release>, rs: seq<Release>, project: string,
                              tooOld: Release -> bool): (msgs: seq<string>)
    ensures |msgs| <= |rs|
    decreases |rs|
  {
    if |rs| == 0 then []
    else
      var n := |rs| - 1;
      NewReleaseMessages(past, rs[..n], project, tooOld) +
        (if Unseen(past, rs, n) && !tooOld(rs[n]) then [NotificationMessage(project, rs[n])] else [])
  }

  /** A release is unseen exactly when its tag is absent from the map built
      so far. */
  lemma UnseenIffAbsent(past: map<string, Release>, rs: seq<Release>, i: nat)
    requires i < |rs|
    ensures Unseen(past, rs, i) <==> ReleaseId(rs[i]) !in InsertAll(past, rs[..i])
  {
    InsertAllKeys(past, rs[..i]);
    if ReleaseId(rs[i]) in Tags(rs[..i]) {
      var r :| r in rs[..i] && ReleaseId(r) == ReleaseId(rs[i]);
      var j :| 0 <= j < i && rs[..i][j] == r;
    } else {
      forall j | 0 <= j < i ensures ReleaseId(rs[j]) != ReleaseId(rs[i]) {
        assert rs[..i][j] == rs[j];
      }
    }
  }

  /** Once every fetched tag is known, the same listing announces nothing. */
  lemma {:induction false} KnownTagsAreSilent(past: map<string, Release>, rs: seq<Release>, project: string,
                                              tooOld: Release -> bool)
    requires Tags(rs) <= past.Keys
    ensures NewReleaseMessages(past, rs, project, tooOld) == []
    decreases |rs|
  {
    if |rs| > 0 {
      var n := |rs| - 1;
      assert rs[n] in rs;
      assert Tags(rs[..n]) <= Tags(rs) by {
        forall r | r in rs[..n] ensures r in rs {
          var j :| 0 <= j < n && rs[..n][j] == r;
          assert rs[j] == r;
        }
      }
      KnownTagsAreSilent(past, rs[..n], project, tooOld);
    }
  }

  /** A repeated listing right after seeding announces nothing. */
  lemma SeededRepeatIsSilent(rs: seq<Release>, project: string, tooOld: Release -> bool)
    ensures NewReleaseMessages(InsertAll(map[], rs), rs, project, tooOld) == []
  {
    InsertAllKeys(map[], rs);
    KnownTagsAreSilent(InsertAll(map[], rs), rs, project, tooOld);
  }

  /** What a repository remembers between runs. */
  datatype RepoState = RepoState(details: Option<RepoDetails>, releases: Option<map<string, Release>>)

  const Unknown: RepoState := RepoState(None, None)

  /** One `run` from state `s`: details are fetched while unknown
      (`detailsFetch`, `None` on failure); nothing else happens unless the
      repository is known to be maintained; a failed release listing
      (`fetched`) changes nothing; the first successful one seeds the map
      silently; later ones announce the new releases, `None` standing for
      an empty batch. */
  function RepoRun(s: RepoState, detailsFetch: Option<RepoDetails>, fetched: Option<seq<Release>>,
                   project: string, tooOld: Release -> bool): (r: (RepoState, Option<seq<string>>))
    ensures r.0.details == if s.details.None? then detailsFetch else s.details
    ensures Maintained(r.0.details) != Some(true) || fetched.None? ==> r.0.releases == s.releases && r.1.None?
    ensures r.1.Some? ==> |r.1.value| > 0
    ensures Maintained(r.0.details) == Some(true) && fetched.Some? ==>
      && r.0.releases == Some(InsertAll(if s.releases.None? then map[] else s.releases.value, fetched.value))
      && (s.releases.None? ==> r.1.None?)
  {
    var details := if s.details.None? then detailsFetch else s.details;
    if Maintained(details) != Some(true) || fetched.None? then (s.(details := details), None)
    else if s.releases.None? then (RepoState(details, Some(InsertAll(map[], fetched.value))), None)
    else
      var msgs := NewReleaseMessages(s.releases.value, fetched.value, project, tooOld);
      (RepoState(details, Some(InsertAll(s.releases.value, fetched.value))), if msgs == [] then None else Some(msgs))
  }

  /** On a later successful listing of a maintained repository, the batch
      holds exactly the notifications of the new, recent releases. */
  lemma RepoRunAnnounces(s: RepoState, detailsFetch: Option<RepoDetails>, fetched: Option<seq<Release>>,
                         project: string, tooOld: Release -> bool)
    requires Maintained(if s.details.None? then detailsFetch else s.details) == Some(true)
    requires fetched.Some? && s.releases.Some?
    ensures var r := RepoRun(s, detailsFetch, fetched, project, tooOld);
      var msgs := NewReleaseMessages(s.releases.value, fetched.value, project, tooOld);
      && r.0.releases.Some? && r.0.releases.value.Keys == s.releases.value.Keys + Tags(fetched.value)
      && (r.1.Some? <==> msgs != []) && (r.1.Some? ==> r.1.value == msgs)
  {
    InsertAllKeys(s.releases.value, fetched.value);
  }

  class GithubRepo {
    const fullName: string
    const githubToken: string
    var details: Option<RepoDetails>
    var releases: Option<map<string, Release>>

    function State(): RepoState
      reads this
    {
      RepoState(details, releases)
    }

    constructor (fullName: string, githubToken: string)
      ensures this.fullName == fullName && this.githubToken == githubToken && State() == Unknown
    {
      this.fullName := fullName;
      this.githubToken := githubToken;
      details := None;
      releases := None;
    }

    /** `GithubRepo::new`: needs `GITHUB_TOKEN`. */
    static method New(env: Env, fullName: string) returns (r: Result<GithubRepo, VarError>)
      ensures TOKEN_VAR !in env ==> r == Err(NotPresent)
      ensures TOKEN_VAR in env ==>
        && r.Ok? && fresh(r.value) && r.value.State() == Unknown
        && r.value.fullName == fullName && r.value.githubToken == env[TOKEN_VAR]
    {
      if TOKEN_VAR !in env {
        return Err(NotPresent);
      }
      var repo := new GithubRepo(fullName, env[TOKEN_VAR]);
      r := Ok(repo);
    }

    /** `is_maintained`. */
    function IsMaintained(): Option<bool>
      reads this
    {
      Maintained(details)
    }

    /** `get_releases`: every page of the listing, or `None` when the agent
        cannot be built or any page fails. */
    static method GetReleases(agentOk: bool, pages: nat -> Option<seq<Release>>, ghost last: nat)
      returns (r: Option<seq<Release>>)
      requires 1 <= last && Stops(pages(last), DEFAULT_ITEM_PER_PAGE)
      ensures r == if agentOk then Strict(pages, DEFAULT_ITEM_PER_PAGE, 1, last) else None
    {
      if !agentOk {
        return None;
      }
      r := FetchStrict(pages, DEFAULT_ITEM_PER_PAGE, last);
    }

    /** The loop of `run` over a later listing: insert every release and
        collect a notification for each one `insert` had not seen that is
        not too old. */
    static method Diff(past: map<string, Release>, current: seq<Release>, project: string, tooOld: Release -> bool)
      returns (merged: map<string, Release>, messages: seq<string>)
      ensures merged == InsertAll(past, current)
      ensures messages == NewReleaseMessages(past, current, project, tooOld)
    {
      merged, messages := past, [];
      for i := 0 to |current|
        invariant merged == InsertAll(past, current[..i])
        invariant messages == NewReleaseMessages(past, current[..i], project, tooOld)
      {
        var release := current[i];
        UnseenIffAbsent(past, current, i);
        var absent := ReleaseId(release) !in merged;
        merged := merged[ReleaseId(release) := release];
        assert current[..i + 1][..i] == current[..i];
        assert Unseen(past, current[..i + 1], i) <==> Unseen(past, current, i);
        if absent && !tooOld(release) {
          messages := messages + [NotificationMessage(project, release)];
        }
      }
      assert current[..|current|] == current;
    }

    /** `run`, with the details fetch and the release listing given. */
    method Run(detailsFetch: Option<RepoDetails>, fetched: Option<seq<Release>>, tooOld: Release -> bool)
      returns (r: Option<seq<string>>)
      modifies this
      ensures (State(), r) == RepoRun(old(State()), detailsFetch, fetched, fullName, tooOld)
    {
      if details.None? {
        details := detailsFetch;
      }
      var maintained := IsMaintained();
      if maintained != Some(true) {
        return None;
      }
      if fetched.None? {
        return None;
      }
      if releases.None? {
        var seeded, _ := Diff(map[], fetched.value, fullName, tooOld);
        releases := Some(seeded);
        return None;
      }
      var merged, messages := Diff(releases.value, fetched.value, fullName, tooOld);
      releases := Some(merged);
      r := if |messages| == 0 then None else Some(messages);
    }
  }

  class GithubRepos {
    var repos: map<string, GithubRepo>

    ghost predicate Valid()
      reads this
    {
      forall a, b :: a in repos && b in repos && a != b ==> repos[a] != repos[b]
    }

    constructor ()
      ensures repos == map[] && Valid()
    {
      repos := map[];
    }

    /** `GithubRepos::new`: one fresh repository per configured
        `GITHUB_REPOS_<i>_FULLNAME`, from index 0 up to the first gap, at
        most 100 (`names`); it fails when there is one and no
        `GITHUB_TOKEN`. */
    static method New(env: Env) returns (r: Result<GithubRepos, VarError>, ghost names: seq<string>)
      ensures |names| <= MAX_INDEXED
      ensures forall k :: 0 <= k < |names| ==>
        IndexedKey("GITHUB_REPOS_", k, "_FULLNAME") in env && names[k] == env[IndexedKey("GITHUB_REPOS_", k, "_FULLNAME")]
      ensures |names| < MAX_INDEXED ==> IndexedKey("GITHUB_REPOS_", |names|, "_FULLNAME") !in env
      ensures r.Err? <==> |names| > 0 && TOKEN_VAR !in env
      ensures r.Err? ==> r.error == NotPresent
      ensures r.Ok? ==> fresh(r.value) && r.value.Valid()
      ensures r.Ok? ==> r.value.repos.Keys == set k | 0 <= k < |names| :: names[k]
      ensures r.Ok? ==> forall n :: n in r.value.repos ==>
        fresh(r.value.repos[n]) && r.value.repos[n].fullName == n && r.value.repos[n].State() == Unknown
    {
      var values := ReadIndexedValues(env, "GITHUB_REPOS_", "_FULLNAME");
      names := values;
      var grs := new GithubRepos();
      for i := 0 to |values|
        invariant fresh(grs) && grs.Valid()
        invariant TOKEN_VAR in env || i == 0
        invariant grs.repos.Keys == set k | 0 <= k < i :: names[k]
        invariant forall n :: n in grs.repos ==>
          fresh(grs.repos[n]) && grs.repos[n].fullName == n && grs.repos[n].State() == Unknown
      {
        var repo := GithubRepo.New(env, values[i]);
        if repo.Err? {
          return Err(repo.error), names;
        }
        grs.repos := grs.repos[values[i] := repo.value];
        assert (set k | 0 <= k < i + 1 :: names[k]) == (set k | 0 <= k < i :: names[k]) + {names[i]};
      }
      r := Ok(grs);
    }

    /** `run` on the repository under `name`; the others are untouched. */
    method RunAt(name: string, detailsFetch: Option<RepoDetails>, fetched: Option<seq<Release>>, tooOld: Release -> bool)
      requires Valid() && name in repos
      modifies repos[name]
      ensures Valid()
      ensures repos[name].State() == RepoRun(old(repos[name].State()), detailsFetch, fetched, repos[name].fullName, tooOld).0
      ensures forall n :: n in repos && n != name ==> repos[n].State() == old(repos[n].State())
    {
      var _ := repos[name].Run(detailsFetch, fetched, tooOld);
    }

    /** `GithubRepos::run`: every repository runs once, in the map's
        iteration order, with its own fetches; their batches are dropped
        and the result is always `None`. */
    method Run(variation: nat, detailsOf: string -> Option<RepoDetails>, releasesOf: string -> Option<seq<Release>>,
               tooOld: Release -> bool) returns (r: Option<seq<string>>)
      requires Valid()
      modifies repos.Values
      ensures Valid() && r.None?
      ensures forall n :: n in repos ==>
        repos[n].State() == RepoRun(old(repos[n].State()), detailsOf(n), releasesOf(n), repos[n].fullName, tooOld).0
    {
      var todo := repos.Keys;
      ghost var done: set<string> := {};
      while todo != {}
        invariant Valid()
        invariant todo + done == repos.Keys && todo !! done
        invariant forall n :: n in repos ==>
          repos[n].State() == if n in done then RepoRun(old(repos[n].State()), detailsOf(n), releasesOf(n), repos[n].fullName, tooOld).0
                              else old(repos[n].State())
        decreases todo
      {
        var name :| name in todo;
        RunAt(name, detailsOf(name), releasesOf(name), tooOld);
        todo := todo - {name};
        done := done + {name};
      }
      r := None;
    }
  }
}
