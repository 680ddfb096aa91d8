/** Release watching over whole GitHub organisations (src/github.rs): a
    cache from repository full name to the hashes of its official releases,
    filled on the first successful listing and then used to announce every
    official release whose hash is new; plus the repository name filter,
    the version-shape check and the release-body lookup. */
module Github {
  import opened Common
  import opened Paging

  /** Repositories and releases are listed 60 per page. */
  const DEFAULT_ITEM_PER_PAGE: nat := 60

  const GITHUB_ORG_NAMES: seq<string> := ["outscale", "outscale-dev"]
  const GITHUB_SPECIFIC_ORG_NAMES: seq<string> := ["kubernetes"]
  const GITHUB_SPECIFIC_REPO_NAMES: seq<string> := ["kubernetes"]
  const GITHUB_ORG_NAME_TRIGGER: string := "outscale"
  const GITHUB_REPO_NAME_TRIGGER: string := "cluster-api-provider-outscale"

  /** The tracked tag before any release is seen. */
  const DEFAULT_TARGET: string := "v0.0.0"

  datatype Repo = Repo(name: string, fullName: string, archived: bool, fork: bool)

  datatype Release = Release(htmlUrl: string, tagName: string, name: string, prerelease: bool, draft: bool, body: string)

  /** `calculate_hash`'s `u64`; the hash function itself is a parameter. */
  type ReleaseHash = nat

  /** `is_not_official`: drafts and pre-releases. */
  predicate IsNotOfficial(r: Release)
  {
    r.draft || r.prerelease
  }

  /** `is_not_maintained`: forks and archived repositories. */
  predicate IsNotMaintained(repo: Repo)
  {
    repo.fork || repo.archived
  }

  /** `get_notification_message`, with a waving-hand emoji. */
  function NotificationMessage(repo: Repo, r: Release): string
  {
    "\U{1F44B} Release de [" + repo.name + " " + r.tagName + "](" + r.htmlUrl + ")"
  }

  // ---------------------------------------------------------------------
  // Name filter of `get_specific_repos`

  /** One copy of `repo` per requested name equal to its name. */
  function Copies(repo: Repo, names: seq<string>): seq<Repo>
    decreases |names|
  {
    if |names| == 0 then []
    else Copies(repo, names[..|names| - 1]) + (if names[|names| - 1] == repo.name then [repo] else [])
  }

  /** The repositories of a listing that match, each once per matching
      requested name, in listing order. */
  function Matches(listing: seq<Repo>, names: seq<string>): seq<Repo>
    decreases |listing|
  {
    if |listing| == 0 then []
    else Matches(listing[..|listing| - 1], names) + Copies(listing[|listing| - 1], names)
  }

  /** A repository is copied exactly as many times as its name is requested. */
  lemma {:induction false} CopiesCount(repo: Repo, names: seq<string>)
    ensures |Copies(repo, names)| == multiset(names)[repo.name]
    ensures forall i :: 0 <= i < |Copies(repo, names)| ==> Copies(repo, names)[i] == repo
    decreases |names|
  {
    if |names| > 0 {
      var init := names[..|names| - 1];
      CopiesCount(repo, init);
      assert names == init + [names[|names| - 1]];
      assert multiset(names) == multiset(init) + multiset{names[|names| - 1]};
    }
  }

  /** The filter works page by page. */
  lemma {:induction false} MatchesAppend(a: seq<Repo>, b: seq<Repo>, names: seq<string>)
    ensures Matches(a + b, names) == Matches(a, names) + Matches(b, names)
    decreases |b|
  {
    if |b| > 0 {
      var init := b[..|b| - 1];
      assert (a + b)[..|a + b| - 1] == a + init;
      assert (a + b)[|a + b| - 1] == b[|b| - 1];
      MatchesAppend(a, init, names);
    } else {
      assert a + b == a;
    }
  }

  /** Every match is a listed repository with a requested name. */
  lemma {:induction false} MatchesAreRequested(listing: seq<Repo>, names: seq<string>)
    ensures forall r :: r in Matches(listing, names) ==> r in listing && r.name in names
    decreases |listing|
  {
    if |listing| > 0 {
      var init := listing[..|listing| - 1];
      var last := listing[|listing| - 1];
      MatchesAreRequested(init, names);
      CopiesCount(last, names);
      forall r | r in Matches(listing, names) ensures r in listing && r.name in names {
        if r in Matches(init, names) {
          var j :| 0 <= j < |init| && init[j] == r;
          assert listing[j] == r;
        } else {
          assert r in Copies(last, names);
          assert r == last && multiset(names)[last.name] > 0;
        }
      }
    }
  }

  // ---------------------------------------------------------------------
  // The version shape `^v\d{1,2}.\d{1,2}.\d{1,2}$`

  /** One or two digits, then the rest of the version after them. */
  predicate Groups(t: string, k: nat, sep: char -> bool)
    requires k >= 1
    decreases |t|, 1
  {
    || (|t| >= 1 && IsDigit(t[0]) && GroupTail(t[1..], k, sep))
    || (|t| >= 2 && IsDigit(t[0]) && IsDigit(t[1]) && GroupTail(t[2..], k, sep))
  }

  /** After a digit group: the end of the text after the last group, else a
      separator and the next group. */
  predicate GroupTail(t: string, k: nat, sep: char -> bool)
    requires k >= 1
    decreases |t|, 0
  {
    if k == 1 then |t| == 0 else |t| >= 1 && sep(t[0]) && Groups(t[1..], k - 1, sep)
  }

  predicate VersionShape(s: string, sep: char -> bool)
  {
    |s| >= 1 && s[0] == 'v' && Groups(s[1..], 3, sep)
  }

  /** What an unescaped `.` matches: any character but a line feed. */
  predicate NotLineFeed(c: char) { c != '\n' }

  predicate IsDot(c: char) { c == '.' }

  /** The regular expression as written, with an unescaped `.` between the
      numbers. */
  predicate SemverAsWritten(s: string)
  {
    VersionShape(s, NotLineFeed)
  }

  /** The evidently intended check: the separators are dots. */
  predicate Semver(s: string)
  {
    VersionShape(s, IsDot)
  }

  /** "v" and three dot-separated numbers of one or two digits. */
  function VersionOf(a: string, b: string, c: string): string
  {
    "v" + a + "." + b + "." + c
  }

  predicate ShortNumber(a: string)
  {
    1 <= |a| <= 2 && AllDigits(a)
  }

  lemma GroupOfShortNumber(a: string, rest: string, k: nat, sep: char -> bool)
    requires ShortNumber(a) && k >= 1
    requires GroupTail(rest, k, sep)
    ensures Groups(a + rest, k, sep)
  {
    assert (a + rest)[0] == a[0];
    if |a| == 1 {
      assert (a + rest)[1..] == rest;
    } else {
      assert (a + rest)[1] == a[1];
      assert (a + rest)[2..] == rest;
    }
  }

  /** A version regrouped from the right, as the digit groups read it. */
  lemma VersionOfRight(a: string, b: string, c: string)
    ensures VersionOf(a, b, c) == "v" + (a + ("." + (b + ("." + c))))
  {
  }

  /** Every version made of three short numbers passes the check. */
  lemma SemverOfVersion(a: string, b: string, c: string)
    requires ShortNumber(a) && ShortNumber(b) && ShortNumber(c)
    ensures Semver(VersionOf(a, b, c))
  {
    var rc := "." + c;
    var rb := "." + (b + rc);
    GroupOfShortNumber(c, "", 1, IsDot);
    assert c + "" == c;
    assert rc[1..] == c;
    GroupOfShortNumber(b, rc, 2, IsDot);
    assert rb[1..] == b + rc;
    GroupOfShortNumber(a, rb, 3, IsDot);
    VersionOfRight(a, b, c);
    assert ("v" + (a + rb))[1..] == a + rb;
  }

  /** Every text passing the check is such a version. */
  lemma SemverIsVersion(s: string)
    requires Semver(s)
    ensures exists a, b, c :: ShortNumber(a) && ShortNumber(b) && ShortNumber(c) && s == VersionOf(a, b, c)
  {
    var sep := IsDot;
    var t := s[1..];
    var a, r1 := SplitGroup(t, 3, sep);
    var b, r2 := SplitGroup(r1[1..], 2, sep);
    var c, r3 := SplitGroup(r2[1..], 1, sep);
    assert r3 == "";
    assert r2 == "." + c;
    assert r1 == "." + b + "." + c;
    assert s == VersionOf(a, b, c);
  }

  /** The digit group that starts a matching text, and what follows it. */
  lemma SplitGroup(t: string, k: nat, sep: char -> bool) returns (a: string, rest: string)
    requires k >= 1 && Groups(t, k, sep)
    ensures ShortNumber(a) && t == a + rest && GroupTail(rest, k, sep)
  {
    if |t| >= 1 && IsDigit(t[0]) && GroupTail(t[1..], k, sep) {
      a, rest := t[..1], t[1..];
    } else {
      a, rest := t[..2], t[2..];
    }
    assert t == a + rest;
  }

  /** The unescaped dot lets a version without dots through. */
  lemma AsWrittenAcceptsAnySeparator()
    ensures SemverAsWritten("v1x2x3")
    ensures !Semver("v1x2x3")
  {
    var s := "v1x2x3";
    var loose := NotLineFeed;
    assert GroupTail(s[6..], 1, loose);
    assert Groups(s[5..], 1, loose);
    assert GroupTail(s[4..], 2, loose);
    assert Groups(s[3..], 2, loose);
    assert GroupTail(s[2..], 3, loose);
    assert Groups(s[1..], 3, loose);
  }

  /** The default tag passes the check. */
  lemma DefaultTargetIsSemver()
    ensures Semver(DEFAULT_TARGET)
  {
    assert ShortNumber("0");
    SemverOfVersion("0", "0", "0");
    assert VersionOf("0", "0", "0") == DEFAULT_TARGET;
  }

  // ---------------------------------------------------------------------
  // The release cache

  /** Repository full name to the hashes of its official releases, or
      `None` while no listing has succeeded. */
  type Cache = map<string, Option<set<ReleaseHash>>>

  /** The hashes of the official releases of a listing. */
  function OfficialHashes(rels: seq<Release>, hash: Release -> ReleaseHash): set<ReleaseHash>
    decreases |rels|
  {
    if |rels| == 0 then {}
    else
      var last := rels[|rels| - 1];
      OfficialHashes(rels[..|rels| - 1], hash) + (if IsNotOfficial(last) then {} else {hash(last)})
  }

  /** What a round of the cache produced: the cache afterwards, the
      notifications in order, and the tag of the last notified release. */
  datatype Round = Round(cache: Cache, messages: seq<string>, lastTag: Option<string>)

  /** The outcome of `r` followed by `s`. */
  function Then(r: Round, s: Round): Round
  {
    Round(s.cache, r.messages + s.messages, if s.lastTag.Some? then s.lastTag else r.lastTag)
  }

  /** Announcing a listing against the known hashes `prev`: each official
      release whose hash is not yet known is announced and its hash added. */
  function Notify(prev: set<ReleaseHash>, rels: seq<Release>, hash: Release -> ReleaseHash, repo: Repo)
    : (r: (seq<string>, set<ReleaseHash>, Option<string>))
    decreases |rels|
  {
    if |rels| == 0 then ([], prev, None)
    else
      var n := Notify(prev, rels[..|rels| - 1], hash, repo);
      var last := rels[|rels| - 1];
      if IsNotOfficial(last) || hash(last) in n.1 then n
      else (n.0 + [NotificationMessage(repo, last)], n.1 + {hash(last)}, Some(last.tagName))
  }

  /** The known hashes afterwards are the old ones and those of the official
      releases listed, and there is one notification per hash that was new. */
  lemma {:induction false} NotifyAddsNewHashes(prev: set<ReleaseHash>, rels: seq<Release>, hash: Release -> ReleaseHash, repo: Repo)
    ensures Notify(prev, rels, hash, repo).1 == prev + OfficialHashes(rels, hash)
    ensures |Notify(prev, rels, hash, repo).0| == |Notify(prev, rels, hash, repo).1| - |prev|
    decreases |rels|
  {
    if |rels| > 0 {
      NotifyAddsNewHashes(prev, rels[..|rels| - 1], hash, repo);
    }
  }

  /** Hence the number of notifications is the number of official hashes
      that were not known. */
  lemma NotificationCount(prev: set<ReleaseHash>, rels: seq<Release>, hash: Release -> ReleaseHash, repo: Repo)
    ensures |Notify(prev, rels, hash, repo).0| == |OfficialHashes(rels, hash) - prev|
  {
    NotifyAddsNewHashes(prev, rels, hash, repo);
    var o := OfficialHashes(rels, hash);
    assert prev + o == prev + (o - prev);
    assert prev !! (o - prev);
  }

  /** One repository of a round (`releases` the listing, `None` on failure):
      a failure records an unseen repository as `None` and leaves a known
      entry alone; a first success stores the official hashes without
      notifying; later successes notify the new official releases. */
  function CacheStep(cache: Cache, name: string, releases: Option<seq<Release>>, hash: Release -> ReleaseHash,
                     repo: Repo): (r: Round)
    ensures r.cache.Keys == cache.Keys + {name}
    ensures forall k :: k in cache && k != name ==> r.cache[k] == cache[k]
    ensures releases.None? ==> r.messages == [] && r.cache == if name in cache then cache else cache[name := None]
    ensures releases.Some? && (name !in cache || cache[name].None?) ==>
      r.messages == [] && r.cache[name] == Some(OfficialHashes(releases.value, hash))
    ensures name in cache && cache[name].Some? ==> r.cache[name].Some? && cache[name].value <= r.cache[name].value
  {
    match releases
    case None => Round(if name in cache then cache else cache[name := None], [], None)
    case Some(rels) =>
      if name !in cache || cache[name].None? then Round(cache[name := Some(OfficialHashes(rels, hash))], [], None)
      else
        NotifyAddsNewHashes(cache[name].value, rels, hash, repo);
        var n := Notify(cache[name].value, rels, hash, repo);
        Round(cache[name := Some(n.1)], n.0, n.2)
  }

  /** The cache only grows: no entry disappears and no known set loses a hash. */
  ghost predicate Grows(c: Cache, c': Cache)
  {
    && c.Keys <= c'.Keys
    && (forall k :: k in c && c[k].Some? ==> c'[k].Some? && c[k].value <= c'[k].value)
  }

  /** The maintained repositories of one organisation listing, in order;
      `releasesOf` gives each listing by full name. */
  function RepoRound(cache: Cache, repos: seq<Repo>, releasesOf: string -> Option<seq<Release>>,
                     hash: Release -> ReleaseHash): (r: Round)
    ensures Grows(cache, r.cache)
    decreases |repos|
  {
    if |repos| == 0 then Round(cache, [], None)
    else
      var r := RepoRound(cache, repos[..|repos| - 1], releasesOf, hash);
      var repo := repos[|repos| - 1];
      if IsNotMaintained(repo) then r
      else Then(r, CacheStep(r.cache, repo.fullName, releasesOf(repo.fullName), hash, repo))
  }

  /** The organisations in order; `listing(org)` is the repository listing
      of an organisation, `None` when it cannot be had. */
  function OrgsRound(cache: Cache, orgs: seq<string>, listing: string -> Option<seq<Repo>>,
                     releasesOf: string -> Option<seq<Release>>, hash: Release -> ReleaseHash): (r: Round)
    ensures Grows(cache, r.cache)
    decreases |orgs|
  {
    if |orgs| == 0 then Round(cache, [], None)
    else
      var r := OrgsRound(cache, orgs[..|orgs| - 1], listing, releasesOf, hash);
      match listing(orgs[|orgs| - 1])
      case None => r
      case Some(repos) => Then(r, RepoRound(r.cache, repos, releasesOf, hash))
  }

  /** The dispatch of `check_specific_github_release`: once per specific
      repository name, when the tracked tag has the version shape and is not
      the default. */
  function Dispatches(lastTag: Option<string>): (d: seq<string>)
    ensures |d| <= |GITHUB_SPECIFIC_REPO_NAMES|
    ensures lastTag.None? ==> d == []
    ensures d != [] <==> lastTag.Some? && Semver(lastTag.value) && lastTag.value != DEFAULT_TARGET
  {
    DefaultTargetIsSemver();
    var target := if lastTag.Some? then lastTag.value else DEFAULT_TARGET;
    if Semver(target) && target != DEFAULT_TARGET then seq(|GITHUB_SPECIFIC_REPO_NAMES|, _ => target) else []
  }

  /** The body `get_github_release_body` keeps: that of the last release
      named `version` over the maintained repositories whose listing
      succeeded, or "" when there is none. */
  function BodyOf(repos: seq<Repo>, releasesOf: string -> Option<seq<Release>>, version: string): string
    decreases |repos|
  {
    if |repos| == 0 then ""
    else
      var before := BodyOf(repos[..|repos| - 1], releasesOf, version);
      var repo := repos[|repos| - 1];
      if IsNotMaintained(repo) || releasesOf(repo.fullName).None? then before
      else LastBody(releasesOf(repo.fullName).value, version, before)
  }

  /** The index of the last release named `version`, or -1. */
  function LastNamed(rels: seq<Release>, version: string): (i: int)
    ensures -1 <= i < |rels|
    ensures i == -1 ==> forall j :: 0 <= j < |rels| ==> rels[j].name != version
    ensures i >= 0 ==> rels[i].name == version && forall j :: i < j < |rels| ==> rels[j].name != version
    decreases |rels|
  {
    if |rels| == 0 then -1
    else if rels[|rels| - 1].name == version then |rels| - 1
    else LastNamed(rels[..|rels| - 1], version)
  }

  /** The body of the last release named `version`, else `before`. */
  function LastBody(rels: seq<Release>, version: string, before: string): string
  {
    var i := LastNamed(rels, version);
    if i == -1 then before else rels[i].body
  }

  class Github {
    const token: string
    var releases: Cache

    /** `Github::new`: an empty cache. */
    constructor (token: string)
      ensures this.token == token && releases == map[]
    {
      this.token := token;
      releases := map[];
    }

    /** `get_all_repos`: `None` when the agent cannot be built; otherwise
        the listing up to the first short page, a failed page ending it. */
    static method GetAllRepos(agentOk: bool, pages: nat -> Option<seq<Repo>>, ghost last: nat) returns (r: Option<seq<Repo>>)
      requires 1 <= last && Stops(pages(last), DEFAULT_ITEM_PER_PAGE)
      ensures r == if agentOk then Some(Partial(pages, DEFAULT_ITEM_PER_PAGE, 1, last)) else None
    {
      if !agentOk {
        return None;
      }
      var listing := FetchPartial(pages, DEFAULT_ITEM_PER_PAGE, last);
      r := Some(listing);
    }

    /** The per-page filter of `get_specific_repos`. */
    static method MatchPage(json: seq<Repo>, names: seq<string>) returns (targets: seq<Repo>)
      ensures targets == Matches(json, names)
    {
      targets := [];
      for i := 0 to |json|
        invariant targets == Matches(json[..i], names)
      {
        var copies := [];
        for j := 0 to |names|
          invariant copies == Copies(json[i], names[..j])
        {
          assert names[..j + 1][..j] == names[..j];
          if names[j] == json[i].name {
            copies := copies + [json[i]];
          }
        }
        assert names[..|names|] == names;
        assert json[..i + 1][..i] == json[..i];
        targets := targets + copies;
      }
      assert json[..|json|] == json;
    }

    /** `get_specific_repos`: like `get_all_repos`, keeping the repositories
        whose name is requested, once per matching requested name. */
    static method GetSpecificRepos(agentOk: bool, pages: nat -> Option<seq<Repo>>, names: seq<string>, ghost last: nat)
      returns (r: Option<seq<Repo>>)
      requires 1 <= last && Stops(pages(last), DEFAULT_ITEM_PER_PAGE)
      ensures r == if agentOk then Some(Matches(Partial(pages, DEFAULT_ITEM_PER_PAGE, 1, last), names)) else None
    {
      if !agentOk {
        return None;
      }
      var page := 1;
      var results := [];
      while true
        invariant 1 <= page <= last
        invariant Matches(Partial(pages, DEFAULT_ITEM_PER_PAGE, 1, last), names) ==
          results + Matches(Partial(pages, DEFAULT_ITEM_PER_PAGE, page, last), names)
        decreases last - page
      {
        var json := pages(page);
        if json.None? {
          assert Partial(pages, DEFAULT_ITEM_PER_PAGE, page, last) == [];
          assert Matches(Partial(pages, DEFAULT_ITEM_PER_PAGE, page, last), names) == [];
          assert results + [] == results;
          return Some(results);
        }
        var targets := MatchPage(json.value, names);
        results := results + targets;
        if |json.value| < DEFAULT_ITEM_PER_PAGE {
          assert Partial(pages, DEFAULT_ITEM_PER_PAGE, page, last) == json.value;
          return Some(results);
        }
        assert page != last;
        MatchesAppend(json.value, Partial(pages, DEFAULT_ITEM_PER_PAGE, page + 1, last), names);
        page := page + 1;
      }
    }

    /** `get_releases`: `None` when the agent cannot be built or any page fails. */
    static method GetReleases(agentOk: bool, pages: nat -> Option<seq<Release>>, ghost last: nat) returns (r: Option<seq<Release>>)
      requires 1 <= last && Stops(pages(last), DEFAULT_ITEM_PER_PAGE)
      ensures r == if agentOk then Strict(pages, DEFAULT_ITEM_PER_PAGE, 1, last) else None
    {
      if !agentOk {
        return None;
      }
      r := FetchStrict(pages, DEFAULT_ITEM_PER_PAGE, last);
    }

    /** The hash-set loop of a first successful listing. */
    static method HashOfficial(rels: seq<Release>, hash: Release -> ReleaseHash) returns (hashes: set<ReleaseHash>)
      ensures hashes == OfficialHashes(rels, hash)
    {
      hashes := {};
      for i := 0 to |rels|
        invariant hashes == OfficialHashes(rels[..i], hash)
      {
        assert rels[..i + 1][..i] == rels[..i];
        if !IsNotOfficial(rels[i]) {
          hashes := hashes + {hash(rels[i])};
        }
      }
      assert rels[..|rels|] == rels;
    }

    /** The notification loop of a later successful listing. */
    static method NotifyLoop(prev: set<ReleaseHash>, rels: seq<Release>, hash: Release -> ReleaseHash, repo: Repo)
      returns (messages: seq<string>, seen: set<ReleaseHash>, lastTag: Option<string>)
      ensures (messages, seen, lastTag) == Notify(prev, rels, hash, repo)
    {
      messages, seen, lastTag := [], prev, None;
      for i := 0 to |rels|
        invariant (messages, seen, lastTag) == Notify(prev, rels[..i], hash, repo)
      {
        assert rels[..i + 1][..i] == rels[..i];
        var release := rels[i];
        if IsNotOfficial(release) {
          continue;
        }
        var h := hash(release);
        if h in seen {
          continue;
        }
        seen := seen + {h};
        messages := messages + [NotificationMessage(repo, release)];
        lastTag := Some(release.tagName);
      }
      assert rels[..|rels|] == rels;
    }

    /** The cache update for one maintained repository. */
    method UpdateCache(repo: Repo, fetched: Option<seq<Release>>, hash: Release -> ReleaseHash)
      returns (messages: seq<string>, lastTag: Option<string>)
      modifies this
      ensures var s := CacheStep(old(releases), repo.fullName, fetched, hash, repo);
        releases == s.cache && messages == s.messages && lastTag == s.lastTag
    {
      var name := repo.fullName;
      messages, lastTag := [], None;
      if fetched.None? {
        if name !in releases {
          releases := releases[name := None];
        }
        return;
      }
      if name !in releases || releases[name].None? {
        var hashes := HashOfficial(fetched.value, hash);
        releases := releases[name := Some(hashes)];
        return;
      }
      var seen;
      messages, seen, lastTag := NotifyLoop(releases[name].value, fetched.value, hash, repo);
      releases := releases[name := Some(seen)];
    }

    /** One organisation's listing. */
    method RunRepos(repos: seq<Repo>, releasesOf: string -> Option<seq<Release>>, hash: Release -> ReleaseHash)
      returns (messages: seq<string>, lastTag: Option<string>)
      modifies this
      ensures var s := RepoRound(old(releases), repos, releasesOf, hash);
        releases == s.cache && messages == s.messages && lastTag == s.lastTag
    {
      messages, lastTag := [], None;
      for i := 0 to |repos|
        invariant var s := RepoRound(old(releases), repos[..i], releasesOf, hash);
          releases == s.cache && messages == s.messages && lastTag == s.lastTag
      {
        assert repos[..i + 1][..i] == repos[..i];
        var repo := repos[i];
        if IsNotMaintained(repo) {
          continue;
        }
        var m, t := UpdateCache(repo, releasesOf(repo.fullName), hash);
        messages := messages + m;
        if t.Some? {
          lastTag := t;
        }
      }
      assert repos[..|repos|] == repos;
    }

    /** The organisations of a round, skipping those whose listing failed. */
    method RunOrgs(orgs: seq<string>, listing: string -> Option<seq<Repo>>, releasesOf: string -> Option<seq<Release>>,
                   hash: Release -> ReleaseHash) returns (messages: seq<string>, lastTag: Option<string>)
      modifies this
      ensures var s := OrgsRound(old(releases), orgs, listing, releasesOf, hash);
        releases == s.cache && messages == s.messages && lastTag == s.lastTag
    {
      messages, lastTag := [], None;
      for i := 0 to |orgs|
        invariant var s := OrgsRound(old(releases), orgs[..i], listing, releasesOf, hash);
          releases == s.cache && messages == s.messages && lastTag == s.lastTag
      {
        assert orgs[..i + 1][..i] == orgs[..i];
        var repos := listing(orgs[i]);
        if repos.None? {
          continue;
        }
        var m, t := RunRepos(repos.value, releasesOf, hash);
        messages := messages + m;
        if t.Some? {
          lastTag := t;
        }
      }
      assert orgs[..|orgs|] == orgs;
    }

    /** `check_github_release`: a round over "outscale" and "outscale-dev";
        `notifications` are the markdown messages said, in order. */
    method CheckGithubRelease(listing: string -> Option<seq<Repo>>, releasesOf: string -> Option<seq<Release>>,
                              hash: Release -> ReleaseHash) returns (notifications: seq<string>)
      modifies this
      ensures var s := OrgsRound(old(releases), GITHUB_ORG_NAMES, listing, releasesOf, hash);
        releases == s.cache && notifications == s.messages
    {
      var lastTag;
      notifications, lastTag := RunOrgs(GITHUB_ORG_NAMES, listing, releasesOf, hash);
    }

    /** `check_specific_github_release`: a round over the specific
        organisations (`specificListing` being `get_specific_repos` with the
        specific repository names), then the version dispatches; each
        dispatched version goes to `GITHUB_REPO_NAME_TRIGGER` of
        `GITHUB_ORG_NAME_TRIGGER`. */
    method CheckSpecificGithubRelease(specificListing: string -> Option<seq<Repo>>,
                                      releasesOf: string -> Option<seq<Release>>, hash: Release -> ReleaseHash)
      returns (notifications: seq<string>, dispatched: seq<string>)
      modifies this
      ensures var s := OrgsRound(old(releases), GITHUB_SPECIFIC_ORG_NAMES, specificListing, releasesOf, hash);
        releases == s.cache && notifications == s.messages && dispatched == Dispatches(s.lastTag)
    {
      var lastTag;
      notifications, lastTag := RunOrgs(GITHUB_SPECIFIC_ORG_NAMES, specificListing, releasesOf, hash);
      var target := if lastTag.Some? then lastTag.value else DEFAULT_TARGET;
      dispatched := [];
      for i := 0 to |GITHUB_SPECIFIC_REPO_NAMES|
        invariant dispatched == if Semver(target) && target != DEFAULT_TARGET then seq(i, _ => target) else []
      {
        if !Semver(target) {
          continue;
        }
        if target != DEFAULT_TARGET {
          dispatched := dispatched + [target];
        }
      }
    }

    /** `get_github_release_body`: `None` for a version of the wrong shape;
        otherwise the body of the last release named `version` among the
        maintained matches (`repos`, from `get_specific_repos`; no listing
        counts as none), "" when there is none. The cache is not touched. */
    method GetGithubReleaseBody(version: string, repos: Option<seq<Repo>>, releasesOf: string -> Option<seq<Release>>)
      returns (r: Option<string>)
      ensures !Semver(version) ==> r.None?
      ensures Semver(version) ==> r == Some(BodyOf(if repos.Some? then repos.value else [], releasesOf, version))
    {
      if !Semver(version) {
        return None;
      }
      var list := if repos.Some? then repos.value else [];
      var body := "";
      for i := 0 to |list|
        invariant body == BodyOf(list[..i], releasesOf, version)
      {
        assert list[..i + 1][..i] == list[..i];
        var repo := list[i];
        if IsNotMaintained(repo) {
          continue;
        }
        var fetched := releasesOf(repo.fullName);
        if fetched.None? {
          continue;
        }
        body := LastBodyLoop(fetched.value, version, body);
      }
      assert list[..|list|] == list;
      r := Some(body);
    }

    /** The inner loop of `get_github_release_body`. */
    static method LastBodyLoop(rels: seq<Release>, version: string, before: string) returns (body: string)
      ensures body == LastBody(rels, version, before)
    {
      body := before;
      for i := 0 to |rels|
        invariant body == LastBody(rels[..i], version, before)
      {
        assert rels[..i + 1][..i] == rels[..i];
        assert rels[..i + 1][i] == rels[i];
        if rels[i].name == version {
          body := rels[i].body;
        }
      }
      assert rels[..|rels|] == rels;
    }
  }
}
