/** The version-change detector shared by `update_version` in
    src/endpoints.rs, src/osc.rs and src/outscale_api_versions.rs: a failed
    fetch changes nothing, the first successful fetch is only remembered, and
    a later one is reported when it differs from the remembered version. */
module VersionWatch {
  import opened Common

  /** What `update_version` returns, given the stored version and the fetch
      (`None` when it failed). */
  function VersionReport(stored: Option<string>, fetched: Option<string>): (r: Option<string>)
    ensures r.Some? <==> stored.Some? && fetched.Some? && fetched != stored
    ensures r.Some? ==> r == fetched
  {
    if stored.Some? && fetched.Some? && fetched != stored then fetched else None
  }

  /** The announcement `run_version` makes for one fetch, worded the same in
      src/endpoints.rs and src/outscale_api_versions.rs: present exactly when
      a stored version differs from the fetched one, and then naming both
      the endpoint and the new version. */
  function VersionNews(name: string, stored: Option<string>, fetched: Option<string>): (r: Option<string>)
    ensures r.Some? <==> stored.Some? && fetched.Some? && fetched != stored
    ensures r.Some? ==> r.value == "New API version on " + name + ": " + fetched.value
  {
    match VersionReport(stored, fetched)
    case Some(v) => Some("New API version on " + name + ": " + v)
    case None => None
  }

  /** The stored version afterwards: the fetched one, or the old one on failure. */
  function VersionStore(stored: Option<string>, fetched: Option<string>): (r: Option<string>)
    ensures fetched.None? ==> r == stored
    ensures fetched.Some? ==> r == fetched
  {
    if fetched.None? then stored else fetched
  }

  /** The stored version after a history of fetches from an unset one. */
  function StoredAfter(fetches: seq<Option<string>>): Option<string>
    decreases |fetches|
  {
    if |fetches| == 0 then None
    else VersionStore(StoredAfter(fetches[..|fetches| - 1]), fetches[|fetches| - 1])
  }

  /** The versions reported along a history of fetches, in order. */
  function ReportedAlong(fetches: seq<Option<string>>): seq<string>
    decreases |fetches|
  {
    if |fetches| == 0 then []
    else
      var init := fetches[..|fetches| - 1];
      ReportedAlong(init) +
        (match VersionReport(StoredAfter(init), fetches[|fetches| - 1])
         case Some(v) => [v]
         case None => [])
  }

  /** The successful fetches of a history, in order. */
  function Successes(fetches: seq<Option<string>>): seq<string>
    decreases |fetches|
  {
    if |fetches| == 0 then []
    else
      var last := fetches[|fetches| - 1];
      Successes(fetches[..|fetches| - 1]) + (if last.Some? then [last.value] else [])
  }

  /** The values of `vs` that differ from the value before them; the first
      value is never one of them. */
  function Changes(vs: seq<string>): seq<string>
    decreases |vs|
  {
    if |vs| < 2 then []
    else Changes(vs[..|vs| - 1]) + (if vs[|vs| - 1] != vs[|vs| - 2] then [vs[|vs| - 1]] else [])
  }

  /** Appending a value adds it to the changes exactly when it differs from
      the value before it. */
  lemma ChangesSnoc(s: seq<string>, v: string)
    ensures Changes(s + [v]) == Changes(s) + (if |s| > 0 && v != s[|s| - 1] then [v] else [])
  {
    var s' := s + [v];
    assert s'[..|s'| - 1] == s;
    if |s| > 0 {
      assert s'[|s'| - 2] == s[|s| - 1];
    }
  }

  /** The stored version is the last successful fetch, and the reported
      versions are exactly the changes between successive successful fetches:
      nothing for the first success, nothing for failures, nothing for a
      repeat. */
  lemma {:induction false} ReportsAreChanges(fetches: seq<Option<string>>)
    ensures StoredAfter(fetches) ==
      if |Successes(fetches)| == 0 then None else Some(Successes(fetches)[|Successes(fetches)| - 1])
    ensures ReportedAlong(fetches) == Changes(Successes(fetches))
    decreases |fetches|
  {
    if |fetches| > 0 {
      var init := fetches[..|fetches| - 1];
      var last := fetches[|fetches| - 1];
      ReportsAreChanges(init);
      var s := Successes(init);
      if last.Some? {
        assert Successes(fetches) == s + [last.value];
        ChangesSnoc(s, last.value);
        assert ReportedAlong(fetches) == ReportedAlong(init) +
          (match VersionReport(StoredAfter(init), last) case Some(v) => [v] case None => []);
      } else {
        assert Successes(fetches) == s;
        assert ReportedAlong(fetches) == ReportedAlong(init);
      }
    }
  }
}
