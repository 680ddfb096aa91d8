/** One Outscale region endpoint (src/osc.rs): its API version, watched
    for changes, and its liveness, announced with the region wording. */
module Osc {
  import opened Common
  import opened Liveness
  import opened VersionWatch

  class Endpoint {
    const name: string
    const endpoint: string
    var version: Option<string>
    /** `alive`, `access_failure_cnt`, `last_error` and `error_rate_cnt`. */
    var monitor: Monitor


    ghost predicate Valid()
      reads this
    {
      ValidMonitor(monitor)
    }

    /** `Endpoint::new`: no version yet, alive, no failures, no error, no samples. */
    constructor (name: string, endpoint: string)
      ensures this.name == name && this.endpoint == endpoint
      ensures version.None? && monitor == Fresh && Valid()
    {
      this.name := name;
      this.endpoint := endpoint;
      version := None;
      monitor := Fresh;
    }

    /** `update_version` given the fetch (`None` when it failed): the new
        version when a stored one differs from it, and the fetched version
        is stored on success. */
    method UpdateVersion(fetched: Option<string>) returns (r: Option<string>)
      modifies this
      ensures r == VersionReport(old(version), fetched)
      ensures version == VersionStore(old(version), fetched)
      ensures monitor == old(monitor)
    {
      if fetched.None? {
        return None;
      }
      r := None;
      if version.Some? && fetched != version {
        r := fetched;
      }
      version := fetched;
    }

    /** `update_alive` with its count stored; returns the state before and after. */
    method UpdateAlive(probe: Probe) returns (before: bool, after: bool)
      requires Valid()
      modifies this
      ensures Valid() && version == old(version)
      ensures monitor == AliveStep(old(monitor), probe)
      ensures before == old(monitor.alive) && after == monitor.alive
    {
      before := monitor.alive;
      if probe.Err? {
        monitor := monitor.(lastError := Some(probe.error));
      }
      var count := NextCount(monitor.failures, probe);
      monitor := monitor.(failures := count, alive := NextAlive(monitor.alive, count));
      after := monitor.alive;
    }

    /** `update_error_rate`, sample counting only: `true` when a value is returned. */
    method UpdateErrorRate() returns (reported: bool)
      requires Valid()
      modifies this
      ensures Valid() && version == old(version)
      ensures monitor == SampleStep(old(monitor))
      ensures reported <==> Reports(monitor)
    {
      monitor := monitor.(samples := if monitor.samples == U32_MAX then U32_MAX else monitor.samples + 1);
      reported := monitor.samples >= WINDOW;
    }

    /** `alive`: one liveness step and its announcement, if any. */
    method Alive(probe: Probe) returns (message: Option<string>)
      requires Valid()
      modifies this
      ensures Valid() && version == old(version)
      ensures monitor == AliveStep(old(monitor), probe)
      ensures message == AliveMessage(RegionWording, name, old(monitor.alive), monitor)
    {
      var before, after := UpdateAlive(probe);
      message := AliveMessage(RegionWording, name, before, monitor);
    }
  }
}
