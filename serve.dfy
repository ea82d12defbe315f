/** The rebuild coordination of the development server (src/serve.js:50-78):
    file-system events call `rebuildSite`, and builds are never run side by side.
    A request that arrives during a build is remembered in `pendingRebuild`, and
    any number of such requests lead to one follow-up build once the current one
    finishes. The asynchronous build is split into two discrete steps: its start
    (inside `rebuildSite`) and its completion (the `finally` block). */
module Serve {

  class RebuildCoordinator {
    /** A build is in flight. */
    var rebuilding: bool
    /** A request arrived during the build in flight. */
    var pendingRebuild: bool

    /** Requests made so far (calls of `rebuildSite` from the watcher). */
    ghost var requests: nat
    /** Builds started so far. */
    ghost var builds: nat
    /** Every request made so far was followed by the start of a build. */
    ghost var covered: bool

    /** At most one build in flight and at most one deferred; a request not yet
        followed by a build is remembered as pending; no more builds than requests,
        and at least one once there has been a request. */
    ghost predicate Valid()
      reads this
    {
      (pendingRebuild ==> rebuilding) &&
      (!covered ==> pendingRebuild) &&
      builds + (if pendingRebuild then 1 else 0) <= requests &&
      (rebuilding ==> builds >= 1) &&
      (requests > 0 ==> builds >= 1)
    }

    /** `let rebuilding = false; let pendingRebuild = false;` */
    constructor ()
      ensures Valid()
      ensures !rebuilding && !pendingRebuild
      ensures requests == 0 && builds == 0 && covered
    {
      rebuilding := false;
      pendingRebuild := false;
      requests := 0;
      builds := 0;
      covered := true;
    }

    /** A watcher event calls `rebuildSite()`. During a build the request is only
        remembered; otherwise a build starts. `started` says whether one did. */
    method Request() returns (started: bool)
      requires Valid()
      modifies this
      ensures Valid()
      ensures started == !old(rebuilding)
      ensures rebuilding
      ensures pendingRebuild == old(rebuilding)
      ensures requests == old(requests) + 1
      ensures builds == old(builds) + (if started then 1 else 0)
      ensures covered == started
    {
      requests := requests + 1;
      if rebuilding {
        pendingRebuild := true;
        covered := false;
        return false;
      }
      rebuilding := true;
      builds := builds + 1;
      covered := true;
      started := true;
    }

    /** The build in flight finishes, whether it succeeded or threw: `rebuilding`
        is cleared and, if a request is pending, it is cleared and exactly one
        follow-up build starts. `followUp` says whether one did. */
    method Complete(succeeded: bool) returns (followUp: bool)
      requires Valid() && rebuilding
      modifies this
      ensures Valid()
      ensures followUp == old(pendingRebuild)
      ensures rebuilding == followUp && !pendingRebuild
      ensures requests == old(requests)
      ensures builds == old(builds) + (if followUp then 1 else 0)
      ensures covered
    {
      rebuilding := false;
      followUp := false;
      if pendingRebuild {
        pendingRebuild := false;
        // the call in the `finally` block runs with `rebuilding` false
        rebuilding := true;
        builds := builds + 1;
        covered := true;
        followUp := true;
      }
    }
  }

  /** What the coordinator sees: a file change, addition or removal, or the
      completion of the build in flight. */
  datatype Event = Change | BuildFinished(succeeded: bool)

  function Changes(events: seq<Event>): nat
  {
    if events == [] then 0
    else Changes(events[..|events| - 1]) + (if events[|events| - 1].Change? then 1 else 0)
  }

  lemma ChangesSnoc(events: seq<Event>, i: nat)
    requires i < |events|
    ensures Changes(events[..i + 1]) == Changes(events[..i]) + (if events[i].Change? then 1 else 0)
  {
    assert events[..i + 1][..i] == events[..i];
  }

  /** A server session: the coordinator driven by `events` from its initial state.
      A completion that arrives while no build is in flight is ignored. The result
      is the number of builds started and the final flags. */
  method Run(events: seq<Event>) returns (started: nat, rebuilding: bool, pendingRebuild: bool)
    ensures started <= Changes(events)
    ensures Changes(events) > 0 ==> started >= 1
    ensures pendingRebuild ==> rebuilding
    ensures events != [] && events[|events| - 1].Change? ==> rebuilding
    ensures events != [] && events[|events| - 1].BuildFinished? ==> !pendingRebuild
  {
    var c := new RebuildCoordinator();
    started := 0;
    for i := 0 to |events|
      invariant c.Valid()
      invariant c.requests == Changes(events[..i]) && c.builds == started
      invariant i > 0 && events[i - 1].Change? ==> c.rebuilding
      invariant i > 0 && events[i - 1].BuildFinished? ==> !c.pendingRebuild
    {
      ChangesSnoc(events, i);
      match events[i]
      case Change =>
        var s := c.Request();
        if s {
          started := started + 1;
        }
      case BuildFinished(ok) =>
        if c.rebuilding {
          var f := c.Complete(ok);
          if f {
            started := started + 1;
          }
        }
    }
    assert events[..|events|] == events;
    rebuilding := c.rebuilding;
    pendingRebuild := c.pendingRebuild;
  }
}
