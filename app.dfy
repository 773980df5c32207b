/**
 * The application object: the issue lists it owns, the field worker's last
 * known position, and the operations that read or update them.
 */
module CivicConnect {

  import opened Wrappers
  import opened Issues
  import opened RouteAdvisor

  /** What the "find nearest issue" action reports. */
  datatype NearestOutcome = LocationRequired | NoIssuesFound | NearestAt(index: nat)

  /** What the "optimise route" action reports. */
  datatype RouteOutcome = RouteLocationRequired | NoPriorityIssues | Planned(stops: seq<Issue>)

  class CivicConnectApp {
    var issues: seq<Issue>
    var userIssues: seq<Issue>
    var fieldWorkerLocation: Option<Coordinate>
    /** The great-circle distance the application computes, left abstract. */
    const distance: Distance

    /** Starts with the stored lists (persistence is outside the model) and no worker position. */
    constructor (storedIssues: seq<Issue>, storedUserIssues: seq<Issue>, distance: Distance)
      ensures issues == storedIssues && userIssues == storedUserIssues
      ensures fieldWorkerLocation == None && this.distance == distance
    {
      issues := storedIssues;
      userIssues := storedUserIssues;
      fieldWorkerLocation := None;
      this.distance := distance;
    }

    /**
     * `findNearestIssue`: without a worker position it asks for one; otherwise it
     * reports the first nearest unresolved issue, or that none is unresolved.
     */
    method FindNearestIssue() returns (outcome: NearestOutcome)
      ensures outcome.LocationRequired? <==> fieldWorkerLocation.None?
      ensures outcome.NoIssuesFound? <==>
        fieldWorkerLocation.Some? && forall i :: 0 <= i < |issues| ==> issues[i].status == Resolved
      ensures outcome.NearestAt? ==>
        IsFirstNearest(distance, fieldWorkerLocation.value, issues, Unresolved, outcome.index)
    {
      if fieldWorkerLocation.None? {
        return LocationRequired;
      }
      var nearest := ScanNearest(distance, fieldWorkerLocation.value, issues, Unresolved);
      if nearest.Some? {
        outcome := NearestAt(nearest.value);
      } else {
        outcome := NoIssuesFound;
      }
    }

    /**
     * `optimizeRoute`: plans a greedy route over the open non-Low issues, or
     * reports why it cannot (no worker position, or no such issue).
     */
    method OptimizeRoute() returns (outcome: RouteOutcome)
      ensures outcome.RouteLocationRequired? <==> fieldWorkerLocation.None?
      ensures outcome.NoPriorityIssues? <==> fieldWorkerLocation.Some? && RouteWorkingSet(issues) == []
      ensures outcome.Planned? ==> outcome.stops == GreedyRoute(distance, fieldWorkerLocation.value, RouteWorkingSet(issues))
      ensures outcome.Planned? ==> outcome.stops != [] && multiset(outcome.stops) == multiset(RouteWorkingSet(issues))
    {
      if fieldWorkerLocation.None? {
        return RouteLocationRequired;
      }
      var unresolvedIssues := RouteWorkingSet(issues);
      if |unresolvedIssues| == 0 {
        return NoPriorityIssues;
      }
      var optimizedRoute := OptimizedRoute(distance, fieldWorkerLocation, unresolvedIssues);
      outcome := Planned(optimizedRoute);
    }

    /** `updateStats`: the dashboard counters over the issue list. */
    method UpdateStats() returns (stats: IssueStats)
      ensures stats == Stats(issues)
      ensures stats.total == |issues|
      ensures stats.resolved + stats.pending + stats.inProgress <= stats.total
    {
      stats := Stats(issues);
      StatsBounded(issues);
    }

    /**
     * `updateIssueStatus`: rewrites the status of the first issue with the id,
     * and of the first user issue with it, but only when `issues` holds the id.
     */
    method UpdateIssueStatus(issueId: string, newStatus: Status)
      modifies this
      ensures issues == SetFirstStatus(old(issues), issueId, newStatus)
      ensures userIssues ==
        if FindIndex(old(issues), issueId).Some? then SetFirstStatus(old(userIssues), issueId, newStatus)
        else old(userIssues)
      ensures fieldWorkerLocation == old(fieldWorkerLocation)
    {
      var found := FindIndex(issues, issueId);
      if found.Some? {
        var k := found.value;
        issues := issues[k := issues[k].(status := newStatus)];
        var userFound := FindIndex(userIssues, issueId);
        if userFound.Some? {
          var u := userFound.value;
          userIssues := userIssues[u := userIssues[u].(status := newStatus)];
        }
      }
    }
  }

  /**
   * A dispatch example: A (High) is nearest to the worker, C (Emergency) is
   * next and nearer to A than B is, B is Low. The full list is visited A, C, B;
   * planning skips B and visits A, then C.
   */
  lemma DispatchScenario(dist: Distance, start: Coordinate, s: seq<Issue>)
    requires |s| == 3
    requires s[0].priority == High && s[1].priority == Low && s[2].priority == Emergency
    requires s[0].status == Submitted && s[1].status == Submitted && s[2].status == Submitted
    requires dist(start, s[0].location) < dist(start, s[1].location)
    requires dist(start, s[0].location) < dist(start, s[2].location)
    requires dist(s[0].location, s[2].location) < dist(s[0].location, s[1].location)
    ensures GreedyRoute(dist, start, s) == [s[0], s[2], s[1]]
    ensures RouteWorkingSet(s) == [s[0], s[2]]
    ensures GreedyRoute(dist, start, RouteWorkingSet(s)) == [s[0], s[2]]
  {
    ThreeStopOrder(dist, start, s);
    assert s[1..][1..] == [s[2]];
    assert Filter([s[2]], Routable) == [s[2]] + Filter([s[2]][1..], Routable);
    assert [s[2]][1..] == [];
    assert Filter(s[1..], Routable) == Filter(s[1..][1..], Routable);
    assert RouteWorkingSet(s) == [s[0]] + Filter(s[1..], Routable);
    assert RouteWorkingSet(s) == [s[0], s[2]];
    TwoStopsKeepOrder(dist, start, [s[0], s[2]]);
  }
}
