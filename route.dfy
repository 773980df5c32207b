/**
 * Nearest-issue selection and the greedy nearest-neighbour route ordering
 * used to dispatch a field worker. Distance is a parameter: any total
 * function from two coordinates to a real number.
 */
module RouteAdvisor {

  import opened Wrappers
  import opened Issues

  type Distance = (Coordinate, Coordinate) -> real

  /** The eligibility test of the route planner: every remaining issue takes part. */
  predicate AnyIssue(i: Issue)
  {
    true
  }

  predicate HasEligible(s: seq<Issue>, eligible: Issue -> bool)
  {
    exists j :: 0 <= j < |s| && eligible(s[j])
  }

  /**
   * `k` is the issue a scan with a strict `<` keeps: eligible, no farther
   * from `from` than any other eligible issue, and strictly nearer than
   * every eligible issue before it (ties go to the earliest index).
   */
  predicate IsFirstNearest(dist: Distance, from: Coordinate, s: seq<Issue>, eligible: Issue -> bool, k: int)
  {
    && 0 <= k < |s|
    && eligible(s[k])
    && (forall j :: 0 <= j < |s| && eligible(s[j]) ==> dist(from, s[k].location) <= dist(from, s[j].location))
    && (forall j :: 0 <= j < k && eligible(s[j]) ==> dist(from, s[k].location) < dist(from, s[j].location))
  }

  /** At most one index is the first nearest. */
  lemma FirstNearestUnique(dist: Distance, from: Coordinate, s: seq<Issue>, eligible: Issue -> bool, k1: int, k2: int)
    requires IsFirstNearest(dist, from, s, eligible, k1)
    requires IsFirstNearest(dist, from, s, eligible, k2)
    ensures k1 == k2
  {
  }

  /** The first nearest eligible issue, which exists whenever some issue is eligible. */
  function FirstNearest(dist: Distance, from: Coordinate, s: seq<Issue>, eligible: Issue -> bool): (k: nat)
    requires HasEligible(s, eligible)
    ensures IsFirstNearest(dist, from, s, eligible, k)
    decreases |s|
  {
    if !HasEligible(s[1..], eligible) then
      assert forall j :: 1 <= j < |s| ==> s[j] == s[1..][j - 1];
      0
    else
      var t := 1 + FirstNearest(dist, from, s[1..], eligible);
      assert forall j :: 1 <= j < |s| ==> s[j] == s[1..][j - 1];
      if eligible(s[0]) && dist(from, s[0].location) <= dist(from, s[t].location) then 0 else t
  }

  /**
   * One pass over the candidates that skips ineligible ones and keeps the
   * first strictly smaller distance (`nearestIndex < 0` plays the part of
   * the initial infinite distance). None exactly when nothing is eligible.
   */
  method ScanNearest(dist: Distance, from: Coordinate, candidates: seq<Issue>, eligible: Issue -> bool)
    returns (nearest: Option<nat>)
    ensures nearest.None? <==> !HasEligible(candidates, eligible)
    ensures nearest.Some? ==> IsFirstNearest(dist, from, candidates, eligible, nearest.value)
  {
    var nearestIndex := -1;
    var nearestDistance := 0.0;
    var index := 0;
    while index < |candidates|
      invariant 0 <= index <= |candidates|
      invariant nearestIndex < 0 ==> forall j :: 0 <= j < index ==> !eligible(candidates[j])
      invariant nearestIndex >= 0 ==> IsFirstNearest(dist, from, candidates[..index], eligible, nearestIndex)
      invariant nearestIndex >= 0 ==> nearestDistance == dist(from, candidates[nearestIndex].location)
    {
      var issue := candidates[index];
      if eligible(issue) {
        var distance := dist(from, issue.location);
        if nearestIndex < 0 || distance < nearestDistance {
          nearestDistance := distance;
          nearestIndex := index;
        }
      }
      index := index + 1;
    }
    assert candidates[..index] == candidates;
    nearest := if nearestIndex < 0 then None else Some(nearestIndex);
  }

  /** `unvisited.splice(k, 1)`. */
  function RemoveAt<T>(s: seq<T>, k: nat): (r: seq<T>)
    requires k < |s|
    ensures |r| == |s| - 1
    ensures multiset(r) + multiset{s[k]} == multiset(s)
  {
    assert s == s[..k] + [s[k]] + s[k + 1..];
    s[..k] + s[k + 1..]
  }

  /**
   * The greedy nearest-neighbour order: visit the first nearest remaining
   * issue, move there, and repeat on what remains. A heuristic, not an
   * optimal tour: it never reconsiders a choice.
   */
  function GreedyRoute(dist: Distance, from: Coordinate, s: seq<Issue>): (route: seq<Issue>)
    ensures |route| == |s|
    decreases |s|
  {
    if s == [] then []
    else
      assert AnyIssue(s[0]);
      var k := FirstNearest(dist, from, s, AnyIssue);
      [s[k]] + GreedyRoute(dist, s[k].location, RemoveAt(s, k))
  }

  /** A non-empty route starts at the first nearest issue and continues greedily from there over the rest. */
  lemma GreedyRouteUnfold(dist: Distance, from: Coordinate, s: seq<Issue>, k: nat)
    requires IsFirstNearest(dist, from, s, AnyIssue, k)
    ensures GreedyRoute(dist, from, s) == [s[k]] + GreedyRoute(dist, s[k].location, RemoveAt(s, k))
  {
    FirstNearestUnique(dist, from, s, AnyIssue, k, FirstNearest(dist, from, s, AnyIssue));
  }

  /** The route visits every issue exactly once: it is a permutation of the input. */
  lemma {:induction false} GreedyRoutePermutation(dist: Distance, from: Coordinate, s: seq<Issue>)
    ensures multiset(GreedyRoute(dist, from, s)) == multiset(s)
    ensures |GreedyRoute(dist, from, s)| == |s|
    decreases |s|
  {
    if s != [] {
      assert AnyIssue(s[0]);
      var k := FirstNearest(dist, from, s, AnyIssue);
      GreedyRoutePermutation(dist, s[k].location, RemoveAt(s, k));
    }
  }

  /** Where the worker stands before step `i` of a route. */
  function Here(from: Coordinate, route: seq<Issue>, i: nat): Coordinate
    requires i <= |route|
  {
    if i == 0 then from else route[i - 1].location
  }

  /** `pick` is among `remaining` and no farther from `here` than any other of them. */
  predicate NearestOfRemaining(dist: Distance, here: Coordinate, remaining: multiset<Issue>, pick: Issue)
  {
    pick in remaining && forall x :: x in remaining ==> dist(here, pick.location) <= dist(here, x.location)
  }

  /** The first step of a non-empty route goes to a nearest issue. */
  lemma FirstStepIsNearest(dist: Distance, from: Coordinate, s: seq<Issue>)
    requires s != []
    ensures GreedyRoute(dist, from, s) != []
    ensures NearestOfRemaining(dist, from, multiset(s), GreedyRoute(dist, from, s)[0])
  {
    assert AnyIssue(s[0]);
    var k := FirstNearest(dist, from, s, AnyIssue);
    forall x | x in multiset(s)
      ensures dist(from, s[k].location) <= dist(from, x.location)
    {
      var j :| 0 <= j < |s| && s[j] == x;
      assert AnyIssue(s[j]);
    }
  }

  /**
   * Step `i` picks a remaining issue (one not visited by the steps before it)
   * that is no farther from the current position than any other remaining one.
   */
  lemma {:induction false} GreedyStepIsNearest(dist: Distance, from: Coordinate, s: seq<Issue>, i: nat)
    requires i < |GreedyRoute(dist, from, s)|
    ensures NearestOfRemaining(dist, Here(from, GreedyRoute(dist, from, s), i),
      multiset(s) - multiset(GreedyRoute(dist, from, s)[..i]), GreedyRoute(dist, from, s)[i])
    decreases |s|
  {
    var route := GreedyRoute(dist, from, s);
    if i == 0 {
      FirstStepIsNearest(dist, from, s);
      assert route[..0] == [];
    } else {
      assert AnyIssue(s[0]);
      var k := FirstNearest(dist, from, s, AnyIssue);
      var rest := RemoveAt(s, k);
      var tail := GreedyRoute(dist, s[k].location, rest);
      assert route == [s[k]] + tail;
      GreedyStepIsNearest(dist, s[k].location, rest, i - 1);
      ShiftStep(from, s, k, tail, i);
    }
  }

  /** Step `i` of `[s[k]] + tail` over `s` is step `i - 1` of `tail` over `s` without its element `k`. */
  lemma ShiftStep(from: Coordinate, s: seq<Issue>, k: nat, tail: seq<Issue>, i: nat)
    requires k < |s| && 0 < i <= |tail|
    ensures Here(from, [s[k]] + tail, i) == Here(s[k].location, tail, i - 1)
    ensures multiset(s) - multiset(([s[k]] + tail)[..i]) == multiset(RemoveAt(s, k)) - multiset(tail[..i - 1])
    ensures ([s[k]] + tail)[i] == tail[i - 1]
  {
    var route := [s[k]] + tail;
    assert route[..i] == [s[k]] + tail[..i - 1];
    if i > 1 {
      assert route[i - 1] == tail[i - 2];
    }
  }

  /** When every distance is the same, the scan keeps the first candidate. */
  lemma EqualDistancesPickFirst(dist: Distance, from: Coordinate, s: seq<Issue>, c: real)
    requires s != []
    requires forall a, b :: dist(a, b) == c
    ensures HasEligible(s, AnyIssue) && FirstNearest(dist, from, s, AnyIssue) == 0
  {
    assert AnyIssue(s[0]);
    assert IsFirstNearest(dist, from, s, AnyIssue, 0);
    FirstNearestUnique(dist, from, s, AnyIssue, FirstNearest(dist, from, s, AnyIssue), 0);
  }

  /** When every distance is the same, every step keeps the first remaining issue: the input order. */
  lemma {:induction false} EqualDistancesKeepOrder(dist: Distance, from: Coordinate, s: seq<Issue>, c: real)
    requires forall a, b :: dist(a, b) == c
    ensures GreedyRoute(dist, from, s) == s
    decreases |s|
  {
    if s != [] {
      EqualDistancesPickFirst(dist, from, s, c);
      assert RemoveAt(s, 0) == s[1..];
      EqualDistancesKeepOrder(dist, s[0].location, s[1..], c);
      assert s == [s[0]] + s[1..];
    }
  }

  /** A single remaining issue is the whole route. */
  lemma OneStop(dist: Distance, from: Coordinate, s: seq<Issue>)
    requires |s| == 1
    ensures GreedyRoute(dist, from, s) == s
  {
    assert IsFirstNearest(dist, from, s, AnyIssue, 0);
    GreedyRouteUnfold(dist, from, s, 0);
    assert RemoveAt(s, 0) == [];
  }

  /** Of two issues the nearer goes first; on a tie, the earlier. */
  lemma TwoStopsKeepOrder(dist: Distance, from: Coordinate, s: seq<Issue>)
    requires |s| == 2 && dist(from, s[0].location) <= dist(from, s[1].location)
    ensures GreedyRoute(dist, from, s) == s
  {
    assert IsFirstNearest(dist, from, s, AnyIssue, 0);
    GreedyRouteUnfold(dist, from, s, 0);
    assert RemoveAt(s, 0) == [s[1]];
    OneStop(dist, s[0].location, [s[1]]);
    assert [s[0]] + [s[1]] == s;
  }

  /** Of two issues, a strictly nearer second one goes first. */
  lemma TwoStopsSwap(dist: Distance, from: Coordinate, s: seq<Issue>)
    requires |s| == 2 && dist(from, s[1].location) < dist(from, s[0].location)
    ensures GreedyRoute(dist, from, s) == [s[1], s[0]]
  {
    assert IsFirstNearest(dist, from, s, AnyIssue, 1);
    GreedyRouteUnfold(dist, from, s, 1);
    assert RemoveAt(s, 1) == [s[0]];
    OneStop(dist, s[1].location, [s[0]]);
    assert [s[1]] + [s[0]] == [s[1], s[0]];
  }

  /**
   * Three stops where the first is nearest to the start and the third is
   * nearer to the first than the second is: the route is first, third, second.
   */
  lemma ThreeStopOrder(dist: Distance, start: Coordinate, s: seq<Issue>)
    requires |s| == 3
    requires dist(start, s[0].location) < dist(start, s[1].location)
    requires dist(start, s[0].location) < dist(start, s[2].location)
    requires dist(s[0].location, s[2].location) < dist(s[0].location, s[1].location)
    ensures GreedyRoute(dist, start, s) == [s[0], s[2], s[1]]
  {
    assert IsFirstNearest(dist, start, s, AnyIssue, 0);
    GreedyRouteUnfold(dist, start, s, 0);
    assert RemoveAt(s, 0) == s[1..];
    TwoStopsSwap(dist, s[0].location, s[1..]);
    ConcatThree(s[0], s[2], s[1]);
  }

  lemma ConcatThree<T>(x: T, y: T, z: T)
    ensures [x] + [y, z] == [x, y, z]
  {
  }

  /**
   * `calculateOptimizedRoute`: repeatedly move to the nearest unvisited issue.
   * No worker location gives an empty route; otherwise the route is the
   * greedy order, a permutation of the input.
   */
  method OptimizedRoute(dist: Distance, worker: Option<Coordinate>, issues: seq<Issue>) returns (route: seq<Issue>)
    ensures worker.None? ==> route == []
    ensures worker.Some? ==> route == GreedyRoute(dist, worker.value, issues)
    ensures worker.Some? ==> multiset(route) == multiset(issues)
  {
    if worker.None? || |issues| == 0 {
      return [];
    }
    var unvisited := issues;
    route := [];
    var currentLocation := worker.value;
    while |unvisited| > 0
      invariant route + GreedyRoute(dist, currentLocation, unvisited) == GreedyRoute(dist, worker.value, issues)
      decreases |unvisited|
    {
      var nearest := ScanNearest(dist, currentLocation, unvisited, AnyIssue);
      assert AnyIssue(unvisited[0]);
      var nearestIndex := nearest.value;
      var nearestIssue := unvisited[nearestIndex];
      GreedyRouteUnfold(dist, currentLocation, unvisited, nearestIndex);
      ghost var later := GreedyRoute(dist, nearestIssue.location, RemoveAt(unvisited, nearestIndex));
      route := route + [nearestIssue];
      currentLocation := nearestIssue.location;
      unvisited := RemoveAt(unvisited, nearestIndex);
    }
    GreedyRoutePermutation(dist, worker.value, issues);
  }
}
