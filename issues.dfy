/**
 * The issue records the application keeps in its `issues` and `userIssues`
 * lists, and the pure look-ups, filters and counts over them.
 */
module Issues {

  import opened Wrappers

  /** A point in degrees; the application's floating-point numbers are modelled as reals. */
  datatype Coordinate = Coordinate(latitude: real, longitude: real)

  datatype Priority = Low | Medium | High | Emergency

  /** The four status values the admin status selector offers. */
  datatype Status = Submitted | Acknowledged | InProgress | Resolved

  /** The fields of an issue report that the modelled operations read or write. */
  datatype Issue = Issue(id: string, priority: Priority, location: Coordinate, status: Status)

  /** The label under which a priority is stored and compared. */
  function PriorityLabel(p: Priority): string
  {
    match p
    case Low => "Low"
    case Medium => "Medium"
    case High => "High"
    case Emergency => "Emergency"
  }

  // ----- Coordinate validation -----

  /** An inclusive range of degrees. */
  datatype Range = Range(min: real, max: real)

  const LatitudeBounds := Range(-90.0, 90.0)
  const LongitudeBounds := Range(-180.0, 180.0)

  predicate InRange(x: real, r: Range)
  {
    r.min <= x <= r.max
  }

  /** A coordinate pair is accepted exactly when both parts lie inside the inclusive bounds. */
  function ValidCoordinate(lat: real, lng: real): (ok: bool)
    ensures ok <==> -90.0 <= lat <= 90.0 && -180.0 <= lng <= 180.0
  {
    InRange(lat, LatitudeBounds) && InRange(lng, LongitudeBounds)
  }

  // ----- Department assignment -----

  const GeneralServices := "General Services"

  /** The department that handles each listed issue type. */
  const DepartmentTable: map<string, string> := map[
    "Potholes" := "Public Works",
    "Street Lights" := "Public Works",
    "Garbage/Waste" := "Sanitation Department",
    "Water Issues" := "Water Authority",
    "Traffic Signals" := "Traffic Management",
    "Parks & Recreation" := "Parks Department",
    "Road Damage" := "Public Works",
    "Public Safety" := "Public Safety",
    "Other" := GeneralServices
  ]

  const Departments: set<string> := {
    "Public Works", "Sanitation Department", "Water Authority",
    "Traffic Management", "Parks Department", "Public Safety", GeneralServices
  }

  /** The department for an issue type; types missing from the table go to General Services. */
  function Department(issueType: string): (d: string)
    ensures d in Departments
    ensures issueType in DepartmentTable ==> d == DepartmentTable[issueType]
    ensures issueType !in DepartmentTable ==> d == GeneralServices
  {
    if issueType in DepartmentTable && DepartmentTable[issueType] != "" then DepartmentTable[issueType]
    else GeneralServices
  }

  // ----- Marker colours -----

  const EmergencyColour := "#dc2626"
  const HighColour := "#ea580c"
  const MediumColour := "#d97706"
  const LowColour := "#059669"
  const DefaultColour := "#6b7280"

  const Palette: set<string> := {EmergencyColour, HighColour, MediumColour, LowColour, DefaultColour}

  /** The marker colour for a stored priority label; unrecognised labels are drawn grey. */
  function MarkerColour(priority: string): (c: string)
    ensures c in Palette
    ensures c == DefaultColour <==> priority !in {"Emergency", "High", "Medium", "Low"}
  {
    match priority
    case "Emergency" => EmergencyColour
    case "High" => HighColour
    case "Medium" => MediumColour
    case "Low" => LowColour
    case _ => DefaultColour
  }

  /** Every priority has its own colour, and none of them is the default grey. */
  lemma MarkerColourDistinguishesPriorities(p: Priority, q: Priority)
    ensures MarkerColour(PriorityLabel(p)) != DefaultColour
    ensures MarkerColour(PriorityLabel(p)) == MarkerColour(PriorityLabel(q)) <==> p == q
  {
  }

  // ----- Filtering -----

  /** `s.filter(p)`: the elements of `s` satisfying `p`, in their original order. */
  function Filter<T>(s: seq<T>, p: T -> bool): (r: seq<T>)
    ensures |r| <= |s|
    ensures forall i :: 0 <= i < |r| ==> p(r[i]) && r[i] in s
    ensures forall i :: 0 <= i < |s| && p(s[i]) ==> s[i] in r
  {
    if s == [] then []
    else if p(s[0]) then [s[0]] + Filter(s[1..], p)
    else Filter(s[1..], p)
  }

  /** Each element occurs in the filtered list as often as in the input if it satisfies `p`, and not at all otherwise. */
  lemma {:induction false} FilterCounts<T>(s: seq<T>, p: T -> bool, x: T)
    ensures multiset(Filter(s, p))[x] == if p(x) then multiset(s)[x] else 0
  {
    if s != [] {
      assert s == [s[0]] + s[1..];
      FilterCounts(s[1..], p, x);
    }
  }

  /** Filtering distributes over concatenation, so the kept elements keep their relative order. */
  lemma {:induction false} FilterConcat<T>(a: seq<T>, b: seq<T>, p: T -> bool)
    ensures Filter(a + b, p) == Filter(a, p) + Filter(b, p)
  {
    if a == [] {
      assert a + b == b;
    } else {
      assert (a + b)[0] == a[0];
      assert (a + b)[1..] == a[1..] + b;
      FilterConcat(a[1..], b, p);
    }
  }

  /** Filtering by `p` and then by `q` is filtering once by any `r` that is their conjunction. */
  lemma {:induction false} FilterCompose<T>(s: seq<T>, p: T -> bool, q: T -> bool, r: T -> bool)
    requires forall x :: r(x) == (p(x) && q(x))
    ensures Filter(Filter(s, p), q) == Filter(s, r)
  {
    if s != [] {
      FilterCompose(s[1..], p, q, r);
    }
  }

  /** A filter that keeps every element returns the list unchanged. */
  lemma {:induction false} FilterKeepsAll<T>(s: seq<T>, p: T -> bool)
    requires forall i :: 0 <= i < |s| ==> p(s[i])
    ensures Filter(s, p) == s
  {
    if s != [] {
      FilterKeepsAll(s[1..], p);
    }
  }

  // ----- Admin list, map markers and the route working set -----

  predicate Unresolved(i: Issue)
  {
    i.status != Resolved
  }

  /** The admin list: an empty selector (None) keeps everything, otherwise only equal values. */
  function AdminIssues(issues: seq<Issue>, statusFilter: Option<Status>, priorityFilter: Option<Priority>): (r: seq<Issue>)
    ensures |r| <= |issues|
    ensures forall i :: 0 <= i < |r| ==> AdminMatch(r[i], statusFilter, priorityFilter)
  {
    var byStatus := if statusFilter.Some? then Filter(issues, (i: Issue) => i.status == statusFilter.value) else issues;
    if priorityFilter.Some? then Filter(byStatus, (i: Issue) => i.priority == priorityFilter.value) else byStatus
  }

  /** The field-map markers: unresolved issues, narrowed to one priority when one is selected. */
  function MapIssues(issues: seq<Issue>, priorityFilter: Option<Priority>): (r: seq<Issue>)
    ensures |r| <= |issues|
    ensures forall i :: 0 <= i < |r| ==> r[i].status != Resolved && (priorityFilter.None? || r[i].priority == priorityFilter.value)
  {
    var open := Filter(issues, Unresolved);
    if priorityFilter.Some? then Filter(open, (i: Issue) => i.priority == priorityFilter.value) else open
  }

  /** An issue the route planner takes: not resolved and not of Low priority. */
  predicate Routable(i: Issue)
  {
    i.status != Resolved && i.priority != Low
  }

  /** The issues handed to the route planner. */
  function RouteWorkingSet(issues: seq<Issue>): (r: seq<Issue>)
    ensures |r| <= |issues|
    ensures forall i :: 0 <= i < |r| ==> r[i].status != Resolved && r[i].priority != Low
  {
    Filter(issues, Routable)
  }

  /** The condition an admin list entry meets: it equals every selected filter value. */
  predicate AdminMatch(i: Issue, statusFilter: Option<Status>, priorityFilter: Option<Priority>)
  {
    (statusFilter.None? || i.status == statusFilter.value) && (priorityFilter.None? || i.priority == priorityFilter.value)
  }

  /** The admin list is the input filtered once by AdminMatch: matching issues only, in their original order. */
  lemma AdminIssuesMatch(issues: seq<Issue>, statusFilter: Option<Status>, priorityFilter: Option<Priority>)
    ensures AdminIssues(issues, statusFilter, priorityFilter) == Filter(issues, (i: Issue) => AdminMatch(i, statusFilter, priorityFilter))
  {
    var m := (i: Issue) => AdminMatch(i, statusFilter, priorityFilter);
    if statusFilter.Some? && priorityFilter.Some? {
      FilterCompose(issues, (i: Issue) => i.status == statusFilter.value, (i: Issue) => i.priority == priorityFilter.value, m);
    } else if statusFilter.Some? {
      FilterCompose(issues, (i: Issue) => i.status == statusFilter.value, (i: Issue) => true, m);
      FilterKeepsAll(Filter(issues, (i: Issue) => i.status == statusFilter.value), (i: Issue) => true);
    } else if priorityFilter.Some? {
      FilterCompose(issues, (i: Issue) => true, (i: Issue) => i.priority == priorityFilter.value, m);
      FilterKeepsAll(issues, (i: Issue) => true);
    } else {
      FilterKeepsAll(issues, m);
    }
  }

  /** With both selectors empty the admin list is the whole list, in order. */
  lemma AdminIssuesUnfiltered(issues: seq<Issue>)
    ensures AdminIssues(issues, None, None) == issues
  {
  }

  /** Map markers are the unresolved issues that carry the selected priority, in their original order. */
  lemma MapIssuesMatch(issues: seq<Issue>, priorityFilter: Option<Priority>)
    ensures MapIssues(issues, priorityFilter) == Filter(issues, (i: Issue) => i.status != Resolved && (priorityFilter.None? || i.priority == priorityFilter.value))
  {
    var m := (i: Issue) => i.status != Resolved && (priorityFilter.None? || i.priority == priorityFilter.value);
    if priorityFilter.Some? {
      FilterCompose(issues, Unresolved, (i: Issue) => i.priority == priorityFilter.value, m);
    } else {
      FilterCompose(issues, Unresolved, (i: Issue) => true, m);
      FilterKeepsAll(Filter(issues, Unresolved), (i: Issue) => true);
    }
  }

  /** The route working set holds exactly the open non-Low issues, each as often as in the input. */
  lemma RouteWorkingSetMatch(issues: seq<Issue>, x: Issue)
    ensures multiset(RouteWorkingSet(issues))[x] == if x.status != Resolved && x.priority != Low then multiset(issues)[x] else 0
  {
    FilterCounts(issues, Routable, x);
  }

  /** The working set is empty exactly when every issue is resolved or of Low priority. */
  lemma {:induction false} RouteWorkingSetEmpty(issues: seq<Issue>)
    ensures RouteWorkingSet(issues) == [] <==> forall i :: 0 <= i < |issues| ==> issues[i].status == Resolved || issues[i].priority == Low
  {
    if issues != [] {
      RouteWorkingSetEmpty(issues[1..]);
      assert forall i :: 1 <= i < |issues| ==> issues[i] == issues[1..][i - 1];
    }
  }

  // ----- Statistics -----

  datatype IssueStats = IssueStats(total: nat, resolved: nat, pending: nat, inProgress: nat)

  function StatusIs(st: Status): Issue -> bool
  {
    (i: Issue) => i.status == st
  }

  /** How many issues carry the status. */
  function CountStatus(issues: seq<Issue>, st: Status): (n: nat)
    ensures n <= |issues|
    ensures n == 0 <==> forall i :: 0 <= i < |issues| ==> issues[i].status != st
  {
    var kept := Filter(issues, StatusIs(st));
    assert forall i :: 0 <= i < |issues| && issues[i].status == st ==> StatusIs(st)(issues[i]);
    assert |kept| > 0 ==> StatusIs(st)(kept[0]) && kept[0] in issues;
    |kept|
  }

  /** The dashboard counters. */
  function Stats(issues: seq<Issue>): (s: IssueStats)
    ensures s.total == |issues|
    ensures s.resolved <= s.total && s.pending <= s.total && s.inProgress <= s.total
  {
    IssueStats(|issues|, CountStatus(issues, Resolved), CountStatus(issues, Submitted), CountStatus(issues, InProgress))
  }

  /** The four status counts partition the list. */
  lemma {:induction false} StatusCountsPartition(issues: seq<Issue>)
    ensures CountStatus(issues, Submitted) + CountStatus(issues, Acknowledged)
          + CountStatus(issues, InProgress) + CountStatus(issues, Resolved) == |issues|
  {
    if issues != [] {
      StatusCountsPartition(issues[1..]);
    }
  }

  /** The resolved, pending and in-progress counters never add up to more than the total. */
  lemma StatsBounded(issues: seq<Issue>)
    ensures var s := Stats(issues); s.resolved + s.pending + s.inProgress <= s.total
  {
    StatusCountsPartition(issues);
  }

  // ----- Status update -----

  /** The index of the first issue with the given id (`Array.prototype.find`). */
  function FindIndex(s: seq<Issue>, id: string): (r: Option<nat>)
    ensures r.None? <==> forall j :: 0 <= j < |s| ==> s[j].id != id
    ensures r.Some? ==> r.value < |s| && s[r.value].id == id && forall j :: 0 <= j < r.value ==> s[j].id != id
  {
    if s == [] then None
    else if s[0].id == id then Some(0)
    else match FindIndex(s[1..], id)
      case None => None
      case Some(k) => Some(k + 1)
  }

  /** The list after the status of the first issue with the given id is rewritten. */
  function SetFirstStatus(s: seq<Issue>, id: string, st: Status): (r: seq<Issue>)
    ensures |r| == |s|
    ensures forall j :: 0 <= j < |s| ==> r[j].id == s[j].id && r[j].priority == s[j].priority && r[j].location == s[j].location
  {
    match FindIndex(s, id)
    case None => s
    case Some(k) => s[k := s[k].(status := st)]
  }

  /** Only the first issue carrying the id changes, only in its status; an unknown id changes nothing. */
  lemma SetFirstStatusEffect(s: seq<Issue>, id: string, st: Status)
    ensures |SetFirstStatus(s, id, st)| == |s|
    ensures forall j :: 0 <= j < |s| ==>
      SetFirstStatus(s, id, st)[j] ==
        if s[j].id == id && (forall i :: 0 <= i < j ==> s[i].id != id) then s[j].(status := st) else s[j]
    ensures (forall j :: 0 <= j < |s| ==> s[j].id != id) ==> SetFirstStatus(s, id, st) == s
  {
  }

  /** Looking the id up again finds the same issue, now with the new status; repeating the update changes nothing more. */
  lemma SetFirstStatusFound(s: seq<Issue>, id: string, st: Status)
    ensures FindIndex(SetFirstStatus(s, id, st), id) == FindIndex(s, id)
    ensures FindIndex(s, id).Some? ==> SetFirstStatus(s, id, st)[FindIndex(s, id).value].status == st
    ensures SetFirstStatus(SetFirstStatus(s, id, st), id, st) == SetFirstStatus(s, id, st)
  {
  }
}
