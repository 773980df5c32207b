# Civic Connect: a verified model of the dispatch and triage logic

Civic Connect is a browser client in which citizens report geotagged civic issues
(potholes, street lights, garbage, ...) and municipal staff triage them. The
`CivicConnectApp` object keeps the list of all issues and the list of the user's
own reports. Staff can filter them and see dashboard counters. They can change an
issue's status. A field worker can ask for the nearest unresolved issue or for
a greedy nearest-neighbour route through the open, non-Low issues. Reports get a
descriptive address from a small table of latitude/longitude boxes.

This project models that logic in Dafny and proves what it promises:

- `issues.dfy` (module `Issues`): the issue record, the coordinate bounds check,
  the department table, the marker colours, the `filter`-based admin list, map
  markers and route working set, the dashboard counts, and the first-by-id
  status rewrite.
- `regions.dfy` (module `Regions`): the location database and the first-box lookup
  of `generateDetailedAddress`. The random draw is a parameter `0 <= u < 1`, and
  the index is `Floor(u * |pool|)`, as in the code.
- `route.dfy` (module `RouteAdvisor`): the nearest-issue scan and the greedy route.
  `GreedyRoute` is the reference definition. `OptimizedRoute` is the loop that is
  proved equal to it, and lemmas show the route is a permutation and that each
  step goes to a nearest remaining issue with ties to the earliest.
- `app.dfy` (module `CivicConnect`): the application class. Its fields are
  `issues`, `userIssues`, the field worker's position and the distance function.
  Its methods are `FindNearestIssue`, `OptimizeRoute`, `UpdateStats` and
  `UpdateIssueStatus`.

The distance between two coordinates is an abstract total function to `real`.
The code computes it with the haversine formula. Any total function works for
every property here: a finite real distance always beats the initial `Infinity`,
so in the model a scan over a non-empty list always finds a winner.

Three points worth noting about the code:

- `updateIssueStatus` only looks in `userIssues` when `issues` contains the id
  (app.js:1539-1547). An id known only to `userIssues` changes nothing.
- The planner's working set is fixed: issues that are not Resolved and not of
  Low priority (app.js:619-621). There is no caller-supplied priority set.
- `calculateOptimizedRoute` returns only the ordered issues (app.js:635-668). It
  returns no per-leg or total distance. The total shown to the user comes from
  the routing service.

## Model

| member | source | states |
|---|---|---|
| `Issues.ValidCoordinate` | app.js:955-960 | accepted exactly when -90 <= lat <= 90 and -180 <= lng <= 180, bounds inclusive (bounds from app.js:38-41) |
| `Issues.Department` | app.js:1238-1252 | a listed issue type gets its table department (nothing in the table is empty); any other type gets General Services; the result is one of the seven departments |
| `Issues.MarkerColour` | app.js:343-351 | the result is one of the five palette colours, and it is the default grey exactly when the label is not Emergency, High, Medium or Low |
| `Issues.MarkerColourDistinguishesPriorities` | app.js:343-351 | each of the four priorities has its own colour, and none of them is grey |
| `Issues.Filter` | app.js:1446-1454 | `Array.prototype.filter`: no longer than the input; every kept element comes from the input and satisfies the condition; every input element that satisfies it is kept |
| `Issues.FilterCounts` | app.js:1446-1454 | an element is kept exactly as often as it occurs when it satisfies the condition, and dropped otherwise |
| `Issues.FilterConcat` | app.js:1446-1454 | filtering distributes over concatenation, so kept elements keep their input order |
| `Issues.FilterCompose` | app.js:1446-1454 | filtering twice equals filtering once by the conjunction of the two conditions |
| `Issues.FilterKeepsAll` | app.js:1446-1454 | a condition every element meets returns the list unchanged |
| `Issues.AdminIssues` | app.js:1446-1454 | the admin list is no longer than the issue list, and each listed issue has the selected status and the selected priority, where a selector is set |
| `Issues.AdminIssuesMatch` | app.js:1446-1454 | the admin list equals one filter by "status equals the selected status, if any, and priority equals the selected priority, if any", in input order |
| `Issues.AdminIssuesUnfiltered` | app.js:1446-1454 | with both selectors empty the admin list is the whole issue list |
| `Issues.MapIssues` | app.js:729-733 | the map markers are no more than the issues, none is Resolved, and each has the selected priority, where one is set |
| `Issues.MapIssuesMatch` | app.js:729-733 | the map markers are exactly the non-resolved issues with the selected priority (if any), in input order |
| `Issues.RouteWorkingSet` | app.js:619-621 | the working set is no larger than the issue list, and none of its issues is Resolved or of Low priority |
| `Issues.RouteWorkingSetMatch` | app.js:619-621 | the route working set holds each issue whose status is not Resolved and priority not Low, as often as in the input, and nothing else |
| `Issues.RouteWorkingSetEmpty` | app.js:619-626 | the working set is empty exactly when every issue is Resolved or of Low priority |
| `Issues.CountStatus` | app.js:1368-1370 | a status count is at most the number of issues, and it is zero exactly when no issue has that status |
| `Issues.Stats` | app.js:1366-1370 | total is the number of issues, and each of the resolved, pending and in-progress counters is at most the total |
| `Issues.StatusCountsPartition` | app.js:1366-1370 | the Submitted, Acknowledged, In Progress and Resolved counts add up to the total |
| `Issues.StatsBounded` | app.js:1366-1370 | resolved + pending + in-progress never exceeds total |
| `Issues.FindIndex` | app.js:1539 | `find` by id: none exactly when no issue has the id, otherwise the first index holding it |
| `Issues.SetFirstStatus` | app.js:1538-1548 | the rewrite keeps the length, and at every index the id, priority and location of the issue |
| `Issues.SetFirstStatusEffect` | app.js:1538-1548 | the length is kept; only the first issue with the id changes, and only its status; an unknown id changes nothing |
| `Issues.SetFirstStatusFound` | app.js:1538-1548 | after the update the id is found at the same place with the new status, and repeating the update changes nothing |
| `Regions.FirstRegion` | app.js:85-87 | none exactly when no box contains the point (inclusive bounds); otherwise the first box in table order that contains it |
| `Regions.PickIndex` | app.js:88 | `Math.floor(u * n)` with `0 <= u < 1` is a valid index into a pool of n addresses |
| `Regions.RegionAddressFromFirstBox` | app.js:84-99 | the fallback generic address is used exactly when no box contains the point; otherwise the address comes from the pool of the first containing box |
| `Regions.RegionAddress` | app.js:84-99 | the generic fallback is used exactly when no box contains the point; a regional address is one of the addresses of the first box containing it |
| `Regions.DetailedAddress` | app.js:84-99 | the early-return loop over the table returns the address the first-box lookup specifies, for the same random draw |
| `Regions.LocationDatabase` | app.js:49-81 | the table holds three boxes, each with a non-empty address pool |
| `Regions.DatabaseWithinBounds` | app.js:49-81 | every point inside a box of the table is a valid coordinate |
| `Regions.ChennaiBoxShadowed` | app.js:50-81 | the second box (lat 12.8-13.2, lng 80.1-80.3) lies inside the first, so it never matches first and none of its addresses is ever returned |
| `RouteAdvisor.FirstNearestUnique` | app.js:653-657 | at most one index is the first nearest (strict `<` scan) |
| `RouteAdvisor.FirstNearest` | app.js:645-661 | when some issue is eligible: it is eligible, no farther than any eligible issue, and strictly nearer than every eligible issue before it |
| `RouteAdvisor.ScanNearest` | app.js:564-579 | the scan with skip and strict `<` yields none exactly when nothing is eligible; otherwise the first index with the least distance |
| `RouteAdvisor.RemoveAt` | app.js:663 | `splice(k, 1)` shortens the list by one and removes exactly that element from its multiset |
| `RouteAdvisor.GreedyRoute` | app.js:635-668 | the greedy route has as many stops as there are issues (the definition the unfolding, permutation and nearest-step lemmas below are about) |
| `RouteAdvisor.GreedyRouteUnfold` | app.js:640-664 | a non-empty route starts at the first nearest issue and continues greedily from it over the rest |
| `RouteAdvisor.GreedyRoutePermutation` | app.js:635-668 | the route is a permutation of its input: same length, each issue exactly as often as in the input |
| `RouteAdvisor.FirstStepIsNearest` | app.js:645-663 | the first stop is no farther from the start than any issue |
| `RouteAdvisor.GreedyStepIsNearest` | app.js:640-663 | step i visits an issue not yet visited, no farther from the previous stop (or the start) than every other unvisited issue |
| `RouteAdvisor.EqualDistancesPickFirst` | app.js:655-659 | with all distances equal the scan keeps the first candidate |
| `RouteAdvisor.EqualDistancesKeepOrder` | app.js:640-664 | with all distances equal the route is the input order (ties go to the earliest at every step) |
| `RouteAdvisor.OneStop` | app.js:640-664 | a single issue is a one-stop route |
| `RouteAdvisor.TwoStopsKeepOrder` | app.js:640-664 | of two issues the nearer, or on a tie the earlier, goes first |
| `RouteAdvisor.TwoStopsSwap` | app.js:640-664 | of two issues a strictly nearer second one goes first |
| `RouteAdvisor.ThreeStopOrder` | app.js:640-664 | a nearest first stop followed by the stop nearer to it gives the order first, third, second |
| `RouteAdvisor.OptimizedRoute` | app.js:635-668 | no worker position gives an empty route; otherwise the loop returns the greedy route, a permutation of the input |
| `CivicConnect.CivicConnectApp.constructor` | app.js:2-46 | starts from the stored issue lists with no field worker position |
| `CivicConnect.CivicConnectApp.FindNearestIssue` | app.js:557-595 | no worker position asks for one; "none found" exactly when every issue is Resolved; otherwise the first nearest unresolved issue |
| `CivicConnect.CivicConnectApp.OptimizeRoute` | app.js:613-631 | no position and an empty working set are reported as errors; otherwise the planned route is the greedy route over the working set, non-empty and a permutation of it |
| `CivicConnect.CivicConnectApp.UpdateStats` | app.js:1366-1370 | the counters are those of the issue list, total is its length, and resolved + pending + in-progress <= total |
| `CivicConnect.CivicConnectApp.UpdateIssueStatus` | app.js:1538-1548 | `issues` gets the first-by-id rewrite; `userIssues` gets it only when `issues` holds the id; the worker position is unchanged |
| `CivicConnect.DispatchScenario` | app.js:619-664 | with A High and nearest, B Low, C Emergency next: the full list is visited A, C, B; the working set is A, C; the plan visits A then C |

## Left out

- Haversine `calculateDistance` and `degToRad` (app.js:597-611): floating-point trigonometry. Distance is an abstract total function to `real`. Symmetry, zero distance and the 20015 km bound are not modelled.
- NaN or infinite distances: the model's reals are finite and totally ordered. In the code a NaN distance would leave `nearestIssue` null, and `calculateOptimizedRoute` would then loop forever. The model has no such branch.
- Coordinates are reals, not IEEE doubles. NaN does reach `validateCoordinateValues`: `useManualLocation` (app.js:903-912) passes the `parseFloat` results without a NaN check. The code rejects NaN there only because every comparison with NaN is false (app.js:955-960). Reals have no NaN, so `Issues.ValidCoordinate` has no such input.
- The generic random addresses (app.js:93-118) are out of scope: they are random strings. `Regions.DetailedAddress` returns `Generic` in their place.
- The Leaflet map, markers, popups and the routing-service control (`calculateRoute`, `showOptimizedRoute`, `getDirectionsToIssue`): a foreign library and a network service. Only the values these calls consume are modelled.
- Geolocation (`getFieldWorkerLocation`, `watchPosition`), photo reading, timers and `Date`-based ids and timestamps: browser I/O. The worker position is a field of the class, and nothing in the model sets it.
- `localStorage` save and load and JSON parsing (app.js:1256-1290): persistence I/O. The constructor takes the stored lists as parameters.
- Charts, HTML templates, modals, tab switching and the success and error messages: UI. The messages are outcome constructors of `NearestOutcome` and `RouteOutcome`.
- `openInMapsApp`: depends on user-agent sniffing and `window.open`.
- Object identity: issues are values. A report pushed to both lists is one shared object in the code (app.js:1199-1200). The model updates both lists by id, which has the same effect when ids are unique; it differs only if ids repeat.
- Issue fields that none of the modelled operations reads or writes (type, title, description, department, photo, reporter, timestamps) are not part of the `Issue` record. `Issues.Department` takes the issue type as its argument instead.
- Status values outside Submitted, Acknowledged, In Progress and Resolved, and priorities outside the four known ones: records with other labels are not modelled. `Issues.MarkerColour` does take any label string, so its default branch is covered.
- Issues.Department: keys inherited from JavaScript's object prototype (such as "constructor") are not modelled; such an issue type is treated as unlisted.
