/** What is reported of the circles of a fence for a moving point (`geofence.go`). */
module Geofences {
  import opened BestFirst

  datatype Circle = Circle(key: string, lat: real, lon: real, radius: real)
  datatype QueryPoint = QueryPoint(lat: real, lon: real)
  datatype FenceStatus = INSIDE | OUTSIDE | ENTER | EXIT | CROSS
  datatype FenceStatusObj = FenceStatusObj(status: FenceStatus, fence: Circle)

  /** Geometry is a parameter: whether a circle contains a point, and whether a line crosses it. */
  type Contains = (Circle, QueryPoint) -> bool
  type Crosses = (Circle, QueryPoint, QueryPoint) -> bool

  /** The latitude that stands for a point never seen before. */
  const UNSEEN := -999.0

  function OldStatus(contains: Contains, c: Circle, prev: QueryPoint): FenceStatus {
    if prev.lat != UNSEEN && contains(c, prev) then INSIDE else OUTSIDE
  }

  function NewStatus(contains: Contains, c: Circle, p: QueryPoint): FenceStatus {
    if contains(c, p) then INSIDE else OUTSIDE
  }

  /** `appendNewFenceStatus`: what one circle adds to the results. */
  function StatusesOf(contains: Contains, crosses: Crosses, c: Circle, prev: QueryPoint,
                      p: QueryPoint): seq<FenceStatusObj> {
    match (OldStatus(contains, c, prev), NewStatus(contains, c, p))
    case (INSIDE, INSIDE) => [FenceStatusObj(INSIDE, c)]
    case (INSIDE, _) => [FenceStatusObj(EXIT, c), FenceStatusObj(OUTSIDE, c)]
    case (_, INSIDE) => [FenceStatusObj(ENTER, c), FenceStatusObj(INSIDE, c)]
    case (_, _) => if crosses(c, prev, p) then [FenceStatusObj(CROSS, c)] else [FenceStatusObj(OUTSIDE, c)]
  }

  function AllStatuses(contains: Contains, crosses: Crosses, cs: seq<Circle>, prev: QueryPoint,
                       p: QueryPoint): seq<FenceStatusObj> {
    if cs == [] then [] else
    AllStatuses(contains, crosses, cs[..|cs| - 1], prev, p) + StatusesOf(contains, crosses, cs[|cs| - 1], prev, p)
  }

  // ----- what is reported, from the geometry alone -----

  /** Whether the status is due for the circle. A point that was never seen was not inside. */
  ghost predicate Due(status: FenceStatus, c: Circle, contains: Contains, crosses: Crosses, prev: QueryPoint,
                      p: QueryPoint) {
    var (was, now) := (prev.lat != -999.0 && contains(c, prev), contains(c, p));
    match status
    case INSIDE => now
    case ENTER => now && !was
    case EXIT => was && !now
    case CROSS => !was && !now && crosses(c, prev, p)
    case OUTSIDE => !now && (was || !crosses(c, prev, p))
  }

  /** EXIT comes before OUTSIDE and ENTER before INSIDE, and the circles keep their order. */
  ghost predicate Follows(a: FenceStatusObj, b: FenceStatusObj, cs: seq<Circle>) {
    (a.fence == b.fence && ((a.status == EXIT && b.status == OUTSIDE) || (a.status == ENTER && b.status == INSIDE))) ||
    exists k, l :: 0 <= k < l < |cs| && cs[k] == a.fence && cs[l] == b.fence
  }

  /** For each of the circles exactly the statuses that are due, each once and in order, and nothing else. */
  ghost predicate RightResults(results: seq<FenceStatusObj>, cs: seq<Circle>, contains: Contains, crosses: Crosses,
                               prev: QueryPoint, p: QueryPoint) {
    (forall o :: o in results ==> o.fence in cs) &&
    (forall c, status :: c in cs ==>
      (FenceStatusObj(status, c) in results <==> Due(status, c, contains, crosses, prev, p))) &&
    forall i, j :: 0 <= i < j < |results| ==> Follows(results[i], results[j], cs)
  }

  lemma OneIsRight(contains: Contains, crosses: Crosses, c: Circle, prev: QueryPoint, p: QueryPoint)
    ensures RightResults(StatusesOf(contains, crosses, c, prev, p), [c], contains, crosses, prev, p)
  {
    var results := StatusesOf(contains, crosses, c, prev, p);
    assert forall o :: o in results ==> o == results[0] || (|results| == 2 && o == results[1]);
    assert results[0] in results && (|results| == 2 ==> results[1] in results);
  }

  lemma BothAreRight(a: seq<FenceStatusObj>, b: seq<FenceStatusObj>, cs: seq<Circle>, c: Circle, contains: Contains,
                     crosses: Crosses, prev: QueryPoint, p: QueryPoint)
    requires RightResults(a, cs, contains, crosses, prev, p) && RightResults(b, [c], contains, crosses, prev, p)
    requires c !in cs
    ensures RightResults(a + b, cs + [c], contains, crosses, prev, p)
  {
    hide Due;
    var all := cs + [c];
    forall o | o in a + b
      ensures o.fence in all
    {
      assert o in a || o in b;
    }
    forall d, status | d in all
      ensures FenceStatusObj(status, d) in a + b <==> Due(status, d, contains, crosses, prev, p)
    {
      if d in cs {
        assert FenceStatusObj(status, d) !in b;
      } else {
        assert FenceStatusObj(status, d) !in a;
      }
    }
    forall i, j | 0 <= i < j < |a + b|
      ensures Follows((a + b)[i], (a + b)[j], all)
    {
      BothFollow(a, b, cs, c, i, j);
    }
  }

  lemma BothFollow(a: seq<FenceStatusObj>, b: seq<FenceStatusObj>, cs: seq<Circle>, c: Circle, i: nat, j: nat)
    requires (forall o :: o in a ==> o.fence in cs) && (forall o :: o in b ==> o.fence == c)
    requires forall i, j :: 0 <= i < j < |a| ==> Follows(a[i], a[j], cs)
    requires forall i, j :: 0 <= i < j < |b| ==> Follows(b[i], b[j], [c])
    requires i < j < |a + b|
    ensures Follows((a + b)[i], (a + b)[j], cs + [c])
  {
    var (x, y) := ((a + b)[i], (a + b)[j]);
    if j < |a| {
      assert Follows(x, y, cs);
      if k, l :| 0 <= k < l < |cs| && cs[k] == x.fence && cs[l] == y.fence {
        assert (cs + [c])[k] == x.fence && (cs + [c])[l] == y.fence;
      }
    } else if i < |a| {
      assert x in a && y in b;
      var k :| 0 <= k < |cs| && cs[k] == x.fence;
      assert (cs + [c])[k] == x.fence && (cs + [c])[|cs|] == y.fence;
    } else {
      assert Follows(b[i - |a|], b[j - |a|], [c]);
    }
  }

  /** The results are what is due for the circles. */
  lemma {:induction false} StatusesAreRight(contains: Contains, crosses: Crosses, cs: seq<Circle>, prev: QueryPoint,
                                            p: QueryPoint)
    requires forall j, k :: 0 <= j < k < |cs| ==> cs[j] != cs[k]
    ensures RightResults(AllStatuses(contains, crosses, cs, prev, p), cs, contains, crosses, prev, p)
  {
    if cs != [] {
      hide RightResults, StatusesOf;
      var n := |cs| - 1;
      StatusesAreRight(contains, crosses, cs[..n], prev, p);
      OneIsRight(contains, crosses, cs[n], prev, p);
      assert cs == cs[..n] + [cs[n]];
      BothAreRight(AllStatuses(contains, crosses, cs[..n], prev, p), StatusesOf(contains, crosses, cs[n], prev, p),
                   cs[..n], cs[n], contains, crosses, prev, p);
    }
  }

  lemma NearStatusesAreRight(contains: Contains, crosses: Crosses, fence: map<string, Circle>, nearby: seq<string>,
                             prev: QueryPoint, p: QueryPoint)
    requires Nearby(nearby, fence) && KeysMatch(fence)
    ensures var cs := CirclesOf(fence, nearby);
      RightResults(AllStatuses(contains, crosses, cs, prev, p), cs, contains, crosses, prev, p)
  {
    hide RightResults, AllStatuses;
    var cs := CirclesOf(fence, nearby);
    assert forall i :: 0 <= i < |cs| ==> cs[i].key == nearby[i];
    StatusesAreRight(contains, crosses, cs, prev, p);
  }

  function Before(points: map<string, QueryPoint>, id: string): QueryPoint {
    if id in points then points[id] else QueryPoint(UNSEEN, UNSEEN)
  }

  function CirclesOf(fence: map<string, Circle>, nearby: seq<string>): (cs: seq<Circle>)
    requires forall k :: 0 <= k < |nearby| ==> nearby[k] in fence
    ensures |cs| == |nearby| && forall k :: 0 <= k < |nearby| ==> cs[k] == fence[nearby[k]]
  {
    seq(|nearby|, i requires 0 <= i < |nearby| => fence[nearby[i]])
  }

  function PointOf(p: QueryPoint): Point {
    Point(p.lat, p.lon)
  }

  function Centre(c: Circle): Point {
    Point(c.lat, c.lon)
  }

  /** Keys of different circles of the fence. */
  ghost predicate Nearby(nearby: seq<string>, fence: map<string, Circle>) {
    (forall k :: 0 <= k < |nearby| ==> nearby[k] in fence) &&
    forall j, k :: 0 <= j < k < |nearby| ==> nearby[j] != nearby[k]
  }

  /** The keys of the three nearest centres, or of all if there are no more: in order of distance, and no
      other circle is nearer. The order is promised for a distance that grows outward and circles whose
      radius is not negative, because it rests on their boxes. */
  ghost predicate ThreeNearest(nearby: seq<string>, fence: map<string, Circle>, metric: Metric, p: QueryPoint) {
    Nearby(nearby, fence) && |nearby| == (if |fence| < 3 then |fence| else 3) &&
    (GrowsOutward(metric) && (forall key :: key in fence ==> fence[key].radius >= 0.0) ==>
      InOrder(nearby, fence, metric, p))
  }

  ghost predicate InOrder(nearby: seq<string>, fence: map<string, Circle>, metric: Metric, p: QueryPoint)
    requires Nearby(nearby, fence)
  {
    (forall j, k :: 0 <= j < k < |nearby| ==>
      metric(PointOf(p), Centre(fence[nearby[j]])) <= metric(PointOf(p), Centre(fence[nearby[k]]))) &&
    forall key, j :: key in fence && key !in nearby && 0 <= j < |nearby| ==>
      metric(PointOf(p), Centre(fence[nearby[j]])) <= metric(PointOf(p), Centre(fence[key]))
  }

  ghost predicate NearestAlong(orders: seq<seq<string>>, fence: map<string, Circle>, metric: Metric,
                               path: seq<QueryPoint>) {
    |orders| == |path| && forall i :: 0 <= i < |path| ==> ThreeNearest(orders[i], fence, metric, path[i])
  }

  lemma {:induction false} NearbyCount(nearby: seq<string>)
    requires forall j, k :: 0 <= j < k < |nearby| ==> nearby[j] != nearby[k]
    ensures |set key | key in nearby| == |nearby|
  {
    if nearby != [] {
      var n := |nearby| - 1;
      NearbyCount(nearby[..n]);
      assert nearby == nearby[..n] + [nearby[n]];
      assert (set key | key in nearby) == (set key | key in nearby[..n]) + {nearby[n]};
    }
  }

  /** Each of at most three circles is among the nearest. */
  lemma FewAreNear(nearby: seq<string>, fence: map<string, Circle>)
    requires Nearby(nearby, fence) && |nearby| == |fence|
    ensures forall key :: key in fence ==> key in nearby
  {
    var keys := set key | key in nearby;
    NearbyCount(nearby);
    assert keys <= fence.Keys && |fence.Keys| == |fence|;
    assert fence.Keys == keys + (fence.Keys - keys);
    assert |fence.Keys - keys| == 0;
  }

  /** Circles are stored under their own keys. */
  ghost predicate KeysMatch(fence: map<string, Circle>) {
    forall key :: key in fence ==> fence[key].key == key
  }

  // ----- the ENTER and EXIT reports of one circle -----

  function ReportIn(results: seq<FenceStatusObj>, c: Circle): seq<FenceStatus> {
    if results == [] then [] else
    var last := results[|results| - 1];
    ReportIn(results[..|results| - 1], c) +
    (if last.fence == c && (last.status == ENTER || last.status == EXIT) then [last.status] else [])
  }

  function ReportsIn(all: seq<seq<FenceStatusObj>>, c: Circle): seq<FenceStatus> {
    if all == [] then [] else ReportsIn(all[..|all| - 1], c) + ReportIn(all[|all| - 1], c)
  }

  /** What one move reports for a circle. */
  function ReportOf(contains: Contains, c: Circle, prev: QueryPoint, p: QueryPoint): seq<FenceStatus> {
    var (was, now) := (OldStatus(contains, c, prev), NewStatus(contains, c, p));
    if was == OUTSIDE && now == INSIDE then [ENTER] else if was == INSIDE && now == OUTSIDE then [EXIT] else []
  }

  /** What the `n`-th move of a path reports. */
  function Move(contains: Contains, c: Circle, path: seq<QueryPoint>, n: nat): seq<FenceStatus>
    requires n < |path|
  {
    ReportOf(contains, c, if n == 0 then QueryPoint(UNSEEN, UNSEEN) else path[n - 1], path[n])
  }

  function Reports(contains: Contains, c: Circle, path: seq<QueryPoint>): seq<FenceStatus> {
    if path == [] then [] else
    Reports(contains, c, path[..|path| - 1]) + Move(contains, c, path, |path| - 1)
  }

  /** A circle is reported on only when it is among the nearest. */
  function ReportsNear(contains: Contains, c: Circle, path: seq<QueryPoint>, orders: seq<seq<string>>): seq<FenceStatus>
    requires |orders| == |path|
  {
    if path == [] then [] else
    var n := |path| - 1;
    ReportsNear(contains, c, path[..n], orders[..n]) + if c.key in orders[n] then Move(contains, c, path, n) else []
  }

  /** The changes that are not reported, because the circle is not among the nearest. */
  function Missed(contains: Contains, c: Circle, path: seq<QueryPoint>, orders: seq<seq<string>>): nat
    requires |orders| == |path|
  {
    if path == [] then 0 else
    var n := |path| - 1;
    Missed(contains, c, path[..n], orders[..n]) +
    if c.key !in orders[n] && Move(contains, c, path, n) != [] then 1 else 0
  }

  lemma {:induction false} ReportedOrMissed(contains: Contains, c: Circle, path: seq<QueryPoint>,
                                            orders: seq<seq<string>>)
    requires |orders| == |path|
    ensures |Reports(contains, c, path)| == |ReportsNear(contains, c, path, orders)| + Missed(contains, c, path, orders)
  {
    if path != [] {
      ReportedOrMissed(contains, c, path[..|path| - 1], orders[..|path| - 1]);
    }
  }

  /** A circle that always is gets all reports of the path. */
  lemma {:induction false} AlwaysNear(contains: Contains, c: Circle, path: seq<QueryPoint>, orders: seq<seq<string>>)
    requires |orders| == |path| && forall i :: 0 <= i < |orders| ==> c.key in orders[i]
    ensures ReportsNear(contains, c, path, orders) == Reports(contains, c, path)
  {
    if path != [] {
      var n := |path| - 1;
      AlwaysNear(contains, c, path[..n], orders[..n]);
    }
  }

  lemma {:induction false} ReportInBoth(a: seq<FenceStatusObj>, b: seq<FenceStatusObj>, c: Circle)
    ensures ReportIn(a + b, c) == ReportIn(a, c) + ReportIn(b, c)
  {
    if b == [] {
      assert a + b == a && ReportIn(a, c) + [] == ReportIn(a, c);
    } else {
      assert (a + b)[..|a + b| - 1] == a + b[..|b| - 1];
      ReportInBoth(a, b[..|b| - 1], c);
    }
  }

  lemma OneCircle(contains: Contains, crosses: Crosses, d: Circle, c: Circle, prev: QueryPoint, p: QueryPoint)
    ensures ReportIn(StatusesOf(contains, crosses, d, prev, p), c) ==
      if d == c then ReportOf(contains, c, prev, p) else []
  {
    var s := StatusesOf(contains, crosses, d, prev, p);
    if |s| == 2 {
      ReportInTwo(s[0], s[1], c);
    } else {
      ReportInOne(s[0], c);
    }
  }

  lemma ReportInOne(a: FenceStatusObj, c: Circle)
    ensures ReportIn([a], c) == if a.fence == c && (a.status == ENTER || a.status == EXIT) then [a.status] else []
  {
    assert [a][..0] == [];
  }

  lemma ReportInTwo(a: FenceStatusObj, b: FenceStatusObj, c: Circle)
    ensures ReportIn([a, b], c) == ReportIn([a], c) + ReportIn([b], c)
  {
    assert [a, b] == [a] + [b];
    ReportInBoth([a], [b], c);
  }

  lemma EitherSide(a: seq<FenceStatus>, b: seq<FenceStatus>, r: seq<FenceStatus>, before: bool, last: bool)
    requires a == (if before then r else []) && b == (if last then r else []) && !(before && last)
    ensures a + b == if before || last then r else []
  {
  }

  lemma LastOrBefore(cs: seq<Circle>, c: Circle)
    requires cs != [] && forall j, k :: 0 <= j < k < |cs| ==> cs[j] != cs[k]
    ensures c in cs <==> c in cs[..|cs| - 1] || c == cs[|cs| - 1]
    ensures !(c in cs[..|cs| - 1] && c == cs[|cs| - 1])
  {
    assert cs == cs[..|cs| - 1] + [cs[|cs| - 1]];
  }

  lemma NoStatuses(contains: Contains, crosses: Crosses, c: Circle, prev: QueryPoint, p: QueryPoint)
    ensures ReportIn(AllStatuses(contains, crosses, [], prev, p), c) == []
  {
  }

  lemma MoreStatuses(contains: Contains, crosses: Crosses, cs: seq<Circle>, prev: QueryPoint, p: QueryPoint)
    requires cs != []
    ensures AllStatuses(contains, crosses, cs, prev, p) ==
      AllStatuses(contains, crosses, cs[..|cs| - 1], prev, p) + StatusesOf(contains, crosses, cs[|cs| - 1], prev, p)
  {
  }

  lemma {:induction false} CircleReports(contains: Contains, crosses: Crosses, cs: seq<Circle>, c: Circle,
                                         prev: QueryPoint, p: QueryPoint)
    requires forall j, k :: 0 <= j < k < |cs| ==> cs[j] != cs[k]
    ensures ReportIn(AllStatuses(contains, crosses, cs, prev, p), c) ==
      if c in cs then ReportOf(contains, c, prev, p) else []
  {
    hide StatusesOf, ReportOf, AllStatuses, ReportIn;
    if cs == [] {
      NoStatuses(contains, crosses, c, prev, p);
    } else {
      var n := |cs| - 1;
      MoreStatuses(contains, crosses, cs, prev, p);
      CircleReports(contains, crosses, cs[..n], c, prev, p);
      ReportInBoth(AllStatuses(contains, crosses, cs[..n], prev, p), StatusesOf(contains, crosses, cs[n], prev, p), c);
      OneCircle(contains, crosses, cs[n], c, prev, p);
      LastOrBefore(cs, c);
      EitherSide(ReportIn(AllStatuses(contains, crosses, cs[..n], prev, p), c),
                 ReportIn(StatusesOf(contains, crosses, cs[n], prev, p), c),
                 ReportOf(contains, c, prev, p), c in cs[..n], c == cs[n]);
    }
  }

  lemma OneReport(contains: Contains, crosses: Crosses, fence: map<string, Circle>, nearby: seq<string>, c: Circle,
                  prev: QueryPoint, p: QueryPoint)
    requires Nearby(nearby, fence) && KeysMatch(fence) && c.key in fence && fence[c.key] == c
    ensures ReportIn(AllStatuses(contains, crosses, CirclesOf(fence, nearby), prev, p), c) ==
      if c.key in nearby then ReportOf(contains, c, prev, p) else []
  {
    var cs := CirclesOf(fence, nearby);
    assert c.key in nearby ==> c in cs by {
      if k :| 0 <= k < |nearby| && nearby[k] == c.key {
        assert cs[k] == c;
      }
    }
    forall i | 0 <= i < |cs|
      ensures cs[i].key == nearby[i]
    {
    }
    assert forall i, j :: 0 <= i < j < |cs| ==> cs[i] != cs[j];
    CircleReports(contains, crosses, cs, c, prev, p);
  }

  // ----- alternation -----

  /** ENTER, EXIT, ENTER, ... */
  ghost predicate Alternates(rs: seq<FenceStatus>) {
    forall k :: 0 <= k < |rs| ==> rs[k] == if k % 2 == 0 then ENTER else EXIT
  }

  /** A point at the sentinel latitude inside the circle, and a later point inside. */
  ghost predicate Forgotten(contains: Contains, c: Circle, path: seq<QueryPoint>) {
    exists j, k :: 0 <= j < k < |path| && path[j].lat == UNSEEN && contains(c, path[j]) && contains(c, path[k])
  }

  ghost predicate SentinelInside(contains: Contains, c: Circle, path: seq<QueryPoint>) {
    exists j :: 0 <= j < |path| && path[j].lat == UNSEEN && contains(c, path[j])
  }

  /** Along a path the reports alternate, and an odd number of them means inside. */
  lemma {:induction false} ReportsAlternate(contains: Contains, c: Circle, path: seq<QueryPoint>)
    requires !Forgotten(contains, c, path)
    ensures Alternates(Reports(contains, c, path))
    ensures SentinelInside(contains, c, path) ==> |Reports(contains, c, path)| % 2 == 1
    ensures !SentinelInside(contains, c, path) && path != [] ==>
      (|Reports(contains, c, path)| % 2 == 1 <==> contains(c, path[|path| - 1]))
    ensures path == [] ==> |Reports(contains, c, path)| == 0
  {
    if path != [] {
      var n := |path| - 1;
      assert forall j :: 0 <= j < n ==> path[..n][j] == path[j];
      assert SentinelInside(contains, c, path) <==>
        SentinelInside(contains, c, path[..n]) || (path[n].lat == UNSEEN && contains(c, path[n]));
      ReportsAlternate(contains, c, path[..n]);
      if SentinelInside(contains, c, path[..n]) {
        var j :| 0 <= j < n && path[..n][j].lat == UNSEEN && contains(c, path[..n][j]);
        assert path[j].lat == UNSEEN && contains(c, path[j]);
      }
    }
  }

  lemma {:induction false} ReportsGrow(contains: Contains, c: Circle, path: seq<QueryPoint>, n: nat)
    requires n <= |path|
    ensures |Reports(contains, c, path[..n])| <= |Reports(contains, c, path)|
    ensures Reports(contains, c, path)[..|Reports(contains, c, path[..n])|] == Reports(contains, c, path[..n])
  {
    if n < |path| {
      var m := |path| - 1;
      ReportsGrow(contains, c, path[..m], n);
      assert path[..m][..n] == path[..n];
      var (a, b, r) := (Reports(contains, c, path[..n]), Reports(contains, c, path[..m]), Reports(contains, c, path));
      PrefixOfPrefix(a, b, r);
    } else {
      assert path[..n] == path;
    }
  }

  lemma PrefixOfPrefix(a: seq<FenceStatus>, b: seq<FenceStatus>, r: seq<FenceStatus>)
    requires |a| <= |b| <= |r| && b[..|a|] == a && r[..|b|] == b
    ensures r[..|a|] == a
  {
    assert r[..|b|][..|a|] == r[..|a|];
  }

  /** No two points of the path inside the circle, the first at the sentinel latitude, when the first
      such pair is cut off. */
  lemma {:induction false} FirstForgotten(contains: Contains, c: Circle, path: seq<QueryPoint>) returns (n: nat)
    requires Forgotten(contains, c, path)
    ensures n < |path| && contains(c, path[n]) && !Forgotten(contains, c, path[..n]) &&
      SentinelInside(contains, c, path[..n])
    decreases |path|
  {
    var j, k :| 0 <= j < k < |path| && path[j].lat == UNSEEN && contains(c, path[j]) && contains(c, path[k]);
    if Forgotten(contains, c, path[..k]) {
      n := FirstForgotten(contains, c, path[..k]);
      assert path[..k][..n] == path[..n];
    } else {
      n := k;
      assert path[..k][j] == path[j];
    }
  }

  /** ENTER and EXIT of a circle strictly alternate, starting with ENTER, exactly when no point at
      latitude -999 inside the circle is followed by another point inside it. */
  lemma AlternatesIff(contains: Contains, c: Circle, path: seq<QueryPoint>)
    ensures Alternates(Reports(contains, c, path)) <==> !Forgotten(contains, c, path)
  {
    if Forgotten(contains, c, path) {
      var n := FirstForgotten(contains, c, path);
      ReportsAlternate(contains, c, path[..n]);
      EntersAgain(contains, c, path, n);
    } else {
      ReportsAlternate(contains, c, path);
    }
  }

  lemma EntersAgain(contains: Contains, c: Circle, path: seq<QueryPoint>, n: nat)
    requires n < |path| && contains(c, path[n]) && !Forgotten(contains, c, path[..n]) &&
      SentinelInside(contains, c, path[..n])
    requires |Reports(contains, c, path[..n])| % 2 == 1
    ensures !Alternates(Reports(contains, c, path))
  {
    var j :| 0 <= j < n && path[..n][j].lat == UNSEEN && contains(c, path[..n][j]);
    var (before, after, all) := (Reports(contains, c, path[..n]), Reports(contains, c, path[..n + 1]),
                                 Reports(contains, c, path));
    assert path[..n + 1][..n] == path[..n];
    assert path[..n][n - 1] == path[n - 1];
    assert path[n - 1].lat == UNSEEN || !contains(c, path[n - 1]);
    assert after == before + [ENTER];
    ReportsGrow(contains, c, path, n + 1);
    assert all[|before|] == after[|before|] == ENTER;
  }

  /** So they alternate for every path of real latitudes, and two searches at latitude -999 break it. */
  lemma RealLatitudesAlternate(contains: Contains, c: Circle, path: seq<QueryPoint>)
    requires forall k :: 0 <= k < |path| ==> path[k].lat != UNSEEN
    ensures Alternates(Reports(contains, c, path))
  {
    ReportsAlternate(contains, c, path);
  }

  // ----- circles that are not always among the nearest -----

  /** At the moves where a circle is near and changes, an even number of earlier changes was missed. */
  ghost predicate MissedEven(contains: Contains, c: Circle, path: seq<QueryPoint>, orders: seq<seq<string>>)
    requires |orders| == |path|
  {
    forall n :: 0 <= n < |path| && c.key in orders[n] && Move(contains, c, path, n) != [] ==>
      Missed(contains, c, path[..n], orders[..n]) % 2 == 0
  }

  /** The reports of a circle alternate if and only if each of them comes after an even number of missed
      changes, for every path on which all changes together alternate. */
  lemma {:induction false} NearAlternatesIff(contains: Contains, c: Circle, path: seq<QueryPoint>,
                                             orders: seq<seq<string>>)
    requires |orders| == |path| && !Forgotten(contains, c, path)
    ensures Alternates(ReportsNear(contains, c, path, orders)) <==> MissedEven(contains, c, path, orders)
  {
    hide Reports, ReportsNear, Missed, Move, MissedEven, Alternates, Forgotten, SentinelInside;
    if path == [] {
      NoMoves(contains, c, path, orders);
    } else {
      var n := |path| - 1;
      var (front, near) := (path[..n], orders[..n]);
      StillRemembered(contains, c, path);
      NearAlternatesIff(contains, c, front, near);
      MissedEvenMore(contains, c, path, orders);
      ReportedOrMissed(contains, c, front, near);
      ReportsAlternate(contains, c, path);
      OneMoreMove(contains, c, path, orders);
      NearStep(Reports(contains, c, front), ReportsNear(contains, c, front, near), Move(contains, c, path, n),
               Missed(contains, c, front, near), c.key in orders[n]);
    }
  }

  lemma NoMoves(contains: Contains, c: Circle, path: seq<QueryPoint>, orders: seq<seq<string>>)
    requires |orders| == |path| == 0
    ensures Alternates(ReportsNear(contains, c, path, orders)) && MissedEven(contains, c, path, orders)
  {
  }

  lemma StillRemembered(contains: Contains, c: Circle, path: seq<QueryPoint>)
    requires path != [] && !Forgotten(contains, c, path)
    ensures !Forgotten(contains, c, path[..|path| - 1])
  {
    assert forall j :: 0 <= j < |path| - 1 ==> path[..|path| - 1][j] == path[j];
  }

  lemma OneMoreMove(contains: Contains, c: Circle, path: seq<QueryPoint>, orders: seq<seq<string>>)
    requires |orders| == |path| != 0
    ensures var n := |path| - 1;
      var move := Move(contains, c, path, n);
      |move| <= 1 && Reports(contains, c, path) == Reports(contains, c, path[..n]) + move &&
      ReportsNear(contains, c, path, orders) ==
        ReportsNear(contains, c, path[..n], orders[..n]) + if c.key in orders[n] then move else []
  {
  }

  /** One move: the change is an ENTER if an even number of changes came before, `missed` of them unreported. */
  lemma NearStep(all: seq<FenceStatus>, some: seq<FenceStatus>, move: seq<FenceStatus>, missed: nat, near: bool)
    requires Alternates(all + move) && |all| == |some| + missed && |move| <= 1
    ensures Alternates(some + if near then move else []) <==>
      Alternates(some) && (near && move != [] ==> missed % 2 == 0)
  {
    if near && move != [] {
      assert (all + move)[|all|] == move[0] && move == [move[0]];
      AlternatesMore(some, move[0]);
    } else {
      assert some + [] == some;
    }
  }

  lemma AlternatesMore(rs: seq<FenceStatus>, r: FenceStatus)
    ensures Alternates(rs + [r]) <==> Alternates(rs) && r == if |rs| % 2 == 0 then ENTER else EXIT
  {
    var all := rs + [r];
    assert all[|rs|] == r && forall k :: 0 <= k < |rs| ==> all[k] == rs[k];
  }

  lemma MissedEvenMore(contains: Contains, c: Circle, path: seq<QueryPoint>, orders: seq<seq<string>>)
    requires |orders| == |path| != 0
    ensures var n := |path| - 1;
      MissedEven(contains, c, path, orders) <==>
        MissedEven(contains, c, path[..n], orders[..n]) &&
        (c.key in orders[n] && Move(contains, c, path, n) != [] ==>
         Missed(contains, c, path[..n], orders[..n]) % 2 == 0)
  {
    var n := |path| - 1;
    forall k | 0 <= k < n
      ensures path[..n][..k] == path[..k] && orders[..n][..k] == orders[..k] && orders[..n][k] == orders[k]
      ensures Move(contains, c, path[..n], k) == Move(contains, c, path, k)
    {
    }
  }

  /** The point is at most the radius away. */
  predicate Within(c: Circle, p: QueryPoint) {
    PlanarSquared(PointOf(p), Centre(c)) <= c.radius * c.radius
  }

  /** Four circles, one of them far from the others. */
  const FOUR: map<string, Circle> :=
    map["a" := Circle("a", 0.0, 0.0, 1.0), "b" := Circle("b", 10.0, 0.0, 1.0), "c" := Circle("c", 10.0, 1.0, 1.0),
        "d" := Circle("d", 10.0, 2.0, 1.0)]

  lemma NearestOfFour(nearby: seq<string>, fence: map<string, Circle>, p: QueryPoint, key: string)
    requires ThreeNearest(nearby, fence, PlanarSquared, p) && |fence| == 4 && key in fence
    requires forall k :: k in fence ==> fence[k].radius >= 0.0
    ensures (forall k :: k in fence && k != key ==>
              PlanarSquared(PointOf(p), Centre(fence[key])) < PlanarSquared(PointOf(p), Centre(fence[k]))) ==>
      key in nearby
    ensures (forall k :: k in fence && k != key ==>
              PlanarSquared(PointOf(p), Centre(fence[k])) < PlanarSquared(PointOf(p), Centre(fence[key]))) ==>
      key !in nearby
  {
    PlanarGrowsOutward();
    hide PlanarSquared, GrowsOutward;
    assert InOrder(nearby, fence, PlanarSquared, p);
    assert nearby[0] in fence;
    if j :| 0 <= j < |nearby| && nearby[j] == key {
      var keys := set k | k in nearby;
      NearbyCount(nearby);
      assert keys <= fence.Keys && fence.Keys == keys + (fence.Keys - keys);
      var other :| other in fence.Keys - keys;
      assert other in fence && other !in nearby && other != key;
    }
  }

  lemma DistancesOfFour(key: string)
    requires key in FOUR && key != "a"
    ensures var (x, y) := (QueryPoint(0.0, 0.0), QueryPoint(10.0, 0.0));
      PlanarSquared(PointOf(x), Centre(FOUR["a"])) < PlanarSquared(PointOf(x), Centre(FOUR[key])) &&
      PlanarSquared(PointOf(y), Centre(FOUR[key])) < PlanarSquared(PointOf(y), Centre(FOUR["a"]))
  {
    assert key == "b" || key == "c" || key == "d";
  }

  lemma MovesOfThree()
    ensures var (x, y, c) := (QueryPoint(0.0, 0.0), QueryPoint(10.0, 0.0), FOUR["a"]);
      Move(Within, c, [x, y, x], 0) == Move(Within, c, [x, y, x], 2) == [ENTER] &&
      Move(Within, c, [x, y, x], 1) == [EXIT]
  {
  }

  /** A point that enters a circle of four, leaves it for the other three and comes back is reported to
      ENTER twice: whatever the three nearest were at each move, the EXIT is missed. */
  lemma FarCircleEntersTwice(orders: seq<seq<string>>)
    requires var (x, y) := (QueryPoint(0.0, 0.0), QueryPoint(10.0, 0.0));
      NearestAlong(orders, FOUR, PlanarSquared, [x, y, x])
    ensures var (x, y) := (QueryPoint(0.0, 0.0), QueryPoint(10.0, 0.0));
      Reports(Within, FOUR["a"], [x, y, x]) == [ENTER, EXIT, ENTER] &&
      ReportsNear(Within, FOUR["a"], [x, y, x], orders) == [ENTER, ENTER]
  {
    var (x, y, c) := (QueryPoint(0.0, 0.0), QueryPoint(10.0, 0.0), FOUR["a"]);
    assert FOUR.Keys == {"a", "b", "c", "d"} && |FOUR| == |FOUR.Keys| == 4 && c.key == "a";
    forall key | key in FOUR && key != "a" {
      DistancesOfFour(key);
    }
    MovesOfThree();
    hide PlanarSquared, Within, Move, ThreeNearest;
    forall i | 0 <= i < 3
      ensures "a" in orders[i] <==> i != 1
    {
      NearestOfFour(orders[i], FOUR, [x, y, x][i], "a");
    }
    ThreeMoves(Within, c, [x, y, x], orders);
  }

  lemma ThreeMoves(contains: Contains, c: Circle, path: seq<QueryPoint>, orders: seq<seq<string>>)
    requires |orders| == |path| == 3 && forall i :: 0 <= i < 3 ==> (c.key in orders[i] <==> i != 1)
    requires Move(contains, c, path, 0) == Move(contains, c, path, 2) == [ENTER]
    requires Move(contains, c, path, 1) == [EXIT]
    ensures Reports(contains, c, path) == [ENTER, EXIT, ENTER]
    ensures ReportsNear(contains, c, path, orders) == [ENTER, ENTER]
  {
    var (one, two) := (path[..1], path[..2]);
    assert two[..1] == one && one[..0] == [] && orders[..2][..1] == orders[..1] && orders[..1][..0] == [];
    assert Move(contains, c, one, 0) == [ENTER] && Move(contains, c, two, 1) == [EXIT];
    assert Reports(contains, c, one) == [] + [ENTER] && ReportsNear(contains, c, one, orders[..1]) == [] + [ENTER];
    assert Reports(contains, c, two) == [ENTER] + [EXIT] && ReportsNear(contains, c, two, orders[..2]) == [ENTER] + [];
  }

  predicate Everywhere(c: Circle, p: QueryPoint) {
    true
  }

  lemma SentinelEntersTwice(c: Circle)
    ensures var p := QueryPoint(UNSEEN, 0.0); Reports(Everywhere, c, [p, p]) == [ENTER, ENTER]
  {
    var p := QueryPoint(UNSEEN, 0.0);
    assert [p][..0] == [] && [p, p][..1] == [p];
    assert ReportOf(Everywhere, c, p, p) == [ENTER];
    assert Reports(Everywhere, c, [p]) == [] + [ENTER];
    assert Reports(Everywhere, c, [p, p]) == Reports(Everywhere, c, [p]) + ReportOf(Everywhere, c, p, p);
  }
}
