/** The fences by name, and the points that move through them (`fence_index.go`). */
module FenceIndexes {
  import opened Wrappers
  import opened Geofences
  import opened FenceTrees

  /** Why a call gives no result; the program panics in the fence's tree. */
  datatype Failing = BadParam(message: string) | Panicked

  /** The fence `f` has the circles `circles` and consists of the objects `home`. */
  ghost predicate Held(f: RtreeFence, home: set<object>, geometry: Geometry, circles: map<string, Circle>)
    reads f, f.rtree, home
  {
    f.rtree in home && f.Footprint() == home && f.Valid() && f.geometry == geometry && f.fence == circles
  }

  /** Each fence has its circles, and different fences share no objects. */
  ghost predicate Fenced(fences: map<string, RtreeFence>, homes: map<string, set<object>>,
                         circles: map<string, map<string, Circle>>, geometry: Geometry, repr: set<object>)
    reads repr
  {
    circles.Keys == homes.Keys == fences.Keys &&
    (forall name {:trigger homes[name]} :: name in homes ==>
      homes[name] <= repr && fences[name] in homes[name] && fences[name].rtree in homes[name] &&
      Held(fences[name], homes[name], geometry, circles[name])) &&
    forall m, n {:trigger homes[m], homes[n]} :: m in homes && n in homes && m != n ==> homes[m] !! homes[n]
  }

  /** A fence joins, or takes the place of the one with its name. */
  lemma FencedWith(fences: map<string, RtreeFence>, homes: map<string, set<object>>,
                   circles: map<string, map<string, Circle>>, geometry: Geometry, repr: set<object>, name: string,
                   f: RtreeFence, home: set<object>, fence: map<string, Circle>)
    requires Others(fences, homes, circles, geometry, name)
    requires OtherHomes(homes, name) <= repr && home !! OtherHomes(homes, name)
    requires f in home && f.rtree in home && Held(f, home, geometry, fence)
    ensures Fenced(fences[name := f], homes[name := home], circles[name := fence], geometry, repr + home)
  {
    hide Held;
    var homes' := homes[name := home];
    forall n {:trigger homes'[n]} | n in homes' && n != name
      ensures homes'[n] <= OtherHomes(homes, name) && fences[n] in homes'[n] && fences[n].rtree in homes'[n]
      ensures Held(fences[n], homes'[n], geometry, circles[n])
    {
      assert (homes - {name})[n] == homes'[n];
    }
    forall m, n {:trigger homes'[m], homes'[n]} | m in homes' && n in homes' && m != n
      ensures homes'[m] !! homes'[n]
    {
      if m != name && n != name {
        assert (homes - {name})[m] == homes'[m] && (homes - {name})[n] == homes'[n];
      }
    }
  }

  /** What holds of the fences with other names. */
  ghost predicate Others(fences: map<string, RtreeFence>, homes: map<string, set<object>>,
                         circles: map<string, map<string, Circle>>, geometry: Geometry, name: string)
    reads OtherHomes(homes, name)
  {
    circles.Keys == homes.Keys == fences.Keys &&
    Fenced(fences - {name}, homes - {name}, circles - {name}, geometry, OtherHomes(homes, name))
  }

  ghost function OtherHomes(homes: map<string, set<object>>, name: string): set<object> {
    set n, o | n in homes && n != name && o in homes[n] :: o
  }

  lemma FencedWithout(fences: map<string, RtreeFence>, homes: map<string, set<object>>,
                      circles: map<string, map<string, Circle>>, geometry: Geometry, repr: set<object>, name: string)
    requires Fenced(fences, homes, circles, geometry, repr)
    ensures circles.Keys == homes.Keys == fences.Keys
    ensures Others(fences, homes, circles, geometry, name) && OtherHomes(homes, name) <= repr
    ensures Fenced(fences - {name}, homes - {name}, circles - {name}, geometry, repr)
    ensures name in homes ==>
      homes[name] <= repr && homes[name] !! OtherHomes(homes, name) && fences[name] in homes[name] &&
      fences[name].rtree in homes[name] && Held(fences[name], homes[name], geometry, circles[name])
  {
    hide Held;
  }

  method NewHeld(geometry: Geometry) returns (f: RtreeFence, ghost home: set<object>)
    ensures fresh(home) && f in home && f.rtree in home && Held(f, home, geometry, map[])
  {
    f := new RtreeFence(geometry);
    home := f.Footprint();
  }

  method AddHeld(f: RtreeFence, c: Circle, ghost home: set<object>, ghost geometry: Geometry,
                 ghost circles: map<string, Circle>)
    returns (ok: bool, ghost home': set<object>)
    requires Held(f, home, geometry, circles)
    modifies home
    ensures ok <==> !Refuses(circles, c.key)
    ensures ok ==> Held(f, home', geometry, circles[c.key := c]) && fresh(home' - home)
    ensures ok ==> f in home' && f.rtree in home'
  {
    hide LeafTree, Keeps;
    ok := f.Add(c);
    home' := if ok then f.Footprint() else home;
  }

  method GetHeld(f: RtreeFence, p: QueryPoint, prev: QueryPoint, ghost home: set<object>, ghost geometry: Geometry,
                 ghost circles: map<string, Circle>)
    returns (results: seq<FenceStatusObj>, ghost nearby: seq<string>)
    requires Held(f, home, geometry, circles)
    ensures ThreeNearest(nearby, circles, geometry.distance, p)
    ensures results == AllStatuses(geometry.contains, geometry.crosses, CirclesOf(circles, nearby), prev, p)
    ensures RightResults(results, CirclesOf(circles, nearby), geometry.contains, geometry.crosses, prev, p)
  {
    hide LeafTree, Keeps;
    results, nearby := f.Get(p, prev);
  }

  class FenceIndex {
    const geometry: Geometry
    var fences: map<string, RtreeFence>
    var points: map<string, QueryPoint>
    /** The circles of each fence, and the objects that it consists of. */
    ghost var circles: map<string, map<string, Circle>>
    ghost var homes: map<string, set<object>>
    ghost var repr: set<object>

    ghost predicate Valid()
      reads this, repr
    {
      this !in repr && Fenced(fences, homes, circles, geometry, repr)
    }

    constructor (geometry: Geometry)
      ensures Valid() && fresh(repr) && this.geometry == geometry && circles == map[] && points == map[]
    {
      this.geometry, fences, points, circles, homes, repr := geometry, map[], map[], map[], map[], {};
    }

    method AddFence(name: string) returns (error: Option<Failing>)
      requires Valid()
      modifies this
      ensures Valid() && fresh(repr - old(repr)) && points == old(points)
      ensures error.Some? <==> name in old(circles)
      ensures circles == if name in old(circles) then old(circles) else old(circles)[name := map[]]
    {
      hide Held, Others, OtherHomes, Fenced;
      FencedWithout(fences, homes, circles, geometry, repr, name);
      if name in fences {
        return Some(BadParam("fence already exists"));
      }
      var f;
      ghost var home;
      f, home := NewHeld(geometry);
      FencedWith(fences, homes, circles, geometry, repr, name, f, home, map[]);
      fences := fences[name := f];
      circles, homes, repr := circles[name := map[]], homes[name := home], repr + home;
      return None;
    }

    method DeleteFence(name: string)
      requires Valid()
      modifies this`fences, this`circles, this`homes
      ensures Valid() && circles == old(circles) - {name}
    {
      hide Held, Fenced;
      FencedWithout(fences, homes, circles, geometry, repr, name);
      fences, circles, homes := fences - {name}, circles - {name}, homes - {name};
    }

    /** A circle joins the named fence, or replaces the circle with its key. The fence's tree panics on the
        26th circle, and when one of exactly two circles is added again. */
    method AddFencePoint(name: string, c: Circle) returns (error: Option<Failing>)
      requires Valid()
      modifies this, repr
      ensures error == if name !in old(circles) then Some(BadParam("FenceIndex does not contain fence"))
                       else if Refuses(old(circles)[name], c.key) then Some(Panicked) else None
      ensures error != Some(Panicked) ==> Valid() && fresh(repr - old(repr)) && points == old(points)
      ensures error != Some(Panicked) ==>
        circles == if error.Some? then old(circles) else old(circles)[name := old(circles)[name][c.key := c]]
    {
      hide Held, Fenced, Others, OtherHomes, Refuses;
      FencedWithout(fences, homes, circles, geometry, repr, name);
      if name !in fences {
        return Some(BadParam("FenceIndex does not contain fence"));
      }
      var ok := PutPoint(name, c);
      error := if ok then None else Some(Panicked);
    }

    method PutPoint(name: string, c: Circle) returns (ok: bool)
      requires Valid() && name in fences && name in circles
      modifies this, repr
      ensures ok <==> !Refuses(old(circles)[name], c.key)
      ensures ok ==> Valid() && fresh(repr - old(repr)) && points == old(points)
      ensures ok ==> circles == old(circles)[name := old(circles)[name][c.key := c]]
    {
      hide Held, Others, OtherHomes, Refuses, Fenced;
      FencedWithout(fences, homes, circles, geometry, repr, name);
      ghost var home;
      ok, home := AddHeld(fences[name], c, homes[name], geometry, circles[name]);
      if ok {
        FencedWith(fences, homes, circles, geometry, repr, name, fences[name], home, circles[name][c.key := c]);
        assert fences[name := fences[name]] == fences;
        circles, homes := circles[name := circles[name][c.key := c]], homes[name := home];
        repr := repr + home;
      }
    }

    /** Reads the previous point, stores the new one, and reports on the nearest circles. */
    method Search(name: string, p: QueryPoint, id: string)
      returns (r: Result<seq<FenceStatusObj>, Failing>, ghost nearby: seq<string>)
      requires Valid()
      modifies this`points
      ensures Valid()
      ensures name !in circles ==> r.Failure? && points == old(points)
      ensures name in circles ==>
        points == old(points)[id := p] && ThreeNearest(nearby, circles[name], geometry.distance, p) &&
        r == Success(AllStatuses(geometry.contains, geometry.crosses, CirclesOf(circles[name], nearby),
                                 Before(old(points), id), p)) &&
        RightResults(r.value, CirclesOf(circles[name], nearby), geometry.contains, geometry.crosses,
                     if id in old(points) then old(points)[id] else QueryPoint(-999.0, -999.0), p)
    {
      hide Held;
      nearby := [];
      if name !in fences {
        return Failure(BadParam("FenceIndex does not contain fence")), nearby;
      }
      var fencePoint := if id in points then points[id] else QueryPoint(UNSEEN, UNSEEN);
      points := points[id := p];
      var results;
      results, nearby := GetHeld(fences[name], p, fencePoint, homes[name], geometry, circles[name]);
      return Success(results), nearby;
    }

    lemma KeysAreOwn(name: string)
      requires Valid() && name in circles
      ensures KeysMatch(circles[name])
    {
      FencedWithout(fences, homes, circles, geometry, repr, name);
    }

    /** A point that is moved only by searches on one fence: the changes reported for a circle are those of
        the moves at which it is among the three nearest, and they alternate exactly if an even number was
        missed before each. For a fence of at most three circles these are all changes of the path. */
    method Walk(name: string, id: string, path: seq<QueryPoint>)
      returns (all: seq<seq<FenceStatusObj>>, ghost orders: seq<seq<string>>)
      requires Valid() && name in circles && id !in points
      modifies this`points
      ensures Valid() && |all| == |path| && NearestAlong(orders, circles[name], geometry.distance, path)
      ensures forall c: Circle :: c in circles[name].Values ==>
        ReportsIn(all, c) == ReportsNear(geometry.contains, c, path, orders) &&
        (!Forgotten(geometry.contains, c, path) ==>
         (Alternates(ReportsIn(all, c)) <==> MissedEven(geometry.contains, c, path, orders)))
      ensures |circles[name]| <= 3 ==> forall c: Circle :: c in circles[name].Values ==>
        ReportsIn(all, c) == Reports(geometry.contains, c, path) &&
        (Alternates(ReportsIn(all, c)) <==> !Forgotten(geometry.contains, c, path))
    {
      hide Fenced, ThreeNearest, AllStatuses, RightResults, ReportsNear, ReportsIn, Reports, Alternates, Forgotten;
      hide MissedEven;
      all, orders := [], [];
      ghost var fence := circles[name];
      KeysAreOwn(name);
      NoReports(geometry, fence);
      assert path[..0] == [];
      for i := 0 to |path|
        invariant Valid() && name in circles && circles[name] == fence && |all| == |orders| == i
        invariant Before(points, id) == if i == 0 then QueryPoint(UNSEEN, UNSEEN) else path[i - 1]
        invariant NearestAlong(orders, fence, geometry.distance, path[..i])
        invariant AllReported(geometry, fence, path[..i], all, orders)
      {
        ghost var before := Before(points, id);
        var r;
        ghost var nearby;
        r, nearby := Search(name, path[i], id);
        MoreReported(geometry, fence, path, i, before, all, orders, r.value, nearby);
        all, orders := all + [r.value], orders + [nearby];
      }
      assert path[..|path|] == path;
      FewReported(geometry, fence, path, all, orders);
    }
  }

  /** What is reported for each circle are the changes at the moves where it is near. */
  ghost predicate AllReported(g: Geometry, fence: map<string, Circle>, path: seq<QueryPoint>,
                              all: seq<seq<FenceStatusObj>>, orders: seq<seq<string>>) {
    |orders| == |path| &&
    forall c: Circle :: c in fence.Values ==> ReportsIn(all, c) == ReportsNear(g.contains, c, path, orders)
  }

  lemma NoReports(g: Geometry, fence: map<string, Circle>)
    ensures AllReported(g, fence, [], [], [])
  {
  }

  lemma MoreReported(g: Geometry, fence: map<string, Circle>, path: seq<QueryPoint>, i: nat, before: QueryPoint,
                     all: seq<seq<FenceStatusObj>>, orders: seq<seq<string>>, results: seq<FenceStatusObj>,
                     nearby: seq<string>)
    requires i < |path| && AllReported(g, fence, path[..i], all, orders) && KeysMatch(fence)
    requires NearestAlong(orders, fence, g.distance, path[..i]) && ThreeNearest(nearby, fence, g.distance, path[i])
    requires before == if i == 0 then QueryPoint(UNSEEN, UNSEEN) else path[i - 1]
    requires results == AllStatuses(g.contains, g.crosses, CirclesOf(fence, nearby), before, path[i])
    ensures NearestAlong(orders + [nearby], fence, g.distance, path[..i + 1])
    ensures AllReported(g, fence, path[..i + 1], all + [results], orders + [nearby])
  {
    hide AllStatuses, ReportOf;
    var (path', all', orders') := (path[..i + 1], all + [results], orders + [nearby]);
    assert path'[..i] == path[..i] && all'[..|all|] == all && orders'[..i] == orders;
    forall c: Circle | c in fence.Values
      ensures ReportsIn(all', c) == ReportsNear(g.contains, c, path', orders')
    {
      OneReport(g.contains, g.crosses, fence, nearby, c, before, path[i]);
    }
  }

  /** In a fence of at most three circles nothing is missed. */
  lemma FewReported(g: Geometry, fence: map<string, Circle>, path: seq<QueryPoint>, all: seq<seq<FenceStatusObj>>,
                    orders: seq<seq<string>>)
    requires AllReported(g, fence, path, all, orders) && KeysMatch(fence)
    requires NearestAlong(orders, fence, g.distance, path)
    ensures forall c: Circle :: c in fence.Values && !Forgotten(g.contains, c, path) ==>
      (Alternates(ReportsIn(all, c)) <==> MissedEven(g.contains, c, path, orders))
    ensures |fence| <= 3 ==> forall c: Circle :: c in fence.Values ==>
      ReportsIn(all, c) == Reports(g.contains, c, path) &&
      (Alternates(ReportsIn(all, c)) <==> !Forgotten(g.contains, c, path))
  {
    hide ReportsIn, ReportsNear, Reports, Alternates, Forgotten, MissedEven;
    forall c: Circle | c in fence.Values && !Forgotten(g.contains, c, path)
      ensures Alternates(ReportsIn(all, c)) <==> MissedEven(g.contains, c, path, orders)
    {
      NearAlternatesIff(g.contains, c, path, orders);
    }
    if |fence| <= 3 {
      forall c: Circle | c in fence.Values
        ensures ReportsIn(all, c) == Reports(g.contains, c, path)
        ensures Alternates(ReportsIn(all, c)) <==> !Forgotten(g.contains, c, path)
      {
        forall i | 0 <= i < |orders|
          ensures c.key in orders[i]
        {
          assert ThreeNearest(orders[i], fence, g.distance, path[i]);
          FewAreNear(orders[i], fence);
        }
        AlwaysNear(g.contains, c, path, orders);
        AlternatesIff(g.contains, c, path);
      }
    }
  }
}
