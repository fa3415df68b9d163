/** The tree of a fence's circles (`geofence.go`). */
module FenceTrees {
  import opened Boxes
  import opened SplitPolicy
  import opened RtreeNodes
  import opened RtreeInvariant
  import opened RtreeContents
  import opened RtreeDeletion
  import opened Rtrees
  import opened RtreeRemoval
  import opened BestFirst
  import opened NearestNeighbours
  import opened Geofences

  /** The geometry of circles, and the distance by which the tree is searched. */
  datatype Geometry = Geometry(contains: Contains, crosses: Crosses, distance: Metric)

  /** `Circle.GetBound`. */
  function BoundOf(c: Circle): (b: Box)
    ensures |b| == 2 && (c.radius >= 0.0 ==> InBox(Centre(c), b))
  {
    [Interval(c.lat - c.radius, c.lat + c.radius), Interval(c.lon - c.radius, c.lon + c.radius)]
  }

  /** The box holds the points that are no farther from the centre than the radius on either axis. */
  lemma BoundIsAround(c: Circle, q: QueryPoint)
    ensures InBox(PointOf(q), BoundOf(c)) <==>
      -c.radius <= q.lat - c.lat <= c.radius && -c.radius <= q.lon - c.lon <= c.radius
  {
  }

  function ObjectOf(id: int, c: Circle): (x: OSMObject)
    ensures x.id == id && PositionOf(x) == Centre(c)
  {
    OSMObject(id, c.lat, c.lon, map[], BoundOf(c))
  }

  /** Identifiers are 0, 1, 2, ... in the order in which the keys came. */
  ghost predicate Numbered(strToID: map<string, int>, idToStr: map<int, string>) {
    (forall id :: id in idToStr <==> 0 <= id < |strToID|) &&
    (forall id :: id in idToStr ==> idToStr[id] in strToID && strToID[idToStr[id]] == id) &&
    forall key :: key in strToID ==> strToID[key] in idToStr && idToStr[strToID[key]] == key
  }

  /** `x` is the object of one of the circles. */
  ghost predicate IsCircle(x: OSMObject, idToStr: map<int, string>, fence: map<string, Circle>) {
    x.id in idToStr && idToStr[x.id] in fence && x == ObjectOf(x.id, fence[idToStr[x.id]])
  }

  /** Each circle of the fence is stored once, and nothing else is. */
  ghost predicate StoresCircles(all: multiset<OSMObject>, idToStr: map<int, string>, fence: map<string, Circle>) {
    (forall x :: x in all <==> IsCircle(x, idToStr, fence)) && forall x :: x in all ==> all[x] == 1
  }

  /** The stored objects, the identifiers and the circles of a fence agree. */
  ghost predicate Keeps(all: multiset<OSMObject>, strToID: map<string, int>, idToStr: map<int, string>,
                        fence: map<string, Circle>) {
    Numbered(strToID, idToStr) && fence.Keys == strToID.Keys && KeysMatch(fence) && |all| == |fence| &&
    StoresCircles(all, idToStr, fence)
  }

  /** The tree of these circles panics when a circle with this key is added: a 26th one, or one of two. */
  predicate Refuses(fence: map<string, Circle>, key: string) {
    if key in fence then |fence| == 2 else |fence| >= 25
  }

  lemma MoreNumbered(strToID: map<string, int>, idToStr: map<int, string>, key: string)
    requires Numbered(strToID, idToStr) && key !in strToID
    ensures Numbered(strToID[key := |strToID|], idToStr[|strToID| := key])
  {
    var more := strToID[key := |strToID|];
    assert more.Keys == strToID.Keys + {key};
    assert |more| == |more.Keys| == |strToID| + 1;
  }

  /** A circle with a new key joins the fence. */
  lemma CircleAdded(all: multiset<OSMObject>, strToID: map<string, int>, idToStr: map<int, string>,
                    fence: map<string, Circle>, c: Circle)
    requires Numbered(strToID, idToStr) && StoresCircles(all, idToStr, fence) && fence.Keys == strToID.Keys
    requires c.key !in strToID && |all| == |fence|
    ensures var id := |strToID|;
      StoresCircles(all + multiset{ObjectOf(id, c)}, idToStr[id := c.key], fence[c.key := c]) &&
      |all + multiset{ObjectOf(id, c)}| == |fence[c.key := c]|
  {
    var id, more := |strToID|, fence[c.key := c];
    var (x, ids) := (ObjectOf(id, c), idToStr[id := c.key]);
    assert !IsCircle(x, idToStr, fence);
    forall y
      ensures IsCircle(y, ids, more) <==> IsCircle(y, idToStr, fence) || y == x
    {
    }
    assert more.Keys == fence.Keys + {c.key};
    assert |more| == |more.Keys| == |fence| + 1;
  }

  /** A circle takes the place of the one that had its key. */
  lemma CircleReplaced(all: multiset<OSMObject>, strToID: map<string, int>, idToStr: map<int, string>,
                       fence: map<string, Circle>, c: Circle)
    requires Numbered(strToID, idToStr) && StoresCircles(all, idToStr, fence) && fence.Keys == strToID.Keys
    requires c.key in strToID && |all| == |fence|
    ensures var id := strToID[c.key];
      var after := all - multiset{ObjectOf(id, fence[c.key])} + multiset{ObjectOf(id, c)};
      StoresCircles(after, idToStr, fence[c.key := c]) && |after| == |fence[c.key := c]|
  {
    var id, more := strToID[c.key], fence[c.key := c];
    var (was, x) := (ObjectOf(id, fence[c.key]), ObjectOf(id, c));
    assert IsCircle(was, idToStr, fence) && all[was] == 1;
    var rest := all - multiset{was};
    assert all == rest + multiset{was} && |rest| == |all| - 1;
    forall y
      ensures IsCircle(y, idToStr, more) <==> (IsCircle(y, idToStr, fence) && y != was) || y == x
    {
    }
    assert x in rest ==> x != was && IsCircle(x, idToStr, fence);
    assert more.Keys == fence.Keys;
    assert |more| == |more.Keys| == |fence|;
  }

  // ----- a tree that is a single leaf node -----

  /** A tree with the parameters of a fence's tree that was never split. */
  ghost predicate LeafTree(t: Rtree)
    reads t, t.nodes
  {
    t.Valid() && !t.lean && t.splits == [] && t.root.lvl == 1 && t.Cfg() == Config(2, 25, 2, true) &&
    t.size == |t.Contents()|
  }

  /** The only stored object with the identifier. */
  ghost predicate OnlyOne(all: multiset<OSMObject>, y: OSMObject) {
    y in all && forall z :: z in all && z.id == y.id ==> z == y
  }

  lemma LeafTreeItems(t: Rtree)
    requires LeafTree(t)
    ensures t.root.isLeaf && |t.root.items| == |t.Contents()| <= 25 && Covering(t.Mem(), t.root)
    ensures Sound(t.Mem(), t.root, t.Cfg()) && AllLinked(t.Mem(), t.root, null) && t.root in t.nodes
    ensures forall id :: HasId(t.root.items, id) <==> exists x :: x in t.Contents() && x.id == id
  {
    var h, root := t.Mem(), t.root;
    assert Kids(h, root, root, null) && Filled(h, root, root, t.Cfg());
    ProperIsCovering(h, root, t.Cfg());
    LeafRoot(h, root);
    forall id
      ensures HasId(root.items, id) <==> exists x :: x in t.Contents() && x.id == id
    {
      if HasId(root.items, id) {
        var k :| 0 <= k < |root.items| && root.items[k].leaf.id == id;
        assert root.items[k] in h[root].items && root.items[k].leaf in t.Contents();
      }
    }
  }

  /** `InsertLeaf` into such a tree. A 26th entry would make the first split, which looks for a third axis
      of boxes that have two, and panics. */
  method AddToLeaf(t: Rtree, x: OSMObject) returns (ok: bool)
    requires LeafTree(t) && |x.bound| == 2
    modifies t, t.nodes
    ensures ok <==> |old(t.Contents())| < 25
    ensures ok ==> LeafTree(t) && t.Contents() == old(t.Contents()) + multiset{x} && fresh(t.nodes - old(t.nodes))
  {
    LeafTreeItems(t);
    if |t.root.items| >= t.maxChild {
      return false;
    }
    ghost var e, l := t.Insert(x.bound, x);
    ok := true;
  }

  /** `FindLeaf` in such a tree. */
  method FindInLeaf(t: Rtree, x: OSMObject) returns (found: bool)
    requires LeafTree(t) && |x.bound| == 2
    ensures found <==> exists z :: z in t.Contents() && z.id == x.id
  {
    LeafTreeItems(t);
    var l, level := FindLeaf(t, x, t.root, 1);
    found := l != null;
  }

  /** `Delete` and `InsertLeaf`. With two entries the deletion leaves a data entry as the root, and the
      insertion panics when it chooses among its children. */
  method ReplaceInLeaf(t: Rtree, x: OSMObject, ghost y: OSMObject) returns (ok: bool)
    requires LeafTree(t) && |x.bound| == 2 && OnlyOne(t.Contents(), y) && y.id == x.id
    modifies t, t.nodes
    ensures ok <==> |old(t.Contents())| != 2
    ensures ok ==> LeafTree(t) && t.Contents() == old(t.Contents()) - multiset{y} + multiset{x}
    ensures ok ==> fresh(t.nodes - old(t.nodes))
  {
    ghost var all := t.Contents();
    var still := TakeFromLeaf(t, x, y);
    if !still {
      return false;
    }
    ok := AddToLeaf(t, x);
  }

  method TakeFromLeaf(t: Rtree, x: OSMObject, ghost y: OSMObject) returns (still: bool)
    requires LeafTree(t) && |x.bound| == 2 && OnlyOne(t.Contents(), y) && y.id == x.id
    modifies t, t.nodes
    ensures (still <==> |old(t.Contents())| != 2) && |old(t.Contents())| <= 25
    ensures still ==> LeafTree(t) && t.Contents() == old(t.Contents()) - multiset{y}
    ensures fresh(t.nodes - old(t.nodes))
  {
    LeafTreeItems(t);
    assert |t.Contents() - multiset{y}| == |t.Contents()| - 1;
    ghost var h, root, all := t.Mem(), t.root, t.Contents();
    var deleted, stopped;
    ghost var e, gone, waiting;
    deleted, stopped, e, gone, waiting := Delete(t, x);
    OneTaken(h, root, e, x, y, gone);
    assert |all| != 2 ==> LeafTree(t) by {
      if |all| != 2 {
        assert Kids(t.Mem(), t.root, t.root, null);
      }
    }
    still := !IsBare(t.root);
  }

  /** The object takes the place of `y`, the one with its identifier, if there is one. */
  method PutInLeaf(t: Rtree, x: OSMObject, ghost known: bool, ghost y: OSMObject) returns (ok: bool)
    requires LeafTree(t) && |x.bound| == 2 && (known <==> exists z :: z in t.Contents() && z.id == x.id)
    requires known ==> OnlyOne(t.Contents(), y) && y.id == x.id
    modifies t, t.nodes
    ensures ok <==> if known then |old(t.Contents())| != 2 else |old(t.Contents())| < 25
    ensures ok ==> LeafTree(t) && fresh(t.nodes - old(t.nodes))
    ensures ok ==>
      t.Contents() == (if known then old(t.Contents()) - multiset{y} else old(t.Contents())) + multiset{x}
  {
    var found := FindInLeaf(t, x);
    if found {
      ok := ReplaceInLeaf(t, x, y);
    } else {
      ok := AddToLeaf(t, x);
    }
  }

  lemma OneTaken(h: Mem, root: Node, e: Node, x: OSMObject, y: OSMObject, gone: multiset<OSMObject>)
    requires Shape(h, root, null) && root.lvl == 1 && HasId(h[root].items, x.id) && TakenOut(h, root, 2, e, x, gone)
    requires OnlyOne(Stored(h, root), y) && y.id == x.id && gone <= Stored(h, root)
    ensures gone == multiset{y} && EnoughLeft(h, root, 2, e) && !CanStop(h, root, 2, e)
  {
    assert Kids(h, root, root, null) && Kids(h, e, root, null);
    if h[e].parent != root { OnlyRootAtTop(h, root, h[e].parent); }
    assert e.leaf in gone;
  }

  /** An object with the identifier is stored exactly if the key is known, and then it is the circle's. */
  lemma IdOfCircle(all: multiset<OSMObject>, strToID: map<string, int>, idToStr: map<int, string>,
                   fence: map<string, Circle>, key: string, id: int)
    requires Numbered(strToID, idToStr) && StoresCircles(all, idToStr, fence) && fence.Keys == strToID.Keys
    requires id == if key in strToID then strToID[key] else |strToID|
    ensures (exists z :: z in all && z.id == id) <==> key in fence
    ensures key in fence ==> OnlyOne(all, ObjectOf(id, fence[key]))
  {
    if key in fence {
      assert IsCircle(ObjectOf(id, fence[key]), idToStr, fence);
    }
  }

  // ----- the nearest circles -----

  ghost predicate AllCircles(found: seq<OSMObject>, idToStr: map<int, string>, fence: map<string, Circle>) {
    forall i :: 0 <= i < |found| ==> IsCircle(found[i], idToStr, fence)
  }

  ghost function KeysOf(found: seq<OSMObject>, idToStr: map<int, string>): (keys: seq<string>)
    requires forall i :: 0 <= i < |found| ==> found[i].id in idToStr
    ensures |keys| == |found|
  {
    seq(|found|, i requires 0 <= i < |found| => idToStr[found[i].id])
  }

  lemma FoundAreCircles(found: seq<OSMObject>, all: multiset<OSMObject>, strToID: map<string, int>,
                        idToStr: map<int, string>, fence: map<string, Circle>)
    requires Keeps(all, strToID, idToStr, fence) && multiset(found) <= all
    ensures AllCircles(found, idToStr, fence) && Nearby(KeysOf(found, idToStr), fence)
  {
    forall i | 0 <= i < |found|
      ensures IsCircle(found[i], idToStr, fence)
    {
      assert found[i] in multiset(found);
    }
    assert Distinct(found) by {
      forall x
        ensures multiset(found)[x] <= 1
      {
        assert multiset(found)[x] <= all[x];
      }
      DistinctIffCounts(found);
    }
  }

  /** No circle left out is nearer, if no stored object left out is. */
  lemma FoundInOrder(h: Mem, root: Node, found: seq<OSMObject>, done: seq<Node>, strToID: map<string, int>,
                     idToStr: map<int, string>, fence: map<string, Circle>, metric: Metric, p: QueryPoint)
    requires Shape(h, root, null) && AllLinked(h, root, null) && Keeps(Stored(h, root), strToID, idToStr, fence)
    requires found == ObjectSeq(done) && AllCircles(found, idToStr, fence) && Nearby(KeysOf(found, idToStr), fence)
    requires Ascending(metric, PointOf(p), done) && NoneNearer(DataOf(h.Keys), metric, PointOf(p), done)
    ensures InOrder(KeysOf(found, idToStr), fence, metric, p)
  {
    var keys := KeysOf(found, idToStr);
    forall i | 0 <= i < |found|
      ensures Dist(metric, PointOf(p), done[i]) == metric(PointOf(p), Centre(fence[keys[i]]))
    {
      assert found[i] == done[i].leaf && IsCircle(found[i], idToStr, fence);
    }
    forall key, j | key in fence && key !in keys && 0 <= j < |keys|
      ensures metric(PointOf(p), Centre(fence[keys[j]])) <= metric(PointOf(p), Centre(fence[key]))
    {
      var x := ObjectOf(strToID[key], fence[key]);
      assert IsCircle(x, idToStr, fence);
      StoredIsData(h, root);
      ObjectsOfMember(DataOf(h.Keys), x);
      var y :| y in DataOf(h.Keys) && y.leaf == x;
      assert y !in done by {
        assert forall i :: 0 <= i < |done| && done[i] == y ==> keys[i] == key;
      }
      assert Dist(metric, PointOf(p), done[j]) <= Dist(metric, PointOf(p), y);
    }
  }

  /** The circles' boxes are around their centres, so the search meets its conditions. */
  lemma FenceIsSearchable(t: Rtree, strToID: map<string, int>, idToStr: map<int, string>,
                          fence: map<string, Circle>, metric: Metric, p: Point)
    requires LeafTree(t) && Keeps(t.Contents(), strToID, idToStr, fence)
    ensures Searchable(t.Mem(), t.root, t.Cfg()) && |t.Contents()| == |fence| == t.size
    ensures GrowsOutward(metric) && (forall key :: key in fence ==> fence[key].radius >= 0.0) ==>
      LowerBound(t.Mem(), t.root, metric, p)
  {
    CleanIsSearchable(t.Mem(), t.root, t.Cfg(), metric, p);
    if forall key :: key in fence ==> fence[key].radius >= 0.0 {
      forall x | x in t.Contents()
        ensures InBox(PositionOf(x), x.bound)
      {
        assert IsCircle(x, idToStr, fence);
      }
    }
  }

  class RtreeFence {
    const geometry: Geometry
    var rtree: Rtree
    var strToID: map<string, int>
    var idToStr: map<int, string>
    var fence: map<string, Circle>

    ghost function Footprint(): set<object>
      reads this`rtree, rtree
    {
      {this, rtree} + rtree.nodes
    }

    /** The tree is a single leaf node with an entry for each circle. */
    ghost predicate Valid()
      reads this, rtree, rtree.nodes
    {
      LeafTree(rtree) && Keeps(rtree.Contents(), strToID, idToStr, fence)
    }

    /** The program passes 50 axes; only a split would read them. */
    constructor (geometry: Geometry)
      ensures Valid() && fresh(Footprint()) && this.geometry == geometry && fence == map[]
    {
      this.geometry := geometry;
      rtree := new Rtree(2, 25, 2);
      strToID, idToStr, fence := map[], map[], map[];
    }

    /** `IDMap.GetID`. */
    method GetID(key: string) returns (id: int)
      modifies this`strToID, this`idToStr
      ensures key in old(strToID) ==> id == old(strToID)[key] && strToID == old(strToID) && idToStr == old(idToStr)
      ensures key !in old(strToID) ==>
        id == |old(strToID)| && strToID == old(strToID)[key := id] && idToStr == old(idToStr)[id := key]
    {
      if key in strToID {
        return strToID[key];
      }
      id := |strToID|;
      strToID, idToStr := strToID[key := id], idToStr[id := key];
    }

    lemma FenceSize()
      requires Valid()
      ensures |rtree.Contents()| == |fence|
    {
    }

    /** What the tree has of the circle's key. */
    lemma Known(f: Circle) returns (known: bool, y: OSMObject)
      requires Valid()
      ensures known <==> f.key in fence
      ensures var id := if known then strToID[f.key] else |strToID|;
        (known <==> exists z :: z in rtree.Contents() && z.id == id) &&
        (known ==> OnlyOne(rtree.Contents(), y) && y.id == id) &&
        var (ids, names) := if known then (strToID, idToStr) else (strToID[f.key := id], idToStr[id := f.key]);
        var after := (if known then rtree.Contents() - multiset{y} else rtree.Contents()) + multiset{ObjectOf(id, f)};
        Keeps(after, ids, names, fence[f.key := f])
    {
      hide Stored, Proper, AllClean, Numbered, StoresCircles, AllSized, Kids;
      known := f.key in fence;
      var id := if known then strToID[f.key] else |strToID|;
      y := ObjectOf(id, if known then fence[f.key] else f);
      IdOfCircle(rtree.Contents(), strToID, idToStr, fence, f.key, id);
      if known {
        CircleReplaced(rtree.Contents(), strToID, idToStr, fence, f);
      } else {
        MoreNumbered(strToID, idToStr, f.key);
        CircleAdded(rtree.Contents(), strToID, idToStr, fence, f);
      }
    }

    /** `Add`: a known circle is taken out of the tree and put in again. It panics on the 26th circle, and
        when one of exactly two circles is added again. */
    method Add(f: Circle) returns (ok: bool)
      requires Valid()
      modifies this, rtree, rtree.nodes
      ensures ok <==> !Refuses(old(fence), f.key)
      ensures ok ==> Valid() && fence == old(fence)[f.key := f]
      ensures ok ==> rtree == old(rtree) && fresh(rtree.nodes - old(rtree.nodes))
    {
      hide Keeps, Sound, Proper, AllClean;
      ok := PutCircle(f);
      if ok {
        fence := fence[f.key := f];
      }
    }

    method PutCircle(f: Circle) returns (ok: bool)
      requires Valid()
      modifies this`strToID, this`idToStr, rtree, rtree.nodes
      ensures ok <==> !Refuses(fence, f.key)
      ensures ok ==> LeafTree(rtree) && Keeps(rtree.Contents(), strToID, idToStr, fence[f.key := f])
      ensures ok ==> fresh(rtree.nodes - old(rtree.nodes))
    {
      hide Stored, Sound, Proper, AllClean, OnlyOne, AllSized, Kids, DataOf, Mbr;
      FenceSize();
      ghost var known, y := Known(f);
      hide Keeps;
      var id := GetID(f.key);
      ok := PutInLeaf(rtree, ObjectOf(id, f), known, y);
    }

    /** The objects of the three nearest circles. */
    method FindNearest(p: QueryPoint) returns (found: seq<OSMObject>)
      requires Valid()
      ensures AllCircles(found, idToStr, fence)
      ensures ThreeNearest(KeysOf(found, idToStr), fence, geometry.distance, p)
    {
      hide Keeps, GrowsOutward;
      FenceIsSearchable(rtree, strToID, idToStr, fence, geometry.distance, PointOf(p));
      var nearest;
      ghost var done;
      nearest, done := NearestNeighboursPQ(rtree, 3, PointOf(p), geometry.distance, rtree.nodes, rtree.Cfg());
      found := nearest.value;
      FoundAreCircles(found, rtree.Contents(), strToID, idToStr, fence);
      if LowerBound(rtree.Mem(), rtree.root, geometry.distance, PointOf(p)) {
        FoundInOrder(rtree.Mem(), rtree.root, found, done, strToID, idToStr, fence, geometry.distance, p);
      }
    }

    /** `Get`: the statuses of the three nearest circles one after the other. */
    method Get(p: QueryPoint, prev: QueryPoint) returns (results: seq<FenceStatusObj>, ghost nearby: seq<string>)
      requires Valid()
      ensures ThreeNearest(nearby, fence, geometry.distance, p)
      ensures results == AllStatuses(geometry.contains, geometry.crosses, CirclesOf(fence, nearby), prev, p)
      ensures RightResults(results, CirclesOf(fence, nearby), geometry.contains, geometry.crosses, prev, p)
    {
      var found := FindNearest(p);
      nearby := KeysOf(found, idToStr);
      ghost var cs := CirclesOf(fence, nearby);
      results := [];
      for i := 0 to |found|
        invariant results == AllStatuses(geometry.contains, geometry.crosses, cs[..i], prev, p)
      {
        var f := fence[idToStr[found[i].id]];
        assert cs[..i + 1][..i] == cs[..i];
        var oldStatus :=
          if prev.lat != UNSEEN then (if geometry.contains(f, prev) then INSIDE else OUTSIDE) else OUTSIDE;
        var newStatus := if geometry.contains(f, p) then INSIDE else OUTSIDE;
        results := AppendNewFenceStatus(results, oldStatus, prev, newStatus, f, p);
      }
      assert cs[..|found|] == cs;
      NearStatusesAreRight(geometry.contains, geometry.crosses, fence, nearby, prev, p);
    }

    method AppendNewFenceStatus(results: seq<FenceStatusObj>, oldStatus: FenceStatus, prev: QueryPoint,
                                newStatus: FenceStatus, f: Circle, p: QueryPoint)
      returns (results': seq<FenceStatusObj>)
      requires oldStatus == OldStatus(geometry.contains, f, prev) && newStatus == NewStatus(geometry.contains, f, p)
      ensures results' == results + StatusesOf(geometry.contains, geometry.crosses, f, prev, p)
    {
      if oldStatus == INSIDE && newStatus == INSIDE {
        return results + [FenceStatusObj(INSIDE, f)];
      } else if oldStatus == INSIDE && newStatus == OUTSIDE {
        return results + [FenceStatusObj(EXIT, f), FenceStatusObj(OUTSIDE, f)];
      } else if oldStatus == OUTSIDE && newStatus == INSIDE {
        return results + [FenceStatusObj(ENTER, f), FenceStatusObj(INSIDE, f)];
      } else if geometry.crosses(f, prev, p) {
        return results + [FenceStatusObj(CROSS, f)];
      } else {
        return results + [FenceStatusObj(OUTSIDE, f)];
      }
    }
  }
}
