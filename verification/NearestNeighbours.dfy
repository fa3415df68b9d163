/** Incremental nearest neighbour search over the tree. */
module NearestNeighbours {
  import opened Wrappers
  import opened SplitPolicy
  import opened RtreeNodes
  import opened RtreeInvariant
  import opened RtreeContents
  import opened Rtrees
  import opened MinHeaps
  import opened BestFirst

  /** The tree can be searched: parents and children agree and a data entry has its object's box. */
  ghost predicate Searchable(h: Mem, root: Node, cfg: Config) {
    Sound(h, root, cfg) && AllLinked(h, root, null) && 2 <= cfg.dims &&
    forall y {:trigger h[y]} :: y in h && y.lvl == 0 ==> h[y].bound == y.leaf.bound
  }

  ghost predicate Represents(pq: MinHeap<BoundedItem>, m: Queue)
    reads pq
  {
    pq.Valid() && Keyed(m) && pq.Contents() == multiset(m.Values)
  }

  ghost function BoxedIn(m: Queue): set<Node> {
    set x | x in m && m[x].isRect
  }

  lemma NodeIsKey(m: Queue, e: Ranked<BoundedItem>)
    requires Keyed(m) && e in m.Values
    ensures e.item.node in m && m[e.item.node] == e
  {
  }

  method Extract(pq: MinHeap<BoundedItem>, ghost live: set<Node>, ghost m: Queue) returns (e: Ranked<BoundedItem>)
    requires Represents(pq, m) && m != map[]
    modifies pq
    ensures e.item.node in m && m[e.item.node] == e && Represents(pq, m - {e.item.node})
    ensures Snapshot(live) == old(Snapshot(live)) && forall z :: z in m ==> e.rank <= m[z].rank
  {
    var least := pq.ExtractMin();
    e := least.value;
    NodeIsKey(m, e);
    TakeFromQueue(m, e.item.node);
  }

  /** Pushes one entry: an object with its own box from a leaf node, a child otherwise. */
  method PushItem(pq: MinHeap<BoundedItem>, n: Node, item: Node, p: Point, metric: Metric, root: Node,
                  ghost live: set<Node>, ghost cfg: Config, ghost m: Queue)
    requires Searchable(Snapshot(live), root, cfg) && n in live && item in n.items && item in live
    requires Represents(pq, m) && item !in m
    modifies pq
    ensures |item.bound| >= 2 && Represents(pq, m[item := RankOf(Snapshot(live), metric, p, item)])
  {
    ghost var h := Snapshot(live);
    assert Kids(h, n, root, null) && Kids(h, root, root, null);
    assert Sized(h, item, root, cfg.dims) && Kids(h, item, root, null);
    assert h[item].bound == item.bound && h[n].items == n.items;
    var e;
    if n.isLeaf {
      e := Ranked(MinDist(metric, p, item.leaf.bound), Data(item), true);
    } else {
      e := Ranked(MinDist(metric, p, item.bound), Tree(item), false);
    }
    PutInQueue(m, item, e);
    pq.Insert(e);
  }

  method PushNext(pq: MinHeap<BoundedItem>, n: Node, i: nat, p: Point, metric: Metric, root: Node,
                  ghost live: set<Node>, ghost cfg: Config, ghost m: Queue,
                  ghost m': Queue)
    returns (ghost m'': Queue)
    requires Searchable(Snapshot(live), root, cfg) && n in live && i < |n.items| && Distinct(n.items)
    requires n.items[i] in live && n.items[i] !in m
    requires Represents(pq, m') && Pushed(Snapshot(live), metric, p, m, n.items[..i], m')
    modifies pq
    ensures Represents(pq, m'') && Pushed(Snapshot(live), metric, p, m, n.items[..i + 1], m'') &&
      Snapshot(live) == old(Snapshot(live))
  {
    ghost var h := Snapshot(live);
    NotPushedYet(h, metric, p, m, n.items, i, m');
    PushItem(pq, n, n.items[i], p, metric, root, live, cfg, m');
    PushedMore(h, metric, p, m, n.items, i, m');
    m'' := m'[n.items[i] := RankOf(h, metric, p, n.items[i])];
  }

  method PushItems(pq: MinHeap<BoundedItem>, n: Node, p: Point, metric: Metric, root: Node, ghost live: set<Node>,
                   ghost cfg: Config, ghost m: Queue)
    returns (ghost m': Queue)
    requires Searchable(Snapshot(live), root, cfg) && n in live
    requires Represents(pq, m) && forall c :: c in n.items ==> c !in m
    modifies pq
    ensures Represents(pq, m') && Pushed(Snapshot(live), metric, p, m, n.items, m') &&
      Snapshot(live) == old(Snapshot(live))
  {
    ghost var h := Snapshot(live);
    assert Kids(h, n, root, null) && Link(h, n, root, null) && h[n].items == n.items;
    m' := m;
    NothingPushed(h, metric, p, m, n.items);
    for i := 0 to |n.items|
      invariant Snapshot(live) == h && Represents(pq, m') && Pushed(h, metric, p, m, n.items[..i], m')
    {
      m' := PushNext(pq, n, i, p, metric, root, live, cfg, m, m');
    }
  }

  // ----- the search -----

  lemma QueueIsKeyed(h: Mem, root: Node, metric: Metric, p: Point, seen: set<Node>, m: Queue, done: seq<Node>, lb: bool)
    requires SearchState(h, root, metric, p, seen, m, done, lb)
    ensures Keyed(m)
  {
  }

  /** An extracted object is reported, unless it was queued by its box and something in the queue
      ranks below its distance: then it is queued again by that distance. */
  method VisitObject(pq: MinHeap<BoundedItem>, e: Ranked<BoundedItem>, p: Point, metric: Metric, ghost h: Mem,
                     ghost root: Node, ghost seen: set<Node>, ghost m: Queue, ghost done: seq<Node>, ghost lb: bool)
    returns (report: bool, ghost m': Queue)
    requires SearchState(h, root, metric, p, seen, m, done, lb) && e.item.node in m && m[e.item.node] == e
    requires e.item.Data? && Represents(pq, m - {e.item.node}) && forall z :: z in m ==> e.rank <= m[z].rank
    modifies pq
    ensures Represents(pq, m')
    ensures report ==> m' == m - {e.item.node} && SearchState(h, root, metric, p, seen, m', done + [e.item.node], lb)
    ensures !report ==>
      m'.Keys == m.Keys && BoxedIn(m') < BoxedIn(m) && SearchState(h, root, metric, p, seen, m', done, lb)
  {
    hide SearchState, Keyed;
    QueueIsKeyed(h, root, metric, p, seen, m, done, lb);
    var x := e.item.node;
    var objectDist := metric(p, PositionOf(x.leaf));
    var first := pq.GetMin();
    if e.isRect && first.Some? && objectDist > first.value.rank {
      m' := QueueAgain(pq, e, objectDist, m);
      BoxIsOpened(m, x, m'[x]);
      PutBack(h, root, metric, p, seen, m, done, x, lb);
      report := false;
    } else {
      m' := m - {x};
      NothingBelow(h, root, metric, p, seen, m, done, e, pq, first, lb);
      Reported(h, root, metric, p, seen, m, done, x, lb);
      report := true;
    }
  }

  /** The object goes back by its own distance. */
  method QueueAgain(pq: MinHeap<BoundedItem>, e: Ranked<BoundedItem>, objectDist: real, ghost m: Queue)
    returns (ghost m': Queue)
    requires Keyed(m) && e.item.node in m && m[e.item.node] == e && e.item.Data? && Represents(pq, m - {e.item.node})
    modifies pq
    ensures m' == m[e.item.node := Ranked(objectDist, e.item, false)] && Represents(pq, m')
  {
    ghost var x, rest := e.item.node, m - {e.item.node};
    var again := Ranked(objectDist, e.item, false);
    PutInQueue(rest, x, again);
    pq.Insert(again);
    m' := m[x := again];
    assert rest[x := again] == m';
  }

  lemma BoxIsOpened(m: Queue, x: Node, again: Ranked<BoundedItem>)
    requires x in m && m[x].isRect && !again.isRect
    ensures m[x := again].Keys == m.Keys && BoxedIn(m[x := again]) < BoxedIn(m)
  {
    assert x in BoxedIn(m) && x !in BoxedIn(m[x := again]);
  }

  /** An extracted object is reported when nothing left in the queue ranks below its distance. */
  lemma NothingBelow(h: Mem, root: Node, metric: Metric, p: Point, seen: set<Node>, m: Queue, done: seq<Node>,
                     e: Ranked<BoundedItem>, pq: MinHeap<BoundedItem>, first: Option<Ranked<BoundedItem>>, lb: bool)
    requires SearchState(h, root, metric, p, seen, m, done, lb) && e.item.node in m && m[e.item.node] == e &&
      e.item.Data?
    requires Represents(pq, m - {e.item.node}) && forall z :: z in m ==> e.rank <= m[z].rank
    requires first == None <==> pq.heap == []
    requires first.Some? ==> forall x :: x in pq.Contents() ==> first.value.rank <= x.rank
    requires !(e.isRect && first.Some? && metric(p, PositionOf(e.item.node.leaf)) > first.value.rank)
    ensures lb ==> forall z {:trigger m[z]} :: z in m && z != e.item.node ==> Dist(metric, p, e.item.node) <= m[z].rank
    ensures e.item.node.lvl == 0
  {
    var x, rest := e.item.node, m - {e.item.node};
    assert m[x].item.Data? <==> x.lvl == 0;
    if lb {
      forall z {:trigger m[z]} | z in m && z != x
        ensures Dist(metric, p, x) <= m[z].rank
      {
        assert rest[z] == m[z] && m[z] in pq.Contents();
      }
    }
  }

  /** The progress of a step: more nodes have been seen, or fewer are queued, or fewer boxed objects are. */
  ghost predicate Progress(h: Mem, seen: set<Node>, m: Queue, seen': set<Node>, m': Queue) {
    var (unseen, unseen') := (h.Keys - seen, h.Keys - seen');
    |unseen'| < |unseen| ||
    (unseen' == unseen && (|m'.Keys| < |m.Keys| || (|m'.Keys| == |m.Keys| && |BoxedIn(m')| < |BoxedIn(m)|)))
  }

  lemma ObjectProgress(h: Mem, seen: set<Node>, m: Queue, x: Node, m': Queue)
    requires x in m && (m' == m - {x} || (m'.Keys == m.Keys && BoxedIn(m') < BoxedIn(m)))
    ensures Progress(h, seen, m, seen, m')
  {
    if m' == m - {x} {
      assert m'.Keys == m.Keys - {x};
      SubsetSize(m'.Keys, m.Keys);
    } else {
      SubsetSize(BoxedIn(m'), BoxedIn(m));
    }
  }

  lemma NodeProgress(h: Mem, root: Node, metric: Metric, p: Point, seen: set<Node>, m: Queue, done: seq<Node>, n: Node,
                     m': Queue, lb: bool)
    requires SearchState(h, root, metric, p, seen, m, done, lb) && n in m
    requires Pushed(h, metric, p, m - {n}, h[n].items, m')
    ensures Progress(h, seen, m, seen + SetOf(h[n].items), m')
  {
    hide SearchState;
    ChildrenAreNew(h, root, metric, p, seen, m, done, n, lb);
    var kids := SetOf(h[n].items);
    if h[n].items == [] {
      assert kids == {} && m'.Keys == m.Keys - {n};
      assert seen + kids == seen;
      SubsetSize(m'.Keys, m.Keys);
    } else {
      assert h[n].items[0] in h.Keys - seen;
      SubsetSize(h.Keys - (seen + kids), h.Keys - seen);
    }
  }

  method VisitNode(pq: MinHeap<BoundedItem>, root: Node, ghost live: set<Node>, ghost cfg: Config, n: Node, p: Point,
                   metric: Metric, ghost h: Mem,
                   ghost seen: set<Node>, ghost m: Queue, ghost done: seq<Node>, ghost lb: bool)
    returns (ghost seen': set<Node>, ghost m': Queue)
    requires h == Snapshot(live) && Searchable(h, root, cfg) && SearchState(h, root, metric, p, seen, m, done, lb)
    requires lb ==> LowerBound(h, root, metric, p)
    requires n in m && n.lvl > 0 && Represents(pq, m - {n})
    modifies pq
    ensures Represents(pq, m') && Progress(h, seen, m, seen', m') && Snapshot(live) == h
    ensures SearchState(h, root, metric, p, seen', m', done, lb)
  {
    hide SearchState, Progress, LowerBound;
    ChildrenAreNew(h, root, metric, p, seen, m, done, n, lb);
    assert h[n].items == n.items;
    m' := PushItems(pq, n, p, metric, root, live, cfg, m - {n});
    NodeProgress(h, root, metric, p, seen, m, done, n, m', lb);
    Descended(h, root, metric, p, seen, m, done, n, m', lb);
    seen' := seen + SetOf(h[n].items);
  }

  lemma ObjectSeqMore(done: seq<Node>, x: Node)
    ensures ObjectSeq(done + [x]) == ObjectSeq(done) + [x.leaf]
  {
  }

  method Visit(pq: MinHeap<BoundedItem>, root: Node, ghost live: set<Node>, ghost cfg: Config, p: Point, metric: Metric,
               ghost h: Mem, ghost seen: set<Node>,
               ghost m: Queue, ghost done: seq<Node>, ghost lb: bool)
    returns (reported: Option<OSMObject>, ghost seen': set<Node>, ghost m': Queue, ghost done': seq<Node>)
    requires h == Snapshot(live) && Searchable(h, root, cfg) && SearchState(h, root, metric, p, seen, m, done, lb)
    requires lb ==> LowerBound(h, root, metric, p)
    requires Represents(pq, m) && m != map[]
    modifies pq
    ensures Represents(pq, m') && Progress(h, seen, m, seen', m') && Snapshot(live) == h
    ensures SearchState(h, root, metric, p, seen', m', done', lb)
    ensures if reported.Some? then ObjectSeq(done') == ObjectSeq(done) + [reported.value] else done' == done
  {
    hide SearchState, Progress, LowerBound, Searchable;
    QueueIsKeyed(h, root, metric, p, seen, m, done, lb);
    var e := Extract(pq, live, m);
    seen', done', reported := seen, done, None;
    if e.item.Data? {
      reported, m', done' := VisitData(pq, e, root, live, cfg, p, metric, h, seen, m, done, lb);
    } else {
      seen', m' := VisitNode(pq, root, live, cfg, e.item.node, p, metric, h, seen, m, done, lb);
    }
  }

  method VisitData(pq: MinHeap<BoundedItem>, e: Ranked<BoundedItem>, root: Node, ghost live: set<Node>,
                   ghost cfg: Config, p: Point, metric: Metric, ghost h: Mem,
                   ghost seen: set<Node>, ghost m: Queue, ghost done: seq<Node>, ghost lb: bool)
    returns (reported: Option<OSMObject>, ghost m': Queue, ghost done': seq<Node>)
    requires h == Snapshot(live) && SearchState(h, root, metric, p, seen, m, done, lb) && e.item.node in m &&
      m[e.item.node] == e
    requires e.item.Data? && Represents(pq, m - {e.item.node}) && forall z :: z in m ==> e.rank <= m[z].rank
    modifies pq
    ensures Represents(pq, m') && Progress(h, seen, m, seen, m') && Snapshot(live) == h
    ensures SearchState(h, root, metric, p, seen, m', done', lb)
    ensures if reported.Some? then ObjectSeq(done') == ObjectSeq(done) + [reported.value] else done' == done
  {
    hide SearchState, Progress, ObjectSeq, Represents;
    var report;
    report, m' := VisitObject(pq, e, p, metric, h, root, seen, m, done, lb);
    ObjectProgress(h, seen, m, e.item.node, m');
    reported, done' := None, done;
    if report {
      ObjectSeqMore(done, e.item.node);
      reported, done' := Some(e.item.node.leaf), done + [e.item.node];
    }
  }

  lemma DoneIsData(h: Mem, root: Node, metric: Metric, p: Point, seen: set<Node>, m: Queue, done: seq<Node>, lb: bool)
    requires SearchState(h, root, metric, p, seen, m, done, lb)
    ensures Distinct(done) && SetOf(done) <= DataOf(h.Keys)
    ensures lb ==> Ascending(metric, p, done) && NoneNearer(DataOf(h.Keys), metric, p, done)
  {
    forall d | d in done
      ensures d in DataOf(h.Keys)
    {
      assert Frontier(h, root, seen, m.Keys, SetOf(done)) && d in SetOf(done);
      assert d in seen - m.Keys && d in h.Keys && d.lvl == 0;
    }
  }

  /** Every report but the last was answered with the wish to continue. */
  ghost predicate Continued(callback: seq<OSMObject> -> bool, out: seq<OSMObject>) {
    forall i {:trigger out[..i]} :: 0 < i < |out| ==> callback(out[..i])
  }

  lemma ContinuedMore(callback: seq<OSMObject> -> bool, out: seq<OSMObject>, o: OSMObject)
    requires Continued(callback, out) && (out == [] || callback(out))
    ensures Continued(callback, out + [o])
  {
    forall i {:trigger (out + [o])[..i]} | 0 < i < |out + [o]|
      ensures callback((out + [o])[..i])
    {
      assert (out + [o])[..i] == if i == |out| then out else out[..i];
    }
  }

  method StartQueue(root: Node, ghost live: set<Node>, ghost cfg: Config, p: Point, metric: Metric, ghost lb: bool)
    returns (pq: MinHeap<BoundedItem>, ghost m: Queue)
    requires Searchable(Snapshot(live), root, cfg) && (lb ==> LowerBound(Snapshot(live), root, metric, p))
    ensures fresh(pq) && Represents(pq, m) && SearchState(Snapshot(live), root, metric, p, {root}, m, [], lb)
    ensures Snapshot(live) == old(Snapshot(live))
  {
    SearchStarts(Snapshot(live), root, metric, p, lb);
    pq := new MinHeap<BoundedItem>();
    var top := Ranked(0.0, Tree(root), false);
    m := map[root := top];
    PutInQueue(map[], root, top);
    pq.Insert(top);
  }

  /** `live` are the nodes that belong to the tree; entries that a split lost are not among them. The
      callback is a function of the objects reported so far; `done` holds their data entries.
      However distance is measured, the search ends, reports every object at most once and all of them
      unless it is stopped; if boxes are lower bounds, the reports come in order of distance. */
  method IncrementalNearestNeighbor(t: Rtree, p: Point, metric: Metric, callback: seq<OSMObject> -> bool,
                                    ghost live: set<Node>, ghost cfg: Config)
    returns (out: seq<OSMObject>, ghost done: seq<Node>)
    requires Searchable(Snapshot(live), t.root, cfg)
    ensures out == ObjectSeq(done) && Distinct(done) && SetOf(done) <= DataOf(live)
    ensures LowerBound(Snapshot(live), t.root, metric, p) ==>
      Ascending(metric, p, done) && NoneNearer(DataOf(live), metric, p, done)
    ensures Continued(callback, out) && ((out != [] && !callback(out)) || SetOf(done) == DataOf(live))
    ensures multiset(out) <= Stored(Snapshot(live), t.root) &&
      (out == [] || callback(out) ==> multiset(out) == Stored(Snapshot(live), t.root))
  {
    hide SearchState, LowerBound, Continued;
    ghost var lb, seen, m := LowerBound(Snapshot(live), t.root, metric, p), {}, map[];
    out, done, seen, m := SearchLoop(t.root, live, cfg, p, metric, callback, lb);
    DoneIsData(Snapshot(live), t.root, metric, p, seen, m, done, lb);
    ReportsAreStored(Snapshot(live), t.root, cfg, done);
  }

  method SearchLoop(root: Node, ghost live: set<Node>, ghost cfg: Config, p: Point, metric: Metric,
                    callback: seq<OSMObject> -> bool, ghost lb: bool)
    returns (out: seq<OSMObject>, ghost done: seq<Node>, ghost seen: set<Node>, ghost m: Queue)
    requires Searchable(Snapshot(live), root, cfg) && (lb ==> LowerBound(Snapshot(live), root, metric, p))
    ensures SearchState(Snapshot(live), root, metric, p, seen, m, done, lb) && out == ObjectSeq(done)
    ensures Continued(callback, out) && ((out != [] && !callback(out)) || SetOf(done) == DataOf(live))
  {
    hide SearchState, LowerBound, Continued;
    ghost var h := Snapshot(live);
    var pq;
    pq, m := StartQueue(root, live, cfg, p, metric, lb);
    out, done, seen := [], [], {root};
    NothingContinued(callback);
    while true
      invariant fresh(pq) && Snapshot(live) == h && Represents(pq, m) &&
        SearchState(h, root, metric, p, seen, m, done, lb)
      invariant out == ObjectSeq(done) && Continued(callback, out) && (out == [] || callback(out))
      decreases |h.Keys - seen|, |m.Keys|, |BoxedIn(m)|
    {
      var size := pq.Size();
      if size == 0 {
        EmptyQueue(pq, m);
        SearchEnds(h, root, metric, p, seen, done, lb);
        return;
      }
      SomeQueued(pq, m);
      var more;
      out, more, seen, m, done := SearchStep(pq, root, live, cfg, p, metric, callback, out, h, seen, m, done, lb);
      if !more {
        return;
      }
    }
  }

  /** One entry of the queue is visited and the callback is asked after a report. */
  method SearchStep(pq: MinHeap<BoundedItem>, root: Node, ghost live: set<Node>, ghost cfg: Config, p: Point,
                    metric: Metric, callback: seq<OSMObject> -> bool,
                    out: seq<OSMObject>, ghost h: Mem, ghost seen: set<Node>, ghost m: Queue, ghost done: seq<Node>,
                    ghost lb: bool)
    returns (out': seq<OSMObject>, more: bool, ghost seen': set<Node>, ghost m': Queue, ghost done': seq<Node>)
    requires h == Snapshot(live) && Searchable(h, root, cfg) && SearchState(h, root, metric, p, seen, m, done, lb)
    requires lb ==> LowerBound(h, root, metric, p)
    requires Represents(pq, m) && m != map[]
    requires out == ObjectSeq(done) && Continued(callback, out) && (out == [] || callback(out))
    modifies pq
    ensures Represents(pq, m') && Progress(h, seen, m, seen', m') && Snapshot(live) == h
    ensures SearchState(h, root, metric, p, seen', m', done', lb)
    ensures out' == ObjectSeq(done') && Continued(callback, out')
    ensures if more then out' == [] || callback(out') else out' != [] && !callback(out')
  {
    hide Searchable, SearchState, LowerBound, Continued, Represents, Progress, ObjectSeq;
    var reported;
    reported, seen', m', done' := Visit(pq, root, live, cfg, p, metric, h, seen, m, done, lb);
    out', more := out, true;
    if reported.Some? {
      ContinuedMore(callback, out, reported.value);
      out' := out + [reported.value];
      more := callback(out');
    }
  }

  lemma NothingContinued(callback: seq<OSMObject> -> bool)
    ensures Continued(callback, [])
  {
  }

  lemma EmptyQueue(pq: MinHeap<BoundedItem>, m: Queue)
    requires Represents(pq, m) && pq.heap == []
    ensures m == map[]
  {
    assert forall x :: x in m ==> m[x] in m.Values && m[x] in multiset(m.Values);
  }

  lemma SomeQueued(pq: MinHeap<BoundedItem>, m: Queue)
    requires Represents(pq, m) && pq.heap != []
    ensures m != map[]
  {
    assert pq.heap[0] in pq.Contents();
  }

  /** The reported data entries are the reported objects. */
  lemma ReportsAreStored(h: Mem, root: Node, cfg: Config, done: seq<Node>)
    requires Searchable(h, root, cfg) && Distinct(done) && SetOf(done) <= DataOf(h.Keys)
    ensures multiset(ObjectSeq(done)) <= Stored(h, root)
    ensures SetOf(done) == DataOf(h.Keys) ==> multiset(ObjectSeq(done)) == Stored(h, root)
  {
    StoredIsData(h, root);
    ObjectsOfSeq(done);
    ObjectsOfUnion(SetOf(done), DataOf(h.Keys) - SetOf(done));
    assert SetOf(done) + (DataOf(h.Keys) - SetOf(done)) == DataOf(h.Keys);
  }

  // ----- when boxes are lower bounds -----

  /** A tree whose splits were clean can be searched, and if its objects lie in their own boxes then
      boxes are lower bounds for every distance that grows outward, planar distance for one. */
  lemma CleanIsSearchable(h: Mem, root: Node, cfg: Config, metric: Metric, p: Point)
    requires Sound(h, root, cfg) && Proper(h, root, cfg) && 2 <= cfg.dims
    ensures Searchable(h, root, cfg)
    ensures GrowsOutward(metric) && (forall x :: x in Stored(h, root) ==> InBox(PositionOf(x), x.bound)) ==>
      LowerBound(h, root, metric, p)
    ensures (forall x :: x in Stored(h, root) ==> InBox(PositionOf(x), x.bound)) ==>
      LowerBound(h, root, PlanarSquared, p)
  {
    forall y | y in h && y.lvl == 0
      ensures h[y].bound == y.leaf.bound && y.leaf in Stored(h, root)
    {
      assert Tight(h, y);
      StoredIsData(h, root);
      ObjectsOfMember(DataOf(h.Keys), y.leaf);
      assert y in DataOf(h.Keys);
    }
    if forall x :: x in Stored(h, root) ==> InBox(PositionOf(x), x.bound) {
      PlanarGrowsOutward();
      BoxesAreLowerBounds(h, root, cfg, PlanarSquared, p);
      if GrowsOutward(metric) {
        BoxesAreLowerBounds(h, root, cfg, metric, p);
      }
    }
  }

  // ----- k nearest -----

  /** The `k` nearest objects; one is reported even for `k` = 0, because the callback is asked only
      after a report. A negative `k` panics as the capacity of a list. */
  method NearestNeighboursPQ(t: Rtree, k: int, p: Point, metric: Metric, ghost live: set<Node>, ghost cfg: Config)
    returns (nearest: Option<seq<OSMObject>>, ghost done: seq<Node>)
    requires Searchable(Snapshot(live), t.root, cfg)
    ensures nearest.None? <==> k < 0
    ensures nearest.Some? ==>
      nearest.value == ObjectSeq(done) && multiset(nearest.value) <= Stored(Snapshot(live), t.root)
    ensures nearest.Some? ==> Distinct(done) && SetOf(done) <= DataOf(live)
    ensures nearest.Some? && LowerBound(Snapshot(live), t.root, metric, p) ==>
      Ascending(metric, p, done) && NoneNearer(DataOf(live), metric, p, done)
    ensures nearest.Some? ==> |nearest.value| == Least(|Stored(Snapshot(live), t.root)|, Most(1, Least(k, t.size)))
  {
    hide AllLinked, LowerBound;
    if k < 0 {
      return None, [];
    }
    var size := t.size;
    var callback := (found: seq<OSMObject>) => if size > k then |found| < k else |found| < size;
    var found;
    found, done := IncrementalNearestNeighbor(t, p, metric, callback, live, cfg);
    HowMany(Stored(Snapshot(live), t.root), found, callback, Least(k, size));
    nearest := Some(found);
  }

  function Least(a: int, b: int): int {
    if a < b then a else b
  }

  function Most(a: int, b: int): int {
    if a < b then b else a
  }

  /** A callback that asks for `n` objects stops the search after them, but not before the first. */
  lemma HowMany(all: multiset<OSMObject>, found: seq<OSMObject>, callback: seq<OSMObject> -> bool, n: int)
    requires multiset(found) <= all && Continued(callback, found)
    requires found == [] || callback(found) ==> multiset(found) == all
    requires forall s {:trigger callback(s)} :: callback(s) <==> |s| < n
    ensures |found| == Least(|all|, Most(1, n))
  {
    FewerOrAll(multiset(found), all);
    if |found| > 1 {
      assert callback(found[..|found| - 1]);
    }
  }

  lemma FewerOrAll<X>(a: multiset<X>, b: multiset<X>)
    requires a <= b
    ensures |a| <= |b|
  {
    assert b == a + (b - a);
  }

  method ImprovedNearestNeighbor(t: Rtree, p: Point, metric: Metric, ghost live: set<Node>, ghost cfg: Config)
    returns (nearest: OSMObject, ghost e: Node)
    requires Searchable(Snapshot(live), t.root, cfg)
    ensures Stored(Snapshot(live), t.root) == multiset{} ==> nearest == NO_OBJECT
    ensures Stored(Snapshot(live), t.root) != multiset{} ==>
      e in DataOf(live) && nearest == e.leaf && nearest in Stored(Snapshot(live), t.root)
    ensures Stored(Snapshot(live), t.root) != multiset{} && LowerBound(Snapshot(live), t.root, metric, p) ==>
      forall y :: y in DataOf(live) ==> Dist(metric, p, e) <= Dist(metric, p, y)
  {
    hide AllLinked, LowerBound;
    var callback := (found: seq<OSMObject>) => false;
    var found;
    ghost var done;
    found, done := IncrementalNearestNeighbor(t, p, metric, callback, live, cfg);
    HowMany(Stored(Snapshot(live), t.root), found, callback, 0);
    nearest, e := NO_OBJECT, t.root;
    if found != [] {
      nearest, e := found[|found| - 1], done[0];
      assert e in done && SetOf(done) == {e} && e in SetOf(done);
      assert nearest in multiset(found);
    }
  }
}
