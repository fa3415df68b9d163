/** What a best-first search over the tree keeps, stated on snapshots, and when the distance to a
    box is a lower bound for everything in it. */
module BestFirst {
  import opened Boxes
  import opened SplitPolicy
  import opened RtreeNodes
  import opened RtreeInvariant
  import opened RtreeContents
  import opened MinHeaps

  datatype Point = Point(lat: real, lon: real)
  type Metric = (Point, Point) -> real

  function PositionOf(o: OSMObject): Point {
    Point(o.lat, o.lon)
  }

  /** The coordinate of the interval nearest to `c`. */
  function Clamp(c: real, i: Interval): real {
    if c < i.lo then i.lo else if c > i.hi then i.hi else c
  }

  /** `minDist`. */
  function MinDist(metric: Metric, p: Point, r: Box): real
    requires |r| >= 2
  {
    metric(p, Point(Clamp(p.lat, r[0]), Clamp(p.lon, r[1])))
  }

  // ----- the queue -----

  /** What the queue holds pointers to: a node of the tree, or the object of a data entry. */
  datatype BoundedItem = Tree(node: Node) | Data(node: Node)

  /** One queue entry per node. */
  type Queue = map<Node, Ranked<BoundedItem>>

  ghost predicate Keyed(m: Queue) {
    forall x {:trigger m[x]} :: x in m ==>
      m[x].item.node == x && (m[x].item.Data? <==> x.lvl == 0) && (m[x].isRect ==> x.lvl == 0)
  }

  lemma TakeFromQueue(m: Queue, x: Node)
    requires Keyed(m) && x in m
    ensures Keyed(m - {x}) && multiset((m - {x}).Values) == multiset(m.Values) - multiset{m[x]}
  {
    var r := m - {x};
    forall e | e in m.Values && e != m[x]
      ensures e in r.Values
    {
      var y: Node :| y in m && m[y] == e;
      assert r[y] == e;
    }
    forall e | e in r.Values
      ensures e in m.Values && e != m[x]
    {
      var y: Node :| y in r && r[y] == e;
      assert m[y] == e;
    }
    assert r.Values == m.Values - {m[x]};
  }

  lemma PutInQueue(m: Queue, x: Node, e: Ranked<BoundedItem>)
    requires Keyed(m) && x !in m && Keyed(map[x := e])
    ensures Keyed(m[x := e]) && multiset(m[x := e].Values) == multiset(m.Values) + multiset{e}
  {
    var r := m[x := e];
    assert map[x := e][x] == r[x] == e;
    forall v | v in m.Values
      ensures v in r.Values && v != e
    {
      var y: Node :| y in m && m[y] == v;
      assert r[y] == v;
    }
    forall v | v in r.Values && v != e
      ensures v in m.Values
    {
      var y: Node :| y in r && r[y] == v;
      assert m[y] == v;
    }
    assert r.Values == m.Values + {e};
  }

  // ----- which entries have been met -----

  /** `seen` is closed upward, everything below a node that was seen and is no longer queued has
      been seen, and a data entry that was seen is queued or done. */
  ghost predicate Frontier(h: Mem, root: Node, seen: set<Node>, queued: set<Node>, done: set<Node>) {
    root in seen && queued <= seen && done <= seen - queued && seen <= h.Keys &&
    (forall x {:trigger x in done} :: x in done ==> x.lvl == 0) &&
    (forall x {:trigger x in seen} :: x in seen && x.lvl == 0 ==> x in queued || x in done) &&
    (forall x {:trigger h[x].parent} :: x in seen && x != root ==> h[x].parent in seen && h[x].parent !in queued) &&
    (forall x, c {:trigger c in h[x].items} :: x in seen && x !in queued && c in h[x].items ==> c in seen)
  }

  /** A data entry that is not done has an ancestor, or itself, in the queue. */
  lemma {:induction false} WaitsInQueue(h: Mem, root: Node, seen: set<Node>, queued: set<Node>, done: set<Node>,
                                        y: Node, l: nat)
    returns (x: Node)
    requires Shape(h, root, null) && AllLinked(h, root, null) && Frontier(h, root, seen, queued, done)
    requires y in h && y.lvl == 0 && y !in done && l <= root.lvl && (0 < l ==> Up(h, root, y, l - 1) !in seen)
    ensures x in queued && x.lvl <= root.lvl && Up(h, root, y, x.lvl) == x
    decreases root.lvl - l
  {
    var a := Up(h, root, y, l);
    OnlyOneAtTop(h, root, y);
    if a in queued {
      x := a;
    } else if a in seen {
      UpByHolder(h, root, y, a);
    } else {
      x := WaitsInQueue(h, root, seen, queued, done, y, l + 1);
    }
  }

  // ----- distances -----

  function Dist(metric: Metric, p: Point, y: Node): real {
    metric(p, PositionOf(y.leaf))
  }

  /** `y` is a data entry and `x` is `y` or an ancestor of `y`. */
  ghost predicate IsBelow(h: Mem, root: Node, y: Node, x: Node)
    requires Shape(h, root, null)
  {
    y in h && y.lvl == 0 && x.lvl <= root.lvl && Up(h, root, y, x.lvl) == x
  }

  /** The distance to a box never exceeds the distance to an object below it. */
  ghost predicate LowerBound(h: Mem, root: Node, metric: Metric, p: Point)
    requires Shape(h, root, null)
  {
    (forall x, y {:trigger IsBelow(h, root, y, x)} :: x in h && y in h && x != root && IsBelow(h, root, y, x) ==>
      |h[x].bound| >= 2 && MinDist(metric, p, h[x].bound) <= Dist(metric, p, y)) &&
    (forall y {:trigger Dist(metric, p, y)} :: y in h && y.lvl == 0 ==> 0.0 <= Dist(metric, p, y))
  }

  ghost predicate Bounding(h: Mem, root: Node, metric: Metric, p: Point, m: Queue)
    requires Shape(h, root, null)
  {
    (forall x, y {:trigger IsBelow(h, root, y, x)} :: x in m && y in h && IsBelow(h, root, y, x) ==>
      m[x].rank <= Dist(metric, p, y)) &&
    (forall x {:trigger m[x]} :: x in m && x.lvl == 0 && !m[x].isRect ==> m[x].rank == Dist(metric, p, x))
  }

  ghost predicate Ascending(metric: Metric, p: Point, done: seq<Node>) {
    forall i, j :: 0 <= i < j < |done| ==> Dist(metric, p, done[i]) <= Dist(metric, p, done[j])
  }

  /** No data entry left out is nearer than one in `done`. */
  ghost predicate NoneNearer(data: set<Node>, metric: Metric, p: Point, done: seq<Node>) {
    forall d, y {:trigger Dist(metric, p, d), Dist(metric, p, y)} :: d in done && y in data && y !in done ==>
      Dist(metric, p, d) <= Dist(metric, p, y)
  }

  /** What every step of a search keeps; the order of the reports only if boxes are lower bounds (`lb`). */
  ghost predicate SearchState(h: Mem, root: Node, metric: Metric, p: Point, seen: set<Node>, m: Queue, done: seq<Node>,
                              lb: bool) {
    Shape(h, root, null) && AllLinked(h, root, null) && Keyed(m) &&
    Frontier(h, root, seen, m.Keys, SetOf(done)) && Distinct(done) &&
    (lb ==>
      Bounding(h, root, metric, p, m) && Ascending(metric, p, done) && NoneNearer(DataOf(h.Keys), metric, p, done))
  }

  // ----- the steps -----

  lemma SearchStarts(h: Mem, root: Node, metric: Metric, p: Point, lb: bool)
    requires Shape(h, root, null) && AllLinked(h, root, null) && (lb ==> LowerBound(h, root, metric, p))
    ensures SearchState(h, root, metric, p, {root}, map[root := Ranked(0.0, Tree(root), false)], [], lb)
  {
    assert Kids(h, root, root, null);
  }

  /** A data entry is reported once nothing in the queue ranks below its distance. */
  lemma Reported(h: Mem, root: Node, metric: Metric, p: Point, seen: set<Node>, m: Queue, done: seq<Node>, x: Node,
                 lb: bool)
    requires SearchState(h, root, metric, p, seen, m, done, lb) && x in m && x.lvl == 0
    requires lb ==> forall z {:trigger m[z]} :: z in m && z != x ==> Dist(metric, p, x) <= m[z].rank
    ensures SearchState(h, root, metric, p, seen, m - {x}, done + [x], lb)
  {
    var done' := done + [x];
    assert x in DataOf(h.Keys);
    assert SetOf(done') == SetOf(done) + {x} && (m - {x}).Keys == m.Keys - {x};
    assert Kids(h, x, root, null);
    assert Frontier(h, root, seen, (m - {x}).Keys, SetOf(done'));
    if lb {
      forall y | y in DataOf(h.Keys) && y !in done'
        ensures Dist(metric, p, x) <= Dist(metric, p, y)
      {
        var z := WaitsInQueue(h, root, seen, m.Keys, SetOf(done), y, 0);
        assert IsBelow(h, root, y, z) && z != x;
      }
    }
  }

  /** A boxed data entry goes back with its true distance. */
  lemma PutBack(h: Mem, root: Node, metric: Metric, p: Point, seen: set<Node>, m: Queue, done: seq<Node>, x: Node,
                lb: bool)
    requires SearchState(h, root, metric, p, seen, m, done, lb) && x in m && x.lvl == 0
    ensures SearchState(h, root, metric, p, seen, m[x := Ranked(Dist(metric, p, x), Data(x), false)], done, lb)
  {
    var m' := m[x := Ranked(Dist(metric, p, x), Data(x), false)];
    assert m'.Keys == m.Keys;
    forall y | IsBelow(h, root, y, x)
      ensures y == x
    {
    }
  }

  ghost function RankOf(h: Mem, metric: Metric, p: Point, c: Node): Ranked<BoundedItem>
    requires c in h && |h[c].bound| >= 2
  {
    Ranked(MinDist(metric, p, h[c].bound), if c.lvl == 0 then Data(c) else Tree(c), c.lvl == 0)
  }

  /** `m'` is `m` with the entries `items` added. */
  ghost predicate Pushed(h: Mem, metric: Metric, p: Point, m: Queue, items: seq<Node>, m': Queue) {
    m'.Keys == m.Keys + SetOf(items) &&
    (forall c {:trigger m'[c]} :: c in m' && c !in items ==> c in m && m'[c] == m[c]) &&
    (forall c {:trigger m'[c]} :: c in items ==>
      c in m' && c in h && |h[c].bound| >= 2 && m'[c] == RankOf(h, metric, p, c))
  }

  lemma NothingPushed(h: Mem, metric: Metric, p: Point, m: Queue, items: seq<Node>)
    ensures Pushed(h, metric, p, m, items[..0], m) && items[..|items|] == items
  {
  }

  lemma NotPushedYet(h: Mem, metric: Metric, p: Point, m: Queue, items: seq<Node>, i: nat, m': Queue)
    requires i < |items| && Distinct(items) && items[i] !in m && Pushed(h, metric, p, m, items[..i], m')
    ensures items[i] !in m'
  {
  }

  lemma PushedMore(h: Mem, metric: Metric, p: Point, m: Queue, items: seq<Node>, i: nat, m': Queue)
    requires i < |items| && Pushed(h, metric, p, m, items[..i], m') && items[i] in h && |h[items[i]].bound| >= 2
    ensures Pushed(h, metric, p, m, items[..i + 1], m'[items[i] := RankOf(h, metric, p, items[i])])
  {
    var x, r := items[i], m'[items[i] := RankOf(h, metric, p, items[i])];
    assert items[..i + 1] == items[..i] + [x];
    assert SetOf(items[..i + 1]) == SetOf(items[..i]) + {x} && r.Keys == m'.Keys + {x};
    forall c: Node | c in r && c !in items[..i + 1]
      ensures c in m && r[c] == m[c]
    {
      assert c in m' && c !in items[..i] && r[c] == m'[c];
    }
    forall c: Node | c in items[..i + 1]
      ensures c in r && c in h && |h[c].bound| >= 2 && r[c] == RankOf(h, metric, p, c)
    {
      if c != x { assert c in items[..i] && r[c] == m'[c]; }
    }
  }

  /** Nothing below a queued node has been met. */
  lemma ChildrenAreNew(h: Mem, root: Node, metric: Metric, p: Point, seen: set<Node>, m: Queue, done: seq<Node>,
                       n: Node, lb: bool)
    requires SearchState(h, root, metric, p, seen, m, done, lb) && n in m
    ensures n in h && forall c :: c in h[n].items ==> c in h && c !in seen && c !in m && c != root && h[c].parent == n
  {
    assert Kids(h, n, root, null) && Link(h, n, root, null);
    forall c | c in h[n].items
      ensures c !in seen && c != root && h[c].parent == n
    {
      assert Link(h, c, root, null) && Kids(h, root, root, null);
    }
  }

  lemma Descended(h: Mem, root: Node, metric: Metric, p: Point, seen: set<Node>, m: Queue, done: seq<Node>, n: Node,
                  m': Queue, lb: bool)
    requires SearchState(h, root, metric, p, seen, m, done, lb) && n in m && n.lvl > 0
    requires (lb ==> LowerBound(h, root, metric, p)) && Pushed(h, metric, p, m - {n}, h[n].items, m')
    ensures SearchState(h, root, metric, p, seen + SetOf(h[n].items), m', done, lb)
  {
    var kids := SetOf(h[n].items);
    assert Kids(h, n, root, null);
    ChildrenAreNew(h, root, metric, p, seen, m, done, n, lb);
    if lb {
      forall x, y | x in m' && IsBelow(h, root, y, x)
        ensures m'[x].rank <= Dist(metric, p, y)
      {
        assert x in kids || m'[x] == m[x];
      }
    }
    assert Frontier(h, root, seen + kids, m'.Keys, SetOf(done));
  }

  lemma SearchEnds(h: Mem, root: Node, metric: Metric, p: Point, seen: set<Node>, done: seq<Node>, lb: bool)
    requires SearchState(h, root, metric, p, seen, map[], done, lb)
    ensures SetOf(done) == DataOf(h.Keys)
  {
    forall y | y in DataOf(h.Keys)
      ensures y in done
    {
      if y !in done {
        var x := WaitsInQueue(h, root, seen, {}, SetOf(done), y, 0);
        assert false;
      }
    }
  }

  // ----- when the distance to a box is a lower bound -----

  function PlanarSquared(p: Point, q: Point): real {
    (q.lat - p.lat) * (q.lat - p.lat) + (q.lon - p.lon) * (q.lon - p.lon)
  }

  /** The distance does not shrink when both coordinates move away, and is never negative. */
  ghost predicate GrowsOutward(metric: Metric) {
    forall p: Point, q: Point, r: Point {:trigger metric(p, q), metric(p, r)} ::
      0.0 <= metric(p, q) &&
      (Abs(q.lat - p.lat) <= Abs(r.lat - p.lat) && Abs(q.lon - p.lon) <= Abs(r.lon - p.lon) ==>
        metric(p, q) <= metric(p, r))
  }

  lemma SquareGrows(x: real, y: real)
    requires Abs(x) <= Abs(y)
    ensures 0.0 <= x * x <= y * y
  {
    assert x * x == Abs(x) * Abs(x) && y * y == Abs(y) * Abs(y);
    assert Abs(y) * Abs(y) - Abs(x) * Abs(x) == (Abs(y) - Abs(x)) * (Abs(y) + Abs(x));
  }

  lemma PlanarGrowsOutward()
    ensures GrowsOutward(PlanarSquared)
  {
    forall p: Point, q: Point, r: Point
      ensures 0.0 <= PlanarSquared(p, q)
      ensures Abs(q.lat - p.lat) <= Abs(r.lat - p.lat) && Abs(q.lon - p.lon) <= Abs(r.lon - p.lon) ==>
        PlanarSquared(p, q) <= PlanarSquared(p, r)
    {
      SquareGrows(q.lat - p.lat, q.lat - p.lat);
      SquareGrows(q.lon - p.lon, q.lon - p.lon);
      if Abs(q.lat - p.lat) <= Abs(r.lat - p.lat) && Abs(q.lon - p.lon) <= Abs(r.lon - p.lon) {
        SquareGrows(q.lat - p.lat, r.lat - p.lat);
        SquareGrows(q.lon - p.lon, r.lon - p.lon);
      }
    }
  }

  ghost predicate InBox(q: Point, r: Box) {
    |r| >= 2 && r[0].lo <= q.lat <= r[0].hi && r[1].lo <= q.lon <= r[1].hi
  }

  /** The clamped point is the point of the box nearest to `p`, and `MinDist` its distance. */
  lemma ClampIsNearest(metric: Metric, p: Point, r: Box, q: Point)
    requires GrowsOutward(metric) && InBox(q, r)
    ensures InBox(Point(Clamp(p.lat, r[0]), Clamp(p.lon, r[1])), r) && 0.0 <= MinDist(metric, p, r) <= metric(p, q)
  {
  }

  /** Every ancestor's box holds the box of a data entry. */
  lemma {:induction false} AncestorCovers(h: Mem, root: Node, y: Node, l: nat)
    requires Shape(h, root, null) && AllLinked(h, root, null) && Covering(h, root) && y in h && y.lvl <= l <= root.lvl
    ensures Covers(h[Up(h, root, y, l)].bound, h[y].bound)
    decreases l - y.lvl
  {
    if y.lvl < l {
      assert Kids(h, y, root, null) && Link(h, y, root, null);
      AncestorCovers(h, root, h[y].parent, l);
      CoversTransitive(h[Up(h, root, y, l)].bound, h[h[y].parent].bound, h[y].bound);
    }
  }

  /** In an R-tree whose objects lie in their own boxes, every box is a lower bound. */
  lemma BoxesAreLowerBounds(h: Mem, root: Node, cfg: Config, metric: Metric, p: Point)
    requires Sound(h, root, cfg) && Proper(h, root, cfg) && GrowsOutward(metric)
    requires forall y {:trigger h[y]} :: y in h && y.lvl == 0 ==> InBox(PositionOf(y.leaf), y.leaf.bound)
    ensures LowerBound(h, root, metric, p)
  {
    ProperIsCovering(h, root, cfg);
    forall x, y | x in h && y in h && IsBelow(h, root, y, x)
      ensures |h[x].bound| >= 2 && MinDist(metric, p, h[x].bound) <= Dist(metric, p, y)
    {
      AncestorCovers(h, root, y, x.lvl);
      assert Tight(h, y) && h[y].bound == y.leaf.bound && Covers(h[x].bound, y.leaf.bound);
      ClampIsNearest(metric, p, h[x].bound, PositionOf(y.leaf));
    }
  }

  // ----- the nearest objects are those of a full sort -----

  lemma NoMoreThan<X>(a: seq<X>, b: seq<X>)
    requires Distinct(a) && forall x :: x in a ==> x in b
    ensures |a| <= |b|
  {
    DistinctSize(a);
    FewMembers(b);
    assert (set x | x in a) <= (set x | x in b);
    SubsetSize((set x | x in a), (set x | x in b));
  }

  lemma {:induction false} FewMembers<X>(a: seq<X>)
    ensures |set x | x in a| <= |a|
  {
    if a != [] {
      var n := |a| - 1;
      FewMembers(a[..n]);
      assert a == a[..n] + [a[n]];
      assert (set x | x in a) == (set x | x in a[..n]) + {a[n]};
    }
  }

  /** Position by position, the reported distances are the least of all distances in order. */
  lemma SameDistancesAsSorting(data: set<Node>, metric: Metric, p: Point, done: seq<Node>, sorted: seq<Node>, i: nat)
    requires Distinct(done) && Ascending(metric, p, done) && NoneNearer(data, metric, p, done) && SetOf(done) <= data
    requires Distinct(sorted) && Ascending(metric, p, sorted) && SetOf(sorted) == data
    requires i < |done|
    ensures i < |sorted| && Dist(metric, p, done[i]) == Dist(metric, p, sorted[i])
  {
    DistinctSize(done);
    DistinctSize(sorted);
    SubsetSize(SetOf(done), data);
    var d, s := Dist(metric, p, done[i]), Dist(metric, p, sorted[i]);
    if d < s {
      forall x | x in done[..i + 1]
        ensures x in sorted[..i]
      {
        assert x in SetOf(done) && x in SetOf(sorted);
        assert Dist(metric, p, x) <= d;
      }
      NoMoreThan(done[..i + 1], sorted[..i]);
    } else if s < d {
      forall x | x in sorted[..i + 1]
        ensures x in done[..i]
      {
        assert x in SetOf(sorted) && Dist(metric, p, x) <= s;
        assert done[i] in done && x in done;
      }
      NoMoreThan(sorted[..i + 1], done[..i]);
    }
  }
}
