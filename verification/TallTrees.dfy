/** Such a tree of four levels on the heap, and the deletion that stops on it. */
module TallTrees {
  import opened Boxes
  import opened SplitPolicy
  import opened RtreeNodes
  import opened RtreeInvariant
  import opened RtreeContents
  import opened RtreeDeletion
  import opened RtreeStops
  import opened Rtrees
  import opened RtreeRemoval
  import opened StaleLevels

  const CFG: Config := Config(2, 3, 1, true)

  // ----- building from the leaves -----

  /** A new node above the tops of a forest. */
  lemma Joined(d: Mem, e: Mem, kids: seq<Node>, n: Node)
    requires Forest(d, SetOf(kids), 5, CFG) && Distinct(kids) && 2 <= |kids| <= 3 && n !in d
    requires 1 <= n.lvl < 5 && (n.isLeaf <==> n.lvl == 1) && n.leaf == NO_OBJECT
    requires forall k :: k in kids ==> k.lvl + 1 == n.lvl
    requires e.Keys == d.Keys + {n} && e[n] == NodeState(kids, null, Mbr(BoundsIn(d, kids)))
    requires |Mbr(BoundsIn(d, kids))| == 1
    requires forall y {:trigger e[y]} :: y in d ==> e[y] == if y in kids then d[y].(parent := n) else d[y]
    ensures Forest(e, {n}, 5, CFG)
  {
    forall y | y in e
      ensures Pending(e, y, {n}, 5, CFG)
    {
      if y in d {
        assert Pending(d, y, SetOf(kids), 5, CFG);
        SameBounds(d, e, d[y].items);
      } else {
        forall k | k in kids
          ensures k in e && e[k].parent == n
        {
          assert k in SetOf(kids);
        }
        SameBounds(d, e, kids);
      }
    }
  }

  method NewParent(kids: seq<Node>, isLeaf: bool, bound: Box, ghost l: nat, ghost s: set<Node>) returns (n: Node)
    requires SetOf(kids) <= s && Forest(Snapshot(s), SetOf(kids), 5, CFG) && Distinct(kids) && 2 <= |kids| <= 3
    requires 1 <= l < 5 && (isLeaf <==> l == 1) && forall k :: k in kids ==> k.lvl + 1 == l
    requires |bound| == 1 && bound == Mbr(BoundsIn(Snapshot(s), kids))
    modifies s`parent
    ensures fresh(n) && n.items == kids && n.bound == bound && n.parent == null && n.lvl == l
    ensures Forest(Snapshot(s + {n}), {n}, 5, CFG)
    ensures forall y :: y in s ==> y.parent == if y in kids then n else old(y.parent)
  {
    ghost var d := Snapshot(s);
    n := new Node.Branch(kids, null, isLeaf, l);
    n.bound := bound;
    for i := 0 to |kids|
      invariant n.items == kids && n.bound == bound && n.parent == null
      invariant forall y :: y in s ==> y.parent == if y in kids[..i] then n else old(y.parent)
    {
      assert kids[i] in SetOf(kids);
      kids[i].parent := n;
    }
    assert kids[..|kids|] == kids;
    Joined(d, Snapshot(s + {n}), kids, n);
  }

  lemma MbrOfSpans(one: Box, two: Box, three: Box)
    requires |one| == |two| == |three| == 1
    ensures Mbr([one, two]) == Union(one, two) && Mbr([one, two, three]) == Union(Union(one, two), three)
  {
    assert [one, two][..1] == [one] && [one, two, three][..2] == [one, two];
  }

  lemma SnapshotUnion(a: set<Node>, b: set<Node>)
    requires a !! b
    ensures Snapshot(a + b) == Snapshot(a) + Snapshot(b)
  {
  }

  /** A subtree with the top `n` on level `l`. */
  ghost predicate Planted(s: set<Node>, n: Node, l: nat, bound: Box)
    reads s
  {
    n in s && n.lvl == l && n.bound == bound && Forest(Snapshot(s), {n}, 5, CFG)
  }

  /** Nothing in `s` but the top `n` has a neighbour outside, and every node has three entries. */
  ghost predicate Thick(s: set<Node>, n: Node)
    reads s
  {
    forall y :: y in s ==>
      (y != n ==> y.parent != null && y.parent in s) && (y.lvl > 0 ==> |y.items| == 3) &&
      forall c :: c in y.items ==> c in s
  }

  ghost predicate HaveId(s: set<Node>, id: int) {
    forall y :: y in s && y.lvl == 0 ==> y.leaf.id == id
  }

  method JoinTwo(a: Node, b: Node, isLeaf: bool, bound: Box, ghost l: nat, ghost sa: set<Node>, ghost sb: set<Node>)
    returns (n: Node, ghost s: set<Node>)
    requires 1 <= l < 5 && (isLeaf <==> l == 1) && sa !! sb && |a.bound| == |b.bound| == 1
    requires Planted(sa, a, l - 1, a.bound) && Planted(sb, b, l - 1, b.bound) && bound == Union(a.bound, b.bound)
    modifies (sa + sb)`parent
    ensures fresh(n) && s == sa + sb + {n} && n.items == [a, b] && n.bound == bound && n.parent == null
    ensures Planted(s, n, l, bound)
    ensures forall y :: y in sa + sb ==> y.parent == if y == a || y == b then n else old(y.parent)
  {
    hide Forest, Mbr, Union;
    ForestUnion(Snapshot(sa), Snapshot(sb), {a}, {b}, 5, CFG);
    SnapshotUnion(sa, sb);
    assert SetOf([a, b]) == {a} + {b};
    assert BoundsIn(Snapshot(sa + sb), [a, b]) == [a.bound, b.bound];
    MbrOfSpans(a.bound, b.bound, b.bound);
    n := NewParent([a, b], isLeaf, bound, l, sa + sb);
    s := sa + sb + {n};
  }

  method JoinThree(a: Node, b: Node, c: Node, isLeaf: bool, bound: Box, ghost l: nat, ghost sa: set<Node>,
                   ghost sb: set<Node>, ghost sc: set<Node>)
    returns (n: Node, ghost s: set<Node>)
    requires 1 <= l < 5 && (isLeaf <==> l == 1) && sa !! sb && sa + sb !! sc
    requires |a.bound| == |b.bound| == |c.bound| == 1
    requires Planted(sa, a, l - 1, a.bound) && Planted(sb, b, l - 1, b.bound) && Planted(sc, c, l - 1, c.bound)
    requires bound == Union(Union(a.bound, b.bound), c.bound)
    modifies (sa + sb + sc)`parent
    ensures fresh(n) && s == sa + sb + sc + {n} && n.items == [a, b, c] && n.bound == bound && n.parent == null
    ensures Planted(s, n, l, bound)
    ensures forall y :: y in sa + sb + sc ==> y.parent == if y == a || y == b || y == c then n else old(y.parent)
  {
    hide Forest, Mbr, Union;
    ForestUnion(Snapshot(sa), Snapshot(sb), {a}, {b}, 5, CFG);
    SnapshotUnion(sa, sb);
    ForestUnion(Snapshot(sa + sb), Snapshot(sc), {a} + {b}, {c}, 5, CFG);
    SnapshotUnion(sa + sb, sc);
    assert SetOf([a, b, c]) == {a} + {b} + {c};
    assert BoundsIn(Snapshot(sa + sb + sc), [a, b, c]) == [a.bound, b.bound, c.bound];
    MbrOfSpans(a.bound, b.bound, c.bound);
    n := NewParent([a, b, c], isLeaf, bound, l, sa + sb + sc);
    s := sa + sb + sc + {n};
  }

  function Width(l: nat): (w: real)
    ensures w > 0.0
  {
    if l == 0 then 1.0 else 3.0 * Width(l - 1)
  }

  method NewEntry(lo: real, hi: real, id: int) returns (n: Node, ghost s: set<Node>)
    ensures fresh(n) && s == {n} && n.parent == null && n.leaf == OSMObject(id, 0.0, 0.0, map[], Span(lo, hi))
    ensures n.bound == Span(lo, hi) && Planted(s, n, 0, Span(lo, hi)) && Thick(s, n) && HaveId(s, id)
  {
    n := new Node.Data(Span(lo, hi), OSMObject(id, 0.0, 0.0, map[], Span(lo, hi)));
    s := {n};
    assert Pending(Snapshot(s), n, {n}, 5, CFG);
  }

  /** A subtree of full nodes above the interval from `lo`. */
  method FullTree(l: nat, lo: real) returns (n: Node, ghost s: set<Node>)
    requires l < 5
    ensures fresh(s) && Planted(s, n, l, Span(lo, lo + Width(l))) && Thick(s, n) && HaveId(s, 2)
    ensures n.bound == Span(lo, lo + Width(l))
    decreases l
  {
    hide Thick, Union, Planted, HaveId;
    if l == 0 {
      n, s := NewEntry(lo, lo + 1.0, 2);
      return;
    }
    var w := Width(l - 1);
    var a, b, c;
    ghost var sa, sb, sc;
    a, sa := FullTree(l - 1, lo);
    b, sb := FullTree(l - 1, lo + w);
    c, sc := FullTree(l - 1, lo + w + w);
    ThreeSpans(l, lo);
    n, s := JoinThick(a, b, c, l == 1, Span(lo, lo + Width(l)), l, sa, sb, sc);
  }

  lemma ThreeSpans(l: nat, lo: real)
    requires 1 <= l
    ensures var w := Width(l - 1);
      Union(Union(Span(lo, lo + w), Span(lo + w, lo + w + w)), Span(lo + w + w, lo + w + w + w)) ==
        Span(lo, lo + Width(l))
  {
  }

  method JoinThick(a: Node, b: Node, c: Node, isLeaf: bool, bound: Box, ghost l: nat, ghost sa: set<Node>,
                   ghost sb: set<Node>, ghost sc: set<Node>)
    returns (n: Node, ghost s: set<Node>)
    requires 1 <= l < 5 && (isLeaf <==> l == 1) && sa !! sb && sa + sb !! sc
    requires |a.bound| == |b.bound| == |c.bound| == 1
    requires Planted(sa, a, l - 1, a.bound) && Planted(sb, b, l - 1, b.bound) && Planted(sc, c, l - 1, c.bound)
    requires bound == Union(Union(a.bound, b.bound), c.bound)
    requires Thick(sa, a) && Thick(sb, b) && Thick(sc, c) && HaveId(sa, 2) && HaveId(sb, 2) && HaveId(sc, 2)
    modifies (sa + sb + sc)`parent
    ensures fresh(n) && s == sa + sb + sc + {n} && n.bound == bound && Planted(s, n, l, bound) && Thick(s, n) &&
      HaveId(s, 2)
  {
    hide Forest, Mbr, Union, Planted;
    PlantedIn(sa, a, l - 1, a.bound);
    PlantedIn(sb, b, l - 1, b.bound);
    PlantedIn(sc, c, l - 1, c.bound);
    n, s := JoinThree(a, b, c, isLeaf, bound, l, sa, sb, sc);
    PlantedIn(s, n, l, bound);
    forall y | y in s
      ensures (y != n ==> y.parent != null && y.parent in s) && (y.lvl > 0 ==> |y.items| == 3)
      ensures forall c :: c in y.items ==> c in s
    {
      if y in sa {
      } else if y in sb {
      } else if y in sc {
      }
    }
  }

  // ----- the tree -----

  lemma {:induction false} UnderTop(h: Mem, root: Node)
    requires Forest(h, {root}, 5, CFG) && root in h && h[root].parent == null && root.lvl == 4 && |h[root].items| == 3
    ensures Sound(h, root, CFG) && Proper(h, root, CFG)
  {
    forall x | x in h
      ensures Kids(h, x, root, null) && Sized(h, x, root, 1)
      ensures Link(h, x, root, null) && Filled(h, x, root, CFG) && Tight(h, x)
    {
      assert Pending(h, x, {root}, 5, CFG);
      NothingAboveTop(h, 5, CFG, root, x);
    }
  }

  /** A leaf node with the entries `d` and `x`. */
  method ThinLeaf() returns (l: Node, ghost s: set<Node>, d: Node, x: Node)
    ensures fresh(s) && Planted(s, l, 1, Span(1.0, 101.0)) && l.bound == Span(1.0, 101.0) && l.parent == null
    ensures {d, x} <= s && l.items == [d, x] && x.leaf.bound == Span(1.0, 2.0)
    ensures d.lvl == 0 && d.leaf == OSMObject(1, 0.0, 0.0, map[], Span(100.0, 101.0)) && HaveId(s - {d}, 2)
  {
    hide Thick, Union;
    ghost var sd, sx;
    d, sd := NewEntry(100.0, 101.0, 1);
    x, sx := NewEntry(1.0, 2.0, 2);
    ThinSpans();
    l, s := JoinTwo(d, x, true, Span(1.0, 101.0), 1, sd, sx);
  }

  /** A node with this leaf node and a full one. */
  method ThinNode() returns (a: Node, ghost s: set<Node>, l: Node, l2: Node, d: Node, x: Node)
    ensures fresh(s) && Planted(s, a, 2, Span(1.0, 106.0)) && a.bound == Span(1.0, 106.0)
    ensures {a, l, l2, d, x} <= s && a.items == [l, l2] && l.items == [d, x] && x.leaf.bound == Span(1.0, 2.0)
    ensures d.lvl == 0 && d.leaf == OSMObject(1, 0.0, 0.0, map[], Span(100.0, 101.0)) && HaveId(s - {d}, 2)
  {
    hide Planted, Thick, Union;
    ghost var sl, sl2;
    l, sl, d, x := ThinLeaf();
    l2, sl2 := FullTree(1, 103.0);
    ThinSpans();
    PlantedIn(sl, l, 1, l.bound);
    PlantedIn(sl2, l2, 1, l2.bound);
    a, s := JoinTwo(l, l2, false, Span(1.0, 106.0), 2, sl, sl2);
    PlantedIn(s, a, 2, a.bound);
  }

  lemma PlantedIn(s: set<Node>, n: Node, l: nat, bound: Box)
    requires Planted(s, n, l, bound)
    ensures n in s && n.bound == bound && n.lvl == l
  {
  }

  /** The child of the root above it. */
  method ThinSubtree()
    returns (p: Node, ghost s: set<Node>, a: Node, a2: Node, a3: Node, l: Node, l2: Node, d: Node, x: Node)
    ensures fresh(s) && Planted(s, p, 3, Span(1.0, 129.0)) && p.bound == Span(1.0, 129.0)
    ensures {p, a, a2, a3, l, l2, d, x} <= s && p.items == [a, a2, a3] && a.items == [l, l2] && l.items == [d, x]
    ensures a2.bound == Span(110.0, 119.0) && a3.bound == Span(120.0, 129.0) && x.leaf.bound == Span(1.0, 2.0)
    ensures d.lvl == 0 && d.leaf == OSMObject(1, 0.0, 0.0, map[], Span(100.0, 101.0)) && HaveId(s - {d}, 2)
  {
    hide Planted, Thick, Union;
    ghost var sa, sa2, sa3;
    a, sa, l, l2, d, x := ThinNode();
    a2, sa2 := FullTree(2, 110.0);
    a3, sa3 := FullTree(2, 120.0);
    ThinSpans();
    PlantedIn(sa2, a2, 2, a2.bound);
    PlantedIn(sa3, a3, 2, a3.bound);
    p, s := JoinThree(a, a2, a3, false, Span(1.0, 129.0), 3, sa, sa2, sa3);
    PlantedIn(s, p, 3, p.bound);
  }

  lemma ThinSpans()
    ensures Width(1) == 3.0 && Width(2) == 9.0 && Width(3) == 27.0
    ensures Union(Span(100.0, 101.0), Span(1.0, 2.0)) == Span(1.0, 101.0)
    ensures Union(Span(1.0, 101.0), Span(103.0, 106.0)) == Span(1.0, 106.0)
    ensures Union(Union(Span(1.0, 106.0), Span(110.0, 119.0)), Span(120.0, 129.0)) == Span(1.0, 129.0)
    ensures Union(Union(Span(1.0, 129.0), Span(0.0, 27.0)), Span(27.0, 54.0)) == Span(0.0, 129.0)
  {
  }

  method Plant(r: Node, ghost nodes: set<Node>) returns (t: Rtree)
    ensures fresh(t) && t.root == r && t.nodes == nodes && t.height == 4 && t.splits == [] && !t.lean && t.Cfg() == CFG
  {
    t := new Rtree(2, 3, 1);
    t.root, t.height, t.nodes := r, 4, nodes;
  }

  /** The root is put above a subtree `b` whose nodes are full. */
  method JoinTop(p: Node, b: Node, c: Node, ghost sp: set<Node>, ghost sb: set<Node>, ghost sc: set<Node>)
    returns (r: Node, ghost s: set<Node>)
    requires sp !! sb && sp + sb !! sc && p in sp && b in sb && c in sc
    requires p.bound == Span(1.0, 129.0) && b.bound == Span(0.0, 27.0) && c.bound == Span(27.0, 54.0)
    requires Planted(sp, p, 3, p.bound) && Planted(sb, b, 3, b.bound) && Planted(sc, c, 3, c.bound) && Thick(sb, b)
    modifies (sp + sb + sc)`parent
    ensures fresh(r) && s == sp + sb + sc + {r} && r.items == [p, b, c] && r.parent == null
    ensures Planted(s, r, 4, r.bound) && Thick(sb, b) && b.parent == r && r.lvl == 4
  {
    hide Forest, Union;
    ThinSpans();
    r, s := JoinThree(p, b, c, false, Span(0.0, 129.0), 4, sp, sb, sc);
  }

  lemma IsBrittle(t: Rtree, p: Node, b: Node, c: Node, a: Node, a2: Node, a3: Node, l: Node, l2: Node, d: Node, x: Node,
                  s: set<Node>)
    requires Planted(t.nodes, t.root, 4, t.root.bound) && t.root.parent == null && t.root.items == [p, b, c]
    requires {p, b, c, a, a2, a3, l, l2, d, x} <= t.nodes && s <= t.nodes && t.root !in s && {p, a, l, d} !! s
    requires Thick(s, b) && b in s && b.parent == t.root
    requires p.items == [a, a2, a3] && a.items == [l, l2] && l.items == [d, x] && x.leaf.bound == Span(1.0, 2.0)
    requires b.bound == Span(0.0, 27.0) && c.bound == Span(27.0, 54.0)
    requires a2.bound == Span(110.0, 119.0) && a3.bound == Span(120.0, 129.0)
    ensures Brittle(t.Mem(), t.root, p, b, c, a, a2, a3, l, l2, d, x, s)
  {
    hide Forest, Sound, Proper;
    UnderTop(t.Mem(), t.root);
  }

  /** The whole tree is on the heap; `d` is the only entry with identifier 1. */
  method BrittleTree()
    returns (t: Rtree, p: Node, b: Node, c: Node, a: Node, a2: Node, a3: Node, l: Node, l2: Node, d: Node, x: Node,
             ghost s: set<Node>)
    ensures fresh(t) && fresh(t.nodes) && t.height == 4 && t.splits == [] && !t.lean && t.Cfg() == CFG
    ensures Brittle(t.Mem(), t.root, p, b, c, a, a2, a3, l, l2, d, x, s)
    ensures d in t.nodes && d.lvl == 0 && HaveId(t.nodes - {d}, 2)
    ensures d.leaf == OSMObject(1, 0.0, 0.0, map[], Span(100.0, 101.0))
  {
    hide Planted, Thick, Union, Brittle;
    ghost var sp, sc, all;
    p, sp, a, a2, a3, l, l2, d, x := ThinSubtree();
    b, s := FullTree(3, 0.0);
    c, sc := FullTree(3, 27.0);
    ThinSpans();
    PlantedIn(s, b, 3, b.bound);
    PlantedIn(sc, c, 3, c.bound);
    var r;
    r, all := JoinTop(p, b, c, sp, s, sc);
    t := Plant(r, all);
    IsBrittle(t, p, b, c, a, a2, a3, l, l2, d, x, s);
  }

  /** On this tree the deletion of the object with identifier 1 meets a stale level: the tree has grown when
      the children of an eliminated internal node are still to be put back. */
  method DeletionStops() returns (t: Rtree, deleted: bool, stopped: bool)
    ensures deleted && stopped
  {
    hide Brittle, MustStop, CanStop, TakenOut, Proper, AllSized, EnoughLeft, OnlyWithId;
    var p, b, c, a, a2, a3, l, l2, d, x;
    ghost var s, e, gone, waiting;
    t, p, b, c, a, a2, a3, l, l2, d, x, s := BrittleTree();
    BrittleStops(t.Mem(), t.root, p, b, c, a, a2, a3, l, l2, d, x, s);
    ghost var h, root := t.Mem(), t.root;
    BrittleIsValid(t, p, b, c, a, a2, a3, l, l2, d, x, s);
    deleted, stopped, e, gone, waiting := Delete(t, d.leaf);
    OnlyEntry(h, root, e, d, gone);
  }

  lemma BrittleIsValid(t: Rtree, p: Node, b: Node, c: Node, a: Node, a2: Node, a3: Node, l: Node, l2: Node, d: Node,
                       x: Node, s: set<Node>)
    requires Brittle(t.Mem(), t.root, p, b, c, a, a2, a3, l, l2, d, x, s)
    requires t.height == 4 && t.splits == [] && !t.lean && t.Cfg() == CFG && d in t.nodes && d.lvl == 0
    requires d.leaf == OSMObject(1, 0.0, 0.0, map[], Span(100.0, 101.0))
    ensures t.Valid() && t.Clean() && d.leaf in t.Contents() && Overlap(d.leaf.bound, d.leaf.bound)
  {
    t.StoredIsEntered();
    ObjectsOfMember(DataOf(t.nodes), d.leaf);
    assert d in DataOf(t.nodes);
  }

  lemma OnlyEntry(h: Mem, root: Node, e: Node, d: Node, gone: multiset<OSMObject>)
    requires Shape(h, root, null) && TakenOut(h, root, 2, e, d.leaf, gone) && d in h && d.lvl == 0
    requires d.leaf.id == 1 && HaveId(h.Keys - {d}, 2)
    ensures e == d
  {
  }
}
