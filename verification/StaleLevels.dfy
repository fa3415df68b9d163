/** A tree from which a deletion cannot put all orphans back where they were. */
module StaleLevels {
  import opened Boxes
  import opened SplitPolicy
  import opened RtreeNodes
  import opened RtreeInvariant
  import opened RtreeContents
  import opened RtreeDeletion
  import opened RtreeStops

  // ----- cutting, step by step -----

  /** What a cut at `n` keeps. */
  lemma CutKeeps(a: Mem, root: Node, cfg: Config, n: Node)
    requires CondenseReady(a, root, cfg, n) && n != root && !cfg.wide
    ensures a[n].parent != null && a[n].parent in a && n.lvl + 1 == a[n].parent.lvl
    ensures var b, p := CutOf(a, root, n), a[n].parent;
      CondenseReady(b, root, cfg, p) && b.Keys == a.Keys - SubOf(a, root, n) &&
      b[p] == a[p].(items := Removed(a[p].items, n)) && forall y {:trigger b[y]} :: y in b && y != p ==> b[y] == a[y]
  {
    var p := a[n].parent;
    assert Kids(a, n, root, null) && Link(a, n, root, null) && Link(a, p, root, null);
    var i: nat :| i < |a[p].items| && a[p].items[i] == n;
    RemovedAt(a[p].items, i);
    SwapRemoveIsWithout(a[p].items, i);
    UprootTree(a, root, cfg, n, Removed(a[p].items, n));
  }

  /** A set of nodes with the parents of its members, up to the child `top` of the root, and with all that is
      below them; every node in it has at least three entries. */
  ghost predicate Bushy(h: Mem, root: Node, s: set<Node>, top: Node) {
    s <= h.Keys && root !in s && top in s && root in h && top in h[root].items && h[top].parent == root &&
    forall y {:trigger h[y]} :: y in s ==>
      (y != top ==> h[y].parent != null && h[y].parent in s) && (y.lvl > 0 ==> 3 <= |h[y].items|) &&
      forall c :: c in h[y].items ==> c in s
  }

  /** Nothing in such a set is below a node outside it. */
  lemma {:induction false} AncestorsInside(h: Mem, root: Node, s: set<Node>, top: Node, y: Node, l: nat)
    requires Shape(h, root, null) && Bushy(h, root, s, top) && y in s && y.lvl <= l < root.lvl
    ensures Up(h, root, y, l) in s
    decreases l - y.lvl
  {
    assert Kids(h, y, root, null) && Kids(h, top, root, null);
    if y.lvl < l {
      AncestorsInside(h, root, s, top, h[y].parent, l);
    }
  }

  lemma BushySurvives(a: Mem, root: Node, cfg: Config, n: Node, s: set<Node>, top: Node)
    requires CondenseReady(a, root, cfg, n) && n != root && !cfg.wide && Bushy(a, root, s, top)
    requires n !in s && a[n].parent != null && a[n].parent !in s && a[n].parent != root
    ensures Bushy(CutOf(a, root, n), root, s, top)
  {
    CutKeeps(a, root, cfg, n);
    OnlyRootAtTop(a, root, n);
    forall y | y in s
      ensures y !in SubOf(a, root, n)
    {
      if y in SubOf(a, root, n) {
        AncestorsInside(a, root, s, top, y, n.lvl);
      }
    }
  }

  /** From a full node of such a set every way down leads to a leaf node that is full all the way up. */
  lemma {:induction false} BushyIsFull(h: Mem, root: Node, s: set<Node>, top: Node, y: Node, bound: Box, l: Node)
    requires Shape(h, root, null) && AllLinked(h, root, null) && Bushy(h, root, s, top) && y in s && 1 <= y.lvl
    requires FullUp(h, root, 3, y) && Descends(h, root, y, bound, 1, l) && l in h
    ensures FullUp(h, root, 3, l)
    decreases y.lvl
  {
    if y.lvl > 1 {
      var i: nat :| DescendsBy(h, root, y, bound, 1, l, i);
      var c := h[y].items[i];
      assert Kids(h, y, root, null) && Link(h, y, root, null) && c in h[y].items;
      assert FullUp(h, root, 3, c);
      BushyIsFull(h, root, s, top, c, bound, l);
    }
  }

  // ----- the tree -----

  function Span(lo: real, hi: real): Box {
    [Interval(lo, hi)]
  }

  /** A root with three children: `b` and `c`, whose nodes are all full, and `p`, which has a child `a` with two
      leaf nodes, of which `l` has the entries `d` and `x`. The box of `x` lies in that of `b`. */
  ghost predicate Brittle(h: Mem, root: Node, p: Node, b: Node, c: Node, a: Node, a2: Node, a3: Node, l: Node, l2: Node,
                          d: Node, x: Node, s: set<Node>) {
    root.lvl == 4 && Sound(h, root, Config(2, 3, 1, true)) && Proper(h, root, Config(2, 3, 1, true)) &&
    {p, b, c, a, a2, a3, l, l2, d, x} <= h.Keys && {p, a, l, d} !! s && Bushy(h, root, s, b) &&
    h[root].items == [p, b, c] && h[p].items == [a, a2, a3] && h[a].items == [l, l2] && h[l].items == [d, x] &&
    h[b].bound == Span(0.0, 27.0) && h[c].bound == Span(27.0, 54.0) && x.leaf.bound == Span(1.0, 2.0) &&
    h[a2].bound == Span(110.0, 119.0) && h[a3].bound == Span(120.0, 129.0)
  }

  lemma RemovedFirst(n: Node, x: Node, y: Node)
    requires n != x && n != y && x != y
    ensures Removed([n, x], n) == [x] && Removed([n, x, y], n) == [y, x]
  {
    RemovedAt([n, x], 0);
    RemovedAt([n, x, y], 0);
  }

  /** Levels and parents of the nodes that have names. */
  lemma BrittleLinks(h: Mem, root: Node, p: Node, b: Node, c: Node, a: Node, a2: Node, a3: Node, l: Node, l2: Node,
                     d: Node, x: Node, s: set<Node>)
    requires Brittle(h, root, p, b, c, a, a2, a3, l, l2, d, x, s)
    ensures p.lvl == b.lvl == c.lvl == 3 && a.lvl == a2.lvl == a3.lvl == 2 && l.lvl == l2.lvl == 1
    ensures d.lvl == x.lvl == 0 && root !in {p, a, l, d}
    ensures h[p].parent == root && h[a].parent == p && h[l].parent == a && h[d].parent == l
    ensures d != x && l != l2 && a != a2 && a != a3 && a2 != a3 && p != b && p != c && b != c
    ensures CondenseReady(h, root, Config(2, 3, 1, false), d)
  {
    assert Kids(h, root, root, null) && Kids(h, p, root, null) && Kids(h, a, root, null) && Kids(h, l, root, null);
    assert Link(h, root, root, null) && Link(h, p, root, null) && Link(h, a, root, null) && Link(h, l, root, null);
    var (one, two, three, four) := (h[root].items, h[p].items, h[a].items, h[l].items);
    assert one[0] != one[1] && one[0] != one[2] && one[1] != one[2];
    assert two[0] != two[1] && two[0] != two[2] && two[1] != two[2] && three[0] != three[1] && four[0] != four[1];
    assert p in h[root].items && a in h[p].items && l in h[a].items && d in h[l].items;
    Narrowed(h, root, Config(2, 3, 1, true));
  }

  /** The first cut. */
  lemma CutEntry(h: Mem, root: Node, p: Node, b: Node, c: Node, a: Node, a2: Node, a3: Node, l: Node, l2: Node,
                 d: Node, x: Node, s: set<Node>)
    returns (h1: Mem)
    requires Brittle(h, root, p, b, c, a, a2, a3, l, l2, d, x, s)
    ensures d in h && d != root && h1 == CutOf(h, root, d)
    ensures CondenseReady(h1, root, Config(2, 3, 1, false), l) && l in h1 && h1[l] == h[l].(items := [x])
    ensures {root, p, a, b, c, a2, a3} <= h1.Keys && Bushy(h1, root, s, b)
    ensures forall y {:trigger h1[y]} :: y in {root, p, a, b, c, a2, a3} ==> h1[y] == h[y]
  {
    hide CondenseReady, Bushy, Removed, CutOf;
    var cfg := Config(2, 3, 1, false);
    BrittleLinks(h, root, p, b, c, a, a2, a3, l, l2, d, x, s);
    RemovedFirst(d, x, l);
    CutKeeps(h, root, cfg, d);
    BushySurvives(h, root, cfg, d, s, b);
    h1 := CutOf(h, root, d);
    ReadyShape(h1, root, cfg, l);
    assert Kids(h1, l, root, null) && Kids(h1, a, root, null) && Kids(h1, p, root, null) && Kids(h1, root, root, null);
  }

  /** The second cut. */
  lemma CutLeaf(h: Mem, root: Node, p: Node, b: Node, c: Node, a: Node, a2: Node, a3: Node, l: Node, l2: Node,
                d: Node, x: Node, s: set<Node>, h1: Mem)
    returns (h2: Mem)
    requires Brittle(h, root, p, b, c, a, a2, a3, l, l2, d, x, s)
    requires CondenseReady(h1, root, Config(2, 3, 1, false), l) && l in h1 && h1[l] == h[l].(items := [x])
    requires {root, p, a, b, c, a2, a3} <= h1.Keys && Bushy(h1, root, s, b)
    requires forall y {:trigger h1[y]} :: y in {root, p, a, b, c, a2, a3} ==> h1[y] == h[y]
    ensures Shape(h1, root, null) && l != root && h1[l].parent == a && h2 == CutOf(h1, root, l)
    ensures CondenseReady(h2, root, Config(2, 3, 1, false), a) && {root, p, a, b, c, a2, a3} <= h2.Keys
    ensures h2[a] == h[a].(items := [l2]) && Bushy(h2, root, s, b)
    ensures forall y {:trigger h2[y]} :: y in {root, p, b, c, a2, a3} ==> h2[y] == h[y]
  {
    hide CondenseReady, Bushy, Removed, CutOf;
    var cfg := Config(2, 3, 1, false);
    BrittleLinks(h, root, p, b, c, a, a2, a3, l, l2, d, x, s);
    RemovedFirst(l, l2, a);
    ReadyShape(h1, root, cfg, l);
    CutKeeps(h1, root, cfg, l);
    BushySurvives(h1, root, cfg, l, s, b);
    h2 := CutOf(h1, root, l);
    ReadyShape(h2, root, cfg, a);
    assert Kids(h2, a, root, null) && Kids(h2, p, root, null) && Kids(h2, root, root, null);
  }

  lemma ReadyShape(h: Mem, root: Node, cfg: Config, n: Node)
    requires CondenseReady(h, root, cfg, n)
    ensures Shape(h, root, null) && AllLinked(h, root, null) && AllTight(h, {n}) && n in h
  {
  }

  lemma UnionOfTwo(one: Box, two: Box)
    requires |one| == |two|
    ensures Mbr([one, two]) == Union(one, two)
  {
    assert [one, two][..1] == [one];
  }

  /** After the third cut only `b` need not be enlarged for the box of `x`. */
  lemma OnlyTheMiddle(boxes: seq<Box>, i: nat)
    requires boxes == [Span(110.0, 129.0), Span(0.0, 27.0), Span(27.0, 54.0)]
    requires LeastEnlargement(boxes, Span(1.0, 2.0), i)
    ensures i == 1
  {
    var x := Span(1.0, 2.0);
    AreaOfSpan(110.0, 129.0);
    AreaOfSpan(0.0, 27.0);
    AreaOfSpan(27.0, 54.0);
    assert Union(boxes[0], x) == Span(1.0, 129.0) && Union(boxes[1], x) == boxes[1] &&
      Union(boxes[2], x) == Span(1.0, 54.0);
    AreaOfSpan(1.0, 129.0);
    AreaOfSpan(1.0, 54.0);
    assert Enlargement(boxes[1], x) == 0.0;
  }

  lemma AreaOfSpan(lo: real, hi: real)
    ensures AreaOf(Span(lo, hi)) == hi - lo
  {
    assert Span(lo, hi)[..0] == [];
  }

  lemma FirstStep(h: Mem, root: Node, y: Node, bound: Box, l: Node) returns (i: nat)
    requires Shape(h, root, null) && y in h && 1 < y.lvl && Descends(h, root, y, bound, 1, l)
    ensures DescendsBy(h, root, y, bound, 1, l, i)
  {
    i :| DescendsBy(h, root, y, bound, 1, l, i);
  }

  /** A tree whose root has these bounds is crowded. */
  lemma BushyIsCrowded(t: Mem, root: Node, p: Node, b: Node, c: Node, s: set<Node>)
    requires Shape(t, root, null) && AllLinked(t, root, null) && Bushy(t, root, s, b) && root.lvl == 4 && b.lvl == 3
    requires t[root].items == [p, b, c] && p in t && b in t && c in t
    requires t[p].bound == Span(110.0, 129.0) && t[b].bound == Span(0.0, 27.0) && t[c].bound == Span(27.0, 54.0)
    ensures Crowded(t, root, 3, Span(1.0, 2.0))
  {
    var x := Span(1.0, 2.0);
    forall l | l in t && l.lvl == 1 && Descends(t, root, root, x, 1, l)
      ensures FullUp(t, root, 3, l)
    {
      var i := FirstStep(t, root, root, x, l);
      assert BoundsIn(t, t[root].items) == [t[p].bound, t[b].bound, t[c].bound];
      OnlyTheMiddle(BoundsIn(t, t[root].items), i);
      assert FullUp(t, root, 3, root) && FullUp(t, root, 3, b);
      BushyIsFull(t, root, s, b, b, x, l);
    }
  }

  lemma SameLinks(a: Mem, b: Mem, root: Node)
    requires AllLinked(a, root, null) && SameEntries(a, b)
    ensures AllLinked(b, root, null)
  {
    forall x | x in b
      ensures Link(b, x, root, null)
    {
      assert Link(a, x, root, null);
    }
  }

  /** The exact bounds of the root's children, when only `p` has a stale one. */
  lemma ExactBounds(h: Mem, root: Node, p: Node, b: Node, c: Node, a2: Node, a3: Node)
    requires Shape(h, root, null) && AllTight(h, {p}) && {p, b, c, a2, a3} <= h.Keys
    requires p.lvl == b.lvl == c.lvl == 3 && a2.lvl == a3.lvl == 2 && p != b && p != c && h[p].items == [a3, a2]
    requires h[b].bound == Span(0.0, 27.0) && h[c].bound == Span(27.0, 54.0)
    requires h[a2].bound == Span(110.0, 119.0) && h[a3].bound == Span(120.0, 129.0)
    ensures ExactBound(h, root, p) == Span(110.0, 129.0)
    ensures ExactBound(h, root, b) == Span(0.0, 27.0) && ExactBound(h, root, c) == Span(27.0, 54.0)
  {
    forall y | y in {b, c, a2, a3}
      ensures h[y].items != []
    {
      assert Kids(h, y, root, null);
    }
    TightIsExact(h, root, b);
    TightIsExact(h, root, c);
    TightIsExact(h, root, a2);
    TightIsExact(h, root, a3);
    var boxes := seq(2, i requires 0 <= i < 2 => ExactBound(h, root, h[p].items[i]));
    assert boxes == [Span(120.0, 129.0), Span(110.0, 119.0)];
    UnionOfTwo(boxes[0], boxes[1]);
  }

  lemma BushySame(a: Mem, b: Mem, root: Node, s: set<Node>, top: Node)
    requires Bushy(a, root, s, top) && SameEntries(a, b)
    ensures Bushy(b, root, s, top)
  {
  }

  /** After the third cut the tree is crowded for the box of `x`, once its bounds are exact. */
  lemma BrittleIsCrowded(h: Mem, root: Node, p: Node, b: Node, c: Node, a: Node, a2: Node, a3: Node, l: Node, l2: Node,
                         d: Node, x: Node, s: set<Node>, h2: Mem)
    returns (h3: Mem)
    requires Brittle(h, root, p, b, c, a, a2, a3, l, l2, d, x, s)
    requires CondenseReady(h2, root, Config(2, 3, 1, false), a) && {root, p, a, b, c, a2, a3} <= h2.Keys
    requires h2[a] == h[a].(items := [l2]) && Bushy(h2, root, s, b)
    requires forall y {:trigger h2[y]} :: y in {root, p, b, c, a2, a3} ==> h2[y] == h[y]
    ensures a != root && h2[a].parent == p && h3 == CutOf(h2, root, a) && Shape(h3, root, null) && p in h3
    ensures |h3[p].items| == 2 && h3[root].items != [] && Crowded(Tightened(h3, root), root, 3, Span(1.0, 2.0))
  {
    hide CondenseReady, Bushy, Removed, CutOf, Crowded;
    var cfg := Config(2, 3, 1, false);
    BrittleLinks(h, root, p, b, c, a, a2, a3, l, l2, d, x, s);
    RemovedFirst(a, a2, a3);
    CutKeeps(h2, root, cfg, a);
    BushySurvives(h2, root, cfg, a, s, b);
    ReadyShape(h2, root, cfg, a);
    h3 := CutOf(h2, root, a);
    ReadyShape(h3, root, cfg, p);
    assert Kids(h3, p, root, null) && Kids(h3, root, root, null);
    assert {a3, a2, b, c} <= h3.Keys by {
      assert a3 in h3[p].items && a2 in h3[p].items && b in h3[root].items && c in h3[root].items;
    }
    ExactBounds(h3, root, p, b, c, a2, a3);
    var t := Tightened(h3, root);
    SameLinks(h3, t, root);
    BushySame(h3, t, root, s, b);
    BushyIsCrowded(t, root, p, b, c, s);
  }

  /** Taking `d` out of such a tree eliminates `l` and `a`, and putting `x` back makes the tree grow. */
  lemma BrittleStops(h: Mem, root: Node, p: Node, b: Node, c: Node, a: Node, a2: Node, a3: Node, l: Node, l2: Node,
                     d: Node, x: Node, s: set<Node>)
    requires Brittle(h, root, p, b, c, a, a2, a3, l, l2, d, x, s)
    ensures MustStop(h, root, 2, 3, d)
  {
    hide CondenseReady, Bushy, CutOf, Crowded;
    var h1 := CutEntry(h, root, p, b, c, a, a2, a3, l, l2, d, x, s);
    var h2 := CutLeaf(h, root, p, b, c, a, a2, a3, l, l2, d, x, s, h1);
    var h3 := BrittleIsCrowded(h, root, p, b, c, a, a2, a3, l, l2, d, x, s, h2);
    BrittleLinks(h, root, p, b, c, a, a2, a3, l, l2, d, x, s);
    ReadyShape(h1, root, Config(2, 3, 1, false), l);
    ReadyShape(h2, root, Config(2, 3, 1, false), a);
    Chain(h, root, 3, d, l, a, p, h1, h2, h3, x, l2);
  }

  /** The three cuts one after the other. */
  lemma Chain(h: Mem, root: Node, M: nat, d: Node, l: Node, a: Node, p: Node, h1: Mem, h2: Mem, h3: Mem, x: Node,
              l2: Node)
    requires Shape(h, root, null) && d in h && d != root && h[d].parent == l && h1 == CutOf(h, root, d)
    requires Shape(h1, root, null) && l in h1 && l != root && h1[l].parent == a && h1[l].items == [x] && x.lvl == 0
    requires h2 == CutOf(h1, root, l) && Shape(h2, root, null) && a in h2 && a != root && h2[a].parent == p
    requires h2[a].items == [l2] && h3 == CutOf(h2, root, a) && Shape(h3, root, null) && p in h3 && |h3[p].items| == 2
    requires h3[root].items != [] && Crowded(Tightened(h3, root), root, M, x.leaf.bound)
    ensures MustStop(h, root, 2, M, d)
  {
    hide CutOf, Crowded;
    assert [] + [h1[l].items] == [[x]] && [[x]] + [h2[a].items] == [[x], [l2]];
    assert Doomed(h3, root, 2, M, p, [[x], [l2]]);
    assert Doomed(h2, root, 2, M, a, [[x]]);
    assert Doomed(h1, root, 2, M, l, []);
  }
}
