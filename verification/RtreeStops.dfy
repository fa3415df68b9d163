/** When a deletion must meet a stale level: the tree grows while orphans return. */
module RtreeStops {
  import opened Boxes
  import opened SplitPolicy
  import opened RtreeNodes
  import opened RtreeInvariant
  import opened RtreeDeletion

  // ----- full trees -----

  /** All nodes from `x` up to the root are full. */
  ghost predicate FullUp(h: Mem, root: Node, M: nat, x: Node)
    requires Shape(h, root, null) && x in h
    decreases root.lvl - x.lvl
  {
    M <= |h[x].items| && (x == root || FullAbove(h, root, M, x))
  }

  ghost predicate FullAbove(h: Mem, root: Node, M: nat, x: Node)
    requires Shape(h, root, null) && x in h && x != root
    decreases root.lvl - x.lvl, 0
  {
    OnlyRootAtTop(h, root, x);
    assert Kids(h, x, root, null);
    FullUp(h, root, M, h[x].parent)
  }

  /** Every leaf node that an object with this box can be put into is full, and so are the nodes above it. */
  ghost predicate Crowded(h: Mem, root: Node, M: nat, bound: Box)
    requires Shape(h, root, null)
  {
    forall l :: l in h && l.lvl == 1 && Descends(h, root, root, bound, 1, l) ==> FullUp(h, root, M, l)
  }

  ghost predicate Crowds(h: Mem, root: Node, M: nat, bound: Box) {
    Shape(h, root, null) && Crowded(h, root, M, bound)
  }

  /** A chain of splits through full nodes reaches the root. */
  lemma {:induction false} RunGrows(h: Mem, root: Node, x: Node, items: seq<Node>, log: seq<SplitEvent>, M: nat)
    requires Shape(h, root, null) && SplitRun(h, root, x, items, log, M) && FullUp(h, root, M, x) && M < |items|
    ensures x.lvl + |log| == root.lvl + 1
    decreases |log|
  {
    if x != root {
      var p := h[x].parent;
      assert Kids(h, x, root, null);
      RunGrows(h, root, p, h[p].items + [log[0].partner], log[1..], M);
    }
  }

  /** An insertion into a crowded tree makes it grow. */
  lemma CrowdedGrows(a: Mem, b: Mem, root: Node, root': Node, l: Node, e: Node, added: set<Node>,
                     log: seq<SplitEvent>, M: nat, bound: Box)
    requires Shape(a, root, null) && Crowded(a, root, M, bound) && l in a && l.lvl == 1
    requires Descends(a, root, root, bound, 1, l)
    requires InsertEffect(a, b, root, root', l, a[l].items + [e], added, log, M)
    ensures root'.lvl == root.lvl + 1
  {
    RunGrows(a, root, l, a[l].items + [e], log, M);
  }

  /** An internal node is queued after a leaf node whose first entry makes the tree grow. */
  ghost predicate Blocks(a: Mem, root: Node, M: nat, lists: seq<seq<Node>>) {
    2 <= |lists| && lists[0] != [] && lists[1] != [] && lists[0][0].lvl == 0 &&
    Crowds(a, root, M, lists[0][0].leaf.bound)
  }

  // ----- the exact bounds -----

  ghost function ExactBound(h: Mem, root: Node, x: Node): Box
    requires Shape(h, root, null) && x in h
    decreases x.lvl
  {
    assert Kids(h, x, root, null);
    var items := h[x].items;
    if items == [] then (if x.lvl == 0 then x.leaf.bound else h[x].bound) else
    Mbr(seq(|items|, i requires 0 <= i < |items| => ExactBound(h, root, items[i])))
  }

  /** The same nodes with the same entries. */
  ghost predicate SameEntries(a: Mem, b: Mem) {
    b.Keys == a.Keys && forall y {:trigger b[y]} :: y in b ==> b[y].items == a[y].items && b[y].parent == a[y].parent
  }

  lemma SameShape(a: Mem, b: Mem, root: Node)
    requires Shape(a, root, null) && SameEntries(a, b)
    ensures Shape(b, root, null)
  {
    forall x | x in b
      ensures Kids(b, x, root, null)
    {
      assert Kids(a, x, root, null);
    }
  }

  /** The tree with all bounds computed again. */
  ghost function Tightened(h: Mem, root: Node): (t: Mem)
    requires Shape(h, root, null)
    ensures Shape(t, root, null)
  {
    var t: Mem := map x | x in h :: h[x].(bound := ExactBound(h, root, x));
    SameShape(h, t, root);
    t
  }

  lemma {:induction false} SameExactBound(a: Mem, b: Mem, root: Node, x: Node)
    requires Shape(a, root, null) && Shape(b, root, null) && SameEntries(a, b) && x in a
    requires x.lvl == 0 || a[x].items != []
    ensures ExactBound(b, root, x) == ExactBound(a, root, x)
    decreases x.lvl
  {
    assert Kids(a, x, root, null) && Kids(b, x, root, null);
    var items := a[x].items;
    if items != [] {
      forall i | 0 <= i < |items|
        ensures ExactBound(b, root, items[i]) == ExactBound(a, root, items[i])
      {
        assert Kids(a, items[i], root, null) && items[i] in items;
        SameExactBound(a, b, root, items[i]);
      }
      assert seq(|items|, i requires 0 <= i < |items| => ExactBound(a, root, items[i])) ==
        seq(|items|, i requires 0 <= i < |items| => ExactBound(b, root, items[i]));
    }
  }

  lemma SameTightened(a: Mem, b: Mem, root: Node)
    requires Shape(a, root, null) && Shape(b, root, null) && SameEntries(a, b) && a[root].items != []
    ensures Tightened(b, root) == Tightened(a, root)
  {
    forall x | x in a
      ensures ExactBound(b, root, x) == ExactBound(a, root, x)
    {
      assert Kids(a, x, root, null);
      SameExactBound(a, b, root, x);
    }
  }

  lemma {:induction false} TightIsExact(h: Mem, root: Node, x: Node)
    requires Shape(h, root, null) && x in h && (x.lvl == 0 || h[x].items != [])
    requires forall y {:trigger Tight(h, y)} :: y in h && (y.lvl < x.lvl || y == x) ==> Tight(h, y)
    ensures h[x].bound == ExactBound(h, root, x)
    decreases x.lvl
  {
    assert Kids(h, x, root, null) && Tight(h, x);
    var items := h[x].items;
    if items != [] {
      forall i | 0 <= i < |items|
        ensures h[items[i]].bound == ExactBound(h, root, items[i])
      {
        assert Kids(h, items[i], root, null) && items[i] in items;
        TightIsExact(h, root, items[i]);
      }
      assert BoundsIn(h, items) == seq(|items|, i requires 0 <= i < |items| => ExactBound(h, root, items[i]));
    }
  }

  /** A tree with exact bounds is what tightening any tree with the same entries gives. */
  lemma TightenedIsTight(a: Mem, b: Mem, root: Node)
    requires Shape(a, root, null) && Shape(b, root, null) && SameEntries(a, b) && a[root].items != []
    requires AllTight(b, {})
    ensures Tightened(a, root) == b
  {
    SameTightened(a, b, root);
    forall x | x in b
      ensures b[x].bound == ExactBound(b, root, x)
    {
      assert Kids(b, x, root, null);
      TightIsExact(b, root, x);
    }
    assert Tightened(b, root) == b;
  }

  // ----- elimination upward -----

  ghost function Removed(items: seq<Node>, n: Node): seq<Node> {
    if i: nat :| i < |items| && items[i] == n then SwapRemove(items, i) else items
  }

  lemma RemovedAt(items: seq<Node>, i: nat)
    requires i < |items| && Distinct(items)
    ensures Removed(items, items[i]) == SwapRemove(items, i)
  {
  }

  /** The tree without `n` and all that is below it. */
  ghost function CutOf(a: Mem, root: Node, n: Node): Mem
    requires Shape(a, root, null) && n in a && n != root
  {
    assert Kids(a, n, root, null);
    Uprooted(a, root, n, Removed(a[a[n].parent].items, n))
  }

  /** The elimination that goes upward from `n` ends with an internal node eliminated after a leaf node, in a
      tree that the first orphan of the leaf node makes grow. `lists` are the entries of the nodes that were
      eliminated before. */
  ghost predicate Doomed(a: Mem, root: Node, m: nat, M: nat, n: Node, lists: seq<seq<Node>>)
    requires Shape(a, root, null) && n in a
    decreases root.lvl - n.lvl
  {
    if n != root && |a[n].items| < m then
      OnlyRootAtTop(a, root, n);
      assert Kids(a, n, root, null);
      var (b, p) := (CutOf(a, root, n), a[n].parent);
      Shape(b, root, null) && p in b && Doomed(b, root, m, M, p, lists + [a[n].items])
    else
      a[root].items != [] && Blocks(Tightened(a, root), root, M, lists)
  }

  /** Taking out the entry `e` has that effect. */
  ghost predicate MustStop(a: Mem, root: Node, m: nat, M: nat, e: Node)
    requires Shape(a, root, null)
  {
    e in a && e != root && a[e].parent != null && CutDoomed(a, root, m, M, e)
  }

  ghost predicate CutDoomed(a: Mem, root: Node, m: nat, M: nat, e: Node)
    requires Shape(a, root, null) && e in a && e != root && a[e].parent != null
  {
    var (b, l) := (CutOf(a, root, e), a[e].parent);
    Shape(b, root, null) && l in b && Doomed(b, root, m, M, l, [])
  }

  /** One level of the elimination. */
  lemma DoomedNext(a: Mem, b: Mem, root: Node, m: nat, M: nat, n: Node, lists: seq<seq<Node>>,
                   lists': seq<seq<Node>>)
    requires Shape(a, root, null) && Shape(b, root, null) && n in a && Doomed(a, root, m, M, n, lists) && n != root
    requires a[n].parent != null && a[n].parent in a && a[n].parent in b
    requires a[n].parent != root ==> m <= |a[a[n].parent].items|
    requires if |a[n].items| < m then b == CutOf(a, root, n) && lists' == lists + [a[n].items]
             else SameEntries(a, b) && lists' == lists
    ensures Doomed(b, root, m, M, a[n].parent, lists')
  {
    if |a[n].items| >= m {
      SameTightened(a, b, root);
    }
  }

  /** At the root the bounds are exact. */
  lemma DoomedBlocks(a: Mem, b: Mem, root: Node, m: nat, M: nat, lists: seq<seq<Node>>)
    requires Shape(a, root, null) && Shape(b, root, null) && Doomed(a, root, m, M, root, lists)
    requires SameEntries(a, b) && AllTight(b, {})
    ensures Blocks(b, root, M, lists)
  {
    TightenedIsTight(a, b, root);
  }
}
