/** What an R-tree stores: the data entries below a node, the ancestor at a level, and the
    multiset of stored objects. */
module RtreeContents {
  import opened Boxes
  import opened SplitPolicy
  import opened RtreeNodes
  import opened RtreeInvariant

  // ----- the data entries below a node, in tree order -----

  ghost function Leaves(h: Mem, root: Node, x: Node): seq<Node>
    requires Shape(h, root, null) && x in h
    decreases x.lvl, 1, 0
  {
    assert Kids(h, x, root, null);
    if x.lvl == 0 then [x] else LeavesOf(h, root, h[x].items, x.lvl)
  }

  ghost function LeavesOf(h: Mem, root: Node, items: seq<Node>, l: nat): seq<Node>
    requires Shape(h, root, null) && forall c :: c in items ==> c in h && c.lvl < l
    decreases l, 0, |items|
  {
    if items == [] then [] else
    LeavesOf(h, root, items[..|items| - 1], l) + Leaves(h, root, items[|items| - 1])
  }

  /** The ancestor of `y` at level `l`. */
  ghost function Up(h: Mem, root: Node, y: Node, l: nat): (x: Node)
    requires Shape(h, root, null) && y in h && y.lvl <= l <= root.lvl
    ensures x in h && x.lvl == l
    decreases l - y.lvl
  {
    assert Kids(h, y, root, null);
    if y.lvl == l then y else Up(h, root, h[y].parent, l)
  }

  lemma {:induction false} UpStep(h: Mem, root: Node, y: Node, l: nat)
    requires Shape(h, root, null) && y in h && y.lvl <= l < root.lvl
    ensures Up(h, root, y, l) != root && h[Up(h, root, y, l)].parent == Up(h, root, y, l + 1)
    decreases l - y.lvl
  {
    assert Kids(h, y, root, null);
    if y.lvl < l {
      UpStep(h, root, h[y].parent, l);
    } else {
      assert Up(h, root, y, l) == y && Up(h, root, h[y].parent, l + 1) == h[y].parent;
    }
  }

  /** In a linked tree the ancestor one level up is the holder. */
  lemma UpByHolder(h: Mem, root: Node, y: Node, x: Node)
    requires Shape(h, root, null) && AllLinked(h, root, null) && y in h && x in h && y.lvl < x.lvl
    ensures x.lvl <= root.lvl
    ensures Up(h, root, y, x.lvl) == x <==> Up(h, root, y, x.lvl - 1) in h[x].items
  {
    assert Kids(h, x, root, null);
    var c := Up(h, root, y, x.lvl - 1);
    UpStep(h, root, y, x.lvl - 1);
    assert Link(h, x, root, null) && Link(h, c, root, null);
  }

  lemma {:induction false} OnlyOneAtTop(h: Mem, root: Node, y: Node)
    requires Shape(h, root, null) && y in h
    ensures y.lvl <= root.lvl && Up(h, root, y, root.lvl) == root
    decreases root.lvl - y.lvl
  {
    assert Kids(h, y, root, null);
    if y != root {
      assert Kids(h, h[y].parent, root, null);
      OnlyOneAtTop(h, root, h[y].parent);
    }
  }

  // ----- every data entry is met once -----

  ghost function Count(b: bool): nat {
    if b then 1 else 0
  }

  /** A data entry occurs below `x` once if `x` is its ancestor and not at all otherwise. */
  lemma {:induction false} LeavesCount(h: Mem, root: Node, x: Node, y: Node)
    requires Shape(h, root, null) && AllLinked(h, root, null) && x in h && y in h && y.lvl == 0
    ensures x.lvl <= root.lvl && multiset(Leaves(h, root, x))[y] == Count(Up(h, root, y, x.lvl) == x)
    decreases x.lvl, 1, 0
  {
    assert Kids(h, x, root, null);
    if x.lvl > 0 {
      assert Link(h, x, root, null);
      LeavesOfCount(h, root, h[x].items, x.lvl, y);
      UpByHolder(h, root, y, x);
    }
  }

  lemma CountSnoc(items: seq<Node>, x: Node)
    requires items != [] && Distinct(items)
    ensures Count(x in items) == Count(x in items[..|items| - 1]) + Count(x == items[|items| - 1])
  {
    assert items == items[..|items| - 1] + [items[|items| - 1]];
    assert items[|items| - 1] !in items[..|items| - 1];
  }

  lemma {:induction false} LeavesOfCount(h: Mem, root: Node, items: seq<Node>, l: nat, y: Node)
    requires Shape(h, root, null) && AllLinked(h, root, null) && y in h && y.lvl == 0
    requires 0 < l <= root.lvl && Distinct(items) && forall c :: c in items ==> c in h && c.lvl + 1 == l
    ensures multiset(LeavesOf(h, root, items, l))[y] == Count(Up(h, root, y, l - 1) in items)
    decreases l, 0, |items|
  {
    if items != [] {
      var n := |items| - 1;
      LeavesOfCount(h, root, items[..n], l, y);
      LeavesCount(h, root, items[n], y);
      CountSnoc(items, Up(h, root, y, l - 1));
    }
  }

  lemma {:induction false} LeavesAreData(h: Mem, root: Node, x: Node)
    requires Shape(h, root, null) && x in h
    ensures forall y :: y in Leaves(h, root, x) ==> y in h && y.lvl == 0
    decreases x.lvl, 1, 0
  {
    assert Kids(h, x, root, null);
    if x.lvl > 0 {
      LeavesOfAreData(h, root, h[x].items, x.lvl);
    }
  }

  lemma {:induction false} LeavesOfAreData(h: Mem, root: Node, items: seq<Node>, l: nat)
    requires Shape(h, root, null) && forall c :: c in items ==> c in h && c.lvl < l
    ensures forall y :: y in LeavesOf(h, root, items, l) ==> y in h && y.lvl == 0
    decreases l, 0, |items|
  {
    if items != [] {
      LeavesOfAreData(h, root, items[..|items| - 1], l);
      LeavesAreData(h, root, items[|items| - 1]);
    }
  }

  /** The traversal from the root meets every data entry exactly once. */
  lemma TraversalIsComplete(h: Mem, root: Node)
    requires Shape(h, root, null) && AllLinked(h, root, null)
    ensures multiset(Leaves(h, root, root)) == multiset(DataOf(h.Keys))
  {
    LeavesAreData(h, root, root);
    forall y: Node
      ensures multiset(Leaves(h, root, root))[y] == multiset(DataOf(h.Keys))[y]
    {
      if y in DataOf(h.Keys) {
        LeavesCount(h, root, root, y);
        OnlyOneAtTop(h, root, y);
      } else {
        assert y !in Leaves(h, root, root);
      }
    }
  }

  // ----- the stored objects -----

  ghost function ObjectsOf(data: set<Node>): multiset<OSMObject> {
    if data == {} then multiset{} else
    var x :| x in data;
    ObjectsOf(data - {x}) + multiset{x.leaf}
  }

  lemma {:induction false} ObjectsOfMore(data: set<Node>, y: Node)
    requires y !in data
    ensures ObjectsOf(data + {y}) == ObjectsOf(data) + multiset{y.leaf}
    decreases data
  {
    var all := data + {y};
    var x :| x in all && ObjectsOf(all) == ObjectsOf(all - {x}) + multiset{x.leaf};
    if x == y {
      assert all - {x} == data;
    } else {
      assert all - {x} == (data - {x}) + {y};
      ObjectsOfMore(data - {x}, y);
      ObjectsOfMore(data - {x}, x);
      assert (data - {x}) + {x} == data;
    }
  }

  lemma {:induction false} ObjectsOfUnion(a: set<Node>, b: set<Node>)
    requires a !! b
    ensures ObjectsOf(a + b) == ObjectsOf(a) + ObjectsOf(b)
    decreases b
  {
    if b == {} {
      assert a + b == a;
    } else {
      var y :| y in b;
      var rest := b - {y};
      ObjectsOfUnion(a, rest);
      SplitOff(a, b, y);
      ObjectsAddEqually(a, rest, y);
    }
  }

  lemma SplitOff(a: set<Node>, b: set<Node>, y: Node)
    requires a !! b && y in b
    ensures y !in a + (b - {y}) && b == (b - {y}) + {y} && a + b == (a + (b - {y})) + {y}
  {
  }

  lemma ObjectsAddEqually(a: set<Node>, b: set<Node>, y: Node)
    requires y !in a + b && ObjectsOf(a + b) == ObjectsOf(a) + ObjectsOf(b)
    ensures ObjectsOf((a + b) + {y}) == ObjectsOf(a) + ObjectsOf(b + {y})
  {
    ObjectsOfMore(b, y);
    ObjectsOfMore(a + b, y);
  }

  lemma {:induction false} ObjectsOfMember(data: set<Node>, x: OSMObject)
    ensures x in ObjectsOf(data) <==> exists y :: y in data && y.leaf == x
    ensures |ObjectsOf(data)| == |data|
    decreases data
  {
    if data != {} {
      var y :| y in data && ObjectsOf(data) == ObjectsOf(data - {y}) + multiset{y.leaf};
      ObjectsOfMember(data - {y}, x);
      assert data == (data - {y}) + {y};
    }
  }

  ghost function ObjectSeq(items: seq<Node>): seq<OSMObject> {
    seq(|items|, i requires 0 <= i < |items| => items[i].leaf)
  }

  lemma SnocSet<X>(items: seq<X>)
    requires items != [] && Distinct(items)
    ensures var rest, last := items[..|items| - 1], items[|items| - 1];
      (set x | x in items) == (set x | x in rest) + {last} && last !in (set x | x in rest)
  {
    assert items == items[..|items| - 1] + [items[|items| - 1]];
  }

  lemma {:induction false} ObjectsOfSeq(items: seq<Node>)
    requires Distinct(items)
    ensures ObjectsOf(set x | x in items) == multiset(ObjectSeq(items))
  {
    if items == [] {
      assert (set x | x in items) == {};
    } else {
      var n := |items| - 1;
      var rest := items[..n];
      ObjectsOfSeq(rest);
      SnocSet(items);
      hide ObjectsOf;
      ObjectsOfMore((set x | x in rest), items[n]);
      assert ObjectSeq(items) == ObjectSeq(rest) + [items[n].leaf];
    }
  }

  /** What the tree stores: the objects that a traversal from the root meets. */
  ghost function Stored(h: Mem, root: Node): multiset<OSMObject>
    requires Shape(h, root, null)
  {
    multiset(ObjectSeq(Leaves(h, root, root)))
  }

  /** In a linked tree these are the objects of all its data entries. */
  lemma StoredIsData(h: Mem, root: Node)
    requires Shape(h, root, null) && AllLinked(h, root, null)
    ensures Stored(h, root) == ObjectsOf(DataOf(h.Keys)) && |Stored(h, root)| == |DataOf(h.Keys)|
  {
    var s: seq<Node> := Leaves(h, root, root);
    var bag := multiset(s);
    TraversalIsComplete(h, root);
    assert Distinct(s) by {
      DistinctIffCounts(s);
    }
    assert (set x | x in s) == DataOf(h.Keys) by {
      forall x: Node
        ensures x in s <==> x in DataOf(h.Keys)
      {
        assert x in s <==> x in bag;
      }
    }
    ObjectsOfSeq(s);
    assert |bag| == |multiset(DataOf(h.Keys))| == |DataOf(h.Keys)|;
  }

  lemma EmptyTree(h: Mem, root: Node)
    requires Shape(h, root, null) && root.lvl == 1 && h[root].items == []
    ensures Stored(h, root) == multiset{}
  {
    assert Leaves(h, root, root) == LeavesOf(h, root, [], 1) == [];
  }

  /** The traversal reads only nodes that it reaches: it meets the same objects in any part of the memory
      that holds these. */
  lemma LiveIsStored(h: Mem, g: Mem, root: Node)
    requires Shape(h, root, null) && Shape(g, root, null) && g.Keys <= h.Keys
    requires forall y :: y in g ==> g[y].items == h[y].items
    ensures Stored(g, root) == Stored(h, root)
  {
    LiveLeaves(h, g, root, root);
  }

  lemma {:induction false} LiveLeaves(h: Mem, g: Mem, root: Node, x: Node)
    requires Shape(h, root, null) && Shape(g, root, null) && g.Keys <= h.Keys && x in g
    requires forall y :: y in g ==> g[y].items == h[y].items
    ensures Leaves(g, root, x) == Leaves(h, root, x)
    decreases x.lvl, 1, 0
  {
    assert Kids(g, x, root, null) && Kids(h, x, root, null);
    if x.lvl > 0 {
      LiveLeavesOf(h, g, root, g[x].items, x.lvl);
    }
  }

  lemma {:induction false} LiveLeavesOf(h: Mem, g: Mem, root: Node, items: seq<Node>, l: nat)
    requires Shape(h, root, null) && Shape(g, root, null) && g.Keys <= h.Keys
    requires forall y :: y in g ==> g[y].items == h[y].items
    requires forall c :: c in items ==> c in g && c.lvl < l
    ensures LeavesOf(g, root, items, l) == LeavesOf(h, root, items, l)
    decreases l, 0, |items|
  {
    if items != [] {
      LiveLeavesOf(h, g, root, items[..|items| - 1], l);
      LiveLeaves(h, g, root, items[|items| - 1]);
    }
  }

  /** A tree whose root is a leaf node stores the objects of its entries. */
  lemma LeafRoot(h: Mem, root: Node)
    requires Shape(h, root, null) && AllLinked(h, root, null) && root.lvl == 1
    ensures DataOf(h.Keys) == SetOf(h[root].items) && |Stored(h, root)| == |h[root].items|
    ensures forall x :: x in Stored(h, root) <==> exists y :: y in h[root].items && y.leaf == x
  {
    assert Kids(h, root, root, null) && Link(h, root, root, null);
    forall y | y in DataOf(h.Keys)
      ensures y in h[root].items
    {
      assert Kids(h, y, root, null) && Link(h, y, root, null);
      OnlyOneAtTop(h, root, h[y].parent);
    }
    StoredIsData(h, root);
    DistinctSize(h[root].items);
    forall x: OSMObject
      ensures x in Stored(h, root) <==> exists y :: y in h[root].items && y.leaf == x
    {
      ObjectsOfMember(DataOf(h.Keys), x);
      if y :| y in h[root].items && y.leaf == x {
        assert y in DataOf(h.Keys);
      }
    }
  }

  lemma {:induction false} DistinctSize<X>(items: seq<X>)
    requires Distinct(items)
    ensures |set x | x in items| == |items|
  {
    if items != [] {
      SnocSet(items);
      DistinctSize(items[..|items| - 1]);
    }
  }

  lemma SubsetSize<X>(a: set<X>, b: set<X>)
    requires a <= b
    ensures |a| <= |b| && (a != b ==> |a| < |b|)
  {
    assert b == a + (b - a);
  }

  /** A tree that stores fewer than `M` objects has no full leaf node, so an insertion splits nothing. */
  lemma RoomInLeaf(h: Mem, root: Node, l: Node, e: Node, log: seq<SplitEvent>, M: nat)
    requires Shape(h, root, null) && AllLinked(h, root, null) && l in h && l.lvl == 1
    requires SplitRun(h, root, l, h[l].items + [e], log, M) && |Stored(h, root)| < M
    ensures log == []
  {
    assert Kids(h, l, root, null) && Link(h, l, root, null);
    StoredIsData(h, root);
    DistinctSize(h[l].items);
    SubsetSize(SetOf(h[l].items), DataOf(h.Keys));
  }

  // ----- boxes contain what is below them -----

  ghost predicate Covering(h: Mem, root: Node)
    requires Shape(h, root, null)
  {
    forall x, c {:trigger c in h[x].items} :: x in h && c in h[x].items ==>
      c in h && Covers(h[x].bound, h[c].bound)
  }

  lemma ProperIsCovering(h: Mem, root: Node, cfg: Config)
    requires Sound(h, root, cfg) && Proper(h, root, cfg)
    ensures Covering(h, root)
  {
    forall x, c | x in h && c in h[x].items
      ensures c in h && Covers(h[x].bound, h[c].bound)
    {
      assert Kids(h, x, root, null) && Tight(h, x);
      var i :| 0 <= i < |h[x].items| && h[x].items[i] == c;
      var boxes := BoundsIn(h, h[x].items);
      forall j | 0 <= j < |boxes|
        ensures |boxes[j]| == cfg.dims
      {
        assert Kids(h, x, root, null) && Sized(h, h[x].items[j], root, cfg.dims) && Kids(h, root, root, null);
      }
      MbrCoversMember(boxes, cfg.dims, i);
    }
  }

  // ----- the linear scan that a search must agree with -----

  ghost predicate Hit(h: Mem, y: Node, query: Box) {
    y in h && Overlap(h[y].bound, query)
  }

  ghost function Matching(h: Mem, entries: seq<Node>, query: Box): seq<Node> {
    if entries == [] then [] else
    Matching(h, entries[..|entries| - 1], query) +
    (if Hit(h, entries[|entries| - 1], query) then [entries[|entries| - 1]] else [])
  }

  lemma {:induction false} MatchingConcat(h: Mem, a: seq<Node>, b: seq<Node>, query: Box)
    ensures Matching(h, a + b, query) == Matching(h, a, query) + Matching(h, b, query)
  {
    if b == [] {
      assert a + b == a;
    } else {
      var n := |b| - 1;
      assert (a + b)[..|a + b| - 1] == a + b[..n];
      MatchingConcat(h, a, b[..n], query);
    }
  }

  lemma {:induction false} MatchingIsScan(h: Mem, entries: seq<Node>, query: Box, y: Node)
    ensures multiset(Matching(h, entries, query))[y] == if Hit(h, y, query) then multiset(entries)[y] else 0
  {
    if entries != [] {
      var n := |entries| - 1;
      MatchingIsScan(h, entries[..n], query, y);
      assert entries == entries[..n] + [entries[n]];
    }
  }

  /** What a search has to add for one more entry of a node. */
  lemma NothingScanned(h: Mem, root: Node, l: nat, query: Box)
    requires Shape(h, root, null)
    ensures Matching(h, LeavesOf(h, root, [], l), query) == []
  {
  }

  lemma ScanStep(h: Mem, root: Node, items: seq<Node>, i: nat, l: nat, query: Box)
    requires Shape(h, root, null) && Covering(h, root) && i < |items| && forall c :: c in items ==> c in h && c.lvl < l
    ensures Matching(h, LeavesOf(h, root, items[..i + 1], l), query) ==
            Matching(h, LeavesOf(h, root, items[..i], l), query) + Matching(h, Leaves(h, root, items[i]), query)
    ensures !Hit(h, items[i], query) ==> Matching(h, Leaves(h, root, items[i]), query) == []
    ensures items[i].lvl == 0 && Hit(h, items[i], query) ==>
              Matching(h, Leaves(h, root, items[i]), query) == [items[i]]
  {
    assert items[..i + 1][..i] == items[..i];
    MatchingConcat(h, LeavesOf(h, root, items[..i], l), Leaves(h, root, items[i]), query);
    if !Hit(h, items[i], query) {
      MissedSubtree(h, root, items[i], query);
      NothingMatches(h, Leaves(h, root, items[i]), query);
    } else if items[i].lvl == 0 {
      assert Leaves(h, root, items[i]) == [items[i]];
      assert Matching(h, [items[i]], query) == [items[i]];
    }
  }

  /** Nothing below a box that misses the query overlaps the query. */
  lemma {:induction false} MissedSubtree(h: Mem, root: Node, x: Node, query: Box)
    requires Shape(h, root, null) && Covering(h, root) && x in h && !Overlap(h[x].bound, query)
    ensures forall y :: y in Leaves(h, root, x) ==> y in h && !Overlap(h[y].bound, query)
    decreases x.lvl, 1, 0
  {
    assert Kids(h, x, root, null);
    if x.lvl > 0 {
      forall c | c in h[x].items
        ensures !Overlap(h[c].bound, query)
      {
        if Overlap(h[c].bound, query) { OverlapIsMonotone(h[x].bound, h[c].bound, query); }
      }
      MissedSubtrees(h, root, h[x].items, x.lvl, query);
    }
  }

  lemma {:induction false} MissedSubtrees(h: Mem, root: Node, items: seq<Node>, l: nat, query: Box)
    requires Shape(h, root, null) && Covering(h, root)
    requires forall c :: c in items ==> c in h && c.lvl < l && !Overlap(h[c].bound, query)
    ensures forall y :: y in LeavesOf(h, root, items, l) ==> y in h && !Overlap(h[y].bound, query)
    decreases l, 0, |items|
  {
    if items != [] {
      MissedSubtrees(h, root, items[..|items| - 1], l, query);
      MissedSubtree(h, root, items[|items| - 1], query);
    }
  }

  lemma {:induction false} NothingMatches(h: Mem, entries: seq<Node>, query: Box)
    requires forall y :: y in entries ==> !Hit(h, y, query)
    ensures Matching(h, entries, query) == []
  {
    if entries != [] {
      NothingMatches(h, entries[..|entries| - 1], query);
    }
  }
}
