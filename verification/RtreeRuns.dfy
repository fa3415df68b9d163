/** Runs of insertions and deletions, and two small trees on which an operation goes wrong. */
module RtreeRuns {
  import opened Boxes
  import opened SplitPolicy
  import opened RtreeNodes
  import opened RtreeInvariant
  import opened RtreeContents
  import opened RtreeDeletion
  import opened Rtrees
  import opened RtreeRemoval

  /** Everything about a tree at one moment. */
  datatype TreeState = TreeState(h: Mem, root: Node, cfg: Config, size: int, splits: seq<SplitEvent>) {
    ghost predicate Clean() {
      AllClean(splits, cfg.m, cfg.dims)
    }

    ghost predicate Good() {
      Sound(h, root, cfg) && (Clean() ==> Proper(h, root, cfg))
    }
  }

  datatype Op = Put(x: OSMObject) | Take(x: OSMObject)

  ghost function StateOf(t: Rtree): TreeState
    reads t, t.nodes
  {
    TreeState(t.Mem(), t.root, t.Cfg(), t.size, t.splits)
  }

  /** What a deletion takes out: nothing only if no object with the identifier overlaps, and, unless the
      identifier is 0, at most one object, which has the identifier. */
  ghost predicate Takes(all: multiset<OSMObject>, x: OSMObject, gone: multiset<OSMObject>) {
    gone <= all && (gone == multiset{} ==> forall z :: z in all && z.id == x.id ==> !Overlap(z.bound, x.bound)) &&
    (x.id != 0 ==> |gone| <= 1 && forall z :: z in gone ==> z.id == x.id)
  }

  /** What one operation does. */
  ghost predicate Step(a: TreeState, op: Op, gone: multiset<OSMObject>, b: TreeState)
    requires a.Good() && b.Good()
  {
    b.cfg == a.cfg && LogGrows(a.splits, b.splits, a.cfg.M) &&
    match op
    case Put(x) =>
      gone == multiset{} && b.size == a.size + 1 &&
      (b.Clean() ==> Stored(b.h, b.root) == Stored(a.h, a.root) + multiset{x})
    case Take(x) =>
      b.size == a.size - (if gone == multiset{} then 0 else 1) && Takes(Stored(a.h, a.root), x, gone) &&
      (b.Clean() ==> Stored(b.h, b.root) == Stored(a.h, a.root) - gone)
  }

  /** `InsertLeaf` does such a step. */
  method ApplyPut(t: Rtree, x: OSMObject)
    requires t.Valid() && !t.lean && |x.bound| == t.dims
    modifies t, t.nodes
    ensures t.Valid() && !t.lean && fresh(t.nodes - old(t.nodes))
    ensures Step(old(StateOf(t)), Put(x), multiset{}, StateOf(t))
  {
    hide InsertEffect, Proper, AllSized;
    ghost var a, root, log := t.Mem(), t.root, t.splits;
    ghost var e, l := t.Insert(x.bound, x);
    InsertIsOverfull(a, t.Mem(), root, t.root, l, a[l].items + [e], {e}, t.splits[|log|..], t.maxChild);
  }

  /** `Delete`, on a tree whose splits were clean, does such a step, except that the model can stop
      when the tree grew, and that a leaf root with two entries is replaced by one of them. */
  method ApplyTake(t: Rtree, x: OSMObject) returns (ghost gone: multiset<OSMObject>, ghost stepped: bool)
    requires t.Valid() && !t.lean && |x.bound| == t.dims && t.Clean() && t.Cfg().Fillable() && 2 <= t.minChild
    modifies t, t.nodes
    ensures fresh(t.nodes - old(t.nodes))
    ensures stepped && t.Clean() ==> t.Valid() && !t.lean && Step(old(StateOf(t)), Take(x), gone, StateOf(t))
    ensures !stepped ==> old(t.root.isLeaf && |t.root.items| == 2) || (3 <= old(t.height) < t.height)
    ensures Takes(old(t.Contents()), x, gone)
  {
    hide Proper, AllSized, AllClean, LogGrows, TakenOut, OnlyWithId, Step, CanStop, Takes;
    ghost var a, small := StateOf(t), t.root.isLeaf && |t.root.items| == 2;
    var deleted, stopped;
    ghost var e, waiting;
    deleted, stopped, e, gone, waiting := Delete(t, x);
    stepped := !deleted || (!stopped && !small);
    if deleted {
      SomethingGone(a.h, a.root, t.minChild, e, x, gone);
      DeleteTakes(a.h, a.root, t.minChild, e, x, gone);
    } else {
      NothingTaken(Stored(a.h, a.root), x);
    }
    if stepped && t.Clean() {
      TakeIsStep(a, StateOf(t), x, gone);
    }
  }

  lemma NothingTaken(all: multiset<OSMObject>, x: OSMObject)
    requires !exists z :: z in all && z.id == x.id && Overlap(z.bound, x.bound)
    ensures Takes(all, x, multiset{})
  {
  }

  lemma DeleteTakes(h: Mem, root: Node, m: nat, e: Node, x: OSMObject, gone: multiset<OSMObject>)
    requires Shape(h, root, null) && TakenOut(h, root, m, e, x, gone) && gone <= Stored(h, root)
    requires gone != multiset{}
    ensures Takes(Stored(h, root), x, gone)
  {
  }

  lemma SomethingGone(h: Mem, root: Node, m: nat, e: Node, x: OSMObject, gone: multiset<OSMObject>)
    requires Shape(h, root, null) && TakenOut(h, root, m, e, x, gone) && 2 <= m
    ensures gone != multiset{}
  {
    if e.lvl == 0 {
      assert e.leaf in gone;
    } else {
      assert 0 < |gone|;
    }
  }

  lemma TakeIsStep(a: TreeState, b: TreeState, x: OSMObject, gone: multiset<OSMObject>)
    requires a.Good() && b.Good() && b.cfg == a.cfg && LogGrows(a.splits, b.splits, a.cfg.M)
    requires Takes(Stored(a.h, a.root), x, gone) && Stored(b.h, b.root) == Stored(a.h, a.root) - gone
    requires b.size == a.size - (if gone == multiset{} then 0 else 1)
    ensures Step(a, Take(x), gone, b)
  {
  }

  ghost function AllPut(ops: seq<Op>): multiset<OSMObject> {
    if ops == [] then multiset{} else
    AllPut(ops[..|ops| - 1]) + (if ops[|ops| - 1].Put? then multiset{ops[|ops| - 1].x} else multiset{})
  }

  ghost function AllGone(gones: seq<multiset<OSMObject>>): multiset<OSMObject> {
    if gones == [] then multiset{} else AllGone(gones[..|gones| - 1]) + gones[|gones| - 1]
  }

  /** A run: `states` are the tree before each operation and after the last one. */
  ghost predicate Run(states: seq<TreeState>, ops: seq<Op>, gones: seq<multiset<OSMObject>>) {
    |states| == |ops| + 1 == |gones| + 1 && (forall i :: 0 <= i <= |ops| ==> states[i].Good()) &&
    forall i :: 0 <= i < |ops| ==> Step(states[i], ops[i], gones[i], states[i + 1])
  }

  /** Every run from an empty tree: every split it has made was of a node with more than `M` entries,
      and if all of them were clean, the tree stores exactly the objects put and not taken out. */
  lemma {:induction false} RunKeeps(states: seq<TreeState>, ops: seq<Op>, gones: seq<multiset<OSMObject>>)
    requires Run(states, ops, gones) && states[0].splits == []
    requires Stored(states[0].h, states[0].root) == multiset{}
    ensures var last := states[|ops|];
      last.cfg == states[0].cfg && Overfull(last.splits, last.cfg.M) &&
      (last.Clean() ==> Stored(last.h, last.root) + AllGone(gones) == AllPut(ops))
    decreases |ops|
  {
    hide Step, Proper, Sound, AllClean;
    if ops != [] {
      var n := |ops| - 1;
      RunPrefix(states, ops, gones);
      RunKeeps(states[..n + 1], ops[..n], gones[..n]);
      assert states[..n + 1][0] == states[0] && states[..n + 1][n] == states[n];
      StepKeeps(states[n], ops[n], gones[n], states[n + 1], AllPut(ops[..n]), AllGone(gones[..n]));
    }
  }

  lemma RunPrefix(states: seq<TreeState>, ops: seq<Op>, gones: seq<multiset<OSMObject>>)
    requires Run(states, ops, gones) && ops != []
    ensures var n := |ops| - 1;
      Run(states[..n + 1], ops[..n], gones[..n]) && states[n].Good() && states[n + 1].Good() &&
      Step(states[n], ops[n], gones[n], states[n + 1])
  {
  }

  lemma StepKeeps(a: TreeState, op: Op, gone: multiset<OSMObject>, b: TreeState, put: multiset<OSMObject>,
                taken: multiset<OSMObject>)
    requires a.Good() && b.Good() && Step(a, op, gone, b) && Overfull(a.splits, a.cfg.M)
    requires a.Clean() ==> Stored(a.h, a.root) + taken == put
    ensures b.cfg == a.cfg && Overfull(b.splits, b.cfg.M) && (b.Clean() ==> a.Clean())
    ensures b.Clean() ==>
      Stored(b.h, b.root) + (taken + gone) == put + (if op.Put? then multiset{op.x} else multiset{})
  {
    hide Sound, Proper;
    var none: seq<SplitEvent> := [];
    assert a.splits[|none|..] == a.splits;
    LogGrowsOn(none, a.splits, b.splits, a.cfg.M);
    assert b.splits[|none|..] == b.splits;
    if b.Clean() {
      CleanBefore(a.splits, b.splits, a.cfg.M, a.cfg.m, a.cfg.dims);
    }
  }

  // ----- runs of objects with their own identifiers -----

  /** What a list of operations should leave: each `Take` removes the object it names. */
  ghost function Left(ops: seq<Op>): multiset<OSMObject> {
    if ops == [] then multiset{} else
    var before := Left(ops[..|ops| - 1]);
    match ops[|ops| - 1]
    case Put(x) => before + multiset{x}
    case Take(x) => before - multiset{x}
  }

  /** Objects are put with an identifier that is not 0 and that no stored object has, and with a box of
      positive width; only stored objects are taken. */
  ghost predicate Orderly(ops: seq<Op>) {
    forall i :: 0 <= i < |ops| ==>
      match ops[i]
      case Put(x) => x.id != 0 && Solid(x.bound) && forall z :: z in Left(ops[..i]) ==> z.id != x.id
      case Take(x) => x in Left(ops[..i])
  }

  ghost predicate OwnIds(all: multiset<OSMObject>) {
    (forall x :: x in all ==> all[x] == 1 && x.id != 0 && Solid(x.bound)) &&
    forall x, y :: x in all && y in all && x.id == y.id ==> x == y
  }

  lemma {:induction false} LeftHasOwnIds(ops: seq<Op>)
    requires Orderly(ops)
    ensures OwnIds(Left(ops))
    decreases |ops|
  {
    if ops != [] {
      var n := |ops| - 1;
      OrderlyPrefix(ops);
      LeftHasOwnIds(ops[..n]);
    }
  }

  lemma OrderlyPrefix(ops: seq<Op>)
    requires Orderly(ops) && ops != []
    ensures Orderly(ops[..|ops| - 1])
  {
    var n := |ops| - 1;
    forall i | 0 <= i < n
      ensures ops[..n][i] == ops[i] && ops[..n][..i] == ops[..i]
    {
    }
  }

  /** Taking an object that is stored with its own identifier takes out exactly that object. */
  lemma TakesItself(all: multiset<OSMObject>, x: OSMObject, gone: multiset<OSMObject>)
    requires OwnIds(all) && x in all && Takes(all, x, gone)
    ensures gone == multiset{x}
  {
    assert Overlap(x.bound, x.bound) && x.id == x.id;
    var z :| z in gone;
    assert z == x;
    assert gone == multiset{x} + (gone - multiset{x});
    assert |gone| == 1 + |gone - multiset{x}|;
  }

  /** Every such run whose splits were clean stores exactly the objects put and not taken. */
  lemma {:induction false} RunIsExact(states: seq<TreeState>, ops: seq<Op>, gones: seq<multiset<OSMObject>>)
    requires Run(states, ops, gones) && Orderly(ops) && states[|ops|].Clean()
    requires Stored(states[0].h, states[0].root) == multiset{}
    ensures Stored(states[|ops|].h, states[|ops|].root) == Left(ops)
    decreases |ops|
  {
    hide Proper, Sound, AllClean, Takes, Orderly, OwnIds;
    if ops != [] {
      var n := |ops| - 1;
      var a, b := states[n], states[n + 1];
      RunPrefix(states, ops, gones);
      assert a.Clean() by {
        CleanBefore(a.splits, b.splits, a.cfg.M, a.cfg.m, a.cfg.dims);
      }
      OrderlyPrefix(ops);
      assert states[..n + 1][n] == a && states[..n + 1][0] == states[0];
      RunIsExact(states[..n + 1], ops[..n], gones[..n]);
      if ops[n].Take? {
        LeftHasOwnIds(ops[..n]);
        TakenIsLeft(ops);
        TakesItself(Left(ops[..n]), ops[n].x, gones[n]);
      }
    }
  }

  lemma TakenIsLeft(ops: seq<Op>)
    requires Orderly(ops) && ops != [] && ops[|ops| - 1].Take?
    ensures ops[|ops| - 1].x in Left(ops[..|ops| - 1])
  {
  }

  // ----- an object with identifier 0 -----

  ghost predicate IsPair(h: Mem, x: Node, parent: Node?, c: Node, d: Node)
    requires x in h
  {
    c in h && d in h && c != d && h[x] == NodeState([c, d], parent, Union(h[c].bound, h[d].bound))
  }

  ghost predicate IsEntry(h: Mem, x: Node, parent: Node)
    requires x in h
  {
    x.lvl == 0 && !x.isLeaf && h[x] == NodeState([], parent, x.leaf.bound) && |x.leaf.bound| == 1
  }

  /** A root with two leaf nodes of two entries each. */
  ghost predicate TwoLeaves(h: Mem, r: Node, a: Node, b: Node, c: Node, d: Node, e: Node, f: Node) {
    h.Keys == {r, a, b, c, d, e, f} && a != b && c != d && e != f &&
    r.lvl == 2 && !r.isLeaf && a.lvl == b.lvl == 1 && a.isLeaf && b.isLeaf &&
    r.leaf == a.leaf == b.leaf == NO_OBJECT && IsPair(h, r, null, a, b) && IsPair(h, a, r, c, d) &&
    IsPair(h, b, r, e, f) &&
    IsEntry(h, c, a) && IsEntry(h, d, a) && IsEntry(h, e, b) && IsEntry(h, f, b)
  }

  lemma TwoLeavesAreProper(h: Mem, r: Node, a: Node, b: Node, c: Node, d: Node, e: Node, f: Node)
    requires TwoLeaves(h, r, a, b, c, d, e, f)
    ensures Sound(h, r, Config(2, 3, 1, true)) && Proper(h, r, Config(2, 3, 1, true))
    ensures DataOf(h.Keys) == {c, d, e, f} && c != d && e != f && {c, d} !! {e, f}
    ensures r.lvl == 2 && !r.isLeaf && r in h && |h[r].items| == 2
  {
    PairIsSized(h, a, r, c, d);
    PairIsSized(h, b, r, e, f);
    PairIsSized(h, r, null, a, b);
    hide Mbr, Union, BoundsIn;
    forall x | x in h
      ensures Kids(h, x, r, null) && Sized(h, x, r, 1)
      ensures Link(h, x, r, null) && Filled(h, x, r, Config(2, 3, 1, true)) && Tight(h, x)
    {
      assert Distinct([c, d]) && Distinct([e, f]) && Distinct([a, b]);
    }
  }

  lemma PairIsSized(h: Mem, x: Node, parent: Node?, c: Node, d: Node)
    requires x in h && IsPair(h, x, parent, c, d) && |h[c].bound| == |h[d].bound| == 1
    ensures |h[x].bound| == 1 && h[x].bound == Mbr(BoundsIn(h, [c, d]))
  {
    var boxes := BoundsIn(h, [c, d]);
    assert boxes == [h[c].bound, h[d].bound];
    MbrOfTwo(h[c].bound, h[d].bound);
  }

  lemma MbrOfTwo(one: Box, two: Box)
    requires |one| == |two|
    ensures Mbr([one, two]) == Union(one, two)
  {
    assert [one, two][..1] == [one];
  }

  /** An object whose box is the interval from `lo` to `lo + 1`. */
  function At(id: int, lo: real): (x: OSMObject)
    ensures |x.bound| == 1
  {
    OSMObject(id, 0.0, 0.0, map[], [Interval(lo, lo + 1.0)])
  }

  method NewPair(x: OSMObject, y: OSMObject) returns (n: Node, c: Node, d: Node)
    requires |x.bound| == |y.bound| == 1
    ensures fresh({n, c, d}) && c != d && n.items == [c, d] && n.parent == null && n.bound == Union(x.bound, y.bound)
    ensures n.isLeaf && n.lvl == 1 && n.leaf == NO_OBJECT
    ensures c.items == d.items == [] && c.parent == d.parent == n && c.bound == x.bound && d.bound == y.bound
    ensures c.leaf == x && d.leaf == y && c.lvl == d.lvl == 0 && !c.isLeaf && !d.isLeaf
  {
    c := new Node.Data(x.bound, x);
    d := new Node.Data(y.bound, y);
    n := new Node.Branch([c, d], null, true, 1);
    c.parent := n;
    d.parent := n;
    n.bound := BoundingBox(c.bound, d.bound);
  }

  /** A tree of four objects in two leaf nodes, with boxes from 0 to 6. */
  method TreeOfFour() returns (t: Rtree)
    ensures t.Valid() && t.Clean() && !t.lean && fresh(t) && fresh(t.nodes) && t.Cfg() == Config(2, 3, 1, true)
    ensures t.size == 4 && !t.root.isLeaf && t.Contents() == multiset{At(1, 0.0), At(2, 1.0), At(3, 4.0), At(4, 5.0)}
    ensures t.root.lvl == 2 && |t.root.items| == 2
    ensures forall c :: c in t.root.items ==> c in t.nodes && |c.bound| == 1 && c.bound[0].hi <= 6.0
  {
    hide Union, Stored, TwoLeaves, Kids, Link, Sized, Filled, Tight;
    ghost var h, a, b, c, d, e, f;
    t, h, a, b, c, d, e, f := PlantFour();
    TwoLeavesAreProper(h, t.root, a, b, c, d, e, f);
    t.StoredIsEntered();
    ObjectsOfFour(c, d, e, f);
    FourBounds(h, t.root, a, b, c, d, e, f);
  }

  method NewRoot(a: Node, b: Node) returns (r: Node)
    requires a != b && |a.bound| == |b.bound|
    modifies a`parent, b`parent
    ensures fresh(r) && r.items == [a, b] && r.parent == null && r.bound == Union(a.bound, b.bound)
    ensures !r.isLeaf && r.lvl == 2 && r.leaf == NO_OBJECT && a.parent == b.parent == r
  {
    r := new Node.Branch([a, b], null, false, 2);
    r.bound := BoundingBox(a.bound, b.bound);
    a.parent := r;
    b.parent := r;
  }

  method Plant(r: Node, ghost nodes: set<Node>) returns (t: Rtree)
    ensures fresh(t) && t.root == r && t.nodes == nodes && t.height == 2 && t.size == 4 && t.splits == [] && !t.lean
    ensures t.Cfg() == Config(2, 3, 1, true)
  {
    t := new Rtree(2, 3, 1);
    t.root, t.height, t.size, t.nodes := r, 2, 4, nodes;
  }

  method PlantFour()
    returns (t: Rtree, ghost h: Mem, ghost a: Node, ghost b: Node, ghost c: Node, ghost d: Node, ghost e: Node,
             ghost f: Node)
    ensures fresh(t) && fresh(t.nodes) && t.height == 2 && t.size == 4 && t.splits == [] && !t.lean
    ensures h == t.Mem() && TwoLeaves(h, t.root, a, b, c, d, e, f) && t.Cfg() == Config(2, 3, 1, true)
    ensures c.leaf == At(1, 0.0) && d.leaf == At(2, 1.0) && e.leaf == At(3, 4.0) && f.leaf == At(4, 5.0)
  {
    hide Union, At;
    var x, y;
    x, c, d := NewPair(At(1, 0.0), At(2, 1.0));
    y, e, f := NewPair(At(3, 4.0), At(4, 5.0));
    a, b := x, y;
    var r := NewRoot(x, y);
    t := Plant(r, {r, a, b, c, d, e, f});
    h := t.Mem();
  }

  lemma FourBounds(h: Mem, r: Node, a: Node, b: Node, c: Node, d: Node, e: Node, f: Node)
    requires TwoLeaves(h, r, a, b, c, d, e, f)
    requires c.leaf == At(1, 0.0) && d.leaf == At(2, 1.0) && e.leaf == At(3, 4.0) && f.leaf == At(4, 5.0)
    ensures forall x :: x in h[r].items ==> x in h && |h[x].bound| == 1 && h[x].bound[0].hi <= 6.0
  {
  }

  lemma ObjectsOfFour(c: Node, d: Node, e: Node, f: Node)
    requires c != d && e != f && {c, d} !! {e, f}
    ensures ObjectsOf({c, d, e, f}) == multiset{c.leaf, d.leaf, e.leaf, f.leaf}
  {
    hide ObjectsOf;
    ObjectsOfPair(c, d);
    ObjectsOfPair(e, f);
    ObjectsOfUnion({c, d}, {e, f});
    assert {c, d} + {e, f} == {c, d, e, f};
  }

  lemma ObjectsOfPair(c: Node, d: Node)
    requires c != d
    ensures ObjectsOf({c, d}) == multiset{c.leaf, d.leaf}
  {
    hide ObjectsOf;
    ObjectsOfOne(c);
    ObjectsOfMore({c}, d);
    assert {c} + {d} == {c, d};
  }

  lemma ObjectsOfOne(c: Node)
    ensures ObjectsOf({c}) == multiset{c.leaf}
  {
    ObjectsOfMore({}, c);
    assert {} + {c} == {c};
  }

  /** No object has identifier 0 and no box is near, but deleting such an object takes out a whole leaf
      node: two objects at least are gone and the size is wrong. */
  method ZeroTakesOutAChild() returns (t: Rtree, deleted: bool)
    ensures deleted && t.Valid() && t.size == 3 && |t.Contents()| <= 2
  {
    hide TakenOut, Reaches, LeadsToLeaf, Proper, AllSized, EnoughLeft, OnlyWithId;
    t := TreeOfFour();
    ghost var before, h, root := t.Contents(), t.Mem(), t.root;
    var far := At(0, 100.0);
    NoWayToLeaf(h, root, far.bound);
    var stopped;
    ghost var e, gone, waiting;
    deleted, stopped, e, gone, waiting := Delete(t, far);
    ChildOfRoot(h, root, e, far, gone);
    LessThanAll(before, gone);
  }

  lemma LessThanAll(all: multiset<OSMObject>, gone: multiset<OSMObject>)
    requires gone <= all
    ensures |all - gone| == |all| - |gone|
  {
    assert all == (all - gone) + gone;
  }

  lemma ChildOfRoot(h: Mem, root: Node, e: Node, leaf: OSMObject, gone: multiset<OSMObject>)
    requires Shape(h, root, null) && root.lvl == 2 && TakenOut(h, root, 2, e, leaf, gone)
    requires leaf.id == 0 && !LeadsToLeaf(h, root, root, leaf.bound)
    ensures EnoughLeft(h, root, 2, e) && 2 <= |gone|
  {
    assert Kids(h, e, root, null);
    if h[e].parent != root { OnlyRootAtTop(h, root, h[e].parent); }
  }

  lemma NoWayToLeaf(h: Mem, root: Node, box: Box)
    requires Shape(h, root, null) && root.lvl == 2 && |box| == 1 && 100.0 <= box[0].lo
    requires forall c :: c in h[root].items ==> c in h && |h[c].bound| == 1 && h[c].bound[0].hi <= 6.0
    ensures !LeadsToLeaf(h, root, root, box)
  {
    forall i
      ensures !LeadsThrough(h, root, root, i, box)
    {
      if 0 <= i < |h[root].items| {
        assert h[root].items[i] in h[root].items;
      }
    }
  }
}
