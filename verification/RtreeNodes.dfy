/** The nodes of the R-tree and the algorithms that look at one node only. */
module RtreeNodes {
  import opened Wrappers
  import opened Boxes
  import opened SplitPolicy
  import opened SplitLaws

  datatype OSMObject = OSMObject(id: int, lat: real, lon: real, tag: map<int, int>, bound: Box)

  const NO_OBJECT := OSMObject(0, 0.0, 0.0, map[], [])

  /** A data entry (`lvl` 0), a leaf node (`lvl` 1) or an internal node. The level is counted from
      the data upward, so it never changes while the tree grows and shrinks at its root. */
  class Node {
    var items: seq<Node>
    var parent: Node?
    var bound: Box
    const isLeaf: bool
    const leaf: OSMObject
    ghost const lvl: nat

    constructor Data(bound: Box, leaf: OSMObject)
      ensures items == [] && parent == null && this.bound == bound
      ensures !isLeaf && this.leaf == leaf && lvl == 0
    {
      items, parent, this.bound := [], null, bound;
      isLeaf, this.leaf, lvl := false, leaf, 0;
    }

    constructor Branch(items: seq<Node>, parent: Node?, isLeaf: bool, ghost lvl: nat)
      ensures this.items == items && this.parent == parent && bound == []
      ensures this.isLeaf == isLeaf && leaf == NO_OBJECT && this.lvl == lvl
    {
      this.items, this.parent, bound := items, parent, [];
      this.isLeaf, leaf, this.lvl := isLeaf, NO_OBJECT, lvl;
    }

    /** The exact union of the entries' boxes. */
    method ComputeBB() returns (bb: Box)
      requires items != [] && Uniform(Bounds(items), |items[0].bound|)
      ensures bb == Mbr(Bounds(items))
    {
      bb := MbrOf(items);
    }
  }

  function Bounds(items: seq<Node>): (boxes: seq<Box>)
    reads items
    ensures |boxes| == |items|
  {
    seq(|items|, i requires 0 <= i < |items| reads items => items[i].bound)
  }

  function Entries(items: seq<Node>): (es: seq<Entry<Node>>)
    reads items
    ensures |es| == |items|
  {
    seq(|items|, i requires 0 <= i < |items| reads items => Entry(items[i].bound, items[i]))
  }

  lemma EntriesAreItems(items: seq<Node>)
    ensures ItemsOf(Entries(items)) == items && BoxesOf(Entries(items)) == Bounds(items)
  {
  }

  method MbrOf(items: seq<Node>) returns (bb: Box)
    requires items != [] && Uniform(Bounds(items), |items[0].bound|)
    ensures bb == Mbr(Bounds(items))
  {
    ghost var boxes := Bounds(items);
    ghost var dim := |items[0].bound|;
    if |items| == 1 {
      return items[0].bound;
    }
    assert boxes[..2] == [boxes[0], boxes[1]] && boxes[..2][..1] == [boxes[0]];
    assert |boxes[0]| == dim && |boxes[1]| == dim;
    bb := BoundingBox(items[0].bound, items[1].bound);
    for i := 2 to |items|
      invariant |bb| == dim && bb == Mbr(boxes[..i])
    {
      assert |boxes[i]| == dim && boxes[..i + 1][..i] == boxes[..i];
      bb := BoundingBox(bb, items[i].bound);
    }
    assert boxes[..|items|] == boxes;
  }

  // ----- choosing the subtree of least enlargement -----

  ghost predicate LeastEnlargement(boxes: seq<Box>, bound: Box, k: nat) {
    k < |boxes| && forall i :: 0 <= i < |boxes| ==> Enlargement(boxes[k], bound) <= Enlargement(boxes[i], bound)
  }

  /** `i` is enlarged as much as `k`. */
  ghost predicate Tied(boxes: seq<Box>, bound: Box, i: nat, k: nat)
    requires i < |boxes| && k < |boxes|
  {
    Enlargement(boxes[i], bound) == Enlargement(boxes[k], bound)
  }

  /** On ties the enlarged box of the later entry is compared with the box of the earlier entry as it
      is: no later tied entry undercuts `k`, and `k` is the first tied entry or undercuts one. */
  ghost predicate TieRule(boxes: seq<Box>, bound: Box, k: nat) {
    k < |boxes| &&
    (forall j :: k < j < |boxes| && Tied(boxes, bound, j, k) ==>
      AreaOf(boxes[k]) <= AreaOf(Union(boxes[j], bound))) &&
    ((forall j :: 0 <= j < k ==> !Tied(boxes, bound, j, k)) ||
     exists j :: 0 <= j < k && Tied(boxes, bound, j, k) && AreaOf(Union(boxes[k], bound)) < AreaOf(boxes[j]))
  }

  lemma TieRuleKept(boxes: seq<Box>, bound: Box, k: nat, i: nat)
    requires 0 < i < |boxes| && LeastEnlargement(boxes[..i], bound, k) && TieRule(boxes[..i], bound, k)
    ensures var least, enlargement := Enlargement(boxes[k], bound), Enlargement(boxes[i], bound);
      var won := enlargement < least || (enlargement == least && AreaOf(Union(boxes[i], bound)) < AreaOf(boxes[k]));
      LeastEnlargement(boxes[..i + 1], bound, if won then i else k) &&
      TieRule(boxes[..i + 1], bound, if won then i else k)
  {
    var a, b := boxes[..i], boxes[..i + 1];
    assert forall j :: 0 <= j < i ==> a[j] == b[j] == boxes[j];
    assert forall j, l :: 0 <= j < i && 0 <= l < i ==> Tied(a, bound, j, l) == Tied(b, bound, j, l);
    var least, enlargement := Enlargement(boxes[k], bound), Enlargement(boxes[i], bound);
    if enlargement == least {
      assert Tied(b, bound, k, i) && Tied(b, bound, i, k);
    }
  }

  lemma TieRuleFirst(boxes: seq<Box>, bound: Box)
    requires boxes != []
    ensures LeastEnlargement(boxes[..1], bound, 0) && TieRule(boxes[..1], bound, 0)
  {
  }

  /** The loop shared by `chooseLeaf` and `chooseLevel`. */
  method ChooseSubtree(node: Node, bound: Box) returns (k: nat)
    requires node.items != [] && forall i :: 0 <= i < |node.items| ==> |node.items[i].bound| <= |bound|
    ensures LeastEnlargement(Bounds(node.items), bound, k) && TieRule(Bounds(node.items), bound, k)
  {
    hide TieRule, LeastEnlargement;
    ghost var boxes := Bounds(node.items);
    TieRuleFirst(boxes, bound);
    k := 0;
    var least := 0.0;
    for i := 0 to |node.items|
      invariant k < |boxes| && (i == 0 ==> k == 0)
      invariant i > 0 ==> least == Enlargement(boxes[k], bound)
      invariant i > 0 ==> LeastEnlargement(boxes[..i], bound, k) && TieRule(boxes[..i], bound, k)
    {
      var itembb := node.items[i].bound;
      var bb := BoundingBox(itembb, bound);
      var bbArea := Area(bb);
      var itemArea := Area(itembb);
      var chosenArea := Area(node.items[k].bound);
      var enlargement := bbArea - itemArea;
      assert boxes[i] == itembb;
      if i > 0 { TieRuleKept(boxes, bound, k, i); }
      // before the first entry the least enlargement is the greatest float
      if i == 0 || enlargement < least || (enlargement == least && bbArea < chosenArea) {
        least := enlargement;
        k := i;
      }
    }
    assert boxes[..|boxes|] == boxes;
  }

  // ----- splitting -----

  lemma ArgSnoc(s: seq<real>, n: nat)
    requires 0 < n < |s|
    ensures ArgMax(s[..n + 1]) == if s[n] > s[ArgMax(s[..n])] then n else ArgMax(s[..n])
    ensures ArgMin(s[..n + 1]) == if s[n] < s[ArgMin(s[..n])] then n else ArgMin(s[..n])
  {
    assert s[..n + 1][..n] == s[..n];
  }

  lemma ArgFirst(s: seq<real>)
    requires s != []
    ensures ArgMax(s[..1]) == 0 && ArgMin(s[..1]) == 0
  {
  }

  method Extremes(l: Node, axis: nat) returns (highestLow: nat, lowestHigh: nat, width: real)
    requires l.items != [] && forall i :: 0 <= i < |l.items| ==> axis < |l.items[i].bound|
    ensures var lows, highs := Lows(Bounds(l.items), axis), Highs(Bounds(l.items), axis);
      highestLow == ArgMax(lows) && lowestHigh == ArgMin(highs) &&
      width == highs[ArgMax(highs)] - lows[ArgMin(lows)]
  {
    hide ArgMax, ArgMin;
    ghost var lows, highs := Lows(Bounds(l.items), axis), Highs(Bounds(l.items), axis);
    ArgFirst(lows);
    ArgFirst(highs);
    // the first entry replaces the four infinities
    highestLow, lowestHigh := 0, 0;
    var first := l.items[0].bound[axis];
    var highestLowSide, lowestLowSide, lowestHighSide, highestHighSide := first.lo, first.lo, first.hi, first.hi;
    for i := 1 to |l.items|
      invariant highestLow == ArgMax(lows[..i]) && highestLowSide == lows[highestLow]
      invariant lowestHigh == ArgMin(highs[..i]) && lowestHighSide == highs[lowestHigh]
      invariant lowestLowSide == lows[ArgMin(lows[..i])] && highestHighSide == highs[ArgMax(highs[..i])]
    {
      var low, high := l.items[i].bound[axis].lo, l.items[i].bound[axis].hi;
      assert low == lows[i] && high == highs[i];
      ArgSnoc(lows, i);
      ArgSnoc(highs, i);
      if low > highestLowSide {
        highestLowSide, highestLow := low, i;
      }
      if low < lowestLowSide {
        lowestLowSide := low;
      }
      if high < lowestHighSide {
        lowestHighSide, lowestHigh := high, i;
      }
      if high > highestHighSide {
        highestHighSide := high;
      }
    }
    assert lows[..|lows|] == lows && highs[..|highs|] == highs;
    width := highestHighSide - lowestLowSide;
  }

  method SeedsAlong(l: Node, axis: nat) returns (s: Seeds)
    requires l.items != [] && forall i :: 0 <= i < |l.items| ==> axis < |l.items[i].bound|
    ensures s == AxisSeeds(Bounds(l.items), axis)
  {
    var highestLow, lowestHigh, width := Extremes(l, axis);
    var lWidth := l.items[highestLow].bound[axis].lo - l.items[lowestHigh].bound[axis].hi;
    s := Seeds(if width == 0.0 then None else Some(lWidth / width), highestLow, lowestHigh);
  }

  method LinearPickSeeds(l: Node, dims: nat) returns (seeds: Seeds)
    requires |l.items| >= 2 && forall i :: 0 <= i < |l.items| ==> |l.items[i].bound| == dims
    ensures seeds == SeedsUpTo(Bounds(l.items), dims)
  {
    ghost var boxes := Bounds(l.items);
    ghost var all := seq(dims, axis requires 0 <= axis < dims => AxisSeeds(boxes, axis));
    seeds := Seeds(None, 0, 1);
    for axis := 0 to dims
      invariant seeds == BestOf(all[..axis])
    {
      var s := SeedsAlong(l, axis);
      assert all[..axis + 1][..axis] == all[..axis];
      seeds := Better(s, seeds);
    }
    assert all[..dims] == all;
  }

  method PickNextEntry(b1: Box, b2: Box, remaining: seq<Node>) returns (chosen: nat)
    requires remaining != []
    requires forall i :: 0 <= i < |remaining| ==> |b1| <= |remaining[i].bound| && |b2| <= |remaining[i].bound|
    ensures chosen == PickNext(b1, b2, Bounds(remaining))
  {
    ghost var prefs := Preferences(b1, b2, Bounds(remaining));
    chosen := 0;
    var maxDiff := 0.0;
    var a1 := Area(b1);
    var a2 := Area(b2);
    for i := 0 to |remaining|
      invariant i == 0 ==> chosen == 0
      invariant i > 0 ==> chosen == ArgMax(prefs[..i]) && maxDiff == prefs[chosen]
    {
      var e1 := BoundingBox(b1, remaining[i].bound);
      var e2 := BoundingBox(b2, remaining[i].bound);
      var d1 := Area(e1);
      var d2 := Area(e2);
      var d := Abs((d1 - a1) - (d2 - a2));
      assert d == prefs[i];
      assert prefs[..i + 1][..i] == prefs[..i];
      // the first difference replaces minus infinity
      if i == 0 || d > maxDiff {
        chosen, maxDiff := i, d;
      }
    }
    assert prefs[..|remaining|] == prefs;
  }

  /** The two nodes and the list of unplaced nodes hold the groups `g`, all taken from `pool`. */
  ghost predicate Holds(one: Node, two: Node, rest: seq<Node>, g: Groups<Node>, pool: set<Node>)
    reads one, two, pool
  {
    one != two && one !in pool && two !in pool &&
    (forall c :: c in one.items ==> c in pool) && (forall c :: c in two.items ==> c in pool) &&
    (forall c :: c in rest ==> c in pool) &&
    g.one == Entries(one.items) && g.two == Entries(two.items) && g.rest == Entries(rest)
  }

  ghost predicate PoolDims(pool: set<Node>, dims: nat)
    reads pool
  {
    forall c :: c in pool ==> |c.bound| == dims
  }

  ghost predicate SameDims(items: seq<Node>, dims: nat)
    reads items
  {
    forall c :: c in items ==> |c.bound| == dims
  }

  /** The enlargement and the area of a group that receives `e`. */
  method Growth(group: seq<Node>, e: Node) returns (enlargement: real, area: real)
    requires group != [] && SameDims(group, |e.bound|)
    ensures enlargement == Enlargement(Mbr(Bounds(group)), e.bound)
    ensures area == AreaOf(Union(Mbr(Bounds(group)), e.bound))
  {
    var groupBB := MbrOf(group);
    MbrDim(Bounds(group), |e.bound|);
    var grown := BoundingBox(groupBB, e.bound);
    area := Area(grown);
    var before := Area(groupBB);
    enlargement := area - before;
  }

  method ChooseGroup(one: seq<Node>, two: seq<Node>, left: nat, e: Node, m: nat) returns (side: Side)
    requires one != [] && two != []
    requires SameDims(one, |e.bound|) && SameDims(two, |e.bound|)
    ensures side == Assign(m, Bounds(one), Bounds(two), left, e.bound)
  {
    var enlargementOne, a1 := Growth(one, e);
    var enlargementTwo, a2 := Growth(two, e);
    side := Decide(m, |one|, |two|, left, enlargementOne, enlargementTwo, a1, a2);
  }

  /** Every entry of a group has that group as its parent, unless the other group holds it too. */
  ghost predicate Adopted(one: Node, two: Node)
    reads one, two, one.items, two.items
  {
    (forall c :: c in one.items ==> c.parent == one || (c.parent == two && c in two.items)) &&
    (forall c :: c in two.items ==> c.parent == two || (c.parent == one && c in one.items))
  }

  method PlaceEntry(one: Node, two: Node, remaining: seq<Node>, k: nat, side: Side, ghost g: Groups<Node>,
                    ghost pool: set<Node>)
    returns (rest: seq<Node>)
    requires Started(g) && k < |remaining| && Holds(one, two, remaining, g, pool) && Adopted(one, two)
    modifies one`items, two`items, pool`parent
    ensures Holds(one, two, rest, Place(g, k, side), pool)
    ensures Adopted(one, two)
    ensures forall c :: c in pool ==> c.parent == old(c.parent) || c.parent == one || c.parent == two
  {
    var e := remaining[k];
    match side {
      case One =>
        one.items := one.items + [e];
        e.parent := one;
      case Two =>
        two.items := two.items + [e];
        e.parent := two;
      case Neither =>
    }
    rest := remaining[..k] + remaining[k + 1..];
  }

  /** One round of the loop of `splitNode`. */
  method DistributeOne(one: Node, two: Node, remaining: seq<Node>, m: nat, dims: nat, ghost g: Groups<Node>,
                       ghost pool: set<Node>)
    returns (rest: seq<Node>, ghost h: Groups<Node>)
    requires Started(g) && remaining != [] && Holds(one, two, remaining, g, pool) && Adopted(one, two)
    requires PoolDims(pool, dims) && |one.bound| <= dims && |two.bound| <= dims
    modifies one`items, two`items, pool`parent
    ensures h == Round(m, one.bound, two.bound, g)
    ensures Holds(one, two, rest, h, pool) && Adopted(one, two)
    ensures forall c :: c in pool ==> c.parent == old(c.parent) || c.parent == one || c.parent == two
  {
    hide PickNext, Assign, Place, Adopted;
    assert SameDims(one.items, dims) && SameDims(two.items, dims) && SameDims(remaining, dims);
    var k := PickNextEntry(one.bound, two.bound, remaining);
    assert Bounds(remaining) == BoxesOf(g.rest);
    assert Bounds(one.items) == BoxesOf(g.one) && Bounds(two.items) == BoxesOf(g.two);
    var side := ChooseGroup(one.items, two.items, |remaining|, remaining[k], m);
    rest := PlaceEntry(one, two, remaining, k, side, g, pool);
    h := Place(g, k, side);
  }

  method SelectOthers(l: Node, first: Node, second: Node) returns (remaining: seq<Node>)
    ensures Entries(remaining) == Others(Entries(l.items), first, second)
    ensures forall c :: c in remaining ==> c in l.items
  {
    ghost var es := Entries(l.items);
    remaining := [];
    for i := 0 to |l.items|
      invariant Entries(remaining) == Others(es[..i], first, second)
      invariant forall c :: c in remaining ==> c in l.items
    {
      assert es[..i + 1][..i] == es[..i];
      if l.items[i] != first && l.items[i] != second {
        remaining := remaining + [l.items[i]];
      }
    }
    assert es[..|es|] == es;
  }

  /** `splitNode`: the entries of `l` are divided between `l` and a new node. `trace` is a run of the split: the
      groups after the seeds and after each round, and every such run ends with these groups. */
  method SplitNode(l: Node, m: nat, dims: nat, ghost pool: set<Node>)
    returns (ll: Node, ghost g: Groups<Node>, ghost trace: seq<Groups<Node>>)
    requires |l.items| >= 2 && l !in pool && (forall c :: c in l.items ==> c in pool)
    requires PoolDims(pool, dims) && |l.bound| <= dims
    modifies l`items, pool`parent
    ensures fresh(ll) && ll.parent == l.parent && ll.isLeaf == l.isLeaf && ll.lvl == l.lvl && ll.bound == []
    ensures ll.leaf == NO_OBJECT
    ensures g == old(Split(m, dims, l.bound, Entries(l.items)))
    ensures RightSplit(m, dims, old(l.bound), old(Entries(l.items)), trace) && trace[|trace| - 1] == g
    ensures l.items == ItemsOf(g.one) && ll.items == ItemsOf(g.two) && l.items != [] && ll.items != []
    ensures (forall c :: c in l.items ==> c in pool) && (forall c :: c in ll.items ==> c in pool)
    ensures Adopted(l, ll)
    ensures forall c :: c in pool ==> c.parent == old(c.parent) || c.parent == l || c.parent == ll
  {
    trace := SplitIsRight(m, dims, l.bound, Entries(l.items));
    hide RightSplit;
    var remaining;
    ll, remaining, g := SeedGroups(l, dims, pool);
    g := DistributeAll(l, ll, remaining, m, dims, g, pool);
    EntriesAreItems(l.items);
    EntriesAreItems(ll.items);
  }

  /** The loop of `splitNode`. */
  method DistributeAll(one: Node, two: Node, unplaced: seq<Node>, m: nat, dims: nat, ghost g: Groups<Node>,
                       ghost pool: set<Node>)
    returns (ghost h: Groups<Node>)
    requires Started(g) && Holds(one, two, unplaced, g, pool) && Adopted(one, two)
    requires PoolDims(pool, dims) && |one.bound| <= dims && |two.bound| <= dims
    modifies one`items, two`items, pool`parent
    ensures h == Distribute(m, one.bound, two.bound, g)
    ensures Holds(one, two, [], h, pool) && Adopted(one, two)
    ensures forall c :: c in pool ==> c.parent == old(c.parent) || c.parent == one || c.parent == two
  {
    var remaining := unplaced;
    h := g;
    while remaining != []
      invariant Started(h) && Holds(one, two, remaining, h, pool) && Adopted(one, two)
      invariant Distribute(m, one.bound, two.bound, h) == Distribute(m, one.bound, two.bound, g)
      invariant forall c :: c in pool ==> c.parent == old(c.parent) || c.parent == one || c.parent == two
      decreases |remaining|
    {
      ghost var before := h;
      remaining, h := DistributeOne(one, two, remaining, m, dims, h, pool);
      assert Distribute(m, one.bound, two.bound, before) == Distribute(m, one.bound, two.bound, h);
    }
  }

  /** The start of `splitNode`: one seed in `l`, the other in a new node, the rest unplaced. */
  method SeedGroups(l: Node, dims: nat, ghost pool: set<Node>)
    returns (ll: Node, remaining: seq<Node>, ghost g: Groups<Node>)
    requires |l.items| >= 2 && l !in pool && (forall c :: c in l.items ==> c in pool)
    requires PoolDims(pool, dims) && |l.bound| <= dims
    modifies l`items, pool`parent
    ensures fresh(ll) && ll.parent == l.parent && ll.isLeaf == l.isLeaf && ll.lvl == l.lvl && ll.bound == []
    ensures ll.leaf == NO_OBJECT
    ensures g == old(Start(dims, Entries(l.items)))
    ensures Holds(l, ll, remaining, g, pool) && Adopted(l, ll)
    ensures forall c :: c in pool ==> c.parent == old(c.parent) || c.parent == l || c.parent == ll
  {
    hide SeedsUpTo, Others;
    ghost var es := Entries(l.items);
    var seeds := LinearPickSeeds(l, dims);
    assert Bounds(l.items) == BoxesOf(es);
    var first, second := l.items[seeds.one], l.items[seeds.two];
    remaining := SelectOthers(l, first, second);
    g := Start(dims, es);
    ll := Seed(l, first, second, pool);
    assert Entries(l.items) == g.one && Entries(ll.items) == g.two;
  }

  method Seed(l: Node, first: Node, second: Node, ghost pool: set<Node>) returns (ll: Node)
    requires l !in pool && first in pool && second in pool
    modifies l`items, pool`parent
    ensures fresh(ll) && ll.parent == l.parent && ll.isLeaf == l.isLeaf && ll.lvl == l.lvl && ll.bound == []
    ensures ll.leaf == NO_OBJECT && l.items == [first] && ll.items == [second] && Adopted(l, ll)
    ensures forall c :: c in pool ==> c.parent == old(c.parent) || c.parent == l || c.parent == ll
  {
    l.items := [first];
    first.parent := l;
    ll := new Node.Branch([second], l.parent, l.isLeaf, l.lvl);
    second.parent := ll;
  }
}
