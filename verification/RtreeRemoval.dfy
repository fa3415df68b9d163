/** Deletion from the R-tree: `FindLeaf`, `condenseTree`, the reinsertion of orphans, `Delete`. */
module RtreeRemoval {
  import opened Boxes
  import opened SplitPolicy
  import opened RtreeNodes
  import opened RtreeInvariant
  import opened RtreeItems
  import opened RtreeContents
  import opened RtreeDeletion
  import opened RtreeStops
  import opened Rtrees

  ghost predicate HasId(items: seq<Node>, id: int) {
    exists i :: 0 <= i < |items| && items[i].leaf.id == id
  }

  method HoldsId(items: seq<Node>, id: int) returns (yes: bool)
    ensures yes <==> HasId(items, id)
  {
    for i := 0 to |items|
      invariant !HasId(items[..i], id)
    {
      if items[i].leaf.id == id {
        return true;
      }
    }
    assert items[..|items|] == items;
    return false;
  }

  /** The children of an internal node carry the default object with identifier 0, so a search for
      identifier 0 ends at the last node on its way down. It reaches a leaf node exactly if that way,
      through the first overlapping child and at the lowest internal node through any, ends at one
      that holds the identifier. */
  ghost predicate LeadsToLeaf(h: Mem, root: Node, x: Node, box: Box)
    requires Shape(h, root, null) && x in h
    decreases x.lvl, 1
  {
    if x.lvl <= 1 then HasId(h[x].items, 0) else exists i :: LeadsThrough(h, root, x, i, box)
  }

  ghost predicate LeadsThrough(h: Mem, root: Node, x: Node, i: int, box: Box)
    requires Shape(h, root, null) && x in h && 2 <= x.lvl
    decreases x.lvl, 0
  {
    assert Kids(h, x, root, null);
    0 <= i < |h[x].items| && Overlap(h[h[x].items[i]].bound, box) && LeadsToLeaf(h, root, h[x].items[i], box) &&
    (x.lvl > 2 ==> NoneOverlaps(h, h[x].items[..i], box))
  }

  ghost predicate NoneOverlaps(h: Mem, items: seq<Node>, box: Box) {
    forall j :: 0 <= j < |items| ==> items[j] in h && !Overlap(h[items[j]].bound, box)
  }

  /** `FindLeaf`: a node holding an entry with the identifier, and its level counted from the root.
      It misses no entry whose box overlaps the object's box. */
  method FindLeaf(t: Rtree, leaf: OSMObject, node: Node, level: nat) returns (l: Node?, leafLevel: nat)
    requires Sound(t.Mem(), t.root, t.Cfg()) && Covering(t.Mem(), t.root) && |leaf.bound| == t.dims
    requires node in t.nodes && 1 <= node.lvl
    ensures l != null ==> l in t.nodes && 1 <= l.lvl <= node.lvl && leafLevel == level + node.lvl - l.lvl
    ensures l != null ==> HasId(l.items, leaf.id) && (node.lvl == 1 ==> l == node)
    ensures node.lvl == 1 ==> (l != null <==> HasId(node.items, leaf.id))
    ensures l != null && leaf.id != 0 ==> l.lvl == 1
    ensures leaf.id == 0 ==> (l != null && l.lvl == 1 <==> LeadsToLeaf(t.Mem(), t.root, node, leaf.bound))
    ensures l == null ==> NoneFound(t.Mem(), Leaves(t.Mem(), t.root, node), leaf)
    ensures l == null && leaf.id == 0 ==> node.lvl == 1
    decreases node.lvl, 1
  {
    ghost var h := t.Mem();
    assert Kids(h, node, t.root, null);
    if node.isLeaf {
      l, leafLevel := FindHere(t, leaf, node, level);
      return;
    }
    for i := 0 to |node.items|
      invariant NoneFound(h, LeavesOf(h, t.root, node.items[..i], node.lvl), leaf)
      invariant leaf.id == 0 ==> NoWayThrough(h, t.root, node, i, leaf.bound)
    {
      l, leafLevel := FindBelow(t, leaf, node, i, level);
      if l != null {
        return;
      }
    }
    assert node.items[..|node.items|] == node.items;
    l, leafLevel := FindHere(t, leaf, node, level);
  }

  /** The second step of `FindLeaf`: the entries of the node itself. */
  method FindHere(t: Rtree, leaf: OSMObject, node: Node, level: nat) returns (l: Node?, leafLevel: nat)
    requires Sound(t.Mem(), t.root, t.Cfg()) && node in t.nodes && 1 <= node.lvl
    ensures l == null || (l == node && leafLevel == level && HasId(l.items, leaf.id) && (leaf.id != 0 ==> l.lvl == 1))
    ensures l == null && node.lvl == 1 ==> NoneFound(t.Mem(), Leaves(t.Mem(), t.root, node), leaf)
    ensures leaf.id == 0 ==> (l != null <==> 2 <= node.lvl || HasId(node.items, 0))
    ensures l != null <==> HasId(node.items, leaf.id)
  {
    ghost var h := t.Mem();
    assert Kids(h, node, t.root, null);
    var here := HoldsId(node.items, leaf.id);
    if here {
      if leaf.id != 0 {
        DefaultObjects(h, t.root, node, leaf.id);
      }
      return node, level;
    }
    if node.lvl == 1 {
      LeafHasNoId(h, t.root, node, leaf.id);
    } else {
      InternalHasDefault(h, t.root, node);
    }
    return null, 0;
  }

  /** No entry with the identifier overlaps the object's box. */
  ghost predicate NoneFound(h: Mem, entries: seq<Node>, leaf: OSMObject) {
    forall y :: y in entries && y.leaf.id == leaf.id ==> !Hit(h, y, leaf.bound)
  }

  ghost predicate NoWayThrough(h: Mem, root: Node, x: Node, n: nat, box: Box)
    requires Shape(h, root, null) && x in h && 2 <= x.lvl
  {
    (forall j :: 0 <= j < n ==> !LeadsThrough(h, root, x, j, box)) &&
    (x.lvl > 2 ==> n <= |h[x].items| && NoneOverlaps(h, h[x].items[..n], box))
  }

  method FindBelow(t: Rtree, leaf: OSMObject, node: Node, i: nat, level: nat) returns (l: Node?, leafLevel: nat)
    requires Sound(t.Mem(), t.root, t.Cfg()) && Covering(t.Mem(), t.root) && |leaf.bound| == t.dims
    requires node in t.nodes && 2 <= node.lvl && i < |node.items|
    requires forall c :: c in node.items ==> c in t.nodes && c.lvl + 1 == node.lvl
    requires leaf.id == 0 ==> NoWayThrough(t.Mem(), t.root, node, i, leaf.bound)
    requires NoneFound(t.Mem(), LeavesOf(t.Mem(), t.root, node.items[..i], node.lvl), leaf)
    ensures l != null ==> l in t.nodes && 1 <= l.lvl < node.lvl && leafLevel == level + node.lvl - l.lvl
    ensures l != null ==> HasId(l.items, leaf.id)
    ensures l != null && leaf.id != 0 ==> l.lvl == 1
    ensures l != null && leaf.id == 0 ==> (l.lvl == 1 <==> LeadsToLeaf(t.Mem(), t.root, node, leaf.bound))
    ensures l == null && leaf.id == 0 ==> NoWayThrough(t.Mem(), t.root, node, i + 1, leaf.bound)
    ensures l == null ==> NoneFound(t.Mem(), LeavesOf(t.Mem(), t.root, node.items[..i + 1], node.lvl), leaf)
    decreases node.lvl, 0
  {
    ghost var h := t.Mem();
    var item := node.items[i];
    assert Kids(h, item, t.root, null) && Sized(h, item, t.root, t.dims) && Kids(h, t.root, t.root, null);
    assert node.items[..i + 1][..i] == node.items[..i];
    var hit := Overlaps(item.bound, leaf.bound);
    if hit {
      l, leafLevel := FindLeaf(t, leaf, item, level + 1);
    } else {
      MissedSubtree(h, t.root, item, leaf.bound);
      l, leafLevel := null, 0;
    }
    if leaf.id == 0 {
      WayThrough(h, t.root, node, i, leaf.bound, l);
    }
  }

  /** What the `i`-th child adds to the search for identifier 0. */
  lemma WayThrough(h: Mem, root: Node, x: Node, i: nat, box: Box, l: Node?)
    requires Shape(h, root, null) && x in h && 2 <= x.lvl && i < |h[x].items| && NoWayThrough(h, root, x, i, box)
    requires h[x].items[i] in h && h[x].items[i].lvl + 1 == x.lvl
    requires l != null ==> 1 <= l.lvl < x.lvl && Overlap(h[h[x].items[i]].bound, box)
    requires l == null && Overlap(h[h[x].items[i]].bound, box) ==> x.lvl == 2
    requires Overlap(h[h[x].items[i]].bound, box) ==>
      (l != null && l.lvl == 1 <==> LeadsToLeaf(h, root, h[x].items[i], box))
    ensures l != null ==> (l.lvl == 1 <==> LeadsToLeaf(h, root, x, box))
    ensures l == null ==> NoWayThrough(h, root, x, i + 1, box)
  {
    var items := h[x].items;
    if l == null {
      assert items[..i + 1] == items[..i] + [items[i]];
    } else if l.lvl == 1 {
      assert LeadsThrough(h, root, x, i, box);
    } else {
      forall j
        ensures !LeadsThrough(h, root, x, j, box)
      {
        if i < j <= |items| {
          assert items[..j][i] == items[i];
        }
      }
    }
  }

  lemma DefaultObjects(h: Mem, root: Node, x: Node, id: int)
    requires Shape(h, root, null) && x in h && 1 <= x.lvl && HasId(h[x].items, id) && id != 0
    ensures x.lvl == 1
  {
    assert Kids(h, x, root, null);
    var i :| 0 <= i < |h[x].items| && h[x].items[i].leaf.id == id;
    assert Kids(h, h[x].items[i], root, null);
  }

  lemma InternalHasDefault(h: Mem, root: Node, x: Node)
    requires Shape(h, root, null) && x in h && 2 <= x.lvl
    ensures HasId(h[x].items, 0)
  {
    assert Kids(h, x, root, null);
    var c := h[x].items[0];
    assert Kids(h, c, root, null) && c.leaf.id == 0;
  }

  lemma LeafHasNoId(h: Mem, root: Node, x: Node, id: int)
    requires Shape(h, root, null) && x in h && x.lvl == 1 && !HasId(h[x].items, id)
    ensures forall y :: y in Leaves(h, root, x) ==> y.leaf.id != id
  {
    assert Kids(h, x, root, null);
    LeavesOfLeaf(h, root, h[x].items);
  }

  lemma {:induction false} LeavesOfLeaf(h: Mem, root: Node, items: seq<Node>)
    requires Shape(h, root, null) && forall c :: c in items ==> c in h && c.lvl == 0
    ensures LeavesOf(h, root, items, 1) == items
  {
    if items != [] {
      LeavesOfLeaf(h, root, items[..|items| - 1]);
      assert items == items[..|items| - 1] + [items[|items| - 1]];
    }
  }

  // ----- removing an entry from its holder -----

  /** The entry `n`, at position `i` of its parent, leaves the tree with everything below it. */
  method Uproot(t: Rtree, n: Node, i: nat)
    requires CondenseReady(t.Mem(), t.root, t.Cfg(), n) && t.lean && n != t.root
    requires n.parent != null && n.parent in t.nodes && i < |n.parent.items| && n.parent.items[i] == n
    modifies t`nodes, n.parent`items
    ensures t.nodes == old(t.nodes) - SubOf(old(t.Mem()), t.root, n) && n.parent in t.nodes
    ensures CondenseReady(t.Mem(), t.root, t.Cfg(), n.parent) && n.parent.items == old(SwapRemove(n.parent.items, i))
    ensures t.Mem() == CutOf(old(t.Mem()), t.root, n)
  {
    ghost var h := t.Mem();
    var p := n.parent;
    assert Link(h, p, t.root, null);
    SwapRemoveIsWithout(p.items, i);
    UprootTree(h, t.root, t.Cfg(), n, SwapRemove(p.items, i));
    p.items := SwapRemove(p.items, i);
    t.nodes := t.nodes - SubOf(h, t.root, n);
    assert t.Mem() == Uprooted(h, t.root, n, p.items);
    RemovedAt(h[p].items, i);
  }

  // ----- the eliminated nodes -----

  datatype NodeWithLevel = NodeWithLevel(node: Node, level: nat)

  ghost function QueueNodes(q: seq<NodeWithLevel>): set<Node> {
    set k | 0 <= k < |q| :: q[k].node
  }

  ghost function AllOf(lists: seq<seq<Node>>): set<Node> {
    if lists == [] then {} else SetOf(lists[0]) + AllOf(lists[1..])
  }

  lemma {:induction false} AllOfMember(lists: seq<seq<Node>>, c: Node)
    ensures c in AllOf(lists) <==> exists k :: 0 <= k < |lists| && c in lists[k]
  {
    if lists != [] {
      AllOfMember(lists[1..], c);
      if k :| 0 <= k < |lists| && c in lists[k] {
        assert k > 0 ==> c in lists[1..][k - 1];
      }
      if k :| 0 <= k < |lists[1..]| && c in lists[1..][k] {
        assert c in lists[k + 1];
      }
    }
  }

  lemma {:induction false} AllOfMore(lists: seq<seq<Node>>, items: seq<Node>)
    ensures AllOf(lists + [items]) == AllOf(lists) + SetOf(items)
  {
    if lists == [] {
      assert [items][1..] == [];
    } else {
      assert (lists + [items])[1..] == lists[1..] + [items];
      AllOfMore(lists[1..], items);
    }
  }

  /** The queue holds nodes of rising levels, each with its level counted from a root of level `H`;
      `lists` are their entries. */
  ghost predicate Queued(q: seq<NodeWithLevel>, lists: seq<seq<Node>>, H: nat) {
    |lists| == |q| &&
    (forall k :: 0 <= k < |q| ==>
      1 <= q[k].node.lvl < H && q[k].level + q[k].node.lvl == H + 1 && Distinct(lists[k]) &&
      (q[k].node.isLeaf <==> q[k].node.lvl == 1) && forall c :: c in lists[k] ==> c.lvl + 1 == q[k].node.lvl) &&
    forall j, k :: 0 <= j < k < |q| ==> q[j].node.lvl < q[k].node.lvl
  }

  ghost predicate HoldLists(q: seq<NodeWithLevel>, lists: seq<seq<Node>>)
    reads QueueNodes(q)
  {
    |lists| == |q| && forall k :: 0 <= k < |q| ==> q[k].node in QueueNodes(q) && q[k].node.items == lists[k]
  }

  /** Subtrees whose tops are the entries of the queued nodes. */
  ghost predicate OrphanForest(q: seq<NodeWithLevel>, lists: seq<seq<Node>>, limbo: set<Node>, H: nat, cfg: Config)
    reads QueueNodes(q), limbo
  {
    QueueNodes(q) !! limbo && HoldLists(q, lists) && Queued(q, lists, H) &&
    Forest(Snapshot(limbo), AllOf(lists), H, cfg)
  }

  /** The orphans stay apart from the tree. */
  ghost predicate Orphans(t: Rtree, q: seq<NodeWithLevel>, lists: seq<seq<Node>>, limbo: set<Node>, H: nat)
    reads t, QueueNodes(q), limbo
  {
    limbo + QueueNodes(q) !! t.nodes && OrphanForest(q, lists, limbo, H, t.Cfg())
  }

  // ----- going up -----

  method EntryIndex(p: Node, n: Node) returns (enIdx: nat)
    requires n in p.items
    ensures enIdx < |p.items| && p.items[enIdx] == n
  {
    enIdx := 0;
    for i := 0 to |p.items|
      invariant enIdx < |p.items| && (n in p.items[..i] ==> p.items[enIdx] == n)
    {
      if p.items[i] == n {
        enIdx := i;
      }
    }
  }

  method CondenseUp(t: Rtree, n: Node, q: seq<NodeWithLevel>, nLevel: nat, ghost lists: seq<seq<Node>>,
                    ghost limbo: set<Node>, ghost all: multiset<OSMObject>)
    returns (q': seq<NodeWithLevel>, ghost lists': seq<seq<Node>>, ghost limbo': set<Node>)
    requires CondenseReady(t.Mem(), t.root, t.Cfg(), n) && t.lean && n != t.root && 1 <= n.lvl
    requires Orphans(t, q, lists, limbo, t.root.lvl) && nLevel + n.lvl == t.root.lvl + 1
    requires forall k :: 0 <= k < |q| ==> q[k].node.lvl < n.lvl
    requires t.Entered() + ObjectsOf(DataOf(limbo)) == all
    modifies t`nodes, t.nodes
    ensures t.nodes <= old(t.nodes) && limbo' <= limbo + old(t.nodes) && n.parent == old(n.parent) &&
      n.parent != null && n.parent in t.nodes
    ensures n.parent.lvl == n.lvl + 1 && CondenseReady(t.Mem(), t.root, t.Cfg(), n.parent)
    ensures Orphans(t, q', lists', limbo', t.root.lvl) && forall k :: 0 <= k < |q'| ==> q'[k].node.lvl <= n.lvl
    ensures t.Entered() + ObjectsOf(DataOf(limbo')) == all
    ensures if t.minChild <= |old(n.items)| then
        q' == q && n.parent.items == old(n.parent.items)
      else
        q' == q + [NodeWithLevel(n, nLevel)] && |n.parent.items| == |old(n.parent.items)| - 1
    ensures if t.minChild <= |old(n.items)| then
        lists' == lists && SameEntries(old(t.Mem()), t.Mem())
      else
        lists' == lists + [old(n.items)] && t.Mem() == CutOf(old(t.Mem()), t.root, n)
  {
    hide AllSized, AllFilled, AllTight, Without, Forest, Queued, CutOf;
    ghost var h := t.Mem();
    assert Kids(h, n, t.root, null) && Link(h, n, t.root, null);
    var p := n.parent;
    assert Link(h, p, t.root, null);
    var enIdx := EntryIndex(p, n);
    if |n.items| < t.minChild {
      OnlyRootAtTop(h, t.root, n);
      q', lists', limbo' := Eliminate(t, n, enIdx, q, nLevel, lists, limbo, all);
    } else {
      q', lists', limbo' := q, lists, limbo;
      Retighten(t, n, q, lists, limbo);
    }
  }

  /** A node with enough entries stays and its bound is computed again. */
  method Retighten(t: Rtree, n: Node, ghost q: seq<NodeWithLevel>, ghost lists: seq<seq<Node>>, ghost limbo: set<Node>)
    requires CondenseReady(t.Mem(), t.root, t.Cfg(), n) && n != t.root && 1 <= n.lvl && t.minChild <= |n.items|
    requires n.parent != null && n.parent in t.nodes && (forall c :: c in n.items ==> c in t.nodes)
    requires Orphans(t, q, lists, limbo, t.root.lvl)
    modifies n`bound
    ensures CondenseReady(t.Mem(), t.root, t.Cfg(), n.parent) && Orphans(t, q, lists, limbo, t.root.lvl)
    ensures SameEntries(old(t.Mem()), t.Mem())
  {
    hide Forest, Queued, AllLinked, AllFilled, AllTight;
    ghost var h := t.Mem();
    assert Kids(h, n, t.root, null) && Kids(h, t.root, t.root, null);
    var bb := t.BoxOf(n, {});
    BoundKept(h, t.root, t.Cfg(), n);
    t.SetBound(n, bb);
  }

  lemma ObjectsOfParts(nodes: set<Node>, s: set<Node>, n: Node)
    requires s <= nodes && n in s && 1 <= n.lvl
    ensures ObjectsOf(DataOf(nodes)) == ObjectsOf(DataOf(nodes - s)) + ObjectsOf(DataOf(s - {n}))
  {
    assert DataOf(nodes) == DataOf(nodes - s) + DataOf(s - {n});
    ObjectsOfUnion(DataOf(nodes - s), DataOf(s - {n}));
  }

  lemma ObjectsOfApart(a: set<Node>, b: set<Node>)
    requires a !! b
    ensures ObjectsOf(DataOf(a + b)) == ObjectsOf(DataOf(a)) + ObjectsOf(DataOf(b))
  {
    assert DataOf(a + b) == DataOf(a) + DataOf(b);
    ObjectsOfUnion(DataOf(a), DataOf(b));
  }

  lemma QueuedMore(q: seq<NodeWithLevel>, lists: seq<seq<Node>>, e: NodeWithLevel, items: seq<Node>, H: nat)
    requires Queued(q, lists, H) && 1 <= e.node.lvl < H && e.level + e.node.lvl == H + 1 && Distinct(items)
    requires e.node.isLeaf <==> e.node.lvl == 1
    requires forall c :: c in items ==> c.lvl + 1 == e.node.lvl
    requires forall k :: 0 <= k < |q| ==> q[k].node.lvl < e.node.lvl
    ensures Queued(q + [e], lists + [items], H) && QueueNodes(q + [e]) == QueueNodes(q) + {e.node}
  {
    var q' := q + [e];
    assert q'[|q|] == e && forall k :: 0 <= k < |q| ==> q'[k] == q[k];
    forall x | x in QueueNodes(q)
      ensures x in QueueNodes(q')
    {
      var k :| 0 <= k < |q| && x == q[k].node;
      assert q'[k].node == x;
    }
    assert q'[|q|].node in QueueNodes(q');
  }

  /** An underfull node goes to the queue and its entries wait outside the tree. */
  method Eliminate(t: Rtree, n: Node, i: nat, q: seq<NodeWithLevel>, nLevel: nat, ghost lists: seq<seq<Node>>,
                   ghost limbo: set<Node>, ghost all: multiset<OSMObject>)
    returns (q': seq<NodeWithLevel>, ghost lists': seq<seq<Node>>, ghost limbo': set<Node>)
    requires CondenseReady(t.Mem(), t.root, t.Cfg(), n) && t.lean && n != t.root && 1 <= n.lvl < t.root.lvl
    requires n.parent != null && n.parent in t.nodes && i < |n.parent.items| && n.parent.items[i] == n
    requires Orphans(t, q, lists, limbo, t.root.lvl) && nLevel + n.lvl == t.root.lvl + 1
    requires forall k :: 0 <= k < |q| ==> q[k].node.lvl < n.lvl
    requires t.Entered() + ObjectsOf(DataOf(limbo)) == all
    modifies t`nodes, n.parent`items
    ensures t.nodes <= old(t.nodes) && limbo' <= limbo + old(t.nodes)
    ensures n.parent in t.nodes && CondenseReady(t.Mem(), t.root, t.Cfg(), n.parent)
    ensures Orphans(t, q', lists', limbo', t.root.lvl) && forall k :: 0 <= k < |q'| ==> q'[k].node.lvl <= n.lvl
    ensures t.Entered() + ObjectsOf(DataOf(limbo')) == all
    ensures q' == q + [NodeWithLevel(n, nLevel)] && |n.parent.items| == |old(n.parent.items)| - 1
    ensures lists' == lists + [old(n.items)] && t.Mem() == CutOf(old(t.Mem()), t.root, n)
  {
    hide CondenseReady, DataOf, AllSized, AllFilled, AllTight, Forest, Queued, CutOf;
    CondenseIsLinked(t.Mem(), t.root, t.Cfg(), n);
    ghost var before, s := t.nodes, SubOf(t.Mem(), t.root, n);
    assert n in s by { SubOfClosed(t.Mem(), t.root, n); }
    q', lists' := q + [NodeWithLevel(n, nLevel)], lists + [n.items];
    limbo' := MoveToQueue(t, n, i, q, nLevel, lists, limbo);
    ObjectsOfParts(before, s, n);
    ObjectsOfApart(limbo, s - {n});
  }

  lemma CondenseIsLinked(h: Mem, root: Node, cfg: Config, n: Node)
    requires CondenseReady(h, root, cfg, n)
    ensures Shape(h, root, null) && AllLinked(h, root, null) && n in h
  {
  }

  method MoveToQueue(t: Rtree, n: Node, i: nat, ghost q: seq<NodeWithLevel>, nLevel: nat, ghost lists: seq<seq<Node>>,
                     ghost limbo: set<Node>)
    returns (ghost limbo': set<Node>)
    requires CondenseReady(t.Mem(), t.root, t.Cfg(), n) && t.lean && n != t.root && 1 <= n.lvl < t.root.lvl
    requires n.parent != null && n.parent in t.nodes && i < |n.parent.items| && n.parent.items[i] == n
    requires Orphans(t, q, lists, limbo, t.root.lvl) && nLevel + n.lvl == t.root.lvl + 1
    requires forall k :: 0 <= k < |q| ==> q[k].node.lvl < n.lvl
    modifies t`nodes, n.parent`items
    ensures var s := SubOf(old(t.Mem()), t.root, n); t.nodes == old(t.nodes) - s && limbo' == limbo + (s - {n})
    ensures n.parent in t.nodes && CondenseReady(t.Mem(), t.root, t.Cfg(), n.parent)
    ensures |n.parent.items| == |old(n.parent.items)| - 1 && t.Mem() == CutOf(old(t.Mem()), t.root, n)
    ensures Orphans(t, q + [NodeWithLevel(n, nLevel)], lists + [n.items], limbo', t.root.lvl)
  {
    hide CutOf;
    ghost var s := SubOf(t.Mem(), t.root, n);
    ghost var q', lists' := q + [NodeWithLevel(n, nLevel)], lists + [n.items];
    assert n in s by { SubOfClosed(t.Mem(), t.root, n); }
    limbo' := limbo + (s - {n});
    MoreOrphans(t, n, q, nLevel, lists, limbo, s - {n});
    assert n.parent !in s by { assert Kids(t.Mem(), n, t.root, null); }
    ghost var cfg, H := t.Cfg(), t.root.lvl;
    assert limbo' + QueueNodes(q') !! t.nodes - s;
    assert n.parent !in limbo' + QueueNodes(q');
    assert OrphanForest(q', lists', limbo', H, cfg);
    Uproot(t, n, i);
    assert OrphanForest(q', lists', limbo', H, cfg);
  }

  lemma SnapshotMore(limbo: set<Node>, nodes: set<Node>, below: set<Node>)
    requires limbo !! nodes && below <= nodes
    ensures Snapshot(limbo + below) == Snapshot(limbo) + Only(Snapshot(nodes), below)
  {
  }

  lemma MoreOrphans(t: Rtree, n: Node, q: seq<NodeWithLevel>, nLevel: nat, lists: seq<seq<Node>>, limbo: set<Node>,
                    below: set<Node>)
    requires CondenseReady(t.Mem(), t.root, t.Cfg(), n) && n != t.root && 1 <= n.lvl < t.root.lvl
    requires Orphans(t, q, lists, limbo, t.root.lvl) && nLevel + n.lvl == t.root.lvl + 1
    requires forall k :: 0 <= k < |q| ==> q[k].node.lvl < n.lvl
    requires below == SubOf(t.Mem(), t.root, n) - {n}
    ensures QueueNodes(q + [NodeWithLevel(n, nLevel)]) == QueueNodes(q) + {n}
    ensures OrphanForest(q + [NodeWithLevel(n, nLevel)], lists + [n.items], limbo + below, t.root.lvl, t.Cfg())
  {
    var h := t.Mem();
    var q', lists' := q + [NodeWithLevel(n, nLevel)], lists + [n.items];
    assert Kids(h, n, t.root, null) && Link(h, n, t.root, null);
    UprootForest(h, t.root, t.Cfg(), n);
    QueuedMore(q, lists, NodeWithLevel(n, nLevel), n.items, t.root.lvl);
    ForestUnion(Snapshot(limbo), Only(h, below), AllOf(lists), SetOf(n.items), t.root.lvl, t.Cfg());
    AllOfMore(lists, n.items);
    SnapshotMore(limbo, t.nodes, below);
    forall k | 0 <= k < |q'|
      ensures q'[k].node in QueueNodes(q') && q'[k].node.items == lists'[k]
    {
      if k < |q| { assert q[k].node in QueueNodes(q); }
    }
  }

  // ----- putting orphans back -----

  /** `chooseLevel`: down from `node` by least enlargement until the desired level, counted from the root. */
  method ChooseLevel(t: Rtree, node: Node, bound: Box, desired: nat, level: nat) returns (chosen: Node)
    requires Sound(t.Mem(), t.root, t.Cfg()) && node in t.nodes && |bound| == t.dims
    requires level <= desired && desired - level + 1 <= node.lvl
    ensures chosen in t.nodes && chosen.lvl + (desired - level) == node.lvl
    ensures Descends(t.Mem(), t.root, node, bound, chosen.lvl, chosen)
    decreases desired - level
  {
    ghost var h := t.Mem();
    assert Kids(h, node, t.root, null) && Kids(h, t.root, t.root, null);
    if desired == level {
      return node;
    }
    forall i | 0 <= i < |node.items|
      ensures |node.items[i].bound| <= |bound|
    {
      assert Sized(h, node.items[i], t.root, t.dims);
    }
    var k := ChooseSubtree(node, bound);
    assert node.items[k] in h[node].items && Bounds(node.items) == BoundsIn(h, node.items);
    chosen := ChooseLevel(t, node.items[k], bound, desired, level + 1);
    assert DescendsBy(h, t.root, node, bound, chosen.lvl, chosen, k);
  }

  /** `insertLevel`: the subtree `s` with top `c` is attached to a node `p` one level above `c`, and
      the chain of full nodes upward from `p` is split. */
  method InsertLevel(t: Rtree, c: Node, level: nat, ghost s: set<Node>, ghost H: nat) returns (ghost p: Node)
    requires t.Valid() && s !! t.nodes && Forest(Snapshot(s), {c}, H, t.Cfg())
    requires 1 <= level && level + c.lvl == t.root.lvl
    modifies t, t.nodes, s
    ensures t.Valid() && t.lean == old(t.lean) && t.size == old(t.size)
    ensures old(t.splits) <= t.splits && p in old(t.Mem()) && p.lvl == c.lvl + 1
    ensures InsertEffect(old(t.Mem()), t.Mem(), old(t.root), t.root, p, old(t.Mem())[p].items + [c], s,
                         t.splits[|old(t.splits)|..], t.maxChild)
    ensures old(t.nodes) + s <= t.nodes && fresh(t.nodes - old(t.nodes) - s)
    ensures t.Entered() == old(t.Entered()) + ObjectsOf(DataOf(s))
    ensures t.Clean() ==> t.Contents() == old(t.Contents()) + ObjectsOf(DataOf(s))
    ensures ItemsAfter(old(t.Mem() + Snapshot(s)), t.Mem(),
                       InsertItems(old(t.Mem()), old(t.root), t.root, p, old(t.Mem())[p].items + [c],
                                   t.splits[|old(t.splits)|..], t.minChild, t.dims))
    ensures Descends(old(t.Mem()), old(t.root), old(t.root), old(c.bound), p.lvl, p)
  {
    hide InsertEffect, InsertItems, ItemsAfter, Descends;
    ghost var before := t.nodes;
    if t.Clean() {
      t.StoredIsEntered();
    }
    p := PutSubtree(t, c, level, s, H);
    ObjectsOfApart(before, s);
    if t.Clean() {
      t.StoredIsEntered();
    }
  }

  method PutSubtree(t: Rtree, c: Node, level: nat, ghost s: set<Node>, ghost H: nat) returns (ghost p: Node)
    requires t.Valid() && s !! t.nodes && Forest(Snapshot(s), {c}, H, t.Cfg())
    requires 1 <= level && level + c.lvl == t.root.lvl
    modifies t, t.nodes, s
    ensures t.Valid() && t.lean == old(t.lean) && t.size == old(t.size)
    ensures old(t.splits) <= t.splits && p in old(t.Mem()) && p.lvl == c.lvl + 1
    ensures InsertEffect(old(t.Mem()), t.Mem(), old(t.root), t.root, p, old(t.Mem())[p].items + [c], s,
                         t.splits[|old(t.splits)|..], t.maxChild)
    ensures old(t.nodes) + s <= t.nodes && fresh(t.nodes - old(t.nodes) - s)
    ensures DataOf(t.nodes) == DataOf(old(t.nodes) + s)
    ensures ItemsAfter(old(t.Mem() + Snapshot(s)), t.Mem(),
                       InsertItems(old(t.Mem()), old(t.root), t.root, p, old(t.Mem())[p].items + [c],
                                   t.splits[|old(t.splits)|..], t.minChild, t.dims))
    ensures Descends(old(t.Mem()), old(t.root), old(t.root), old(c.bound), p.lvl, p)
  {
    hide InsertEffect, AllClean, Received, ClimbFrame, Proper, AllSized, InsertItems, ItemsAfter, Descends;
    ghost var a, d := t.Mem(), Snapshot(s);
    var x := PlaceSubtree(t, c, level, s, H);
    p := x;
    ghost var b := t.Mem();
    t.SettleInsertion(x);
    InsertStep(a, b, t.Mem(), old(t.root), t.root, p, c, s, t.splits[|old(t.splits)|..], t.maxChild);
    GraftedItems(a, d, b, t.Mem(), old(t.root), t.root, p, c, t.splits[|old(t.splits)|..], t.minChild, t.dims);
  }

  method PlaceSubtree(t: Rtree, c: Node, level: nat, ghost s: set<Node>, ghost H: nat) returns (p: Node)
    requires t.Valid() && s !! t.nodes && Forest(Snapshot(s), {c}, H, t.Cfg())
    requires 1 <= level && level + c.lvl == t.root.lvl
    modifies t`nodes, t.nodes`items, s`parent
    ensures t.nodes == old(t.nodes) + s && Received(t.Mem(), t.root, t.Cfg(), p, t.Clean())
    ensures p in old(t.nodes) && p.lvl == c.lvl + 1
    ensures ClimbFrame(old(t.Mem()), t.Mem(), p) && p.items == old(t.Mem())[p].items + [c]
    ensures ItemsAfter(old(t.Mem() + Snapshot(s)), t.Mem(), map[p := old(t.Mem())[p].items + [c]])
    ensures Descends(old(t.Mem()), t.root, t.root, old(c.bound), p.lvl, p)
  {
    hide ItemsAfter, Descends;
    ghost var d := Snapshot(s);
    assert Pending(d, c, {c}, H, t.Cfg());
    p := ChooseLevel(t, t.root, c.bound, level, 1);
    AttachSubtree(t, p, c, s, H);
  }

  method AttachSubtree(t: Rtree, p: Node, c: Node, ghost s: set<Node>, ghost H: nat)
    requires t.Valid() && s !! t.nodes && Forest(Snapshot(s), {c}, H, t.Cfg())
    requires p in t.nodes && p.lvl == c.lvl + 1 <= t.root.lvl
    modifies t`nodes, p`items, c`parent
    ensures t.nodes == old(t.nodes) + s && Received(t.Mem(), t.root, t.Cfg(), p, t.Clean())
    ensures ClimbFrame(old(t.Mem()), t.Mem(), p) && p.items == old(p.items) + [c]
    ensures ItemsAfter(old(t.Mem() + Snapshot(s)), t.Mem(), map[p := old(p.items) + [c]])
  {
    hide Received, AllClean, AttachReady, Proper, Sound, ClimbFrame, ItemsAfter;
    ghost var h, d := t.Mem(), Snapshot(s);
    forall x | x in d
      ensures x.lvl <= c.lvl
    {
      NothingAboveTop(d, H, t.Cfg(), c, x);
    }
    Graft(h, d, t.root, t.Cfg(), H, p, c, t.Clean());
    GraftFrame(h, d, p, c);
    t.nodes := t.nodes + s;
    assert t.Mem() == h + d;
    Attached(t.Mem(), t.root, t.Cfg(), p, c, t.Clean());
    ChildItems(h + d, p, c);
    t.AddChild(p, c);
  }

  /** Why a stale level matters: when the tree has grown since the level was recorded, the node that
      `chooseLevel` finds is too high, and attaching the subtree there would leave its leaves above
      the others. */
  method StaleLevelIsTooHigh(t: Rtree, c: Node, level: nat, ghost s: set<Node>, ghost H: nat) returns (p: Node)
    requires t.Valid() && s !! t.nodes && Forest(Snapshot(s), {c}, H, t.Cfg())
    requires 1 <= level && level + c.lvl == H < t.root.lvl
    ensures p in t.nodes && p.lvl == c.lvl + 1 + (t.root.lvl - H)
    ensures c in s && !Shape(WithChild(t.Mem() + Snapshot(s), p, c), t.root, null)
  {
    ghost var d := Snapshot(s);
    assert Pending(d, c, {c}, H, t.Cfg());
    p := ChooseLevel(t, t.root, c.bound, level, 1);
    ghost var b := WithChild(t.Mem() + d, p, c);
    assert c in b[p].items && !Kids(b, p, t.root, null);
  }

  lemma BelowData(d: Mem, H: nat, cfg: Config, c: Node)
    requires Forest(d, {c}, H, cfg) && c.lvl == 0
    ensures d.Keys == {c}
  {
    forall y | y in d
      ensures y == c
    {
      assert Pending(d, y, {c}, H, cfg);
      if y != c {
        NothingAboveTop(d, H, cfg, c, d[y].parent);
      }
    }
  }

  /** What is known of the entries that wait, with `c` next. */
  ghost predicate Waiting(t: Rtree, limbo: set<Node>, tops: set<Node>, H: nat)
    reads t, limbo
  {
    limbo !! t.nodes && Forest(Snapshot(limbo), tops, H, t.Cfg())
  }

  lemma SnapshotOnly(limbo: set<Node>, s: set<Node>)
    requires s <= limbo
    ensures Only(Snapshot(limbo), s) == Snapshot(s)
  {
  }

  /** The subtree below one top, apart from the others. */
  lemma NextSubtree(t: Rtree, limbo: set<Node>, tops: set<Node>, H: nat, c: Node) returns (s: set<Node>)
    requires Waiting(t, limbo, tops, H) && c in tops
    ensures c in s && s <= limbo && Forest(Snapshot(s), {c}, H, t.Cfg())
    ensures Forest(Snapshot(limbo - s), tops - {c}, H, t.Cfg())
    ensures ObjectsOf(DataOf(limbo)) == ObjectsOf(DataOf(limbo - s)) + ObjectsOf(DataOf(s))
    ensures c.lvl < H && (c.lvl == 0 ==> s == {c} && c.bound == c.leaf.bound && |c.bound| == t.dims)
  {
    var d := Snapshot(limbo);
    s := Below(d, tops, H, t.Cfg(), c);
    TakeOut(d, tops, H, t.Cfg(), c);
    SnapshotOnly(limbo, s);
    SnapshotOnly(limbo, limbo - s);
    assert d.Keys - s == limbo - s;
    assert Pending(d, c, tops, H, t.Cfg());
    if c.lvl == 0 {
      BelowData(Snapshot(s), H, t.Cfg(), c);
    }
    ObjectsOfApart(limbo - s, s);
    assert limbo == (limbo - s) + s;
  }

  /** What every step of the reinsertion keeps: the tree is valid, it has only grown, and the objects
      in the tree and those that wait are `all`. */
  ghost predicate Returning(t: Rtree, limbo: set<Node>, tops: set<Node>, H: nat, log: seq<SplitEvent>, size: int,
                            all: multiset<OSMObject>)
    reads t, t.nodes, limbo
  {
    t.Valid() && t.lean && t.size == size && LogGrows(log, t.splits, t.maxChild) && H <= t.height &&
    Waiting(t, limbo, tops, H) && t.Entered() + ObjectsOf(DataOf(limbo)) == all
  }

  /** A waiting data entry is inserted again as a new entry with the same object. */
  method ReinsertData(t: Rtree, c: Node, ghost limbo: set<Node>, ghost tops: set<Node>, ghost H: nat,
                      ghost log: seq<SplitEvent>, ghost all: multiset<OSMObject>)
    returns (ghost limbo': set<Node>)
    requires Returning(t, limbo, tops, H, log, t.size, all) && c in tops && c.lvl == 0
    modifies t, t.nodes
    ensures limbo' <= limbo && old(t.nodes) <= t.nodes && fresh(t.nodes - old(t.nodes))
    ensures Returning(t, limbo', tops - {c}, H, log, old(t.size), all)
    ensures old(t.height) <= t.height
    ensures Crowds(old(t.Mem()), old(t.root), t.maxChild, c.leaf.bound) ==> old(t.height) < t.height
  {
    hide Crowds;
    ghost var s := NextSubtree(t, limbo, tops, H, c);
    limbo' := limbo - s;
    ObjectsOfSingle(c);
    ghost var before := t.splits;
    InsertBeside(t, c, limbo', tops - {c}, H);
    LogGrowsOn(log, before, t.splits, t.maxChild);
  }

  method InsertBeside(t: Rtree, c: Node, ghost limbo: set<Node>, ghost tops: set<Node>, ghost H: nat)
    requires t.Valid() && c.bound == c.leaf.bound && |c.bound| == t.dims && Waiting(t, limbo, tops, H)
    modifies t, t.nodes
    ensures t.Valid() && t.lean == old(t.lean) && t.size == old(t.size) && old(t.height) <= t.height
    ensures LogGrows(old(t.splits), t.splits, t.maxChild)
    ensures old(t.nodes) <= t.nodes && fresh(t.nodes - old(t.nodes))
    ensures t.Entered() == old(t.Entered()) + multiset{c.leaf}
    ensures Waiting(t, limbo, tops, H)
    ensures Crowds(old(t.Mem()), old(t.root), t.maxChild, c.leaf.bound) ==> old(t.height) < t.height
  {
    hide Forest, Proper, Sound, AllClean, LogGrows, Crowds;
    InsertAgain(t, c);
  }

  method InsertAgain(t: Rtree, c: Node)
    requires t.Valid() && c.bound == c.leaf.bound && |c.bound| == t.dims
    modifies t, t.nodes
    ensures t.Valid() && t.lean == old(t.lean) && t.size == old(t.size) && old(t.height) <= t.height
    ensures LogGrows(old(t.splits), t.splits, t.maxChild)
    ensures old(t.nodes) <= t.nodes && fresh(t.nodes - old(t.nodes))
    ensures t.Entered() == old(t.Entered()) + multiset{c.leaf}
    ensures Crowds(old(t.Mem()), old(t.root), t.maxChild, c.leaf.bound) ==> old(t.height) < t.height
  {
    hide Proper, AllSized, AllClean, SplitRun, Crowded, ItemsAfter, InsertItems;
    ghost var a, before, root, log := t.Mem(), t.nodes, t.root, t.splits;
    ghost var e, l := t.InsertLeaf(c.bound, c.leaf, true);
    ObjectsOfMore(DataOf(before), e);
    InsertIsOverfull(a, t.Mem(), root, t.root, l, a[l].items + [e], {e}, t.splits[|log|..], t.maxChild);
    if Crowds(a, root, t.maxChild, c.leaf.bound) {
      CrowdedGrows(a, t.Mem(), root, t.root, l, e, {e}, t.splits[|log|..], t.maxChild, c.leaf.bound);
    }
  }

  /** A waiting subtree is attached at the level it came from. */
  method ReinsertSubtree(t: Rtree, c: Node, level: nat, ghost limbo: set<Node>, ghost tops: set<Node>, ghost H: nat,
                         ghost log: seq<SplitEvent>, ghost all: multiset<OSMObject>)
    returns (ghost limbo': set<Node>)
    requires Returning(t, limbo, tops, H, log, t.size, all) && c in tops && t.height == H == level + c.lvl
    modifies t, t.nodes, limbo
    ensures limbo' <= limbo && old(t.nodes) <= t.nodes && fresh(t.nodes - old(t.nodes) - limbo)
    ensures Returning(t, limbo', tops - {c}, H, log, old(t.size), all) && old(t.height) <= t.height
  {
    ghost var s := NextSubtree(t, limbo, tops, H, c);
    limbo' := limbo - s;
    ghost var before := t.splits;
    PutBeside(t, c, level, s, limbo', tops - {c}, H);
    LogGrowsOn(log, before, t.splits, t.maxChild);
  }

  method PutBeside(t: Rtree, c: Node, level: nat, ghost s: set<Node>, ghost limbo: set<Node>, ghost tops: set<Node>,
                   ghost H: nat)
    requires t.Valid() && s !! t.nodes + limbo && Forest(Snapshot(s), {c}, H, t.Cfg()) && Waiting(t, limbo, tops, H)
    requires 1 <= level && level + c.lvl == t.root.lvl
    modifies t, t.nodes, s
    ensures t.Valid() && t.lean == old(t.lean) && t.size == old(t.size) && old(t.height) <= t.height
    ensures LogGrows(old(t.splits), t.splits, t.maxChild)
    ensures old(t.nodes) + s <= t.nodes && fresh(t.nodes - old(t.nodes) - s)
    ensures t.Entered() == old(t.Entered()) + ObjectsOf(DataOf(s))
    ensures Waiting(t, limbo, tops, H)
  {
    hide Forest, Proper, AllSized, AllClean, SplitRun, ItemsAfter, InsertItems, Descends;
    ghost var a, root, log := t.Mem(), t.root, t.splits;
    ghost var p := InsertLevel(t, c, level, s, H);
    InsertIsOverfull(a, t.Mem(), root, t.root, p, a[p].items + [c], s, t.splits[|log|..], t.maxChild);
  }

  lemma ObjectsOfSingle(c: Node)
    requires c.lvl == 0
    ensures ObjectsOf(DataOf({c})) == multiset{c.leaf}
  {
    ObjectsOfMore({}, c);
    assert DataOf({c}) == {} + {c};
  }

  // ----- the whole queue -----

  /** The entries of one eliminated node go back. The model stops (`stopped`) at the entries `left` of
      an internal node when the tree has grown, because their recorded level is stale then. */
  method ReinsertNode(t: Rtree, e: NodeWithLevel, height0: nat, ghost limbo: set<Node>, ghost others: set<Node>,
                      ghost log: seq<SplitEvent>, ghost all: multiset<OSMObject>)
    returns (ghost limbo': set<Node>, stopped: bool, ghost left: seq<Node>)
    requires Returning(t, limbo, SetOf(e.node.items) + others, height0, log, t.size, all)
    requires SetOf(e.node.items) !! others && Distinct(e.node.items) && e.node !in t.nodes + limbo
    requires 1 <= e.node.lvl && (e.node.isLeaf <==> e.node.lvl == 1) && e.level + e.node.lvl == height0 + 1
    requires forall c :: c in e.node.items ==> c.lvl + 1 == e.node.lvl
    modifies t, t.nodes, limbo
    ensures limbo' <= limbo && old(t.nodes) <= t.nodes && fresh(t.nodes - old(t.nodes) - limbo)
    ensures Returning(t, limbo', SetOf(left) + others, height0, log, old(t.size), all)
    ensures stopped <==> left != []
    ensures stopped ==> !e.node.isLeaf && height0 < t.height
    ensures old(t.height) <= t.height
    ensures !e.node.isLeaf && old(e.node.items) != [] && old(t.height) != height0 ==> stopped
    ensures e.node.isLeaf && old(e.node.items) != [] ==>
      Crowds(old(t.Mem()), old(t.root), t.maxChild, old(e.node.items)[0].leaf.bound) ==> old(t.height) < t.height
    ensures |left| <= |e.node.items| && left == e.node.items[|e.node.items| - |left|..]
  {
    hide Returning, Waiting, Forest, LogGrows, AllClean, Crowds;
    limbo', stopped := limbo, false;
    ghost var items := e.node.items;
    ghost var crowds := items != [] && Crowds(t.Mem(), t.root, t.maxChild, items[0].leaf.bound);
    for i := 0 to |e.node.items|
      invariant e.node.items == items && e.node !in t.nodes + limbo && t.size == old(t.size)
      invariant limbo' <= limbo && old(t.nodes) <= t.nodes && fresh(t.nodes - old(t.nodes) - limbo)
      invariant Returning(t, limbo', SetOf(items[i..]) + others, height0, log, old(t.size), all)
      invariant old(t.height) <= t.height && (crowds && e.node.isLeaf && 0 < i ==> old(t.height) < t.height)
      invariant i == 0 ==> t.Mem() == old(t.Mem()) && t.root == old(t.root) && t.height == old(t.height)
      invariant !e.node.isLeaf && old(t.height) != height0 ==> i == 0
    {
      if !e.node.isLeaf && t.height != height0 {
        ReturningHeight(t, limbo', SetOf(items[i..]) + others, height0, log, old(t.size), all);
        left := items[i..];
        return limbo', true, left;
      }
      NextTop(items, i, others);
      limbo' := ReinsertEntry(t, e, i, height0, limbo', SetOf(items[i..]) + others, log, all);
    }
    left := [];
    assert SetOf(items[|items|..]) + others == SetOf(left) + others;
  }

  lemma ReturningHeight(t: Rtree, limbo: set<Node>, tops: set<Node>, H: nat, log: seq<SplitEvent>, size: int,
                        all: multiset<OSMObject>)
    requires Returning(t, limbo, tops, H, log, size, all)
    ensures H <= t.height && t.size == size
  {
  }

  lemma ReturningIsStored(t: Rtree, limbo: set<Node>, tops: set<Node>, H: nat, log: seq<SplitEvent>, size: int,
                          all: multiset<OSMObject>)
    requires Returning(t, limbo, tops, H, log, size, all)
    ensures t.Valid() && (t.Clean() ==> t.Contents() + ObjectsOf(DataOf(limbo)) == all)
  {
    if t.Clean() {
      t.StoredIsEntered();
    }
  }

  method ReinsertEntry(t: Rtree, e: NodeWithLevel, i: nat, height0: nat, ghost limbo: set<Node>, ghost tops: set<Node>,
                       ghost log: seq<SplitEvent>, ghost all: multiset<OSMObject>)
    returns (ghost limbo': set<Node>)
    requires i < |e.node.items| && e.node !in t.nodes + limbo && e.node.items[i] in tops
    requires Returning(t, limbo, tops, height0, log, t.size, all)
    requires 1 <= e.node.lvl && (e.node.isLeaf <==> e.node.lvl == 1) && e.level + e.node.lvl == height0 + 1
    requires e.node.items[i].lvl + 1 == e.node.lvl && (e.node.isLeaf || t.height == height0)
    modifies t, t.nodes, limbo
    ensures limbo' <= limbo && old(t.nodes) <= t.nodes && fresh(t.nodes - old(t.nodes) - limbo)
    ensures Returning(t, limbo', tops - {old(e.node.items[i])}, height0, log, old(t.size), all)
    ensures e.node.items == old(e.node.items) && t.size == old(t.size) && old(t.height) <= t.height
    ensures e.node.isLeaf && Crowds(old(t.Mem()), old(t.root), t.maxChild, e.node.items[i].leaf.bound) ==>
      old(t.height) < t.height
  {
    hide Returning, Crowds;
    var c := e.node.items[i];
    if e.node.isLeaf {
      limbo' := ReinsertData(t, c, limbo, tops, height0, log, all);
    } else {
      limbo' := ReinsertSubtree(t, c, e.level, limbo, tops, height0, log, all);
    }
    ReturningHeight(t, limbo', tops - {c}, height0, log, old(t.size), all);
  }

  lemma NextTop(items: seq<Node>, i: nat, others: set<Node>)
    requires i < |items| && Distinct(items) && SetOf(items) !! others
    ensures items[i] in SetOf(items[i..]) + others
    ensures SetOf(items[i..]) + others - {items[i]} == SetOf(items[i + 1..]) + others
  {
    assert items[i..] == [items[i]] + items[i + 1..];
    assert items[i] in items && items[i] !in items[i + 1..];
  }

  /** Entries of different queued nodes are on different levels. */
  lemma ListsApart(lists: seq<seq<Node>>, levels: seq<nat>, k: nat)
    requires |lists| == |levels| && k < |lists|
    requires forall j, c :: 0 <= j < |lists| && c in lists[j] ==> c.lvl + 1 == levels[j]
    requires forall i, j :: 0 <= i < j < |levels| ==> levels[i] < levels[j]
    ensures AllOf(lists[k..]) == SetOf(lists[k]) + AllOf(lists[k + 1..]) && SetOf(lists[k]) !! AllOf(lists[k + 1..])
  {
    assert lists[k..][0] == lists[k] && lists[k..][1..] == lists[k + 1..];
    forall c | c in AllOf(lists[k + 1..])
      ensures c !in SetOf(lists[k])
    {
      AllOfMember(lists[k + 1..], c);
      assert c in AllOf(lists[k + 1..]);
      var j :| 0 <= j < |lists[k + 1..]| && c in lists[k + 1..][j];
      assert c in lists[k + 1 + j] && levels[k] < levels[k + 1 + j];
      if c in lists[k] {
        assert c.lvl + 1 == levels[k];
      }
    }
  }

  lemma QueuedNode(q: seq<NodeWithLevel>, lists: seq<seq<Node>>, H: nat, k: nat)
    requires Queued(q, lists, H) && k < |q| && HoldLists(q, lists)
    ensures q[k].node in QueueNodes(q) && q[k].node.items == lists[k]
    ensures 1 <= q[k].node.lvl && (q[k].node.isLeaf <==> q[k].node.lvl == 1) && q[k].level + q[k].node.lvl == H + 1
    ensures Distinct(lists[k]) && forall c :: c in lists[k] ==> c.lvl + 1 == q[k].node.lvl
    ensures AllOf(lists[k..]) == SetOf(lists[k]) + AllOf(lists[k + 1..]) && SetOf(lists[k]) !! AllOf(lists[k + 1..])
  {
    var levels := seq(|q|, k requires 0 <= k < |q| => q[k].node.lvl);
    ListsApart(lists, levels, k);
  }

  /** Where the model stopped: at the entries `left` of the `k`-th queued node. */
  datatype Halt = Halt(queue: seq<NodeWithLevel>, lists: seq<seq<Node>>, k: nat, left: seq<Node>)

  /** That node is internal, and the tree is higher than when the levels were recorded. */
  ghost predicate StoppedAt(t: Rtree, halt: Halt, height0: nat)
    reads t
  {
    height0 < t.height && halt.k < |halt.queue| == |halt.lists| && !halt.queue[halt.k].node.isLeaf &&
    halt.left != [] && |halt.left| <= |halt.lists[halt.k]| &&
    halt.left == halt.lists[halt.k][|halt.lists[halt.k]| - |halt.left|..]
  }

  /** The entries that are not yet back. */
  ghost function StillOut(halt: Halt): set<Node> {
    SetOf(halt.left) + (if halt.k < |halt.lists| then AllOf(halt.lists[halt.k + 1..]) else {})
  }

  /** All entries of the eliminated nodes go back, those of the lowest node first, unless the tree
      grows before the last entry of an internal node has gone back; then the rest waits. */
  method ReinsertAll(t: Rtree, q: seq<NodeWithLevel>, height0: nat, ghost lists: seq<seq<Node>>, ghost limbo: set<Node>,
                     ghost all: multiset<OSMObject>)
    returns (stopped: bool, ghost waiting: set<Node>, ghost halt: Halt)
    requires t.Valid() && t.lean && Orphans(t, q, lists, limbo, height0) && height0 == t.height
    requires t.Entered() + ObjectsOf(DataOf(limbo)) == all
    modifies t, t.nodes, limbo
    ensures old(t.nodes) <= t.nodes && fresh(t.nodes - old(t.nodes) - limbo) && waiting <= limbo
    ensures stopped ==> StoppedAt(t, halt, height0) && halt.queue == q && halt.lists == lists
    ensures Returning(t, waiting, if stopped then StillOut(halt) else {}, height0, old(t.splits), old(t.size), all)
    ensures stopped <==> waiting != {}
    ensures q == [] ==>
      !stopped && t.root == old(t.root) && t.root.items == old(t.root.items) && t.splits == old(t.splits)
    ensures Blocks(old(t.Mem()), old(t.root), t.maxChild, lists) ==> stopped
  {
    hide Returning, Waiting, Forest, AllClean, Orphans, Queued, Crowds, Blocks, HoldLists, StoppedAt, StillOut, SetOf;
    ghost var log, size, k, left := t.splits, t.size, 0, [];
    assert t.root in t.Mem();
    ReturningStarts(t, q, lists, limbo, height0, all);
    stopped, waiting, k, left := ReinsertQueue(t, q, height0, lists, limbo, all);
    halt := Halt(q, lists, k, left);
    if stopped {
      HaltedAt(t, halt, height0);
      SomeWait(t, waiting, StillOut(halt), height0, left, log, size, all);
    } else {
      NoneWait(t, waiting, height0, log, size, all);
    }
  }

  method ReinsertQueue(t: Rtree, q: seq<NodeWithLevel>, height0: nat, ghost lists: seq<seq<Node>>,
                       ghost limbo: set<Node>, ghost all: multiset<OSMObject>)
    returns (stopped: bool, ghost waiting: set<Node>, ghost k: nat, ghost left: seq<Node>)
    requires QueueNodes(q) !! t.nodes + limbo && HoldLists(q, lists) && Queued(q, lists, height0) && |lists| == |q|
    requires Returning(t, limbo, AllOf(lists[0..]), height0, t.splits, t.size, all)
    modifies t, t.nodes, limbo
    ensures old(t.nodes) <= t.nodes && fresh(t.nodes - old(t.nodes) - limbo) && waiting <= limbo
    ensures stopped ==> k < |q| && !q[k].node.isLeaf && height0 < t.height
    ensures stopped ==> left != [] && |left| <= |lists[k]| && left == lists[k][|lists[k]| - |left|..]
    ensures Returning(t, waiting, if stopped then SetOf(left) + AllOf(lists[k + 1..]) else {}, height0, old(t.splits),
                      old(t.size), all)
    ensures q == [] ==> !stopped && t.root == old(t.root) && t.Mem() == old(t.Mem()) && t.splits == old(t.splits)
    ensures Blocks(old(t.Mem()), old(t.root), t.maxChild, lists) ==> stopped
  {
    hide Returning, Waiting, Forest, AllClean, Queued, Crowds, Blocks, HoldLists, SetOf;
    ghost var log, size, blocks := t.splits, t.size, Blocks(t.Mem(), t.root, t.maxChild, lists);
    waiting, stopped, k, left := limbo, false, 0, [];
    if blocks { QueuedOrder(t.Mem(), t.root, t.maxChild, q, lists, height0); }
    for i := 0 to |q|
      invariant waiting <= limbo && old(t.nodes) <= t.nodes && fresh(t.nodes - old(t.nodes) - limbo)
      invariant QueueNodes(q) !! t.nodes + limbo && HoldLists(q, lists)
      invariant Returning(t, waiting, AllOf(lists[i..]), height0, log, size, all)
      invariant i == 0 ==> t.Mem() == old(t.Mem()) && t.root == old(t.root) && t.splits == old(t.splits)
      invariant blocks ==> i < 2 && (i == 1 ==> height0 < t.height)
    {
      waiting, stopped, left := ReinsertKth(t, q, i, height0, lists, waiting, log, size, all);
      if stopped {
        k := i;
        return;
      }
    }
  }

  method ReinsertKth(t: Rtree, q: seq<NodeWithLevel>, k: nat, height0: nat, ghost lists: seq<seq<Node>>,
                     ghost limbo: set<Node>, ghost log: seq<SplitEvent>, ghost size: int,
                     ghost all: multiset<OSMObject>)
    returns (ghost waiting: set<Node>, stopped: bool, ghost left: seq<Node>)
    requires k < |q| && QueueNodes(q) !! t.nodes + limbo && HoldLists(q, lists) && Queued(q, lists, height0)
    requires Returning(t, limbo, AllOf(lists[k..]), height0, log, size, all)
    modifies t, t.nodes, limbo
    ensures waiting <= limbo && old(t.nodes) <= t.nodes && fresh(t.nodes - old(t.nodes) - limbo)
    ensures HoldLists(q, lists) && Returning(t, waiting, SetOf(left) + AllOf(lists[k + 1..]), height0, log, size, all)
    ensures !stopped ==> Returning(t, waiting, AllOf(lists[k + 1..]), height0, log, size, all)
    ensures (stopped <==> left != []) && (stopped ==> !q[k].node.isLeaf && height0 < t.height)
    ensures |left| <= |lists[k]| && left == lists[k][|lists[k]| - |left|..]
    ensures old(t.height) <= t.height
    ensures !q[k].node.isLeaf && lists[k] != [] && old(t.height) != height0 ==> stopped
    ensures q[k].node.isLeaf && lists[k] != [] ==>
      Crowds(old(t.Mem()), old(t.root), t.maxChild, lists[k][0].leaf.bound) ==> height0 < t.height
  {
    hide Returning, Waiting, Forest, AllClean, Queued, Crowds;
    QueuedNode(q, lists, height0, k);
    ReturningHeight(t, limbo, AllOf(lists[k..]), height0, log, size, all);
    waiting, stopped, left := ReinsertNode(t, q[k], height0, limbo, AllOf(lists[k + 1..]), log, all);
    assert SetOf([]) + AllOf(lists[k + 1..]) == AllOf(lists[k + 1..]);
  }

  /** If the first node that was queued is a leaf node, the next is not. */
  lemma QueuedOrder(a: Mem, root: Node, M: nat, q: seq<NodeWithLevel>, lists: seq<seq<Node>>, H: nat)
    requires Queued(q, lists, H) && Blocks(a, root, M, lists)
    ensures 2 <= |q| == |lists| && q[0].node.isLeaf && !q[1].node.isLeaf && lists[0] != [] && lists[1] != []
    ensures Crowds(a, root, M, lists[0][0].leaf.bound)
  {
    assert lists[0][0] in lists[0];
  }

  lemma ReturningStarts(t: Rtree, q: seq<NodeWithLevel>, lists: seq<seq<Node>>, limbo: set<Node>, height0: nat,
                        all: multiset<OSMObject>)
    requires t.Valid() && t.lean && Orphans(t, q, lists, limbo, height0) && height0 == t.height
    requires t.Entered() + ObjectsOf(DataOf(limbo)) == all
    ensures Returning(t, limbo, AllOf(lists[0..]), height0, t.splits, t.size, all)
    ensures QueueNodes(q) !! t.nodes + limbo && HoldLists(q, lists) && Queued(q, lists, height0) && |lists| == |q|
  {
    assert lists[0..] == lists;
  }

  lemma HaltedAt(t: Rtree, halt: Halt, height0: nat)
    requires height0 < t.height && halt.k < |halt.queue| == |halt.lists| && !halt.queue[halt.k].node.isLeaf
    requires halt.left != [] && |halt.left| <= |halt.lists[halt.k]|
    requires halt.left == halt.lists[halt.k][|halt.lists[halt.k]| - |halt.left|..]
    ensures StoppedAt(t, halt, height0)
    ensures StillOut(halt) == SetOf(halt.left) + AllOf(halt.lists[halt.k + 1..]) && SetOf(halt.left) <= StillOut(halt)
  {
  }

  lemma SomeWait(t: Rtree, waiting: set<Node>, tops: set<Node>, H: nat, left: seq<Node>, log: seq<SplitEvent>,
                 size: int,
                 all: multiset<OSMObject>)
    requires Returning(t, waiting, tops, H, log, size, all) && left != [] && SetOf(left) <= tops
    ensures waiting != {}
  {
    assert left[0] in SetOf(left);
  }

  lemma NoneWait(t: Rtree, waiting: set<Node>, H: nat, log: seq<SplitEvent>, size: int, all: multiset<OSMObject>)
    requires Returning(t, waiting, {}, H, log, size, all)
    ensures waiting == {}
  {
    NoTops(Snapshot(waiting), H, t.Cfg());
  }

  /** An internal node waits in the queue. */
  ghost predicate HasInternal(q: seq<NodeWithLevel>) {
    exists k :: 0 <= k < |q| && !q[k].node.isLeaf
  }

  /** The node `n` has too few entries, and it or, after it, its parent is an internal node to be
      eliminated. */
  ghost predicate InternalGoes(h: Mem, root: Node, m: nat, n: Node) {
    n in h && n != root && |h[n].items| < m &&
    (2 <= n.lvl || (h[n].parent != null && h[n].parent in h && h[n].parent != root && |h[h[n].parent].items| <= m))
  }

  /** `condenseTree`, called with the node that lost an entry: no object is lost. Nothing is
      eliminated, and so nothing put back, if that node is the root or keeps enough entries. The model
      stops only if an internal node was eliminated. */
  method CondenseTree(t: Rtree, n: Node, q: seq<NodeWithLevel>, nLevel: nat, ghost lists: seq<seq<Node>>,
                      ghost limbo: set<Node>, ghost all: multiset<OSMObject>)
    returns (stopped: bool, ghost waiting: set<Node>, ghost halt: Halt)
    requires CondenseReady(t.Mem(), t.root, t.Cfg(), n) && t.lean && 1 <= n.lvl && t.height == t.root.lvl
    requires Orphans(t, q, lists, limbo, t.root.lvl) && nLevel + n.lvl == t.root.lvl + 1
    requires forall k :: 0 <= k < |q| ==> q[k].node.lvl < n.lvl
    requires t.Entered() + ObjectsOf(DataOf(limbo)) == all
    modifies t, t.nodes, limbo
    ensures fresh(t.nodes - old(t.nodes) - limbo) && waiting <= limbo + old(t.nodes)
    ensures stopped ==> StoppedAt(t, halt, old(t.height))
    ensures Returning(t, waiting, if stopped then StillOut(halt) else {}, old(t.height), old(t.splits),
                      old(t.size), all)
    ensures stopped <==> waiting != {}
    ensures stopped ==> HasInternal(q) || InternalGoes(old(t.Mem()), old(t.root), t.minChild, n)
    ensures Doomed(old(t.Mem()), old(t.root), t.minChild, t.maxChild, n, lists) ==> stopped
    ensures t.Valid() && (t.Clean() ==> t.Contents() + ObjectsOf(DataOf(waiting)) == all)
    ensures q == [] && (n == old(t.root) || t.minChild <= |old(n.items)|) ==>
      !stopped && t.root == old(t.root) && t.splits == old(t.splits)
    ensures q == [] && n == old(t.root) ==> n.items == old(n.items)
    decreases t.root.lvl - n.lvl
  {
    hide CondenseReady, Returning, AllClean, AllSized, Proper, Forest, InternalGoes, HasInternal, StoppedAt;
    hide Doomed, CutOf, SameEntries, StillOut, LogGrows, Waiting, Orphans;
    NodeToCondense(t.Mem(), t.root, t.Cfg(), n);
    if n == t.root {
      stopped, waiting, halt := CondenseRoot(t, q, lists, limbo, all);
    } else {
      var q', lists', limbo' := CondenseNext(t, n, q, nLevel, lists, limbo, all);
      stopped, waiting, halt := CondenseTree(t, n.parent, q', nLevel - 1, lists', limbo', all);
    }
  }

  /** `CondenseUp`, and what is still to come. */
  method CondenseNext(t: Rtree, n: Node, q: seq<NodeWithLevel>, nLevel: nat, ghost lists: seq<seq<Node>>,
                      ghost limbo: set<Node>, ghost all: multiset<OSMObject>)
    returns (q': seq<NodeWithLevel>, ghost lists': seq<seq<Node>>, ghost limbo': set<Node>)
    requires CondenseReady(t.Mem(), t.root, t.Cfg(), n) && t.lean && n != t.root && 1 <= n.lvl
    requires Orphans(t, q, lists, limbo, t.root.lvl) && nLevel + n.lvl == t.root.lvl + 1
    requires forall k :: 0 <= k < |q| ==> q[k].node.lvl < n.lvl
    requires t.Entered() + ObjectsOf(DataOf(limbo)) == all
    modifies t`nodes, t.nodes
    ensures t.nodes <= old(t.nodes) && limbo' <= limbo + old(t.nodes) && n.parent == old(n.parent) &&
      n.parent != null && n.parent in t.nodes
    ensures n.parent.lvl == n.lvl + 1 && CondenseReady(t.Mem(), t.root, t.Cfg(), n.parent)
    ensures Orphans(t, q', lists', limbo', t.root.lvl) && forall k :: 0 <= k < |q'| ==> q'[k].node.lvl <= n.lvl
    ensures t.Entered() + ObjectsOf(DataOf(limbo')) == all
    ensures t.minChild <= |old(n.items)| ==> q' == q
    ensures n.parent != t.root && t.minChild <= |old(n.items)| ==> t.minChild <= |n.parent.items|
    ensures HasInternal(q') || InternalGoes(t.Mem(), t.root, t.minChild, n.parent) ==>
      HasInternal(q) || InternalGoes(old(t.Mem()), t.root, t.minChild, n)
    ensures Shape(t.Mem(), t.root, null)
    ensures Doomed(old(t.Mem()), t.root, t.minChild, t.maxChild, n, lists) ==>
      Doomed(t.Mem(), t.root, t.minChild, t.maxChild, n.parent, lists')
  {
    hide AllLinked, AllFilled, AllSized, AllTight, Forest, InternalGoes, HasInternal, Doomed, CutOf, SameEntries;
    ghost var a, p := t.Mem(), n.parent;
    NodeToCondense(a, t.root, t.Cfg(), n);
    EnoughAbove(a, t.root, t.Cfg(), n);
    assert Kids(a, n, t.root, null);
    q', lists', limbo' := CondenseUp(t, n, q, nLevel, lists, limbo, all);
    InternalAbove(a, t.Mem(), t.root, t.minChild, n, q, q', nLevel);
    if Doomed(a, t.root, t.minChild, t.maxChild, n, lists) {
      DoomedNext(a, t.Mem(), t.root, t.minChild, t.maxChild, n, lists, lists');
    }
  }

  /** An internal node that is queued later is `n` itself or a parent that loses `n`. */
  lemma InternalAbove(a: Mem, b: Mem, root: Node, m: nat, n: Node, q: seq<NodeWithLevel>, q': seq<NodeWithLevel>,
                      nLevel: nat)
    requires n in a && n != root && a[n].parent != null && a[n].parent in a && a[n].parent in b
    requires (n.isLeaf <==> n.lvl == 1) && 1 <= n.lvl && (a[n].parent != root ==> m <= |a[a[n].parent].items|)
    requires if m <= |a[n].items| then
        q' == q && b[a[n].parent].items == a[a[n].parent].items
      else
        q' == q + [NodeWithLevel(n, nLevel)] && |b[a[n].parent].items| == |a[a[n].parent].items| - 1
    ensures HasInternal(q') || InternalGoes(b, root, m, a[n].parent) ==> HasInternal(q) || InternalGoes(a, root, m, n)
  {
    if HasInternal(q') {
      var k :| 0 <= k < |q'| && !q'[k].node.isLeaf;
      if k < |q| {
        assert q[k] == q'[k];
      }
    }
  }

  /** The end of `condenseTree` at the root. */
  method CondenseRoot(t: Rtree, q: seq<NodeWithLevel>, ghost lists: seq<seq<Node>>, ghost limbo: set<Node>,
                      ghost all: multiset<OSMObject>)
    returns (stopped: bool, ghost waiting: set<Node>, ghost halt: Halt)
    requires CondenseReady(t.Mem(), t.root, t.Cfg(), t.root) && t.lean && t.height == t.root.lvl
    requires Orphans(t, q, lists, limbo, t.root.lvl)
    requires t.Entered() + ObjectsOf(DataOf(limbo)) == all
    modifies t, t.nodes, limbo
    ensures old(t.nodes) <= t.nodes && fresh(t.nodes - old(t.nodes) - limbo) && waiting <= limbo
    ensures stopped ==> StoppedAt(t, halt, old(t.height))
    ensures Returning(t, waiting, if stopped then StillOut(halt) else {}, old(t.height), old(t.splits),
                      old(t.size), all)
    ensures (stopped <==> waiting != {}) && (stopped ==> HasInternal(q))
    ensures Doomed(old(t.Mem()), old(t.root), t.minChild, t.maxChild, old(t.root), lists) ==> stopped
    ensures t.Valid() && (t.Clean() ==> t.Contents() + ObjectsOf(DataOf(waiting)) == all)
    ensures q == [] ==>
      !stopped && t.root == old(t.root) && t.root.items == old(t.root.items) && t.splits == old(t.splits)
  {
    hide CondenseReady, Returning, AllClean, AllSized, Proper, Forest, StillOut, Doomed, Blocks, SameEntries, AllTight;
    NodeToCondense(t.Mem(), t.root, t.Cfg(), t.root);
    ghost var a := t.Mem();
    SettleRoot(t);
    if Doomed(a, t.root, t.minChild, t.maxChild, t.root, lists) {
      DoomedBlocks(a, t.Mem(), t.root, t.minChild, t.maxChild, lists);
    }
    stopped, waiting, halt := ReinsertAll(t, q, t.height, lists, limbo, all);
    ReturningIsStored(t, waiting, if stopped then StillOut(halt) else {}, old(t.height), old(t.splits),
                      old(t.size), all);
  }

  lemma NodeToCondense(h: Mem, root: Node, cfg: Config, n: Node)
    requires CondenseReady(h, root, cfg, n)
    ensures Shape(h, root, null) && AllLinked(h, root, null) && n in h && n.lvl <= root.lvl &&
      (n != root ==> n.lvl < root.lvl) && (n.isLeaf <==> n.lvl == 1)
  {
    assert Kids(h, n, root, null);
    if n != root { OnlyRootAtTop(h, root, n); }
  }

  lemma EnoughAbove(h: Mem, root: Node, cfg: Config, n: Node)
    requires CondenseReady(h, root, cfg, n) && n != root
    ensures h[n].parent != null && h[n].parent in h && (h[n].parent != root ==> cfg.m <= |h[h[n].parent].items|)
  {
    assert Kids(h, n, root, null) && Filled(h, h[n].parent, root, cfg);
  }

  method SettleRoot(t: Rtree)
    requires CondenseReady(t.Mem(), t.root, t.Cfg(), t.root) && t.lean && t.height == t.root.lvl
    modifies t.root`bound
    ensures t.Valid() && SameEntries(old(t.Mem()), t.Mem()) && AllTight(t.Mem(), {})
  {
    ghost var h := t.Mem();
    if t.root.items != [] {
      assert Kids(h, t.root, t.root, null);
      var bb := t.BoxOf(t.root, {});
      CondensedRoot(h, t.root, t.Cfg());
      t.SetBound(t.root, bb);
    } else {
      CondensedEmptyRoot(h, t.root, t.Cfg());
    }
  }

  // ----- deletion -----

  /** Not a leaf node and without entries, so that `chooseLeaf` would index an empty list. */
  predicate IsBare(x: Node)
    reads x`items
  {
    !x.isLeaf && x.items == []
  }

  lemma SubOfData(h: Mem, root: Node, e: Node)
    requires Shape(h, root, null) && AllLinked(h, root, null) && e in h && e.lvl == 0
    ensures SubOf(h, root, e) == {e}
  {
    SubOfClosed(h, root, e);
  }

  /** Step D2: the first entry with the identifier leaves the node `l` with all that is below it. In an
      internal node that is the first child, since the children carry the identifier 0. */
  method RemoveEntry(t: Rtree, l: Node, id: int) returns (ghost e: Node, ghost gone: multiset<OSMObject>)
    requires t.Valid() && t.Clean() && !t.lean && t.Cfg().Fillable() && 2 <= t.minChild
    requires l in t.nodes && 1 <= l.lvl && HasId(l.items, id)
    modifies t`nodes, t`lean, l`items
    ensures t.lean && CondenseReady(t.Mem(), t.root, t.Cfg(), l) && l in t.nodes
    ensures e in old(l.items) && e in old(t.Mem()) && old(t.Mem())[e].parent == l && e.leaf.id == id &&
      e.lvl + 1 == l.lvl
    ensures |l.items| == old(|l.items|) - 1 && t.nodes == old(t.nodes) - SubOf(old(t.Mem()), t.root, e)
    ensures gone == ObjectsOf(DataOf(SubOf(old(t.Mem()), t.root, e)))
    ensures t.Entered() + gone == old(t.Entered())
    ensures e != t.root && t.Mem() == CutOf(old(t.Mem()), t.root, e)
  {
    hide CondenseReady, Proper, AllClean, DataOf, CutOf;
    var i := 0;
    ghost var k :| 0 <= k < |l.items| && l.items[k].leaf.id == id;
    while l.items[i].leaf.id != id
      invariant i <= k
      decreases k - i
    {
      i := i + 1;
    }
    e := l.items[i];
    ghost var before, s := t.nodes, SubOf(t.Mem(), t.root, e);
    TakeEntry(t, l, i);
    gone := ObjectsOf(DataOf(s));
    ObjectsOfApart(before - s, s);
    assert before == (before - s) + s;
  }

  lemma EntryIsRemovable(h: Mem, root: Node, cfg: Config, l: Node, i: nat)
    requires Sound(h, root, cfg) && Proper(h, root, cfg) && cfg.Fillable() && 2 <= cfg.m && cfg.wide
    requires l in h && 1 <= l.lvl && i < |h[l].items|
    ensures h[l].items[i] in h && h[l].items[i] != root && h[h[l].items[i]].parent == l
    ensures CondenseReady(h, root, cfg.(wide := false), h[l].items[i]) && h[l].items[i].lvl + 1 == l.lvl
  {
    assert Kids(h, l, root, null) && Link(h, l, root, null);
    Narrowed(h, root, cfg);
  }

  method TakeEntry(t: Rtree, l: Node, i: nat)
    requires t.Valid() && t.Clean() && !t.lean && t.Cfg().Fillable() && 2 <= t.minChild
    requires l in t.nodes && 1 <= l.lvl && i < |l.items|
    modifies t`nodes, t`lean, l`items
    ensures t.lean && CondenseReady(t.Mem(), t.root, t.Cfg(), l) && l in t.nodes
    ensures |l.items| == old(|l.items|) - 1 && t.nodes == old(t.nodes) - SubOf(old(t.Mem()), t.root, old(l.items[i]))
    ensures old(l.items[i]) in old(t.Mem()) && old(t.Mem())[old(l.items[i])].parent == l
    ensures old(l.items[i]).lvl + 1 == l.lvl && SubOf(old(t.Mem()), t.root, old(l.items[i])) <= old(t.nodes)
    ensures old(l.items[i]) != t.root && t.Mem() == CutOf(old(t.Mem()), t.root, old(l.items[i]))
  {
    hide CutOf;
    EntryIsRemovable(t.Mem(), t.root, t.Cfg(), l, i);
    t.lean := true;
    Uproot(t, l.items[i], i);
  }

  /** An object that is the only stored one with its identifier. */
  ghost predicate OnlyWithId(all: multiset<OSMObject>, x: OSMObject) {
    x in all && forall z :: z in all && z.id == x.id ==> z == x
  }

  /** A search for the object's identifier ends at a leaf node if it finds anything. */
  ghost predicate Reaches(h: Mem, root: Node, leaf: OSMObject)
    requires Shape(h, root, null)
  {
    leaf.id != 0 || LeadsToLeaf(h, root, root, leaf.bound)
  }

  /** What is taken out with the entry `e`: its object, or everything below an internal entry. */
  ghost predicate TakenOut(h: Mem, root: Node, m: nat, e: Node, leaf: OSMObject, gone: multiset<OSMObject>)
    requires Shape(h, root, null)
  {
    e in h && e != root && h[e].parent != null && h[e].parent in h && e.leaf.id == leaf.id &&
    gone == ObjectsOf(DataOf(SubOf(h, root, e))) && (e.lvl == 0 <==> Reaches(h, root, leaf)) &&
    (if e.lvl == 0 then gone == multiset{e.leaf} else m <= |gone|)
  }

  /** The node that loses the entry `e` is the root or keeps enough entries, so nothing is eliminated. */
  ghost predicate EnoughLeft(h: Mem, root: Node, m: nat, e: Node) {
    e in h && h[e].parent != null && h[e].parent in h && (h[e].parent == root || m < |h[h[e].parent].items|)
  }

  /** The node that loses the entry `e` has only `m` entries, and it is internal or a leaf node whose
      parent has only `m` entries, so that an internal node is eliminated. */
  ghost predicate CanStop(h: Mem, root: Node, m: nat, e: Node) {
    e in h && h[e].parent != null && h[e].parent in h &&
    var l := h[e].parent;
    l != root && |h[l].items| <= m &&
    (2 <= l.lvl || (h[l].parent != null && h[l].parent in h && h[l].parent != root && |h[h[l].parent].items| <= m))
  }

  /** Only a tree of three levels of nodes can be like that. */
  lemma CanStopIsHigh(h: Mem, root: Node, m: nat, e: Node)
    requires Shape(h, root, null) && CanStop(h, root, m, e)
    ensures 3 <= root.lvl
  {
    var l := h[e].parent;
    assert Kids(h, e, root, null) && Kids(h, l, root, null);
    OnlyRootAtTop(h, root, l);
    if l.lvl == 1 { OnlyRootAtTop(h, root, h[l].parent); }
  }

  /** `Delete`. If the identifier is not 0 or the search for 0 ends at a leaf node, one object with the
      identifier goes; otherwise all objects below some internal node go. The rest stays, and the
      R-tree properties are kept while splits are clean. Two exceptions: a leaf root with two entries
      is replaced by its last data entry, and the model stops when recorded levels are stale. */
  method Delete(t: Rtree, leaf: OSMObject)
    returns (deleted: bool, stopped: bool, ghost e: Node, ghost gone: multiset<OSMObject>, ghost waiting: set<Node>)
    requires t.Valid() && t.Clean() && !t.lean && t.Cfg().Fillable() && 2 <= t.minChild
    requires |leaf.bound| == t.dims
    modifies t, t.nodes
    ensures fresh(t.nodes - old(t.nodes)) && LogGrows(old(t.splits), t.splits, t.maxChild)
    // when nothing is found, nothing changes
    ensures !deleted ==> t.nodes == old(t.nodes) && t.Mem() == old(t.Mem()) && t.root == old(t.root) && t.Valid()
    ensures !deleted ==> t.size == old(t.size) && t.height == old(t.height) && t.splits == old(t.splits) && !t.lean
    ensures !deleted ==> gone == multiset{} && waiting == {} && !stopped
    // something is found when a stored object with the identifier overlaps
    ensures (exists x :: x in old(t.Contents()) && x.id == leaf.id && Overlap(x.bound, leaf.bound)) ==> deleted
    ensures leaf.id == 0 && !old(t.root.isLeaf) ==> deleted
    ensures old(t.root.isLeaf) ==> (deleted <==> HasId(old(t.root.items), leaf.id))
    // what goes
    ensures deleted ==> TakenOut(old(t.Mem()), old(t.root), t.minChild, e, leaf, gone) && gone <= old(t.Contents())
    ensures forall x :: OnlyWithId(old(t.Contents()), x) && x.id == leaf.id != 0 && Overlap(x.bound, leaf.bound) ==>
      deleted && gone == multiset{x}
    // what stays
    ensures deleted && !stopped ==> t.size == old(t.size) - 1
    ensures deleted && !stopped && t.Clean() ==>
      if old(t.root.isLeaf && |t.root.items| == 2) then
        t.root.lvl == 0 && IsBare(t.root) && old(t.Contents()) == gone + multiset{t.root.leaf}
      else
        t.Valid() && !t.lean && t.Contents() == old(t.Contents()) - gone
    ensures old(t.root.isLeaf && |t.root.items| != 2) ==> t.root == old(t.root)
    // when the model stops
    ensures stopped <==> waiting != {}
    ensures stopped ==> deleted && old(t.height) < t.height && t.Valid() && waiting !! t.nodes && t.size == old(t.size)
    ensures stopped ==> CanStop(old(t.Mem()), old(t.root), t.minChild, e) && 3 <= old(t.height)
    ensures MustStop(old(t.Mem()), old(t.root), t.minChild, t.maxChild, e) ==> stopped
    ensures stopped && t.Clean() ==> t.Contents() + ObjectsOf(DataOf(waiting)) == old(t.Contents()) - gone
    ensures deleted && EnoughLeft(old(t.Mem()), old(t.root), t.minChild, e) ==> !stopped && t.splits == old(t.splits)
  {
    deleted, stopped, e, gone, waiting := false, false, t.root, multiset{}, {};
    ghost var h := t.Mem();
    ProperIsCovering(h, t.root, t.Cfg());
    t.StoredIsEntered();
    assert Kids(h, t.root, t.root, null);
    var l, leafLevel := FindLeaf(t, leaf, t.root, 1);
    if l == null {
      NotStored(h, t.root, t.Cfg(), leaf);
      return;
    }
    deleted := true;
    stopped, e, gone, waiting := DeleteAt(t, l, leafLevel, leaf);
    OnlyOneGone(Stored(h, old(t.root)), h, old(t.root), t.minChild, e, leaf, gone);
  }

  /** `Delete` once the node with the entry is found. */
  method DeleteAt(t: Rtree, l: Node, leafLevel: nat, leaf: OSMObject)
    returns (stopped: bool, ghost e: Node, ghost gone: multiset<OSMObject>, ghost waiting: set<Node>)
    requires t.Valid() && t.Clean() && !t.lean && t.Cfg().Fillable() && 2 <= t.minChild
    requires l in t.nodes && 1 <= l.lvl && HasId(l.items, leaf.id) && leafLevel + l.lvl == t.root.lvl + 1
    requires l.lvl == 1 <==> Reaches(t.Mem(), t.root, leaf)
    modifies t, t.nodes
    ensures fresh(t.nodes - old(t.nodes)) && LogGrows(old(t.splits), t.splits, t.maxChild)
    ensures TakenOut(old(t.Mem()), old(t.root), t.minChild, e, leaf, gone) && gone <= old(t.Contents())
    ensures !stopped ==> t.size == old(t.size) - 1
    ensures !stopped && t.Clean() ==>
      if old(t.root.isLeaf && |t.root.items| == 2) then
        t.root.lvl == 0 && IsBare(t.root) && old(t.Contents()) == gone + multiset{t.root.leaf}
      else
        t.Valid() && !t.lean && t.Contents() == old(t.Contents()) - gone
    ensures old(t.root.isLeaf && |t.root.items| != 2) ==> t.root == old(t.root)
    ensures stopped <==> waiting != {}
    ensures stopped ==> old(t.height) < t.height && t.Valid() && waiting !! t.nodes && t.size == old(t.size)
    ensures stopped ==> CanStop(old(t.Mem()), old(t.root), t.minChild, e) && 3 <= old(t.height)
    ensures MustStop(old(t.Mem()), old(t.root), t.minChild, t.maxChild, e) ==> stopped
    ensures stopped && t.Clean() ==> t.Contents() + ObjectsOf(DataOf(waiting)) == old(t.Contents()) - gone
    ensures EnoughLeft(old(t.Mem()), old(t.root), t.minChild, e) ==> !stopped && t.splits == old(t.splits)
  {
    hide TakenOut, Reaches, CondenseReady, AllClean, Proper, AllSized, MustStop, Doomed;
    ghost var all, h, root := t.Contents(), t.Mem(), t.root;
    e, gone := RemoveFound(t, l, leaf);
    RestOf(all, gone, t.Entered());
    stopped, waiting := FinishDelete(t, l, leafLevel);
    if stopped { CanStopIsHigh(h, root, t.minChild, e); }
  }

  method RemoveFound(t: Rtree, l: Node, leaf: OSMObject) returns (ghost e: Node, ghost gone: multiset<OSMObject>)
    requires t.Valid() && t.Clean() && !t.lean && t.Cfg().Fillable() && 2 <= t.minChild
    requires l in t.nodes && 1 <= l.lvl && HasId(l.items, leaf.id) && (l.lvl == 1 <==> Reaches(t.Mem(), t.root, leaf))
    modifies t`nodes, t`lean, l`items
    ensures t.lean && CondenseReady(t.Mem(), t.root, t.Cfg(), l) && t.nodes <= old(t.nodes)
    ensures TakenOut(old(t.Mem()), t.root, t.minChild, e, leaf, gone) && old(t.Mem())[e].parent == l
    ensures t.Entered() + gone == old(t.Contents())
    ensures l in t.nodes && InternalGoes(t.Mem(), t.root, t.minChild, l) ==>
      CanStop(old(t.Mem()), t.root, t.minChild, e)
    ensures MustStop(old(t.Mem()), t.root, t.minChild, t.maxChild, e) ==>
      Shape(t.Mem(), t.root, null) && l in t.Mem() && Doomed(t.Mem(), t.root, t.minChild, t.maxChild, l, [])
    ensures |l.items| == old(|l.items|) - 1 && (t.root.isLeaf <==> t.root.lvl == 1) && (t.root.isLeaf ==> l == t.root)
  {
    hide Reaches, CutOf, Doomed, AllSized, Mbr, DataOf;
    ghost var h, root := t.Mem(), t.root;
    t.StoredIsEntered();
    assert Kids(h, root, root, null);
    if root.isLeaf {
      assert Kids(h, l, root, null);
      if l != root { OnlyRootAtTop(h, root, l); }
    }
    e, gone := RemoveEntry(t, l, leaf.id);
    EntryTaken(h, root, Config(t.minChild, t.maxChild, t.dims, true), e, leaf, gone);
  }

  /** Steps D3 and D4, after the entry has left the node `l`. */
  method FinishDelete(t: Rtree, l: Node, leafLevel: nat) returns (stopped: bool, ghost waiting: set<Node>)
    requires CondenseReady(t.Mem(), t.root, t.Cfg(), l) && t.lean && 1 <= l.lvl && t.Cfg().Fillable() && 2 <= t.minChild
    requires t.height == t.root.lvl && leafLevel + l.lvl == t.root.lvl + 1
    requires (t.root.isLeaf <==> t.root.lvl == 1) && (t.root.isLeaf ==> l == t.root)
    modifies t, t.nodes
    ensures fresh(t.nodes - old(t.nodes)) && LogGrows(old(t.splits), t.splits, t.maxChild)
    ensures !stopped ==> t.size == old(t.size) - 1
    ensures !stopped && t.Clean() ==>
      if old(t.root.isLeaf && |t.root.items| == 1) then
        t.root.lvl == 0 && IsBare(t.root) && old(t.Entered()) == multiset{t.root.leaf}
      else
        t.Valid() && !t.lean && t.Contents() == old(t.Entered())
    ensures old(t.root.isLeaf && |t.root.items| != 1) ==> t.root == old(t.root)
    ensures stopped <==> waiting != {}
    ensures stopped ==> old(t.height) < t.height && t.Valid() && waiting !! t.nodes && t.size == old(t.size)
    ensures stopped ==> InternalGoes(old(t.Mem()), old(t.root), t.minChild, l)
    ensures Doomed(old(t.Mem()), old(t.root), t.minChild, t.maxChild, l, []) ==> stopped
    ensures stopped && t.Clean() ==> t.Contents() + ObjectsOf(DataOf(waiting)) == old(t.Entered())
    ensures l == old(t.root) || t.minChild <= |old(l.items)| ==> !stopped && t.splits == old(t.splits)
  {
    hide AllClean, AllSized, LogGrows, AllLinked, AllFilled, AllTight;
    assert 1 <= t.root.lvl;
    stopped, waiting := CondenseFrom(t, l, leafLevel);
    assert t.root.lvl == 1 && |t.root.items| == 1 <==> old(t.root.isLeaf && |t.root.items| == 1);
    if t.Clean() {
      t.StoredIsEntered();
    }
    if !stopped {
      ObjectsOfNone();
      ShortenRoot(t);
    }
  }

  lemma ObjectsOfNone()
    ensures ObjectsOf(DataOf({})) == multiset{}
  {
    assert DataOf({}) == {};
  }

  lemma RestOf(all: multiset<OSMObject>, gone: multiset<OSMObject>, kept: multiset<OSMObject>)
    requires kept + gone == all
    ensures kept == all - gone && gone <= all && gone + kept == all
  {
  }

  method CondenseFrom(t: Rtree, l: Node, leafLevel: nat) returns (stopped: bool, ghost waiting: set<Node>)
    requires CondenseReady(t.Mem(), t.root, t.Cfg(), l) && t.lean && 1 <= l.lvl
    requires t.height == t.root.lvl && leafLevel + l.lvl == t.root.lvl + 1
    modifies t, t.nodes
    ensures t.lean && t.size == old(t.size) && t.Valid() && old(t.height) <= t.height
    ensures fresh(t.nodes - old(t.nodes)) && LogGrows(old(t.splits), t.splits, t.maxChild)
    ensures t.Entered() + ObjectsOf(DataOf(waiting)) == old(t.Entered()) && waiting !! t.nodes
    ensures (stopped <==> waiting != {}) && (stopped ==> old(t.height) < t.height)
    ensures stopped ==> InternalGoes(old(t.Mem()), old(t.root), t.minChild, l)
    ensures Doomed(old(t.Mem()), old(t.root), t.minChild, t.maxChild, l, []) ==> stopped
    ensures l == old(t.root) || t.minChild <= |old(l.items)| ==>
      !stopped && t.root == old(t.root) && t.splits == old(t.splits)
    ensures l == old(t.root) ==> l.items == old(l.items)
  {
    assert Snapshot({}) == map[];
    ghost var halt;
    stopped, waiting, halt := CondenseTree(t, l, [], leafLevel, [], {}, t.Entered());
  }

  /** The size and step D4. */
  method ShortenRoot(t: Rtree)
    requires t.Valid() && t.lean && t.Cfg().Fillable() && 2 <= t.minChild
    modifies t`size, t`root, t`height, t`nodes, t`lean, t.nodes`parent
    ensures t.nodes <= old(t.nodes) && t.size == old(t.size) - 1
    ensures t.Clean() ==>
      if old(t.root.lvl == 1 && |t.root.items| == 1) then
        t.root.lvl == 0 && IsBare(t.root) && old(t.Contents()) == multiset{t.root.leaf}
      else
        t.Valid() && !t.lean && t.Contents() == old(t.Contents())
    ensures old(|t.root.items|) != 1 ==> t.root == old(t.root)
  {
    ghost var h, entered := t.Mem(), t.Entered();
    if t.Clean() {
      t.StoredIsEntered();
    }
    t.size := t.size - 1;
    assert Kids(h, t.root, t.root, null);
    if |t.root.items| == 1 {
      var c := t.root.items[0];
      LowerRoot(t, c);
      if t.Clean() {
        if c.lvl == 0 { LoneEntry(h, old(t.root), c); }
      }
    } else {
      if t.Clean() {
        Widened(h, t.root, t.Cfg());
      }
      t.lean := false;
    }
    assert t.Entered() == entered;
    if t.Clean() && 1 <= t.root.lvl {
      t.StoredIsEntered();
    }
  }

  /** The only child of the root becomes the root. */
  method LowerRoot(t: Rtree, c: Node)
    requires t.Valid() && t.lean && t.Cfg().Fillable() && 2 <= t.minChild
    requires t.root.items == [c] && c in t.nodes
    modifies t`root, t`height, t`nodes, t`lean, c`parent
    ensures t.nodes == old(t.nodes) - {old(t.root)} && DataOf(t.nodes) == DataOf(old(t.nodes)) && t.root == c
    ensures c.lvl == 0 ==> IsBare(c)
    ensures t.Clean() && 1 <= c.lvl ==> t.Valid() && !t.lean
  {
    hide AllClean, AllSized, AllLinked, AllFilled, AllTight;
    ghost var h, dropped := t.Mem(), t.root;
    assert Kids(h, dropped, dropped, null) && Kids(h, c, dropped, null);
    if t.Clean() && 1 <= c.lvl {
      Shortened(h, dropped, t.Cfg(), c);
    }
    LetGo(t, c);
    t.root := c;
    t.height := t.height - 1;
    t.lean := false;
  }

  /** The root leaves the tree, and its only child has no parent. */
  method LetGo(t: Rtree, c: Node)
    requires t.root in t.nodes && c in t.nodes && c != t.root
    modifies t`nodes, c`parent
    ensures t.nodes == old(t.nodes) - {t.root}
    ensures var h := old(t.Mem()); t.Mem() == Only(h, h.Keys - {t.root})[c := h[c].(parent := null)]
  {
    c.parent := null;
    t.nodes := t.nodes - {t.root};
  }

  lemma LoneEntry(h: Mem, root: Node, c: Node)
    requires Shape(h, root, null) && AllLinked(h, root, null) && root.lvl == 1 && h[root].items == [c]
    ensures c.lvl == 0 && ObjectsOf(DataOf(h.Keys)) == multiset{c.leaf}
  {
    assert Kids(h, root, root, null);
    forall y | y in DataOf(h.Keys)
      ensures y == c
    {
      assert Kids(h, y, root, null) && Link(h, y, root, null);
      if h[y].parent != root { OnlyRootAtTop(h, root, h[y].parent); }
    }
    assert DataOf(h.Keys) == {c};
    ObjectsOfMore({}, c);
    assert {} + {c} == {c};
  }

  // ----- which objects are taken out -----

  /** An internal entry has at least `m` data entries below it. */
  lemma {:induction false} ManyBelow(h: Mem, root: Node, cfg: Config, e: Node)
    requires Shape(h, root, null) && AllLinked(h, root, null) && AllFilled(h, root, cfg, null) && cfg.Fillable()
    requires e in h && e != root && 1 <= e.lvl
    ensures cfg.m <= |DataOf(SubOf(h, root, e))|
    decreases e.lvl
  {
    SubOfClosed(h, root, e);
    assert Kids(h, e, root, null) && Link(h, e, root, null) && Filled(h, e, root, cfg);
    if e.lvl == 1 {
      DistinctSize(h[e].items);
      assert forall c :: c in h[e].items ==> c in SubOf(h, root, e);
      SubsetSize(SetOf(h[e].items), DataOf(SubOf(h, root, e)));
    } else {
      var c := h[e].items[0];
      OnlyRootAtTop(h, root, e);
      ManyBelow(h, root, cfg, c);
      forall y | y in DataOf(SubOf(h, root, c))
        ensures y in DataOf(SubOf(h, root, e))
      {
        UpByHolder(h, root, y, e);
      }
      SubsetSize(DataOf(SubOf(h, root, c)), DataOf(SubOf(h, root, e)));
    }
  }

  lemma EntryTaken(h: Mem, root: Node, cfg: Config, e: Node, leaf: OSMObject, gone: multiset<OSMObject>)
    requires Shape(h, root, null) && AllLinked(h, root, null) && AllFilled(h, root, cfg, null) && cfg.Fillable()
    requires e in h && h[e].parent != null && h[e].parent in h && e.lvl + 1 == h[e].parent.lvl && e.leaf.id == leaf.id
    requires gone == ObjectsOf(DataOf(SubOf(h, root, e))) && (h[e].parent.lvl == 1 <==> Reaches(h, root, leaf))
    ensures TakenOut(h, root, cfg.m, e, leaf, gone)
  {
    if e.lvl == 0 {
      SubOfData(h, root, e);
      ObjectsOfSingle(e);
    } else {
      ManyBelow(h, root, cfg, e);
      ObjectsOfMember(DataOf(SubOf(h, root, e)), leaf);
    }
  }

  lemma OnlyOneGone(all: multiset<OSMObject>, h: Mem, root: Node, m: nat, e: Node, leaf: OSMObject,
                    gone: multiset<OSMObject>)
    requires Shape(h, root, null) && TakenOut(h, root, m, e, leaf, gone) && gone <= all
    ensures forall x :: OnlyWithId(all, x) && x.id == leaf.id && x.id != 0 ==> gone == multiset{x}
  {
    if leaf.id != 0 {
      assert e.leaf in gone;
    }
  }

  lemma NotStored(h: Mem, root: Node, cfg: Config, leaf: OSMObject)
    requires Sound(h, root, cfg) && Proper(h, root, cfg)
    requires NoneFound(h, Leaves(h, root, root), leaf)
    ensures forall x :: x in Stored(h, root) && x.id == leaf.id ==> !Overlap(x.bound, leaf.bound)
  {
    TraversalIsComplete(h, root);
    StoredIsData(h, root);
    forall x | x in Stored(h, root) && x.id == leaf.id
      ensures !Overlap(x.bound, leaf.bound)
    {
      ObjectsOfMember(DataOf(h.Keys), x);
      var y :| y in DataOf(h.Keys) && y.leaf == x;
      assert y in multiset(Leaves(h, root, root)) && Tight(h, y);
    }
  }
}
