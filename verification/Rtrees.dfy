/** The R-tree: construction, insertion and the upward adjustment. */
module Rtrees {
  import opened Boxes
  import opened SplitPolicy
  import opened SplitLaws
  import opened RtreeNodes
  import opened RtreeInvariant
  import opened RtreeItems
  import opened RtreeContents

  class Rtree {
    var root: Node
    var size: int
    var height: nat
    const minChild: nat
    const maxChild: nat
    const dims: nat
    ghost var nodes: set<Node>
    /** Every split so far, in order. */
    ghost var splits: seq<SplitEvent>

    /** The root may have a single child until the end of a deletion. */
    ghost var lean: bool

    ghost function Cfg(): Config
      reads this`lean
    {
      Config(minChild, maxChild, dims, !lean)
    }

    ghost function Mem(): Mem
      reads this`nodes, nodes
    {
      Snapshot(nodes)
    }

    ghost predicate Valid()
      reads this, nodes
    {
      height == root.lvl && Sound(Mem(), root, Cfg()) && (Clean() ==> Proper(Mem(), root, Cfg()))
    }

    /** Every split so far had two entries as seeds and came upon no full tie. */
    ghost predicate Clean()
      reads this`splits
    {
      AllClean(splits, minChild, dims)
    }

    /** What the tree stores: the objects that a traversal from the root meets. */
    ghost function Contents(): multiset<OSMObject>
      requires Shape(Mem(), root, null)
      reads this`root, this`nodes, nodes
    {
      Stored(Mem(), root)
    }

    /** The objects that were put into the tree and not taken out; a split can lose some of them. */
    ghost function Entered(): multiset<OSMObject>
      reads this`nodes
    {
      ObjectsOf(DataOf(nodes))
    }

    lemma StoredIsEntered()
      requires Shape(Mem(), root, null) && AllLinked(Mem(), root, null)
      ensures Contents() == Entered() && |Contents()| == |DataOf(nodes)|
    {
      StoredIsData(Mem(), root);
    }

    constructor (minChildItems: nat, maxChildItems: nat, dimensions: nat)
      ensures fresh(nodes) && splits == [] && size == 0 && height == 1
      ensures Shape(Mem(), root, null) && Contents() == multiset{}
      ensures Cfg() == Config(minChildItems, maxChildItems, dimensions, true)
      ensures 2 <= maxChildItems ==> Valid()
    {
      var r := new Node.Branch([], null, true, 1);
      root := r;
      size, height := 0, 1;
      minChild, maxChild, dims := minChildItems, maxChildItems, dimensions;
      nodes, splits, lean := {r}, [], false;
      new;
      EmptyTree(Mem(), r);
    }

    // ----- single updates of the nodes -----

    method SetBound(x: Node, bound: Box)
      requires x in nodes
      modifies x`bound
      ensures Mem() == WithBound(old(Mem()), x, bound)
    {
      x.bound := bound;
    }

    method AddChild(p: Node, c: Node)
      requires p in nodes && c in nodes
      modifies p`items, c`parent
      ensures Mem() == WithChild(old(Mem()), p, c)
    {
      p.items := p.items + [c];
      c.parent := p;
    }

    method SplitRaw(n: Node) returns (nn: Node, ghost es: seq<Entry<Node>>, ghost g: Groups<Node>)
      requires n in nodes && |n.items| >= 2 && |n.bound| == dims && n.leaf == NO_OBJECT
      requires forall c :: c in n.items ==> c in nodes && c != n && |c.bound| == dims
      modifies this`nodes, nodes
      ensures fresh(nn) && nodes == old(nodes) + {nn}
      ensures es == old(Entries(n.items)) && ItemsOf(es) == old(n.items)
      ensures |es| >= 2 && forall i :: 0 <= i < |es| ==> |es[i].box| == dims
      ensures g == Split(minChild, dims, old(n.bound), es)
      ensures SplitStep(old(Mem()), Mem(), n, nn, ItemsOf(g.one), ItemsOf(g.two))
    {
      hide SplitStep, Split;
      es := Entries(n.items);
      EntriesAreItems(n.items);
      nn, g := DivideNode(n);
      nodes := nodes + {nn};
    }

    method DivideNode(n: Node) returns (nn: Node, ghost g: Groups<Node>)
      requires n in nodes && |n.items| >= 2 && |n.bound| == dims && n.leaf == NO_OBJECT
      requires forall c :: c in n.items ==> c in nodes && c != n && |c.bound| == dims
      modifies nodes
      ensures fresh(nn) && g == old(Split(minChild, dims, n.bound, Entries(n.items)))
      ensures SplitStep(old(Mem()), Snapshot(nodes + {nn}), n, nn, ItemsOf(g.one), ItemsOf(g.two))
    {
      hide Split, RightSplit;
      ghost var pool := set c | c in n.items;
      ghost var trace;
      nn, g, trace := SplitNode(n, minChild, dims, pool);
    }

    /** `splitNode` on a node of the tree. */
    method SplitFull(n: Node) returns (nn: Node)
      requires SplitReady(Mem(), root, Cfg(), n, Clean())
      modifies this`nodes, this`splits, nodes
      ensures fresh(nn) && nodes == old(nodes) + {nn} && nn.lvl == n.lvl
      ensures splits == old(splits) + [SplitEvent(n, nn, old(Entries(n.items)), old(n.bound))]
      ensures AdjustReady(Mem(), root, Cfg(), n, nn, Clean())
      ensures SplitFrame(old(Mem()), Mem(), root, n)
      ensures ItemsAfter(old(Mem()), Mem(), OnceItems(n, old(n.items), splits[|old(splits)|..], minChild, dims))
    {
      hide OnceItems, ItemsAfter;
      ghost var event;
      nn, event := SplitAndSettle(n);
      CleanMore(splits, event, minChild, dims);
      splits := splits + [event];
      assert splits[|old(splits)|..] == [event];
    }

    method SplitAndSettle(n: Node) returns (nn: Node, ghost event: SplitEvent)
      requires SplitReady(Mem(), root, Cfg(), n, Clean())
      modifies this`nodes, nodes
      ensures fresh(nn) && nodes == old(nodes) + {nn} && nn.lvl == n.lvl
      ensures event == SplitEvent(n, nn, old(Entries(n.items)), old(n.bound))
      ensures AdjustReady(Mem(), root, Cfg(), n, nn, Clean() && CleanSplit(event.entries, minChild, dims, event.bound))
      ensures SplitFrame(old(Mem()), Mem(), root, n)
      ensures ItemsAfter(old(Mem()), Mem(), OnceItems(n, old(n.items), [event], minChild, dims))
    {
      hide OnceItems, ItemsAfter;
      ghost var a := Mem();
      SplitPool(a, root, Cfg(), n, Clean());
      ghost var es, g;
      nn, es, g := SplitRaw(n);
      event := SplitEvent(n, nn, es, a[n].bound);
      SplitOutcome(a, Mem(), root, Cfg(), n, nn, es, Clean());
      SplitItems(a, Mem(), n, nn, event, minChild, dims);
      SplitLeavesRest(a, Mem(), root, n, nn, ItemsOf(g.one), ItemsOf(g.two));
    }

    // ----- adjusting the ancestors -----

    /** The box of a node of the tree, computed from its entries. */
    method BoxOf(n: Node, ghost loose: set<Node>) returns (bb: Box)
      requires n in nodes && n.items != [] && AllSized(Mem(), root, dims, loose)
      requires forall c :: c in n.items ==> c in nodes && c !in loose && c != root
      ensures bb == Mbr(BoundsIn(Mem(), n.items)) && |bb| == dims
    {
      ghost var h := Mem();
      MbrSized(h, root, dims, n, loose);
      assert Bounds(n.items) == BoundsIn(h, n.items);
      forall i | 0 <= i < |n.items|
        ensures |n.items[i].bound| == dims
      {
        assert Sized(h, n.items[i], root, dims);
      }
      bb := n.ComputeBB();
    }

    /** `adjustTree`: the bounds of `n` and its ancestors are recomputed and splits go upward through
        full ancestors. The result is the root, with its new partner if it was split. */
    method AdjustTree(n: Node, nn: Node?) returns (p: Node, pp: Node?)
      requires AdjustReady(Mem(), root, Cfg(), n, nn, Clean())
      modifies this`nodes, this`splits, nodes
      ensures old(nodes) <= nodes && fresh(nodes - old(nodes)) && DataOf(nodes) == old(DataOf(nodes))
      ensures p == root && old(splits) <= splits
      ensures AdjustEffect(old(Mem()), Mem(), root, n, nn, pp, splits[|old(splits)|..], maxChild)
      ensures pp == null ==> Sound(Mem(), root, Cfg()) && (Clean() ==> Proper(Mem(), root, Cfg()))
      ensures pp != null ==>
        AdjustReady(Mem(), root, Cfg(), root, pp, Clean()) && root.bound == Mbr(Bounds(root.items))
      ensures ItemsAfter(old(Mem()), Mem(),
                         AdjustItems(old(Mem()), root, n, nn, splits[|old(splits)|..], minChild, dims))
      ensures LastPartner(nn, pp, splits[|old(splits)|..])
      decreases root.lvl - n.lvl
    {
      hide AllClean, AllSized, AdjustProper, SplitOnce, AdjustItems, ClimbItems, ItemsAfter;
      if n == root {
        AdjustRoot(nn);
        NothingAbove(old(Mem()), root, nn, minChild, dims);
        return n, nn;
      }
      ghost var a, before := Mem(), splits;
      var parent, partner := Climb(n, nn);
      ghost var b, mid := Mem(), splits;
      p, pp := AdjustTree(parent, partner);
      LogParts(before, mid, splits);
      AdjustStep(a, b, Mem(), root, n, nn, parent, partner, pp, mid[|before|..], splits[|mid|..], maxChild);
      AdjustItemsStep(a, b, Mem(), root, n, nn, parent, partner, mid[|before|..], splits[|mid|..], minChild, dims,
                      maxChild);
      LastPartnerMore(nn, partner, pp, mid[|before|..], splits[|mid|..]);
    }

    /** One level of `adjustTree` below the root. */
    method Climb(n: Node, nn: Node?) returns (p: Node, pp: Node?)
      requires AdjustReady(Mem(), root, Cfg(), n, nn, Clean()) && n != root
      modifies this`nodes, this`splits, nodes
      ensures old(nodes) <= nodes && fresh(nodes - old(nodes)) && DataOf(nodes) == old(DataOf(nodes))
      ensures AdjustReady(Mem(), root, Cfg(), p, pp, Clean())
      ensures old(splits) <= splits
      ensures ClimbEffect(old(Mem()), Mem(), root, n, nn, p, pp, splits[|old(splits)|..], maxChild)
      ensures ItemsAfter(old(Mem()), Mem(), ClimbItems(old(Mem()), p, nn, splits[|old(splits)|..], minChild, dims))
      ensures LastPartner(nn, pp, splits[|old(splits)|..])
    {
      hide AllClean, AdjustProper, ClimbFrame, ClimbEffect, SplitOnce, ItemsAfter, OnceItems;
      ghost var a := Mem();
      assert Kids(a, n, root, nn);
      p := StoreBound(n, nn);
      ghost var b := Mem();
      pp := null;
      if nn != null {
        pp := Receive(p, nn);
      } else {
        RaisedIsReady(Mem(), root, Cfg(), p, Clean());
      }
      ClimbStep(a, b, Mem(), root, n, nn, p, pp, splits[|old(splits)|..], maxChild);
      ClimbItemsStep(a, b, Mem(), p, nn, splits[|old(splits)|..], minChild, dims);
    }

    /** The parent `p` of a divided node receives the partner and is split if it was full. */
    method Receive(p: Node, nn: Node) returns (pp: Node?)
      requires Raised(Mem(), root, Cfg(), p, nn, Clean()) && nn.lvl + 1 == p.lvl && nn.items != []
      modifies this`nodes, this`splits, nodes
      ensures old(nodes) <= nodes && fresh(nodes - old(nodes)) && DataOf(nodes) == old(DataOf(nodes))
      ensures AdjustReady(Mem(), root, Cfg(), p, pp, Clean())
      ensures old(splits) <= splits
      ensures ClimbFrame(old(Mem()), Mem(), p)
      ensures SplitOnce(old(Mem()), p, old(p.items) + [nn], pp, splits[|old(splits)|..], maxChild)
      ensures Recorded(splits[|old(splits)|..], Mem(), p.lvl)
      ensures nodes == old(nodes) + Partners(splits[|old(splits)|..])
      ensures ItemsAfter(old(Mem()), Mem(),
                         OnceItems(p, old(p.items) + [nn], splits[|old(splits)|..], minChild, dims))
      ensures LastPartner(nn, pp, splits[|old(splits)|..])
    {
      hide ItemsAfter, OnceItems, LastPartner, AllSized, DataOf, Mbr;
      hide AllClean, Received, AdjustReady, SplitOnce, Recorded, SplitFrame, ClimbFrame, AllLinked, AllFilled, AllTight;
      ghost var a := Mem();
      assert Kids(a, p, root, nn);
      AttachPartner(p, nn);
      ghost var b := Mem();
      pp := SplitIfFull(p);
      ReceiveStep(a, b, Mem(), root, p, nn, pp, splits[|old(splits)|..], maxChild);
      ReceiveItems(a, b, Mem(), p, a[p].items + [nn], splits[|old(splits)|..], minChild, dims);
      OnceIsLast(a, p, a[p].items + [nn], nn, pp, splits[|old(splits)|..], maxChild);
    }

    method AdjustRoot(nn: Node?)
      requires AdjustReady(Mem(), root, Cfg(), root, nn, Clean())
      modifies root`bound
      ensures nn == null ==> Sound(Mem(), root, Cfg()) && (Clean() ==> Proper(Mem(), root, Cfg()))
      ensures nn != null ==>
        AdjustReady(Mem(), root, Cfg(), root, nn, Clean()) && root.bound == Mbr(Bounds(root.items))
      ensures SameBoundsBelow(old(Mem()), Mem(), root.lvl) && ItemsAfter(old(Mem()), Mem(), map[])
    {
      ghost var h := Mem();
      assert Kids(h, root, root, nn);
      var bb := BoxOf(root, Pair(root, nn));
      SetBound(root, bb);
      assert Bounds(root.items) == BoundsIn(h, root.items);
      if nn == null {
        RootSettled(h, root, Cfg(), Clean());
      } else {
        RootBoundIsLoose(h, root, Cfg(), nn, bb, Clean());
      }
    }

    /** The bound of `n` is stored in its entry in the parent. */
    method StoreBound(n: Node, nn: Node?) returns (p: Node)
      requires AdjustReady(Mem(), root, Cfg(), n, nn, Clean()) && n != root
      modifies nodes`bound
      ensures n.parent == p && Raised(Mem(), root, Cfg(), p, nn, Clean())
      ensures ClimbFrame(old(Mem()), Mem(), p) && p.items == old(Mem())[p].items && p.lvl == n.lvl + 1 <= root.lvl
      ensures nn != null ==> nn.items != []
      ensures ItemsAfter(old(Mem()), Mem(), map[])
    {
      hide AllClean, Raised, BoundsIn;
      ghost var h := Mem();
      assert Kids(h, n, root, nn);
      p := n.parent;
      assert Kids(h, p, root, nn);
      var en := p.items[0];
      for i := 0 to |p.items|
        invariant en in p.items && (n in p.items[..i] ==> en == n)
      {
        if p.items[i] == n {
          en := n;
        }
      }
      assert Clean() ==> en == n by {
        if Clean() { assert Link(h, n, root, nn); }
      }
      var bb := BoxOf(n, Pair(root, nn));
      SetBound(en, bb);
      BoundStored(h, root, Cfg(), n, nn, en, Clean());
    }

    /** The partner gets its bound and becomes an entry of `p`. */
    method AttachPartner(p: Node, nn: Node)
      requires Raised(Mem(), root, Cfg(), p, nn, Clean()) && nn.lvl + 1 == p.lvl && nn.items != []
      modifies nn`bound, nn`parent, p`items
      ensures Received(Mem(), root, Cfg(), p, Clean())
      ensures ClimbFrame(old(Mem()), Mem(), p) && p.items == old(p.items) + [nn]
      ensures ItemsAfter(old(Mem()), Mem(), map[p := old(p.items) + [nn]])
    {
      hide AllClean, ClimbFrame, Received, ItemsAfter;
      ghost var h := Mem();
      assert Kids(h, nn, root, nn);
      var bb := BoxOf(nn, {nn});
      SetBound(nn, bb);
      PartnerSettled(h, root, Cfg(), p, nn, Clean());
      PartnerFrame(h, p, nn, bb);
      PartnerItems(h, p, nn, bb);
      Attached(Mem(), root, Cfg(), p, nn, Clean());
      AddChild(p, nn);
    }

    /** A node that received an entry is split if it is overfull. */
    method SplitIfFull(l: Node) returns (ll: Node?)
      requires Received(Mem(), root, Cfg(), l, Clean())
      modifies this`nodes, this`splits, nodes
      ensures AdjustReady(Mem(), root, Cfg(), l, ll, Clean())
      ensures old(nodes) <= nodes && fresh(nodes - old(nodes)) && DataOf(nodes) == old(DataOf(nodes))
      ensures old(splits) <= splits && SplitFrame(old(Mem()), Mem(), root, l)
      ensures SplitOnce(old(Mem()), l, old(l.items), ll, splits[|old(splits)|..], maxChild)
      ensures Recorded(splits[|old(splits)|..], Mem(), l.lvl)
      ensures nodes == old(nodes) + Partners(splits[|old(splits)|..])
      ensures ItemsAfter(old(Mem()), Mem(), OnceItems(l, old(l.items), splits[|old(splits)|..], minChild, dims))
    {
      ll := null;
      ghost var a, before := Mem(), splits;
      if |l.items| > maxChild {
        assert Kids(a, l, root, null);
        ll := SplitFull(l);
        DataOfMore(old(nodes), ll);
        ghost var log := splits[|before|..];
        assert log == [SplitEvent(l, ll, old(Entries(l.items)), old(l.bound))];
        OneSplit(a, Mem(), root, l, ll, log);
      }
    }

    // ----- insertion -----

    /** `chooseLeaf`: down from `node` by least enlargement. */
    method ChooseLeaf(node: Node, bound: Box) returns (chosen: Node)
      requires Sound(Mem(), root, Cfg()) && node in nodes && 1 <= node.lvl && |bound| == dims
      ensures chosen in nodes && chosen.lvl == 1 && Descends(Mem(), root, node, bound, 1, chosen)
      decreases node.lvl
    {
      ghost var h := Mem();
      assert Kids(h, node, root, null) && Kids(h, root, root, null);
      if node.isLeaf {
        return node;
      }
      forall i | 0 <= i < |node.items|
        ensures |node.items[i].bound| <= |bound|
      {
        assert Sized(h, node.items[i], root, dims);
      }
      var k := ChooseSubtree(node, bound);
      assert Bounds(node.items) == BoundsIn(h, node.items);
      chosen := ChooseLeaf(node.items[k], bound);
      assert DescendsBy(h, root, node, bound, 1, chosen, k);
    }

    /** `InsertLeaf`: the new data entry `e` joins the leaf node `l`, and exactly the nodes of the
        unbroken chain of full nodes upward from `l` are split. The tree grows if the chain reaches
        the root. */
    method InsertLeaf(bound: Box, leaf: OSMObject, reinsert: bool) returns (ghost e: Node, ghost l: Node)
      requires Valid() && |bound| == dims
      modifies this, nodes
      ensures Valid() && lean == old(lean) && size == old(size) + (if reinsert then 0 else 1)
      ensures e !in old(nodes) && e.lvl == 0 && l.lvl == 1 && e.leaf == leaf.(bound := bound)
      ensures old(splits) <= splits
      ensures l in old(Mem()) &&
        InsertEffect(old(Mem()), Mem(), old(root), root, l, old(Mem())[l].items + [e], {e}, splits[|old(splits)|..],
                     maxChild)
      ensures old(nodes) <= nodes && fresh(nodes - old(nodes)) && DataOf(nodes) == old(DataOf(nodes)) + {e}
      ensures Descends(old(Mem()), old(root), old(root), bound, 1, l)
      ensures ItemsAfter(old(Mem()), Mem(),
                         map[e := []] + InsertItems(old(Mem()), old(root), root, l, old(Mem())[l].items + [e],
                                                    splits[|old(splits)|..], minChild, dims))
      ensures splits == old(splits) ==>
        l.items == old(Mem())[l].items + [e] && forall y :: y in old(nodes) && y != l ==> y.items == old(y.items)
    {
      hide InsertEffect, AllClean, Proper, AllSized, ItemsAfter, InsertItems, Descends;
      ghost var a := Mem();
      var leafNode := ChooseLeaf(root, bound);
      var newLeaf := new Node.Data(bound, leaf.(bound := bound));
      e, l := newLeaf, leafNode;
      PlaceData(leafNode, newLeaf, reinsert);
      if splits == old(splits) {
        RoomKeepsItems(a, Mem(), old(root), root, l, e, splits[|old(splits)|..], minChild, dims, maxChild);
      }
    }

    /** The data entry `e` joins the leaf node `l`. */
    method PlaceData(l: Node, e: Node, reinsert: bool)
      requires Valid() && l in nodes && l.lvl == 1 && e !in nodes && e.lvl == 0 && !e.isLeaf
      requires e.items == [] && e.parent == null && e.bound == e.leaf.bound && |e.bound| == dims
      modifies this, nodes, e
      ensures Valid() && lean == old(lean) && size == old(size) + (if reinsert then 0 else 1)
      ensures old(splits) <= splits && l in old(Mem()) &&
        InsertEffect(old(Mem()), Mem(), old(root), root, l, old(Mem())[l].items + [e], {e}, splits[|old(splits)|..],
                     maxChild)
      ensures old(nodes) <= nodes && fresh(nodes - old(nodes) - {e}) && DataOf(nodes) == old(DataOf(nodes)) + {e}
      ensures ItemsAfter(old(Mem()), Mem(),
                         map[e := []] + InsertItems(old(Mem()), old(root), root, l, old(Mem())[l].items + [e],
                                                    splits[|old(splits)|..], minChild, dims))
    {
      hide InsertEffect, AllClean, Received, ClimbFrame, Proper, AllSized, ItemsAfter, InsertItems;
      ghost var a := Mem();
      AddData(l, e, reinsert);
      DataOfMore(old(nodes), e);
      ghost var b := Mem();
      SettleInsertion(l);
      InsertStep(a, b, Mem(), old(root), root, l, e, {e}, splits[|old(splits)|..], maxChild);
      PlacedItems(a, b, Mem(), old(root), root, l, e, splits[|old(splits)|..], minChild, dims);
    }

    method AddData(p: Node, c: Node, reinsert: bool)
      requires Valid() && p in nodes && p.lvl == 1 && c !in nodes && c.lvl == 0 && !c.isLeaf
      requires c.items == [] && c.parent == null && c.bound == c.leaf.bound && |c.bound| == dims
      modifies this`nodes, this`size, p`items, c`parent
      ensures size == old(size) + (if reinsert then 0 else 1)
      ensures nodes == old(nodes) + {c} && Received(Mem(), root, Cfg(), p, Clean())
      ensures ClimbFrame(old(Mem()), Mem(), p) && p.items == old(p.items) + [c]
      ensures ItemsAfter(old(Mem()), Mem(), map[p := old(p.items) + [c], c := []])
    {
      hide Received, ClimbFrame, AllClean, ItemsAfter;
      HangData(p, c);
      if !reinsert {
        size := size + 1;
      }
    }

    method HangData(p: Node, c: Node)
      requires Valid() && p in nodes && p.lvl == 1 && c !in nodes && c.lvl == 0 && !c.isLeaf
      requires c.items == [] && c.parent == null && c.bound == c.leaf.bound && |c.bound| == dims
      modifies this`nodes, p`items, c`parent
      ensures nodes == old(nodes) + {c} && Received(Mem(), root, Cfg(), p, Clean())
      ensures ClimbFrame(old(Mem()), Mem(), p) && p.items == old(p.items) + [c]
      ensures ItemsAfter(old(Mem()), Mem(), map[p := old(p.items) + [c], c := []])
    {
      hide Received, AllClean, AttachReady, Proper, Sound, ClimbFrame, ItemsAfter;
      ghost var h := Mem();
      DataIsReady(h, root, Cfg(), p, c, c.bound, Clean());
      nodes := nodes + {c};
      assert Mem() == h[c := NodeState([], null, c.bound)];
      DataFrame(h, p, c, c.bound);
      DataItems(h, p, c, c.bound);
      Attached(Mem(), root, Cfg(), p, c, Clean());
      AddChild(p, c);
    }

    /** The end of `InsertLeaf` and `insertLevel`: split `l` if it is overfull, adjust its ancestors
        and grow the tree if the root was split. */
    method SettleInsertion(l: Node)
      requires height == root.lvl && Received(Mem(), root, Cfg(), l, Clean())
      modifies this`nodes, this`splits, this`root, this`height, nodes
      ensures Valid() && old(splits) <= splits
      ensures old(nodes) <= nodes && fresh(nodes - old(nodes)) && DataOf(nodes) == old(DataOf(nodes))
      ensures InsertEffect(old(Mem()), Mem(), old(root), root, l, old(l.items), {}, splits[|old(splits)|..], maxChild)
      ensures ItemsAfter(old(Mem()), Mem(), InsertItems(old(Mem()), old(root), root, l, old(l.items),
                                                        splits[|old(splits)|..], minChild, dims))
    {
      hide AllClean, Proper, AdjustReady, SplitRun, ItemsAfter, RunItems, InsertItems;
      ghost var a, before := Mem(), splits;
      var pp := SplitAndAdjust(l);
      ghost var b, log := Mem(), splits[|before|..];
      if pp != null {
        GrowRoot(root, pp, log);
        GrowItems(a, b, Mem(), old(root), root, l, a[l].items, pp, log, minChild, dims);
      } else {
        NotGrownItems(a, root, l, a[l].items, log, minChild, dims);
      }
    }

    method SplitAndAdjust(l: Node) returns (pp: Node?)
      requires Received(Mem(), root, Cfg(), l, Clean())
      modifies this`nodes, this`splits, nodes
      ensures old(nodes) <= nodes && fresh(nodes - old(nodes)) && DataOf(nodes) == old(DataOf(nodes))
      ensures old(splits) <= splits
      ensures SettleEffect(old(Mem()), Mem(), root, l, old(l.items), pp, splits[|old(splits)|..], maxChild)
      ensures pp == null ==> Sound(Mem(), root, Cfg()) && (Clean() ==> Proper(Mem(), root, Cfg()))
      ensures pp != null ==>
        AdjustReady(Mem(), root, Cfg(), root, pp, Clean()) && root.bound == Mbr(Bounds(root.items))
      ensures ItemsAfter(old(Mem()), Mem(),
                         RunItems(old(Mem()), root, l, old(l.items), splits[|old(splits)|..], minChild, dims))
      ensures LastPartner(null, pp, splits[|old(splits)|..])
    {
      hide ItemsAfter, RunItems, OnceItems, AdjustItems;
      hide AllClean, SplitOnce, SettleEffect, AdjustEffect, AdjustProper, AllSized, Proper;
      ghost var a, before := Mem(), splits;
      assert Kids(a, l, root, null);
      var ll := SplitIfFull(l);
      ghost var b, mid := Mem(), splits;
      var p;
      p, pp := AdjustTree(l, ll);
      LogParts(before, mid, splits);
      SettleStep(a, b, Mem(), root, l, a[l].items, ll, pp, mid[|before|..], splits[|mid|..], maxChild);
      SettleItems(a, b, Mem(), root, l, a[l].items, ll, pp, mid[|before|..], splits[|mid|..], minChild, dims, maxChild);
    }

    method GrowRoot(p: Node, pp: Node, ghost log: seq<SplitEvent>)
      requires p == root && height == root.lvl && AdjustReady(Mem(), root, Cfg(), root, pp, Clean())
      requires root.bound == Mbr(Bounds(root.items)) && Recorded(log, Mem(), root.lvl)
      modifies this`root, this`height, this`nodes, nodes
      ensures Valid() && root.lvl == old(root).lvl + 1 && Recorded(log, Mem(), root.lvl)
      ensures fresh(root) && nodes == old(nodes) + {root} && DataOf(nodes) == old(DataOf(nodes))
      ensures ItemsAfter(old(Mem()), Mem(), map[root := [p, pp]])
    {
      hide AllClean, AllLinked, AllFilled, AllTight, Recorded, ItemsAfter;
      ghost var h := Mem();
      assert Kids(h, root, root, pp) && Kids(h, pp, root, pp);
      MbrSized(h, root, dims, root, {root, pp});
      assert Bounds(root.items) == BoundsIn(h, root.items);
      var ppBound := BoxOf(pp, {root, pp});
      MakeRoot(pp, ppBound);
      GrownIsSound(h, p, Cfg(), pp, root, Clean());
      DataOfMore(old(nodes), root);
      GrownRecorded(log, h, p, pp, root);
      GrownItems(h, p, pp, root);
    }

    method MakeRoot(pp: Node, ppBound: Box)
      requires root in nodes && pp in nodes && root != pp && root.items != [] && pp.items != []
      requires (forall c :: c in root.items ==> c in nodes) && (forall c :: c in pp.items ==> c in nodes)
      requires root.bound == Mbr(BoundsIn(Mem(), root.items)) && ppBound == Mbr(BoundsIn(Mem(), pp.items))
      requires |root.bound| == dims && |ppBound| == dims && height == root.lvl
      modifies this`root, this`height, this`nodes, root`parent, pp`parent, pp`bound
      ensures fresh(root) && nodes == old(nodes) + {root} && root.lvl == old(root).lvl + 1 && !root.isLeaf &&
        root.leaf == NO_OBJECT
      ensures height == root.lvl == old(height) + 1 && Mem() == Grown(old(Mem()), old(root), pp, root)
    {
      ghost var h := Mem();
      var r := new Node.Branch([root, pp], null, false, root.lvl + 1);
      HangHalves(r, pp, ppBound);
      FinishRoot(h, r, pp);
    }

    /** Both halves of the root get the new node as their parent. */
    method HangHalves(r: Node, pp: Node, ppBound: Box)
      requires root in nodes && pp in nodes && r !in nodes && root != pp
      modifies this`nodes, root`parent, pp`parent, pp`bound
      ensures nodes == old(nodes) + {r} && pp.bound == ppBound
      ensures Mem() - {r} ==
        old(Mem())[root := NodeState(root.items, r, root.bound)][pp := NodeState(pp.items, r, ppBound)]
    {
      pp.bound := ppBound;
      root.parent := r;
      pp.parent := r;
      nodes := nodes + {r};
    }

    method FinishRoot(ghost h: Mem, r: Node, pp: Node)
      requires r in nodes && root != pp && root in h && pp in h && r !in h && h.Keys + {r} == nodes
      requires (forall c :: c in h[root].items ==> c in h) && (forall c :: c in h[pp].items ==> c in h)
      requires h[root].items != [] && h[pp].items != []
      requires r.items == [root, pp] && r.parent == null && Mem() - {r} == Halves(h, root, pp, r)
      requires |root.bound| == dims && |pp.bound| == dims && root != r && pp != r
      modifies this`root, this`height, r`bound
      ensures root == r && height == old(height) + 1 && Mem() == Grown(h, old(root), pp, r)
    {
      hide Mbr;
      assert root in Mem() - {r} && pp in Mem() - {r};
      var bound := r.ComputeBB();
      assert Bounds(r.items) == BoundsIn(Halves(h, root, pp, r), [root, pp]);
      r.bound := bound;
      root := r;
      height := height + 1;
    }

    /** `InsertLeaf` seen from outside: if all splits were clean, the object has joined the stored
        objects with the box it was given. */
    method Insert(bound: Box, leaf: OSMObject) returns (ghost e: Node, ghost l: Node)
      requires Valid() && |bound| == dims
      modifies this, nodes
      ensures Valid() && lean == old(lean) && size == old(size) + 1
      ensures e !in old(nodes) && e.lvl == 0 && l.lvl == 1 && e.leaf == leaf.(bound := bound)
      ensures old(splits) <= splits
      ensures l in old(Mem()) &&
        InsertEffect(old(Mem()), Mem(), old(root), root, l, old(Mem())[l].items + [e], {e}, splits[|old(splits)|..],
                     maxChild)
      ensures fresh(nodes - old(nodes)) && Entered() == old(Entered()) + multiset{leaf.(bound := bound)}
      ensures Clean() ==> Contents() == old(Contents()) + multiset{leaf.(bound := bound)}
      ensures old(Clean()) && |old(Contents())| < maxChild ==> splits == old(splits)
    {
      ghost var a, before := Mem(), DataOf(nodes);
      if Clean() {
        StoredIsEntered();
      }
      e, l := InsertLeaf(bound, leaf, false);
      ObjectsOfMore(before, e);
      if Clean() {
        StoredIsEntered();
      }
      if old(Clean()) && |Stored(a, old(root))| < maxChild {
        RoomInLeaf(a, old(root), l, e, splits[|old(splits)|..], maxChild);
      }
    }

    /** The loop of `Deserialize`: the tree of a list of objects. */
    method InsertAll(items: seq<OSMObject>)
      requires Valid() && forall i :: 0 <= i < |items| ==> |items[i].bound| == dims
      modifies this, nodes
      ensures Valid() && lean == old(lean) && size == old(size) + |items|
      ensures fresh(nodes - old(nodes)) && Entered() == old(Entered()) + multiset(items)
      ensures LogGrows(old(splits), splits, maxChild)
      ensures Clean() ==> Contents() == old(Contents()) + multiset(items)
      ensures old(Clean()) && |old(Contents())| + |items| <= maxChild ==> splits == old(splits)
    {
      hide Added, Proper, AllClean;
      ghost var log, clean, entered, stored := splits, Clean(), Entered(), Contents();
      NoneAdded();
      assert items[..0] == [];
      for i := 0 to |items|
        invariant Valid() && lean == old(lean) && size == old(size) + i && fresh(nodes - old(nodes))
        invariant Added(items[..i], log, clean, entered, stored)
      {
        InsertNext(items, i, log, clean, entered, stored);
      }
      assert items[..|items|] == items;
      AddedMeans(items, log, clean, entered, stored);
    }

    lemma NoneAdded()
      requires Shape(Mem(), root, null)
      ensures Added([], splits, Clean(), Entered(), Contents())
    {
    }

    lemma AddedMeans(items: seq<OSMObject>, log: seq<SplitEvent>, clean: bool, entered: multiset<OSMObject>,
                     stored: multiset<OSMObject>)
      requires Shape(Mem(), root, null) && Added(items, log, clean, entered, stored)
      ensures Entered() == entered + multiset(items) && LogGrows(log, splits, maxChild)
      ensures Clean() ==> clean && Contents() == stored + multiset(items)
      ensures clean && |stored| + |items| <= maxChild ==> splits == log
    {
    }

    /** The objects `items` have joined a tree that had these splits and objects. */
    ghost predicate Added(items: seq<OSMObject>, log: seq<SplitEvent>, clean: bool, entered: multiset<OSMObject>,
                          stored: multiset<OSMObject>)
      requires Shape(Mem(), root, null)
      reads this, nodes
    {
      Entered() == entered + multiset(items) && LogGrows(log, splits, maxChild) &&
      (Clean() ==> clean && Contents() == stored + multiset(items)) &&
      (clean && |stored| + |items| <= maxChild ==> splits == log)
    }

    method InsertNext(items: seq<OSMObject>, i: nat, ghost log: seq<SplitEvent>, ghost clean: bool,
                      ghost entered: multiset<OSMObject>, ghost stored: multiset<OSMObject>)
      requires Valid() && i < |items| && |items[i].bound| == dims
      requires Added(items[..i], log, clean, entered, stored) && (clean ==> AllClean(log, minChild, dims))
      modifies this, nodes
      ensures Valid() && lean == old(lean) && size == old(size) + 1
      ensures old(nodes) <= nodes && fresh(nodes - old(nodes))
      ensures Added(items[..i + 1], log, clean, entered, stored)
    {
      hide InsertEffect, Proper, AllSized, ObjectsOf, Stored;
      ghost var a, before := Mem(), splits;
      ghost var e, l := Insert(items[i].bound, items[i]);
      TakeNext(items, i);
      assert InsertEffect(a, Mem(), old(root), root, l, a[l].items + [e], {e}, splits[|before|..], maxChild);
      InsertIsOverfull(a, Mem(), old(root), root, l, a[l].items + [e], {e}, splits[|before|..], maxChild);
      LogGrowsOn(log, before, splits, maxChild);
    }

    // ----- search -----

    /** `Search`: in tree order, exactly the stored entries whose box overlaps the query. */
    method Search(query: Box) returns (results: seq<Node>)
      requires Sound(Mem(), root, Cfg()) && Covering(Mem(), root) && |query| == dims
      ensures results == Matching(Mem(), Leaves(Mem(), root, root), query)
    {
      results := SearchBelow(root, query, []);
    }

    method SearchBelow(node: Node, query: Box, found: seq<Node>) returns (results: seq<Node>)
      requires Sound(Mem(), root, Cfg()) && Covering(Mem(), root) && |query| == dims
      requires node in nodes && 1 <= node.lvl
      ensures results == found + Matching(Mem(), Leaves(Mem(), root, node), query)
      decreases node.lvl, 1
    {
      hide AllSized, Matching, Covering;
      ghost var h := Mem();
      assert Kids(h, node, root, null);
      results := found;
      NothingScanned(h, root, node.lvl, query);
      assert node.items[..0] == [];
      for i := 0 to |node.items|
        invariant Mem() == h
        invariant results == found + Matching(h, LeavesOf(h, root, node.items[..i], node.lvl), query)
      {
        ScanStep(h, root, node.items, i, node.lvl, query);
        results := SearchEntry(node, node.items[i], query, results);
      }
      assert node.items[..|node.items|] == node.items;
    }

    /** One entry of either loop of `search`. */
    method SearchEntry(node: Node, e: Node, query: Box, found: seq<Node>) returns (results: seq<Node>)
      requires Sound(Mem(), root, Cfg()) && Covering(Mem(), root) && |query| == dims
      requires node in nodes && e in node.items && e in nodes
      requires !Hit(Mem(), e, query) ==> Matching(Mem(), Leaves(Mem(), root, e), query) == []
      requires e.lvl == 0 && Hit(Mem(), e, query) ==> Matching(Mem(), Leaves(Mem(), root, e), query) == [e]
      ensures results == found + Matching(Mem(), Leaves(Mem(), root, e), query)
      decreases node.lvl, 0
    {
      assert Kids(Mem(), node, root, null) && Kids(Mem(), root, root, null) && Sized(Mem(), e, root, dims);
      results := found;
      var hit := Overlaps(e.bound, query);
      if hit {
        if node.isLeaf {
          results := results + [e];
        } else {
          results := SearchBelow(e, query, results);
        }
      }
    }
  }

  lemma TakeNext<X>(items: seq<X>, i: nat)
    requires i < |items|
    ensures multiset(items[..i + 1]) == multiset(items[..i]) + multiset{items[i]}
  {
    assert items[..i + 1] == items[..i] + [items[i]];
  }

  /** On a tree with the R-tree properties the traversal scans each stored entry once, so a search
      returns each overlapping entry once and no other. */
  lemma SearchIsLinearScan(h: Mem, root: Node, cfg: Config, query: Box, y: Node)
    requires Sound(h, root, cfg) && Proper(h, root, cfg)
    ensures multiset(Matching(h, Leaves(h, root, root), query))[y] ==
            Count(y in DataOf(h.Keys) && Overlap(y.leaf.bound, query))
  {
    MatchingIsScan(h, Leaves(h, root, root), query, y);
    TraversalIsComplete(h, root);
    assert y in Leaves(h, root, root) <==> multiset(Leaves(h, root, root))[y] > 0;
    if y in DataOf(h.Keys) {
      assert Tight(h, y);
    }
  }
}
