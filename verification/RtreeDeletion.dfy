/** Taking a subtree out of an R-tree and putting it back elsewhere, on snapshots of the nodes. */
module RtreeDeletion {
  import opened Boxes
  import opened SplitPolicy
  import opened RtreeNodes
  import opened RtreeInvariant
  import opened RtreeContents

  // ----- detached subtrees -----

  /** `x` is a proper node of a detached subtree; the tops of the subtrees have no parent there. */
  ghost predicate Pending(d: Mem, x: Node, tops: set<Node>, H: nat, cfg: Config)
    requires x in d
  {
    x.lvl < H && (x.isLeaf <==> x.lvl == 1) && (x.lvl == 0 <==> d[x].items == []) &&
    (x.lvl >= 1 ==> x.leaf == NO_OBJECT) && Distinct(d[x].items) &&
    (forall c :: c in d[x].items ==> c in d && c.lvl + 1 == x.lvl && d[c].parent == x && c !in tops) &&
    (x !in tops ==>
      d[x].parent != null && d[x].parent in d && d[x].parent.lvl == x.lvl + 1 && x in d[d[x].parent].items) &&
    |d[x].bound| == cfg.dims && |d[x].items| <= cfg.M && (cfg.Fillable() && x.lvl > 0 ==> cfg.m <= |d[x].items|) &&
    Tight(d, x)
  }

  ghost predicate Forest(d: Mem, tops: set<Node>, H: nat, cfg: Config) {
    tops <= d.Keys && forall x {:trigger Pending(d, x, tops, H, cfg)} :: x in d ==> Pending(d, x, tops, H, cfg)
  }

  /** The top of the subtree that `y` belongs to. */
  ghost function TopOf(d: Mem, tops: set<Node>, H: nat, cfg: Config, y: Node): (x: Node)
    requires Forest(d, tops, H, cfg) && y in d
    ensures x in tops
    decreases H - y.lvl
  {
    assert Pending(d, y, tops, H, cfg);
    if y in tops then y else TopOf(d, tops, H, cfg, d[y].parent)
  }

  ghost function Below(d: Mem, tops: set<Node>, H: nat, cfg: Config, c: Node): set<Node>
    requires Forest(d, tops, H, cfg)
  {
    set y | y in d && TopOf(d, tops, H, cfg, y) == c
  }

  lemma TopOfChild(d: Mem, tops: set<Node>, H: nat, cfg: Config, x: Node, c: Node)
    requires Forest(d, tops, H, cfg) && x in d && c in d[x].items
    ensures c in d && TopOf(d, tops, H, cfg, c) == TopOf(d, tops, H, cfg, x)
  {
    assert Pending(d, x, tops, H, cfg);
  }

  lemma TopOfParent(d: Mem, tops: set<Node>, H: nat, cfg: Config, x: Node)
    requires Forest(d, tops, H, cfg) && x in d && x !in tops
    ensures d[x].parent != null && d[x].parent in d
    ensures TopOf(d, tops, H, cfg, d[x].parent) == TopOf(d, tops, H, cfg, x)
  {
    assert Pending(d, x, tops, H, cfg);
  }

  ghost function Only(d: Mem, s: set<Node>): Mem {
    d - (d.Keys - s)
  }

  /** A set of nodes that holds the neighbours of its members is a forest of its own. */
  lemma SubForest(d: Mem, tops: set<Node>, H: nat, cfg: Config, s: set<Node>)
    requires Forest(d, tops, H, cfg) && s <= d.Keys
    requires forall x, c {:trigger c in d[x].items} :: x in s && c in d[x].items ==> c in s
    requires forall x :: x in s && x !in tops ==> d[x].parent != null && d[x].parent in s
    ensures Forest(Only(d, s), tops * s, H, cfg)
  {
    var e := Only(d, s);
    forall x | x in e
      ensures Pending(e, x, tops * s, H, cfg)
    {
      assert Pending(d, x, tops, H, cfg);
      SameBounds(d, e, d[x].items);
    }
  }

  /** One subtree of a forest and the others. */
  lemma TakeOut(d: Mem, tops: set<Node>, H: nat, cfg: Config, c: Node)
    requires Forest(d, tops, H, cfg) && c in tops
    ensures var s := Below(d, tops, H, cfg, c);
      c in s && s <= d.Keys && Forest(Only(d, s), {c}, H, cfg) && Forest(Only(d, d.Keys - s), tops - {c}, H, cfg)
  {
    var s := Below(d, tops, H, cfg, c);
    var r := d.Keys - s;
    forall x, k | x in d && k in d[x].items
      ensures k in d && (x in s <==> k in s)
    {
      TopOfChild(d, tops, H, cfg, x, k);
    }
    forall x | x in d && x !in tops
      ensures d[x].parent != null && d[x].parent in d && (x in s <==> d[x].parent in s)
    {
      TopOfParent(d, tops, H, cfg, x);
    }
    assert forall t :: t in tops ==> TopOf(d, tops, H, cfg, t) == t;
    assert tops * s == {c} && tops * r == tops - {c};
    SubForest(d, tops, H, cfg, s);
    SubForest(d, tops, H, cfg, r);
  }

  lemma ForestUnion(d: Mem, e: Mem, dt: set<Node>, et: set<Node>, H: nat, cfg: Config)
    requires Forest(d, dt, H, cfg) && Forest(e, et, H, cfg) && d.Keys !! e.Keys
    ensures Forest(d + e, dt + et, H, cfg)
  {
    var u := d + e;
    forall x | x in u
      ensures Pending(u, x, dt + et, H, cfg)
    {
      if x in d {
        assert Pending(d, x, dt, H, cfg);
        SameBounds(d, u, d[x].items);
      } else {
        assert Pending(e, x, et, H, cfg);
        SameBounds(e, u, e[x].items);
      }
    }
  }

  /** A forest without tops is empty. */
  lemma NoTops(d: Mem, H: nat, cfg: Config)
    requires Forest(d, {}, H, cfg)
    ensures d.Keys == {}
  {
    if y :| y in d {
      var t := TopOf(d, {}, H, cfg, y);
    }
  }

  // ----- grafting -----

  /** A detached subtree can be attached to any node one level above its top. */
  lemma Graft(h: Mem, d: Mem, root: Node, cfg: Config, H: nat, p: Node, c: Node, clean: bool)
    requires Sound(h, root, cfg) && (clean ==> Proper(h, root, cfg))
    requires Forest(d, {c}, H, cfg) && h.Keys !! d.Keys && p in h && p.lvl == c.lvl + 1 <= root.lvl
    requires forall x :: x in d ==> x.lvl <= c.lvl
    ensures AttachReady(h + d, root, cfg, p, c, clean)
  {
    var b := h + d;
    forall x | x in b
      ensures Kids(b, x, root, c) && Sized(b, x, root, cfg.dims)
    {
      if x in d {
        assert Pending(d, x, {c}, H, cfg);
      } else {
        assert Kids(h, x, root, null) && Sized(h, x, root, cfg.dims);
      }
    }
    if clean {
      GraftProper(h, d, root, cfg, H, p, c);
    }
  }

  lemma GraftFrame(h: Mem, d: Mem, p: Node, c: Node)
    requires h.Keys !! d.Keys && p in h && c in d && c.lvl + 1 == p.lvl
    ensures ClimbFrame(h, WithChild(h + d, p, c), p)
  {
  }

  lemma GraftProper(h: Mem, d: Mem, root: Node, cfg: Config, H: nat, p: Node, c: Node)
    requires Shape(h, root, null) && Proper(h, root, cfg)
    requires Forest(d, {c}, H, cfg) && h.Keys !! d.Keys
    ensures var b := h + d;
      AllLinked(b, root, c) && AllFilled(b, root, cfg, null) && AllTight(b, {p})
  {
    var b := h + d;
    forall x | x in b
      ensures Link(b, x, root, c) && Filled(b, x, root, cfg) && Tight(b, x)
    {
      if x in d {
        assert Pending(d, x, {c}, H, cfg);
        SameBounds(d, b, d[x].items);
      } else {
        assert Kids(h, x, root, null) && Link(h, x, root, null) && Filled(h, x, root, cfg) && Tight(h, x);
        SameBounds(h, b, h[x].items);
      }
    }
  }

  lemma {:induction false} NothingAboveTop(d: Mem, H: nat, cfg: Config, c: Node, x: Node)
    requires Forest(d, {c}, H, cfg) && x in d
    ensures x.lvl <= c.lvl
    decreases H - x.lvl
  {
    assert Pending(d, x, {c}, H, cfg);
    if x != c {
      NothingAboveTop(d, H, cfg, c, d[x].parent);
    }
  }

  // ----- one level of `condenseTree` -----

  /** The nodes below `n`, with `n`. */
  ghost function SubOf(h: Mem, root: Node, n: Node): set<Node>
    requires Shape(h, root, null)
  {
    set y | y in h && y.lvl <= n.lvl <= root.lvl && Up(h, root, y, n.lvl) == n
  }

  lemma SubOfClosed(h: Mem, root: Node, n: Node)
    requires Shape(h, root, null) && AllLinked(h, root, null) && n in h
    ensures n in SubOf(h, root, n) && n.lvl <= root.lvl
    ensures forall x, c {:trigger c in h[x].items} :: x in h && c in h[x].items ==>
      c in h && (x in SubOf(h, root, n) ==> c in SubOf(h, root, n)) &&
      (c in SubOf(h, root, n) && c != n ==> x in SubOf(h, root, n))
    ensures forall x :: x in h && x != root && x != n ==>
      h[x].parent != null && h[x].parent in h && (x in SubOf(h, root, n) <==> h[x].parent in SubOf(h, root, n))
  {
    assert Kids(h, n, root, null);
    forall x, c | x in h && c in h[x].items
      ensures c in h && (x in SubOf(h, root, n) ==> c in SubOf(h, root, n))
      ensures c in SubOf(h, root, n) && c != n ==> x in SubOf(h, root, n)
    {
      assert Kids(h, x, root, null) && Kids(h, c, root, null) && Link(h, x, root, null);
    }
    forall x | x in h && x != root && x != n
      ensures h[x].parent != null && h[x].parent in h
      ensures x in SubOf(h, root, n) <==> h[x].parent in SubOf(h, root, n)
    {
      assert Kids(h, x, root, null);
    }
  }

  /** The tree is proper but for the size and the bound of `n`. */
  ghost predicate CondenseReady(h: Mem, root: Node, cfg: Config, n: Node) {
    cfg.Fillable() && 2 <= cfg.m && Shape(h, root, null) && n in h && AllSized(h, root, cfg.dims, {}) &&
    AllLinked(h, root, null) && AllFilled(h, root, cfg, n) && |h[n].items| <= cfg.M && AllTight(h, {n}) &&
    (root.lvl >= 2 && n != root ==> |h[root].items| >= 2)
  }

  /** `items'` is `items` without `n`. */
  ghost predicate Without(items: seq<Node>, items': seq<Node>, n: Node) {
    Distinct(items') && |items'| == |items| - 1 && n !in items' &&
    (forall c :: c in items' ==> c in items) && (forall c :: c in items && c != n ==> c in items')
  }

  function SwapRemove(items: seq<Node>, i: nat): seq<Node>
    requires i < |items|
  {
    items[i := items[|items| - 1]][..|items| - 1]
  }

  lemma SwapRemoveIsWithout(items: seq<Node>, i: nat)
    requires i < |items| && Distinct(items)
    ensures Without(items, SwapRemove(items, i), items[i])
  {
    var items', last := SwapRemove(items, i), |items| - 1;
    forall c | c in items && c != items[i]
      ensures c in items'
    {
      var k :| 0 <= k < |items| && items[k] == c;
      assert items'[if k == last then i else k] == c;
    }
  }

  /** The tree without the subtree of `n`. */
  ghost function Uprooted(h: Mem, root: Node, n: Node, items': seq<Node>): Mem
    requires Shape(h, root, null) && n in h && n != root
  {
    assert Kids(h, n, root, null);
    var rest := Only(h, h.Keys - SubOf(h, root, n));
    rest[h[n].parent := h[h[n].parent].(items := items')]
  }

  lemma UprootTree(h: Mem, root: Node, cfg: Config, n: Node, items': seq<Node>)
    requires CondenseReady(h, root, cfg, n) && n != root && !cfg.wide
    requires h[n].parent != null && h[n].parent in h && Without(h[h[n].parent].items, items', n)
    ensures CondenseReady(Uprooted(h, root, n, items'), root, cfg, h[n].parent)
    ensures Uprooted(h, root, n, items').Keys == h.Keys - SubOf(h, root, n)
  {
    var p, b := h[n].parent, Uprooted(h, root, n, items');
    SubOfClosed(h, root, n);
    assert Kids(h, n, root, null) && Kids(h, root, root, null) && Filled(h, p, root, cfg);
    assert p !in SubOf(h, root, n) && root !in SubOf(h, root, n);
    assert b.Keys == h.Keys - SubOf(h, root, n);
    UprootKids(h, root, cfg, n, items');
    forall x | x in b
      ensures Kids(b, x, root, null) && Sized(b, x, root, cfg.dims)
      ensures Link(b, x, root, null) && (x != p ==> Filled(b, x, root, cfg) && Tight(b, x))
    {
      UprootNode(h, root, cfg, n, items', x);
    }
  }

  /** The entries of a remaining node remain. */
  lemma UprootKids(h: Mem, root: Node, cfg: Config, n: Node, items': seq<Node>)
    requires Shape(h, root, null) && AllLinked(h, root, null) && n in h && n != root
    requires h[n].parent != null && h[n].parent in h && Without(h[h[n].parent].items, items', n)
    ensures var b := Uprooted(h, root, n, items');
      forall x, c {:trigger c in b[x].items} :: x in b && c in b[x].items ==> c in b && c in h[x].items
  {
    var b := Uprooted(h, root, n, items');
    SubOfClosed(h, root, n);
    forall x, c | x in b && c in b[x].items
      ensures c in b && c in h[x].items
    {
      assert Link(h, x, root, null) && Kids(h, n, root, null);
      assert h[n].parent !in SubOf(h, root, n);
    }
  }

  lemma UprootNode(h: Mem, root: Node, cfg: Config, n: Node, items': seq<Node>, x: Node)
    requires CondenseReady(h, root, cfg, n) && n != root && !cfg.wide
    requires h[n].parent != null && h[n].parent in h && Without(h[h[n].parent].items, items', n)
    requires Uprooted(h, root, n, items').Keys == h.Keys - SubOf(h, root, n) && x in Uprooted(h, root, n, items')
    requires var b := Uprooted(h, root, n, items'); forall c :: c in b[x].items ==> c in b && c in h[x].items
    ensures var b := Uprooted(h, root, n, items');
      Kids(b, x, root, null) && Sized(b, x, root, cfg.dims) && Link(b, x, root, null) &&
      (x != h[n].parent ==> Filled(b, x, root, cfg) && Tight(b, x))
  {
    var p, b := h[n].parent, Uprooted(h, root, n, items');
    SubOfClosed(h, root, n);
    assert Kids(h, n, root, null) && Kids(h, x, root, null) && Link(h, x, root, null);
    assert Filled(h, x, root, cfg) && Tight(h, x) && Sized(h, x, root, cfg.dims) && Filled(h, p, root, cfg);
    SameBounds(h, b, b[x].items);
  }

  lemma UprootForest(h: Mem, root: Node, cfg: Config, n: Node)
    requires CondenseReady(h, root, cfg, n) && n != root
    ensures Forest(Only(h, SubOf(h, root, n) - {n}), (set c | c in h[n].items), root.lvl, cfg)
  {
    var d := Only(h, SubOf(h, root, n) - {n});
    forall x | x in d
      ensures Pending(d, x, (set c | c in h[n].items), root.lvl, cfg)
    {
      UprootPending(h, root, cfg, n, x);
    }
    SubOfClosed(h, root, n);
    assert Kids(h, n, root, null) && Link(h, n, root, null);
  }

  lemma UprootPending(h: Mem, root: Node, cfg: Config, n: Node, x: Node)
    requires CondenseReady(h, root, cfg, n) && n != root && x in SubOf(h, root, n) && x != n
    ensures Pending(Only(h, SubOf(h, root, n) - {n}), x, (set c | c in h[n].items), root.lvl, cfg)
  {
    var d := Only(h, SubOf(h, root, n) - {n});
    SubOfClosed(h, root, n);
    assert Kids(h, n, root, null) && Link(h, n, root, null);
    assert Kids(h, x, root, null) && Link(h, x, root, null) && Filled(h, x, root, cfg) && Tight(h, x);
    assert Sized(h, x, root, cfg.dims);
    SameBounds(h, d, h[x].items);
  }

  lemma BoundKept(h: Mem, root: Node, cfg: Config, n: Node)
    requires CondenseReady(h, root, cfg, n) && n != root && 1 <= n.lvl && cfg.m <= |h[n].items|
    requires (forall c :: c in h[n].items ==> c in h) && |Mbr(BoundsIn(h, h[n].items))| == cfg.dims
    requires h[n].parent != null && h[n].parent in h
    ensures CondenseReady(WithBound(h, n, Mbr(BoundsIn(h, h[n].items))), root, cfg, h[n].parent)
  {
    var b := WithBound(h, n, Mbr(BoundsIn(h, h[n].items)));
    assert Kids(h, n, root, null) && Filled(h, h[n].parent, root, cfg);
    forall x | x in b
      ensures Kids(b, x, root, null) && Sized(b, x, root, cfg.dims)
      ensures Link(b, x, root, null) && Filled(b, x, root, cfg)
    {
      assert Kids(h, x, root, null) && Sized(h, x, root, cfg.dims) && Link(h, x, root, null);
      if x != n { assert Filled(h, x, root, cfg); }
    }
    forall x | x in b && x != h[n].parent
      ensures Tight(b, x)
    {
      assert Kids(h, x, root, null) && Link(h, x, root, null);
      if x != n { assert Tight(h, x); }
      SameBounds(h, b, h[x].items);
    }
  }

  lemma CondensedRoot(h: Mem, root: Node, cfg: Config)
    requires CondenseReady(h, root, cfg, root) && !cfg.wide
    requires (forall c :: c in h[root].items ==> c in h) && h[root].items != []
    requires |Mbr(BoundsIn(h, h[root].items))| == cfg.dims
    ensures var b := WithBound(h, root, Mbr(BoundsIn(h, h[root].items)));
      Sound(b, root, cfg) && Proper(b, root, cfg)
  {
    assert Kids(h, root, root, null);
    assert Filled(h, root, root, cfg);
    RootSettled(h, root, cfg, true);
  }

  lemma CondensedEmptyRoot(h: Mem, root: Node, cfg: Config)
    requires CondenseReady(h, root, cfg, root) && h[root].items == [] && !cfg.wide
    ensures Sound(h, root, cfg) && Proper(h, root, cfg)
  {
    assert Kids(h, root, root, null);
    forall x | x in h
      ensures Filled(h, x, root, cfg) && Tight(h, x)
    {
    }
  }

  // ----- the end of a deletion -----

  /** The only child of the root becomes the root. */
  lemma Shortened(h: Mem, root: Node, cfg: Config, c: Node)
    requires Sound(h, root, cfg) && Proper(h, root, cfg) && cfg.Fillable() && 2 <= cfg.m
    requires 2 <= root.lvl && h[root].items == [c]
    ensures c in h && c.lvl + 1 == root.lvl
    ensures var b := Only(h, h.Keys - {root})[c := h[c].(parent := null)];
      Sound(b, c, cfg.(wide := true)) && Proper(b, c, cfg.(wide := true))
  {
    assert Kids(h, root, root, null) && Link(h, root, root, null) && Filled(h, c, root, cfg);
    var b, cfg' := Only(h, h.Keys - {root})[c := h[c].(parent := null)], cfg.(wide := true);
    forall x | x in b
      ensures Kids(b, x, c, null) && Sized(b, x, c, cfg.dims)
      ensures Link(b, x, c, null) && Filled(b, x, c, cfg') && Tight(b, x)
    {
      assert Kids(h, x, root, null) && Sized(h, x, root, cfg.dims) && Link(h, x, root, null);
      assert Filled(h, x, root, cfg) && Tight(h, x);
      OnlyRootAtTop(h, root, x);
      SameBounds(h, b, h[x].items);
    }
  }

  lemma OnlyRootAtTop(h: Mem, root: Node, x: Node)
    requires Shape(h, root, null) && x in h && x != root
    ensures x.lvl < root.lvl
  {
    assert Kids(h, x, root, null) && Kids(h, h[x].parent, root, null);
  }

  /** A root with several children, or a leaf, needs no shortening. */
  lemma Widened(h: Mem, root: Node, cfg: Config)
    requires Sound(h, root, cfg) && Proper(h, root, cfg) && (root.lvl == 1 || |h[root].items| >= 2)
    ensures Sound(h, root, cfg.(wide := true)) && Proper(h, root, cfg.(wide := true))
  {
    forall x | x in h
      ensures Filled(h, x, root, cfg.(wide := true))
    {
      assert Filled(h, x, root, cfg);
    }
  }

  /** Nothing is lost when `wide` is no longer asked for. */
  lemma Narrowed(h: Mem, root: Node, cfg: Config)
    requires Sound(h, root, cfg) && Proper(h, root, cfg) && cfg.Fillable() && 2 <= cfg.m && cfg.wide
    ensures forall e :: e in h && e != root ==> CondenseReady(h, root, cfg.(wide := false), e)
  {
    forall x | x in h
      ensures Filled(h, x, root, cfg.(wide := false))
    {
      assert Filled(h, x, root, cfg);
    }
    forall e | e in h && e != root
      ensures CondenseReady(h, root, cfg.(wide := false), e)
    {
      assert Kids(h, e, root, null) && Filled(h, root, root, cfg) && Filled(h, e, root, cfg);
    }
  }
}
