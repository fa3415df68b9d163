/** The R-tree properties, stated on a snapshot of the nodes, and the steps that keep them. */
module RtreeInvariant {
  import opened Boxes
  import opened SplitPolicy
  import opened RtreeNodes

  /** What the nodes of a tree hold at one moment. */
  datatype NodeState = NodeState(items: seq<Node>, parent: Node?, bound: Box)
  type Mem = map<Node, NodeState>

  ghost predicate IsSnapshot(h: Mem, nodes: set<Node>)
    reads nodes
  {
    h.Keys == nodes && forall x {:trigger h[x]} :: x in nodes ==> h[x] == NodeState(x.items, x.parent, x.bound)
  }

  lemma {:induction false} SnapshotExists(nodes: set<Node>)
    ensures exists h :: IsSnapshot(h, nodes)
    decreases nodes
  {
    if nodes == {} {
      assert IsSnapshot(map[], nodes);
    } else {
      var x :| x in nodes;
      SnapshotExists(nodes - {x});
      var h :| IsSnapshot(h, nodes - {x});
      assert IsSnapshot(h[x := NodeState(x.items, x.parent, x.bound)], nodes);
    }
  }

  ghost function Snapshot(nodes: set<Node>): (h: Mem)
    reads nodes
    ensures IsSnapshot(h, nodes)
  {
    SnapshotExists(nodes);
    var h :| IsSnapshot(h, nodes);
    h
  }

  /** The tree's parameters: between `m` and `M` entries a node, boxes with `dims` axes; `wide` asks
      for a root with at least two children unless it is a leaf. */
  datatype Config = Config(m: nat, M: nat, dims: nat, wide: bool) {
    /** A full node has enough entries for two groups. */
    ghost predicate Fillable() {
      1 <= m && 2 * m <= M + 1
    }
  }

  ghost function SetOf(items: seq<Node>): set<Node> {
    set c | c in items
  }

  /** The data entries among the nodes. */
  ghost function DataOf(nodes: set<Node>): set<Node> {
    set x | x in nodes && x.lvl == 0
  }

  lemma DataOfMore(nodes: set<Node>, x: Node)
    ensures DataOf(nodes + {x}) == if x.lvl == 0 then DataOf(nodes) + {x} else DataOf(nodes)
  {
  }

  // ----- what holds of one node -----

  /** The children of `x` belong to the tree and are one level down, its parent is one level up
      unless `x` has none yet, and only data entries hold objects. */
  ghost predicate Kids(h: Mem, x: Node, root: Node, hole: Node?)
    requires x in h
  {
    x.lvl <= root.lvl && (x.isLeaf <==> x.lvl == 1) && (x.lvl == 0 ==> h[x].items == []) &&
    (forall c :: c in h[x].items ==> c in h && c.lvl + 1 == x.lvl) &&
    (x.lvl >= 2 || (x.lvl == 1 && x != root) ==> h[x].items != []) && (x.lvl >= 1 ==> x.leaf == NO_OBJECT) &&
    (x != root && x != hole ==> h[x].parent != null && h[x].parent in h && h[x].parent.lvl == x.lvl + 1)
  }

  ghost predicate Sized(h: Mem, x: Node, root: Node, dims: nat)
    requires x in h
  {
    |h[x].bound| == dims || (x == root && h[x].items == [] && h[x].bound == [])
  }

  /** `x` is its children's parent and, unless it is the hole, a child of its parent. */
  ghost predicate Link(h: Mem, x: Node, root: Node, hole: Node?)
    requires x in h
  {
    Distinct(h[x].items) && (forall c :: c in h[x].items ==> c in h && h[c].parent == x && c != hole) &&
    (x != root && x != hole ==> h[x].parent != null && h[x].parent in h && x in h[h[x].parent].items)
  }

  /** Between `m` and `M` entries. */
  ghost predicate Filled(h: Mem, x: Node, root: Node, cfg: Config)
    requires x in h
  {
    (x.lvl > 0 ==> |h[x].items| <= cfg.M) &&
    (cfg.Fillable() && x.lvl > 0 && x != root ==> cfg.m <= |h[x].items|) &&
    (cfg.wide && x.lvl >= 2 && x == root ==> 2 <= |h[x].items|)
  }

  ghost function BoundsIn(h: Mem, items: seq<Node>): (boxes: seq<Box>)
    requires forall c :: c in items ==> c in h
    ensures |boxes| == |items|
  {
    seq(|items|, i requires 0 <= i < |items| => h[items[i]].bound)
  }

  ghost function EntriesIn(h: Mem, items: seq<Node>): (es: seq<Entry<Node>>)
    requires forall c :: c in items ==> c in h
    ensures |es| == |items|
  {
    seq(|items|, i requires 0 <= i < |items| => Entry(h[items[i]].bound, items[i]))
  }

  /** The bound is the exact union of the entries' bounds; a data entry has its object's. */
  ghost predicate Tight(h: Mem, x: Node)
    requires x in h
  {
    (x.lvl == 0 ==> h[x].bound == x.leaf.bound) &&
    (h[x].items != [] ==>
      (forall c :: c in h[x].items ==> c in h) && h[x].bound == Mbr(BoundsIn(h, h[x].items)))
  }

  // ----- what holds of the whole tree; `hole` has no place below the root yet -----

  ghost predicate Shape(h: Mem, root: Node, hole: Node?) {
    root in h && h[root].parent == null && 1 <= root.lvl && root != hole &&
    (hole != null ==> hole in h) &&
    (forall x {:trigger Kids(h, x, root, hole)} :: x in h ==> Kids(h, x, root, hole))
  }

  ghost predicate AllSized(h: Mem, root: Node, dims: nat, loose: set<Node>) {
    forall x {:trigger Sized(h, x, root, dims)} :: x in h && x !in loose ==> Sized(h, x, root, dims)
  }

  ghost predicate AllLinked(h: Mem, root: Node, hole: Node?) {
    forall x {:trigger Link(h, x, root, hole)} :: x in h ==> Link(h, x, root, hole)
  }

  ghost predicate AllFilled(h: Mem, root: Node, cfg: Config, over: Node?) {
    forall x {:trigger Filled(h, x, root, cfg)} :: x in h && x != over ==> Filled(h, x, root, cfg)
  }

  ghost predicate AllTight(h: Mem, loose: set<Node>) {
    forall x {:trigger Tight(h, x)} :: x in h && x !in loose ==> Tight(h, x)
  }

  /** What every run keeps, whatever its splits did: no dangling neighbour, all leaves on one level. */
  ghost predicate Sound(h: Mem, root: Node, cfg: Config) {
    2 <= cfg.M && Shape(h, root, null) && AllSized(h, root, cfg.dims, {})
  }

  /** The R-tree properties. */
  ghost predicate Proper(h: Mem, root: Node, cfg: Config) {
    AllLinked(h, root, null) && AllFilled(h, root, cfg, null) && AllTight(h, {})
  }

  // ----- the way down by least enlargement -----

  /** From `x` down to level `lvl`, always through an entry of least enlargement: this leads to `l`. */
  ghost predicate Descends(h: Mem, root: Node, x: Node, bound: Box, lvl: nat, l: Node)
    requires Shape(h, root, null) && x in h
    decreases x.lvl, 1
  {
    if x.lvl <= lvl then l == x else exists i :: DescendsBy(h, root, x, bound, lvl, l, i)
  }

  ghost predicate DescendsBy(h: Mem, root: Node, x: Node, bound: Box, lvl: nat, l: Node, i: nat)
    requires Shape(h, root, null) && x in h && lvl < x.lvl
    decreases x.lvl, 0
  {
    Kids(h, x, root, null) && i < |h[x].items| &&
    LeastEnlargement(BoundsIn(h, h[x].items), bound, i) && TieRule(BoundsIn(h, h[x].items), bound, i) &&
    Descends(h, root, h[x].items[i], bound, lvl, l)
  }

  // ----- splitting a node -----

  ghost predicate SplitReady(h: Mem, root: Node, cfg: Config, n: Node, clean: bool) {
    2 <= cfg.M && Shape(h, root, null) && n in h && 1 <= n.lvl && AllSized(h, root, cfg.dims, {}) &&
    |h[n].items| >= 2 &&
    (clean ==> |h[n].items| == cfg.M + 1 && AllLinked(h, root, null) && AllFilled(h, root, cfg, n) && AllTight(h, {n}))
  }

  ghost function Pair(n: Node, nn: Node?): set<Node> {
    if nn == null then {n} else {n, nn}
  }

  /** The size of a group; whether it is enough for a root depends on the partner. */
  ghost predicate GroupOk(h: Mem, cfg: Config, n: Node)
    requires n in h
  {
    |h[n].items| <= cfg.M && (cfg.Fillable() ==> cfg.m <= |h[n].items|)
  }

  /** What `adjustTree` starts from: the bounds of `n` and of its partner `nn`, if there is one, are
      still to be computed, and the partner is still to be attached. */
  ghost predicate AdjustReady(h: Mem, root: Node, cfg: Config, n: Node, nn: Node?, clean: bool) {
    2 <= cfg.M && Shape(h, root, nn) && n in h && 1 <= n.lvl && h[n].items != [] &&
    (nn != null ==> n != nn && n.lvl == nn.lvl && h[n].parent == h[nn].parent && h[nn].items != []) &&
    AllSized(h, root, cfg.dims, Pair(root, nn)) && (n != root ==> Sized(h, root, root, cfg.dims)) &&
    (clean ==> AdjustProper(h, root, cfg, n, nn))
  }

  ghost predicate AdjustProper(h: Mem, root: Node, cfg: Config, n: Node, nn: Node?)
    requires n in h
  {
    AllLinked(h, root, nn) && AllFilled(h, root, cfg, n) && AllTight(h, Pair(n, nn)) &&
    (if nn == null then Filled(h, n, root, cfg) else GroupOk(h, cfg, n))
  }

  /** The effect of `SplitNode` on the nodes. */
  ghost predicate SplitStep(a: Mem, b: Mem, n: Node, nn: Node, one: seq<Node>, two: seq<Node>) {
    n in a && nn !in a && b.Keys == a.Keys + {nn} && nn.isLeaf == n.isLeaf && nn.lvl == n.lvl && nn.leaf == n.leaf &&
    b[n] == NodeState(one, a[n].parent, a[n].bound) && b[nn] == NodeState(two, a[n].parent, []) &&
    one != [] && two != [] &&
    (forall c :: c in one ==> c in a[n].items && c in b && (b[c].parent == n || (b[c].parent == nn && c in two))) &&
    (forall c :: c in two ==> c in a[n].items && c in b && (b[c].parent == nn || (b[c].parent == n && c in one))) &&
    (forall x :: x in a && x != n ==> b[x].items == a[x].items && b[x].bound == a[x].bound) &&
    (forall x :: x in a && x !in a[n].items ==> b[x].parent == a[x].parent) &&
    (forall x :: x in a[n].items && x in a ==> b[x].parent == a[x].parent || b[x].parent == n || b[x].parent == nn)
  }

  lemma SplitKeepsShape(a: Mem, b: Mem, root: Node, n: Node, nn: Node, one: seq<Node>, two: seq<Node>)
    requires Shape(a, root, null) && SplitStep(a, b, n, nn, one, two) && n.lvl >= 1
    ensures Shape(b, root, nn)
  {
    assert Kids(a, n, root, null) && Kids(a, root, root, null);
    forall x | x in b
      ensures Kids(b, x, root, nn)
    {
      if x in a {
        assert Kids(a, x, root, null);
      }
    }
  }

  /** A split changes neither bounds nor anything above the divided node. */
  lemma SplitLeavesRest(a: Mem, b: Mem, root: Node, n: Node, nn: Node, one: seq<Node>, two: seq<Node>)
    requires Shape(a, root, null) && SplitStep(a, b, n, nn, one, two)
    ensures SplitFrame(a, b, root, n)
  {
    assert Kids(a, n, root, null);
    forall x | x in a
      ensures x in b && b[x].bound == a[x].bound && (x.lvl > n.lvl ==> b[x] == a[x])
    {
    }
  }

  lemma SplitKeepsSized(a: Mem, b: Mem, root: Node, dims: nat, n: Node, nn: Node, one: seq<Node>, two: seq<Node>)
    requires SplitStep(a, b, n, nn, one, two) && AllSized(a, root, dims, {}) && root in a && a[n].items != []
    ensures AllSized(b, root, dims, {nn})
  {
    forall x | x in b && x != nn
      ensures Sized(b, x, root, dims)
    {
      assert Sized(a, x, root, dims);
    }
  }

  /** `one` and `two` divide the entries of `n` without loss or duplication. */
  ghost predicate Divides(items: seq<Node>, one: seq<Node>, two: seq<Node>) {
    Distinct(one) && Distinct(two) &&
    (forall c :: c in items ==> c in one || c in two) && (forall c :: c in one ==> c in items && c !in two) &&
    (forall c :: c in two ==> c in items)
  }

  /** The seeds of the split are two entries, and it comes upon no full tie. */
  ghost predicate CleanSplit(es: seq<Entry<Node>>, m: nat, dims: nat, bound: Box) {
    |es| >= 2 && (forall i :: 0 <= i < |es| ==> |es[i].box| == dims) && !SeedsCoincide(BoxesOf(es), dims) &&
    NoFullTie(m, bound, [], Start(dims, es))
  }

  // ----- the log of splits -----

  /** `node`, holding `entries` and having the bound `bound`, was divided with the new node `partner`. */
  datatype SplitEvent = SplitEvent(node: Node, partner: Node, entries: seq<Entry<Node>>, bound: Box)

  ghost predicate AllClean(log: seq<SplitEvent>, m: nat, dims: nat) {
    forall i :: 0 <= i < |log| ==> CleanSplit(log[i].entries, m, dims, log[i].bound)
  }

  /** The entries of the logged splits are below level `top` and still have the boxes they had then. */
  ghost predicate Recorded(log: seq<SplitEvent>, h: Mem, top: nat) {
    forall i, j :: 0 <= i < |log| && 0 <= j < |log[i].entries| ==>
      var e := log[i].entries[j]; e.item in h && h[e.item].bound == e.box && e.item.lvl < top
  }

  /** The bounds of the nodes below level `l` are as before. */
  ghost predicate SameBoundsBelow(a: Mem, b: Mem, l: nat) {
    a.Keys <= b.Keys && forall x {:trigger b[x]} :: x in a && x.lvl < l ==> b[x].bound == a[x].bound
  }

  lemma RecordedMore(first: seq<SplitEvent>, rest: seq<SplitEvent>, a: Mem, b: Mem, l: nat, top: nat)
    requires Recorded(first, a, l) && Recorded(rest, b, top) && SameBoundsBelow(a, b, l) && l <= top
    ensures Recorded(first + rest, b, top)
  {
    var log := first + rest;
    forall i, j | 0 <= i < |log| && 0 <= j < |log[i].entries|
      ensures var e := log[i].entries[j]; e.item in b && b[e.item].bound == e.box && e.item.lvl < top
    {
      if i < |first| {
        assert log[i] == first[i];
      } else {
        assert log[i] == rest[i - |first|];
      }
    }
  }

  ghost function Partners(log: seq<SplitEvent>): set<Node> {
    if log == [] then {} else {log[0].partner} + Partners(log[1..])
  }

  /** Every split was of a node with more than `M` entries. */
  ghost predicate Overfull(log: seq<SplitEvent>, M: nat) {
    forall i :: 0 <= i < |log| ==> M < |log[i].entries|
  }

  /** `x` of the tree `h` now holds `items`, and `log` is what follows: nothing if there is room, and
      otherwise the split of `x` and, unless `x` is the root, what follows when its parent receives
      the partner. So the splits are those of an unbroken chain of full nodes upward from `x`. */
  ghost predicate SplitRun(h: Mem, root: Node, x: Node, items: seq<Node>, log: seq<SplitEvent>, M: nat)
    decreases |log|
  {
    x in h &&
    if log == [] then |items| <= M else
    M < |items| && log[0].node == x && log[0].bound == h[x].bound && ItemsOf(log[0].entries) == items &&
    log[0].partner !in h && log[0].partner.lvl == x.lvl &&
    if x == root then |log| == 1 else
    var p := h[x].parent;
    p != null && p in h && SplitRun(h, root, p, h[p].items + [log[0].partner], log[1..], M)
  }

  /** What `adjustTree` adds to the log when it starts from `n` and its partner. */
  ghost predicate AdjustLog(h: Mem, root: Node, n: Node, nn: Node?, log: seq<SplitEvent>, M: nat) {
    n in h &&
    if nn == null || n == root then log == [] else
    var p := h[n].parent;
    p != null && p in h && SplitRun(h, root, p, h[p].items + [nn], log, M)
  }

  /** One split, or none when there is room. */
  ghost predicate SplitOnce(h: Mem, x: Node, items: seq<Node>, xx: Node?, log: seq<SplitEvent>, M: nat) {
    x in h &&
    if |items| <= M then xx == null && log == [] else
    xx != null && xx !in h && xx.lvl == x.lvl && |log| == 1 && log[0].node == x && log[0].partner == xx &&
    log[0].bound == h[x].bound && ItemsOf(log[0].entries) == items
  }

  lemma OneSplit(a: Mem, b: Mem, root: Node, x: Node, xx: Node, log: seq<SplitEvent>)
    requires SplitFrame(a, b, root, x) && x.lvl <= root.lvl && forall c :: c in a[x].items ==> c in a && c.lvl < x.lvl
    requires |log| == 1 && log[0] == SplitEvent(x, xx, EntriesIn(a, a[x].items), a[x].bound)
    ensures ItemsOf(log[0].entries) == a[x].items && Recorded(log, b, x.lvl) && Partners(log) == {xx}
  {
    assert log[1..] == [];
  }

  /** The nodes above level `l` are as before. */
  ghost predicate SameAbove(a: Mem, b: Mem, l: nat) {
    forall x {:trigger x in a} {:trigger b[x]} :: x in a && x.lvl > l ==> x in b && b[x] == a[x]
  }

  /** A run of splits reads only the nodes from `x` upward. */
  lemma {:induction false} SameRun(a: Mem, b: Mem, root: Node, hole: Node?, x: Node, items: seq<Node>,
                                   log: seq<SplitEvent>, M: nat)
    requires Shape(a, root, hole) && x in a && SameAbove(a, b, x.lvl) && (hole == null || hole.lvl < x.lvl)
    requires x in b && b[x].bound == a[x].bound && b[x].parent == a[x].parent && a.Keys <= b.Keys
    requires SplitRun(b, root, x, items, log, M)
    ensures SplitRun(a, root, x, items, log, M)
    decreases |log|
  {
    if log != [] && x != root {
      var p := a[x].parent;
      assert Kids(a, x, root, hole);
      SameRun(a, b, root, hole, p, a[p].items + [log[0].partner], log[1..], M);
    }
  }

  /** A first split is followed by what its partner causes above. */
  lemma RunStep(a: Mem, b: Mem, root: Node, hole: Node?, x: Node, items: seq<Node>, xx: Node?,
                first: seq<SplitEvent>, rest: seq<SplitEvent>, M: nat)
    requires Shape(a, root, hole) && x in a && SameAbove(a, b, x.lvl) && (hole == null || hole.lvl <= x.lvl) &&
      x != hole
    requires x in b && b[x].parent == a[x].parent && a.Keys <= b.Keys
    requires SplitOnce(a, x, items, xx, first, M) && AdjustLog(b, root, x, xx, rest, M)
    ensures SplitRun(a, root, x, items, first + rest, M)
    ensures Partners(first + rest) == Partners(first) + Partners(rest)
  {
    if first != [] {
      var log := first + rest;
      assert log[0] == first[0] && log[1..] == rest;
      assert first[1..] == [];
      assert Kids(a, x, root, hole);
      if x != root {
        var p := a[x].parent;
        SameRun(a, b, root, hole, p, a[p].items + [xx], rest, M);
      }
    } else {
      assert first + rest == [];
    }
  }

  // ----- one level of `adjustTree` and the log -----

  /** What a split leaves as it was. */
  ghost predicate SplitFrame(a: Mem, b: Mem, root: Node, n: Node) {
    n in a && SameAbove(a, b, n.lvl) && SameBoundsBelow(a, b, root.lvl + 1) && b[n].parent == a[n].parent
  }

  /** What the step to the node `p` leaves as it was. */
  ghost predicate ClimbFrame(a: Mem, b: Mem, p: Node) {
    p in a && 1 <= p.lvl && SameAbove(a, b, p.lvl) && SameBoundsBelow(a, b, p.lvl - 1) &&
    b[p].parent == a[p].parent && b[p].bound == a[p].bound
  }

  lemma ClimbFrames(a: Mem, b: Mem, c: Mem, p: Node)
    requires ClimbFrame(a, b, p) && ClimbFrame(b, c, p)
    ensures ClimbFrame(a, c, p)
  {
  }

  lemma PartnerFrame(h: Mem, p: Node, nn: Node, bound: Box)
    requires p in h && nn in h && nn.lvl + 1 == p.lvl
    ensures ClimbFrame(h, WithChild(WithBound(h, nn, bound), p, nn), p)
  {
  }

  lemma DataFrame(h: Mem, p: Node, c: Node, bound: Box)
    requires p in h && c !in h && c.lvl + 1 == p.lvl
    ensures ClimbFrame(h, WithChild(h[c := NodeState([], null, bound)], p, c), p)
  {
  }

  /** A node receives a partner and is split if it is overfull then. */
  lemma ReceiveStep(a: Mem, b: Mem, c: Mem, root: Node, p: Node, nn: Node, pp: Node?, log: seq<SplitEvent>, M: nat)
    requires ClimbFrame(a, b, p) && SplitFrame(b, c, root, p) && p.lvl <= root.lvl
    requires b[p].items == a[p].items + [nn] && SplitOnce(b, p, b[p].items, pp, log, M)
    ensures ClimbFrame(a, c, p) && SplitOnce(a, p, a[p].items + [nn], pp, log, M)
  {
    assert ClimbFrame(b, c, p);
    ClimbFrames(a, b, c, p);
  }

  /** One level: the parent of `n` is next, and it is split if it was full and receives a partner. */
  ghost predicate ClimbEffect(a: Mem, b: Mem, root: Node, n: Node, nn: Node?, p: Node, pp: Node?, log: seq<SplitEvent>,
                              M: nat) {
    n in a && p == a[n].parent && p.lvl == n.lvl + 1 <= root.lvl && ClimbFrame(a, b, p) &&
    (if nn == null then pp == null && log == [] else SplitOnce(a, p, a[p].items + [nn], pp, log, M)) &&
    Recorded(log, b, p.lvl) && b.Keys == a.Keys + Partners(log)
  }

  /** First the bound of `n` is stored in the parent, then the parent receives the partner, if any. */
  lemma ClimbStep(a: Mem, b: Mem, c: Mem, root: Node, n: Node, nn: Node?, p: Node, pp: Node?, log: seq<SplitEvent>,
                  M: nat)
    requires n in a && p == a[n].parent && p.lvl == n.lvl + 1 <= root.lvl
    requires ClimbFrame(a, b, p) && b[p].items == a[p].items && b.Keys == a.Keys
    requires nn == null ==> c == b && pp == null && log == []
    requires nn != null ==> ClimbFrame(b, c, p) && SplitOnce(b, p, b[p].items + [nn], pp, log, M) &&
                            Recorded(log, c, p.lvl) && c.Keys == b.Keys + Partners(log)
    ensures ClimbEffect(a, c, root, n, nn, p, pp, log, M)
  {
    if nn != null {
      ClimbFrames(a, b, c, p);
    }
  }

  /** All of `adjustTree`: the root has a partner exactly if every node on the way up was split. */
  ghost predicate AdjustEffect(a: Mem, b: Mem, root: Node, n: Node, nn: Node?, pp: Node?, log: seq<SplitEvent>,
                               M: nat) {
    AdjustLog(a, root, n, nn, log, M) && (pp != null <==> nn != null && n.lvl + |log| == root.lvl) &&
    Recorded(log, b, root.lvl) && b.Keys == a.Keys + Partners(log) && SameBoundsBelow(a, b, n.lvl)
  }

  lemma AdjustStep(a: Mem, b: Mem, c: Mem, root: Node, n: Node, nn: Node?, p: Node, q: Node?, pp: Node?,
                   first: seq<SplitEvent>, rest: seq<SplitEvent>, M: nat)
    requires Shape(a, root, nn) && n in a && n != root && (nn == null || nn.lvl == n.lvl)
    requires ClimbEffect(a, b, root, n, nn, p, q, first, M) && AdjustEffect(b, c, root, p, q, pp, rest, M)
    ensures AdjustEffect(a, c, root, n, nn, pp, first + rest, M)
  {
    RecordedMore(first, rest, b, c, p.lvl, root.lvl);
    if nn == null {
      assert first + rest == [];
    } else {
      RunStep(a, b, root, nn, p, a[p].items + [nn], q, first, rest, M);
      if q == null { assert first + rest == []; }
    }
  }

  /** The node `x` holds `items`, is split if these are too many, and its ancestors are adjusted. */
  ghost predicate SettleEffect(a: Mem, b: Mem, root: Node, x: Node, items: seq<Node>, pp: Node?, log: seq<SplitEvent>,
                               M: nat) {
    SplitRun(a, root, x, items, log, M) && (pp != null <==> x.lvl + |log| == root.lvl + 1) &&
    Recorded(log, b, root.lvl) && b.Keys == a.Keys + Partners(log)
  }

  lemma SettleStep(a: Mem, b: Mem, c: Mem, root: Node, x: Node, items: seq<Node>, xx: Node?, pp: Node?,
                   first: seq<SplitEvent>, rest: seq<SplitEvent>, M: nat)
    requires Shape(a, root, null) && SplitFrame(a, b, root, x) && 1 <= x.lvl <= root.lvl
    requires SplitOnce(a, x, items, xx, first, M) && Recorded(first, b, x.lvl) && b.Keys == a.Keys + Partners(first)
    requires AdjustEffect(b, c, root, x, xx, pp, rest, M)
    ensures SettleEffect(a, c, root, x, items, pp, first + rest, M)
  {
    RecordedMore(first, rest, b, c, x.lvl, root.lvl);
    RunStep(a, b, root, null, x, items, xx, first, rest, M);
    if first == [] {
      assert first + rest == [];
    }
  }

  /** The whole insertion of the nodes `added`: besides them the tree has the partners of the splits
      and, if all nodes from `x` to the root were split, a new root. */
  ghost predicate InsertEffect(a: Mem, b: Mem, root: Node, root': Node, x: Node, items: seq<Node>, added: set<Node>,
                               log: seq<SplitEvent>, M: nat) {
    SplitRun(a, root, x, items, log, M) && Recorded(log, b, root'.lvl) &&
    if x.lvl + |log| == root.lvl + 1 then
      root'.lvl == root.lvl + 1 && root' !in a && b.Keys == a.Keys + added + Partners(log) + {root'}
    else
      root' == root && b.Keys == a.Keys + added + Partners(log)
  }

  lemma InsertStep(a: Mem, b: Mem, c: Mem, root: Node, root': Node, l: Node, e: Node, added: set<Node>,
                   log: seq<SplitEvent>, M: nat)
    requires Shape(a, root, null) && l in a && b.Keys == a.Keys + added
    requires ClimbFrame(a, b, l) && b[l].items == a[l].items + [e]
    requires InsertEffect(b, c, root, root', l, b[l].items, {}, log, M)
    ensures InsertEffect(a, c, root, root', l, a[l].items + [e], added, log, M)
  {
    SameRun(a, b, root, null, l, b[l].items, log, M);
  }

  lemma LogParts(before: seq<SplitEvent>, mid: seq<SplitEvent>, after: seq<SplitEvent>)
    requires before <= mid <= after
    ensures before <= after && after[|before|..] == mid[|before|..] + after[|mid|..]
  {
  }

  /** The log only grew, by splits of nodes with more than `M` entries. */
  ghost predicate LogGrows(before: seq<SplitEvent>, after: seq<SplitEvent>, M: nat) {
    before <= after && Overfull(after[|before|..], M)
  }

  lemma LogGrowsOn(before: seq<SplitEvent>, mid: seq<SplitEvent>, after: seq<SplitEvent>, M: nat)
    requires LogGrows(before, mid, M) && LogGrows(mid, after, M)
    ensures LogGrows(before, after, M)
  {
    assert after[|before|..] == mid[|before|..] + after[|mid|..];
  }

  lemma CleanBefore(before: seq<SplitEvent>, after: seq<SplitEvent>, M: nat, m: nat, dims: nat)
    requires LogGrows(before, after, M) && AllClean(after, m, dims)
    ensures AllClean(before, m, dims)
  {
    assert forall i :: 0 <= i < |before| ==> before[i] == after[i];
  }

  lemma {:induction false} RunIsOverfull(h: Mem, root: Node, x: Node, items: seq<Node>, log: seq<SplitEvent>, M: nat)
    requires SplitRun(h, root, x, items, log, M)
    ensures Overfull(log, M)
    decreases |log|
  {
    if log != [] {
      assert |log[0].entries| == |items|;
      if x != root {
        var p := h[x].parent;
        RunIsOverfull(h, root, p, h[p].items + [log[0].partner], log[1..], M);
      }
    }
  }

  lemma InsertIsOverfull(a: Mem, b: Mem, root: Node, root': Node, x: Node, items: seq<Node>, added: set<Node>,
                         log: seq<SplitEvent>, M: nat)
    requires InsertEffect(a, b, root, root', x, items, added, log, M)
    ensures Overfull(log, M)
  {
    RunIsOverfull(a, root, x, items, log, M);
  }

  lemma CleanMore(log: seq<SplitEvent>, event: SplitEvent, m: nat, dims: nat)
    ensures AllClean(log + [event], m, dims) <==>
      AllClean(log, m, dims) && CleanSplit(event.entries, m, dims, event.bound)
  {
    var all := log + [event];
    assert all[|log|] == event && forall i :: 0 <= i < |log| ==> all[i] == log[i];
  }

  /** A clean split of a full node is a division into two groups of admissible size. */
  lemma CleanSplitDivides(es: seq<Entry<Node>>, cfg: Config, bound: Box)
    requires 2 <= |es| == cfg.M + 1 && forall i :: 0 <= i < |es| ==> |es[i].box| == cfg.dims
    requires DistinctItems(es) && CleanSplit(es, cfg.m, cfg.dims, bound)
    ensures var g := Split(cfg.m, cfg.dims, bound, es);
      var one, two := ItemsOf(g.one), ItemsOf(g.two);
      Divides(ItemsOf(es), one, two) && |one| <= cfg.M && |two| <= cfg.M &&
      (cfg.Fillable() ==> cfg.m <= |one| && cfg.m <= |two|)
  {
    var g := Split(cfg.m, cfg.dims, bound, es);
    LostIffFullTie(cfg.m, bound, [], Start(cfg.dims, es));
    SplitPartitionsIff(cfg.m, cfg.dims, bound, es);
    PartitionOfItems(es, g.one, g.two);
    assert |multiset(g.one) + multiset(g.two)| == |g.one| + |g.two| == |es|;
    assert Divides(ItemsOf(es), ItemsOf(g.one), ItemsOf(g.two));
    if cfg.Fillable() {
      SplitFills(cfg.m, cfg.dims, bound, es);
    }
  }

  lemma SplitPool(h: Mem, root: Node, cfg: Config, n: Node, clean: bool)
    requires SplitReady(h, root, cfg, n, clean)
    ensures n.leaf == NO_OBJECT && |h[n].bound| == cfg.dims
    ensures forall c :: c in h[n].items ==> c in h && c != n && |h[c].bound| == cfg.dims
  {
    assert Kids(h, n, root, null) && Sized(h, n, root, cfg.dims);
    forall c | c in h[n].items
      ensures |h[c].bound| == cfg.dims
    {
      assert Sized(h, c, root, cfg.dims);
    }
  }

  /** The split keeps the tree ready for adjustment; it stays clean if the split was. */
  lemma SplitOutcome(a: Mem, b: Mem, root: Node, cfg: Config, n: Node, nn: Node, es: seq<Entry<Node>>, clean: bool)
    requires SplitReady(a, root, cfg, n, clean) && ItemsOf(es) == a[n].items
    requires |es| >= 2 && forall i :: 0 <= i < |es| ==> |es[i].box| == cfg.dims
    requires var g := Split(cfg.m, cfg.dims, a[n].bound, es);
      SplitStep(a, b, n, nn, ItemsOf(g.one), ItemsOf(g.two))
    ensures AdjustReady(b, root, cfg, n, nn, clean && CleanSplit(es, cfg.m, cfg.dims, a[n].bound))
  {
    var g := Split(cfg.m, cfg.dims, a[n].bound, es);
    if clean && CleanSplit(es, cfg.m, cfg.dims, a[n].bound) {
      assert Link(a, n, root, null);
      assert DistinctItems(es) by {
        assert forall k :: 0 <= k < |es| ==> es[k].item == a[n].items[k];
      }
      CleanSplitDivides(es, cfg, a[n].bound);
    }
    SplitIsReady(a, b, root, cfg, n, nn, ItemsOf(g.one), ItemsOf(g.two), clean,
                 clean && CleanSplit(es, cfg.m, cfg.dims, a[n].bound));
  }

  lemma SplitKeepsLinked(a: Mem, b: Mem, root: Node, n: Node, nn: Node, one: seq<Node>, two: seq<Node>)
    requires SplitStep(a, b, n, nn, one, two) && Divides(a[n].items, one, two) && n.lvl >= 1
    requires Shape(a, root, null) && AllLinked(a, root, null)
    ensures AllLinked(b, root, nn)
  {
    assert Kids(a, n, root, null) && Link(a, n, root, null);
    forall x | x in b
      ensures Link(b, x, root, nn)
    {
      if x in a && x != n {
        assert Kids(a, x, root, null) && Link(a, x, root, null);
        forall c | c in a[x].items
          ensures b[c].parent == x
        {
          assert a[c].parent == x;
        }
        if x in a[n].items {
        } else if x != root {
          assert a[x].parent != n;
        }
      }
    }
  }

  lemma SplitKeepsFilled(a: Mem, b: Mem, root: Node, cfg: Config, n: Node, nn: Node, one: seq<Node>, two: seq<Node>)
    requires SplitStep(a, b, n, nn, one, two) && root in a && AllFilled(a, root, cfg, n)
    requires |one| <= cfg.M && |two| <= cfg.M && n.lvl >= 1
    requires cfg.Fillable() ==> cfg.m <= |one| && cfg.m <= |two|
    ensures AllFilled(b, root, cfg, n) && GroupOk(b, cfg, n)
  {
    forall x | x in b && x != n
      ensures Filled(b, x, root, cfg)
    {
      if x in a {
        assert Filled(a, x, root, cfg);
      }
    }
  }

  lemma SplitIsReady(a: Mem, b: Mem, root: Node, cfg: Config, n: Node, nn: Node, one: seq<Node>, two: seq<Node>,
                     clean: bool, clean': bool)
    requires SplitReady(a, root, cfg, n, clean) && SplitStep(a, b, n, nn, one, two) && (clean' ==> clean)
    requires clean' ==> Divides(a[n].items, one, two) && |one| <= cfg.M && |two| <= cfg.M &&
                        (cfg.Fillable() ==> cfg.m <= |one| && cfg.m <= |two|)
    ensures AdjustReady(b, root, cfg, n, nn, clean')
  {
    SplitKeepsShape(a, b, root, n, nn, one, two);
    SplitKeepsSized(a, b, root, cfg.dims, n, nn, one, two);
    if clean' {
      SplitKeepsLinked(a, b, root, n, nn, one, two);
      SplitKeepsFilled(a, b, root, cfg, n, nn, one, two);
      SplitKeepsTight(a, b, root, n, nn, one, two);
    }
  }

  lemma SplitKeepsTight(a: Mem, b: Mem, root: Node, n: Node, nn: Node, one: seq<Node>, two: seq<Node>)
    requires SplitStep(a, b, n, nn, one, two) && Shape(a, root, null) && AllTight(a, {n})
    ensures AllTight(b, {n, nn})
  {
    forall x | x in b && x !in {n, nn}
      ensures Tight(b, x)
    {
      assert Kids(a, x, root, null) && Tight(a, x);
      SameBounds(a, b, a[x].items);
    }
  }

  lemma SameBounds(a: Mem, b: Mem, items: seq<Node>)
    requires forall c :: c in items ==> c in a && c in b && a[c].bound == b[c].bound
    ensures BoundsIn(a, items) == BoundsIn(b, items)
  {
  }

  // ----- one level of `adjustTree` -----

  ghost function WithBound(h: Mem, x: Node, bound: Box): Mem
    requires x in h
  {
    h[x := h[x].(bound := bound)]
  }

  ghost function WithChild(h: Mem, p: Node, c: Node): Mem
    requires p in h && c in h
  {
    var h' := h[p := h[p].(items := h[p].items + [c])];
    h'[c := h'[c].(parent := p)]
  }

  lemma MbrSized(h: Mem, root: Node, dims: nat, n: Node, loose: set<Node>)
    requires n in h && h[n].items != [] && AllSized(h, root, dims, loose)
    requires forall c :: c in h[n].items ==> c in h && c !in loose && c != root
    ensures |Mbr(BoundsIn(h, h[n].items))| == dims
  {
    forall i | 0 <= i < |h[n].items|
      ensures |BoundsIn(h, h[n].items)[i]| == dims
    {
      assert Sized(h, h[n].items[i], root, dims);
    }
    MbrDim(BoundsIn(h, h[n].items), dims);
  }

  /** After the bound of `n` is stored in the entry `en` of its parent, only the parent's bound is stale. */
  ghost predicate Raised(h: Mem, root: Node, cfg: Config, p: Node, nn: Node?, clean: bool) {
    2 <= cfg.M && Shape(h, root, nn) && p in h && 2 <= p.lvl && AllSized(h, root, cfg.dims, Pair(p, nn) - {p}) &&
    (clean ==> AllLinked(h, root, nn) && AllFilled(h, root, cfg, null) && AllTight(h, Pair(p, nn)))
  }

  lemma RaisedIsReady(h: Mem, root: Node, cfg: Config, p: Node, clean: bool)
    requires Raised(h, root, cfg, p, null, clean)
    ensures AdjustReady(h, root, cfg, p, null, clean)
  {
    assert Kids(h, p, root, null) && Sized(h, root, root, cfg.dims);
    forall x | x in h
      ensures Sized(h, x, root, cfg.dims) && (clean ==> Filled(h, x, root, cfg))
    {
    }
  }

  lemma BoundStored(h: Mem, root: Node, cfg: Config, n: Node, nn: Node?, en: Node, clean: bool)
    requires AdjustReady(h, root, cfg, n, nn, clean) && n != root && nn != root
    requires h[n].parent != null && h[n].parent in h && en in h[h[n].parent].items && (clean ==> en == n)
    requires forall c :: c in h[n].items ==> c in h
    requires en in h && |Mbr(BoundsIn(h, h[n].items))| == cfg.dims
    ensures Raised(WithBound(h, en, Mbr(BoundsIn(h, h[n].items))), root, cfg, h[n].parent, nn, clean)
  {
    var p := h[n].parent;
    var b := WithBound(h, en, Mbr(BoundsIn(h, h[n].items)));
    assert Kids(h, n, root, nn) && Kids(h, p, root, nn) && Kids(h, en, root, nn);
    forall x | x in b
      ensures Kids(b, x, root, nn)
    {
      assert Kids(h, x, root, nn);
    }
    forall x | x in b && x !in Pair(p, nn) - {p}
      ensures Sized(b, x, root, cfg.dims)
    {
      assert Sized(h, x, root, cfg.dims);
    }
    if clean {
      BoundStoredProper(h, b, root, cfg, n, nn);
    }
  }

  lemma BoundStoredProper(h: Mem, b: Mem, root: Node, cfg: Config, n: Node, nn: Node?)
    requires n in h && n != root && nn != root && 1 <= n.lvl && AdjustProper(h, root, cfg, n, nn) && Shape(h, root, nn)
    requires h[n].parent != null && h[n].parent in h && n != nn
    requires forall c :: c in h[n].items ==> c in h
    requires h[n].items != [] && b == WithBound(h, n, Mbr(BoundsIn(h, h[n].items)))
    ensures AllLinked(b, root, nn) && AllFilled(b, root, cfg, null) && AllTight(b, Pair(h[n].parent, nn))
  {
    forall x | x in b
      ensures Link(b, x, root, nn) && Filled(b, x, root, cfg)
    {
      assert Link(h, x, root, nn);
      if x != n { assert Filled(h, x, root, cfg); }
    }
    forall x | x in b && x !in Pair(h[n].parent, nn)
      ensures Tight(b, x)
    {
      assert Kids(h, x, root, nn) && Link(h, x, root, nn);
      if x != n { assert Tight(h, x); }
      assert n !in h[x].items;
      SameBounds(h, b, h[x].items);
    }
  }

  /** `c` is a child of no node and fits below `p`, whose bound may be stale. */
  ghost predicate AttachReady(h: Mem, root: Node, cfg: Config, p: Node, c: Node, clean: bool) {
    2 <= cfg.M && Shape(h, root, c) && p in h && c.lvl + 1 == p.lvl && AllSized(h, root, cfg.dims, {}) &&
    (clean ==> AllLinked(h, root, c) && AllFilled(h, root, cfg, null) && AllTight(h, {p}))
  }

  /** `l` received an entry: it is either to be split or to be adjusted. */
  ghost predicate Received(h: Mem, root: Node, cfg: Config, l: Node, clean: bool) {
    l in h && 1 <= l.lvl &&
    if |h[l].items| > cfg.M then SplitReady(h, root, cfg, l, clean) else AdjustReady(h, root, cfg, l, null, clean)
  }

  lemma Attached(h: Mem, root: Node, cfg: Config, p: Node, c: Node, clean: bool)
    requires AttachReady(h, root, cfg, p, c, clean)
    ensures Received(WithChild(h, p, c), root, cfg, p, clean)
  {
    var b := WithChild(h, p, c);
    AttachedShape(h, root, p, c);
    forall x | x in b && x != root
      ensures Sized(b, x, root, cfg.dims)
    {
      assert Sized(h, x, root, cfg.dims);
    }
    assert Sized(h, root, root, cfg.dims);
    if clean {
      AttachedProper(h, root, cfg, p, c);
      assert Filled(h, p, root, cfg);
    }
  }

  lemma AttachedShape(h: Mem, root: Node, p: Node, c: Node)
    requires Shape(h, root, c) && p in h && c.lvl + 1 == p.lvl
    ensures Shape(WithChild(h, p, c), root, null)
  {
    var b := WithChild(h, p, c);
    assert Kids(h, p, root, c) && Kids(h, root, root, c);
    forall x | x in b
      ensures Kids(b, x, root, null)
    {
      assert Kids(h, x, root, c);
    }
  }

  lemma AttachedProper(h: Mem, root: Node, cfg: Config, p: Node, c: Node)
    requires Shape(h, root, c) && p in h && c.lvl + 1 == p.lvl
    requires AllLinked(h, root, c) && AllFilled(h, root, cfg, null) && AllTight(h, {p})
    ensures var b := WithChild(h, p, c);
      AllLinked(b, root, null) && AllFilled(b, root, cfg, p) && AllTight(b, {p})
  {
    var b := WithChild(h, p, c);
    assert Link(h, p, root, c);
    forall x | x in b
      ensures Link(b, x, root, null) && (x != p ==> Filled(b, x, root, cfg))
    {
      assert Link(h, x, root, c) && Filled(h, x, root, cfg);
    }
    forall x | x in b && x != p
      ensures Tight(b, x)
    {
      assert Kids(h, x, root, c) && Tight(h, x);
      SameBounds(h, b, h[x].items);
    }
  }

  /** A data entry not yet attached. */
  lemma DataIsReady(h: Mem, root: Node, cfg: Config, p: Node, c: Node, bound: Box, clean: bool)
    requires Sound(h, root, cfg) && (clean ==> Proper(h, root, cfg))
    requires p in h && p.lvl == 1 && c !in h && c.lvl == 0 && !c.isLeaf && |bound| == cfg.dims && bound == c.leaf.bound
    ensures AttachReady(h[c := NodeState([], null, bound)], root, cfg, p, c, clean)
  {
    var b := h[c := NodeState([], null, bound)];
    forall x | x in b
      ensures Kids(b, x, root, c) && Sized(b, x, root, cfg.dims)
    {
      if x != c { assert Kids(h, x, root, null) && Sized(h, x, root, cfg.dims); }
    }
    if clean {
      forall x | x in b
        ensures Link(b, x, root, c) && Filled(b, x, root, cfg) && Tight(b, x)
      {
        if x != c {
          assert Kids(h, x, root, null) && Link(h, x, root, null) && Filled(h, x, root, cfg) && Tight(h, x);
          SameBounds(h, b, h[x].items);
        }
      }
    }
  }

  /** The partner's bound is computed before it is attached. */
  lemma PartnerSettled(h: Mem, root: Node, cfg: Config, p: Node, nn: Node, clean: bool)
    requires Raised(h, root, cfg, p, nn, clean) && nn.lvl + 1 == p.lvl && h[nn].items != []
    requires forall c :: c in h[nn].items ==> c in h
    requires |Mbr(BoundsIn(h, h[nn].items))| == cfg.dims
    ensures AttachReady(WithBound(h, nn, Mbr(BoundsIn(h, h[nn].items))), root, cfg, p, nn, clean)
  {
    var b := WithBound(h, nn, Mbr(BoundsIn(h, h[nn].items)));
    assert Kids(h, nn, root, nn);
    forall x | x in b
      ensures Kids(b, x, root, nn) && Sized(b, x, root, cfg.dims)
    {
      assert Kids(h, x, root, nn);
      if x != nn { assert Sized(h, x, root, cfg.dims); }
    }
    if clean {
      PartnerSettledProper(h, b, root, cfg, p, nn);
    }
  }

  lemma PartnerSettledProper(h: Mem, b: Mem, root: Node, cfg: Config, p: Node, nn: Node)
    requires Shape(h, root, nn) && p in h && h[nn].items != [] && nn.lvl >= 1
    requires AllLinked(h, root, nn) && AllFilled(h, root, cfg, null) && AllTight(h, {p, nn})
    requires forall c :: c in h[nn].items ==> c in h
    requires b == WithBound(h, nn, Mbr(BoundsIn(h, h[nn].items)))
    ensures AllLinked(b, root, nn) && AllFilled(b, root, cfg, null) && AllTight(b, {p})
  {
    forall x | x in b
      ensures Link(b, x, root, nn) && Filled(b, x, root, cfg)
    {
      assert Link(h, x, root, nn) && Filled(h, x, root, cfg);
    }
    forall x | x in b && x != p
      ensures Tight(b, x)
    {
      assert Kids(h, x, root, nn) && Link(h, x, root, nn);
      if x != nn { assert Tight(h, x); }
      SameBounds(h, b, h[x].items);
    }
  }

  // ----- the end of `adjustTree` at the root -----

  lemma RootSettled(h: Mem, root: Node, cfg: Config, clean: bool)
    requires AdjustReady(h, root, cfg, root, null, clean)
    requires forall c :: c in h[root].items ==> c in h
    requires |Mbr(BoundsIn(h, h[root].items))| == cfg.dims
    ensures var b := WithBound(h, root, Mbr(BoundsIn(h, h[root].items)));
      Sound(b, root, cfg) && (clean ==> Proper(b, root, cfg))
  {
    var b := WithBound(h, root, Mbr(BoundsIn(h, h[root].items)));
    assert Kids(h, root, root, null);
    forall x | x in b
      ensures Kids(b, x, root, null) && Sized(b, x, root, cfg.dims)
    {
      assert Kids(h, x, root, null);
      if x != root { assert Sized(h, x, root, cfg.dims); }
    }
    if clean {
      forall x | x in b
        ensures Link(b, x, root, null) && Filled(b, x, root, cfg) && Tight(b, x)
      {
        assert Kids(h, x, root, null) && Link(h, x, root, null);
        if x != root { assert Filled(h, x, root, cfg) && Tight(h, x); }
        assert root !in h[x].items;
        SameBounds(h, b, h[x].items);
      }
    }
  }

  lemma RootBoundIsLoose(h: Mem, root: Node, cfg: Config, nn: Node, bound: Box, clean: bool)
    requires AdjustReady(h, root, cfg, root, nn, clean)
    ensures AdjustReady(WithBound(h, root, bound), root, cfg, root, nn, clean)
  {
    var b := WithBound(h, root, bound);
    forall x | x in b
      ensures Kids(b, x, root, nn) && (x !in {root, nn} ==> Sized(b, x, root, cfg.dims))
    {
      assert Kids(h, x, root, nn);
      if x !in {root, nn} { assert Sized(h, x, root, cfg.dims); }
    }
    if clean {
      forall x | x in b
        ensures Link(b, x, root, nn) && (x != root ==> Filled(b, x, root, cfg)) && (x !in {root, nn} ==> Tight(b, x))
      {
        assert Kids(h, x, root, nn) && Link(h, x, root, nn) && Kids(h, root, root, nn);
        if x != root { assert Filled(h, x, root, cfg); }
        if x !in {root, nn} { assert Tight(h, x); }
        assert root !in h[x].items;
        SameBounds(h, b, h[x].items);
      }
    }
  }

  /** Both halves of the root with their bounds, below the node `r`. */
  ghost function Halves(h: Mem, root: Node, nn: Node, r: Node): Mem
    requires root in h && nn in h && root != nn
    requires (forall c :: c in h[root].items ==> c in h) && (forall c :: c in h[nn].items ==> c in h)
    requires h[root].items != [] && h[nn].items != []
  {
    h[root := NodeState(h[root].items, r, Mbr(BoundsIn(h, h[root].items)))]
     [nn := NodeState(h[nn].items, r, Mbr(BoundsIn(h, h[nn].items)))]
  }

  /** The tree after the root was split: a new root holds both halves. */
  ghost function Grown(h: Mem, root: Node, nn: Node, r: Node): Mem
    requires root in h && nn in h && root != nn && r !in h
    requires (forall c :: c in h[root].items ==> c in h) && (forall c :: c in h[nn].items ==> c in h)
    requires h[root].items != [] && h[nn].items != []
  {
    var below := Halves(h, root, nn, r);
    below[r := NodeState([root, nn], null, Mbr(BoundsIn(below, [root, nn])))]
  }

  lemma GrownIsSound(h: Mem, root: Node, cfg: Config, nn: Node, r: Node, clean: bool)
    requires AdjustReady(h, root, cfg, root, nn, clean) && r !in h && r.lvl == root.lvl + 1 && !r.isLeaf &&
      r.leaf == NO_OBJECT
    requires (forall c :: c in h[root].items ==> c in h) && (forall c :: c in h[nn].items ==> c in h)
    requires |Mbr(BoundsIn(h, h[root].items))| == cfg.dims && |Mbr(BoundsIn(h, h[nn].items))| == cfg.dims
    ensures var b := Grown(h, root, nn, r);
      Sound(b, r, cfg) && (clean ==> Proper(b, r, cfg))
  {
    GrownShape(h, root, nn, r);
    GrownIsSized(h, root, cfg, nn, r);
    if clean {
      GrownIsProper(h, root, cfg, nn, r);
    }
  }

  lemma GrownShape(h: Mem, root: Node, nn: Node, r: Node)
    requires Shape(h, root, nn) && root != nn && nn.lvl == root.lvl && r !in h && r.lvl == root.lvl + 1 && !r.isLeaf &&
      r.leaf == NO_OBJECT
    requires h[root].items != [] && h[nn].items != []
    requires (forall c :: c in h[root].items ==> c in h) && (forall c :: c in h[nn].items ==> c in h)
    ensures Shape(Grown(h, root, nn, r), r, null)
  {
    var b := Grown(h, root, nn, r);
    assert Kids(h, root, root, nn) && Kids(h, nn, root, nn);
    forall x | x in b
      ensures Kids(b, x, r, null)
    {
      if x != r { assert Kids(h, x, root, nn); }
    }
  }

  lemma GrownIsSized(h: Mem, root: Node, cfg: Config, nn: Node, r: Node)
    requires root in h && nn in h && root != nn && r !in h && h[root].items != [] && h[nn].items != []
    requires AllSized(h, root, cfg.dims, {root, nn})
    requires (forall c :: c in h[root].items ==> c in h) && (forall c :: c in h[nn].items ==> c in h)
    requires |Mbr(BoundsIn(h, h[root].items))| == cfg.dims && |Mbr(BoundsIn(h, h[nn].items))| == cfg.dims
    ensures AllSized(Grown(h, root, nn, r), r, cfg.dims, {})
  {
    var below, b := Halves(h, root, nn, r), Grown(h, root, nn, r);
    MbrDim(BoundsIn(below, [root, nn]), cfg.dims);
    forall x | x in b
      ensures Sized(b, x, r, cfg.dims)
    {
      if x !in {root, nn, r} { assert Sized(h, x, root, cfg.dims); }
    }
  }

  lemma GrownRecorded(log: seq<SplitEvent>, h: Mem, root: Node, nn: Node, r: Node)
    requires root in h && nn in h && root != nn && nn.lvl == root.lvl && r !in h && r.lvl == root.lvl + 1
    requires (forall c :: c in h[root].items ==> c in h) && (forall c :: c in h[nn].items ==> c in h)
    requires h[root].items != [] && h[nn].items != [] && Recorded(log, h, root.lvl)
    ensures Recorded(log, Grown(h, root, nn, r), r.lvl)
  {
  }

  lemma GrownIsProper(h: Mem, root: Node, cfg: Config, nn: Node, r: Node)
    requires Shape(h, root, nn) && root != nn && nn.lvl == root.lvl && r !in h && r.lvl == root.lvl + 1
    requires h[root].items != [] && h[nn].items != [] && AdjustProper(h, root, cfg, root, nn) && 2 <= cfg.M
    requires (forall c :: c in h[root].items ==> c in h) && (forall c :: c in h[nn].items ==> c in h)
    ensures Proper(Grown(h, root, nn, r), r, cfg)
  {
    var b := Grown(h, root, nn, r);
    SameBounds(Halves(h, root, nn, r), b, [root, nn]);
    forall x | x in b && x != r
      ensures Link(b, x, r, null) && Filled(b, x, r, cfg) && Tight(b, x)
    {
      assert Kids(h, x, root, nn) && Link(h, x, root, nn);
      if x != root { assert Filled(h, x, root, cfg); }
      if x !in {root, nn} { assert Tight(h, x); }
      assert root !in h[x].items && nn !in h[x].items;
      SameBounds(h, b, h[x].items);
    }
    assert Link(b, r, r, null) && Filled(b, r, r, cfg) && Tight(b, r);
  }
}
