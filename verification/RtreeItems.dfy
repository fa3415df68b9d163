/** Which entries every node holds after an insertion. */
module RtreeItems {
  import opened Boxes
  import opened SplitPolicy
  import opened RtreeNodes
  import opened RtreeInvariant

  type Items = map<Node, seq<Node>>

  /** The two groups of a split. */
  ghost function Divided(event: SplitEvent, m: nat, dims: nat): (seq<Node>, seq<Node>) {
    if |event.entries| < 2 || exists i :: 0 <= i < |event.entries| && |event.entries[i].box| != dims then ([], []) else
    var g := Split(m, dims, event.bound, event.entries);
    (ItemsOf(g.one), ItemsOf(g.two))
  }

  /** The nodes of `now` hold these entries, and all other nodes hold what they held. */
  ghost predicate ItemsAfter(a: Mem, b: Mem, now: Items) {
    a.Keys <= b.Keys && now.Keys <= b.Keys &&
    (forall y {:trigger b[y]} {:trigger a[y]} :: y in a && y !in now ==> b[y].items == a[y].items) &&
    forall y {:trigger b[y]} {:trigger now[y]} :: y in now ==> b[y].items == now[y]
  }

  lemma ItemsCompose(a: Mem, b: Mem, c: Mem, first: Items, next: Items)
    requires ItemsAfter(a, b, first) && ItemsAfter(b, c, next)
    ensures ItemsAfter(a, c, first + next)
  {
  }

  /** `x` holds `items`, or these are divided between it and its partner. */
  ghost function OnceItems(x: Node, items: seq<Node>, log: seq<SplitEvent>, m: nat, dims: nat): Items {
    if log == [] then map[x := items] else
    var (one, two) := Divided(log[0], m, dims);
    map[x := one, log[0].partner := two]
  }

  /** The same for all nodes of a chain of splits that starts with `x`, up to the node that receives the
      last partner. */
  ghost function RunItems(h: Mem, root: Node, x: Node, items: seq<Node>, log: seq<SplitEvent>, m: nat,
                          dims: nat): Items
    decreases |log|
  {
    OnceItems(x, items, log, m, dims) +
    if log == [] || x == root || x !in h || h[x].parent == null || h[x].parent !in h then map[] else
    var p := h[x].parent;
    RunItems(h, root, p, h[p].items + [log[0].partner], log[1..], m, dims)
  }

  lemma {:induction false} SameItems(a: Mem, b: Mem, root: Node, hole: Node?, x: Node, items: seq<Node>,
                                     log: seq<SplitEvent>, m: nat, dims: nat)
    requires Shape(a, root, hole) && x in a && SameAbove(a, b, x.lvl) && (hole == null || hole.lvl <= x.lvl) &&
      x != hole
    requires x in b && b[x].parent == a[x].parent
    ensures RunItems(b, root, x, items, log, m, dims) == RunItems(a, root, x, items, log, m, dims)
    decreases |log|
  {
    if log != [] && x != root {
      var p := a[x].parent;
      assert Kids(a, x, root, hole);
      SameItems(a, b, root, hole, p, a[p].items + [log[0].partner], log[1..], m, dims);
    }
  }

  /** What `adjustTree` changes when it starts from `n` and its partner. */
  ghost function AdjustItems(h: Mem, root: Node, n: Node, nn: Node?, log: seq<SplitEvent>, m: nat, dims: nat): Items {
    if nn == null || n == root || n !in h || h[n].parent == null || h[n].parent !in h then map[] else
    var p := h[n].parent;
    RunItems(h, root, p, h[p].items + [nn], log, m, dims)
  }

  ghost function ClimbItems(h: Mem, p: Node, nn: Node?, log: seq<SplitEvent>, m: nat, dims: nat): Items {
    if nn == null || p !in h then map[] else OnceItems(p, h[p].items + [nn], log, m, dims)
  }

  /** The partner that is left over is that of the last split, or the first one if there was none. */
  ghost predicate LastPartner(nn: Node?, pp: Node?, log: seq<SplitEvent>) {
    pp == null || pp == if log == [] then nn else log[|log| - 1].partner
  }

  lemma OnceIsLast(a: Mem, x: Node, items: seq<Node>, nn: Node?, xx: Node?, log: seq<SplitEvent>, M: nat)
    requires SplitOnce(a, x, items, xx, log, M)
    ensures LastPartner(nn, xx, log)
  {
  }

  lemma LastPartnerMore(nn: Node?, q: Node?, pp: Node?, first: seq<SplitEvent>, rest: seq<SplitEvent>)
    requires LastPartner(q, pp, rest) && LastPartner(nn, q, first)
    ensures LastPartner(nn, pp, first + rest)
  {
  }

  /** A split of `x` and what its partner causes above. */
  lemma RunItemsStep(a: Mem, b: Mem, c: Mem, root: Node, hole: Node?, x: Node, items: seq<Node>, xx: Node?,
                     first: seq<SplitEvent>, rest: seq<SplitEvent>, m: nat, dims: nat)
    requires Shape(a, root, hole) && x in a && SameAbove(a, b, x.lvl) && (hole == null || hole.lvl <= x.lvl) &&
      x != hole
    requires x in b && b[x].parent == a[x].parent && |first| <= 1
    requires if first == [] then xx == null && rest == [] else xx == first[0].partner
    requires ItemsAfter(a, b, OnceItems(x, items, first, m, dims))
    requires ItemsAfter(b, c, AdjustItems(b, root, x, xx, rest, m, dims))
    ensures ItemsAfter(a, c, RunItems(a, root, x, items, first + rest, m, dims))
  {
    hide OnceItems;
    ItemsCompose(a, b, c, OnceItems(x, items, first, m, dims), AdjustItems(b, root, x, xx, rest, m, dims));
    if first == [] {
      assert first + rest == [];
    } else {
      assert (first + rest)[1..] == rest && (first + rest)[0] == first[0];
      OnceItemsOfFirst(x, items, first, rest, m, dims);
      assert Kids(a, x, root, hole);
      if x != root {
        var p := a[x].parent;
        SameItems(a, b, root, hole, p, a[p].items + [xx], rest, m, dims);
      }
    }
  }

  lemma OnceItemsOfFirst(x: Node, items: seq<Node>, first: seq<SplitEvent>, rest: seq<SplitEvent>, m: nat, dims: nat)
    requires first != []
    ensures OnceItems(x, items, first + rest, m, dims) == OnceItems(x, items, first, m, dims)
  {
    assert (first + rest)[0] == first[0];
  }

  /** One level of `adjustTree`, followed by the rest. */
  lemma AdjustItemsStep(a: Mem, b: Mem, c: Mem, root: Node, n: Node, nn: Node?, p: Node, q: Node?,
                        first: seq<SplitEvent>, rest: seq<SplitEvent>, m: nat, dims: nat, M: nat)
    requires Shape(a, root, nn) && n in a && n != root && (nn == null || nn.lvl == n.lvl)
    requires ClimbEffect(a, b, root, n, nn, p, q, first, M) && AdjustLog(b, root, p, q, rest, M)
    requires ItemsAfter(a, b, ClimbItems(a, p, nn, first, m, dims))
    requires ItemsAfter(b, c, AdjustItems(b, root, p, q, rest, m, dims))
    ensures ItemsAfter(a, c, AdjustItems(a, root, n, nn, first + rest, m, dims))
  {
    hide RunItems, OnceItems;
    if nn == null {
      ItemsCompose(a, b, c, map[], map[]);
    } else {
      assert first == [] ==> rest == [];
      RunItemsStep(a, b, c, root, nn, p, a[p].items + [nn], q, first, rest, m, dims);
    }
  }

  /** The entries after an insertion of `items` into the node `x`. */
  ghost function InsertItems(h: Mem, root: Node, root': Node, x: Node, items: seq<Node>, log: seq<SplitEvent>,
                             m: nat, dims: nat): Items {
    RunItems(h, root, x, items, log, m, dims) +
    if root' == root || log == [] then map[] else map[root' := [root, log[|log| - 1].partner]]
  }

  lemma SplitItems(a: Mem, b: Mem, n: Node, nn: Node, event: SplitEvent, m: nat, dims: nat)
    requires event.node == n && event.partner == nn && |event.entries| >= 2
    requires forall i :: 0 <= i < |event.entries| ==> |event.entries[i].box| == dims
    requires var g := Split(m, dims, event.bound, event.entries);
      SplitStep(a, b, n, nn, ItemsOf(g.one), ItemsOf(g.two))
    ensures ItemsAfter(a, b, OnceItems(n, a[n].items, [event], m, dims))
  {
    hide Split;
  }

  lemma ClimbItemsStep(a: Mem, b: Mem, c: Mem, p: Node, nn: Node?, log: seq<SplitEvent>, m: nat, dims: nat)
    requires ItemsAfter(a, b, map[]) && p in a
    requires nn == null ==> c == b
    requires nn != null ==> ItemsAfter(b, c, OnceItems(p, b[p].items + [nn], log, m, dims))
    ensures ItemsAfter(a, c, ClimbItems(a, p, nn, log, m, dims))
  {
    hide OnceItems;
    if nn != null {
      ItemsCompose(a, b, c, map[], OnceItems(p, b[p].items + [nn], log, m, dims));
    }
  }

  lemma ReceiveItems(a: Mem, b: Mem, c: Mem, p: Node, items: seq<Node>, log: seq<SplitEvent>, m: nat, dims: nat)
    requires ItemsAfter(a, b, map[p := items]) && ItemsAfter(b, c, OnceItems(p, items, log, m, dims))
    ensures ItemsAfter(a, c, OnceItems(p, items, log, m, dims))
  {
    ItemsCompose(a, b, c, map[p := items], OnceItems(p, items, log, m, dims));
  }

  lemma NothingAbove(h: Mem, root: Node, nn: Node?, m: nat, dims: nat)
    ensures AdjustItems(h, root, root, nn, [], m, dims) == map[]
  {
  }

  lemma SettleItems(a: Mem, b: Mem, c: Mem, root: Node, x: Node, items: seq<Node>, xx: Node?, pp: Node?,
                    first: seq<SplitEvent>, rest: seq<SplitEvent>, m: nat, dims: nat, M: nat)
    requires Shape(a, root, null) && SplitFrame(a, b, root, x) && 1 <= x.lvl <= root.lvl
    requires SplitOnce(a, x, items, xx, first, M) && AdjustEffect(b, c, root, x, xx, pp, rest, M)
    requires LastPartner(xx, pp, rest) && ItemsAfter(a, b, OnceItems(x, items, first, m, dims))
    requires ItemsAfter(b, c, AdjustItems(b, root, x, xx, rest, m, dims))
    ensures ItemsAfter(a, c, RunItems(a, root, x, items, first + rest, m, dims))
    ensures LastPartner(null, pp, first + rest)
  {
    hide OnceItems, AdjustItems, RunItems, ItemsAfter;
    RunItemsStep(a, b, c, root, null, x, items, xx, first, rest, m, dims);
  }

  lemma GrownItems(h: Mem, root: Node, nn: Node, r: Node)
    requires root in h && nn in h && root != nn && r !in h && h[root].items != [] && h[nn].items != []
    requires (forall c :: c in h[root].items ==> c in h) && (forall c :: c in h[nn].items ==> c in h)
    ensures ItemsAfter(h, Grown(h, root, nn, r), map[r := [root, nn]])
  {
  }

  lemma GrowItems(a: Mem, b: Mem, c: Mem, root: Node, root': Node, x: Node, items: seq<Node>, pp: Node,
                  log: seq<SplitEvent>, m: nat, dims: nat)
    requires ItemsAfter(a, b, RunItems(a, root, x, items, log, m, dims)) && ItemsAfter(b, c, map[root' := [root, pp]])
    requires LastPartner(null, pp, log) && root' != root
    ensures ItemsAfter(a, c, InsertItems(a, root, root', x, items, log, m, dims))
  {
    ItemsCompose(a, b, c, RunItems(a, root, x, items, log, m, dims), map[root' := [root, pp]]);
  }

  lemma NotGrownItems(a: Mem, root: Node, x: Node, items: seq<Node>, log: seq<SplitEvent>, m: nat, dims: nat)
    ensures InsertItems(a, root, root, x, items, log, m, dims) == RunItems(a, root, x, items, log, m, dims)
  {
    hide RunItems;
  }

  lemma PartnerItems(h: Mem, p: Node, nn: Node, bound: Box)
    requires p in h && nn in h && p != nn
    ensures ItemsAfter(h, WithChild(WithBound(h, nn, bound), p, nn), map[p := h[p].items + [nn]])
  {
  }

  lemma ChildItems(h: Mem, p: Node, c: Node)
    requires p in h && c in h && p != c
    ensures ItemsAfter(h, WithChild(h, p, c), map[p := h[p].items + [c]])
  {
  }

  lemma DataItems(h: Mem, p: Node, c: Node, bound: Box)
    requires p in h && c !in h
    ensures ItemsAfter(h, WithChild(h[c := NodeState([], null, bound)], p, c), map[p := h[p].items + [c], c := []])
  {
  }

  lemma PlacedItems(a: Mem, b: Mem, c: Mem, root: Node, root': Node, l: Node, e: Node, log: seq<SplitEvent>, m: nat,
                    dims: nat)
    requires Shape(a, root, null) && l in a && ClimbFrame(a, b, l) && b[l].items == a[l].items + [e]
    requires ItemsAfter(a, b, map[l := a[l].items + [e], e := []])
    requires ItemsAfter(b, c, InsertItems(b, root, root', l, b[l].items, log, m, dims))
    ensures ItemsAfter(a, c, map[e := []] + InsertItems(a, root, root', l, a[l].items + [e], log, m, dims))
  {
    var items := a[l].items + [e];
    hide InsertItems, ItemsAfter, Shape, ClimbFrame;
    SameInsertItems(a, b, root, root', l, items, log, m, dims);
    var now := InsertItems(a, root, root', l, items, log, m, dims);
    ItemsCompose(a, b, c, map[l := items, e := []], now);
    HoldsItself(a, root, root', l, items, log, m, dims);
    AlreadyThere(l, items, e, now);
  }

  /** The same for a whole subtree `d` that was put below `p`. */
  lemma GraftedItems(a: Mem, d: Mem, b: Mem, c: Mem, root: Node, root': Node, p: Node, top: Node, log: seq<SplitEvent>,
                     m: nat, dims: nat)
    requires Shape(a, root, null) && p in a && ClimbFrame(a, b, p) && b[p].items == a[p].items + [top]
    requires ItemsAfter(a + d, b, map[p := a[p].items + [top]])
    requires ItemsAfter(b, c, InsertItems(b, root, root', p, b[p].items, log, m, dims))
    ensures ItemsAfter(a + d, c, InsertItems(a, root, root', p, a[p].items + [top], log, m, dims))
  {
    var items := a[p].items + [top];
    hide InsertItems, ItemsAfter, Shape, ClimbFrame;
    SameInsertItems(a, b, root, root', p, items, log, m, dims);
    var now := InsertItems(a, root, root', p, items, log, m, dims);
    ItemsCompose(a + d, b, c, map[p := items], now);
    HoldsItself(a, root, root', p, items, log, m, dims);
    AlreadyHeld(p, items, now);
  }

  lemma SameInsertItems(a: Mem, b: Mem, root: Node, root': Node, l: Node, items: seq<Node>, log: seq<SplitEvent>,
                        m: nat,
                        dims: nat)
    requires Shape(a, root, null) && ClimbFrame(a, b, l)
    ensures InsertItems(b, root, root', l, items, log, m, dims) == InsertItems(a, root, root', l, items, log, m, dims)
  {
    hide RunItems;
    SameItems(a, b, root, null, l, items, log, m, dims);
  }

  lemma AlreadyHeld(l: Node, items: seq<Node>, now: Items)
    requires l in now
    ensures map[l := items] + now == now
  {
  }

  lemma AlreadyThere(l: Node, items: seq<Node>, e: Node, now: Items)
    requires l in now
    ensures map[l := items, e := []] + now == map[e := []] + now
  {
  }

  lemma HoldsItself(a: Mem, root: Node, root': Node, x: Node, items: seq<Node>, log: seq<SplitEvent>, m: nat, dims: nat)
    ensures x in InsertItems(a, root, root', x, items, log, m, dims)
  {
  }

  /** Without a split only the node that was chosen has another list of entries. */
  lemma RoomKeepsItems(a: Mem, c: Mem, root: Node, root': Node, l: Node, e: Node, log: seq<SplitEvent>, m: nat,
                       dims: nat, M: nat)
    requires log == [] && l in a && e !in a
    requires ItemsAfter(a, c, map[e := []] + InsertItems(a, root, root', l, a[l].items + [e], log, m, dims))
    ensures forall y :: y in a ==> y in c && c[y].items == if y == l then a[l].items + [e] else a[y].items
  {
  }

  /** The nodes of a chain of splits are not below its first node. */
  lemma {:induction false} RunItemsAbove(h: Mem, root: Node, x: Node, items: seq<Node>, log: seq<SplitEvent>, m: nat,
                                         dims: nat, M: nat)
    requires Shape(h, root, null) && x in h && SplitRun(h, root, x, items, log, M)
    ensures var now := RunItems(h, root, x, items, log, m, dims);
      (forall y :: y in now ==> x.lvl <= y.lvl && (y in h && y.lvl == x.lvl ==> y == x)) &&
      x in now && (log == [] ==> now[x] == items) &&
      (log != [] ==>
        x != log[0].partner && log[0].partner in now && (now[x], now[log[0].partner]) == Divided(log[0], m, dims))
    decreases |log|
  {
    hide Divided;
    assert Kids(h, x, root, null);
    if log != [] && x != root {
      var p := h[x].parent;
      RunItemsAbove(h, root, p, h[p].items + [log[0].partner], log[1..], m, dims, M);
    }
  }

  /** After an insertion the chosen node holds the new entry with the old ones, or these are divided
      between it and its partner; nothing else on its level or below has changed. */
  lemma EntryIsPlaced(a: Mem, c: Mem, root: Node, root': Node, x: Node, items: seq<Node>, log: seq<SplitEvent>, m: nat,
                      dims: nat, M: nat)
    requires Shape(a, root, null) && x in a && SplitRun(a, root, x, items, log, M)
    requires root' == root || root.lvl < root'.lvl
    requires ItemsAfter(a, c, InsertItems(a, root, root', x, items, log, m, dims))
    ensures x in c
    ensures log == [] ==> c[x].items == items
    ensures log != [] ==>
      log[0].node == x && ItemsOf(log[0].entries) == items && log[0].partner in c &&
      (c[x].items, c[log[0].partner].items) == Divided(log[0], m, dims)
    ensures forall y :: y in a && y.lvl <= x.lvl && y != x ==> c[y].items == a[y].items
  {
    hide Divided, RunItems;
    assert Kids(a, x, root, null);
    RunItemsAbove(a, root, x, items, log, m, dims, M);
  }
}
