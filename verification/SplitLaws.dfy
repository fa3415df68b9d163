/** A split described without computing it: which entries are the seeds, which entry is next, and which
    group it joins. The description has exactly one result, and `Split` computes it. */
module SplitLaws {
  import opened Wrappers
  import opened Boxes
  import opened SplitPolicy

  // ----- the seeds -----

  /** `i` is the first box with the highest low side on the axis. */
  ghost predicate HighestLow(boxes: seq<Box>, axis: nat, i: nat)
    requires forall k :: 0 <= k < |boxes| ==> axis < |boxes[k]|
  {
    i < |boxes| && (forall k :: 0 <= k < |boxes| ==> boxes[k][axis].lo <= boxes[i][axis].lo) &&
    forall k :: 0 <= k < i ==> boxes[k][axis].lo < boxes[i][axis].lo
  }

  /** `j` is the first box with the lowest high side on the axis. */
  ghost predicate LowestHigh(boxes: seq<Box>, axis: nat, j: nat)
    requires forall k :: 0 <= k < |boxes| ==> axis < |boxes[k]|
  {
    j < |boxes| && (forall k :: 0 <= k < |boxes| ==> boxes[j][axis].hi <= boxes[k][axis].hi) &&
    forall k :: 0 <= k < j ==> boxes[j][axis].hi < boxes[k][axis].hi
  }

  /** All boxes together have this width on the axis. */
  ghost predicate Spreads(boxes: seq<Box>, axis: nat, width: real)
    requires forall k :: 0 <= k < |boxes| ==> axis < |boxes[k]|
  {
    exists p: nat, r: nat :: SpreadsFrom(boxes, axis, p, r) && width == boxes[p][axis].hi - boxes[r][axis].lo
  }

  ghost predicate SpreadsFrom(boxes: seq<Box>, axis: nat, p: nat, r: nat)
    requires forall k :: 0 <= k < |boxes| ==> axis < |boxes[k]|
  {
    p < |boxes| && r < |boxes| && (forall k :: 0 <= k < |boxes| ==> boxes[k][axis].hi <= boxes[p][axis].hi) &&
    forall k :: 0 <= k < |boxes| ==> boxes[r][axis].lo <= boxes[k][axis].lo
  }

  /** The extreme boxes of the axis are `i` and `j`, and `q` is their separation divided by the whole width. */
  ghost predicate Separated(boxes: seq<Box>, axis: nat, i: nat, j: nat, q: real)
    requires forall k :: 0 <= k < |boxes| ==> axis < |boxes[k]|
  {
    HighestLow(boxes, axis, i) && LowestHigh(boxes, axis, j) &&
    exists width :: width != 0.0 && Spreads(boxes, axis, width) && q == (boxes[i][axis].lo - boxes[j][axis].hi) / width
  }

  /** Among the first `n` axes this one is the first with the greatest quotient. */
  ghost predicate BestAxis(boxes: seq<Box>, dims: nat, n: nat, axis: nat, i: nat, j: nat, q: real)
    requires Uniform(boxes, dims) && n <= dims
  {
    axis < n && Separated(boxes, axis, i, j, q) &&
    forall other: nat, a, b, r :: other < n && Separated(boxes, other, a, b, r) ==> r <= q && (other < axis ==> r < q)
  }

  /** The seeds are the extremes of that axis, and the first two boxes if no axis has a quotient. */
  ghost predicate AreSeeds(boxes: seq<Box>, dims: nat, i: nat, j: nat)
    requires Uniform(boxes, dims)
  {
    (exists axis, q :: BestAxis(boxes, dims, dims, axis, i, j, q)) ||
    (i == 0 && j == 1 && forall axis: nat, a, b, q :: axis < dims ==> !Separated(boxes, axis, a, b, q))
  }

  lemma SeparatedOnce(boxes: seq<Box>, axis: nat, i: nat, j: nat, q: real, a: nat, b: nat, r: real)
    requires forall k :: 0 <= k < |boxes| ==> axis < |boxes[k]|
    requires Separated(boxes, axis, i, j, q) && Separated(boxes, axis, a, b, r)
    ensures i == a && j == b && q == r
  {
    assert i == a && j == b;
    var w :| w != 0.0 && Spreads(boxes, axis, w) && q == (boxes[i][axis].lo - boxes[j][axis].hi) / w;
    var v :| v != 0.0 && Spreads(boxes, axis, v) && r == (boxes[i][axis].lo - boxes[j][axis].hi) / v;
    assert w == v;
  }

  /** The description has only one pair. */
  lemma SeedsAreUnique(boxes: seq<Box>, dims: nat, i: nat, j: nat, a: nat, b: nat)
    requires Uniform(boxes, dims) && AreSeeds(boxes, dims, i, j) && AreSeeds(boxes, dims, a, b)
    ensures i == a && j == b
  {
    hide Separated;
    if x, q :| BestAxis(boxes, dims, dims, x, i, j, q) {
      var y, r :| BestAxis(boxes, dims, dims, y, a, b, r);
      assert x == y;
      SeparatedOnce(boxes, x, i, j, q, a, b, r);
    }
  }

  lemma SpreadOnce(boxes: seq<Box>, axis: nat, w: real, v: real)
    requires forall k :: 0 <= k < |boxes| ==> axis < |boxes[k]|
    requires Spreads(boxes, axis, w) && Spreads(boxes, axis, v)
    ensures w == v
  {
  }

  lemma HighestLowIsFirst(boxes: seq<Box>, axis: nat)
    requires boxes != [] && forall k :: 0 <= k < |boxes| ==> axis < |boxes[k]|
    ensures HighestLow(boxes, axis, ArgMax(Lows(boxes, axis)))
  {
    var lows := Lows(boxes, axis);
    ArgMaxIsFirst(lows);
    assert forall k :: 0 <= k < |boxes| ==> lows[k] == boxes[k][axis].lo;
  }

  lemma LowestHighIsFirst(boxes: seq<Box>, axis: nat)
    requires boxes != [] && forall k :: 0 <= k < |boxes| ==> axis < |boxes[k]|
    ensures LowestHigh(boxes, axis, ArgMin(Highs(boxes, axis)))
  {
    var highs := Highs(boxes, axis);
    ArgMinIsFirst(highs);
    assert forall k :: 0 <= k < |boxes| ==> highs[k] == boxes[k][axis].hi;
  }

  lemma WholeWidth(boxes: seq<Box>, axis: nat)
    requires boxes != [] && forall k :: 0 <= k < |boxes| ==> axis < |boxes[k]|
    ensures var (lows, highs) := (Lows(boxes, axis), Highs(boxes, axis));
      Spreads(boxes, axis, highs[ArgMax(highs)] - lows[ArgMin(lows)])
  {
    var (lows, highs) := (Lows(boxes, axis), Highs(boxes, axis));
    ArgMaxIsFirst(highs);
    ArgMinIsFirst(lows);
    assert forall k :: 0 <= k < |boxes| ==> lows[k] == boxes[k][axis].lo && highs[k] == boxes[k][axis].hi;
    assert SpreadsFrom(boxes, axis, ArgMax(highs), ArgMin(lows));
  }

  lemma ExtremesAreRight(boxes: seq<Box>, axis: nat) returns (width: real)
    requires boxes != [] && forall k :: 0 <= k < |boxes| ==> axis < |boxes[k]|
    ensures Spreads(boxes, axis, width)
    ensures var s := AxisSeeds(boxes, axis);
      HighestLow(boxes, axis, s.one) && LowestHigh(boxes, axis, s.two) &&
      s.best == if width == 0.0 then None else Some((boxes[s.one][axis].lo - boxes[s.two][axis].hi) / width)
  {
    hide HighestLow, LowestHigh, Spreads, ArgMax, ArgMin;
    var (lows, highs) := (Lows(boxes, axis), Highs(boxes, axis));
    HighestLowIsFirst(boxes, axis);
    LowestHighIsFirst(boxes, axis);
    WholeWidth(boxes, axis);
    width := highs[ArgMax(highs)] - lows[ArgMin(lows)];
  }

  lemma AxisIsSeparated(boxes: seq<Box>, axis: nat)
    requires boxes != [] && forall k :: 0 <= k < |boxes| ==> axis < |boxes[k]|
    ensures var s := AxisSeeds(boxes, axis);
      if s.best.Some? then Separated(boxes, axis, s.one, s.two, s.best.value)
      else forall a, b, q :: !Separated(boxes, axis, a, b, q)
  {
    hide AxisSeeds, HighestLow, LowestHigh, Spreads;
    var width := ExtremesAreRight(boxes, axis);
    forall w | Spreads(boxes, axis, w)
      ensures w == width
    {
      SpreadOnce(boxes, axis, w, width);
    }
  }

  /** The axes before `n`: the best of them, if there is one. */
  ghost predicate BestBefore(boxes: seq<Box>, dims: nat, n: nat, s: Seeds)
    requires Uniform(boxes, dims) && n <= dims
  {
    if s.best.Some? then exists axis :: BestAxis(boxes, dims, n, axis, s.one, s.two, s.best.value)
    else s.one == 0 && s.two == 1 && forall axis: nat, a, b, q :: axis < n ==> !Separated(boxes, axis, a, b, q)
  }

  lemma {:induction false} BestIsBefore(boxes: seq<Box>, dims: nat, n: nat, all: seq<Seeds>)
    requires boxes != [] && Uniform(boxes, dims) && n == |all| <= dims
    requires forall axis :: 0 <= axis < n ==> all[axis] == AxisSeeds(boxes, axis)
    ensures BestBefore(boxes, dims, n, BestOf(all))
  {
    hide AxisSeeds, Separated;
    if n > 0 {
      BestIsBefore(boxes, dims, n - 1, all[..n - 1]);
      AxisIsSeparated(boxes, n - 1);
      BetterIsBefore(boxes, dims, n - 1, all[n - 1], BestOf(all[..n - 1]));
    }
  }

  lemma BetterIsBefore(boxes: seq<Box>, dims: nat, axis: nat, s: Seeds, acc: Seeds)
    requires boxes != [] && Uniform(boxes, dims) && axis < dims && BestBefore(boxes, dims, axis, acc)
    requires if s.best.Some? then Separated(boxes, axis, s.one, s.two, s.best.value)
             else forall a, b, q :: !Separated(boxes, axis, a, b, q)
    ensures BestBefore(boxes, dims, axis + 1, Better(s, acc))
  {
    hide Separated;
    forall a, b, q | Separated(boxes, axis, a, b, q)
      ensures s.best == Some(q)
    {
      SeparatedOnce(boxes, axis, s.one, s.two, s.best.value, a, b, q);
    }
    if s.best.Some? && (acc.best.None? || s.best.value > acc.best.value) {
      assert BestAxis(boxes, dims, axis + 1, axis, s.one, s.two, s.best.value);
    } else if acc.best.Some? {
      var x :| BestAxis(boxes, dims, axis, x, acc.one, acc.two, acc.best.value);
      assert BestAxis(boxes, dims, axis + 1, x, acc.one, acc.two, acc.best.value);
    }
  }

  /** The seeds of the split meet the description. */
  lemma SeedsAreRight(boxes: seq<Box>, dims: nat)
    requires |boxes| >= 2 && Uniform(boxes, dims)
    ensures AreSeeds(boxes, dims, SeedsUpTo(boxes, dims).one, SeedsUpTo(boxes, dims).two)
  {
    hide AxisSeeds, Separated, BestAxis;
    BestIsBefore(boxes, dims, dims, seq(dims, axis requires 0 <= axis < dims => AxisSeeds(boxes, axis)));
  }

  // ----- the entries other than the seeds -----

  /** `rest` are the entries at the positions `at`, in order: all entries but the items `s1` and `s2`. */
  ghost predicate AreOthers<T>(es: seq<Entry<T>>, s1: T, s2: T, rest: seq<Entry<T>>, at: seq<nat>) {
    |at| == |rest| && (forall k, l :: 0 <= k < l < |at| ==> at[k] < at[l]) &&
    (forall k :: 0 <= k < |at| ==> at[k] < |es| && rest[k] == es[at[k]]) &&
    forall n: nat :: n < |es| ==> (n in at <==> es[n].item != s1 && es[n].item != s2)
  }

  lemma {:induction false} OthersAreRight<T>(es: seq<Entry<T>>, s1: T, s2: T) returns (at: seq<nat>)
    ensures AreOthers(es, s1, s2, Others(es, s1, s2), at)
  {
    if es == [] {
      at := [];
    } else {
      var n := |es| - 1;
      var front := OthersAreRight(es[..n], s1, s2);
      at := if es[n].item != s1 && es[n].item != s2 then front + [n] else front;
      MoreOthers(es, s1, s2, Others(es[..n], s1, s2), front);
    }
  }

  lemma MoreOthers<T>(es: seq<Entry<T>>, s1: T, s2: T, rest: seq<Entry<T>>, at: seq<nat>)
    requires es != [] && AreOthers(es[..|es| - 1], s1, s2, rest, at)
    ensures var n := |es| - 1;
      if es[n].item != s1 && es[n].item != s2 then AreOthers(es, s1, s2, rest + [es[n]], at + [n])
      else AreOthers(es, s1, s2, rest, at)
  {
    var n := |es| - 1;
    assert n !in at;
    var more := at + [n];
    assert forall m :: m in more <==> m in at || m == n;
  }

  lemma LastOfIncreasing(at: seq<nat>, n: nat)
    requires (forall k, l :: 0 <= k < l < |at| ==> at[k] < at[l]) && n in at
    requires forall k :: 0 <= k < |at| ==> at[k] <= n
    ensures at[|at| - 1] == n
  {
    var k :| 0 <= k < |at| && at[k] == n;
    assert at[k] <= at[|at| - 1];
  }

  /** There is only one such list. */
  lemma {:induction false} OthersAreUnique<T>(es: seq<Entry<T>>, s1: T, s2: T, rest: seq<Entry<T>>, at: seq<nat>)
    requires AreOthers(es, s1, s2, rest, at)
    ensures rest == Others(es, s1, s2)
  {
    assert at != [] ==> at[0] < |es|;
    if es != [] {
      var n := |es| - 1;
      var front := at;
      if n in at {
        LastOfIncreasing(at, n);
        front := at[..|at| - 1];
        assert rest == rest[..|front|] + [es[n]];
      }
      FewerOthers(es, s1, s2, rest, at, front);
      OthersAreUnique(es[..n], s1, s2, rest[..|front|], front);
    }
  }

  lemma FewerOthers<T>(es: seq<Entry<T>>, s1: T, s2: T, rest: seq<Entry<T>>, at: seq<nat>, front: seq<nat>)
    requires es != [] && AreOthers(es, s1, s2, rest, at)
    requires if |es| - 1 in at then at != [] && at[|at| - 1] == |es| - 1 && front == at[..|at| - 1] else front == at
    ensures AreOthers(es[..|es| - 1], s1, s2, rest[..|front|], front)
  {
    if |es| - 1 in at {
      assert forall m :: m in at <==> m in front || m == |es| - 1;
    } else {
      assert forall k :: 0 <= k < |at| ==> at[k] in at;
    }
  }

  // ----- one round -----

  /** `k` is the first of the boxes that is drawn most strongly to one of the groups. */
  ghost predicate ChosenNext(b1: Box, b2: Box, boxes: seq<Box>, k: nat) {
    k < |boxes| && forall l :: 0 <= l < |boxes| ==> Weaker(b1, b2, boxes[l], boxes[k], l < k)
  }

  /** `drawn` is no farther from 0 than `most`, or nearer. */
  ghost predicate Weaker(b1: Box, b2: Box, e: Box, chosen: Box, strictly: bool) {
    var (drawn, most) := (Enlargement(b1, e) - Enlargement(b2, e), Enlargement(b1, chosen) - Enlargement(b2, chosen));
    (drawn <= most || drawn <= -most) && (-drawn <= most || -drawn <= -most) &&
    (strictly ==> (drawn < most || drawn < -most) && (-drawn < most || -drawn < -most))
  }

  /** Against the other group, the box enlarges this one less, or as much with a smaller area
      afterwards, or with the same area and fewer entries. */
  ghost predicate Closer(group: seq<Box>, other: seq<Box>, e: Box)
    requires group != [] && other != []
  {
    var (u, v) := (Union(Mbr(group), e), Union(Mbr(other), e));
    var (grows, grows') := (AreaOf(u) - AreaOf(Mbr(group)), AreaOf(v) - AreaOf(Mbr(other)));
    grows <= grows' && (grows == grows' ==> AreaOf(u) <= AreaOf(v) && (AreaOf(u) == AreaOf(v) ==> |group| < |other|))
  }

  /** A group that needs all the boxes left to reach `m` gets the box; otherwise the closer group does. */
  ghost predicate RightSide(m: nat, one: seq<Box>, two: seq<Box>, left: nat, e: Box, side: Side)
    requires one != [] && two != []
  {
    if |one| + left <= m then side == One
    else if |two| + left <= m then side == Two
    else (side == One <==> Closer(one, two, e)) && (side == Two <==> Closer(two, one, e))
  }

  lemma SideIsRight(m: nat, one: seq<Box>, two: seq<Box>, left: nat, e: Box, side: Side)
    requires one != [] && two != []
    ensures RightSide(m, one, two, left, e, side) <==> side == Assign(m, one, two, left, e)
  {
    hide AreaOf, Union, Mbr;
  }

  lemma NextIsRight(b1: Box, b2: Box, boxes: seq<Box>, k: nat)
    requires boxes != []
    ensures ChosenNext(b1, b2, boxes, k) <==> k == PickNext(b1, b2, boxes)
  {
    hide Enlargement;
    var prefs := Preferences(b1, b2, boxes);
    ArgMaxIsFirst(prefs);
    if k < |boxes| {
      forall l | 0 <= l < |boxes|
        ensures Weaker(b1, b2, boxes[l], boxes[k], l < k) <==> prefs[l] <= prefs[k] && (l < k ==> prefs[l] < prefs[k])
      {
      }
    }
  }

  /** The chosen entry leaves the rest and joins the right group, or neither. */
  ghost predicate RightMove<T>(m: nat, b1: Box, b2: Box, g: Groups<T>, h: Groups<T>, k: nat, side: Side) {
    Started(g) && ChosenNext(b1, b2, BoxesOf(g.rest), k) &&
    RightSide(m, BoxesOf(g.one), BoxesOf(g.two), |g.rest|, g.rest[k].box, side) &&
    h.rest == g.rest[..k] + g.rest[k + 1..] &&
    h.one == g.one + (if side == One then [g.rest[k]] else []) &&
    h.two == g.two + (if side == Two then [g.rest[k]] else []) &&
    h.lost == g.lost + (if side == Neither then [g.rest[k]] else [])
  }

  ghost predicate RightRound<T>(m: nat, b1: Box, b2: Box, g: Groups<T>, h: Groups<T>) {
    exists k, side :: RightMove(m, b1, b2, g, h, k, side)
  }

  lemma RoundIsRight<T>(m: nat, b1: Box, b2: Box, g: Groups<T>, h: Groups<T>)
    requires Started(g) && g.rest != []
    ensures RightRound(m, b1, b2, g, h) <==> h == Round(m, b1, b2, g)
  {
    hide ChosenNext, RightSide, PickNext, Assign;
    var k := PickNext(b1, b2, BoxesOf(g.rest));
    var side := Assign(m, BoxesOf(g.one), BoxesOf(g.two), |g.rest|, g.rest[k].box);
    NextIsRight(b1, b2, BoxesOf(g.rest), k);
    SideIsRight(m, BoxesOf(g.one), BoxesOf(g.two), |g.rest|, g.rest[k].box, side);
    if h == Place(g, k, side) {
      assert RightMove(m, b1, b2, g, h, k, side);
    }
    if l, to :| RightMove(m, b1, b2, g, h, l, to) {
      NextIsRight(b1, b2, BoxesOf(g.rest), l);
      SideIsRight(m, BoxesOf(g.one), BoxesOf(g.two), |g.rest|, g.rest[k].box, to);
    }
  }

  // ----- the whole split -----

  /** The rounds of the loop, from the groups after the seeds to the groups with nothing left to place. */
  ghost predicate RightRounds<T>(m: nat, b1: Box, b2: Box, trace: seq<Groups<T>>) {
    trace != [] && Started(trace[0]) && trace[|trace| - 1].rest == [] &&
    forall i :: 0 <= i < |trace| - 1 ==> RightRound(m, b1, b2, trace[i], trace[i + 1])
  }

  lemma OneRoundMore<T>(m: nat, b1: Box, b2: Box, g: Groups<T>, more: seq<Groups<T>>)
    requires Started(g) && RightRounds(m, b1, b2, more) && RightRound(m, b1, b2, g, more[0])
    ensures RightRounds(m, b1, b2, [g] + more)
  {
    hide RightRound;
    var trace := [g] + more;
    assert forall i :: 0 <= i < |more| ==> trace[i + 1] == more[i];
  }

  lemma OneRoundLess<T>(m: nat, b1: Box, b2: Box, trace: seq<Groups<T>>)
    requires RightRounds(m, b1, b2, trace) && |trace| > 1
    ensures RightRound(m, b1, b2, trace[0], trace[1]) && trace[0].rest != []
    ensures RightRounds(m, b1, b2, trace[1..])
  {
    assert RightRound(m, b1, b2, trace[0], trace[1]);
    hide RightRound;
    var more := trace[1..];
    assert forall i :: 0 <= i < |more| ==> trace[i + 1] == more[i];
  }

  lemma {:induction false} RoundsAreRight<T>(m: nat, b1: Box, b2: Box, g: Groups<T>) returns (trace: seq<Groups<T>>)
    requires Started(g)
    ensures RightRounds(m, b1, b2, trace) && trace[0] == g && trace[|trace| - 1] == Distribute(m, b1, b2, g)
    decreases |g.rest|
  {
    hide RightRound, Round;
    if g.rest == [] {
      trace := [g];
    } else {
      var h := Round(m, b1, b2, g);
      RoundIsRight(m, b1, b2, g, h);
      var more := RoundsAreRight(m, b1, b2, h);
      OneRoundMore(m, b1, b2, g, more);
      trace := [g] + more;
    }
  }

  lemma {:induction false} RoundsAreUnique<T>(m: nat, b1: Box, b2: Box, trace: seq<Groups<T>>)
    requires RightRounds(m, b1, b2, trace)
    ensures trace[|trace| - 1] == Distribute(m, b1, b2, trace[0])
  {
    hide RightRound, Round;
    if |trace| > 1 {
      OneRoundLess(m, b1, b2, trace);
      RoundIsRight(m, b1, b2, trace[0], trace[1]);
      RoundsAreUnique(m, b1, b2, trace[1..]);
    }
  }

  /** The seeds each have a group of their own, and the others are still to be placed. */
  ghost predicate Seeded<T>(dims: nat, es: seq<Entry<T>>, g: Groups<T>)
    requires Uniform(BoxesOf(es), dims)
  {
    exists i: nat, j: nat, at :: SeededBy(dims, es, g, i, j, at)
  }

  ghost predicate SeededBy<T>(dims: nat, es: seq<Entry<T>>, g: Groups<T>, i: nat, j: nat, at: seq<nat>)
    requires Uniform(BoxesOf(es), dims)
  {
    AreSeeds(BoxesOf(es), dims, i, j) && i < |es| && j < |es| && g.one == [es[i]] && g.two == [es[j]] &&
    AreOthers(es, es[i].item, es[j].item, g.rest, at) && g.lost == []
  }

  lemma StartIsRight<T>(dims: nat, es: seq<Entry<T>>, g: Groups<T>)
    requires |es| >= 2 && forall i :: 0 <= i < |es| ==> |es[i].box| == dims
    ensures Seeded(dims, es, g) <==> g == Start(dims, es)
  {
    hide AreSeeds, AreOthers, SeedsUpTo;
    var seeds := SeedsUpTo(BoxesOf(es), dims);
    SeedsAreRight(BoxesOf(es), dims);
    if g == Start(dims, es) {
      var at := OthersAreRight(es, es[seeds.one].item, es[seeds.two].item);
      assert SeededBy(dims, es, g, seeds.one, seeds.two, at);
    }
    if i: nat, j: nat, at :| SeededBy(dims, es, g, i, j, at) {
      SeedsAreUnique(BoxesOf(es), dims, i, j, seeds.one, seeds.two);
      OthersAreUnique(es, es[i].item, es[j].item, g.rest, at);
    }
  }

  /** A run of the split on these entries. */
  ghost predicate RightSplit<T>(m: nat, dims: nat, b1: Box, es: seq<Entry<T>>, trace: seq<Groups<T>>)
    requires Uniform(BoxesOf(es), dims)
  {
    RightRounds(m, b1, [], trace) && Seeded(dims, es, trace[0])
  }

  /** `Split` is the last state of such a run, and of every such run. */
  lemma SplitIsRight<T>(m: nat, dims: nat, b1: Box, es: seq<Entry<T>>) returns (trace: seq<Groups<T>>)
    requires |es| >= 2 && forall i :: 0 <= i < |es| ==> |es[i].box| == dims
    ensures RightSplit(m, dims, b1, es, trace) && trace[|trace| - 1] == Split(m, dims, b1, es)
    ensures forall other :: RightSplit(m, dims, b1, es, other) ==> other[|other| - 1] == Split(m, dims, b1, es)
  {
    hide RightRound, Seeded, Start, Distribute;
    StartIsRight(dims, es, Start(dims, es));
    trace := RoundsAreRight(m, b1, [], Start(dims, es));
    forall other | RightSplit(m, dims, b1, es, other)
      ensures other[|other| - 1] == Split(m, dims, b1, es)
    {
      StartIsRight(dims, es, other[0]);
      RoundsAreUnique(m, b1, [], other);
    }
  }
}
