/** The choices made while an overfull node is split: which two entries seed the groups, which
    entry is placed next, and where it goes. The choices depend only on the boxes, so they are
    functions of a list of entries; the methods of `Rtrees` are proved against them. */
module SplitPolicy {
  import opened Wrappers
  import opened Boxes

  datatype Entry<T> = Entry(box: Box, item: T)

  function BoxesOf<T>(es: seq<Entry<T>>): (boxes: seq<Box>)
    ensures |boxes| == |es|
  {
    seq(|es|, i requires 0 <= i < |es| => es[i].box)
  }

  function ItemsOf<T>(es: seq<Entry<T>>): (items: seq<T>)
    ensures |items| == |es|
  {
    seq(|es|, i requires 0 <= i < |es| => es[i].item)
  }

  // ----- extremes -----

  function ArgMax(s: seq<real>): (k: nat)
    requires s != []
    ensures k < |s|
  {
    if |s| == 1 then 0 else
    var k := ArgMax(s[..|s| - 1]);
    if s[|s| - 1] > s[k] then |s| - 1 else k
  }

  function ArgMin(s: seq<real>): (k: nat)
    requires s != []
    ensures k < |s|
  {
    if |s| == 1 then 0 else
    var k := ArgMin(s[..|s| - 1]);
    if s[|s| - 1] < s[k] then |s| - 1 else k
  }

  lemma {:induction false} ArgMaxIsFirst(s: seq<real>)
    requires s != []
    ensures FirstMax(s, ArgMax(s))
  {
    if |s| > 1 {
      ArgMaxIsFirst(s[..|s| - 1]);
    }
  }

  lemma {:induction false} ArgMinIsFirst(s: seq<real>)
    requires s != []
    ensures FirstMin(s, ArgMin(s))
  {
    if |s| > 1 {
      ArgMinIsFirst(s[..|s| - 1]);
    }
  }

  function Lows(boxes: seq<Box>, axis: nat): (s: seq<real>)
    requires forall i :: 0 <= i < |boxes| ==> axis < |boxes[i]|
    ensures |s| == |boxes|
  {
    seq(|boxes|, i requires 0 <= i < |boxes| => boxes[i][axis].lo)
  }

  function Highs(boxes: seq<Box>, axis: nat): (s: seq<real>)
    requires forall i :: 0 <= i < |boxes| ==> axis < |boxes[i]|
    ensures |s| == |boxes|
  {
    seq(|boxes|, i requires 0 <= i < |boxes| => boxes[i][axis].hi)
  }

  // ----- seeds -----

  /** The best axis so far; `best` is None while it is still minus infinity. */
  datatype Seeds = Seeds(best: Option<real>, one: nat, two: nat)

  /** The extremes along one axis. When all boxes are the same point there the quotient is 0/0,
      which compares false. */
  function AxisSeeds(boxes: seq<Box>, axis: nat): (s: Seeds)
    requires boxes != [] && forall i :: 0 <= i < |boxes| ==> axis < |boxes[i]|
    ensures s.one < |boxes| && s.two < |boxes|
  {
    var lows, highs := Lows(boxes, axis), Highs(boxes, axis);
    var one, two := ArgMax(lows), ArgMin(highs);
    var separation, width := lows[one] - highs[two], highs[ArgMax(highs)] - lows[ArgMin(lows)];
    Seeds(if width == 0.0 then None else Some(separation / width), one, two)
  }

  function Better(s: Seeds, acc: Seeds): Seeds {
    if s.best.Some? && (acc.best.None? || s.best.value > acc.best.value) then s else acc
  }

  function BestOf(all: seq<Seeds>): Seeds {
    if all == [] then Seeds(None, 0, 1) else Better(all[|all| - 1], BestOf(all[..|all| - 1]))
  }

  lemma {:induction false} BestOfIsOneOf(all: seq<Seeds>)
    ensures BestOf(all) == Seeds(None, 0, 1) || BestOf(all) in all
  {
    if all != [] {
      BestOfIsOneOf(all[..|all| - 1]);
    }
  }

  function SeedsUpTo(boxes: seq<Box>, axes: nat): (r: Seeds)
    requires |boxes| >= 2 && forall i :: 0 <= i < |boxes| ==> axes <= |boxes[i]|
    ensures r.one < |boxes| && r.two < |boxes|
  {
    var all := seq(axes, axis requires 0 <= axis < axes => AxisSeeds(boxes, axis));
    BestOfIsOneOf(all);
    BestOf(all)
  }

  /** Both groups would be seeded with the same entry. */
  ghost predicate SeedsCoincide(boxes: seq<Box>, dims: nat)
    requires |boxes| >= 2 && Uniform(boxes, dims)
  {
    SeedsUpTo(boxes, dims).one == SeedsUpTo(boxes, dims).two
  }

  // ----- placing one entry -----

  function Enlargement(group: Box, e: Box): (r: real)
    ensures AreaOf(group) + r == AreaOf(Union(group, e))
  {
    AreaOf(Union(group, e)) - AreaOf(group)
  }

  function Abs(x: real): real { if x < 0.0 then -x else x }

  function Preferences(b1: Box, b2: Box, boxes: seq<Box>): (s: seq<real>)
    ensures |s| == |boxes|
  {
    seq(|boxes|, i requires 0 <= i < |boxes| => Abs(Enlargement(b1, boxes[i]) - Enlargement(b2, boxes[i])))
  }

  /** The entry with the greatest preference for one of the groups. */
  function PickNext(b1: Box, b2: Box, boxes: seq<Box>): (k: nat)
    requires boxes != []
    ensures k < |boxes|
  {
    ArgMax(Preferences(b1, b2, boxes))
  }

  datatype Side = One | Two | Neither

  /** The group for an entry, from the group sizes, the number of entries left, and the
      enlargement and the area each group would have with it. When the groups tie on enlargement,
      on area and on size neither receives it. */
  function Decide(m: nat, n1: nat, n2: nat, left: nat, e1: real, e2: real, a1: real, a2: real): Side {
    if n1 + left <= m then One
    else if n2 + left <= m then Two
    else if e1 < e2 || (e1 == e2 && a1 < a2) || (e1 == e2 && a1 == a2 && n1 < n2) then One
    else if e1 > e2 || (e1 == e2 && a1 > a2) || (e1 == e2 && a1 == a2 && n1 > n2) then Two
    else Neither
  }

  function Assign(m: nat, one: seq<Box>, two: seq<Box>, left: nat, e: Box): Side
    requires one != [] && two != []
  {
    Decide(m, |one|, |two|, left, Enlargement(Mbr(one), e), Enlargement(Mbr(two), e),
           AreaOf(Union(Mbr(one), e)), AreaOf(Union(Mbr(two), e)))
  }

  // ----- the whole split -----

  datatype Groups<T> = Groups(one: seq<Entry<T>>, two: seq<Entry<T>>, rest: seq<Entry<T>>, lost: seq<Entry<T>>)

  predicate Started<T>(g: Groups<T>) {
    g.one != [] && g.two != []
  }

  /** The `k`-th entry still to be placed goes to `side`. */
  function Place<T>(g: Groups<T>, k: nat, side: Side): (h: Groups<T>)
    requires Started(g) && k < |g.rest|
    ensures Started(h) && |h.rest| == |g.rest| - 1
  {
    var rest := g.rest[..k] + g.rest[k + 1..];
    match side
    case One => Groups(g.one + [g.rest[k]], g.two, rest, g.lost)
    case Two => Groups(g.one, g.two + [g.rest[k]], rest, g.lost)
    case Neither => Groups(g.one, g.two, rest, g.lost + [g.rest[k]])
  }

  /** One round of the distribution loop; `b1` and `b2` are the bounds the two nodes carry. */
  function Round<T>(m: nat, b1: Box, b2: Box, g: Groups<T>): (h: Groups<T>)
    requires Started(g) && g.rest != []
    ensures Started(h) && |h.rest| == |g.rest| - 1
  {
    var k := PickNext(b1, b2, BoxesOf(g.rest));
    Place(g, k, Assign(m, BoxesOf(g.one), BoxesOf(g.two), |g.rest|, g.rest[k].box))
  }

  function Distribute<T>(m: nat, b1: Box, b2: Box, g: Groups<T>): (h: Groups<T>)
    requires Started(g)
    ensures Started(h)
    decreases |g.rest|
  {
    if g.rest == [] then g else Distribute(m, b1, b2, Round(m, b1, b2, g))
  }

  /** The entries other than the seeds, which are recognised by identity. */
  function Others<T(==)>(es: seq<Entry<T>>, s1: T, s2: T): seq<Entry<T>> {
    if es == [] then [] else
    Others(es[..|es| - 1], s1, s2) +
    (if es[|es| - 1].item != s1 && es[|es| - 1].item != s2 then [es[|es| - 1]] else [])
  }

  function Start<T(==)>(dims: nat, es: seq<Entry<T>>): (g: Groups<T>)
    requires |es| >= 2 && forall i :: 0 <= i < |es| ==> |es[i].box| == dims
    ensures Started(g)
  {
    var seeds := SeedsUpTo(BoxesOf(es), dims);
    var e1, e2 := es[seeds.one], es[seeds.two];
    Groups([e1], [e2], Others(es, e1.item, e2.item), [])
  }

  function Split<T(==)>(m: nat, dims: nat, b1: Box, es: seq<Entry<T>>): (g: Groups<T>)
    requires |es| >= 2 && forall i :: 0 <= i < |es| ==> |es[i].box| == dims
    ensures Started(g)
  {
    Distribute(m, b1, [], Start(dims, es))
  }

  // ----- what the split keeps -----

  ghost function All<T>(g: Groups<T>): multiset<Entry<T>> {
    multiset(g.one) + multiset(g.two) + multiset(g.rest) + multiset(g.lost)
  }

  /** A round only moves an entry. */
  lemma PlaceKeepsAll<T>(g: Groups<T>, k: nat, side: Side)
    requires Started(g) && k < |g.rest|
    ensures All(Place(g, k, side)) == All(g)
  {
    assert g.rest == g.rest[..k] + [g.rest[k]] + g.rest[k + 1..];
  }

  lemma {:induction false} DistributeKeepsAll<T>(m: nat, b1: Box, b2: Box, g: Groups<T>)
    requires Started(g)
    ensures All(Distribute(m, b1, b2, g)) == All(g)
    ensures Distribute(m, b1, b2, g).rest == []
    ensures |g.lost| <= |Distribute(m, b1, b2, g).lost|
    decreases |g.rest|
  {
    if g.rest != [] {
      var k := PickNext(b1, b2, BoxesOf(g.rest));
      PlaceKeepsAll(g, k, Assign(m, BoxesOf(g.one), BoxesOf(g.two), |g.rest|, g.rest[k].box));
      DistributeKeepsAll(m, b1, b2, Round(m, b1, b2, g));
    }
  }

  /** Each group can still reach the minimum. */
  predicate CanFill<T>(m: nat, g: Groups<T>) {
    |g.one| + |g.rest| >= m && |g.two| + |g.rest| >= m && |g.one| + |g.two| + |g.rest| >= 2 * m
  }

  lemma {:induction false} DistributeFills<T>(m: nat, b1: Box, b2: Box, g: Groups<T>)
    requires Started(g) && CanFill(m, g)
    requires |Distribute(m, b1, b2, g).lost| == |g.lost|
    ensures |Distribute(m, b1, b2, g).one| >= m && |Distribute(m, b1, b2, g).two| >= m
    decreases |g.rest|
  {
    if g.rest != [] {
      var h := Round(m, b1, b2, g);
      DistributeKeepsAll(m, b1, b2, h);
      DistributeFills(m, b1, b2, h);
    }
  }

  ghost predicate DistinctItems<T>(es: seq<Entry<T>>) {
    forall k, l :: 0 <= k < l < |es| ==> es[k].item != es[l].item
  }

  lemma {:induction false} OthersCount<T>(es: seq<Entry<T>>, s1: T, s2: T, e: Entry<T>)
    ensures multiset(Others(es, s1, s2))[e] == if e.item == s1 || e.item == s2 then 0 else multiset(es)[e]
  {
    if es != [] {
      OthersCount(es[..|es| - 1], s1, s2, e);
      assert es == es[..|es| - 1] + [es[|es| - 1]];
    }
  }

  lemma {:induction false} DistinctCount<T>(es: seq<Entry<T>>, i: nat, e: Entry<T>)
    requires DistinctItems(es) && i < |es| && e.item == es[i].item
    ensures multiset(es)[e] == if e == es[i] then 1 else 0
  {
    assert es == es[..i] + [es[i]] + es[i + 1..];
    assert e !in es[..i] && e !in es[i + 1..];
  }

  lemma SeedsAndOthersCount<T>(es: seq<Entry<T>>, i: nat, j: nat, e: Entry<T>)
    requires DistinctItems(es) && i < |es| && j < |es|
    ensures (if e == es[i] then 1 else 0) + (if e == es[j] && i != j then 1 else 0)
            + multiset(Others(es, es[i].item, es[j].item))[e] == multiset(es)[e]
  {
    OthersCount(es, es[i].item, es[j].item, e);
    if e.item == es[i].item {
      DistinctCount(es, i, e);
      assert e == es[j] ==> i == j;
    } else if e.item == es[j].item {
      DistinctCount(es, j, e);
    }
  }

  /** Both seeds and the other entries make up the list, a seed chosen twice counting twice. */
  lemma SeedsAndOthers<T>(es: seq<Entry<T>>, i: nat, j: nat)
    requires DistinctItems(es) && i < |es| && j < |es|
    ensures multiset{es[i]} + multiset{es[j]} + multiset(Others(es, es[i].item, es[j].item)) ==
            multiset(es) + (if i == j then multiset{es[i]} else multiset{})
  {
    var others := multiset(Others(es, es[i].item, es[j].item));
    forall e: Entry<T>
      ensures (if e == es[i] then 1 else 0) + (if e == es[j] && i != j then 1 else 0) + others[e] == multiset(es)[e]
    {
      SeedsAndOthersCount(es, i, j, e);
    }
    FromCounts(es[i], es[j], i == j, others, multiset(es));
  }

  lemma FromCounts<X>(a: X, b: X, same: bool, others: multiset<X>, all: multiset<X>)
    requires same ==> a == b
    requires forall e: X :: (if e == a then 1 else 0) + (if e == b && !same then 1 else 0) + others[e] == all[e]
    ensures multiset{a} + multiset{b} + others == all + (if same then multiset{a} else multiset{})
  {
  }

  ghost function SeedTwice<T>(dims: nat, es: seq<Entry<T>>): multiset<Entry<T>>
    requires |es| >= 2 && forall i :: 0 <= i < |es| ==> |es[i].box| == dims
  {
    var seeds := SeedsUpTo(BoxesOf(es), dims);
    if seeds.one == seeds.two then multiset{es[seeds.one]} else multiset{}
  }

  lemma StartHasAll<T>(dims: nat, es: seq<Entry<T>>)
    requires |es| >= 2 && forall i :: 0 <= i < |es| ==> |es[i].box| == dims
    requires DistinctItems(es)
    ensures All(Start(dims, es)) == multiset(es) + SeedTwice(dims, es)
  {
    var seeds := SeedsUpTo(BoxesOf(es), dims);
    SeedsAndOthers(es, seeds.one, seeds.two);
  }

  /** Every entry ends in one of the groups or among the lost ones; a seed chosen twice is there twice. */
  lemma SplitAccountsForAll<T>(m: nat, dims: nat, b1: Box, es: seq<Entry<T>>)
    requires |es| >= 2 && forall i :: 0 <= i < |es| ==> |es[i].box| == dims
    requires DistinctItems(es)
    ensures var g := Split(m, dims, b1, es);
      multiset(g.one) + multiset(g.two) + multiset(g.lost) == multiset(es) + SeedTwice(dims, es)
  {
    StartHasAll(dims, es);
    DistributeKeepsAll(m, b1, [], Start(dims, es));
  }

  /** The split partitions the entries exactly when its seeds are distinct and no entry is lost. */
  lemma SplitPartitionsIff<T>(m: nat, dims: nat, b1: Box, es: seq<Entry<T>>)
    requires |es| >= 2 && forall i :: 0 <= i < |es| ==> |es[i].box| == dims
    requires DistinctItems(es)
    ensures var g := Split(m, dims, b1, es);
      multiset(g.one) + multiset(g.two) == multiset(es) <==> !SeedsCoincide(BoxesOf(es), dims) && g.lost == []
  {
    SplitAccountsForAll(m, dims, b1, es);
    var g := Split(m, dims, b1, es);
    CancelLeft(multiset(g.one) + multiset(g.two), multiset(g.lost), multiset(es), SeedTwice(dims, es));
    if multiset(g.lost) == SeedTwice(dims, es) {
      LostIsNotTheSeed(m, dims, b1, es);
    }
  }

  /** The groups tie on enlargement, on area and on size, and neither has to be filled. */
  ghost predicate FullTie(m: nat, one: seq<Box>, two: seq<Box>, left: nat, e: Box)
    requires one != [] && two != []
  {
    |one| == |two| && m < |one| + left && Enlargement(Mbr(one), e) == Enlargement(Mbr(two), e) &&
    AreaOf(Union(Mbr(one), e)) == AreaOf(Union(Mbr(two), e))
  }

  /** No round of the distribution comes upon a full tie. */
  ghost predicate NoFullTie<T>(m: nat, b1: Box, b2: Box, g: Groups<T>)
    requires Started(g)
    decreases |g.rest|
  {
    g.rest == [] ||
    (!FullTie(m, BoxesOf(g.one), BoxesOf(g.two), |g.rest|, g.rest[PickNext(b1, b2, BoxesOf(g.rest))].box) &&
     NoFullTie(m, b1, b2, Round(m, b1, b2, g)))
  }

  /** Entries are lost exactly in the rounds with a full tie. */
  lemma {:induction false} LostIffFullTie<T>(m: nat, b1: Box, b2: Box, g: Groups<T>)
    requires Started(g)
    ensures |Distribute(m, b1, b2, g).lost| >= |g.lost|
    ensures |Distribute(m, b1, b2, g).lost| == |g.lost| <==> NoFullTie(m, b1, b2, g)
    decreases |g.rest|
  {
    if g.rest != [] {
      LostIffFullTie(m, b1, b2, Round(m, b1, b2, g));
    }
  }

  /** In terms of the guards: the split partitions the entries exactly when its seeds are two entries
      and no round comes upon a full tie. */
  lemma SplitPartitionsUnlessTied<T>(m: nat, dims: nat, b1: Box, es: seq<Entry<T>>)
    requires |es| >= 2 && forall i :: 0 <= i < |es| ==> |es[i].box| == dims
    requires DistinctItems(es)
    ensures var g := Split(m, dims, b1, es);
      multiset(g.one) + multiset(g.two) == multiset(es) <==>
      !SeedsCoincide(BoxesOf(es), dims) && NoFullTie(m, b1, [], Start(dims, es))
  {
    SplitPartitionsIff(m, dims, b1, es);
    LostIffFullTie(m, b1, [], Start(dims, es));
  }

  lemma CancelLeft<X>(a: multiset<X>, b: multiset<X>, c: multiset<X>, d: multiset<X>)
    requires a + b == c + d
    ensures a == c <==> b == d
  {
    assert forall x: X :: a[x] + b[x] == (a + b)[x] == (c + d)[x] == c[x] + d[x];
  }

  lemma LostIsNotTheSeed<T>(m: nat, dims: nat, b1: Box, es: seq<Entry<T>>)
    requires |es| >= 2 && forall i :: 0 <= i < |es| ==> |es[i].box| == dims
    requires multiset(Split(m, dims, b1, es).lost) == SeedTwice(dims, es)
    ensures !SeedsCoincide(BoxesOf(es), dims) && Split(m, dims, b1, es).lost == []
  {
    var seeds := SeedsUpTo(BoxesOf(es), dims);
    if seeds.one == seeds.two {
      var seed := es[seeds.one];
      OthersCount(es, seed.item, seed.item, seed);
      LostWasRest(m, b1, [], Start(dims, es), seed);
      assert false;
    }
    assert |multiset(Split(m, dims, b1, es).lost)| == 0;
  }

  lemma PlaceMovesOne<T>(g: Groups<T>, k: nat, side: Side, e: Entry<T>)
    requires Started(g) && k < |g.rest|
    ensures var h := Place(g, k, side);
      multiset(h.lost)[e] + multiset(h.rest)[e] <= multiset(g.lost)[e] + multiset(g.rest)[e]
  {
    assert g.rest == g.rest[..k] + [g.rest[k]] + g.rest[k + 1..];
  }

  /** Only entries still to be placed can be lost. */
  lemma {:induction false} LostWasRest<T>(m: nat, b1: Box, b2: Box, g: Groups<T>, e: Entry<T>)
    requires Started(g)
    ensures multiset(Distribute(m, b1, b2, g).lost)[e] <= multiset(g.lost)[e] + multiset(g.rest)[e]
    decreases |g.rest|
  {
    if g.rest != [] {
      var k := PickNext(b1, b2, BoxesOf(g.rest));
      PlaceMovesOne(g, k, Assign(m, BoxesOf(g.one), BoxesOf(g.two), |g.rest|, g.rest[k].box), e);
      LostWasRest(m, b1, b2, Round(m, b1, b2, g), e);
    }
  }

  /** With distinct seeds and nothing lost, both groups of a full node reach the minimum. */
  lemma SplitFills<T>(m: nat, dims: nat, b1: Box, es: seq<Entry<T>>)
    requires |es| >= 2 && forall i :: 0 <= i < |es| ==> |es[i].box| == dims
    requires DistinctItems(es) && 1 <= m && 2 * m <= |es|
    requires !SeedsCoincide(BoxesOf(es), dims) && Split(m, dims, b1, es).lost == []
    ensures var g := Split(m, dims, b1, es);
      m <= |g.one| <= |es| - m && m <= |g.two| <= |es| - m
  {
    var g0 := Start(dims, es);
    StartHasAll(dims, es);
    assert |All(g0)| == 2 + |g0.rest|;
    DistributeFills(m, b1, [], g0);
    SplitAccountsForAll(m, dims, b1, es);
    var g := Split(m, dims, b1, es);
    assert |multiset(g.one) + multiset(g.two) + multiset(g.lost)| == |g.one| + |g.two|;
  }

  ghost predicate Distinct<T>(s: seq<T>) {
    forall k, l :: 0 <= k < l < |s| ==> s[k] != s[l]
  }

  lemma {:induction false} DistinctIffCounts<X>(s: seq<X>)
    ensures Distinct(s) <==> forall x :: multiset(s)[x] <= 1
  {
    forall k, l | 0 <= k < l < |s| && s[k] == s[l]
      ensures multiset(s)[s[k]] >= 2
    {
      assert s == s[..k] + [s[k]] + s[k + 1..l] + [s[l]] + s[l + 1..];
    }
    if Distinct(s) {
      forall x | x in s
        ensures multiset(s)[x] == 1
      {
        var k :| 0 <= k < |s| && s[k] == x;
        assert s == s[..k] + [x] + s[k + 1..];
        assert x !in s[..k] && x !in s[k + 1..];
      }
    }
  }

  /** A partition of distinct items gives two distinct, disjoint lists. */
  lemma PartitionOfDistinct<X>(s: seq<X>, one: seq<X>, two: seq<X>)
    requires Distinct(s) && multiset(one) + multiset(two) == multiset(s)
    ensures Distinct(one) && Distinct(two)
    ensures forall x :: x in s <==> x in one || x in two
    ensures forall x :: !(x in one && x in two)
  {
    DistinctIffCounts(s);
    forall x
      ensures multiset(one)[x] + multiset(two)[x] == multiset(s)[x] <= 1
    {
      assert (multiset(one) + multiset(two))[x] == multiset(s)[x];
    }
    DistinctIffCounts(one);
    DistinctIffCounts(two);
    forall x
      ensures (x in s <==> x in one || x in two) && !(x in one && x in two)
    {
      assert x in s <==> multiset(s)[x] > 0;
      assert x in one <==> multiset(one)[x] > 0;
      assert x in two <==> multiset(two)[x] > 0;
    }
  }

  lemma PartitionOfItems<T>(es: seq<Entry<T>>, one: seq<Entry<T>>, two: seq<Entry<T>>)
    requires DistinctItems(es) && multiset(one) + multiset(two) == multiset(es)
    ensures Distinct(ItemsOf(one)) && Distinct(ItemsOf(two))
    ensures forall x :: x in ItemsOf(es) ==> x in ItemsOf(one) || x in ItemsOf(two)
    ensures forall x :: x in ItemsOf(one) ==> x in ItemsOf(es) && x !in ItemsOf(two)
    ensures forall x :: x in ItemsOf(two) ==> x in ItemsOf(es)
  {
    PartitionOfDistinct(es, one, two);
    SameItemSameEntry(es, one, one);
    SameItemSameEntry(es, two, two);
    SameItemSameEntry(es, one, two);
    forall x
      ensures x in ItemsOf(es) <==> x in ItemsOf(one) || x in ItemsOf(two)
    {
      InItems(es, x);
      InItems(one, x);
      InItems(two, x);
    }
    forall x | x in ItemsOf(one)
      ensures x !in ItemsOf(two)
    {
      var k :| 0 <= k < |one| && one[k].item == x;
      assert one[k] in one;
      assert forall l :: 0 <= l < |two| ==> two[l] in two;
    }
  }

  lemma InItems<T>(es: seq<Entry<T>>, x: T)
    ensures x in ItemsOf(es) <==> exists e :: e in es && e.item == x
  {
    if x in ItemsOf(es) {
      var k :| 0 <= k < |es| && ItemsOf(es)[k] == x;
      assert es[k] in es;
    }
    if e :| e in es && e.item == x {
      var k :| 0 <= k < |es| && es[k] == e;
      assert ItemsOf(es)[k] == x;
    }
  }

  lemma SameItemSameEntry<T>(es: seq<Entry<T>>, one: seq<Entry<T>>, two: seq<Entry<T>>)
    requires DistinctItems(es)
    requires (forall e :: e in one ==> e in es) && (forall e :: e in two ==> e in es)
    ensures forall k, l :: 0 <= k < |one| && 0 <= l < |two| && one[k].item == two[l].item ==> one[k] == two[l]
  {
    forall k, l | 0 <= k < |one| && 0 <= l < |two| && one[k].item == two[l].item
      ensures one[k] == two[l]
    {
      assert one[k] in es && two[l] in es;
    }
  }

  // ----- when the seeds are distinct -----

  ghost predicate SameSize(boxes: seq<Box>, sizes: seq<real>) {
    Uniform(boxes, |sizes|) &&
    (forall axis :: 0 <= axis < |sizes| ==> sizes[axis] > 0.0) &&
    forall i, axis :: 0 <= i < |boxes| && 0 <= axis < |sizes| ==>
      boxes[i][axis].hi == boxes[i][axis].lo + sizes[axis]
  }

  /** Two of the boxes differ along the axis. */
  ghost predicate Spread(boxes: seq<Box>, axis: nat)
    requires forall i :: 0 <= i < |boxes| ==> axis < |boxes[i]|
  {
    exists i, j :: 0 <= i < |boxes| && 0 <= j < |boxes| && boxes[i][axis].lo < boxes[j][axis].lo
  }

  lemma SpreadQuotient(d: real, w: real)
    requires d >= 0.0 && w > 0.0
    ensures d > 0.0 ==> (d - w) / (d + w) > -1.0
    ensures d == 0.0 ==> (d - w) / (d + w) == -1.0
  {
    var q := (d - w) / (d + w);
    assert q * (d + w) == d - w;
    if q < -1.0 || (d > 0.0 && q == -1.0) {
      assert q * (d + w) <= -1.0 * (d + w);
    }
  }

  /** The separation is at least -1, and a separation above -1 names two entries;
      `found` says that it is above -1. */
  ghost predicate Apart(s: Seeds, found: bool) {
    (s.best.Some? ==> s.best.value >= -1.0) &&
    (s.best.None? || s.best.value > -1.0 ==> s.one != s.two) &&
    (found ==> s.best.Some? && s.best.value > -1.0)
  }

  lemma AxisOfSameSize(boxes: seq<Box>, sizes: seq<real>, axis: nat)
    requires |boxes| >= 2 && SameSize(boxes, sizes) && axis < |sizes|
    ensures Apart(AxisSeeds(boxes, axis), Spread(boxes, axis)) && AxisSeeds(boxes, axis).best.Some?
  {
    var lows, highs := Lows(boxes, axis), Highs(boxes, axis);
    var one, two := ArgMax(lows), ArgMin(highs);
    ArgMaxIsFirst(lows);
    ArgMinIsFirst(highs);
    ArgMaxIsFirst(highs);
    ArgMinIsFirst(lows);
    var w := sizes[axis];
    assert forall i :: 0 <= i < |boxes| ==> highs[i] == lows[i] + w;
    assert lows[ArgMin(lows)] == lows[two] by {
      assert highs[ArgMin(lows)] >= highs[two];
    }
    assert highs[ArgMax(highs)] == lows[one] + w by {
      assert highs[one] <= highs[ArgMax(highs)];
    }
    var d := lows[one] - lows[two];
    SpreadQuotient(d, w);
    if Spread(boxes, axis) {
      var i, j :| 0 <= i < |boxes| && 0 <= j < |boxes| && boxes[i][axis].lo < boxes[j][axis].lo;
      assert lows[i] < lows[j];
      assert d > 0.0;
    }
  }

  lemma {:induction false} BestIsApart(all: seq<Seeds>, k: nat)
    requires forall i :: 0 <= i < |all| ==> all[i].best.Some? && Apart(all[i], i == k)
    ensures Apart(BestOf(all), k < |all|)
  {
    if all != [] {
      BestIsApart(all[..|all| - 1], k);
    }
  }

  /** Boxes of one positive size that are not all the same box are seeded with two different entries. */
  lemma SameSizeSeedsDiffer(boxes: seq<Box>, sizes: seq<real>, i: nat, j: nat)
    requires |boxes| >= 2 && SameSize(boxes, sizes)
    requires i < |boxes| && j < |boxes| && boxes[i] != boxes[j]
    ensures !SeedsCoincide(boxes, |sizes|)
  {
    var axis := SomeSpreadAxis(boxes, sizes, i, j);
    var all := seq(|sizes|, a requires 0 <= a < |sizes| => AxisSeeds(boxes, a));
    forall a | 0 <= a < |sizes|
      ensures all[a].best.Some? && Apart(all[a], a == axis)
    {
      AxisOfSameSize(boxes, sizes, a);
    }
    BestIsApart(all, axis);
  }

  lemma SomeSpreadAxis(boxes: seq<Box>, sizes: seq<real>, i: nat, j: nat) returns (axis: nat)
    requires SameSize(boxes, sizes) && i < |boxes| && j < |boxes| && boxes[i] != boxes[j]
    ensures axis < |sizes| && Spread(boxes, axis)
  {
    axis :| 0 <= axis < |sizes| && boxes[i][axis] != boxes[j][axis];
    assert boxes[i][axis].hi == boxes[i][axis].lo + sizes[axis] && boxes[j][axis].hi == boxes[j][axis].lo + sizes[axis];
    assert boxes[i][axis].lo < boxes[j][axis].lo || boxes[j][axis].lo < boxes[i][axis].lo;
  }

  // ----- concrete splits that do not partition -----

  /** A small box inside two larger ones is both extremes, so it seeds both groups. */
  lemma NestedBoxSeedsBothGroups()
    ensures SeedsCoincide([[Interval(0.0, 10.0)], [Interval(4.0, 5.0)], [Interval(0.0, 10.0)]], 1)
  {
    var boxes := [[Interval(0.0, 10.0)], [Interval(4.0, 5.0)], [Interval(0.0, 10.0)]];
    var lows, highs := Lows(boxes, 0), Highs(boxes, 0);
    assert lows == [0.0, 4.0, 0.0] && highs == [10.0, 5.0, 10.0];
    assert ArgMax(lows) == 1 && ArgMin(highs) == 1 && ArgMax(highs) == 0 && ArgMin(lows) == 0;
    assert SeedsUpTo(boxes, 0) == Seeds(None, 0, 1);
  }

  ghost const THREE_IN_A_ROW :=
    [Entry([Interval(0.0, 1.0)], 0), Entry([Interval(5.0, 6.0)], 1), Entry([Interval(10.0, 11.0)], 2)]

  /** A box halfway between two seeds of its own size ties on every count and is lost. */
  lemma MiddleBoxIsLost(b1: Box)
    ensures Split(1, 1, b1, THREE_IN_A_ROW).lost == [THREE_IN_A_ROW[1]]
  {
    var es := THREE_IN_A_ROW;
    StartInARow();
    TieIsLost(es[2], es[0], es[1]);
    LastRound(b1, es[2], es[0], es[1]);
  }

  lemma LastRound<T>(b1: Box, one: Entry<T>, two: Entry<T>, e: Entry<T>)
    requires Assign(1, [one.box], [two.box], 1, e.box) == Neither
    ensures Distribute(1, b1, [], Groups([one], [two], [e], [])) == Groups([one], [two], [], [e])
  {
    var g := Groups([one], [two], [e], []);
    assert BoxesOf(g.one) == [one.box] && BoxesOf(g.two) == [two.box] && BoxesOf(g.rest) == [e.box];
    assert Round(1, b1, [], g) == Groups([one], [two], [], [e]);
  }

  lemma StartInARow()
    ensures var es := THREE_IN_A_ROW; Start(1, es) == Groups([es[2]], [es[0]], [es[1]], [])
  {
    var es := THREE_IN_A_ROW;
    SeedsInARow(BoxesOf(es));
    OthersOfThree(es[0], es[1], es[2]);
  }

  lemma OthersOfThree(a: Entry<int>, b: Entry<int>, c: Entry<int>)
    requires a.item != b.item && b.item != c.item
    ensures Others([a, b, c], c.item, a.item) == [b]
  {
    assert [a, b, c][..2] == [a, b] && [a, b][..1] == [a] && [a][..0] == [];
    assert Others([a], c.item, a.item) == [];
    assert Others([a, b], c.item, a.item) == [b];
  }

  lemma SeedsInARow(boxes: seq<Box>)
    requires boxes == [[Interval(0.0, 1.0)], [Interval(5.0, 6.0)], [Interval(10.0, 11.0)]]
    ensures SeedsUpTo(boxes, 1).one == 2 && SeedsUpTo(boxes, 1).two == 0
  {
    var lows, highs := Lows(boxes, 0), Highs(boxes, 0);
    assert lows == [0.0, 5.0, 10.0] && highs == [1.0, 6.0, 11.0];
    ArgMaxIsFirst(lows);
    ArgMinIsFirst(highs);
    ArgMaxIsFirst(highs);
    ArgMinIsFirst(lows);
    assert ArgMax(lows) == 2 && ArgMin(highs) == 0 && ArgMax(highs) == 2 && ArgMin(lows) == 0;
    assert SeedsUpTo(boxes, 0) == Seeds(None, 0, 1);
  }

  lemma TieIsLost<T>(one: Entry<T>, two: Entry<T>, e: Entry<T>)
    requires one.box == [Interval(10.0, 11.0)] && two.box == [Interval(0.0, 1.0)] && e.box == [Interval(5.0, 6.0)]
    ensures Assign(1, [one.box], [two.box], 1, e.box) == Neither
  {
    assert Union(one.box, e.box) == [Interval(5.0, 11.0)];
    assert Union(two.box, e.box) == [Interval(0.0, 6.0)];
    OneAxisArea(Interval(10.0, 11.0));
    OneAxisArea(Interval(0.0, 1.0));
    OneAxisArea(Interval(5.0, 11.0));
    OneAxisArea(Interval(0.0, 6.0));
  }

  lemma OneAxisArea(i: Interval)
    ensures AreaOf([i]) == i.hi - i.lo
  {
    assert [i][..0] == [];
  }
}
