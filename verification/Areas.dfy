/** What area means: the laws that make `AreaOf` the only possible measure of a box, and what they
    say of enlargement. */
module Areas {
  import opened Boxes
  import opened SplitPolicy

  function Width(i: Interval): real {
    i.hi - i.lo
  }

  lemma AreaOfLast(b: Box)
    requires b != []
    ensures AreaOf(b) == AreaOf(b[..|b| - 1]) * Width(b[|b| - 1])
  {
  }

  lemma Regrouped(area: real, front: real, last: real, axis: real, others: real, rest: real)
    requires area == front * last && front == axis * others && rest == others * last
    ensures area == axis * rest
  {
  }

  lemma SameProduct(a: real, b: real, c: real)
    requires a == b
    ensures a * c == b * c == c * a
  {
  }

  /** Any one axis is a factor of the area. */
  lemma {:induction false} AxisIsFactor(b: Box, k: nat)
    requires k < |b|
    ensures AreaOf(b) == Width(b[k]) * AreaOf(b[..k] + b[k + 1..])
  {
    hide AreaOf, Width;
    var n := |b| - 1;
    var (front, rest) := (b[..n], b[..k] + b[k + 1..]);
    AreaOfLast(b);
    if k == n {
      assert rest == front;
    } else {
      AxisIsFactor(front, k);
      AreaOfLast(rest);
      assert front[..k] + front[k + 1..] == rest[..|rest| - 1] && rest[|rest| - 1] == b[n];
      Regrouped(AreaOf(b), AreaOf(front), Width(b[n]), Width(b[k]), AreaOf(rest[..|rest| - 1]), AreaOf(rest));
    }
  }

  lemma AxisReplaced(b: Box, k: nat, i: Interval)
    requires k < |b|
    ensures AreaOf(b[k := i]) == Width(i) * AreaOf(b[..k] + b[k + 1..])
  {
    AxisIsFactor(b[k := i], k);
    assert b[k := i][..k] + b[k := i][k + 1..] == b[..k] + b[k + 1..];
  }

  // ----- the laws -----

  /** The unit box of any number of axes. */
  ghost predicate IsUnit(b: Box) {
    forall axis :: 0 <= axis < |b| ==> b[axis] == Interval(0.0, 1.0)
  }

  lemma {:induction false} AreaOfUnit(b: Box)
    requires IsUnit(b)
    ensures AreaOf(b) == 1.0
  {
    if b != [] {
      AreaOfUnit(b[..|b| - 1]);
    }
  }

  lemma CutWidths(lo: real, x: real, hi: real, rest: real)
    ensures Width(Interval(lo, x)) * rest + Width(Interval(x, hi)) * rest == Width(Interval(lo, hi)) * rest
  {
  }

  /** Cutting a box at a coordinate of one axis divides its area. */
  lemma AreaOfCut(b: Box, k: nat, x: real)
    requires k < |b|
    ensures AreaOf(b[k := Interval(b[k].lo, x)]) + AreaOf(b[k := Interval(x, b[k].hi)]) == AreaOf(b)
  {
    hide AreaOf;
    var rest := AreaOf(b[..k] + b[k + 1..]);
    AxisIsFactor(b, k);
    AxisReplaced(b, k, Interval(b[k].lo, x));
    AxisReplaced(b, k, Interval(x, b[k].hi));
    CutWidths(b[k].lo, x, b[k].hi, rest);
  }

  function Scaled(i: Interval, factor: real): Interval {
    Interval(i.lo, i.lo + factor * Width(i))
  }

  function Stretched(b: Box, k: nat, factor: real): (r: Box)
    requires k < |b|
    ensures |r| == |b|
  {
    b[k := Scaled(b[k], factor)]
  }

  function Moved(b: Box, k: nat, step: real): (r: Box)
    requires k < |b|
    ensures |r| == |b|
  {
    b[k := Interval(b[k].lo + step, b[k].hi + step)]
  }

  lemma StretchedWidth(i: Interval, factor: real)
    ensures Width(Scaled(i, factor)) == factor * Width(i)
  {
  }

  /** Stretching one axis by a factor multiplies the area by it. */
  lemma AreaOfStretched(b: Box, k: nat, factor: real)
    requires k < |b|
    ensures AreaOf(Stretched(b, k, factor)) == factor * AreaOf(b)
  {
    hide AreaOf, Width, Scaled;
    var i := Scaled(b[k], factor);
    AxisIsFactor(b, k);
    AxisReplaced(b, k, i);
    StretchedWidth(b[k], factor);
    Regrouped(AreaOf(b[k := i]), Width(i), AreaOf(b[..k] + b[k + 1..]), factor, Width(b[k]), AreaOf(b));
  }

  lemma MovedWidth(i: Interval, step: real)
    ensures Width(Interval(i.lo + step, i.hi + step)) == Width(i)
  {
  }

  /** Moving a box along one axis does not change its area. */
  lemma AreaOfMoved(b: Box, k: nat, step: real)
    requires k < |b|
    ensures AreaOf(Moved(b, k, step)) == AreaOf(b)
  {
    hide AreaOf, Width;
    AxisIsFactor(b, k);
    AxisReplaced(b, k, Interval(b[k].lo + step, b[k].hi + step));
    MovedWidth(b[k], step);
    SameProduct(Width(Interval(b[k].lo + step, b[k].hi + step)), Width(b[k]), AreaOf(b[..k] + b[k + 1..]));
  }

  /** A measure of boxes with these laws: 1 for unit boxes, multiplied by stretching, unchanged by moving. */
  ghost predicate Measures(f: Box -> real) {
    (forall b :: IsUnit(b) ==> f(b) == 1.0) &&
    (forall b, k: nat, factor :: k < |b| ==> f(Stretched(b, k, factor)) == factor * f(b)) &&
    forall b, k: nat, step :: k < |b| ==> f(Moved(b, k, step)) == f(b)
  }

  /** The box `b` on the first `k` axes, and the unit interval on the others. */
  function UnitAfter(b: Box, k: nat): (u: Box)
    requires k <= |b|
    ensures |u| == |b|
  {
    seq(|b|, axis requires 0 <= axis < |b| => if axis < k then b[axis] else Interval(0.0, 1.0))
  }

  lemma {:induction false} MeasuredUpTo(f: Box -> real, b: Box, k: nat)
    requires Measures(f) && k <= |b|
    ensures f(UnitAfter(b, k)) == AreaOf(UnitAfter(b, k))
  {
    hide AreaOf, Stretched, Moved, Width, Measures;
    if k == 0 {
      AreaOfUnit(UnitAfter(b, 0));
      MeasureOfUnit(f, UnitAfter(b, 0));
    } else {
      MeasuredUpTo(f, b, k - 1);
      NextAxis(b, k - 1);
      var (u, v) := (UnitAfter(b, k - 1), Stretched(UnitAfter(b, k - 1), k - 1, Width(b[k - 1])));
      MeasureOfStretched(f, u, k - 1, Width(b[k - 1]));
      MeasureOfMoved(f, v, k - 1, b[k - 1].lo);
    }
  }

  lemma MeasureOfStretched(f: Box -> real, b: Box, k: nat, factor: real)
    requires Measures(f) && k < |b| && f(b) == AreaOf(b)
    ensures f(Stretched(b, k, factor)) == AreaOf(Stretched(b, k, factor))
  {
    hide AreaOf, Stretched, IsUnit;
    AreaOfStretched(b, k, factor);
    assert f(Stretched(b, k, factor)) == factor * f(b);
    SameProduct(f(b), AreaOf(b), factor);
  }

  lemma MeasureOfUnit(f: Box -> real, b: Box)
    requires Measures(f) && IsUnit(b)
    ensures f(b) == 1.0
  {
    hide IsUnit;
  }

  lemma MeasureOfMoved(f: Box -> real, b: Box, k: nat, step: real)
    requires Measures(f) && k < |b| && f(b) == AreaOf(b)
    ensures f(Moved(b, k, step)) == AreaOf(Moved(b, k, step))
  {
    hide AreaOf, Moved, IsUnit;
    AreaOfMoved(b, k, step);
  }

  lemma NextAxis(b: Box, i: nat)
    requires i < |b|
    ensures Moved(Stretched(UnitAfter(b, i), i, Width(b[i])), i, b[i].lo) == UnitAfter(b, i + 1)
  {
    assert Width(UnitAfter(b, i)[i]) == 1.0;
    assert Width(b[i]) * 1.0 == Width(b[i]);
  }

  /** `AreaOf` is the only such measure. */
  lemma AreaIsTheOnlyMeasure(f: Box -> real)
    ensures Measures(f) <==> forall b :: f(b) == AreaOf(b)
  {
    hide AreaOf, Stretched, Moved;
    if Measures(f) {
      forall b
        ensures f(b) == AreaOf(b)
      {
        MeasuredUpTo(f, b, |b|);
        assert UnitAfter(b, |b|) == b;
      }
    }
    if forall b :: f(b) == AreaOf(b) {
      forall b | IsUnit(b)
        ensures f(b) == 1.0
      {
        AreaOfUnit(b);
      }
      forall b, k: nat, factor | k < |b|
        ensures f(Stretched(b, k, factor)) == factor * f(b)
      {
        AreaOfStretched(b, k, factor);
      }
      forall b, k: nat, step | k < |b|
        ensures f(Moved(b, k, step)) == f(b)
      {
        AreaOfMoved(b, k, step);
      }
    }
  }

  // ----- flat boxes and boxes in boxes -----

  /** No width is negative. */
  ghost predicate Upright(b: Box) {
    forall axis :: 0 <= axis < |b| ==> b[axis].lo <= b[axis].hi
  }

  lemma ProductSign(a: real, w: real)
    requires 0.0 <= a && 0.0 <= w
    ensures 0.0 <= a * w && (a * w == 0.0 <==> a == 0.0 || w == 0.0)
  {
  }

  /** The area is 0 exactly if some axis is flat. */
  lemma {:induction false} AreaIsZeroIff(b: Box)
    requires Upright(b)
    ensures 0.0 <= AreaOf(b)
    ensures AreaOf(b) == 0.0 <==> exists axis :: 0 <= axis < |b| && b[axis].lo == b[axis].hi
  {
    if b != [] {
      var n := |b| - 1;
      AreaIsZeroIff(b[..n]);
      ProductSign(AreaOf(b[..n]), b[n].hi - b[n].lo);
      if AreaOf(b[..n]) == 0.0 {
        var axis :| 0 <= axis < n && b[..n][axis].lo == b[..n][axis].hi;
        assert b[axis].lo == b[axis].hi;
      }
    }
  }

  lemma ProductGrows(a: real, w: real, a': real, w': real)
    requires 0.0 <= a <= a' && 0.0 <= w <= w'
    ensures a * w <= a' * w'
    ensures 0.0 < a && 0.0 < w && a * w == a' * w' ==> a == a' && w == w'
  {
    assert a * w <= a' * w && a' * w <= a' * w';
    if 0.0 < a && 0.0 < w && a * w == a' * w' {
      assert (a' - a) * w == 0.0 && a' * (w' - w) == 0.0;
    }
  }

  /** A box that covers another has no less area; with the same area, it is the same box if the other is solid. */
  lemma {:induction false} AreaIsMonotone(outer: Box, inner: Box)
    requires Covers(outer, inner) && Upright(inner)
    ensures 0.0 <= AreaOf(inner) <= AreaOf(outer)
    ensures Solid(inner) && AreaOf(inner) == AreaOf(outer) ==> outer == inner
  {
    hide AreaOf;
    AreaIsZeroIff(inner);
    if outer == [] {
      assert outer == inner;
    } else {
      var n := |outer| - 1;
      var (o, i) := (outer[..n], inner[..n]);
      AreaIsMonotone(o, i);
      AreaOfLast(outer);
      AreaOfLast(inner);
      ProductGrows(AreaOf(i), Width(inner[n]), AreaOf(o), Width(outer[n]));
      if Solid(inner) && AreaOf(inner) == AreaOf(outer) {
        AreaIsZeroIff(i);
        assert o == i && outer[n] == inner[n];
        assert outer == o + [outer[n]] && inner == i + [inner[n]];
      }
    }
  }

  /** Enlargement is never negative, and a solid group is not enlarged exactly by the entries it covers. */
  lemma EnlargementIsZeroIff(group: Box, e: Box)
    requires |group| == |e| && Upright(group)
    ensures 0.0 <= Enlargement(group, e)
    ensures Solid(group) ==> (Enlargement(group, e) == 0.0 <==> Covers(group, e))
  {
    var u := Union(group, e);
    assert Covers(u, u);
    UnionIsLeast(group, e, u);
    AreaIsMonotone(u, group);
    assert Covers(group, group);
    UnionIsLeast(group, e, group);
    if Covers(group, e) {
      AreaIsMonotone(group, u);
    }
  }
}
