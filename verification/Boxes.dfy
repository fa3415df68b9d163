/** Axis-parallel boxes: `RtreeBoundingBox` and the operations on it.
    A box is its list of edges, one interval for each axis, so `Dim` is its length. */
module Boxes {

  datatype Interval = Interval(lo: real, hi: real)

  type Box = seq<Interval>

  /** The smallest interval holding both; an axis that `bb` lacks keeps the edge of `b`. */
  function UnionAt(b: Box, bb: Box, axis: nat): Interval
    requires axis < |b|
  {
    if axis >= |bb| then b[axis] else
    Interval(if b[axis].lo <= bb[axis].lo then b[axis].lo else bb[axis].lo,
             if b[axis].hi >= bb[axis].hi then b[axis].hi else bb[axis].hi)
  }

  function Union(b: Box, bb: Box): (r: Box)
    ensures |r| == |b|
  {
    seq(|b|, axis requires 0 <= axis < |b| => UnionAt(b, bb, axis))
  }

  method BoundingBox(b: Box, bb: Box) returns (r: Box)
    requires |b| <= |bb|
    ensures r == Union(b, bb)
  {
    r := [];
    for axis := 0 to |b|
      invariant r == Union(b, bb)[..axis]
    {
      var lo := if b[axis].lo <= bb[axis].lo then b[axis].lo else bb[axis].lo;
      var hi := if b[axis].hi >= bb[axis].hi then b[axis].hi else bb[axis].hi;
      r := r + [Interval(lo, hi)];
    }
  }

  /** The product of the widths, multiplied axis by axis. */
  function AreaOf(b: Box): real {
    if b == [] then 1.0 else AreaOf(b[..|b| - 1]) * (b[|b| - 1].hi - b[|b| - 1].lo)
  }

  method Area(b: Box) returns (area: real)
    ensures area == AreaOf(b)
  {
    area := 1.0;
    for axis := 0 to |b|
      invariant area == AreaOf(b[..axis])
    {
      assert b[..axis + 1][..axis] == b[..axis];
      area := area * (b[axis].hi - b[axis].lo);
    }
    assert b[..|b|] == b;
  }

  ghost predicate Overlap(b: Box, bb: Box) {
    |b| <= |bb| && forall axis :: 0 <= axis < |b| ==> b[axis].lo < bb[axis].hi && bb[axis].lo < b[axis].hi
  }

  method Overlaps(b: Box, bb: Box) returns (yes: bool)
    requires |b| <= |bb|
    ensures yes <==> Overlap(b, bb)
  {
    for axis := 0 to |b|
      invariant forall k :: 0 <= k < axis ==> b[k].lo < bb[k].hi && bb[k].lo < b[k].hi
    {
      if !(b[axis].lo < bb[axis].hi) || !(bb[axis].lo < b[axis].hi) {
        return false;
      }
    }
    return true;
  }

  ghost predicate Covers(outer: Box, inner: Box) {
    |outer| == |inner| &&
    forall axis :: 0 <= axis < |outer| ==> outer[axis].lo <= inner[axis].lo && inner[axis].hi <= outer[axis].hi
  }

  /** Positive width on every axis. */
  ghost predicate Solid(b: Box) {
    forall axis :: 0 <= axis < |b| ==> b[axis].lo < b[axis].hi
  }

  /** The bounding box is the least box holding both arguments. */
  lemma UnionIsLeast(b: Box, bb: Box, c: Box)
    requires |b| == |bb|
    ensures Covers(c, Union(b, bb)) <==> Covers(c, b) && Covers(c, bb)
  {
    var u := Union(b, bb);
    assert forall axis :: 0 <= axis < |b| ==> u[axis] == UnionAt(b, bb, axis);
    if Covers(c, u) {
      forall axis | 0 <= axis < |b|
        ensures c[axis].lo <= b[axis].lo && b[axis].hi <= c[axis].hi
        ensures c[axis].lo <= bb[axis].lo && bb[axis].hi <= c[axis].hi
      {
        assert u[axis] == UnionAt(b, bb, axis);
      }
    }
  }

  lemma CoversTransitive(a: Box, b: Box, c: Box)
    requires Covers(a, b) && Covers(b, c)
    ensures Covers(a, c)
  {
    forall axis | 0 <= axis < |a|
      ensures a[axis].lo <= c[axis].lo && c[axis].hi <= a[axis].hi
    {
      assert b[axis].lo <= c[axis].lo;
    }
  }

  lemma OverlapIsMonotone(outer: Box, inner: Box, query: Box)
    requires Covers(outer, inner) && Overlap(inner, query)
    ensures Overlap(outer, query)
  {
    forall axis | 0 <= axis < |outer|
      ensures outer[axis].lo < query[axis].hi && query[axis].lo < outer[axis].hi
    {
      assert inner[axis].lo < query[axis].hi && query[axis].lo < inner[axis].hi;
    }
  }

  /** For boxes of positive width the strict test asks for a common interior point. */
  lemma {:induction false} OverlapMeansCommonInterior(b: Box, bb: Box)
    requires |b| == |bb| && Solid(b) && Solid(bb)
    ensures Overlap(b, bb) <==> exists p: seq<real> :: StrictlyInside(p, b) && StrictlyInside(p, bb)
  {
    if Overlap(b, bb) {
      var p := seq(|b|, axis requires 0 <= axis < |b| => Middle(b[axis], bb[axis]));
      forall axis | 0 <= axis < |b|
        ensures b[axis].lo < p[axis] < b[axis].hi && bb[axis].lo < p[axis] < bb[axis].hi
      {
        assert b[axis].lo < bb[axis].hi && bb[axis].lo < b[axis].hi;
      }
      assert StrictlyInside(p, b) && StrictlyInside(p, bb);
    }
  }

  function Middle(i: Interval, j: Interval): real {
    ((if i.lo >= j.lo then i.lo else j.lo) + (if i.hi <= j.hi then i.hi else j.hi)) / 2.0
  }

  ghost predicate StrictlyInside(p: seq<real>, b: Box) {
    |p| == |b| && forall axis :: 0 <= axis < |b| ==> b[axis].lo < p[axis] < b[axis].hi
  }

  // ----- the bounding box of a list of boxes -----

  /** What `ComputeBB` computes from the boxes of a node's entries. */
  function Mbr(boxes: seq<Box>): Box
    requires boxes != []
  {
    if |boxes| == 1 then boxes[0] else Union(Mbr(boxes[..|boxes| - 1]), boxes[|boxes| - 1])
  }

  ghost predicate Uniform(boxes: seq<Box>, dim: nat) {
    forall i :: 0 <= i < |boxes| ==> |boxes[i]| == dim
  }

  /** `Mbr` is the exact union: the boxes that cover it are those that cover every member. */
  lemma {:induction false} MbrIsLeast(boxes: seq<Box>, c: Box)
    requires boxes != [] && Uniform(boxes, |c|)
    ensures |Mbr(boxes)| == |c|
    ensures Covers(c, Mbr(boxes)) <==> forall i :: 0 <= i < |boxes| ==> Covers(c, boxes[i])
  {
    if |boxes| > 1 {
      var n := |boxes| - 1;
      var front := boxes[..n];
      assert forall i :: 0 <= i < n ==> front[i] == boxes[i];
      MbrIsLeast(front, c);
      UnionIsLeast(Mbr(front), boxes[n], c);
    }
  }

  lemma MbrCoversMember(boxes: seq<Box>, dim: nat, i: nat)
    requires i < |boxes| && Uniform(boxes, dim)
    ensures |Mbr(boxes)| == dim && Covers(Mbr(boxes), boxes[i])
  {
    MbrDim(boxes, dim);
    var m := Mbr(boxes);
    assert Covers(m, m);
    MbrIsLeast(boxes, m);
  }

  lemma {:induction false} MbrDim(boxes: seq<Box>, dim: nat)
    requires boxes != [] && Uniform(boxes, dim)
    ensures |Mbr(boxes)| == dim
  {
    if |boxes| > 1 {
      MbrDim(boxes[..|boxes| - 1], dim);
    }
  }

  // ----- first extremes of a list of numbers -----

  /** `k` is the first position of a greatest number. */
  ghost predicate FirstMax(s: seq<real>, k: nat) {
    k < |s| && (forall i :: 0 <= i < |s| ==> s[i] <= s[k]) && (forall i :: 0 <= i < k ==> s[i] < s[k])
  }

  ghost predicate FirstMin(s: seq<real>, k: nat) {
    k < |s| && (forall i :: 0 <= i < |s| ==> s[i] >= s[k]) && (forall i :: 0 <= i < k ==> s[i] > s[k])
  }
}
