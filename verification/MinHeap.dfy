/** The hand-written binary heap of the nearest neighbour search (`pq_rtree.go`). */
module MinHeaps {
  import opened Wrappers

  datatype Ranked<T> = Ranked(rank: real, item: T, isRect: bool)

  function Parent(i: nat): (p: nat)
    ensures p < i || i == p == 0
  {
    if i == 0 then 0 else (i - 1) / 2
  }

  predicate Below<T>(s: seq<Ranked<T>>, i: nat)
    requires i < |s|
  {
    s[Parent(i)].rank <= s[i].rank
  }

  /** Heap order: nobody ranks below its parent. */
  predicate Ordered<T>(s: seq<Ranked<T>>) {
    forall i :: 0 <= i < |s| ==> Below(s, i)
  }

  ghost predicate Skips<T>(s: seq<Ranked<T>>, hole: nat, i: nat)
    requires i < |s| && hole < |s|
  {
    0 < hole && Parent(i) == hole ==> s[Parent(hole)].rank <= s[i].rank
  }

  /** Heap order except between `hole` and its parent; the children of `hole` respect its parent. */
  ghost predicate OrderedAbove<T>(s: seq<Ranked<T>>, hole: nat) {
    hole < |s| && forall i :: 0 <= i < |s| ==> (i != hole ==> Below(s, i)) && Skips(s, hole, i)
  }

  /** Heap order except between `hole` and its children, which respect the parent of `hole`. */
  ghost predicate OrderedBelow<T>(s: seq<Ranked<T>>, hole: nat) {
    hole < |s| && forall i :: 0 <= i < |s| ==> (Parent(i) != hole ==> Below(s, i)) && Skips(s, hole, i)
  }

  function Swap<T>(s: seq<T>, i: nat, j: nat): (r: seq<T>)
    requires i < |s| && j < |s|
    ensures |r| == |s|
  {
    s[i := s[j]][j := s[i]]
  }

  lemma SwapKeepsAll<T>(s: seq<T>, i: nat, j: nat)
    requires i < |s| && j < |s|
    ensures multiset(Swap(s, i, j)) == multiset(s)
  {
  }

  lemma SwapUp<T>(s: seq<Ranked<T>>, hole: nat)
    requires OrderedAbove(s, hole) && s[Parent(hole)].rank > s[hole].rank
    ensures OrderedAbove(Swap(s, Parent(hole), hole), Parent(hole))
  {
    var p := Parent(hole);
    var r := Swap(s, p, hole);
    assert Below(s, p);
    forall i | 0 <= i < |r|
      ensures (i != p ==> Below(r, i)) && Skips(r, p, i)
    {
      assert i != hole ==> Below(s, i);
      assert Skips(s, hole, i);
    }
  }

  lemma LastMayRise<T>(s: seq<Ranked<T>>, key: Ranked<T>)
    requires Ordered(s)
    ensures OrderedAbove(s + [key], |s|)
  {
    forall i | 0 <= i <= |s|
      ensures i != |s| ==> Below(s + [key], i)
    {
      assert i < |s| ==> Below(s, i);
    }
  }

  lemma SwapDown<T>(s: seq<Ranked<T>>, hole: nat, c: nat)
    requires OrderedBelow(s, hole) && hole < c < |s| && Parent(c) == hole
    requires forall i :: 0 <= i < |s| && Parent(i) == hole ==> s[c].rank <= s[i].rank
    requires s[c].rank <= s[hole].rank
    ensures OrderedBelow(Swap(s, c, hole), c)
  {
    var r := Swap(s, c, hole);
    assert Skips(s, hole, c);
    forall i | 0 <= i < |r|
      ensures (Parent(i) != c ==> Below(r, i)) && Skips(r, c, i)
    {
      assert Parent(i) != hole ==> Below(s, i);
      assert Skips(s, hole, i);
    }
  }

  /** Nothing ranks below the top. */
  lemma {:induction false} TopIsLeast<T>(s: seq<Ranked<T>>, i: nat)
    requires Ordered(s) && i < |s|
    ensures s[0].rank <= s[i].rank
    decreases i
  {
    if i > 0 {
      assert Below(s, i);
      TopIsLeast(s, Parent(i));
    }
  }

  lemma TopOfAll<T>(s: seq<Ranked<T>>)
    requires Ordered(s) && s != []
    ensures s[0] in multiset(s) && forall x :: x in multiset(s) ==> s[0].rank <= x.rank
  {
    forall x | x in multiset(s)
      ensures s[0].rank <= x.rank
    {
      var i :| 0 <= i < |s| && s[i] == x;
      TopIsLeast(s, i);
    }
  }

  /** The last entry replaces the top. */
  lemma LastOnTop<T>(s: seq<Ranked<T>>)
    requires Ordered(s) && |s| > 1
    ensures OrderedBelow(s[0 := s[|s| - 1]][..|s| - 1], 0)
  {
    var r := s[0 := s[|s| - 1]][..|s| - 1];
    forall i | 0 <= i < |r|
      ensures (Parent(i) != 0 ==> Below(r, i)) && Skips(r, 0, i)
    {
      assert Below(s, i);
    }
  }

  lemma TopRemoved<T>(s: seq<T>)
    requires s != []
    ensures multiset(s[0 := s[|s| - 1]][..|s| - 1]) == multiset(s) - multiset{s[0]}
  {
    var last := |s| - 1;
    assert s == [s[0]] + s[1..];
    if last > 0 {
      assert s[1..] == s[1..last] + [s[last]];
      assert s[0 := s[last]][..last] == [s[last]] + s[1..last];
    }
  }

  class MinHeap<T> {
    var heap: seq<Ranked<T>>

    ghost predicate Valid()
      reads this
    {
      Ordered(heap)
    }

    ghost function Contents(): multiset<Ranked<T>>
      reads this
    {
      multiset(heap)
    }

    constructor ()
      ensures Valid() && heap == []
    {
      heap := [];
    }

    method Size() returns (n: nat)
      ensures n == |heap| && n == |Contents()|
    {
      n := |heap|;
    }

    method GetMin() returns (least: Option<Ranked<T>>)
      requires Valid()
      ensures least == None <==> heap == []
      ensures least.Some? ==> least.value == heap[0] && least.value in Contents()
      ensures least.Some? ==> forall x :: x in Contents() ==> least.value.rank <= x.rank
    {
      if heap == [] {
        return None;
      }
      TopOfAll(heap);
      return Some(heap[0]);
    }

    method Insert(key: Ranked<T>)
      requires Valid()
      modifies this
      ensures Valid() && Contents() == old(Contents()) + multiset{key}
    {
      LastMayRise(heap, key);
      heap := heap + [key];
      SiftUp(|heap| - 1);
    }

    method SiftUp(last: nat)
      requires last < |heap| && OrderedAbove(heap, last)
      modifies this
      ensures Valid() && Contents() == old(Contents())
    {
      var index := last;
      while index != 0 && heap[Parent(index)].rank > heap[index].rank
        invariant OrderedAbove(heap, index) && multiset(heap) == old(multiset(heap))
      {
        var parent := Parent(index);
        SwapUp(heap, index);
        SwapKeepsAll(heap, parent, index);
        heap := Swap(heap, parent, index);
        index := parent;
      }
    }

    method ExtractMin() returns (least: Option<Ranked<T>>)
      requires Valid()
      modifies this
      ensures Valid() && (least == None <==> old(heap) == []) && (least == None ==> heap == [])
      ensures least.Some? ==> least.value in old(Contents()) && Contents() == old(Contents()) - multiset{least.value}
      ensures least.Some? ==> forall x :: x in old(Contents()) ==> least.value.rank <= x.rank
    {
      if heap == [] {
        return None;
      }
      TopOfAll(heap);
      TopRemoved(heap);
      least := Some(heap[0]);
      if |heap| > 1 {
        LastOnTop(heap);
      }
      heap := heap[0 := heap[|heap| - 1]][..|heap| - 1];
      SiftDown();
    }

    /** Children move up on equal ranks as well. */
    method SiftDown()
      requires heap == [] || OrderedBelow(heap, 0)
      modifies this
      ensures Valid() && Contents() == old(Contents())
    {
      var index: nat := 0;
      while true
        invariant (index == 0 && heap == []) || OrderedBelow(heap, index)
        invariant multiset(heap) == old(multiset(heap))
        decreases |heap| - index
      {
        var smallest, left, right := index, index * 2 + 1, index * 2 + 2;
        if left < |heap| && heap[left].rank <= heap[smallest].rank {
          smallest := left;
        }
        if right < |heap| && heap[right].rank <= heap[smallest].rank {
          smallest := right;
        }
        if smallest == index {
          break;
        }
        SwapDown(heap, index, smallest);
        SwapKeepsAll(heap, smallest, index);
        heap := Swap(heap, smallest, index);
        index := smallest;
      }
    }
  }
}
