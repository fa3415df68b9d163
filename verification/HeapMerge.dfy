/** The k-way merge of term-sorted indexes (`heap_merge.go`), with `container/heap` by its contract:
    a pop returns some entry of least rank. */
module HeapMerge {
  import opened Compress
  import opened Postings
  import opened InvertedIndexes

  /** `HeapMergeItem`, whose metadata are the index, the place in it and its number of terms. */
  datatype HeapItem = HeapItem(termID: int, arrIndex: nat, insideIndex: nat, termSize: nat, postings: seq<Int64>)

  function ItemAt(lists: seq<seq<Entry>>, i: nat, k: nat): HeapItem
    requires i < |lists| && k < |lists[i]|
  {
    HeapItem(lists[i][k].term, i, k, |lists[i]|, lists[i][k].postings)
  }

  /** The queue holds the next entry of every list; `e` counts the entries already out. */
  ghost predicate Queue(pq: multiset<HeapItem>, lists: seq<seq<Entry>>, e: seq<nat>) {
    |e| == |lists| && (forall i :: 0 <= i < |e| ==> e[i] <= |lists[i]|) &&
    (forall i {:trigger e[i]} :: 0 <= i < |e| && e[i] < |lists[i]| ==> pq[ItemAt(lists, i, e[i])] == 1) &&
    (forall x :: x in pq ==>
      x.arrIndex < |e| && e[x.arrIndex] < |lists[x.arrIndex]| && x == ItemAt(lists, x.arrIndex, e[x.arrIndex]))
  }

  /** The queue once `x` is out and its list's next entry, if any, is in. */
  ghost function Replaced(pq: multiset<HeapItem>, lists: seq<seq<Entry>>, e: seq<nat>, x: HeapItem): multiset<HeapItem>
    requires x.arrIndex < |e| == |lists|
  {
    var (i, rest) := (x.arrIndex, pq - multiset{x});
    if e[i] + 1 < |lists[i]| then rest + multiset{ItemAt(lists, i, e[i] + 1)} else rest
  }

  lemma QueueAdvances(pq: multiset<HeapItem>, lists: seq<seq<Entry>>, e: seq<nat>, x: HeapItem)
    requires Queue(pq, lists, e) && x in pq
    ensures Queue(Replaced(pq, lists, e, x), lists, e[x.arrIndex := e[x.arrIndex] + 1])
  {
    assert pq[x] == 1;
  }

  // ----- the entries that are out -----

  function TakenUpTo(lists: seq<seq<Entry>>, e: seq<nat>, n: nat): multiset<Entry>
    requires n <= |lists| == |e| && forall i :: 0 <= i < |e| ==> e[i] <= |lists[i]|
  {
    if n == 0 then multiset{} else TakenUpTo(lists, e, n - 1) + multiset(lists[n - 1][..e[n - 1]])
  }

  lemma Shuffle(a: multiset<Entry>, b: multiset<Entry>, x: Entry)
    ensures a + (b + multiset{x}) == (a + b) + multiset{x} && (a + multiset{x}) + b == (a + b) + multiset{x}
  {
  }

  lemma OneTaken(list: seq<Entry>, k: nat)
    requires k < |list|
    ensures multiset(list[..k + 1]) == multiset(list[..k]) + multiset{list[k]}
  {
    assert list[..k + 1] == list[..k] + [list[k]];
  }

  lemma {:induction false} TakesOneMore(lists: seq<seq<Entry>>, e: seq<nat>, i: nat, n: nat)
    requires n <= |lists| == |e| && (forall k :: 0 <= k < |e| ==> e[k] <= |lists[k]|)
    requires i < |e| && e[i] < |lists[i]|
    ensures TakenUpTo(lists, e[i := e[i] + 1], n) ==
      if i < n then TakenUpTo(lists, e, n) + multiset{lists[i][e[i]]} else TakenUpTo(lists, e, n)
  {
    if n > 0 {
      var x := lists[i][e[i]];
      TakesOneMore(lists, e, i, n - 1);
      Shuffle(TakenUpTo(lists, e, n - 1), multiset(lists[n - 1][..e[n - 1]]), x);
      if i == n - 1 {
        OneTaken(lists[i], e[i]);
      }
    }
  }

  /** Everything in all lists. */
  function AllOf(lists: seq<seq<Entry>>): multiset<Entry> {
    if lists == [] then multiset{} else AllOf(lists[..|lists| - 1]) + multiset(lists[|lists| - 1])
  }

  lemma {:induction false} TakenIsAll(lists: seq<seq<Entry>>, e: seq<nat>, n: nat)
    requires n <= |lists| == |e| && (forall k :: 0 <= k < |e| ==> e[k] == |lists[k]|)
    ensures TakenUpTo(lists, e, n) == AllOf(lists[..n])
  {
    if n > 0 {
      TakenIsAll(lists, e, n - 1);
      assert lists[..n][..n - 1] == lists[..n - 1];
      assert lists[n - 1][..e[n - 1]] == lists[n - 1];
    }
  }

  /** Terms that never decrease, none above `bound` unless the bound is missing. */
  ghost predicate Ordered(out: seq<Entry>) {
    (forall k :: 0 <= k < |out| ==> 0 <= out[k].term) &&
    forall j, k :: 0 <= j < k < |out| ==> out[j].term <= out[k].term
  }

  ghost predicate NoneBelow(pq: multiset<HeapItem>, out: seq<Entry>) {
    forall x, k :: x in pq && 0 <= k < |out| ==> out[k].term <= x.termID
  }

  lemma PopKeepsOrder(pq: multiset<HeapItem>, lists: seq<seq<Entry>>, e: seq<nat>, x: HeapItem, out: seq<Entry>)
    requires Queue(pq, lists, e) && x in pq && (forall y :: y in pq ==> x.termID <= y.termID)
    requires (forall i :: 0 <= i < |lists| ==> TermsIncrease(lists[i])) && Ordered(out) && NoneBelow(pq, out)
    ensures var out' := out + [Entry(x.termID, x.postings)]; Ordered(out') && NoneBelow(Replaced(pq, lists, e, x), out')
  {
    var i := x.arrIndex;
    assert TermsIncrease(lists[i]);
    assert e[i] + 1 < |lists[i]| ==> lists[i][e[i]].term < lists[i][e[i] + 1].term;
  }

  // ----- the indexes -----

  /** Index `i` has its cursor behind the entry in the queue. */
  ghost predicate Cursor(index: InvertedIndex, list: seq<Entry>, emitted: nat)
    reads index
  {
    index.Valid() && EntriesOf(index.terms, index.lists) == list &&
    index.currTermPosition == if emitted < |list| then emitted + 1 else |list|
  }

  ghost function ListsOf(indexes: seq<InvertedIndex>): (lists: seq<seq<Entry>>)
    reads indexes
    ensures |lists| == |indexes|
  {
    seq(|indexes|, i requires 0 <= i < |indexes| reads indexes => EntriesOf(indexes[i].terms, indexes[i].lists))
  }

  ghost predicate Different(indexes: seq<InvertedIndex>) {
    forall i, j :: 0 <= i < j < |indexes| ==> indexes[i] != indexes[j]
  }

  /** Indexes of strictly increasing non-negative terms whose cursors have not moved. */
  ghost predicate ReadyToMerge(indexes: seq<InvertedIndex>)
    reads indexes
  {
    Different(indexes) &&
    forall i :: 0 <= i < |indexes| ==>
      indexes[i].Valid() && indexes[i].currTermPosition == 0 && TermsIncrease(ListsOf(indexes)[i])
  }

  // ----- the merge -----

  /** Index `i` gets its entry at `inside` into the queue, if it has one. */
  method PushNext(index: InvertedIndex, i: nat, inside: nat, pq: multiset<HeapItem>, ghost list: seq<Entry>)
    returns (pq': multiset<HeapItem>)
    requires index.Valid() && EntriesOf(index.terms, index.lists) == list && index.currTermPosition == inside <= |list|
    modifies index`currTermPosition
    ensures Cursor(index, list, inside)
    ensures pq' == if inside >= |list| then pq else
      pq + multiset{HeapItem(list[inside].term, i, inside, |list|, list[inside].postings)}
  {
    pq' := pq;
    var item := index.Next();
    if item.None? {
      return;
    }
    // a read error would end the merge
    var next := item.value.value;
    pq' := pq' + multiset{HeapItem(next.termID, i, inside, next.termSize, next.postingList)};
  }

  ghost predicate Cursors(indexes: seq<InvertedIndex>, lists: seq<seq<Entry>>, e: seq<nat>)
    reads indexes
  {
    |lists| == |e| == |indexes| && Different(indexes) &&
    forall i {:trigger indexes[i]} :: 0 <= i < |indexes| ==> Cursor(indexes[i], lists[i], e[i])
  }

  ghost predicate NotStarted(indexes: seq<InvertedIndex>, lists: seq<seq<Entry>>, from: nat)
    reads indexes
  {
    |lists| == |indexes| &&
    forall i {:trigger indexes[i]} :: from <= i < |indexes| ==>
      indexes[i].Valid() && indexes[i].currTermPosition == 0 &&
      EntriesOf(indexes[i].terms, indexes[i].lists) == lists[i]
  }

  ghost predicate Started(indexes: seq<InvertedIndex>, lists: seq<seq<Entry>>, to: nat, pq: multiset<HeapItem>)
    reads indexes
  {
    |lists| == |indexes| && to <= |indexes| &&
    (forall i {:trigger indexes[i]} :: 0 <= i < to ==> Cursor(indexes[i], lists[i], 0)) &&
    (forall i {:trigger lists[i]} :: 0 <= i < to && 0 < |lists[i]| ==> pq[ItemAt(lists, i, 0)] == 1) &&
    (forall x :: x in pq ==> x.arrIndex < to && 0 < |lists[x.arrIndex]| && x == ItemAt(lists, x.arrIndex, 0))
  }

  method StartOne(indexes: seq<InvertedIndex>, ghost lists: seq<seq<Entry>>, i: nat, pq: multiset<HeapItem>)
    returns (pq': multiset<HeapItem>)
    requires Different(indexes) && i < |indexes| && Started(indexes, lists, i, pq) && NotStarted(indexes, lists, i)
    modifies indexes[i..i + 1]`currTermPosition
    ensures Started(indexes, lists, i + 1, pq') && NotStarted(indexes, lists, i + 1)
  {
    assert indexes[i] in indexes[i..i + 1];
    pq' := PushNext(indexes[i], i, 0, pq, lists[i]);
  }

  method FillQueue(indexes: seq<InvertedIndex>, ghost lists: seq<seq<Entry>>, ghost e: seq<nat>)
    returns (pq: multiset<HeapItem>)
    requires Different(indexes) && NotStarted(indexes, lists, 0) && e == seq(|indexes|, _ => 0)
    modifies indexes`currTermPosition
    ensures Cursors(indexes, lists, e) && Queue(pq, lists, e)
  {
    pq := multiset{};
    for i := 0 to |indexes|
      invariant Started(indexes, lists, i, pq) && NotStarted(indexes, lists, i)
    {
      pq := StartOne(indexes, lists, i, pq);
    }
  }

  lemma {:induction false} LeastExists(pq: multiset<HeapItem>) returns (x: HeapItem)
    requires pq != multiset{}
    ensures x in pq && forall y :: y in pq ==> x.termID <= y.termID
    decreases |pq|
  {
    var z :| z in pq;
    var rest := pq - multiset{z};
    if rest == multiset{} {
      assert pq == multiset{z} + rest;
      x := z;
    } else {
      x := LeastExists(rest);
      assert pq == multiset{z} + rest;
      x := if z.termID < x.termID then z else x;
    }
  }

  /** `heap.Pop`. */
  method PopLeast(pq: multiset<HeapItem>) returns (x: HeapItem)
    requires pq != multiset{}
    ensures x in pq && forall y :: y in pq ==> x.termID <= y.termID
  {
    ghost var least := LeastExists(pq);
    x :| x in pq && forall y :: y in pq ==> x.termID <= y.termID;
  }

  method Advance(indexes: seq<InvertedIndex>, ghost lists: seq<seq<Entry>>, ghost e: seq<nat>, pq: multiset<HeapItem>,
                 x: HeapItem)
    returns (pq': multiset<HeapItem>)
    requires Cursors(indexes, lists, e) && Queue(pq, lists, e) && x in pq
    modifies indexes`currTermPosition
    ensures Cursors(indexes, lists, e[x.arrIndex := e[x.arrIndex] + 1])
    ensures pq' == Replaced(pq, lists, e, x)
  {
    pq' := pq - multiset{x};
    if x.insideIndex + 1 < x.termSize {
      pq' := PushNext(indexes[x.arrIndex], x.arrIndex, x.insideIndex + 1, pq', lists[x.arrIndex]);
    }
  }

  /** What the entries out so far and the queue keep. */
  ghost predicate Merging(pq: multiset<HeapItem>, lists: seq<seq<Entry>>, e: seq<nat>, out: seq<Entry>) {
    Queue(pq, lists, e) && (forall i :: 0 <= i < |lists| ==> TermsIncrease(lists[i])) &&
    multiset(out) == TakenUpTo(lists, e, |lists|) && Ordered(out) && NoneBelow(pq, out)
  }

  function Left(lists: seq<seq<Entry>>, e: seq<nat>, n: nat): nat
    requires n <= |lists| == |e| && forall i :: 0 <= i < |e| ==> e[i] <= |lists[i]|
  {
    if n == 0 then 0 else Left(lists, e, n - 1) + (|lists[n - 1]| - e[n - 1])
  }

  lemma {:induction false} LeftLess(lists: seq<seq<Entry>>, e: seq<nat>, i: nat, n: nat)
    requires n <= |lists| == |e| && (forall k :: 0 <= k < |e| ==> e[k] <= |lists[k]|)
    requires i < |e| && e[i] < |lists[i]|
    ensures Left(lists, e[i := e[i] + 1], n) == Left(lists, e, n) - (if i < n then 1 else 0)
  {
    if n > 0 { LeftLess(lists, e, i, n - 1); }
  }

  lemma MergeStep(pq: multiset<HeapItem>, lists: seq<seq<Entry>>, e: seq<nat>, out: seq<Entry>, x: HeapItem)
    requires Merging(pq, lists, e, out) && x in pq && forall y :: y in pq ==> x.termID <= y.termID
    ensures var e' := e[x.arrIndex := e[x.arrIndex] + 1];
      Merging(Replaced(pq, lists, e, x), lists, e', out + [Entry(x.termID, x.postings)]) &&
      Left(lists, e', |lists|) < Left(lists, e, |lists|)
  {
    hide Replaced, TakenUpTo, Left;
    QueueAdvances(pq, lists, e, x);
    PopKeepsOrder(pq, lists, e, x, out);
    TakenStep(pq, lists, e, out, x);
    LeftLess(lists, e, x.arrIndex, |lists|);
  }

  lemma TakenStep(pq: multiset<HeapItem>, lists: seq<seq<Entry>>, e: seq<nat>, out: seq<Entry>, x: HeapItem)
    requires Queue(pq, lists, e) && x in pq && multiset(out) == TakenUpTo(lists, e, |lists|)
    ensures var e' := e[x.arrIndex := e[x.arrIndex] + 1];
      (forall i :: 0 <= i < |e'| ==> e'[i] <= |lists[i]|) &&
      multiset(out + [Entry(x.termID, x.postings)]) == TakenUpTo(lists, e', |lists|)
  {
    TakesOneMore(lists, e, x.arrIndex, |lists|);
    SnocMultiset(out, Entry(x.termID, x.postings));
  }

  lemma SnocMultiset(out: seq<Entry>, y: Entry)
    ensures multiset(out + [y]) == multiset(out) + multiset{y}
  {
  }

  lemma MergeStarts(pq: multiset<HeapItem>, lists: seq<seq<Entry>>, e: seq<nat>)
    requires Queue(pq, lists, e) && (forall i :: 0 <= i < |lists| ==> TermsIncrease(lists[i])) &&
      forall i :: 0 <= i < |e| ==> e[i] == 0
    ensures Merging(pq, lists, e, [])
  {
    NothingTaken(lists, e, |lists|);
  }

  lemma MergeEnds(lists: seq<seq<Entry>>, e: seq<nat>, out: seq<Entry>)
    requires Merging(multiset{}, lists, e, out)
    ensures multiset(out) == AllOf(lists)
  {
    TakenIsAll(lists, e, |lists|);
    assert lists[..|lists|] == lists;
  }

  /** Emits every entry of every index once, in the order of the terms. */
  method MergeKSortedArray(indexes: seq<InvertedIndex>) returns (out: seq<Entry>)
    requires ReadyToMerge(indexes)
    modifies indexes`currTermPosition
    ensures multiset(out) == old(AllOf(ListsOf(indexes))) && Ordered(out)
  {
    ghost var lists, e: seq<nat> := ListsOf(indexes), seq(|indexes|, _ => 0);
    var pq := FillQueue(indexes, lists, e);
    out := [];
    MergeStarts(pq, lists, e);
    while pq != multiset{}
      invariant Cursors(indexes, lists, e) && Merging(pq, lists, e, out)
      decreases Left(lists, e, |lists|)
    {
      var x := PopLeast(pq);
      MergeStep(pq, lists, e, out, x);
      out := out + [Entry(x.termID, x.postings)];
      pq := Advance(indexes, lists, e, pq, x);
      e := e[x.arrIndex := e[x.arrIndex] + 1];
    }
    MergeEnds(lists, e, out);
  }

  lemma {:induction false} NothingTaken(lists: seq<seq<Entry>>, e: seq<nat>, n: nat)
    requires n <= |lists| == |e| && (forall k :: 0 <= k < |e| ==> e[k] == 0)
    ensures TakenUpTo(lists, e, n) == multiset{}
  {
    if n > 0 { NothingTaken(lists, e, n - 1); }
  }
}
