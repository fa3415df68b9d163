/** The merge of blocks into one index (`Merge`, `MergeFieldLengths`), and the whole pipeline. */
module IndexMerging {
  import opened Compress
  import opened Postings
  import opened InvertedIndexes
  import opened HeapMerge
  import opened Indexer

  // ----- occurrences over all blocks -----

  /** How often a document occurs in the lists of a term, over all blocks. */
  function OccAll(lists: seq<seq<Entry>>, t: int, d: int): nat {
    if lists == [] then 0 else OccAll(lists[..|lists| - 1], t, d) + Occ(lists[|lists| - 1], t, d)
  }

  function Joined(lists: seq<seq<Entry>>): seq<Entry> {
    if lists == [] then [] else Joined(lists[..|lists| - 1]) + lists[|lists| - 1]
  }

  lemma {:induction false} JoinedIsAll(lists: seq<seq<Entry>>, t: int, d: int)
    ensures multiset(Joined(lists)) == AllOf(lists) && Occ(Joined(lists), t, d) == OccAll(lists, t, d)
  {
    if lists != [] {
      JoinedIsAll(lists[..|lists| - 1], t, d);
      OccConcat(Joined(lists[..|lists| - 1]), lists[|lists| - 1], t, d);
    }
  }

  /** An emission of all entries has the same occurrences. */
  lemma OccOfEmission(lists: seq<seq<Entry>>, out: seq<Entry>, t: int, d: int)
    requires multiset(out) == AllOf(lists)
    ensures Occ(out, t, d) == OccAll(lists, t, d)
  {
    JoinedIsAll(lists, t, d);
    OccOfPermutation(out, Joined(lists), t, d);
  }

  // ----- grouping the emitted entries by term -----

  ghost predicate TermIn(out: seq<Entry>, t: int) {
    exists k :: 0 <= k < |out| && out[k].term == t
  }

  ghost predicate StrictlyUp(terms: seq<int>) {
    (forall k :: 0 <= k < |terms| ==> 0 <= terms[k]) && forall j, k :: 0 <= j < k < |terms| ==> terms[j] < terms[k]
  }

  /** `lists` has the groups of all terms seen except the last one, whose group is `lastPosting`. */
  ghost predicate Grouping(out: seq<Entry>, terms: seq<int>, lists: Lists, lastTerm: int, lastPosting: seq<Int64>) {
    (if out == [] then lastTerm == -1 && terms == [] else lastTerm == out[|out| - 1].term) &&
    StrictlyUp(terms) && (forall k :: 0 <= k < |terms| ==> terms[k] < lastTerm) &&
    (forall t: int :: t in lists <==> t != lastTerm && TermIn(out, t)) &&
    (forall t: int :: t in lists ==> Ascending(lists[t])) &&
    (forall t: int, d: int :: t != lastTerm ==> Count(ListFor(lists, t), d) == Occ(out, t, d)) &&
    (forall d: int :: Count(lastPosting, d) == Occ(out, lastTerm, d))
  }

  lemma TermInMore(out: seq<Entry>, e: Entry, t: int)
    ensures TermIn(out + [e], t) <==> TermIn(out, t) || e.term == t
  {
    if k :| 0 <= k < |out| && out[k].term == t {
      assert (out + [e])[k].term == t;
    }
    assert (out + [e])[|out|] == e;
  }

  lemma {:induction false} NotIn(out: seq<Entry>, t: int, d: int)
    ensures !TermIn(out, t) ==> Occ(out, t, d) == 0
  {
    if out != [] {
      NotIn(out[1..], t, d);
      if k :| 0 <= k < |out[1..]| && out[1..][k].term == t {
        assert out[k + 1].term == t;
      }
    }
  }

  /** One more entry of the last term. */
  lemma GroupSame(out: seq<Entry>, e: Entry, terms: seq<int>, lists: Lists, lastTerm: int, lastPosting: seq<Int64>)
    requires Grouping(out, terms, lists, lastTerm, lastPosting) && e.term == lastTerm && out != []
    ensures Grouping(out + [e], terms, lists, lastTerm, lastPosting + e.postings)
  {
    forall t: int
      ensures TermIn(out + [e], t) <==> TermIn(out, t) || e.term == t
    {
      TermInMore(out, e, t);
    }
    forall t: int, d: int
      ensures Occ(out + [e], t, d) == Occ(out, t, d) + (if e.term == t then Count(e.postings, d) else 0)
    {
      OccSnoc(out, e, t, d);
    }
    forall d: int
      ensures Count(lastPosting + e.postings, d) == Count(lastPosting, d) + Count(e.postings, d)
    {
      CountConcat(lastPosting, e.postings, d);
    }
  }

  /** The last group is closed. */
  ghost predicate Closed(out: seq<Entry>, terms: seq<int>, lists: Lists) {
    StrictlyUp(terms) && (out != [] ==> forall k :: 0 <= k < |terms| ==> terms[k] <= out[|out| - 1].term) &&
    (out == [] ==> terms == []) &&
    (forall t: int :: t in lists <==> TermIn(out, t)) && (forall t: int :: t in lists ==> Ascending(lists[t])) &&
    (forall t: int, d: int :: Count(ListFor(lists, t), d) == Occ(out, t, d))
  }

  lemma CloseGroup(out: seq<Entry>, terms: seq<int>, lists: Lists, lastTerm: int, lastPosting: seq<Int64>)
    requires Grouping(out, terms, lists, lastTerm, lastPosting) && out != [] && 0 <= lastTerm
    ensures Closed(out, terms + [lastTerm], lists[lastTerm := Sorted(lastPosting)])
  {
    SortedIsAscending(lastPosting);
    assert TermIn(out, lastTerm);
    forall t: int, d: int
      ensures Count(ListFor(lists[lastTerm := Sorted(lastPosting)], t), d) == Occ(out, t, d)
    {
      SortedCount(lastPosting, d);
    }
  }

  lemma NothingToClose(terms: seq<int>, lists: Lists, lastPosting: seq<Int64>)
    requires Grouping([], terms, lists, -1, lastPosting)
    ensures Closed([], terms, lists)
  {
    forall t: int
      ensures t in lists <==> TermIn([], t)
    {
    }
    forall t: int, d: int
      ensures Count(ListFor(lists, t), d) == Occ([], t, d)
    {
      assert t != -1 ==> Count(ListFor(lists, t), d) == Occ([], t, d);
    }
  }

  /** A new term opens the next group. */
  lemma OpenGroup(out: seq<Entry>, e: Entry, terms: seq<int>, lists: Lists)
    requires Closed(out, terms, lists) && 0 <= e.term && (out != [] ==> out[|out| - 1].term < e.term)
    requires Ordered(out)
    ensures Grouping(out + [e], terms, lists, e.term, e.postings)
  {
    assert !TermIn(out, e.term);
    forall t: int
      ensures TermIn(out + [e], t) <==> TermIn(out, t) || e.term == t
    {
      TermInMore(out, e, t);
    }
    forall t: int, d: int
      ensures Occ(out + [e], t, d) == Occ(out, t, d) + (if e.term == t then Count(e.postings, d) else 0)
    {
      OccSnoc(out, e, t, d);
    }
    forall d: int
      ensures Occ(out, e.term, d) == 0
    {
      NotIn(out, e.term, d);
    }
  }

  // ----- the merge -----

  method CloseLast(merged: InvertedIndex, lastTerm: int, lastPosting: seq<Int64>, ghost out: seq<Entry>)
    requires merged.Valid() && out != [] && 0 <= lastTerm &&
      Grouping(out, merged.terms, merged.lists, lastTerm, lastPosting)
    modifies merged`terms, merged`postingMetadata, merged`file, merged`lists
    ensures merged.Valid() && Closed(out, merged.terms, merged.lists)
  {
    CloseGroup(out, merged.terms, merged.lists, lastTerm, lastPosting);
    merged.AppendPostingList(lastTerm, Sorted(lastPosting));
  }

  method AppendGroups(out: seq<Entry>, merged: InvertedIndex)
    requires Ordered(out) && merged.Valid() && merged.terms == [] && merged.lists == map[]
    modifies merged`terms, merged`postingMetadata, merged`file, merged`lists
    ensures merged.Valid() && Closed(out, merged.terms, merged.lists)
  {
    var lastTerm: int, lastPosting: seq<Int64> := -1, [];
    for i := 0 to |out|
      invariant merged.Valid() && Grouping(out[..i], merged.terms, merged.lists, lastTerm, lastPosting)
    {
      var currTerm, currPostings := out[i].term, out[i].postings;
      assert out[..i + 1] == out[..i] + [out[i]];
      if currTerm != lastTerm {
        if lastTerm != -1 {
          CloseLast(merged, lastTerm, lastPosting, out[..i]);
        } else {
          assert out[..i] == [];
          NothingToClose(merged.terms, merged.lists, lastPosting);
        }
        OpenGroup(out[..i], out[i], merged.terms, merged.lists);
        lastTerm, lastPosting := currTerm, currPostings;
      } else {
        GroupSame(out[..i], out[i], merged.terms, merged.lists, lastTerm, lastPosting);
        lastPosting := lastPosting + currPostings;
      }
    }
    assert out[..|out|] == out;
    if lastTerm != -1 {
      CloseLast(merged, lastTerm, lastPosting, out);
    } else {
      NothingToClose(merged.terms, merged.lists, lastPosting);
    }
  }

  /** Each term once, with the sorted sum of its lists in all blocks. */
  ghost predicate MergeOf(terms: seq<int>, merged: Lists, lists: seq<seq<Entry>>) {
    StrictlyUp(terms) && (forall t: int :: t in merged ==> Ascending(merged[t])) &&
    (forall t: int :: t in merged <==> exists e :: e in AllOf(lists) && e.term == t) &&
    (forall t: int, d: int :: Count(ListFor(merged, t), d) == OccAll(lists, t, d))
  }

  lemma ClosedIsMerge(out: seq<Entry>, terms: seq<int>, merged: Lists, lists: seq<seq<Entry>>)
    requires Closed(out, terms, merged) && multiset(out) == AllOf(lists)
    ensures MergeOf(terms, merged, lists)
  {
    forall t: int, d: int
      ensures Count(ListFor(merged, t), d) == OccAll(lists, t, d)
    {
      OccOfEmission(lists, out, t, d);
    }
    forall t: int
      ensures TermIn(out, t) <==> exists e :: e in AllOf(lists) && e.term == t
    {
      if k :| 0 <= k < |out| && out[k].term == t {
        assert out[k] in multiset(out);
      }
    }
  }

  method Merge(indexes: seq<InvertedIndex>, merged: InvertedIndex)
    requires ReadyToMerge(indexes) && merged !in indexes
    requires merged.Valid() && merged.terms == [] && merged.lists == map[]
    modifies indexes`currTermPosition, merged`terms, merged`postingMetadata, merged`file, merged`lists
    ensures merged.Valid() && MergeOf(merged.terms, merged.lists, old(ListsOf(indexes)))
  {
    ghost var lists := ListsOf(indexes);
    var out := MergeKSortedArray(indexes);
    AppendGroups(out, merged);
    ClosedIsMerge(out, merged.terms, merged.lists, lists);
  }

  // ----- field lengths -----

  function LengthAll(all: seq<map<int, int>>, d: int): int {
    if all == [] then 0 else LengthAll(all[..|all| - 1], d) + LengthIn(all[|all| - 1], d)
  }

  ghost function LensIn(indexes: seq<InvertedIndex>): (all: seq<map<int, int>>)
    reads indexes
    ensures |all| == |indexes|
  {
    seq(|indexes|, i requires 0 <= i < |indexes| reads indexes => indexes[i].lenFieldInDoc)
  }

  /** The lengths of one block are added, in the order of some iteration. */
  method AddLengths(lenDF: map<int, int>, lens: map<int, int>) returns (sum: map<int, int>)
    ensures forall d: int :: LengthIn(sum, d) == LengthIn(lenDF, d) + LengthIn(lens, d)
    ensures forall d: int :: d in sum <==> d in lenDF || d in lens
  {
    sum := lenDF;
    var rest := lens.Keys;
    while rest != {}
      invariant rest <= lens.Keys
      invariant forall d: int ::
        LengthIn(sum, d) == LengthIn(lenDF, d) + (if d in lens && d !in rest then lens[d] else 0)
      invariant forall d: int :: d in sum <==> d in lenDF || (d in lens && d !in rest)
    {
      ghost var some: int := Member(rest);
      var docID: int :| docID in rest;
      var fieldLength := lens[docID];
      sum := if docID in sum then sum[docID := sum[docID] + fieldLength] else sum[docID := fieldLength];
      rest := rest - {docID};
    }
  }

  method MergeFieldLengths(indexes: seq<InvertedIndex>) returns (lenDF: map<int, int>)
    ensures forall d: int :: LengthIn(lenDF, d) == LengthAll(LensIn(indexes), d)
    ensures forall d: int :: d in lenDF <==> exists i :: 0 <= i < |indexes| && d in indexes[i].lenFieldInDoc
  {
    lenDF := map[];
    ghost var all := LensIn(indexes);
    for i := 0 to |indexes|
      invariant forall d: int :: LengthIn(lenDF, d) == LengthAll(all[..i], d)
      invariant forall d: int :: d in lenDF <==> exists k :: 0 <= k < i && d in indexes[k].lenFieldInDoc
    {
      assert all[..i + 1][..i] == all[..i];
      lenDF := AddLengths(lenDF, indexes[i].lenFieldInDoc);
    }
    assert all[..|indexes|] == all;
  }
}
