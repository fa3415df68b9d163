/** Posting lists: how often a document occurs, sorting, and lists of entries. */
module Postings {
  import opened Compress

  datatype Entry = Entry(term: int, postings: seq<Int64>)

  // ----- how often a number occurs -----

  function Count(s: seq<Int64>, d: int): nat {
    if s == [] then 0 else (if s[0] == d then 1 else 0) + Count(s[1..], d)
  }

  lemma {:induction false} CountConcat(a: seq<Int64>, b: seq<Int64>, d: int)
    ensures Count(a + b, d) == Count(a, d) + Count(b, d)
  {
    if a == [] {
      assert a + b == b;
    } else {
      assert (a + b)[1..] == a[1..] + b;
      CountConcat(a[1..], b, d);
    }
  }

  lemma {:induction false} CountIsMultiplicity(s: seq<Int64>, d: Int64)
    ensures Count(s, d) == multiset(s)[d]
  {
    if s != [] {
      assert s == [s[0]] + s[1..];
      CountIsMultiplicity(s[1..], d);
    }
  }

  lemma {:induction false} CountPositive(s: seq<Int64>, d: int)
    ensures Count(s, d) > 0 <==> exists k :: 0 <= k < |s| && s[k] == d
  {
    if s != [] {
      CountPositive(s[1..], d);
      if k :| 0 <= k < |s| && s[k] == d {
        assert k > 0 ==> s[1..][k - 1] == d;
      }
      if k :| 0 <= k < |s[1..]| && s[1..][k] == d {
        assert s[k + 1] == d;
      }
    }
  }

  // ----- sorting, by the contract of `sort.Ints` -----

  ghost predicate Ascending(s: seq<Int64>) {
    forall i, j :: 0 <= i < j < |s| ==> s[i] <= s[j]
  }

  ghost predicate Increasing(s: seq<Int64>) {
    forall i, j :: 0 <= i < j < |s| ==> s[i] < s[j]
  }

  function Put(x: Int64, s: seq<Int64>): seq<Int64> {
    if s == [] || x <= s[0] then [x] + s else [s[0]] + Put(x, s[1..])
  }

  function Sorted(s: seq<Int64>): seq<Int64> {
    if s == [] then [] else Put(s[0], Sorted(s[1..]))
  }

  lemma {:induction false} PutKeeps(x: Int64, s: seq<Int64>)
    requires Ascending(s)
    ensures Ascending(Put(x, s)) && |Put(x, s)| == |s| + 1
    ensures forall k :: 0 <= k < |s| + 1 ==> Put(x, s)[k] == x || (s != [] && s[0] <= Put(x, s)[k])
  {
    if s != [] && x > s[0] {
      PutKeeps(x, s[1..]);
    }
  }

  lemma {:induction false} PutCount(x: Int64, s: seq<Int64>, d: int)
    ensures Count(Put(x, s), d) == Count(s, d) + (if x == d then 1 else 0)
  {
    if s != [] && x > s[0] {
      PutCount(x, s[1..], d);
      assert Put(x, s)[1..] == Put(x, s[1..]);
    } else {
      assert ([x] + s)[1..] == s;
    }
  }

  lemma {:induction false} SortedIsAscending(s: seq<Int64>)
    ensures Ascending(Sorted(s)) && |Sorted(s)| == |s|
  {
    if s != [] {
      SortedIsAscending(s[1..]);
      PutKeeps(s[0], Sorted(s[1..]));
    }
  }

  lemma {:induction false} SortedCount(s: seq<Int64>, d: int)
    ensures Count(Sorted(s), d) == Count(s, d)
  {
    if s != [] {
      SortedCount(s[1..], d);
      PutCount(s[0], Sorted(s[1..]), d);
    }
  }

  /** An ascending list is determined by how often each number occurs. */
  lemma {:induction false} AscendingIsUnique(a: seq<Int64>, b: seq<Int64>)
    requires Ascending(a) && Ascending(b) && forall d: int :: Count(a, d) == Count(b, d)
    ensures a == b
  {
    var x: int := if a == [] then 0 else a[0];
    var y: int := if b == [] then 0 else b[0];
    assert Count(a, x) == Count(b, x) && Count(a, y) == Count(b, y);
    CountPositive(a, y);
    CountPositive(b, x);
    if a != [] {
      assert a[0] == b[0];
      forall d: int
        ensures Count(a[1..], d) == Count(b[1..], d)
      {
        assert Count(a, d) == Count(b, d);
      }
      AscendingIsUnique(a[1..], b[1..]);
    }
  }

  // ----- entries -----

  /** How often `d` occurs in the lists of the term `t`. */
  function Occ(es: seq<Entry>, t: int, d: int): nat {
    if es == [] then 0 else (if es[0].term == t then Count(es[0].postings, d) else 0) + Occ(es[1..], t, d)
  }

  lemma {:induction false} OccConcat(a: seq<Entry>, b: seq<Entry>, t: int, d: int)
    ensures Occ(a + b, t, d) == Occ(a, t, d) + Occ(b, t, d)
  {
    if a == [] {
      assert a + b == b;
    } else {
      assert (a + b)[1..] == a[1..] + b;
      OccConcat(a[1..], b, t, d);
    }
  }

  lemma OccSnoc(a: seq<Entry>, e: Entry, t: int, d: int)
    ensures Occ(a + [e], t, d) == Occ(a, t, d) + (if e.term == t then Count(e.postings, d) else 0)
  {
    OccConcat(a, [e], t, d);
    assert [e][1..] == [];
  }

  lemma WithoutOne<X>(s: seq<X>, j: nat)
    requires j < |s|
    ensures multiset(s[..j] + s[j + 1..]) == multiset(s) - multiset{s[j]}
  {
    assert s == s[..j] + ([s[j]] + s[j + 1..]);
  }

  lemma OccWithout(s: seq<Entry>, j: nat, t: int, d: int)
    requires j < |s|
    ensures Occ(s, t, d) == Occ(s[..j] + s[j + 1..], t, d) + (if s[j].term == t then Count(s[j].postings, d) else 0)
  {
    assert s == s[..j] + [s[j]] + s[j + 1..];
    OccConcat(s[..j] + [s[j]], s[j + 1..], t, d);
    OccSnoc(s[..j], s[j], t, d);
    OccConcat(s[..j], s[j + 1..], t, d);
  }

  /** The order of the entries does not matter. */
  /** A permutation of a list has its first element somewhere, and the others are a permutation of the rest. */
  lemma FirstIn<X>(a: seq<X>, b: seq<X>) returns (j: nat)
    requires a != [] && multiset(a) == multiset(b)
    ensures j < |b| && b[j] == a[0] && multiset(a[1..]) == multiset(b[..j] + b[j + 1..])
  {
    assert a[0] in multiset(b);
    j :| 0 <= j < |b| && b[j] == a[0];
    WithoutOne(b, j);
    WithoutOne(a, 0);
    assert a[..0] + a[1..] == a[1..];
  }

  lemma {:induction false} OccOfPermutation(a: seq<Entry>, b: seq<Entry>, t: int, d: int)
    requires multiset(a) == multiset(b)
    ensures Occ(a, t, d) == Occ(b, t, d)
    decreases |a|
  {
    if a == [] {
      assert |b| == |multiset(b)| == 0;
    } else {
      hide Occ, Count;
      var j := FirstIn(a, b);
      assert a[..0] + a[1..] == a[1..];
      OccOfPermutation(a[1..], b[..j] + b[j + 1..], t, d);
      OccWithout(b, j, t, d);
      OccWithout(a, 0, t, d);
    }
  }

  /** The list of a term, empty when there is none. */
  function ListFor(lists: map<int, seq<Int64>>, t: int): seq<Int64> {
    if t in lists then lists[t] else []
  }

  function EntriesOf(terms: seq<int>, lists: map<int, seq<Int64>>): (es: seq<Entry>)
    ensures |es| == |terms|
  {
    seq(|terms|, k requires 0 <= k < |terms| => Entry(terms[k], ListFor(lists, terms[k])))
  }

  /** Terms that strictly increase from a non-negative one. */
  ghost predicate TermsIncrease(es: seq<Entry>) {
    (forall k :: 0 <= k < |es| ==> 0 <= es[k].term) && forall j, k :: 0 <= j < k < |es| ==> es[j].term < es[k].term
  }
}
