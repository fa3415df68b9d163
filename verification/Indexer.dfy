/** Single-pass in-memory indexing (`indexer.go`): tokens to sorted blocks, and the merge of the blocks. */
module Indexer {
  import opened Compress
  import opened Postings
  import opened InvertedIndexes
  import opened HeapMerge

  datatype Node = Node(id: Int64, name: string, address: string)
  type TermID = x: int | 0 <= x < TWO_63
  datatype Pair = Pair(term: TermID, doc: Int64)

  /** The tokenizer followed by the identifiers of the words, which never change once given. */
  type Tokenizer = string -> seq<TermID>

  // ----- the token stream -----

  function Soup(node: Node, field: string): (soup: string)
    ensures field == "name" ==> soup == node.name
    ensures field == "address" ==> soup == node.address
    ensures field != "name" && field != "address" ==> soup == ""
  {
    if field == "name" then node.name else if field == "address" then node.address else ""
  }

  function Words(node: Node, field: string, tokenize: Tokenizer): seq<TermID> {
    if Soup(node, field) == "" then [] else tokenize(Soup(node, field))
  }

  function PairsFor(words: seq<TermID>, doc: Int64): (pairs: seq<Pair>)
    ensures |pairs| == |words| && forall k :: 0 <= k < |words| ==> pairs[k] == Pair(words[k], doc)
  {
    if words == [] then [] else PairsFor(words[..|words| - 1], doc) + [Pair(words[|words| - 1], doc)]
  }

  function Stream(nodes: seq<Node>, field: string, tokenize: Tokenizer): seq<Pair> {
    if nodes == [] then [] else
    var last := nodes[|nodes| - 1];
    Stream(nodes[..|nodes| - 1], field, tokenize) + PairsFor(Words(last, field, tokenize), last.id)
  }

  /** The length of a document's field; the last node with an identifier counts. */
  function LensOf(nodes: seq<Node>, field: string, tokenize: Tokenizer): map<int, int> {
    if nodes == [] then map[] else
    var last, lens := nodes[|nodes| - 1], LensOf(nodes[..|nodes| - 1], field, tokenize);
    if Soup(last, field) == "" then lens else lens[last.id := |Words(last, field, tokenize)|]
  }

  /** How often a term occurs in a document, in a token stream. */
  function PairCount(pairs: seq<Pair>, t: int, d: int): nat {
    if pairs == [] then 0 else
    PairCount(pairs[..|pairs| - 1], t, d) +
    (if pairs[|pairs| - 1].term == t && pairs[|pairs| - 1].doc == d then 1 else 0)
  }

  lemma {:induction false} PairCountIsMultiplicity(pairs: seq<Pair>, p: Pair)
    ensures PairCount(pairs, p.term, p.doc) == multiset(pairs)[p]
  {
    if pairs != [] {
      assert pairs == pairs[..|pairs| - 1] + [pairs[|pairs| - 1]];
      PairCountIsMultiplicity(pairs[..|pairs| - 1], p);
    }
  }

  /** The number of words in the field of the document. */
  function FieldLength(nodes: seq<Node>, field: string, tokenize: Tokenizer, d: int): nat {
    if nodes == [] then 0 else
    (if nodes[0].id == d then |Words(nodes[0], field, tokenize)| else 0) + FieldLength(nodes[1..], field, tokenize, d)
  }

  lemma {:induction false} FieldLengthConcat(a: seq<Node>, b: seq<Node>, field: string, tokenize: Tokenizer, d: int)
    ensures FieldLength(a + b, field, tokenize, d) ==
      FieldLength(a, field, tokenize, d) + FieldLength(b, field, tokenize, d)
  {
    if a == [] {
      assert a + b == b;
    } else {
      assert (a + b)[1..] == a[1..] + b;
      FieldLengthConcat(a[1..], b, field, tokenize, d);
    }
  }

  function LengthIn(lens: map<int, int>, d: int): int {
    if d in lens then lens[d] else 0
  }

  ghost predicate HasField(nodes: seq<Node>, field: string, d: int) {
    exists i :: 0 <= i < |nodes| && nodes[i].id == d && Soup(nodes[i], field) != ""
  }

  /** The word counts have grown by the lengths of the field in `nodes`. */
  ghost predicate CountedIn(before: map<int, int>, after: map<int, int>, nodes: seq<Node>, field: string,
                            tokenize: Tokenizer) {
    (forall d: int :: LengthIn(after, d) == LengthIn(before, d) + FieldLength(nodes, field, tokenize, d)) &&
    (forall d: int :: d in after <==> d in before || HasField(nodes, field, d))
  }

  lemma NothingCounted(counts: map<int, int>, field: string, tokenize: Tokenizer)
    ensures CountedIn(counts, counts, [], field, tokenize)
  {
    forall d: int
      ensures FieldLength([], field, tokenize, d) == 0 && !HasField([], field, d)
    {
    }
  }

  lemma FieldLengthMore(nodes: seq<Node>, field: string, tokenize: Tokenizer, d: int)
    requires nodes != []
    ensures var last := nodes[|nodes| - 1];
      FieldLength(nodes, field, tokenize, d) == FieldLength(nodes[..|nodes| - 1], field, tokenize, d) +
        (if last.id == d then |Words(last, field, tokenize)| else 0)
  {
    var rest, last := nodes[..|nodes| - 1], nodes[|nodes| - 1];
    assert nodes == rest + [last] && [last][1..] == [];
    FieldLengthConcat(rest, [last], field, tokenize, d);
  }

  lemma HasFieldMore(nodes: seq<Node>, field: string, d: int)
    requires nodes != []
    ensures var last := nodes[|nodes| - 1];
      HasField(nodes, field, d) <==>
        HasField(nodes[..|nodes| - 1], field, d) || (last.id == d && Soup(last, field) != "")
  {
    var rest := nodes[..|nodes| - 1];
    if i :| 0 <= i < |rest| && rest[i].id == d && Soup(rest[i], field) != "" {
      assert nodes[i] == rest[i];
    }
  }

  lemma CountedMore(before: map<int, int>, mid: map<int, int>, nodes: seq<Node>, field: string, tokenize: Tokenizer)
    requires nodes != [] && CountedIn(before, mid, nodes[..|nodes| - 1], field, tokenize)
    ensures var last := nodes[|nodes| - 1];
      var after := mid[last.id := LengthIn(mid, last.id) + |Words(last, field, tokenize)|];
      CountedIn(before, if Soup(last, field) == "" then mid else after, nodes, field, tokenize)
  {
    assert Soup(nodes[|nodes| - 1], field) == "" ==> Words(nodes[|nodes| - 1], field, tokenize) == [];
    hide Words, Soup, FieldLength, HasField;
    forall d: int
      ensures FieldLength(nodes, field, tokenize, d) == FieldLength(nodes[..|nodes| - 1], field, tokenize, d) +
        (if nodes[|nodes| - 1].id == d then |Words(nodes[|nodes| - 1], field, tokenize)| else 0)
      ensures HasField(nodes, field, d) <==>
        HasField(nodes[..|nodes| - 1], field, d) ||
        (nodes[|nodes| - 1].id == d && Soup(nodes[|nodes| - 1], field) != "")
    {
      FieldLengthMore(nodes, field, tokenize, d);
      HasFieldMore(nodes, field, d);
    }
  }

  /** The lengths that enter a block, and the word counts of the index. */
  datatype Lengths = Lengths(lenDF: map<int, int>, counts: map<int, int>)

  /** What parsing a node does with the text of its field: every word is paired with the document, its length is
      set in the block and added in the index; an empty text leaves no trace. */
  ghost predicate Parsed(text: string, doc: Int64, tokenize: Tokenizer, pairs: seq<Pair>, before: Lengths,
                         after: Lengths) {
    if text == "" then pairs == [] && after == before else
    var words := tokenize(text);
    |pairs| == |words| && (forall k :: 0 <= k < |words| ==> pairs[k] == Pair(words[k], doc)) &&
    after.lenDF == before.lenDF[doc := |words|] &&
    after.counts == before.counts[doc := (if doc in before.counts then before.counts[doc] else 0) + |words|]
  }

  class DynamicIndex {
    const tokenize: Tokenizer
    const maxDynamicPostingListSize: int
    var docWordCount: map<int, int>

    constructor (tokenize: Tokenizer, maxSize: int)
      ensures this.tokenize == tokenize && maxDynamicPostingListSize == maxSize && docWordCount == map[]
    {
      this.tokenize, maxDynamicPostingListSize, docWordCount := tokenize, maxSize, map[];
    }

    /** The node's pairs; its field's length enters `lenDF` unless the field is empty. */
    method SpimiParseOSMNode(node: Node, field: string, lenDF: map<int, int>)
      returns (termDocPairs: seq<Pair>, lenDF': map<int, int>)
      modifies this`docWordCount
      ensures termDocPairs == PairsFor(Words(node, field, tokenize), node.id)
      ensures lenDF' == if Soup(node, field) == "" then lenDF else lenDF[node.id := |Words(node, field, tokenize)|]
      ensures docWordCount == if Soup(node, field) == "" then old(docWordCount) else
        old(docWordCount)[node.id := LengthIn(old(docWordCount), node.id) + |Words(node, field, tokenize)|]
      ensures var before, after := Lengths(lenDF, old(docWordCount)), Lengths(lenDF', docWordCount);
        (field == "name" ==> Parsed(node.name, node.id, tokenize, termDocPairs, before, after)) &&
        (field == "address" ==> Parsed(node.address, node.id, tokenize, termDocPairs, before, after)) &&
        (field != "name" && field != "address" ==> Parsed("", node.id, tokenize, termDocPairs, before, after))
    {
      termDocPairs, lenDF' := [], lenDF;
      var soup := match field case "name" => node.name case "address" => node.address case _ => "";
      if soup == "" {
        return;
      }
      var words := tokenize(soup);
      docWordCount := docWordCount[node.id := (if node.id in docWordCount then docWordCount[node.id] else 0) + |words|];
      lenDF' := lenDF[node.id := |words|];
      for i := 0 to |words|
        invariant termDocPairs == PairsFor(words[..i], node.id)
      {
        assert words[..i + 1][..i] == words[..i];
        termDocPairs := termDocPairs + [Pair(words[i], node.id)];
      }
      assert words[..|words|] == words;
    }

    method SpimiParseOSMNodes(nodes: seq<Node>, field: string) returns (termDocPairs: seq<Pair>, lenDF: map<int, int>)
      modifies this`docWordCount
      ensures termDocPairs == Stream(nodes, field, tokenize) && lenDF == LensOf(nodes, field, tokenize)
      ensures CountedIn(old(docWordCount), docWordCount, nodes, field, tokenize)
    {
      hide CountedIn;
      termDocPairs, lenDF := [], map[];
      NothingCounted(docWordCount, field, tokenize);
      assert nodes[..0] == [];
      for i := 0 to |nodes|
        invariant termDocPairs == Stream(nodes[..i], field, tokenize) && lenDF == LensOf(nodes[..i], field, tokenize)
        invariant CountedIn(old(docWordCount), docWordCount, nodes[..i], field, tokenize)
      {
        assert nodes[..i + 1][..i] == nodes[..i];
        CountedMore(old(docWordCount), docWordCount, nodes[..i + 1], field, tokenize);
        var pairs;
        pairs, lenDF := SpimiParseOSMNode(nodes[i], field, lenDF);
        termDocPairs := termDocPairs + pairs;
      }
      assert nodes[..|nodes|] == nodes;
    }

    /** A batch becomes a block; a batch that reaches the limit writes a block for every full memory and
        one for the rest. Every block carries the lengths of the whole batch. */
    method SpimiInvert(nodes: seq<Node>, field: string) returns (written: seq<InvertedIndex>)
      modifies this`docWordCount
      ensures fresh(written) && Different(written)
      ensures var chunks := Cut(Stream(nodes, field, tokenize), FlushSize(maxDynamicPostingListSize));
        |written| == |chunks| && forall k :: 0 <= k < |written| ==>
          Block(written[k], chunks[k]) && written[k].lenFieldInDoc == LensOf(nodes, field, tokenize)
      ensures CountedIn(old(docWordCount), docWordCount, nodes, field, tokenize)
    {
      hide CountedIn, Block, Gathers, Stream, LensOf, Cut, FlushSize;
      var tokenStreams, lenDF := SpimiParseOSMNodes(nodes, field);
      ghost var chunks, current: seq<Pair>, size := [], [], FlushSize(maxDynamicPostingListSize);
      var postingSize, termToPostingMap: Lists := 0, map[];
      written := [];
      NothingGathered();
      ghost var counts := docWordCount;
      assert current + tokenStreams[0..] == tokenStreams;
      for i := 0 to |tokenStreams|
        invariant docWordCount == counts
        invariant fresh(written) && Different(written) && postingSize == |current| < size
        invariant |written| == |chunks| && forall k :: 0 <= k < |written| ==>
          Block(written[k], chunks[k]) && written[k].lenFieldInDoc == lenDF
        invariant chunks + Cut(current + tokenStreams[i..], size) == Cut(tokenStreams, size)
        invariant Gathers(termToPostingMap, current)
      {
        var p := tokenStreams[i];
        CutKeeps(current, tokenStreams, i);
        GathersMore(termToPostingMap, current, p);
        termToPostingMap := termToPostingMap[p.term := ListFor(termToPostingMap, p.term) + [p.doc]];
        current := current + [p];
        postingSize := postingSize + 1;
        if postingSize >= maxDynamicPostingListSize {
          postingSize := 0;
          var flushed := FlushBlock(termToPostingMap, current, lenDF);
          written := written + [flushed];
          CutOff(chunks, current, tokenStreams[i + 1..], size);
          chunks := chunks + [Chunk(current, true)];
          termToPostingMap, current := map[], [];
        }
      }
      CutEnds(current, tokenStreams, size);
      var block := WriteBlock(termToPostingMap, current, lenDF);
      written := written + [block];
    }
  }

  // ----- the pieces of a stream that are in memory together -----

  /** What one block is made from; `flushed` if it was written because memory was full. */
  datatype Chunk = Chunk(pairs: seq<Pair>, flushed: bool)

  /** Memory is checked after a pair has been added, so one pair at least is gathered. */
  function FlushSize(limit: int): (size: nat)
    ensures 1 <= size && limit <= size && (size == 1 || size == limit)
  {
    if limit < 1 then 1 else limit
  }

  function Cut(pairs: seq<Pair>, size: nat): seq<Chunk>
    requires 1 <= size
  {
    if |pairs| < size then [Chunk(pairs, false)] else [Chunk(pairs[..size], true)] + Cut(pairs[size..], size)
  }

  function Joined(chunks: seq<Chunk>): seq<Pair> {
    if chunks == [] then [] else chunks[0].pairs + Joined(chunks[1..])
  }

  /** The chunks are the stream again; all but the last are flushed with a full memory, which the last does
      not reach. */
  lemma {:induction false} CutMeans(pairs: seq<Pair>, size: nat)
    requires 1 <= size
    ensures var chunks := Cut(pairs, size);
      Joined(chunks) == pairs && chunks != [] &&
      (forall k :: 0 <= k < |chunks| - 1 ==> chunks[k].flushed && |chunks[k].pairs| == size) &&
      !chunks[|chunks| - 1].flushed && |chunks[|chunks| - 1].pairs| < size
    decreases |pairs|
  {
    if |pairs| >= size {
      CutMeans(pairs[size..], size);
      assert pairs == pairs[..size] + pairs[size..];
      var chunks := Cut(pairs, size);
      assert chunks[1..] == Cut(pairs[size..], size);
      assert forall k :: 1 <= k < |chunks| ==> chunks[k] == chunks[1..][k - 1];
    } else {
      assert [Chunk(pairs, false)][1..] == [];
    }
  }

  lemma CutKeeps(current: seq<Pair>, pairs: seq<Pair>, i: nat)
    requires i < |pairs|
    ensures current + pairs[i..] == (current + [pairs[i]]) + pairs[i + 1..]
  {
  }

  lemma CutOff(chunks: seq<Chunk>, current: seq<Pair>, rest: seq<Pair>, size: nat)
    requires 1 <= size == |current|
    ensures chunks + Cut(current + rest, size) == (chunks + [Chunk(current, true)]) + Cut([] + rest, size)
  {
    assert (current + rest)[..size] == current && (current + rest)[size..] == rest == [] + rest;
  }

  lemma CutEnds(current: seq<Pair>, pairs: seq<Pair>, size: nat)
    requires |current| < size
    ensures Cut(current + pairs[|pairs|..], size) == [Chunk(current, false)]
  {
    assert current + pairs[|pairs|..] == current;
  }

  // ----- posting lists in memory -----

  type Lists = map<int, seq<Int64>>

  function TermsIn(pairs: seq<Pair>): set<int> {
    set p | p in pairs :: p.term
  }

  /** Only terms, each with a list that is not empty. */
  ghost predicate AllPresent(m: Lists) {
    forall t: int :: t in m ==> 0 <= t < TWO_63 && m[t] != []
  }

  /** `m` has a list for each term of the pairs, with each document as often as it is paired with it. */
  ghost predicate Gathers(m: Lists, pairs: seq<Pair>) {
    m.Keys == TermsIn(pairs) && AllPresent(m) &&
    forall t: int, d: int :: Count(ListFor(m, t), d) == PairCount(pairs, t, d)
  }

  lemma NothingGathered()
    ensures Gathers(map[], [])
  {
    var m: Lists := map[];
    forall t: int, d: int
      ensures Count(ListFor(m, t), d) == PairCount([], t, d)
    {
    }
    assert m.Keys == TermsIn([]);
  }

  lemma GathersMore(m: Lists, pairs: seq<Pair>, p: Pair)
    requires Gathers(m, pairs)
    ensures Gathers(m[p.term := ListFor(m, p.term) + [p.doc]], pairs + [p])
  {
    var m', pairs' := m[p.term := ListFor(m, p.term) + [p.doc]], pairs + [p];
    assert pairs'[..|pairs'| - 1] == pairs && pairs'[|pairs'| - 1] == p;
    forall t: int, d: int
      ensures Count(ListFor(m', t), d) == PairCount(pairs', t, d)
    {
      CountConcat(ListFor(m, p.term), [p.doc], d);
      assert [p.doc][1..] == [];
    }
    forall t: int
      ensures t in m'.Keys <==> t in TermsIn(pairs')
    {
      if t in TermsIn(pairs) {
        var q :| q in pairs && q.term == t;
        assert q in pairs';
      }
      assert p in pairs';
    }
  }

  /** Each term once, in increasing order. */
  ghost predicate TermsOf(terms: seq<Int64>, m: Lists) {
    Increasing(terms) && forall t: int :: Count(terms, t) == if t in m then 1 else 0
  }

  lemma CountedTwice(s: seq<Int64>, i: nat, j: nat)
    requires i < j < |s| && s[i] == s[j]
    ensures Count(s, s[i]) >= 2
  {
    assert s == s[..j] + s[j..];
    CountConcat(s[..j], s[j..], s[i]);
    assert s[..j][i] == s[i] && s[j..][0] == s[j];
    CountPositive(s[..j], s[i]);
    CountPositive(s[j..], s[i]);
  }

  lemma IncreasingWithoutRepeats(s: seq<Int64>)
    requires Ascending(s) && forall d: int :: Count(s, d) <= 1
    ensures Increasing(s)
  {
    forall i, j | 0 <= i < j < |s|
      ensures s[i] < s[j]
    {
      if s[i] == s[j] {
        CountedTwice(s, i, j);
      }
    }
  }

  lemma Member<X>(s: set<X>) returns (x: X)
    requires s != {}
    ensures x in s
  {
    x :| x in s;
  }

  /** The keys of a map, in the order of some iteration. */
  method Keys(m: Lists) returns (order: seq<Int64>)
    requires AllPresent(m)
    ensures forall t: int :: Count(order, t) == if t in m then 1 else 0
  {
    order := [];
    var rest := m.Keys;
    while rest != {}
      invariant rest <= m.Keys && forall t: int :: Count(order, t) == if t in m && t !in rest then 1 else 0
    {
      ghost var some: int := Member(rest);
      var k: int :| k in rest;
      forall t: int
        ensures Count(order + [k], t) == if t in m && t !in rest - {k} then 1 else 0
      {
        CountConcat(order, [k], t);
        assert [k][1..] == [];
      }
      order := order + [k];
      rest := rest - {k};
    }
  }

  method SortedTerms(m: Lists) returns (terms: seq<Int64>)
    requires AllPresent(m)
    ensures TermsOf(terms, m)
  {
    var order := Keys(m);
    terms := Sorted(order);
    SortedIsAscending(order);
    forall t: int
      ensures Count(terms, t) == if t in m then 1 else 0
    {
      SortedCount(order, t);
    }
    IncreasingWithoutRepeats(terms);
  }

  // ----- blocks -----

  /** `lists` are the sorted lists of `m`, for some of its terms. */
  ghost predicate SortedFrom(lists: Lists, m: Lists, terms: seq<Int64>) {
    (forall t: int :: t in lists <==> Count(terms, t) > 0) &&
    forall t: int :: t in lists ==> t in m && lists[t] == Sorted(m[t])
  }

  lemma SortedFromMore(lists: Lists, m: Lists, terms: seq<Int64>, t: Int64)
    requires SortedFrom(lists, m, terms) && t in m
    ensures SortedFrom(lists[t := Sorted(m[t])], m, terms + [t])
  {
    var lists' := lists[t := Sorted(m[t])];
    forall u: int
      ensures u in lists' <==> Count(terms + [t], u) > 0
    {
      CountConcat(terms, [t], u);
      assert [t][1..] == [];
    }
  }

  lemma TermOf(terms: seq<Int64>, m: Lists, i: nat)
    requires TermsOf(terms, m) && i < |terms|
    ensures terms[i] in m
  {
    CountPositive(terms, terms[i]);
  }

  lemma BlockTermsIncrease(terms: seq<Int64>, m: Lists, lists: Lists)
    requires TermsOf(terms, m) && AllPresent(m)
    ensures TermsIncrease(EntriesOf(terms, lists))
  {
    forall k | 0 <= k < |terms|
      ensures 0 <= terms[k]
    {
      TermOf(terms, m, k);
    }
  }

  /** How often a document is in the list that a block holds for a term. The flush writes lists for 0, 1, 2,
      ... up to the number of terms in memory, and the lists of greater terms are lost. */
  function Kept(chunk: Chunk, t: int, d: int): nat {
    if chunk.flushed && |TermsIn(chunk.pairs)| <= t then 0 else PairCount(chunk.pairs, t, d)
  }

  /** A block holds an ascending list for each of its terms, with the documents that were kept. */
  ghost predicate Block(index: InvertedIndex, chunk: Chunk)
    reads index
  {
    index.Valid() && index.currTermPosition == 0 && TermsIncrease(EntriesOf(index.terms, index.lists)) &&
    (forall t: int :: t in index.lists ==> Ascending(index.lists[t])) &&
    forall t: int, d: int :: Count(ListFor(index.lists, t), d) == Kept(chunk, t, d)
  }

  method WriteBlock(m: Lists, ghost pairs: seq<Pair>, lenDF: map<int, int>) returns (index: InvertedIndex)
    requires Gathers(m, pairs)
    ensures fresh(index) && Block(index, Chunk(pairs, false)) && index.lenFieldInDoc == lenDF
  {
    var terms := SortedTerms(m);
    index := new InvertedIndex(lenDF);
    for i := 0 to |terms|
      invariant index.Valid() && index.currTermPosition == 0 && index.lenFieldInDoc == lenDF && fresh(index)
      invariant index.terms == terms[..i] && SortedFrom(index.lists, m, terms[..i])
    {
      assert terms[..i + 1] == terms[..i] + [terms[i]];
      TermOf(terms, m, i);
      SortedFromMore(index.lists, m, terms[..i], terms[i]);
      index.AppendPostingList(terms[i], Sorted(m[terms[i]]));
    }
    assert terms[..|terms|] == terms;
    BlockTermsIncrease(terms, m, index.lists);
    BlockGathers(index, m, terms, pairs);
  }

  lemma BlockGathers(index: InvertedIndex, m: Lists, terms: seq<Int64>, pairs: seq<Pair>)
    requires index.Valid() && index.currTermPosition == 0 && TermsIncrease(EntriesOf(index.terms, index.lists))
    requires TermsOf(terms, m) && SortedFrom(index.lists, m, terms) && Gathers(m, pairs)
    ensures Block(index, Chunk(pairs, false))
  {
    forall t: int | t in index.lists
      ensures Ascending(index.lists[t])
    {
      SortedIsAscending(m[t]);
    }
    forall t: int, d: int
      ensures Count(ListFor(index.lists, t), d) == PairCount(pairs, t, d)
    {
      assert Count(ListFor(m, t), d) == PairCount(pairs, t, d);
      if t in m {
        SortedCount(m[t], d);
        assert Count(terms, t) > 0;
      }
    }
  }

  // ----- the flush inside a batch -----

  /** The lists that a flush writes: it runs over 0, 1, 2, ... up to the number of terms, not over the terms. */
  function FlushedUpTo(m: Lists, n: nat): Lists {
    if n == 0 then map[] else FlushedUpTo(m, n - 1)[n - 1 := Sorted(ListFor(m, n - 1))]
  }

  lemma {:induction false} FlushedLists(m: Lists, n: nat)
    ensures forall t: int :: ListFor(FlushedUpTo(m, n), t) == if 0 <= t < n then Sorted(ListFor(m, t)) else []
  {
    if n > 0 {
      FlushedLists(m, n - 1);
      forall t: int
        ensures ListFor(FlushedUpTo(m, n), t) == if 0 <= t < n then Sorted(ListFor(m, t)) else []
      {
        assert ListFor(FlushedUpTo(m, n - 1), t) == if 0 <= t < n - 1 then Sorted(ListFor(m, t)) else [];
      }
    }
  }

  method FlushBlock(m: Lists, ghost pairs: seq<Pair>, lenDF: map<int, int>) returns (index: InvertedIndex)
    requires Gathers(m, pairs)
    ensures fresh(index) && Block(index, Chunk(pairs, true)) && index.lenFieldInDoc == lenDF
  {
    index := new InvertedIndex(lenDF);
    for term := 0 to |m|
      invariant index.Valid() && index.lenFieldInDoc == lenDF && fresh(index) && index.lists == FlushedUpTo(m, term)
      invariant index.currTermPosition == 0 && |index.terms| == term
      invariant forall k :: 0 <= k < term ==> index.terms[k] == k
    {
      index.AppendPostingList(term, Sorted(ListFor(m, term)));
    }
    FlushedBlock(index, m, pairs);
  }

  lemma {:induction false} FlushedKeys(m: Lists, n: nat)
    ensures forall t: int :: t in FlushedUpTo(m, n) <==> 0 <= t < n
  {
    if n > 0 { FlushedKeys(m, n - 1); }
  }

  lemma NoneCounted(d: int)
    ensures Count([], d) == 0
  {
  }

  lemma FlushedBlock(index: InvertedIndex, m: Lists, pairs: seq<Pair>)
    requires index.Valid() && index.currTermPosition == 0 && index.lists == FlushedUpTo(m, |m|) && Gathers(m, pairs)
    requires |index.terms| == |m| && forall k :: 0 <= k < |m| ==> index.terms[k] == k
    ensures Block(index, Chunk(pairs, true))
  {
    hide Sorted, Count, PairCount, FlushedUpTo, TermsIn;
    FlushedLists(m, |m|);
    FlushedKeys(m, |m|);
    assert |m| == |m.Keys| == |TermsIn(pairs)|;
    forall t: int | t in index.lists
      ensures Ascending(index.lists[t])
    {
      assert ListFor(FlushedUpTo(m, |m|), t) == index.lists[t];
      SortedIsAscending(ListFor(m, t));
    }
    forall t: int, d: int
      ensures Count(ListFor(index.lists, t), d) == Kept(Chunk(pairs, true), t, d)
    {
      assert Count(ListFor(m, t), d) == PairCount(pairs, t, d);
      SortedCount(ListFor(m, t), d);
      NoneCounted(d);
      assert t < 0 ==> t !in m;
    }
  }

  /** A flush writes the right lists exactly when the terms in memory are the first identifiers. */
  lemma FlushIsRightIff(m: Lists)
    requires AllPresent(m)
    ensures (forall t: int :: ListFor(FlushedUpTo(m, |m|), t) == Sorted(ListFor(m, t))) <==>
      (forall t: int :: t in m ==> t < |m|)
  {
    FlushedLists(m, |m|);
    if t: int :| t in m && t >= |m| {
      SortedIsAscending(m[t]);
      assert ListFor(FlushedUpTo(m, |m|), t) == [] != Sorted(ListFor(m, t));
    }
  }

  /** With memory for one pair, the only occurrence of term 7 is lost. */
  lemma FlushLosesATerm()
    ensures var pairs := [Pair(7, 1)];
      Cut(pairs, 1) == [Chunk(pairs, true), Chunk([], false)] && PairCount(pairs, 7, 1) == 1 &&
      Kept(Cut(pairs, 1)[0], 7, 1) == Kept(Cut(pairs, 1)[1], 7, 1) == 0
  {
    var pairs := [Pair(7, 1)];
    assert pairs[..1] == pairs && pairs[1..] == [] && Cut([], 1) == [Chunk([], false)];
    assert TermsIn(pairs) == {7} by {
      assert pairs[0] in pairs;
    }
    assert pairs[..0] == [];
  }
}
