/** From documents to lookups: the index agrees with a naive count of term occurrences. */
module SpimiPipeline {
  import opened Wrappers
  import opened Compress
  import opened MetadataFormat
  import opened Postings
  import opened InvertedIndexes
  import opened HeapMerge
  import opened Indexer
  import opened FieldTexts
  import opened IndexMerging

  // ----- the token stream counts the same -----

  lemma {:induction false} PairCountConcat(a: seq<Pair>, b: seq<Pair>, t: int, d: int)
    ensures PairCount(a + b, t, d) == PairCount(a, t, d) + PairCount(b, t, d)
  {
    if b == [] {
      assert a + b == a;
    } else {
      assert (a + b)[..|a + b| - 1] == a + b[..|b| - 1];
      PairCountConcat(a, b[..|b| - 1], t, d);
    }
  }

  lemma {:induction false} PairsForCount(words: seq<TermID>, doc: Int64, t: int, d: int)
    ensures PairCount(PairsFor(words, doc), t, d) == if doc == d then WordCount(words, t) else 0
  {
    if words != [] {
      var n := |words| - 1;
      PairsForCount(words[..n], doc, t, d);
      assert words == words[..n] + [words[n]] && [words[n]][1..] == [];
      WordCountConcat(words[..n], [words[n]], t);
    }
  }

  lemma TermCountLast(nodes: seq<Node>, field: string, tokenize: Tokenizer, t: int, d: int)
    requires nodes != []
    ensures var (rest, last) := (nodes[..|nodes| - 1], nodes[|nodes| - 1]);
      TermCount(nodes, field, tokenize, t, d) == TermCount(rest, field, tokenize, t, d) +
      (if last.id == d then WordCount(Words(last, field, tokenize), t) else 0)
  {
    TermCountWithout(nodes, |nodes| - 1, field, tokenize, t, d);
    assert nodes[..|nodes| - 1] + nodes[|nodes|..] == nodes[..|nodes| - 1];
  }

  lemma {:induction false} StreamCount(nodes: seq<Node>, field: string, tokenize: Tokenizer, t: int, d: int)
    ensures PairCount(Stream(nodes, field, tokenize), t, d) == TermCount(nodes, field, tokenize, t, d)
  {
    if nodes != [] {
      var n := |nodes| - 1;
      var last := nodes[n];
      StreamCount(nodes[..n], field, tokenize, t, d);
      PairCountConcat(Stream(nodes[..n], field, tokenize), PairsFor(Words(last, field, tokenize), last.id), t, d);
      PairsForCount(Words(last, field, tokenize), last.id, t, d);
      TermCountLast(nodes, field, tokenize, t, d);
    }
  }

  // ----- blocks and their merge -----

  function Flatten(batches: seq<seq<Node>>): seq<Node> {
    if batches == [] then [] else Flatten(batches[..|batches| - 1]) + batches[|batches| - 1]
  }

  /** Among strictly increasing terms each list is met once. */
  lemma {:induction false} OccOfEntries(terms: seq<int>, lists: Lists, t: int, d: int)
    requires StrictlyUp(terms)
    ensures Occ(EntriesOf(terms, lists), t, d) == if t in terms then Count(ListFor(lists, t), d) else 0
  {
    if terms != [] {
      var n := |terms| - 1;
      var last: int := terms[n];
      OccOfEntries(terms[..n], lists, t, d);
      assert EntriesOf(terms, lists) == EntriesOf(terms[..n], lists) + [Entry(last, ListFor(lists, last))];
      OccSnoc(EntriesOf(terms[..n], lists), Entry(last, ListFor(lists, last)), t, d);
      assert terms == terms[..n] + [last];
    }
  }

  lemma BlockCounts(index: InvertedIndex, chunk: Chunk, t: int, d: int)
    requires Block(index, chunk)
    ensures Occ(EntriesOf(index.terms, index.lists), t, d) == Kept(chunk, t, d)
  {
    var es := EntriesOf(index.terms, index.lists);
    assert forall k :: 0 <= k < |es| ==> es[k].term == index.terms[k];
    OccOfEntries(index.terms, index.lists, t, d);
    assert Count(ListFor(index.lists, t), d) == Kept(chunk, t, d);
  }

  /** What the blocks of all batches are made from. */
  function ChunksOf(batches: seq<seq<Node>>, field: string, tokenize: Tokenizer, size: nat): seq<Chunk>
    requires 1 <= size
  {
    if batches == [] then [] else
    ChunksOf(batches[..|batches| - 1], field, tokenize, size) +
      Cut(Stream(batches[|batches| - 1], field, tokenize), size)
  }

  function Copies<X>(x: X, n: nat): (s: seq<X>)
    ensures |s| == n
  {
    if n == 0 then [] else Copies(x, n - 1) + [x]
  }

  /** The field lengths that the blocks of all batches carry: each those of its whole batch. */
  function LensOfBlocks(batches: seq<seq<Node>>, field: string, tokenize: Tokenizer, size: nat): seq<map<int, int>>
    requires 1 <= size
  {
    if batches == [] then [] else
    var last := batches[|batches| - 1];
    LensOfBlocks(batches[..|batches| - 1], field, tokenize, size) +
    Copies(LensOf(last, field, tokenize), |Cut(Stream(last, field, tokenize), size)|)
  }

  ghost predicate Holds(index: InvertedIndex, chunk: Chunk, lens: map<int, int>)
    reads index
  {
    Block(index, chunk) && index.lenFieldInDoc == lens
  }

  ghost predicate AllHold(indexes: seq<InvertedIndex>, chunks: seq<Chunk>, lens: seq<map<int, int>>)
    reads indexes
  {
    |indexes| == |chunks| == |lens| && Different(indexes) &&
    forall i {:trigger indexes[i]} :: 0 <= i < |indexes| ==> Holds(indexes[i], chunks[i], lens[i])
  }

  function KeptAll(chunks: seq<Chunk>, t: int, d: int): nat {
    if chunks == [] then 0 else KeptAll(chunks[..|chunks| - 1], t, d) + Kept(chunks[|chunks| - 1], t, d)
  }

  /** How often the term occurs in the document in lists that a flush did not write. */
  function Lost(chunk: Chunk, t: int, d: int): nat {
    if chunk.flushed && |TermsIn(chunk.pairs)| <= t then PairCount(chunk.pairs, t, d) else 0
  }

  function LostAll(chunks: seq<Chunk>, t: int, d: int): nat {
    if chunks == [] then 0 else LostAll(chunks[..|chunks| - 1], t, d) + Lost(chunks[|chunks| - 1], t, d)
  }

  lemma {:induction false} ChunksConcat(a: seq<Chunk>, b: seq<Chunk>, t: int, d: int)
    ensures KeptAll(a + b, t, d) == KeptAll(a, t, d) + KeptAll(b, t, d)
    ensures LostAll(a + b, t, d) == LostAll(a, t, d) + LostAll(b, t, d)
  {
    if b == [] {
      assert a + b == a;
    } else {
      assert (a + b)[..|a + b| - 1] == a + b[..|b| - 1];
      ChunksConcat(a, b[..|b| - 1], t, d);
    }
  }

  lemma {:induction false} CutCounts(pairs: seq<Pair>, size: nat, t: int, d: int)
    requires 1 <= size
    ensures KeptAll(Cut(pairs, size), t, d) + LostAll(Cut(pairs, size), t, d) == PairCount(pairs, t, d)
    decreases |pairs|
  {
    if |pairs| < size {
      OneChunk(Chunk(pairs, false), t, d);
    } else {
      var first, rest := Chunk(pairs[..size], true), pairs[size..];
      CutCounts(rest, size, t, d);
      OneChunk(first, t, d);
      ChunksConcat([first], Cut(rest, size), t, d);
      assert pairs == pairs[..size] + rest;
      PairCountConcat(pairs[..size], rest, t, d);
    }
  }

  lemma OneChunk(chunk: Chunk, t: int, d: int)
    ensures KeptAll([chunk], t, d) == Kept(chunk, t, d) && LostAll([chunk], t, d) == Lost(chunk, t, d)
    ensures Kept(chunk, t, d) + Lost(chunk, t, d) == PairCount(chunk.pairs, t, d)
  {
    assert [chunk][..0] == [];
  }

  /** Every occurrence of a term in a document is in some block or was lost by a flush. */
  lemma {:induction false} KeptOrLost(batches: seq<seq<Node>>, field: string, tokenize: Tokenizer, size: nat, t: int,
                                      d: int)
    requires 1 <= size
    ensures var chunks := ChunksOf(batches, field, tokenize, size);
      KeptAll(chunks, t, d) + LostAll(chunks, t, d) == TermCount(Flatten(batches), field, tokenize, t, d)
  {
    if batches != [] {
      var rest, last := batches[..|batches| - 1], batches[|batches| - 1];
      KeptOrLost(rest, field, tokenize, size, t, d);
      CutCounts(Stream(last, field, tokenize), size, t, d);
      StreamCount(last, field, tokenize, t, d);
      ChunksConcat(ChunksOf(rest, field, tokenize, size), Cut(Stream(last, field, tokenize), size), t, d);
      TermCountConcat(Flatten(rest), last, field, tokenize, t, d);
    }
  }

  lemma {:induction false} BlocksCount(indexes: seq<InvertedIndex>, chunks: seq<Chunk>, lens: seq<map<int, int>>,
                                       n: nat, t: int, d: int)
    requires AllHold(indexes, chunks, lens) && n <= |indexes|
    ensures OccAll(ListsOf(indexes)[..n], t, d) == KeptAll(chunks[..n], t, d)
  {
    if n > 0 {
      BlocksCount(indexes, chunks, lens, n - 1, t, d);
      assert ListsOf(indexes)[..n][..n - 1] == ListsOf(indexes)[..n - 1] && chunks[..n][..n - 1] == chunks[..n - 1];
      assert Holds(indexes[n - 1], chunks[n - 1], lens[n - 1]);
      BlockCounts(indexes[n - 1], chunks[n - 1], t, d);
    }
  }

  /** Looking up a term gives each document as often as the term occurs in it, in order. */
  ghost predicate Answers(lists: Lists, nodes: seq<Node>, field: string, tokenize: Tokenizer) {
    (forall t: int :: Ascending(ListFor(lists, t))) &&
    forall t: int, d: int :: Count(ListFor(lists, t), d) == TermCount(nodes, field, tokenize, t, d)
  }

  /** Two indexes over the same documents, in whatever order and batches, answer alike. */
  lemma AnswersAgree(a: Lists, b: Lists, nodes: seq<Node>, nodes': seq<Node>, field: string, tokenize: Tokenizer,
                     t: int)
    requires Answers(a, nodes, field, tokenize) && Answers(b, nodes', field, tokenize) &&
      multiset(nodes) == multiset(nodes')
    ensures ListFor(a, t) == ListFor(b, t)
  {
    forall d: int
      ensures Count(ListFor(a, t), d) == Count(ListFor(b, t), d)
    {
      TermCountOfPermutation(nodes, nodes', field, tokenize, t, d);
      assert Count(ListFor(a, t), d) == TermCount(nodes, field, tokenize, t, d);
      assert Count(ListFor(b, t), d) == TermCount(nodes', field, tokenize, t, d);
    }
    AscendingIsUnique(ListFor(a, t), ListFor(b, t));
  }

  /** Looking up a term gives each document as often as the term occurs in it, but for what was lost. */
  ghost predicate Finds(lists: Lists, chunks: seq<Chunk>, nodes: seq<Node>, field: string, tokenize: Tokenizer) {
    (forall t: int :: Ascending(ListFor(lists, t))) &&
    forall t: int, d: int :: Count(ListFor(lists, t), d) + LostAll(chunks, t, d) ==
      TermCount(nodes, field, tokenize, t, d)
  }

  /** When memory was full, its terms were 0, 1, 2, ... */
  ghost predicate NothingLost(chunks: seq<Chunk>) {
    forall k, p :: 0 <= k < |chunks| && chunks[k].flushed && p in chunks[k].pairs ==>
      p.term < |TermsIn(chunks[k].pairs)|
  }

  lemma {:induction false} PairCountPositive(pairs: seq<Pair>, t: int, d: int)
    ensures PairCount(pairs, t, d) > 0 <==> exists p :: p in pairs && p.term == t && p.doc == d
  {
    if pairs != [] {
      var rest, last := pairs[..|pairs| - 1], pairs[|pairs| - 1];
      PairCountPositive(rest, t, d);
      assert pairs == rest + [last];
    }
  }

  lemma {:induction false} LostBy(chunks: seq<Chunk>, k: nat, t: int, d: int)
    requires k < |chunks|
    ensures Lost(chunks[k], t, d) <= LostAll(chunks, t, d)
  {
    if k < |chunks| - 1 {
      LostBy(chunks[..|chunks| - 1], k, t, d);
    }
  }

  lemma {:induction false} NoneLost(chunks: seq<Chunk>, t: int, d: int)
    requires NothingLost(chunks)
    ensures LostAll(chunks, t, d) == 0
  {
    if chunks != [] {
      var rest, last := chunks[..|chunks| - 1], chunks[|chunks| - 1];
      assert forall k :: 0 <= k < |rest| ==> rest[k] == chunks[k];
      NoneLost(rest, t, d);
      PairCountPositive(last.pairs, t, d);
    }
  }

  /** Lookups agree with the naive count if and only if no flush had a term beyond their number. */
  lemma AnswersIff(lists: Lists, chunks: seq<Chunk>, nodes: seq<Node>, field: string, tokenize: Tokenizer)
    requires Finds(lists, chunks, nodes, field, tokenize)
    ensures Answers(lists, nodes, field, tokenize) <==> NothingLost(chunks)
  {
    if NothingLost(chunks) {
      forall t: int, d: int
        ensures Count(ListFor(lists, t), d) == TermCount(nodes, field, tokenize, t, d)
      {
        NoneLost(chunks, t, d);
        assert Count(ListFor(lists, t), d) + LostAll(chunks, t, d) == TermCount(nodes, field, tokenize, t, d);
      }
    } else {
      var k, p :| 0 <= k < |chunks| && chunks[k].flushed && p in chunks[k].pairs &&
                  p.term >= |TermsIn(chunks[k].pairs)|;
      var t: int, d: int := p.term, p.doc;
      PairCountPositive(chunks[k].pairs, t, d);
      LostBy(chunks, k, t, d);
      assert Count(ListFor(lists, t), d) + LostAll(chunks, t, d) == TermCount(nodes, field, tokenize, t, d);
    }
  }

  /** A list for the term, with what was lost, has each document as often as the term is in its own text. */
  ghost predicate FoundOnFields(list: seq<Int64>, t: int, chunks: seq<Chunk>, nodes: seq<Node>, field: string,
                                tokenize: Tokenizer) {
    OnFields(d => Count(list, d) + LostAll(chunks, t, d), TimesIn(tokenize, t), nodes, field)
  }

  lemma FindsOnFields(lists: Lists, chunks: seq<Chunk>, nodes: seq<Node>, field: string, tokenize: Tokenizer, t: int)
    requires Finds(lists, chunks, nodes, field, tokenize) && DistinctIds(nodes)
    ensures FoundOnFields(ListFor(lists, t), t, chunks, nodes, field, tokenize)
  {
    TermCountOnFields(nodes, field, tokenize, t);
    SameOnFields(d => TermCount(nodes, field, tokenize, t, d), d => Count(ListFor(lists, t), d) + LostAll(chunks, t, d),
                 TimesIn(tokenize, t), nodes, field);
  }

  lemma MergeFinds(indexes: seq<InvertedIndex>, batches: seq<seq<Node>>, field: string, tokenize: Tokenizer, size: nat,
                   terms: seq<int>, merged: Lists)
    requires 1 <= size
    requires AllHold(indexes, ChunksOf(batches, field, tokenize, size), LensOfBlocks(batches, field, tokenize, size))
    requires MergeOf(terms, merged, ListsOf(indexes))
    ensures Finds(merged, ChunksOf(batches, field, tokenize, size), Flatten(batches), field, tokenize)
  {
    var chunks, lens := ChunksOf(batches, field, tokenize, size), LensOfBlocks(batches, field, tokenize, size);
    var n := |indexes|;
    assert ListsOf(indexes)[..n] == ListsOf(indexes) && chunks[..n] == chunks;
    forall t: int, d: int
      ensures Count(ListFor(merged, t), d) + LostAll(chunks, t, d) == TermCount(Flatten(batches), field, tokenize, t, d)
    {
      BlocksCount(indexes, chunks, lens, n, t, d);
      KeptOrLost(batches, field, tokenize, size, t, d);
    }
  }

  lemma ReadyWhenHeld(indexes: seq<InvertedIndex>, chunks: seq<Chunk>, lens: seq<map<int, int>>)
    requires AllHold(indexes, chunks, lens)
    ensures ReadyToMerge(indexes) && LensIn(indexes) == lens
  {
    forall i | 0 <= i < |indexes|
      ensures indexes[i].Valid() && indexes[i].currTermPosition == 0 && TermsIncrease(ListsOf(indexes)[i])
      ensures LensIn(indexes)[i] == lens[i]
    {
      assert Holds(indexes[i], chunks[i], lens[i]);
    }
  }

  // ----- field lengths -----

  lemma {:induction false} LensAreLengths(nodes: seq<Node>, field: string, tokenize: Tokenizer, d: int)
    requires DistinctIds(nodes)
    ensures LengthIn(LensOf(nodes, field, tokenize), d) == FieldLength(nodes, field, tokenize, d)
  {
    if nodes != [] {
      var n := |nodes| - 1;
      var last := nodes[n];
      LensAreLengths(nodes[..n], field, tokenize, d);
      assert nodes == nodes[..n] + [last] && [last][1..] == [];
      FieldLengthConcat(nodes[..n], [last], field, tokenize, d);
      if last.id == d { AbsentLength(nodes[..n], field, tokenize, d); }
    }
  }

  lemma {:induction false} LengthAllConcat(a: seq<map<int, int>>, b: seq<map<int, int>>, d: int)
    ensures LengthAll(a + b, d) == LengthAll(a, d) + LengthAll(b, d)
  {
    if b == [] {
      assert a + b == a;
    } else {
      assert (a + b)[..|a + b| - 1] == a + b[..|b| - 1];
      LengthAllConcat(a, b[..|b| - 1], d);
    }
  }

  lemma OneCopyMore(n: int, l: int)
    ensures n * l == (n - 1) * l + l
  {
  }

  lemma {:induction false} LengthOfCopies(lens: map<int, int>, n: nat, d: int)
    ensures LengthAll(Copies(lens, n), d) == n * LengthIn(lens, d)
  {
    if n > 0 {
      hide LengthIn;
      LengthOfCopies(lens, n - 1, d);
      assert Copies(lens, n)[..n - 1] == Copies(lens, n - 1);
      OneCopyMore(n, LengthIn(lens, d));
    }
  }

  /** A document's length, counted once for every block of its batch. */
  function RepeatedLength(batches: seq<seq<Node>>, field: string, tokenize: Tokenizer, size: nat, d: int): nat
    requires 1 <= size
  {
    if batches == [] then 0 else
    var last := batches[|batches| - 1];
    RepeatedLength(batches[..|batches| - 1], field, tokenize, size, d) +
    |Cut(Stream(last, field, tokenize), size)| * FieldLength(last, field, tokenize, d)
  }

  lemma {:induction false} LengthsOfBlocks(batches: seq<seq<Node>>, field: string, tokenize: Tokenizer, size: nat,
                                           d: int)
    requires 1 <= size && forall i :: 0 <= i < |batches| ==> DistinctIds(batches[i])
    ensures LengthAll(LensOfBlocks(batches, field, tokenize, size), d) ==
      RepeatedLength(batches, field, tokenize, size, d)
  {
    if batches != [] {
      var rest, last := batches[..|batches| - 1], batches[|batches| - 1];
      var lens, n := LensOf(last, field, tokenize), |Cut(Stream(last, field, tokenize), size)|;
      LengthsOfBlocks(rest, field, tokenize, size, d);
      LengthAllConcat(LensOfBlocks(rest, field, tokenize, size), Copies(lens, n), d);
      LengthOfCopies(lens, n, d);
      LensAreLengths(last, field, tokenize, d);
    }
  }

  lemma CutIsNotEmpty(pairs: seq<Pair>, size: nat)
    requires 1 <= size
    ensures |Cut(pairs, size)| >= 1 && (|Cut(pairs, size)| == 1 <==> |pairs| < size)
  {
  }

  lemma Product(n: nat, l: nat)
    requires 1 <= n
    ensures l <= n * l && (n * l == l <==> n == 1 || l == 0)
  {
    assert n * l == l + (n - 1) * l;
    if n > 1 && l > 0 {
      assert (n - 1) * l >= 1 * l;
    }
  }

  /** Merged lengths are right for a document if and only if no batch that was flushed has the document
      with a field that is not empty; otherwise they are too great. */
  lemma {:induction false} LengthsRightIff(batches: seq<seq<Node>>, field: string, tokenize: Tokenizer, size: nat,
                                           d: int)
    requires 1 <= size
    ensures FieldLength(Flatten(batches), field, tokenize, d) <= RepeatedLength(batches, field, tokenize, size, d)
    ensures RepeatedLength(batches, field, tokenize, size, d) == FieldLength(Flatten(batches), field, tokenize, d) <==>
      forall i :: 0 <= i < |batches| ==>
        |Stream(batches[i], field, tokenize)| < size || FieldLength(batches[i], field, tokenize, d) == 0
  {
    if batches != [] {
      var rest, last := batches[..|batches| - 1], batches[|batches| - 1];
      LengthsRightIff(rest, field, tokenize, size, d);
      FieldLengthConcat(Flatten(rest), last, field, tokenize, d);
      CutIsNotEmpty(Stream(last, field, tokenize), size);
      Product(|Cut(Stream(last, field, tokenize), size)|, FieldLength(last, field, tokenize, d));
      assert batches == rest + [last];
      assert forall i :: 0 <= i < |rest| ==> rest[i] == batches[i];
    } else {
      assert FieldLength(Flatten(batches), field, tokenize, d) == 0;
    }
  }

  /** The occurrences of a document over the lists of some terms. */
  function OccurrencesOf(terms: seq<int>, lists: Lists, d: int): nat {
    if terms == [] then 0 else Count(ListFor(lists, terms[0]), d) + OccurrencesOf(terms[1..], lists, d)
  }

  function TermCounts(terms: seq<int>, nodes: seq<Node>, field: string, tokenize: Tokenizer, d: int): nat {
    if terms == [] then 0 else
    TermCount(nodes, field, tokenize, terms[0], d) + TermCounts(terms[1..], nodes, field, tokenize, d)
  }

  function WordCounts(terms: seq<int>, words: seq<TermID>): nat {
    if terms == [] then 0 else WordCount(words, terms[0]) + WordCounts(terms[1..], words)
  }

  lemma {:induction false} OccurrencesAreCounts(terms: seq<int>, lists: Lists, nodes: seq<Node>, field: string,
                                                tokenize: Tokenizer, d: int)
    requires Answers(lists, nodes, field, tokenize)
    ensures OccurrencesOf(terms, lists, d) == TermCounts(terms, nodes, field, tokenize, d)
  {
    if terms != [] {
      var t: int := terms[0];
      assert Count(ListFor(lists, t), d) == TermCount(nodes, field, tokenize, t, d);
      OccurrencesAreCounts(terms[1..], lists, nodes, field, tokenize, d);
    }
  }

  lemma {:induction false} NodeCounts(terms: seq<int>, nodes: seq<Node>, field: string, tokenize: Tokenizer, d: int)
    requires nodes != []
    ensures TermCounts(terms, nodes, field, tokenize, d) == TermCounts(terms, nodes[1..], field, tokenize, d) +
      (if nodes[0].id == d then WordCounts(terms, Words(nodes[0], field, tokenize)) else 0)
  {
    if terms != [] { NodeCounts(terms[1..], nodes, field, tokenize, d); }
  }

  lemma {:induction false} OneWord(terms: seq<int>, words: seq<TermID>)
    requires words != [] && StrictlyUp(terms)
    ensures WordCounts(terms, words) == WordCounts(terms, words[1..]) + (if words[0] in terms then 1 else 0)
  {
    if terms != [] {
      OneWord(terms[1..], words);
      assert terms == [terms[0]] + terms[1..];
    }
  }

  lemma {:induction false} NoWords(terms: seq<int>)
    ensures WordCounts(terms, []) == 0
  {
    if terms != [] { NoWords(terms[1..]); }
  }

  lemma {:induction false} EveryWordOnce(terms: seq<int>, words: seq<TermID>)
    requires StrictlyUp(terms) && forall k :: 0 <= k < |words| ==> words[k] in terms
    ensures WordCounts(terms, words) == |words|
  {
    if words == [] {
      NoWords(terms);
    } else {
      OneWord(terms, words);
      EveryWordOnce(terms, words[1..]);
    }
  }

  ghost predicate AllWordsIn(terms: seq<int>, nodes: seq<Node>, field: string, tokenize: Tokenizer) {
    forall i, k :: 0 <= i < |nodes| && 0 <= k < |Words(nodes[i], field, tokenize)| ==>
      Words(nodes[i], field, tokenize)[k] in terms
  }

  lemma {:induction false} CountsAreLength(terms: seq<int>, nodes: seq<Node>, field: string, tokenize: Tokenizer,
                                           d: int)
    requires StrictlyUp(terms) && AllWordsIn(terms, nodes, field, tokenize)
    ensures TermCounts(terms, nodes, field, tokenize, d) == FieldLength(nodes, field, tokenize, d)
  {
    if nodes == [] {
      NoNodes(terms, field, tokenize, d);
    } else {
      NodeCounts(terms, nodes, field, tokenize, d);
      CountsAreLength(terms, nodes[1..], field, tokenize, d);
      EveryWordOnce(terms, Words(nodes[0], field, tokenize));
    }
  }

  lemma {:induction false} NoNodes(terms: seq<int>, field: string, tokenize: Tokenizer, d: int)
    ensures TermCounts(terms, [], field, tokenize, d) == 0
  {
    if terms != [] { NoNodes(terms[1..], field, tokenize, d); }
  }

  lemma {:induction false} WordIsCounted(words: seq<TermID>, k: nat)
    requires k < |words|
    ensures WordCount(words, words[k]) > 0
  {
    if k > 0 { WordIsCounted(words[1..], k - 1); }
  }

  lemma {:induction false} TermIsCounted(nodes: seq<Node>, field: string, tokenize: Tokenizer, i: nat, k: nat)
    requires i < |nodes| && k < |Words(nodes[i], field, tokenize)|
    ensures TermCount(nodes, field, tokenize, Words(nodes[i], field, tokenize)[k], nodes[i].id) > 0
  {
    if i == 0 {
      WordIsCounted(Words(nodes[0], field, tokenize), k);
    } else {
      TermIsCounted(nodes[1..], field, tokenize, i - 1, k);
    }
  }

  /** A document's field length is its number of occurrences over all posting lists. */
  lemma LengthIsOccurrences(terms: seq<int>, lists: Lists, nodes: seq<Node>, field: string, tokenize: Tokenizer, d: int)
    requires Answers(lists, nodes, field, tokenize) && StrictlyUp(terms) && forall t: int :: t in terms <==> t in lists
    ensures OccurrencesOf(terms, lists, d) == FieldLength(nodes, field, tokenize, d)
  {
    OccurrencesAreCounts(terms, lists, nodes, field, tokenize, d);
    forall i, k | 0 <= i < |nodes| && 0 <= k < |Words(nodes[i], field, tokenize)|
      ensures Words(nodes[i], field, tokenize)[k] in terms
    {
      var t: int := Words(nodes[i], field, tokenize)[k];
      TermIsCounted(nodes, field, tokenize, i, k);
      assert Count(ListFor(lists, t), nodes[i].id) > 0;
    }
    CountsAreLength(terms, nodes, field, tokenize, d);
  }

  // ----- the pipeline -----

  method InvertAll(idx: DynamicIndex, batches: seq<seq<Node>>, field: string) returns (blocks: seq<InvertedIndex>)
    modifies idx`docWordCount
    ensures var size := FlushSize(idx.maxDynamicPostingListSize);
      fresh(blocks) && AllHold(blocks, ChunksOf(batches, field, idx.tokenize, size),
                               LensOfBlocks(batches, field, idx.tokenize, size))
  {
    hide Cut, Stream, LensOf, Copies, Holds;
    ghost var size := FlushSize(idx.maxDynamicPostingListSize);
    blocks := [];
    assert batches[..0] == [];
    for i := 0 to |batches|
      invariant fresh(blocks)
      invariant AllHold(blocks, ChunksOf(batches[..i], field, idx.tokenize, size),
                        LensOfBlocks(batches[..i], field, idx.tokenize, size))
    {
      var more := InvertOne(idx, batches[i], field, blocks);
      assert batches[..i + 1][..i] == batches[..i] && batches[..i + 1][i] == batches[i];
      MoreHold(blocks, more, ChunksOf(batches[..i], field, idx.tokenize, size),
               Cut(Stream(batches[i], field, idx.tokenize), size),
               LensOfBlocks(batches[..i], field, idx.tokenize, size),
               Copies(LensOf(batches[i], field, idx.tokenize), |Cut(Stream(batches[i], field, idx.tokenize), size)|));
      blocks := blocks + more;
    }
    assert batches[..|batches|] == batches;
  }

  method InvertOne(idx: DynamicIndex, nodes: seq<Node>, field: string, ghost before: seq<InvertedIndex>)
    returns (blocks: seq<InvertedIndex>)
    modifies idx`docWordCount
    ensures var chunks := Cut(Stream(nodes, field, idx.tokenize), FlushSize(idx.maxDynamicPostingListSize));
      fresh(blocks) && AllHold(blocks, chunks, Copies(LensOf(nodes, field, idx.tokenize), |chunks|))
    ensures forall chunks, lens :: old(AllHold(before, chunks, lens)) ==> AllHold(before, chunks, lens)
  {
    blocks := idx.SpimiInvert(nodes, field);
    CopiesAre(LensOf(nodes, field, idx.tokenize), |blocks|);
  }

  lemma {:induction false} CopiesAre<X>(x: X, n: nat)
    ensures forall k :: 0 <= k < n ==> Copies(x, n)[k] == x
  {
    if n > 0 { CopiesAre(x, n - 1); }
  }

  lemma MoreHold(a: seq<InvertedIndex>, b: seq<InvertedIndex>, c: seq<Chunk>, d: seq<Chunk>, l: seq<map<int, int>>,
                 m: seq<map<int, int>>)
    requires AllHold(a, c, l) && AllHold(b, d, m) && forall x :: x in b ==> x !in a
    ensures AllHold(a + b, c + d, l + m)
  {
    forall k {:trigger (a + b)[k]} | 0 <= k < |a + b|
      ensures Holds((a + b)[k], (c + d)[k], (l + m)[k])
    {
      if k < |a| {
        assert Holds(a[k], c[k], l[k]);
      } else {
        assert Holds(b[k - |a|], d[k - |a|], m[k - |a|]);
      }
    }
    assert forall k :: |a| <= k < |a + b| ==> (a + b)[k] in b;
  }

  /** What an index built from batches gives: lookups but for what was lost, and the merged lengths. */
  ghost predicate Built(merged: InvertedIndex, batches: seq<seq<Node>>, field: string, tokenize: Tokenizer, size: nat)
    requires 1 <= size
    reads merged
  {
    merged.Valid() && StrictlyUp(merged.terms) &&
    Finds(merged.lists, ChunksOf(batches, field, tokenize, size), Flatten(batches), field, tokenize) &&
    ((forall i :: 0 <= i < |batches| ==> DistinctIds(batches[i])) ==>
      forall d: int :: LengthIn(merged.lenFieldInDoc, d) == RepeatedLength(batches, field, tokenize, size, d))
  }

  /** Any batches, in whatever cut: inverted one by one, then merged. */
  method IndexBatches(idx: DynamicIndex, batches: seq<seq<Node>>, field: string) returns (merged: InvertedIndex)
    modifies idx`docWordCount
    ensures fresh(merged) && Built(merged, batches, field, idx.tokenize, FlushSize(idx.maxDynamicPostingListSize))
    ensures var chunks := ChunksOf(batches, field, idx.tokenize, FlushSize(idx.maxDynamicPostingListSize));
      DistinctIds(Flatten(batches)) ==> forall t: int ::
        FoundOnFields(ListFor(merged.lists, t), t, chunks, Flatten(batches), field, idx.tokenize)
  {
    hide Finds, FoundOnFields, ChunksOf;
    var blocks := InvertAll(idx, batches, field);
    ghost var size := FlushSize(idx.maxDynamicPostingListSize);
    merged := MergeBlocks(blocks, batches, field, idx.tokenize, size);
    if DistinctIds(Flatten(batches)) {
      forall t: int
        ensures FoundOnFields(ListFor(merged.lists, t), t, ChunksOf(batches, field, idx.tokenize, size),
                              Flatten(batches), field, idx.tokenize)
      {
        FindsOnFields(merged.lists, ChunksOf(batches, field, idx.tokenize, size), Flatten(batches), field,
                      idx.tokenize, t);
      }
    }
  }

  method MergeBlocks(blocks: seq<InvertedIndex>, ghost batches: seq<seq<Node>>, ghost field: string,
                     ghost tokenize: Tokenizer, ghost size: nat)
    returns (merged: InvertedIndex)
    requires 1 <= size
    requires AllHold(blocks, ChunksOf(batches, field, tokenize, size), LensOfBlocks(batches, field, tokenize, size))
    modifies blocks`currTermPosition
    ensures fresh(merged) && Built(merged, batches, field, tokenize, size)
  {
    hide ChunksOf, LensOfBlocks, Finds, RepeatedLength, FieldLength;
    ReadyWhenHeld(blocks, ChunksOf(batches, field, tokenize, size), LensOfBlocks(batches, field, tokenize, size));
    merged := new InvertedIndex(map[]);
    var lenDF := MergeFieldLengths(blocks);
    if forall i :: 0 <= i < |batches| ==> DistinctIds(batches[i]) {
      forall d: int
        ensures LengthIn(lenDF, d) == RepeatedLength(batches, field, tokenize, size, d)
      {
        LengthsOfBlocks(batches, field, tokenize, size, d);
      }
    }
    MergeHeld(blocks, batches, field, tokenize, size, merged);
    merged.SetLenFieldInDoc(lenDF);
  }

  method MergeHeld(blocks: seq<InvertedIndex>, ghost batches: seq<seq<Node>>, ghost field: string,
                   ghost tokenize: Tokenizer, ghost size: nat, merged: InvertedIndex)
    requires 1 <= size && ReadyToMerge(blocks) && merged !in blocks
    requires AllHold(blocks, ChunksOf(batches, field, tokenize, size), LensOfBlocks(batches, field, tokenize, size))
    requires merged.Valid() && merged.terms == [] && merged.lists == map[]
    modifies blocks`currTermPosition, merged`terms, merged`postingMetadata, merged`file, merged`lists
    ensures merged.Valid() && StrictlyUp(merged.terms)
    ensures Finds(merged.lists, ChunksOf(batches, field, tokenize, size), Flatten(batches), field, tokenize)
  {
    hide ChunksOf, LensOfBlocks, Finds, AllHold;
    forall terms, lists | MergeOf(terms, lists, ListsOf(blocks))
      ensures Finds(lists, ChunksOf(batches, field, tokenize, size), Flatten(batches), field, tokenize)
    {
      MergeFinds(blocks, batches, field, tokenize, size, terms, lists);
    }
    Merge(blocks, merged);
  }

  /** What that means: lookups agree with the naive count if and only if no flush lost a list, and without
      any flush a document's merged length is its number of occurrences over all lists. */
  lemma BuiltMeans(merged: InvertedIndex, batches: seq<seq<Node>>, field: string, tokenize: Tokenizer, size: nat)
    requires 1 <= size && Built(merged, batches, field, tokenize, size)
    ensures Answers(merged.lists, Flatten(batches), field, tokenize) <==>
      NothingLost(ChunksOf(batches, field, tokenize, size))
    ensures (forall i :: 0 <= i < |batches| ==>
              DistinctIds(batches[i]) && |Stream(batches[i], field, tokenize)| < size) ==>
      Answers(merged.lists, Flatten(batches), field, tokenize) &&
      forall d: int :: LengthIn(merged.lenFieldInDoc, d) == OccurrencesOf(merged.terms, merged.lists, d)
    ensures (forall i :: 0 <= i < |batches| ==>
              DistinctIds(batches[i]) && |Stream(batches[i], field, tokenize)| < size) ==>
      DistinctIds(Flatten(batches)) ==>
      OnFields(LengthsOf(merged.lenFieldInDoc), WordsIn(tokenize), Flatten(batches), field)
  {
    AnswersIff(merged.lists, ChunksOf(batches, field, tokenize, size), Flatten(batches), field, tokenize);
    if forall i :: 0 <= i < |batches| ==> DistinctIds(batches[i]) && |Stream(batches[i], field, tokenize)| < size {
      NoFlush(batches, field, tokenize, size);
      forall d: int
        ensures LengthIn(merged.lenFieldInDoc, d) == OccurrencesOf(merged.terms, merged.lists, d)
      {
        LengthsRightIff(batches, field, tokenize, size, d);
        LengthIsOccurrences(merged.terms, merged.lists, Flatten(batches), field, tokenize, d);
      }
      if DistinctIds(Flatten(batches)) {
        LengthsOnFields(merged, batches, field, tokenize, size);
      }
    }
  }

  function LengthsOf(lens: map<int, int>): int -> int {
    d => LengthIn(lens, d)
  }

  lemma LengthsOnFields(merged: InvertedIndex, batches: seq<seq<Node>>, field: string, tokenize: Tokenizer, size: nat)
    requires 1 <= size && DistinctIds(Flatten(batches))
    requires forall i :: 0 <= i < |batches| ==> |Stream(batches[i], field, tokenize)| < size
    requires forall d: int :: LengthIn(merged.lenFieldInDoc, d) == RepeatedLength(batches, field, tokenize, size, d)
    ensures OnFields(LengthsOf(merged.lenFieldInDoc), WordsIn(tokenize), Flatten(batches), field)
  {
    hide RepeatedLength, FieldLength;
    FieldLengthOnFields(Flatten(batches), field, tokenize);
    forall d: int
      ensures LengthsOf(merged.lenFieldInDoc)(d) == FieldLength(Flatten(batches), field, tokenize, d)
    {
      LengthsRightIff(batches, field, tokenize, size, d);
    }
    SameOnFields(d => FieldLength(Flatten(batches), field, tokenize, d), LengthsOf(merged.lenFieldInDoc),
                 WordsIn(tokenize), Flatten(batches), field);
  }

  lemma {:induction false} NoFlush(batches: seq<seq<Node>>, field: string, tokenize: Tokenizer, size: nat)
    requires 1 <= size && forall i :: 0 <= i < |batches| ==> |Stream(batches[i], field, tokenize)| < size
    ensures NothingLost(ChunksOf(batches, field, tokenize, size))
  {
    if batches != [] {
      var rest, last := batches[..|batches| - 1], batches[|batches| - 1];
      assert forall i :: 0 <= i < |rest| ==> rest[i] == batches[i];
      NoFlush(rest, field, tokenize, size);
      var chunks := ChunksOf(rest, field, tokenize, size);
      assert ChunksOf(batches, field, tokenize, size) == chunks + [Chunk(Stream(last, field, tokenize), false)];
    }
  }

  // ----- the blocks come back from their files -----

  /** The keys of a map, in the order of some iteration. */
  method Order(keys: set<int>) returns (order: seq<int>)
    ensures Enumerates(order, keys)
  {
    order := [];
    var rest := keys;
    while rest != {}
      invariant rest <= keys && |order| + |rest| == |keys|
      invariant forall k: int :: k in order <==> k in keys && k !in rest
    {
      ghost var some: int := Member(rest);
      var k: int :| k in rest;
      order := order + [k];
      rest := rest - {k};
    }
  }

  method ReopenBlock(block: InvertedIndex, format: FloatFormat, ghost chunk: Chunk, ghost lens: map<int, int>)
    returns (reader: InvertedIndex)
    requires Holds(block, chunk, lens) && Fits32(block.Meta())
    modifies block`average
    ensures fresh(reader) && Holds(reader, chunk, lens) && Holds(block, chunk, lens) && Fits32(block.Meta())
  {
    var termOrder := Order(block.postingMetadata.Keys);
    var docOrder := Order(block.lenFieldInDoc.Keys);
    reader := block.Reopen(termOrder, docOrder, format);
  }

  /** Every block is closed and opened again. */
  method ReopenAll(blocks: seq<InvertedIndex>, format: FloatFormat, ghost chunks: seq<Chunk>,
                   ghost lens: seq<map<int, int>>)
    returns (readers: seq<InvertedIndex>)
    requires AllHold(blocks, chunks, lens)
    requires forall i :: 0 <= i < |blocks| ==> Fits32(blocks[i].Meta())
    modifies blocks`average
    ensures fresh(readers) && AllHold(readers, chunks, lens)
    ensures forall i :: 0 <= i < |blocks| ==> Fits32(blocks[i].Meta())
  {
    hide Fits32, Block;
    readers := [];
    for i := 0 to |blocks|
      invariant fresh(readers) && AllHold(readers, chunks[..i], lens[..i])
      invariant AllHold(blocks, chunks, lens) && forall k :: 0 <= k < |blocks| ==> Fits32(blocks[k].Meta())
    {
      assert Holds(blocks[i], chunks[i], lens[i]);
      var reader := ReopenBlock(blocks[i], format, chunks[i], lens[i]);
      assert chunks[..i + 1] == chunks[..i] + [chunks[i]] && lens[..i + 1] == lens[..i] + [lens[i]];
      MoreHold(readers, [reader], chunks[..i], [chunks[i]], lens[..i], [lens[i]]);
      readers := readers + [reader];
    }
    assert chunks[..|blocks|] == chunks && lens[..|blocks|] == lens;
  }

  /** The same index is built from the blocks' files, if all numbers in the blocks' metadata fit 32 bits;
      otherwise metadata do not come back, and the model stops. */
  method IndexFromFiles(idx: DynamicIndex, batches: seq<seq<Node>>, field: string, format: FloatFormat)
    returns (merged: Option<InvertedIndex>, ghost blocks: seq<InvertedIndex>)
    modifies idx`docWordCount
    ensures fresh(blocks) && (merged.Some? <==> forall i :: 0 <= i < |blocks| ==> Fits32(blocks[i].Meta()))
    ensures merged.Some? ==> fresh(merged.value)
    ensures merged.Some? ==>
      Built(merged.value, batches, field, idx.tokenize, FlushSize(idx.maxDynamicPostingListSize))
  {
    hide Built, AllHold, Fits32;
    ghost var size := FlushSize(idx.maxDynamicPostingListSize);
    ghost var chunks := ChunksOf(batches, field, idx.tokenize, size);
    ghost var lens := LensOfBlocks(batches, field, idx.tokenize, size);
    var written := InvertAll(idx, batches, field);
    blocks := written;
    for i := 0 to |written|
      invariant forall k :: 0 <= k < i ==> Fits32(written[k].Meta())
    {
      if !Fits32(written[i].Meta()) {
        return None, blocks;
      }
    }
    var readers := ReopenAll(written, format, chunks, lens);
    var index := MergeBlocks(readers, batches, field, idx.tokenize, size);
    merged := Some(index);
  }

  /** `GetPostingList` on the merged index. */
  method Lookup(merged: InvertedIndex, termID: int, ghost nodes: seq<Node>, ghost field: string,
                ghost tokenize: Tokenizer)
    returns (list: Result<seq<Int64>, string>)
    requires merged.Valid() && Answers(merged.lists, nodes, field, tokenize)
    ensures list.Success? && Ascending(list.value)
    ensures forall d: int :: Count(list.value, d) == TermCount(nodes, field, tokenize, termID, d)
    ensures DistinctIds(nodes) ==> FoundOnFields(list.value, termID, [], nodes, field, tokenize)
  {
    if DistinctIds(nodes) {
      FindsOnFields(merged.lists, [], nodes, field, tokenize, termID);
    }
    list := merged.GetPostingList(termID);
    assert list.value == ListFor(merged.lists, termID);
  }
}
