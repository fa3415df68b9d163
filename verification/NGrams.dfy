/** N-gram counts and stupid backoff (`ngram_lm.go`). */
module NGrams {

  // ----- windows -----

  /** How often `g` occurs in `p`, counting overlapping windows. */
  function Windows(p: seq<int>, g: seq<int>): nat
    decreases |p|
  {
    if |p| < |g| || p == [] then 0 else (if p[..|g|] == g then 1 else 0) + Windows(p[1..], g)
  }

  /** A window contains the window without its first token. */
  lemma {:induction false} WithoutFirst(p: seq<int>, g: seq<int>)
    requires g != [] && p != []
    ensures |g| > 1 ==> Windows(p, g) <= Windows(p[1..], g[1..])
    decreases |p|
  {
    if |g| > 1 && |p| >= |g| {
      WithoutFirst(p[1..], g);
      assert p[..|g|] == g ==> p[1..][..|g| - 1] == g[1..];
    }
  }

  /** A window contains the window without its last token. */
  lemma {:induction false} WithoutLast(p: seq<int>, g: seq<int>)
    requires g != []
    ensures Windows(p, g) <= Windows(p, g[..|g| - 1]) || |g| == 1
    decreases |p|
  {
    if |p| >= |g| && |g| > 1 {
      WithoutLast(p[1..], g);
      assert p[..|g|] == g ==> p[..|g| - 1] == g[..|g| - 1];
    }
  }

  // ----- padded documents -----

  function Repeat(token: int, n: nat): (s: seq<int>)
    ensures |s| == n
  {
    if n == 0 then [] else [token] + Repeat(token, n - 1)
  }

  /** `n` start tokens, the document, one end token. */
  function Padded(doc: seq<int>, n: nat, start: int, end: int): (p: seq<int>)
    ensures |p| == n + |doc| + 1
  {
    Repeat(start, n) + doc + [end]
  }

  lemma {:induction false} RepeatIsSame(token: int, n: nat)
    ensures forall x :: x in Repeat(token, n) ==> x == token
  {
    if n > 0 { RepeatIsSame(token, n - 1); }
  }

  lemma PaddedParts(doc: seq<int>, n: nat, start: int, end: int)
    ensures var p := Padded(doc, n, start, end);
      (forall i :: 0 <= i < n ==> p[i] == start) && p[n..n + |doc|] == doc && p[n + |doc|..] == [end]
  {
    RepeatIsSame(start, n);
    assert forall i :: 0 <= i < n ==> Repeat(start, n)[i] in Repeat(start, n);
  }

  lemma {:induction false} RepeatMore(token: int, n: nat)
    ensures Repeat(token, n) + [token] == Repeat(token, n + 1)
  {
    if n > 0 { RepeatMore(token, n - 1); }
  }

  lemma PaddedMore(doc: seq<int>, n: nat, start: int, end: int)
    requires n > 0
    ensures Padded(doc, n, start, end)[1..] == Padded(doc, n - 1, start, end)
    ensures Padded(doc, n, start, end)[..n] == Repeat(start, n)
  {
    assert Repeat(start, n)[1..] == Repeat(start, n - 1);
  }

  /** In one document, although the two paddings differ, an n-gram does not occur more often than
      its prefix. */
  lemma PrefixInDocument(doc: seq<int>, g: seq<int>, start: int, end: int)
    requires |g| >= 2
    ensures Windows(Padded(doc, |g|, start, end), g) <= Windows(Padded(doc, |g| - 1, start, end), g[..|g| - 1])
  {
    var n := |g|;
    var p, q := Padded(doc, n, start, end), Padded(doc, n - 1, start, end);
    PaddedMore(doc, n, start, end);
    if g == Repeat(start, n) {
      WithoutFirst(p, g);
      RepeatMore(start, n - 1);
      assert g[1..] == g[..n - 1];
    } else {
      WithoutLast(q, g);
    }
  }

  // ----- the corpus -----

  function Total(data: seq<seq<int>>, g: seq<int>, start: int, end: int): nat {
    if data == [] then 0 else
    Total(data[..|data| - 1], g, start, end) + Windows(Padded(data[|data| - 1], |g|, start, end), g)
  }

  function AllTokens(data: seq<seq<int>>): nat {
    if data == [] then 0 else AllTokens(data[..|data| - 1]) + |data[|data| - 1]| + 2
  }

  /** For every corpus, an n-gram is not counted more often than its prefix. */
  lemma {:induction false} CountAtMostPrefix(data: seq<seq<int>>, g: seq<int>, start: int, end: int)
    requires |g| >= 2
    ensures Total(data, g, start, end) <= Total(data, g[..|g| - 1], start, end)
  {
    if data != [] {
      CountAtMostPrefix(data[..|data| - 1], g, start, end);
      PrefixInDocument(data[|data| - 1], g, start, end);
    }
  }

  lemma {:induction false} WindowsOfOne(p: seq<int>, w: int)
    ensures Windows(p, [w]) <= |p|
    ensures Windows(p, [w]) > 0 <==> w in p
  {
    if p != [] {
      WindowsOfOne(p[1..], w);
      assert p == [p[0]] + p[1..] && p[..1] == [p[0]];
    }
  }

  lemma {:induction false} UnigramAtMostAll(data: seq<seq<int>>, w: int, start: int, end: int)
    ensures Total(data, [w], start, end) <= AllTokens(data)
  {
    if data != [] {
      UnigramAtMostAll(data[..|data| - 1], w, start, end);
      WindowsOfOne(Padded(data[|data| - 1], 1, start, end), w);
    }
  }

  lemma {:induction false} WindowHasLast(p: seq<int>, g: seq<int>)
    requires g != []
    ensures Windows(p, g) > 0 ==> g[|g| - 1] in p
  {
    if |p| >= |g| {
      WindowHasLast(p[1..], g);
      assert p[..|g|] == g ==> p[|g| - 1] == g[|g| - 1];
    }
  }

  /** A counted n-gram ends in a word with a positive unigram count. */
  lemma {:induction false} LastWordIsCounted(data: seq<seq<int>>, g: seq<int>, start: int, end: int)
    requires g != []
    ensures Total(data, g, start, end) > 0 ==> Total(data, [g[|g| - 1]], start, end) > 0
  {
    if data != [] {
      var doc, w := data[|data| - 1], g[|g| - 1];
      LastWordIsCounted(data[..|data| - 1], g, start, end);
      WindowHasLast(Padded(doc, |g|, start, end), g);
      WindowsOfOne(Padded(doc, 1, start, end), w);
      RepeatIsSame(start, |g|);
      assert Repeat(start, 1)[0] == start;
      assert w in Padded(doc, |g|, start, end) ==> w in Padded(doc, 1, start, end);
    }
  }

  // ----- tables -----

  type Table = map<seq<int>, nat>

  function CountIn(m: Table, g: seq<int>): nat {
    if g in m then m[g] else 0
  }

  /** `m` counts the n-grams of the corpus, and has no zero entries. */
  ghost predicate Counts(m: Table, data: seq<seq<int>>, n: nat, start: int, end: int) {
    (forall g :: g in m ==> |g| == n && m[g] > 0) &&
    forall g :: |g| == n ==> CountIn(m, g) == Total(data, g, start, end)
  }

  /** The windows at the first `k` positions. */
  function WindowsBefore(p: seq<int>, g: seq<int>, k: nat): nat
    requires k + |g| <= |p| + 1
  {
    if k == 0 then 0 else WindowsBefore(p, g, k - 1) + (if p[k - 1..k - 1 + |g|] == g then 1 else 0)
  }

  lemma {:induction false} WindowsFromFront(p: seq<int>, g: seq<int>, k: nat)
    requires 0 < |g| && k + |g| <= |p| + 1
    ensures Windows(p, g) == WindowsBefore(p, g, k) + Windows(p[k..], g)
  {
    if k > 0 {
      WindowsFromFront(p, g, k - 1);
      assert p[k - 1..][1..] == p[k..] && p[k - 1..][..|g|] == p[k - 1..k - 1 + |g|];
    } else {
      assert p[0..] == p;
    }
  }

  lemma AllWindows(p: seq<int>, g: seq<int>)
    requires 0 < |g| <= |p|
    ensures WindowsBefore(p, g, |p| - |g| + 1) == Windows(p, g)
  {
    WindowsFromFront(p, g, |p| - |g| + 1);
  }

  /** A probability as the quotient of two counts. */
  datatype Probability = Quotient(num: nat, den: nat)

  const ZERO := Quotient(0, 1)

  /** The quotient that the program computes; 0/0 is not a number. */
  function Quot(p: Probability): real
    requires p.den > 0
  {
    p.num as real / p.den as real
  }

  /** The tables and the number of tokens. */
  datatype NGramData = NGramData(uniGramCount: Table, biGramCount: Table, triGramCount: Table, quadGramCount: Table,
                                 totalWordFreq: nat)

  ghost predicate Counted(d: NGramData, data: seq<seq<int>>, start: int, end: int) {
    Counts(d.uniGramCount, data, 1, start, end) && Counts(d.biGramCount, data, 2, start, end) &&
    Counts(d.triGramCount, data, 3, start, end) && Counts(d.quadGramCount, data, 4, start, end) &&
    d.totalWordFreq == AllTokens(data)
  }

  class NGramLanguageModel {
    const startToken: int
    const endToken: int
    var data: NGramData

    constructor (startToken: int, endToken: int)
      ensures this.startToken == startToken && this.endToken == endToken && data.totalWordFreq == 0
    {
      this.startToken, this.endToken, data := startToken, endToken, NGramData(map[], map[], map[], map[], 0);
    }

    method AddStartEndToken(doc: seq<int>, n: nat) returns (padded: seq<int>)
      ensures padded == Padded(doc, n, startToken, endToken)
    {
      var start: seq<int> := [];
      for i := 0 to n
        invariant start == Repeat(startToken, i)
      {
        RepeatMore(startToken, i);
        start := start + [startToken];
      }
      padded := start + doc;
      padded := padded + [endToken];
    }

    lemma NoWindows(doc: seq<int>, n: nat)
      requires 0 < n <= |doc|
      ensures forall g :: |g| == n ==> WindowsBefore(doc, g, 0) == 0
    {
    }

    lemma OneMoreWindow(doc: seq<int>, n: nat, i: nat)
      requires 0 < n && i + n <= |doc|
      ensures forall g :: |g| == n ==>
        WindowsBefore(doc, g, i + 1) == WindowsBefore(doc, g, i) + (if doc[i..i + n] == g then 1 else 0)
    {
    }

    /** Counts the windows of one document. */
    method CountDocument(doc: seq<int>, n: nat, before: Table) returns (nGrams: Table)
      requires 0 < n <= |doc| && forall g :: g in before ==> |g| == n && before[g] > 0
      ensures forall g :: g in nGrams ==> |g| == n && nGrams[g] > 0
      ensures forall g :: |g| == n ==> CountIn(nGrams, g) == CountIn(before, g) + Windows(doc, g)
    {
      hide WindowsBefore, Windows;
      nGrams := before;
      var m := |doc| - n + 1;
      NoWindows(doc, n);
      for i := 0 to m
        invariant forall g :: g in nGrams ==> |g| == n && nGrams[g] > 0
        invariant forall g :: |g| == n ==> CountIn(nGrams, g) == CountIn(before, g) + WindowsBefore(doc, g, i)
      {
        var nGram := doc[i..i + n];
        OneMoreWindow(doc, n, i);
        nGrams := if nGram !in nGrams then nGrams[nGram := 1] else nGrams[nGram := nGrams[nGram] + 1];
      }
      forall g: seq<int> | |g| == n
        ensures CountIn(nGrams, g) == CountIn(before, g) + Windows(doc, g)
      {
        AllWindows(doc, g);
      }
    }

    lemma NothingCounted()
      ensures forall n: nat :: Counts(map[], [], n, startToken, endToken)
    {
    }

    lemma OneMoreDocument(m: Table, m': Table, data: seq<seq<int>>, k: nat, n: nat)
      requires k < |data| && 0 < n && Counts(m, data[..k], n, startToken, endToken)
      requires forall g :: g in m' ==> |g| == n && m'[g] > 0
      requires forall g :: |g| == n ==>
        CountIn(m', g) == CountIn(m, g) + Windows(Padded(data[k], n, startToken, endToken), g)
      ensures Counts(m', data[..k + 1], n, startToken, endToken)
    {
      assert data[..k + 1][..k] == data[..k];
    }

    /** The loop that the tables for bigrams, trigrams and quadgrams share. */
    method CountNGrams(data: seq<seq<int>>, n: nat) returns (nGrams: Table)
      requires n > 0
      ensures Counts(nGrams, data, n, startToken, endToken)
    {
      nGrams := map[];
      for k := 0 to |data|
        invariant Counts(nGrams, data[..k], n, startToken, endToken)
      {
        var doc := AddStartEndToken(data[k], n);
        ghost var before := nGrams;
        nGrams := CountDocument(doc, n, nGrams);
        OneMoreDocument(before, nGrams, data, k, n);
      }
      assert data[..|data|] == data;
    }

    /** The unigram table also counts all tokens. */
    method CountUnigram(docs: seq<seq<int>>)
      modifies this
      ensures Counts(data.uniGramCount, docs, 1, startToken, endToken)
      ensures data ==
        old(data).(uniGramCount := data.uniGramCount, totalWordFreq := old(data).totalWordFreq + AllTokens(docs))
    {
      hide Total, Padded, Windows;
      var nGrams: Table, total := map[], data.totalWordFreq;
      NothingCounted();
      assert docs[..0] == [];
      for k := 0 to |docs|
        invariant Counts(nGrams, docs[..k], 1, startToken, endToken) &&
          total == old(data).totalWordFreq + AllTokens(docs[..k])
        invariant data == old(data)
      {
        var doc := AddStartEndToken(docs[k], 1);
        ghost var before := nGrams;
        nGrams := CountDocument(doc, 1, nGrams);
        OneMoreDocument(before, nGrams, docs, k, 1);
        assert docs[..k + 1][..k] == docs[..k];
        total := total + |doc|;
      }
      assert docs[..|docs|] == docs;
      data := data.(uniGramCount := nGrams, totalWordFreq := total);
    }

    /** The tables become those of the corpus, but tokens are added to the tokens counted before: only the
        first call leaves the model of one corpus. */
    method MakeCountMatrix(docs: seq<seq<int>>)
      modifies this
      ensures Counted(data.(totalWordFreq := AllTokens(docs)), docs, startToken, endToken)
      ensures data.totalWordFreq == old(data.totalWordFreq) + AllTokens(docs)
      ensures Counted(data, docs, startToken, endToken) <==> old(data.totalWordFreq) == 0
    {
      CountUnigram(docs);
      var bigrams := CountNGrams(docs, 2);
      var trigrams := CountNGrams(docs, 3);
      var quadgrams := CountNGrams(docs, 4);
      data := data.(biGramCount := bigrams, triGramCount := trigrams, quadGramCount := quadgrams);
    }

    /** `n` - 1 previous words are looked up; a context that was never seen gives probability 0. */
    method EstimateProbability(nextWord: int, previousNGram: seq<int>, n: int) returns (p: Probability)
      requires n <= 4 ==> n - 1 <= |previousNGram|
      ensures p == Estimate(data, nextWord, previousNGram, n)
      ensures forall docs :: Counted(data, docs, startToken, endToken) && docs != [] && 1 <= n <= 4 ==>
        IsFrequency(p, docs, previousNGram[..n - 1], nextWord, startToken, endToken)
    {
      forall docs | Counted(data, docs, startToken, endToken) && docs != [] && 1 <= n <= 4
        ensures IsFrequency(Estimate(data, nextWord, previousNGram, n), docs, previousNGram[..n - 1], nextWord,
                            startToken, endToken)
      {
        EstimateIsFrequency(data, docs, nextWord, previousNGram, n, startToken, endToken);
      }
      hide IsFrequency, Counted;
      assert 2 <= n <= 4 ==> previousNGram[..1] == [previousNGram[0]];
      if n == 1 {
        return Quotient(CountIn(data.uniGramCount, [nextWord]), data.totalWordFreq);
      } else if n == 2 {
        var previous := [previousNGram[0]];
        if previous !in data.uniGramCount {
          return ZERO;
        }
        assert previous + [nextWord] == [previousNGram[0], nextWord];
        return Quotient(CountIn(data.biGramCount, [previousNGram[0], nextWord]), data.uniGramCount[previous]);
      } else if n == 3 {
        var previous := [previousNGram[0], previousNGram[1]];
        assert previousNGram[..2] == previous && previous + [nextWord] == [previous[0], previous[1], nextWord];
        if previous !in data.biGramCount {
          return ZERO;
        }
        return Quotient(CountIn(data.triGramCount, [previous[0], previous[1], nextWord]), data.biGramCount[previous]);
      } else if n == 4 {
        var previous := [previousNGram[0], previousNGram[1], previousNGram[2]];
        assert previousNGram[..3] == previous &&
          previous + [nextWord] == [previous[0], previous[1], previous[2], nextWord];
        if previous !in data.triGramCount {
          return ZERO;
        }
        return Quotient(CountIn(data.quadGramCount, [previous[0], previous[1], previous[2], nextWord]),
                        data.triGramCount[previous]);
      }
      return ZERO;
    }

    /** From the highest order down, until an estimate is not zero; one word is dropped with every order. */
    method StupidBackoff(nextWord: int, previous: seq<int>, order: int) returns (score: Score)
      ensures score == BackoffLoop(data, nextWord, previous, order, 1.0)
      ensures forall docs :: Counted(data, docs, startToken, endToken) && docs != [] && 1 <= order <= 4 ==>
        BackedOff(score, docs, nextWord, previous, order, startToken, endToken)
    {
      forall docs | Counted(data, docs, startToken, endToken) && docs != [] && 1 <= order <= 4
        ensures BackedOff(BackoffLoop(data, nextWord, previous, order, 1.0), docs, nextWord, previous, order,
                          startToken, endToken)
      {
        BackoffScore(data, docs, nextWord, previous, order, startToken, endToken);
      }
      hide BackedOff, Counted, IsFrequency, Estimate;
      var newProb, discount := 0.0, 1.0;
      var n, prevNgrams := order, previous;
      while n > 0
        invariant newProb == 0.0
        invariant BackoffLoop(data, nextWord, previous, order, 1.0) ==
          BackoffLoop(data, nextWord, prevNgrams, n, discount)
      {
        if n <= 4 && |prevNgrams| < n - 1 {
          return Panic;
        }
        var estimate := EstimateProbability(nextWord, prevNgrams, n);
        if estimate.den == 0 {
          return if estimate.num == 0 then NaN else Infinite;
        }
        newProb := Discounted(discount, Quot(estimate));
        if newProb != 0.0 {
          break;
        }
        if prevNgrams == [] {
          return Panic;
        }
        prevNgrams := prevNgrams[1..];
        discount := discount * 0.4;
        n := n - 1;
      }
      return Value(newProb);
    }
  }

  /** `Panic` is an index or a slice out of bounds; a quotient by 0 is not a number or infinite. */
  datatype Score = Panic | NaN | Infinite | Value(p: real)

  function Discounted(discount: real, p: real): real {
    discount * p
  }

  /** The score of one estimate, or what follows when it is zero. */
  function ScoreOr(p: Probability, discount: real, otherwise: Score): Score {
    if p.den == 0 then (if p.num == 0 then NaN else Infinite)
    else if Discounted(discount, Quot(p)) != 0.0 then Value(Discounted(discount, Quot(p)))
    else otherwise
  }

  function BackoffLoop(d: NGramData, nextWord: int, previous: seq<int>, n: int, discount: real): Score
    decreases n
  {
    if n <= 0 then Value(0.0)
    else if n <= 4 && |previous| < n - 1 then Panic
    else ScoreOr(Estimate(d, nextWord, previous, n), discount,
                 if previous == [] then Panic else BackoffLoop(d, nextWord, previous[1..], n - 1, discount * 0.4))
  }

  /** The estimates of the orders from `n` down to 1, one word less each time. */
  function Estimates(d: NGramData, nextWord: int, previous: seq<int>, n: nat): (ps: seq<Probability>)
    requires 1 <= n <= 4 && n - 1 <= |previous|
    ensures |ps| == n
  {
    [Estimate(d, nextWord, previous, n)] + (if n == 1 then [] else Estimates(d, nextWord, previous[1..], n - 1))
  }

  lemma {:induction false} EstimateAt(d: NGramData, nextWord: int, previous: seq<int>, n: nat, i: nat)
    requires 1 <= n <= 4 && n - 1 <= |previous| && i < n
    ensures Estimates(d, nextWord, previous, n)[i] == Estimate(d, nextWord, previous[i..], n - i)
    decreases i
  {
    hide Estimate;
    if i == 0 {
      assert previous[0..] == previous;
    } else {
      EstimateAt(d, nextWord, previous[1..], n - 1, i - 1);
      assert previous[1..][i - 1..] == previous[i..];
    }
  }

  /** The first estimate that is not zero, discounted, or `otherwise` when all are. */
  function Backoff(ps: seq<Probability>, discount: real, otherwise: Score): Score {
    if ps == [] then otherwise else ScoreOr(ps[0], discount, Backoff(ps[1..], discount * 0.4, otherwise))
  }

  /** The loop backs off over the estimates; when all are zero it panics if no word is left to drop. */
  lemma {:induction false} LoopBacksOff(d: NGramData, nextWord: int, previous: seq<int>, n: nat, discount: real)
    requires 1 <= n <= 4 && n - 1 <= |previous|
    ensures BackoffLoop(d, nextWord, previous, n, discount) ==
      Backoff(Estimates(d, nextWord, previous, n), discount, if |previous| >= n then Value(0.0) else Panic)
    decreases n
  {
    var ps := Estimates(d, nextWord, previous, n);
    if n == 1 {
      assert ps[1..] == [];
    } else {
      assert ps[1..] == Estimates(d, nextWord, previous[1..], n - 1);
      LoopBacksOff(d, nextWord, previous[1..], n - 1, discount * 0.4);
    }
  }

  /** Orders above 4 have no table: each drops a word and discounts once more. */
  lemma HighOrderDropsAWord(d: NGramData, nextWord: int, previous: seq<int>, n: nat, discount: real)
    requires n > 4
    ensures BackoffLoop(d, nextWord, previous, n, discount) ==
      if previous == [] then Panic else BackoffLoop(d, nextWord, previous[1..], n - 1, discount * 0.4)
  {
    assert Estimate(d, nextWord, previous, n) == ZERO && Quot(ZERO) == 0.0;
    assert Discounted(discount, 0.0) == 0.0;
  }

  function PrefixTable(d: NGramData, n: nat): Table {
    if n == 2 then d.uniGramCount else if n == 3 then d.biGramCount else d.triGramCount
  }

  function GramTable(d: NGramData, n: nat): Table {
    if n == 2 then d.biGramCount else if n == 3 then d.triGramCount else d.quadGramCount
  }

  /** The estimate from the table of the n-gram and that of its prefix. */
  function Estimate(d: NGramData, nextWord: int, previous: seq<int>, n: int): Probability
    requires n <= 4 ==> n - 1 <= |previous|
  {
    if n == 1 then Quotient(CountIn(d.uniGramCount, [nextWord]), d.totalWordFreq)
    else if 2 <= n <= 4 then
      var prefix := previous[..n - 1];
      if prefix in PrefixTable(d, n) then
        Quotient(CountIn(GramTable(d, n), prefix + [nextWord]), PrefixTable(d, n)[prefix])
      else ZERO
    else ZERO
  }

  // ----- estimates are probabilities -----

  /** Counts whose quotient lies between 0 and 1, and is positive exactly if `counted`. */
  ghost predicate InUnit(p: Probability, counted: bool) {
    0 < p.den && p.num <= p.den && (p.num > 0 <==> counted)
  }

  lemma QuotInUnit(p: Probability, counted: bool)
    requires InUnit(p, counted)
    ensures 0.0 <= Quot(p) <= 1.0 && (Quot(p) > 0.0 <==> counted)
  {
    var x, y := p.num as real, p.den as real;
    assert x <= y && 0.0 < y;
    assert (x / y) * y == x;
  }

  lemma PrefixedEstimate(prefixes: Table, nGrams: Table, data: seq<seq<int>>, prefix: seq<int>, nextWord: int,
                         start: int, end: int)
    requires prefix != [] && Counts(prefixes, data, |prefix|, start, end) &&
      Counts(nGrams, data, |prefix| + 1, start, end)
    ensures var g := prefix + [nextWord];
      InUnit(if prefix in prefixes then Quotient(CountIn(nGrams, g), prefixes[prefix]) else ZERO,
             Total(data, g, start, end) > 0)
  {
    var g := prefix + [nextWord];
    CountAtMostPrefix(data, g, start, end);
    assert g[..|g| - 1] == prefix;
  }

  /** On every corpus that is not empty each estimate lies between 0 and 1; it is positive exactly
      when the n-gram was counted. */
  lemma EstimateIsProbability(d: NGramData, data: seq<seq<int>>, nextWord: int, previous: seq<int>, n: nat, start: int,
                              end: int)
    requires Counted(d, data, start, end) && data != [] && 1 <= n <= 4 && n - 1 <= |previous|
    ensures InUnit(Estimate(d, nextWord, previous, n), Total(data, previous[..n - 1] + [nextWord], start, end) > 0)
    ensures 0.0 <= Quot(Estimate(d, nextWord, previous, n)) <= 1.0
  {
    if n == 1 {
      assert previous[..0] + [nextWord] == [nextWord];
      UnigramAtMostAll(data, nextWord, start, end);
    } else {
      PrefixedEstimate(PrefixTable(d, n), GramTable(d, n), data, previous[..n - 1], nextWord, start, end);
    }
    QuotInUnit(Estimate(d, nextWord, previous, n), Total(data, previous[..n - 1] + [nextWord], start, end) > 0);
  }

  /** How often the words before an n-gram's last word were counted; before a single word stands any token. */
  function Context(data: seq<seq<int>>, prefix: seq<int>, start: int, end: int): nat {
    if prefix == [] then AllTokens(data) else Total(data, prefix, start, end)
  }

  /** The quotient is the share of the occurrences of the prefix that the word follows, and 0 for a prefix
      that does not occur. */
  ghost predicate IsFrequency(p: Probability, data: seq<seq<int>>, prefix: seq<int>, nextWord: int, start: int,
                              end: int) {
    IsShare(p, Context(data, prefix, start, end), Total(data, prefix + [nextWord], start, end))
  }

  ghost predicate IsShare(p: Probability, before: nat, counted: nat) {
    p.den > 0 && Quot(p) * before as real == counted as real && (before == 0 ==> Quot(p) == 0.0)
  }

  lemma QuotientIsShare(num: nat, den: nat)
    requires den > 0
    ensures IsShare(Quotient(num, den), den, num)
  {
  }

  lemma ZeroIsShare()
    ensures IsShare(ZERO, 0, 0)
  {
  }

  lemma PrefixedFrequency(prefixes: Table, nGrams: Table, data: seq<seq<int>>, prefix: seq<int>, nextWord: int,
                          start: int, end: int)
    requires prefix != [] && Counts(prefixes, data, |prefix|, start, end) &&
      Counts(nGrams, data, |prefix| + 1, start, end)
    ensures var p :=
        if prefix in prefixes then Quotient(CountIn(nGrams, prefix + [nextWord]), prefixes[prefix]) else ZERO;
      IsFrequency(p, data, prefix, nextWord, start, end)
  {
    var g := prefix + [nextWord];
    hide Total, IsShare;
    if prefix in prefixes {
      QuotientIsShare(CountIn(nGrams, g), prefixes[prefix]);
    } else {
      CountAtMostPrefix(data, g, start, end);
      assert g[..|g| - 1] == prefix;
      ZeroIsShare();
    }
  }

  lemma UnigramFrequency(words: Table, data: seq<seq<int>>, nextWord: int, start: int, end: int)
    requires data != [] && Counts(words, data, 1, start, end)
    ensures IsFrequency(Quotient(CountIn(words, [nextWord]), AllTokens(data)), data, [], nextWord, start, end)
  {
    assert [] + [nextWord] == [nextWord];
    hide Total, IsShare;
    QuotientIsShare(CountIn(words, [nextWord]), AllTokens(data));
  }

  /** On the counted tables of a corpus every estimate is the relative frequency in the corpus. */
  lemma EstimateIsFrequency(d: NGramData, data: seq<seq<int>>, nextWord: int, previous: seq<int>, n: nat, start: int,
                            end: int)
    requires Counted(d, data, start, end) && data != [] && 1 <= n <= 4 && n - 1 <= |previous|
    ensures IsFrequency(Estimate(d, nextWord, previous, n), data, previous[..n - 1], nextWord, start, end)
  {
    hide Total, Quot, IsFrequency, Counts, CountIn;
    if n == 1 {
      assert previous[..0] == [];
      UnigramFrequency(d.uniGramCount, data, nextWord, start, end);
    } else {
      PrefixedFrequency(PrefixTable(d, n), GramTable(d, n), data, previous[..n - 1], nextWord, start, end);
    }
  }

  // ----- stupid backoff -----

  function Pow04(k: nat): (p: real)
    ensures 0.0 < p <= 1.0
  {
    if k == 0 then 1.0 else 0.4 * Pow04(k - 1)
  }

  lemma Associate(a: real, b: real, c: real)
    ensures (a * b) * c == a * (b * c)
  {
  }

  lemma PositiveProduct(a: real, p: real)
    requires a > 0.0
    ensures a * p != 0.0 <==> p != 0.0
  {
  }

  lemma FirstOrNext(ps: seq<Probability>, discount: real, otherwise: Score)
    requires ps != [] && ps[0].den > 0 && discount > 0.0
    ensures Backoff(ps, discount, otherwise) ==
      if Quot(ps[0]) != 0.0 then Value(discount * Quot(ps[0])) else Backoff(ps[1..], discount * 0.4, otherwise)
  {
    PositiveProduct(discount, Quot(ps[0]));
  }

  lemma Pow04Step(k: nat)
    ensures Pow04(k) == if k == 0 then 1.0 else 0.4 * Pow04(k - 1)
  {
  }

  /** Backing off gives the first estimate that is not zero, times 0.4 for every order above it. */
  lemma {:induction false} BackoffFrom(ps: seq<Probability>, discount: real, k: nat, factor: real, otherwise: Score)
    requires k < |ps| && discount > 0.0 && factor == discount * Pow04(k)
    requires (forall i :: 0 <= i < k ==> InUnit(ps[i], false)) && InUnit(ps[k], true)
    ensures Backoff(ps, discount, otherwise) == Value(factor * Quot(ps[k]))
    decreases k
  {
    QuotInUnit(ps[0], k == 0);
    FirstOrNext(ps, discount, otherwise);
    Pow04Step(k);
    hide Backoff, Quot, Pow04;
    if k > 0 {
      Associate(discount, 0.4, Pow04(k - 1));
      BackoffFrom(ps[1..], discount * 0.4, k - 1, factor, otherwise);
    } else {
      assert discount * 1.0 == discount;
    }
  }

  lemma {:induction false} AllZero(ps: seq<Probability>, discount: real, otherwise: Score)
    requires discount > 0.0 && forall i :: 0 <= i < |ps| ==> InUnit(ps[i], false)
    ensures Backoff(ps, discount, otherwise) == otherwise
    decreases |ps|
  {
    if ps != [] {
      QuotInUnit(ps[0], false);
      FirstOrNext(ps, discount, otherwise);
      AllZero(ps[1..], discount * 0.4, otherwise);
    }
  }

  lemma ProductInUnit(q: real, p: real)
    requires 0.0 < q <= 1.0 && 0.0 < p <= 1.0
    ensures 0.0 < q * p <= 1.0
  {
    assert q * p <= 1.0 * p;
  }

  /** The estimate at an index is that of the n-gram without as many of its first words. */
  lemma EstimatesAreFrequencies(d: NGramData, data: seq<seq<int>>, nextWord: int, previous: seq<int>, n: nat, i: nat,
                                start: int, end: int)
    requires Counted(d, data, start, end) && data != [] && 1 <= n <= 4 && n - 1 <= |previous| && i < n
    ensures var p := Estimates(d, nextWord, previous, n)[i];
      InUnit(p, CountWithout(data, nextWord, previous, n, i, start, end) > 0) &&
      IsFrequency(p, data, previous[i..n - 1], nextWord, start, end)
  {
    hide Estimates, Total, AllTokens, Quot, Estimate;
    EstimateAt(d, nextWord, previous, n, i);
    var context := previous[i..];
    assert context[..n - i - 1] == previous[i..n - 1];
    EstimateIsProbability(d, data, nextWord, context, n - i, start, end);
    EstimateIsFrequency(d, data, nextWord, context, n - i, start, end);
  }

  /** The score is the first estimate that is not zero, times 0.4 for every one before it. */
  ghost predicate DiscountedBest(ps: seq<Probability>, k: nat, score: Score) {
    k < |ps| && (forall i :: 0 <= i < k ==> InUnit(ps[i], false)) && InUnit(ps[k], true) &&
    score == Value(Pow04(k) * Quot(ps[k])) && 0.0 < Pow04(k) * Quot(ps[k]) <= 1.0
  }

  lemma Discounts(ps: seq<Probability>, k: nat, otherwise: Score)
    requires k < |ps| && (forall i :: 0 <= i < k ==> InUnit(ps[i], false)) && InUnit(ps[k], true)
    ensures DiscountedBest(ps, k, Backoff(ps, 1.0, otherwise))
  {
    BackoffFrom(ps, 1.0, k, Pow04(k), otherwise);
    QuotInUnit(ps[k], true);
    assert 1.0 * Pow04(k) == Pow04(k);
    ProductInUnit(Pow04(k), Quot(ps[k]));
  }

  lemma FirstNotZero(ps: seq<Probability>) returns (k: nat)
    requires ps != [] && InUnit(ps[|ps| - 1], true)
    requires forall i :: 0 <= i < |ps| ==> InUnit(ps[i], true) || InUnit(ps[i], false)
    ensures k < |ps| && (forall i :: 0 <= i < k ==> InUnit(ps[i], false)) && InUnit(ps[k], true)
    decreases |ps|
  {
    if InUnit(ps[0], true) {
      k := 0;
    } else {
      k := FirstNotZero(ps[1..]);
      k := k + 1;
    }
  }

  /** 0.4 for every order above the one that has the n-gram. */
  const FACTORS := [1.0, 0.4, 0.16, 0.064]

  lemma FactorsArePowers(k: nat)
    requires k < |FACTORS|
    ensures Pow04(k) == FACTORS[k]
  {
    assert Pow04(0) == 1.0 && Pow04(1) == 0.4 && Pow04(2) == 0.16 && Pow04(3) == 0.064;
  }

  /** How often the n-gram without its first `i` words occurs. */
  function CountWithout(data: seq<seq<int>>, nextWord: int, previous: seq<int>, n: nat, i: nat, start: int,
                        end: int): nat
    requires i < n && n - 1 <= |previous|
  {
    Total(data, previous[i..n - 1] + [nextWord], start, end)
  }

  /** The n-gram without its first `k` words is the first that occurs in the corpus, and the score is its
      relative frequency, discounted. */
  ghost predicate AtOrder(p: real, data: seq<seq<int>>, nextWord: int, previous: seq<int>, n: nat, k: nat, start: int,
                          end: int)
    requires 1 <= n <= 4 && n - 1 <= |previous|
  {
    k < n && (forall i :: 0 <= i < k ==> CountWithout(data, nextWord, previous, n, i, start, end) == 0) &&
    var (prefix, counted) := (previous[k..n - 1], CountWithout(data, nextWord, previous, n, k, start, end));
    counted > 0 && 0.0 < p <= 1.0 && p * Context(data, prefix, start, end) as real == FACTORS[k] * counted as real
  }

  /** With too few previous words the lookup panics; a word that does not occur in the corpus scores 0, and
      panics if no word is left to drop. */
  ghost predicate BackedOff(score: Score, data: seq<seq<int>>, nextWord: int, previous: seq<int>, n: nat, start: int,
                            end: int)
    requires 1 <= n <= 4
  {
    if |previous| < n - 1 then score == Panic
    else if Total(data, [nextWord], start, end) == 0 then score == if |previous| >= n then Value(0.0) else Panic
    else score.Value? && exists k :: AtOrder(score.p, data, nextWord, previous, n, k, start, end)
  }

  lemma FactorTimes(factor: real, q: real, before: real, counted: real)
    requires q * before == counted
    ensures factor * q * before == factor * counted
  {
  }

  lemma BestIsAtOrder(ps: seq<Probability>, k: nat, score: Score, data: seq<seq<int>>, nextWord: int,
                      previous: seq<int>, n: nat, start: int, end: int)
    requires 1 <= n <= 4 && n - 1 <= |previous| && |ps| == n && DiscountedBest(ps, k, score)
    requires forall i :: 0 <= i < n ==>
      InUnit(ps[i], CountWithout(data, nextWord, previous, n, i, start, end) > 0) &&
      IsFrequency(ps[i], data, previous[i..n - 1], nextWord, start, end)
    ensures AtOrder(score.p, data, nextWord, previous, n, k, start, end)
  {
    hide Total, AllTokens, Quot, Context;
    var prefix := previous[k..n - 1];
    assert IsFrequency(ps[k], data, prefix, nextWord, start, end);
    FactorsArePowers(k);
    FactorTimes(FACTORS[k], Quot(ps[k]), Context(data, prefix, start, end) as real,
                Total(data, prefix + [nextWord], start, end) as real);
  }

  /** For every order that has a table, the score in terms of the corpus. */
  lemma BackoffScore(d: NGramData, data: seq<seq<int>>, nextWord: int, previous: seq<int>, n: nat, start: int, end: int)
    requires Counted(d, data, start, end) && data != [] && 1 <= n <= 4
    ensures BackedOff(BackoffLoop(d, nextWord, previous, n, 1.0), data, nextWord, previous, n, start, end)
  {
    hide Total, AllTokens, Quot, Context, AtOrder, IsFrequency, Estimate, Estimates, Backoff, BackoffLoop, Counted;
    if |previous| < n - 1 {
      TooFewWords(d, nextWord, previous, n);
    } else {
      LoopBacksOff(d, nextWord, previous, n, 1.0);
      var (ps, otherwise) := (Estimates(d, nextWord, previous, n), if |previous| >= n then Value(0.0) else Panic);
      forall i | 0 <= i < n
        ensures InUnit(ps[i], CountWithout(data, nextWord, previous, n, i, start, end) > 0)
        ensures IsFrequency(ps[i], data, previous[i..n - 1], nextWord, start, end)
        ensures Total(data, [nextWord], start, end) == 0 ==> InUnit(ps[i], false)
      {
        EstimatesAreFrequencies(d, data, nextWord, previous, n, i, start, end);
        LastWordIsCounted(data, previous[i..n - 1] + [nextWord], start, end);
      }
      if Total(data, [nextWord], start, end) == 0 {
        AllZero(ps, 1.0, otherwise);
      } else {
        assert previous[n - 1..n - 1] + [nextWord] == [nextWord];
        var k := FirstNotZero(ps);
        Discounts(ps, k, otherwise);
        BestIsAtOrder(ps, k, Backoff(ps, 1.0, otherwise), data, nextWord, previous, n, start, end);
      }
    }
  }

  lemma TooFewWords(d: NGramData, nextWord: int, previous: seq<int>, n: nat)
    requires 1 <= n <= 4 && |previous| < n - 1
    ensures BackoffLoop(d, nextWord, previous, n, 1.0) == Panic
  {
  }

  // ----- what is counted -----

  ghost predicate IsWindow(p: seq<int>, g: seq<int>, i: nat) {
    i + |g| <= |p| && p[i..i + |g|] == g
  }

  ghost function PositionsBefore(p: seq<int>, g: seq<int>, k: nat): set<nat> {
    set i: nat | i < k && IsWindow(p, g, i)
  }

  lemma {:induction false} WindowsArePositions(p: seq<int>, g: seq<int>, k: nat)
    requires k + |g| <= |p| + 1
    ensures WindowsBefore(p, g, k) == |PositionsBefore(p, g, k)|
  {
    if k == 0 {
      assert PositionsBefore(p, g, 0) == {};
    } else {
      WindowsArePositions(p, g, k - 1);
      assert IsWindow(p, g, k - 1) <==> p[k - 1..k - 1 + |g|] == g;
      hide IsWindow;
      var before := PositionsBefore(p, g, k - 1);
      assert PositionsBefore(p, g, k) == if IsWindow(p, g, k - 1) then before + {k - 1} else before;
    }
  }

  /** In a corpus of one document an n-gram is counted once for each of its positions. */
  lemma TotalOfDocument(doc: seq<int>, g: seq<int>, start: int, end: int)
    requires g != []
    ensures var p := Padded(doc, |g|, start, end);
      Total([doc], g, start, end) == |set i: nat | i < |p| && IsWindow(p, g, i)|
    ensures AllTokens([doc]) == |Padded(doc, 1, start, end)|
  {
    var p := Padded(doc, |g|, start, end);
    var n := |p| - |g| + 1;
    AllWindows(p, g);
    WindowsArePositions(p, g, n);
    assert PositionsBefore(p, g, n) == set i: nat | i < |p| && IsWindow(p, g, i);
    assert [doc][..0] == [];
    assert Total([], g, start, end) == 0;
  }

  /** The counts of two corpora add up. */
  lemma {:induction false} TotalAdds(data: seq<seq<int>>, more: seq<seq<int>>, g: seq<int>, start: int, end: int)
    ensures Total(data + more, g, start, end) == Total(data, g, start, end) + Total(more, g, start, end)
    ensures AllTokens(data + more) == AllTokens(data) + AllTokens(more)
  {
    hide Windows, Padded;
    if more == [] {
      assert data + more == data;
    } else {
      var n := |more| - 1;
      TotalAdds(data, more[..n], g, start, end);
      assert (data + more)[..|data| + n] == data + more[..n];
    }
  }
}
