/** The naive count of terms in documents, and what it is in the documents' own texts. */
module FieldTexts {
  import opened Compress
  import opened Postings
  import opened Indexer

  // ----- the naive count -----

  function WordCount(words: seq<TermID>, t: int): nat {
    if words == [] then 0 else (if words[0] == t then 1 else 0) + WordCount(words[1..], t)
  }

  /** How often the term occurs in the field of the document. */
  function TermCount(nodes: seq<Node>, field: string, tokenize: Tokenizer, t: int, d: int): nat {
    if nodes == [] then 0 else
    (if nodes[0].id == d then WordCount(Words(nodes[0], field, tokenize), t) else 0) +
    TermCount(nodes[1..], field, tokenize, t, d)
  }

  lemma {:induction false} WordCountConcat(a: seq<TermID>, b: seq<TermID>, t: int)
    ensures WordCount(a + b, t) == WordCount(a, t) + WordCount(b, t)
  {
    if a == [] {
      assert a + b == b;
    } else {
      assert (a + b)[1..] == a[1..] + b;
      WordCountConcat(a[1..], b, t);
    }
  }

  lemma {:induction false} TermCountConcat(a: seq<Node>, b: seq<Node>, field: string, tokenize: Tokenizer, t: int,
                                           d: int)
    ensures TermCount(a + b, field, tokenize, t, d) ==
      TermCount(a, field, tokenize, t, d) + TermCount(b, field, tokenize, t, d)
  {
    if a == [] {
      assert a + b == b;
    } else {
      assert (a + b)[1..] == a[1..] + b;
      TermCountConcat(a[1..], b, field, tokenize, t, d);
    }
  }

  /** The order of the documents does not matter. */
  lemma {:induction false} TermCountOfPermutation(a: seq<Node>, b: seq<Node>, field: string, tokenize: Tokenizer,
                                                  t: int, d: int)
    requires multiset(a) == multiset(b)
    ensures TermCount(a, field, tokenize, t, d) == TermCount(b, field, tokenize, t, d)
    decreases |a|
  {
    hide Words, WordCount;
    if a == [] {
      assert |b| == |multiset(b)| == 0;
    } else {
      hide TermCount;
      var j := FirstIn(a, b);
      assert a[..0] + a[1..] == a[1..];
      TermCountOfPermutation(a[1..], b[..j] + b[j + 1..], field, tokenize, t, d);
      TermCountWithout(b, j, field, tokenize, t, d);
      TermCountWithout(a, 0, field, tokenize, t, d);
    }
  }

  lemma TermCountWithout(b: seq<Node>, j: nat, field: string, tokenize: Tokenizer, t: int, d: int)
    requires j < |b|
    ensures TermCount(b, field, tokenize, t, d) == TermCount(b[..j] + b[j + 1..], field, tokenize, t, d) +
      (if b[j].id == d then WordCount(Words(b[j], field, tokenize), t) else 0)
  {
    assert b == b[..j] + [b[j]] + b[j + 1..];
    TermCountConcat(b[..j] + [b[j]], b[j + 1..], field, tokenize, t, d);
    TermCountConcat(b[..j], [b[j]], field, tokenize, t, d);
    TermCountConcat(b[..j], b[j + 1..], field, tokenize, t, d);
    assert [b[j]][1..] == [];
  }

  // ----- in the texts of the documents -----

  /** An empty text is not tokenized. */
  function TextCount(text: string, tokenize: Tokenizer, t: int): nat {
    if text == "" then 0 else WordCount(tokenize(text), t)
  }

  function TextLength(text: string, tokenize: Tokenizer): nat {
    if text == "" then 0 else |tokenize(text)|
  }

  function TimesIn(tokenize: Tokenizer, t: int): string -> int {
    text => TextCount(text, tokenize, t)
  }

  function WordsIn(tokenize: Tokenizer): string -> int {
    text => TextLength(text, tokenize)
  }

  lemma {:induction false} WordCountIsMultiplicity(words: seq<TermID>, t: TermID)
    ensures WordCount(words, t) == multiset(words)[t]
  {
    if words != [] {
      assert words == [words[0]] + words[1..];
      WordCountIsMultiplicity(words[1..], t);
    }
  }

  /** The value of each document is the measure of its name when names are indexed, and of its address when
      addresses are; any other field has no text, and an identifier that no document has the value 0. */
  ghost predicate OnFields(value: int -> int, measure: string -> int, nodes: seq<Node>, field: string) {
    (field == "name" ==> forall i :: 0 <= i < |nodes| ==> value(nodes[i].id) == measure(nodes[i].name)) &&
    (field == "address" ==> forall i :: 0 <= i < |nodes| ==> value(nodes[i].id) == measure(nodes[i].address)) &&
    forall d: int :: (field != "name" && field != "address") || !HasId(nodes, d) ==> value(d) == 0
  }

  ghost predicate HasId(nodes: seq<Node>, d: int) {
    exists i :: 0 <= i < |nodes| && nodes[i].id == d
  }

  /** Identifiers are handed out once. */
  ghost predicate DistinctIds(nodes: seq<Node>) {
    forall i, j :: 0 <= i < j < |nodes| ==> nodes[i].id != nodes[j].id
  }

  lemma SameOnFields(value: int -> int, value': int -> int, measure: string -> int, nodes: seq<Node>, field: string)
    requires OnFields(value, measure, nodes, field) && forall d: int :: value'(d) == value(d)
    ensures OnFields(value', measure, nodes, field)
  {
  }

  lemma {:induction false} AbsentTerm(nodes: seq<Node>, field: string, tokenize: Tokenizer, t: int, d: int)
    requires !HasId(nodes, d) || (field != "name" && field != "address")
    ensures TermCount(nodes, field, tokenize, t, d) == 0
  {
    if nodes != [] {
      assert forall i :: 0 <= i < |nodes| - 1 ==> nodes[1..][i] == nodes[i + 1];
      AbsentTerm(nodes[1..], field, tokenize, t, d);
    }
  }

  lemma {:induction false} AbsentLength(nodes: seq<Node>, field: string, tokenize: Tokenizer, d: int)
    requires !HasId(nodes, d) || (field != "name" && field != "address")
    ensures FieldLength(nodes, field, tokenize, d) == 0
  {
    if nodes != [] {
      assert forall i :: 0 <= i < |nodes| - 1 ==> nodes[1..][i] == nodes[i + 1];
      AbsentLength(nodes[1..], field, tokenize, d);
    }
  }

  lemma OthersHaveOtherIds(nodes: seq<Node>, i: nat)
    requires DistinctIds(nodes) && i < |nodes|
    ensures !HasId(nodes[..i] + nodes[i + 1..], nodes[i].id)
  {
    var others := nodes[..i] + nodes[i + 1..];
    assert forall k :: 0 <= k < |others| ==> others[k] == nodes[if k < i then k else k + 1];
  }

  lemma FieldLengthWithout(nodes: seq<Node>, i: nat, field: string, tokenize: Tokenizer, d: int)
    requires i < |nodes|
    ensures FieldLength(nodes, field, tokenize, d) == FieldLength(nodes[..i] + nodes[i + 1..], field, tokenize, d) +
      (if nodes[i].id == d then |Words(nodes[i], field, tokenize)| else 0)
  {
    assert nodes == nodes[..i] + [nodes[i]] + nodes[i + 1..];
    FieldLengthConcat(nodes[..i] + [nodes[i]], nodes[i + 1..], field, tokenize, d);
    FieldLengthConcat(nodes[..i], [nodes[i]], field, tokenize, d);
    FieldLengthConcat(nodes[..i], nodes[i + 1..], field, tokenize, d);
    assert [nodes[i]][1..] == [];
  }

  /** The naive count of a document with an identifier of its own is the count in its text. */
  lemma TermCountOnFields(nodes: seq<Node>, field: string, tokenize: Tokenizer, t: int)
    requires DistinctIds(nodes)
    ensures OnFields(d => TermCount(nodes, field, tokenize, t, d), TimesIn(tokenize, t), nodes, field)
  {
    forall i | 0 <= i < |nodes|
      ensures TermCount(nodes, field, tokenize, t, nodes[i].id) ==
        WordCount(Words(nodes[i], field, tokenize), t)
    {
      OthersHaveOtherIds(nodes, i);
      TermCountWithout(nodes, i, field, tokenize, t, nodes[i].id);
      AbsentTerm(nodes[..i] + nodes[i + 1..], field, tokenize, t, nodes[i].id);
    }
    forall d: int | (field != "name" && field != "address") || !HasId(nodes, d)
      ensures TermCount(nodes, field, tokenize, t, d) == 0
    {
      AbsentTerm(nodes, field, tokenize, t, d);
    }
  }

  /** So is its number of words. */
  lemma FieldLengthOnFields(nodes: seq<Node>, field: string, tokenize: Tokenizer)
    requires DistinctIds(nodes)
    ensures OnFields(d => FieldLength(nodes, field, tokenize, d), WordsIn(tokenize), nodes, field)
  {
    forall i | 0 <= i < |nodes|
      ensures FieldLength(nodes, field, tokenize, nodes[i].id) == |Words(nodes[i], field, tokenize)|
    {
      OthersHaveOtherIds(nodes, i);
      FieldLengthWithout(nodes, i, field, tokenize, nodes[i].id);
      AbsentLength(nodes[..i] + nodes[i + 1..], field, tokenize, nodes[i].id);
    }
    forall d: int | (field != "name" && field != "address") || !HasId(nodes, d)
      ensures FieldLength(nodes, field, tokenize, d) == 0
    {
      AbsentLength(nodes, field, tokenize, d);
    }
  }

  /** The token stream of one document pairs the words of its text with it, in order, and the streams of the
      documents follow each other. */
  lemma StreamOfNode(node: Node, field: string, tokenize: Tokenizer)
    ensures var pairs := Stream([node], field, tokenize);
      (field == "name" ==> ArePairsOf(pairs, node.name, tokenize, node.id)) &&
      (field == "address" ==> ArePairsOf(pairs, node.address, tokenize, node.id)) &&
      (field != "name" && field != "address" ==> pairs == [])
  {
    assert [node][..0] == [];
    assert Stream([node][..0], field, tokenize) == [];
    assert Stream([node], field, tokenize) == PairsFor(Words(node, field, tokenize), node.id);
  }

  ghost predicate ArePairsOf(pairs: seq<Pair>, text: string, tokenize: Tokenizer, doc: Int64) {
    |pairs| == TextLength(text, tokenize) &&
    forall k :: 0 <= k < |pairs| ==> pairs[k] == Pair(tokenize(text)[k], doc)
  }

  lemma StreamMore(nodes: seq<Node>, field: string, tokenize: Tokenizer)
    requires nodes != []
    ensures var last := nodes[|nodes| - 1];
      Stream(nodes, field, tokenize) ==
        Stream(nodes[..|nodes| - 1], field, tokenize) + PairsFor(Words(last, field, tokenize), last.id)
  {
  }

  lemma Regrouped(a: seq<Pair>, b: seq<Pair>, c: seq<Pair>)
    ensures (a + b) + c == a + (b + c)
  {
  }

  lemma {:induction false} StreamConcat(a: seq<Node>, b: seq<Node>, field: string, tokenize: Tokenizer)
    ensures Stream(a + b, field, tokenize) == Stream(a, field, tokenize) + Stream(b, field, tokenize)
  {
    if b == [] {
      assert a + b == a;
    } else {
      hide Stream, PairsFor, Words;
      var (rest, last) := (b[..|b| - 1], b[|b| - 1]);
      assert (a + b)[..|a + b| - 1] == a + rest && (a + b)[|a + b| - 1] == last;
      StreamConcat(a, rest, field, tokenize);
      StreamMore(a + b, field, tokenize);
      StreamMore(b, field, tokenize);
      Regrouped(Stream(a, field, tokenize), Stream(rest, field, tokenize),
                PairsFor(Words(last, field, tokenize), last.id));
    }
  }

  /** Of a document named Monas in Jalan Merdeka, the words of the name are indexed as names. */
  lemma NameAndAddress(tokenize: Tokenizer, t: int)
    ensures var nodes := [Node(7, "Monas", "Jalan Merdeka")];
      TermCount(nodes, "name", tokenize, t, 7) == WordCount(tokenize("Monas"), t) &&
      TermCount(nodes, "address", tokenize, t, 7) == WordCount(tokenize("Jalan Merdeka"), t)
  {
    var nodes := [Node(7, "Monas", "Jalan Merdeka")];
    TermCountOnFields(nodes, "name", tokenize, t);
    TermCountOnFields(nodes, "address", tokenize, t);
    assert nodes[0].id == 7;
  }
}
