/** An inverted index over an append-only file (`inverted_index.go`). The file is a sequence of bytes. */
module InvertedIndexes {
  import opened Wrappers
  import opened Compress
  import opened Records
  import opened MetadataFormat

  /** Reading `n` bytes at `pos`: an error at the end of the file, zeros where the file ends inside. */
  function ReadAt(file: seq<byte>, pos: int, n: int): (r: Option<seq<byte>>)
    ensures 0 <= pos && 0 <= n && pos + n <= |file| ==> r == Some(file[pos..pos + n])
  {
    if 0 <= pos && 0 <= n && pos + n <= |file| then Some(file[pos..pos + n])
    else if n <= 0 then Some([])
    else if pos < 0 || pos >= |file| then None
    else Some(file[pos..] + seq(pos + n - |file|, _ => 0))
  }

  /** The list is in the file where the entry says. */
  ghost predicate Holds(file: seq<byte>, p: Posting, list: seq<Int64>) {
    0 <= p.start && 0 <= p.bytes && p.start + p.bytes <= |file| && p.length == |list| &&
    file[p.start..p.start + p.bytes] == Encoded(list)
  }

  ghost predicate AllHeld(file: seq<byte>, postings: map<int, Posting>, lists: map<int, seq<Int64>>) {
    postings.Keys == lists.Keys && forall t: int :: t in postings ==> Holds(file, postings[t], lists[t])
  }

  /** Appending a list keeps what the file held. */
  lemma AppendKeeps(file: seq<byte>, postings: map<int, Posting>, lists: map<int, seq<Int64>>, term: int,
                    list: seq<Int64>)
    requires AllHeld(file, postings, lists)
    ensures var bytes := Encoded(list);
      AllHeld(file + bytes, postings[term := Posting(|file|, |list|, |bytes|)], lists[term := list])
  {
    var bytes := Encoded(list);
    var file' := file + bytes;
    assert file'[|file|..|file| + |bytes|] == bytes;
    forall t: int | t in postings && t != term
      ensures Holds(file', postings[t], lists[t])
    {
      var p := postings[t];
      assert file'[p.start..p.start + p.bytes] == file[p.start..p.start + p.bytes];
    }
    assert (lists[term := list]).Keys == lists.Keys + {term};
  }

  /** Reads the bytes of a list and decodes them. */
  method ReadPosting(file: seq<byte>, p: Posting, ghost list: seq<Int64>) returns (r: Result<seq<Int64>, string>)
    requires Holds(file, p, list)
    ensures r == Success(list)
  {
    var buf := ReadAt(file, p.start, p.bytes);
    if buf.None? {
      return Failure("end of file");
    }
    DecodedEncoded(list);
    var numbers := DecodePostingsList(buf.value);
    r := if numbers.Some? then Success(numbers.value) else Failure("slice bounds out of range");
  }

  // ----- the average field length -----

  /** A 64-bit float without rounding, and a parameter for its eight bytes. */
  datatype Float = Number(value: real) | Infinite(positive: bool) | NaN
  type Bytes8 = s: seq<byte> | |s| == 8 witness [0, 0, 0, 0, 0, 0, 0, 0]
  datatype FloatFormat = FloatFormat(bits: Float -> Bytes8, value: Bytes8 -> Float)

  /** The lengths of the documents in `order` are added to `a`. */
  function Summed(a: Float, order: seq<int>, lens: map<int, int>): Float
    requires forall d: int :: d in order ==> d in lens
  {
    if order == [] then a else
    var (before, last) := (Summed(a, order[..|order| - 1], lens), order[|order| - 1]);
    assert last in order;
    if before.Number? then Number(before.value + lens[last] as real) else before
  }

  function Over(a: Float, n: nat): (r: Float)
    ensures a.Number? && n > 0 ==> r.Number? && r.value * n as real == a.value
  {
    if !a.Number? then a
    else if n > 0 then Number(a.value / n as real)
    else if a.value == 0.0 then NaN
    else Infinite(a.value > 0.0)
  }

  function Total(order: seq<int>, lens: map<int, int>): int
    requires forall d: int :: d in order ==> d in lens
  {
    if order == [] then 0 else
    var last := order[|order| - 1];
    assert last in order;
    Total(order[..|order| - 1], lens) + lens[last]
  }

  lemma TotalOfOne(d: int, lens: map<int, int>)
    requires d in lens
    ensures Total([], lens) == 0 && Total([d], lens) == lens[d]
  {
    assert [d][..0] == [];
  }

  /** The lengths of two lists of documents add up. */
  lemma {:induction false} TotalAdds(a: seq<int>, b: seq<int>, lens: map<int, int>)
    requires forall d: int :: d in a + b ==> d in lens
    ensures (forall d: int :: d in a ==> d in a + b) && (forall d: int :: d in b ==> d in a + b)
    ensures Total(a + b, lens) == Total(a, lens) + Total(b, lens)
  {
    if b == [] {
      assert a + b == a;
    } else {
      var n := |b| - 1;
      assert (a + b)[..|a| + n] == a + b[..n] && forall d: int :: d in a + b[..n] ==> d in a + b;
      TotalAdds(a, b[..n], lens);
    }
  }

  lemma {:induction false} SummedIsTotal(a: real, order: seq<int>, lens: map<int, int>)
    requires forall d: int :: d in order ==> d in lens
    ensures Summed(Number(a), order, lens) == Number(a + Total(order, lens) as real)
  {
    if order != [] {
      SummedIsTotal(a, order[..|order| - 1], lens);
    }
  }

  /** The stored number is the average length if and only if the number it started from was 0: writing
      the metadata a second time without reading them back adds the old average once more. */
  lemma AverageIsRightIff(a: real, order: seq<int>, lens: map<int, int>)
    requires order != [] && forall d: int :: d in order ==> d in lens
    ensures Over(Summed(Number(a), order, lens), |order|) == Number(Total(order, lens) as real / |order| as real) <==>
      a == 0.0
  {
    SummedIsTotal(a, order, lens);
    var (n, t) := (|order| as real, Total(order, lens) as real);
    assert ((a + t) / n) * n == a + t && (t / n) * n == t;
  }

  datatype Item = Item(termID: int, termSize: nat, postingList: seq<Int64>)

  class InvertedIndex {
    var terms: seq<int>
    var postingMetadata: map<int, Posting>
    var lenFieldInDoc: map<int, int>
    var average: seq<byte>
    var currTermPosition: nat
    var file: seq<byte>
    /** The list appended last for each term. */
    ghost var lists: map<int, seq<Int64>>

    ghost predicate Valid()
      reads this
    {
      |average| == 8 && currTermPosition <= |terms| && AllHeld(file, postingMetadata, lists) &&
      (forall t: int :: t in terms <==> t in lists)
    }

    constructor (lenFieldInDoc: map<int, int>)
      ensures Valid() && lists == map[] && terms == [] && currTermPosition == 0 && this.lenFieldInDoc == lenFieldInDoc
    {
      terms, postingMetadata, this.lenFieldInDoc := [], map[], lenFieldInDoc;
      average, currTermPosition, file, lists := [0, 0, 0, 0, 0, 0, 0, 0], 0, [], map[];
    }

    function Meta(): Metadata
      reads this
    {
      Metadata(terms, postingMetadata, lenFieldInDoc, average)
    }

    method SetLenFieldInDoc(lenFieldInDoc: map<int, int>)
      requires Valid()
      modifies this`lenFieldInDoc
      ensures Valid() && this.lenFieldInDoc == lenFieldInDoc
    {
      this.lenFieldInDoc := lenFieldInDoc;
    }

    method AppendPostingList(termID: int, postingList: seq<Int64>)
      requires Valid()
      modifies this`terms, this`postingMetadata, this`file, this`lists
      ensures Valid() && lists == old(lists)[termID := postingList] && terms == old(terms) + [termID]
      ensures file == old(file) + Encoded(postingList)
    {
      AppendKeeps(file, postingMetadata, lists, termID, postingList);
      var encoded := EncodePostingsList(postingList);
      var start := |file|;
      file := file + encoded;
      terms := terms + [termID];
      postingMetadata := postingMetadata[termID := Posting(start, |postingList|, |encoded|)];
      lists := lists[termID := postingList];
    }

    /** The latest list of a term, and the empty list of an unknown term. */
    method GetPostingList(termID: int) returns (list: Result<seq<Int64>, string>)
      requires Valid()
      ensures list == Success(if termID in lists then lists[termID] else [])
    {
      if termID !in postingMetadata {
        return Success([]);
      }
      list := Lookup(termID);
    }

    method Lookup(termID: int) returns (list: Result<seq<Int64>, string>)
      requires Valid() && termID in postingMetadata
      ensures termID in lists && list == Success(lists[termID])
    {
      var p := postingMetadata[termID];
      assert termID in lists && Holds(file, p, lists[termID]);
      list := ReadPosting(file, p, lists[termID]);
    }

    /** One step of `IterateInvertedIndex`: the terms in the order they were appended. */
    method Next() returns (item: Option<Result<Item, string>>)
      requires Valid()
      modifies this`currTermPosition
      ensures Valid()
      ensures if old(currTermPosition) < |terms|
        then currTermPosition == old(currTermPosition) + 1 && terms[old(currTermPosition)] in lists &&
          item == Some(Success(Item(terms[old(currTermPosition)], |terms|, lists[terms[old(currTermPosition)]])))
        else currTermPosition == old(currTermPosition) && item == None
    {
      if currTermPosition >= |terms| {
        return None;
      }
      var termID := terms[currTermPosition];
      assert termID in terms;
      currTermPosition := currTermPosition + 1;
      var list := Lookup(termID);
      match list {
        case Success(postings) => item := Some(Success(Item(termID, |terms|, postings)));
        case Failure(e) => item := Some(Failure(e));
      }
    }

    // ----- metadata -----

    /** The bytes that the metadata take, in whatever order the maps are written. */
    method GetAproximateMetadataBufferSize() returns (n: nat)
      ensures forall termOrder: seq<int>, docOrder: seq<int> :: InSomeOrder(Meta(), termOrder, docOrder) ==>
        n == |Layout(LITTLE_ENDIAN, Meta(), termOrder, docOrder)|
    {
      LittleEndianIsSound();
      forall termOrder: seq<int>, docOrder: seq<int> | InSomeOrder(Meta(), termOrder, docOrder) {
        LayoutLength(LITTLE_ENDIAN, Meta(), termOrder, docOrder);
      }
      n := 4 * 3 + 4 * |terms| + 4 * 4 * |postingMetadata| + 4 * 2 * |lenFieldInDoc| + 8;
    }

    /** The sum is not set to 0 first, so the old average counts as well. */
    method NextAverage(docOrder: seq<int>, format: FloatFormat) returns (next: Bytes8)
      requires |average| == 8 && forall d: int :: d in docOrder ==> d in lenFieldInDoc
      ensures next == format.bits(Over(Summed(format.value(average), docOrder, lenFieldInDoc), |lenFieldInDoc|))
    {
      var sum := format.value(average);
      for i := 0 to |docOrder|
        invariant sum == Summed(format.value(average), docOrder[..i], lenFieldInDoc)
      {
        assert docOrder[..i + 1][..i] == docOrder[..i];
        var doc: int := docOrder[i];
        sum := if sum.Number? then Number(sum.value + lenFieldInDoc[doc] as real) else sum;
      }
      assert docOrder[..|docOrder|] == docOrder;
      next := format.bits(Over(sum, |lenFieldInDoc|));
    }

    method SerializeMetadata(termOrder: seq<int>, docOrder: seq<int>, format: FloatFormat) returns (bytes: seq<byte>)
      requires Enumerates(termOrder, postingMetadata.Keys) && Enumerates(docOrder, lenFieldInDoc.Keys) && |average| == 8
      modifies this`average
      ensures average ==
        format.bits(Over(Summed(format.value(old(average)), docOrder, lenFieldInDoc), |lenFieldInDoc|))
      ensures bytes == Layout(LITTLE_ENDIAN, Meta(), termOrder, docOrder)
      ensures |bytes| == 4 * 3 + 4 * |terms| + 4 * 4 * |postingMetadata| + 4 * 2 * |lenFieldInDoc| + 8
    {
      hide Layout;
      average := NextAverage(docOrder, format);
      hide Enumerates;
      var md := Metadata(terms, postingMetadata, lenFieldInDoc, average);
      LittleEndianIsSound();
      LayoutLength(LITTLE_ENDIAN, md, termOrder, docOrder);
      var size := GetAproximateMetadataBufferSize();
      assert md == Meta() && InSomeOrder(Meta(), termOrder, docOrder);
      bytes := Fill(LITTLE_ENDIAN, md, termOrder, docOrder, size);
    }

    /** The terms, the postings and the lengths become those of the buffer. */
    method DeserializeMetadata(buf: seq<byte>)
      requires Complete(LITTLE_ENDIAN, buf)
      modifies this`terms, this`postingMetadata, this`lenFieldInDoc, this`average
      ensures Meta() == Parse(LITTLE_ENDIAN, buf)
    {
      var md := Unfill(LITTLE_ENDIAN, buf);
      terms, postingMetadata, lenFieldInDoc, average := md.terms, md.postings, md.lens, md.average;
    }

    /** `Close` and a later `OpenReader` on the same files: the lists survive in any order of the maps. */
    method Reopen(termOrder: seq<int>, docOrder: seq<int>, format: FloatFormat) returns (reader: InvertedIndex)
      requires Valid() && Enumerates(termOrder, postingMetadata.Keys) && Enumerates(docOrder, lenFieldInDoc.Keys)
      requires Fits32(Meta())
      modifies this`average
      ensures fresh(reader) && reader.Valid() && reader.lists == lists && reader.currTermPosition == 0
      ensures reader.Meta() == Meta() && reader.file == file
    {
      var bytes := SerializeMetadata(termOrder, docOrder, format);
      MetadataRoundTripIff(Meta(), termOrder, docOrder);
      reader := OpenReader(bytes, file, lists);
    }
  }

  /** A reader on the index file and on a metadata buffer that describes it. */
  method OpenReader(bytes: seq<byte>, file: seq<byte>, ghost lists: map<int, seq<Int64>>)
    returns (reader: InvertedIndex)
    requires Complete(LITTLE_ENDIAN, bytes) && |Parse(LITTLE_ENDIAN, bytes).average| == 8
    requires AllHeld(file, Parse(LITTLE_ENDIAN, bytes).postings, lists)
    requires forall t: int :: t in Parse(LITTLE_ENDIAN, bytes).terms <==> t in lists
    ensures fresh(reader) && reader.Valid() && reader.lists == lists && reader.currTermPosition == 0
    ensures reader.Meta() == Parse(LITTLE_ENDIAN, bytes) && reader.file == file
  {
    reader := new InvertedIndex(map[]);
    reader.DeserializeMetadata(bytes);
    reader.file, reader.lists := file, lists;
  }

  // ----- filling and reading the buffer at a moving position -----

  method PutUint32(c: Codec, buf: array<byte>, pos: nat, v: int)
    requires Sound(c) && pos + 4 <= buf.Length
    modifies buf
    ensures buf[..pos + 4] == old(buf[..pos]) + c.enc(v)
  {
    var b := c.enc(v);
    buf[pos], buf[pos + 1], buf[pos + 2], buf[pos + 3] := b[0], b[1], b[2], b[3];
    assert buf[..pos] == old(buf[..pos]) && buf[pos..pos + 4] == b;
  }

  method PutTerms(c: Codec, buf: array<byte>, pos: nat, terms: seq<int>)
    requires Sound(c) && pos + 4 * |terms| <= buf.Length
    modifies buf
    ensures buf[..pos + 4 * |terms|] == old(buf[..pos]) + Written(terms, c.enc)
  {
    var leftPos := pos;
    ghost var front := buf[..pos];
    for i := 0 to |terms|
      invariant leftPos == pos + 4 * i && buf[..leftPos] == front + Written(terms[..i], c.enc)
    {
      PutUint32(c, buf, leftPos, terms[i]);
      leftPos := leftPos + 4;
      assert terms[..i + 1] == terms[..i] + [terms[i]];
      WrittenMore(terms[..i], terms[i], c.enc);
    }
    assert terms[..|terms|] == terms;
  }

  method PutPosting(c: Codec, buf: array<byte>, pos: nat, term: int, p: Posting)
    requires Sound(c) && pos + 16 <= buf.Length
    modifies buf
    ensures buf[..pos + 16] == old(buf[..pos]) + PostingBytes(c)((term, p))
  {
    ghost var front := buf[..pos];
    PutUint32(c, buf, pos, term);
    PutUint32(c, buf, pos + 4, p.bytes);
    PutUint32(c, buf, pos + 8, p.length);
    PutUint32(c, buf, pos + 12, p.start);
    assert buf[..pos + 16] == front + c.enc(term) + c.enc(p.bytes) + c.enc(p.length) + c.enc(p.start);
  }

  lemma NothingWritten<V>(enc: ((int, V)) -> seq<byte>, order: seq<int>, m: map<int, V>)
    requires forall t: int :: t in order ==> t in m
    ensures Written(PairsOf(order[..0], m), enc) == []
  {
  }

  method PutPostings(c: Codec, buf: array<byte>, pos: nat, order: seq<int>, postings: map<int, Posting>)
    requires Sound(c) && pos + 16 * |order| <= buf.Length && forall t: int :: t in order ==> t in postings
    modifies buf
    ensures buf[..pos + 16 * |order|] == old(buf[..pos]) + Written(PairsOf(order, postings), PostingBytes(c))
  {
    hide Written, PairsOf;
    NothingWritten(PostingBytes(c), order, postings);
    var leftPos := pos;
    ghost var front := buf[..pos];
    for i := 0 to |order|
      invariant leftPos == pos + 16 * i &&
        buf[..leftPos] == front + Written(PairsOf(order[..i], postings), PostingBytes(c))
    {
      PairsMore(order, i, postings, PostingBytes(c));
      var term: int := order[i];
      PutPosting(c, buf, leftPos, term, postings[term]);
      leftPos := leftPos + 16;
    }
    assert order[..|order|] == order;
  }

  method PutLen(c: Codec, buf: array<byte>, pos: nat, doc: int, length: int)
    requires Sound(c) && pos + 8 <= buf.Length
    modifies buf
    ensures buf[..pos + 8] == old(buf[..pos]) + LenBytes(c)((doc, length))
  {
    ghost var front := buf[..pos];
    PutUint32(c, buf, pos, doc);
    PutUint32(c, buf, pos + 4, length);
    assert buf[..pos + 8] == front + c.enc(doc) + c.enc(length);
  }

  method PutLens(c: Codec, buf: array<byte>, pos: nat, order: seq<int>, lens: map<int, int>)
    requires Sound(c) && pos + 8 * |order| <= buf.Length && forall d: int :: d in order ==> d in lens
    modifies buf
    ensures buf[..pos + 8 * |order|] == old(buf[..pos]) + Written(PairsOf(order, lens), LenBytes(c))
  {
    var leftPos := pos;
    ghost var front := buf[..pos];
    for i := 0 to |order|
      invariant leftPos == pos + 8 * i && buf[..leftPos] == front + Written(PairsOf(order[..i], lens), LenBytes(c))
    {
      PairsMore(order, i, lens, LenBytes(c));
      var doc: int := order[i];
      PutLen(c, buf, leftPos, doc, lens[doc]);
      leftPos := leftPos + 8;
    }
    assert order[..|order|] == order;
  }

  method PutHeader(c: Codec, buf: array<byte>, nt: nat, np: nat, nl: nat)
    requires Sound(c) && 12 <= buf.Length
    modifies buf
    ensures buf[..12] == Header(c, nt, np, nl)
  {
    PutUint32(c, buf, 0, nt);
    PutUint32(c, buf, 4, np);
    PutUint32(c, buf, 8, nl);
    assert buf[..12] == c.enc(nt) + c.enc(np) + c.enc(nl);
  }

  method PutUint64(buf: array<byte>, pos: nat, b: seq<byte>)
    requires |b| == 8 && pos + 8 <= buf.Length
    modifies buf
    ensures buf[..pos + 8] == old(buf[..pos]) + b
  {
    ghost var front := buf[..pos];
    for i := 0 to 8
      invariant buf[..pos + i] == front + b[..i]
    {
      buf[pos + i] := b[i];
      assert buf[..pos + i + 1] == buf[..pos + i] + [b[i]];
    }
  }

  method PutFront(c: Codec, buf: array<byte>, md: Metadata, p: nat)
    requires Sound(c) && p == 12 + 4 * |md.terms| && p <= buf.Length
    modifies buf
    ensures buf[..p] == Header(c, |md.terms|, |md.postings|, |md.lens|) + Written(md.terms, c.enc)
  {
    PutHeader(c, buf, |md.terms|, |md.postings|, |md.lens|);
    PutTerms(c, buf, 12, md.terms);
  }

  method PutParts(c: Codec, buf: array<byte>, md: Metadata, termOrder: seq<int>, docOrder: seq<int>, p: nat, l: nat,
                  a: nat)
    requires Sound(c) && InSomeOrder(md, termOrder, docOrder) && buf.Length == a + 8
    requires p == 12 + 4 * |md.terms| && l == p + 16 * |md.postings| && a == l + 8 * |md.lens|
    modifies buf
    ensures buf[..] == Header(c, |md.terms|, |md.postings|, |md.lens|) + Written(md.terms, c.enc) +
                       Written(PairsOf(termOrder, md.postings), PostingBytes(c)) +
                       Written(PairsOf(docOrder, md.lens), LenBytes(c)) + md.average
  {
    hide Written, PairsOf, Header;
    PutFront(c, buf, md, p);
    PutPostings(c, buf, p, termOrder, md.postings);
    PutLens(c, buf, l, docOrder, md.lens);
    PutUint64(buf, a, md.average);
    assert buf[..a + 8] == buf[..];
  }

  method Fill(c: Codec, md: Metadata, termOrder: seq<int>, docOrder: seq<int>, size: nat) returns (bytes: seq<byte>)
    requires Sound(c) && InSomeOrder(md, termOrder, docOrder)
    requires size == |Layout(c, md, termOrder, docOrder)|
    ensures bytes == Layout(c, md, termOrder, docOrder)
  {
    LayoutLength(c, md, termOrder, docOrder);
    var p := 12 + 4 * |md.terms|;
    var l := p + 16 * |md.postings|;
    var buf := new byte[size](_ => 0);
    PutParts(c, buf, md, termOrder, docOrder, p, l, l + 8 * |md.lens|);
    return buf[..];
  }

  method Unfill(c: Codec, buf: seq<byte>) returns (md: Metadata)
    requires Complete(c, buf)
    ensures md == Parse(c, buf)
  {
    md := UnfillParts(c, buf, c.dec(buf[0..4]), c.dec(buf[4..8]), c.dec(buf[8..12]));
  }

  method UnfillParts(c: Codec, buf: seq<byte>, nt: nat, np: nat, nl: nat) returns (md: Metadata)
    requires HasRoom(buf, nt, np, nl)
    ensures md == ParseParts(c, buf, nt, np, nl)
  {
    var p := 12 + 4 * nt;
    var l := p + 16 * np;
    var a := l + 8 * nl;
    EnoughToRead(buf, 12, nt, 4, c.dec);
    var terms := ReadList(buf, 12, nt, 4, c.dec);
    EnoughToRead(buf, p, np, 16, ToPosting(c));
    var postings := ReadMap(buf, p, np, 16, ToPosting(c));
    EnoughToRead(buf, l, nl, 8, ToLen(c));
    var lens := ReadMap(buf, l, nl, 8, ToLen(c));
    md := Metadata(terms, postings, lens, buf[a..a + 8]);
    PartsOf(c, buf, nt, np, nl, p, l, a);
  }
}
