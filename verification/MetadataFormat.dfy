/** The layout of the metadata file (`SerializeMetadata`, `DeserializeMetadata`). */
module MetadataFormat {
  import opened Compress
  import opened Records

  const TWO_32 := 0x1_0000_0000

  /** Where a posting list is: its first byte, its length and its length in bytes. */
  datatype Posting = Posting(start: int, length: int, bytes: int)

  /** `average` is the float's eight bytes. */
  datatype Metadata = Metadata(terms: seq<int>, postings: map<int, Posting>, lens: map<int, int>, average: seq<byte>)

  // ----- numbers of four bytes, least significant byte first -----

  /** The low 32 bits of `v`. */
  function U32(v: int): (b: seq<byte>)
    ensures |b| == 4
  {
    [v % 256, v / 256 % 256, v / 256 / 256 % 256, v / 256 / 256 / 256 % 256]
  }

  function Joined(b0: int, b1: int, b2: int, b3: int): int {
    b0 + 256 * (b1 + 256 * (b2 + 256 * b3))
  }

  function ToU32(b: seq<byte>): (v: int)
    ensures 0 <= v < TWO_32
  {
    if |b| != 4 then 0 else Joined(b[0], b[1], b[2], b[3])
  }

  lemma U32RoundTrip(v: int)
    requires 0 <= v < TWO_32
    ensures ToU32(U32(v)) == v
  {
    var w1, w2, w3 := v / 256, v / 256 / 256, v / 256 / 256 / 256;
    assert v == Joined(U32(v)[0], U32(v)[1], U32(v)[2], U32(v)[3]) + TWO_32 * (w3 / 256);
  }

  lemma LowPart(v: int, n: int, k: int)
    requires 0 <= n < TWO_32 && v == n + TWO_32 * k
    ensures n == v % TWO_32
  {
  }

  lemma FourBytes(v: int, w1: int, w2: int, w3: int, b0: int, b1: int, b2: int, b3: int, w4: int)
    requires v == b0 + 256 * w1 && w1 == b1 + 256 * w2 && w2 == b2 + 256 * w3 && w3 == b3 + 256 * w4
    ensures v == b0 + 0x100 * b1 + 0x1_0000 * b2 + 0x100_0000 * b3 + TWO_32 * w4
  {
  }

  /** Little-endian: the value of the bytes is the number modulo 2^32. */
  lemma U32IsLittleEndian(v: int)
    ensures var b0: int, b1: int, b2: int, b3: int := U32(v)[0], U32(v)[1], U32(v)[2], U32(v)[3];
      b0 + 0x100 * b1 + 0x1_0000 * b2 + 0x100_0000 * b3 == v % TWO_32
  {
    var w1, w2, w3 := v / 256, v / 256 / 256, v / 256 / 256 / 256;
    var b0: int, b1: int, b2: int, b3: int := U32(v)[0], U32(v)[1], U32(v)[2], U32(v)[3];
    FourBytes(v, w1, w2, w3, b0, b1, b2, b3, w3 / 256);
    LowPart(v, b0 + 0x100 * b1 + 0x1_0000 * b2 + 0x100_0000 * b3, w3 / 256);
  }

  lemma U32Fits(b: seq<byte>)
    ensures 0 <= ToU32(b) < TWO_32
  {
  }

  /** How a number is written and read. The layout is the same for every such pair. */
  datatype Codec = Codec(enc: int -> seq<byte>, dec: seq<byte> -> int)

  const LITTLE_ENDIAN := Codec(U32, ToU32)

  ghost predicate Sound(c: Codec) {
    (forall v: int :: |c.enc(v)| == 4) && (forall v: int :: 0 <= v < TWO_32 ==> c.dec(c.enc(v)) == v) &&
    (forall b: seq<byte> :: 0 <= c.dec(b) < TWO_32)
  }

  lemma LittleEndianIsSound()
    ensures Sound(LITTLE_ENDIAN)
  {
    forall v: int
      ensures |LITTLE_ENDIAN.enc(v)| == 4 && (0 <= v < TWO_32 ==> LITTLE_ENDIAN.dec(LITTLE_ENDIAN.enc(v)) == v)
    {
      if 0 <= v < TWO_32 { U32RoundTrip(v); }
    }
    forall b: seq<byte>
      ensures 0 <= LITTLE_ENDIAN.dec(b) < TWO_32
    {
      U32Fits(b);
    }
  }

  // ----- records -----

  /** A term, then the length in bytes, the length and the start of its list. */
  function PostingBytes(c: Codec): ((int, Posting)) -> seq<byte> {
    (e: (int, Posting)) => c.enc(e.0) + c.enc(e.1.bytes) + c.enc(e.1.length) + c.enc(e.1.start)
  }

  function ToPosting(c: Codec): seq<byte> -> (int, Posting) {
    (b: seq<byte>) => if |b| != 16 then (0, Posting(0, 0, 0)) else
      (c.dec(b[0..4]), Posting(c.dec(b[12..16]), c.dec(b[8..12]), c.dec(b[4..8])))
  }

  function LenBytes(c: Codec): ((int, int)) -> seq<byte> {
    (e: (int, int)) => c.enc(e.0) + c.enc(e.1)
  }

  function ToLen(c: Codec): seq<byte> -> (int, int) {
    (b: seq<byte>) => if |b| != 8 then (0, 0) else (c.dec(b[0..4]), c.dec(b[4..8]))
  }

  predicate Small(p: Posting) {
    0 <= p.start < TWO_32 && 0 <= p.length < TWO_32 && 0 <= p.bytes < TWO_32
  }

  lemma FourFields(a: seq<byte>, b: seq<byte>, c: seq<byte>, d: seq<byte>)
    requires |a| == |b| == |c| == |d| == 4
    ensures var s := a + b + c + d; s[0..4] == a && s[4..8] == b && s[8..12] == c && s[12..16] == d
  {
  }

  lemma PostingRoundTrip(c: Codec, e: (int, Posting))
    requires Sound(c)
    ensures |PostingBytes(c)(e)| == 16 && (0 <= e.0 < TWO_32 && Small(e.1) ==> ToPosting(c)(PostingBytes(c)(e)) == e)
  {
    var term: int := e.0;
    assert |c.enc(term)| == 4;
    FourFields(c.enc(term), c.enc(e.1.bytes), c.enc(e.1.length), c.enc(e.1.start));
  }

  lemma LenRoundTrip(c: Codec, e: (int, int))
    requires Sound(c)
    ensures |LenBytes(c)(e)| == 8 && (0 <= e.0 < TWO_32 && 0 <= e.1 < TWO_32 ==> ToLen(c)(LenBytes(c)(e)) == e)
  {
    var doc: int, length: int := e.0, e.1;
    var a, b := c.enc(doc), c.enc(length);
    assert |a| == 4 && |b| == 4;
    assert (a + b)[0..4] == a && (a + b)[4..8] == b;
  }

  // ----- the file -----

  /** `order` lists the keys once each, as an iteration over a map does. */
  ghost predicate Enumerates(order: seq<int>, keys: set<int>) {
    |order| == |keys| && (forall k: int :: k in order <==> k in keys)
  }

  ghost predicate InSomeOrder(md: Metadata, terms: seq<int>, docs: seq<int>) {
    Enumerates(terms, md.postings.Keys) && Enumerates(docs, md.lens.Keys) && |md.average| == 8
  }

  function Header(c: Codec, terms: int, postings: int, lens: int): (b: seq<byte>) {
    c.enc(terms) + c.enc(postings) + c.enc(lens)
  }

  function Layout(c: Codec, md: Metadata, terms: seq<int>, docs: seq<int>): (b: seq<byte>)
    requires forall t: int :: t in terms ==> t in md.postings
    requires forall d: int :: d in docs ==> d in md.lens
  {
    Header(c, |md.terms|, |md.postings|, |md.lens|) + Written(md.terms, c.enc) +
    Written(PairsOf(terms, md.postings), PostingBytes(c)) + Written(PairsOf(docs, md.lens), LenBytes(c)) + md.average
  }

  /** A buffer with room for `nt` terms, `np` postings and `nl` lengths. */
  predicate HasRoom(buf: seq<byte>, nt: int, np: int, nl: int) {
    0 <= nt && 0 <= np && 0 <= nl && |buf| >= 12 + 4 * nt + 16 * np + 8 * nl + 8
  }

  /** The buffer has room for what its header announces. */
  predicate Complete(c: Codec, buf: seq<byte>) {
    |buf| >= 12 && HasRoom(buf, c.dec(buf[0..4]), c.dec(buf[4..8]), c.dec(buf[8..12]))
  }

  function Parse(c: Codec, buf: seq<byte>): (md: Metadata)
    requires Complete(c, buf)
  {
    ParseParts(c, buf, c.dec(buf[0..4]), c.dec(buf[4..8]), c.dec(buf[8..12]))
  }

  function ParseParts(c: Codec, buf: seq<byte>, nt: nat, np: nat, nl: nat): (md: Metadata)
    requires HasRoom(buf, nt, np, nl)
  {
    var p := 12 + 4 * nt;
    var l := p + 16 * np;
    var a := l + 8 * nl;
    Metadata(Read(buf, 12, nt, 4, c.dec), MapOf(Read(buf, p, np, 16, ToPosting(c))),
             MapOf(Read(buf, l, nl, 8, ToLen(c))),
             buf[a..a + 8])
  }

  /** Every number in the metadata fits 32 bits. */
  predicate Fits32(md: Metadata) {
    |md.terms| < TWO_32 && |md.postings| < TWO_32 && |md.lens| < TWO_32 &&
    (forall t: int :: t in md.terms ==> 0 <= t < TWO_32) &&
    (forall t: int :: t in md.postings ==> 0 <= t < TWO_32 && Small(md.postings[t])) &&
    (forall d: int :: d in md.lens ==> 0 <= d < TWO_32 && 0 <= md.lens[d] < TWO_32)
  }

  /** The writer fills exactly the computed buffer. */
  lemma LayoutLength(c: Codec, md: Metadata, terms: seq<int>, docs: seq<int>)
    requires Sound(c) && InSomeOrder(md, terms, docs)
    ensures |Layout(c, md, terms, docs)| == 4 * 3 + 4 * |md.terms| + 4 * 4 * |md.postings| + 4 * 2 * |md.lens| + 8
    ensures |Written(md.terms, c.enc)| == 4 * |md.terms|
    ensures |Written(PairsOf(terms, md.postings), PostingBytes(c))| == 16 * |md.postings|
    ensures |Written(PairsOf(docs, md.lens), LenBytes(c))| == 8 * |md.lens|
  {
    forall t: int | t in md.terms ensures |c.enc(t)| == 4 { }
    LengthBy(md.terms, |md.terms|, 4, c.enc);
    forall e { PostingRoundTrip(c, e); }
    LengthBy(PairsOf(terms, md.postings), |md.postings|, 16, PostingBytes(c));
    forall e { LenRoundTrip(c, e); }
    LengthBy(PairsOf(docs, md.lens), |md.lens|, 8, LenBytes(c));
  }

  lemma HeaderRead(c: Codec, nt: nat, np: nat, nl: nat, buf: seq<byte>)
    requires Sound(c) && nt < TWO_32 && np < TWO_32 && nl < TWO_32 && Has(buf, 0, Header(c, nt, np, nl))
    ensures |buf| >= 12 && c.dec(buf[0..4]) == nt && c.dec(buf[4..8]) == np && c.dec(buf[8..12]) == nl
  {
    HasBoth(buf, 0, c.enc(nt) + c.enc(np), c.enc(nl));
    HasBoth(buf, 0, c.enc(nt), c.enc(np));
  }

  lemma TermsRead(c: Codec, buf: seq<byte>, terms: seq<int>)
    requires Sound(c) && Has(buf, 12, Written(terms, c.enc)) && forall t: int :: t in terms ==> 0 <= t < TWO_32
    ensures Read(buf, 12, |terms|, 4, c.dec) == terms
  {
    forall t: int | t in terms ensures |c.enc(t)| == 4 && c.dec(c.enc(t)) == t { }
    ReadWritten(buf, 12, terms, 4, c.enc, c.dec);
  }

  lemma PostingsRead(c: Codec, buf: seq<byte>, pos: nat, order: seq<int>, m: map<int, Posting>)
    requires Sound(c) && Enumerates(order, m.Keys) && forall t: int :: t in m ==> 0 <= t < TWO_32 && Small(m[t])
    requires Has(buf, pos, Written(PairsOf(order, m), PostingBytes(c)))
    ensures MapOf(Read(buf, pos, |m|, 16, ToPosting(c))) == m
  {
    forall t: int | t in m { PostingRoundTrip(c, (t, m[t])); }
    MapReadBack(buf, pos, order, m, 16, PostingBytes(c), ToPosting(c));
  }

  lemma LensRead(c: Codec, buf: seq<byte>, pos: nat, order: seq<int>, m: map<int, int>)
    requires Sound(c) && Enumerates(order, m.Keys) && forall d: int :: d in m ==> 0 <= d < TWO_32 && 0 <= m[d] < TWO_32
    requires Has(buf, pos, Written(PairsOf(order, m), LenBytes(c)))
    ensures MapOf(Read(buf, pos, |m|, 8, ToLen(c))) == m
  {
    forall d: int | d in m { LenRoundTrip(c, (d, m[d])); }
    MapReadBack(buf, pos, order, m, 8, LenBytes(c), ToLen(c));
  }

  lemma FiveParts(buf: seq<byte>, h: seq<byte>, t: seq<byte>, p: seq<byte>, l: seq<byte>, a: seq<byte>, i: nat, j: nat,
                  k: nat)
    requires buf == h + t + p + l + a && |h| == 12 && i == 12 + |t| && j == i + |p| && k == j + |l|
    ensures Has(buf, 0, h) && Has(buf, 12, t) && Has(buf, i, p) && Has(buf, j, l) && Has(buf, k, a)
  {
    HasBoth(buf, 0, h + t + p + l, a);
    HasBoth(buf, 0, h + t + p, l);
    HasBoth(buf, 0, h + t, p);
    HasBoth(buf, 0, h, t);
  }

  lemma PartsRead(c: Codec, md: Metadata, terms: seq<int>, docs: seq<int>, buf: seq<byte>, p: nat, l: nat, a: nat)
    requires Sound(c) && InSomeOrder(md, terms, docs) && Fits32(md) &&
      HasRoom(buf, |md.terms|, |md.postings|, |md.lens|)
    requires p == 12 + 4 * |md.terms| && l == p + 16 * |md.postings| && a == l + 8 * |md.lens|
    requires Has(buf, 12, Written(md.terms, c.enc)) &&
      Has(buf, p, Written(PairsOf(terms, md.postings), PostingBytes(c)))
    requires Has(buf, l, Written(PairsOf(docs, md.lens), LenBytes(c))) && Has(buf, a, md.average)
    ensures ParseParts(c, buf, |md.terms|, |md.postings|, |md.lens|) == md
  {
    hide MapOf, Written, PairsOf;
    TermsRead(c, buf, md.terms);
    PostingsRead(c, buf, p, terms, md.postings);
    LensRead(c, buf, l, docs, md.lens);
    Assembled(c, md, buf, p, l, a);
  }

  lemma PartsOf(c: Codec, buf: seq<byte>, nt: nat, np: nat, nl: nat, p: nat, l: nat, a: nat)
    requires HasRoom(buf, nt, np, nl) && p == 12 + 4 * nt && l == p + 16 * np && a == l + 8 * nl
    ensures ParseParts(c, buf, nt, np, nl) ==
      Metadata(Read(buf, 12, nt, 4, c.dec), MapOf(Read(buf, p, np, 16, ToPosting(c))),
               MapOf(Read(buf, l, nl, 8, ToLen(c))), buf[a..a + 8])
  {
  }

  lemma Assembled(c: Codec, md: Metadata, buf: seq<byte>, p: nat, l: nat, a: nat)
    requires HasRoom(buf, |md.terms|, |md.postings|, |md.lens|)
    requires p == 12 + 4 * |md.terms| && l == p + 16 * |md.postings| && a == l + 8 * |md.lens|
    requires Read(buf, 12, |md.terms|, 4, c.dec) == md.terms
    requires MapOf(Read(buf, p, |md.postings|, 16, ToPosting(c))) == md.postings
    requires MapOf(Read(buf, l, |md.lens|, 8, ToLen(c))) == md.lens
    requires buf[a..a + 8] == md.average
    ensures ParseParts(c, buf, |md.terms|, |md.postings|, |md.lens|) == md
  {
    PartsOf(c, buf, |md.terms|, |md.postings|, |md.lens|, p, l, a);
  }

  lemma LayoutParts(c: Codec, md: Metadata, terms: seq<int>, docs: seq<int>, p: nat, l: nat, a: nat)
    requires Sound(c) && InSomeOrder(md, terms, docs)
    requires p == 12 + 4 * |md.terms| && l == p + 16 * |md.postings| && a == l + 8 * |md.lens|
    ensures |Layout(c, md, terms, docs)| == a + 8 && Has(Layout(c, md, terms, docs), a, md.average)
    ensures Has(Layout(c, md, terms, docs), 0, Header(c, |md.terms|, |md.postings|, |md.lens|))
    ensures Has(Layout(c, md, terms, docs), 12, Written(md.terms, c.enc))
    ensures Has(Layout(c, md, terms, docs), p, Written(PairsOf(terms, md.postings), PostingBytes(c)))
    ensures Has(Layout(c, md, terms, docs), l, Written(PairsOf(docs, md.lens), LenBytes(c)))
  {
    LayoutLength(c, md, terms, docs);
    FiveParts(Layout(c, md, terms, docs), Header(c, |md.terms|, |md.postings|, |md.lens|), Written(md.terms, c.enc),
              Written(PairsOf(terms, md.postings), PostingBytes(c)), Written(PairsOf(docs, md.lens), LenBytes(c)),
              md.average, p, l, a);
  }

  lemma SmallComesBack(c: Codec, md: Metadata, terms: seq<int>, docs: seq<int>)
    requires Sound(c) && InSomeOrder(md, terms, docs) && Fits32(md)
    ensures Complete(c, Layout(c, md, terms, docs)) && Parse(c, Layout(c, md, terms, docs)) == md
  {
    var p := 12 + 4 * |md.terms|;
    var l := p + 16 * |md.postings|;
    var a := l + 8 * |md.lens|;
    LayoutParts(c, md, terms, docs, p, l, a);
    BufferComesBack(c, md, terms, docs, Layout(c, md, terms, docs), p, l, a);
  }

  lemma BufferComesBack(c: Codec, md: Metadata, terms: seq<int>, docs: seq<int>, buf: seq<byte>, p: nat, l: nat, a: nat)
    requires Sound(c) && InSomeOrder(md, terms, docs) && Fits32(md) && |buf| == a + 8
    requires p == 12 + 4 * |md.terms| && l == p + 16 * |md.postings| && a == l + 8 * |md.lens|
    requires Has(buf, 0, Header(c, |md.terms|, |md.postings|, |md.lens|)) && Has(buf, 12, Written(md.terms, c.enc))
    requires Has(buf, p, Written(PairsOf(terms, md.postings), PostingBytes(c)))
    requires Has(buf, l, Written(PairsOf(docs, md.lens), LenBytes(c))) && Has(buf, a, md.average)
    ensures Complete(c, buf) && Parse(c, buf) == md
  {
    HeaderRead(c, |md.terms|, |md.postings|, |md.lens|, buf);
    PartsRead(c, md, terms, docs, buf, p, l, a);
  }

  lemma PostingsFit(c: Codec, buf: seq<byte>, pos: nat, n: nat)
    requires Sound(c)
    ensures var m := MapOf(Read(buf, pos, n, 16, ToPosting(c)));
      |m| <= n && forall t: int :: t in m ==> 0 <= t < TWO_32 && Small(m[t])
  {
    MapReadAll(buf, pos, n, 16, ToPosting(c), (e: (int, Posting)) => 0 <= e.0 < TWO_32 && Small(e.1));
  }

  lemma LensFit(c: Codec, buf: seq<byte>, pos: nat, n: nat)
    requires Sound(c)
    ensures var m := MapOf(Read(buf, pos, n, 8, ToLen(c)));
      |m| <= n && forall d: int :: d in m ==> 0 <= d < TWO_32 && 0 <= m[d] < TWO_32
  {
    MapReadAll(buf, pos, n, 8, ToLen(c), (e: (int, int)) => 0 <= e.0 < TWO_32 && 0 <= e.1 < TWO_32);
  }

  lemma PartsFit(c: Codec, buf: seq<byte>, nt: nat, np: nat, nl: nat)
    requires Sound(c) && HasRoom(buf, nt, np, nl) && nt < TWO_32 && np < TWO_32 && nl < TWO_32
    ensures Fits32(ParseParts(c, buf, nt, np, nl))
  {
    ReadAll(buf, 12, nt, 4, c.dec, t => 0 <= t < TWO_32);
    PostingsFit(c, buf, 12 + 4 * nt, np);
    LensFit(c, buf, 12 + 4 * nt + 16 * np, nl);
  }

  /** Whatever the order of the maps, the metadata comes back exactly when its numbers fit. */
  lemma MetadataRoundTripIff(md: Metadata, terms: seq<int>, docs: seq<int>)
    requires InSomeOrder(md, terms, docs)
    ensures var buf := Layout(LITTLE_ENDIAN, md, terms, docs);
      Fits32(md) <==> Complete(LITTLE_ENDIAN, buf) && Parse(LITTLE_ENDIAN, buf) == md
  {
    LittleEndianIsSound();
    RoundTripIff(LITTLE_ENDIAN, md, terms, docs);
  }

  lemma RoundTripIff(c: Codec, md: Metadata, terms: seq<int>, docs: seq<int>)
    requires Sound(c) && InSomeOrder(md, terms, docs)
    ensures var buf := Layout(c, md, terms, docs); Fits32(md) <==> Complete(c, buf) && Parse(c, buf) == md
  {
    var buf := Layout(c, md, terms, docs);
    if Fits32(md) {
      SmallComesBack(c, md, terms, docs);
    } else if Complete(c, buf) {
      PartsFit(c, buf, c.dec(buf[0..4]), c.dec(buf[4..8]), c.dec(buf[8..12]));
    }
  }

  /** The file of one term with one posting list and of one document. */
  lemma LayoutOfOne(term: int, p: Posting, doc: int, length: int, average: seq<byte>)
    ensures Layout(LITTLE_ENDIAN, Metadata([term], map[term := p], map[doc := length], average), [term], [doc]) ==
      U32(1) + U32(1) + U32(1) + U32(term) +
      (U32(term) + U32(p.bytes) + U32(p.length) + U32(p.start)) + (U32(doc) + U32(length)) + average
  {
    var postings: map<int, Posting>, lens: map<int, int> := map[term := p], map[doc := length];
    WrittenOne(term, U32);
    WrittenOne((term, p), PostingBytes(LITTLE_ENDIAN));
    WrittenOne((doc, length), LenBytes(LITTLE_ENDIAN));
    assert PairsOf([term], postings) == [(term, p)] && PairsOf([doc], lens) == [(doc, length)];
  }

  lemma WrittenOne<X>(x: X, enc: X -> seq<byte>)
    ensures Written([x], enc) == enc(x)
  {
    assert [x][1..] == [];
  }
}
