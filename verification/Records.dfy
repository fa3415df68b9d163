/** Lists of records of a fixed width, written one after the other. */
module Records {
  import opened Compress

  function Written<X>(xs: seq<X>, enc: X -> seq<byte>): seq<byte> {
    if xs == [] then [] else enc(xs[0]) + Written(xs[1..], enc)
  }

  lemma {:induction false} WrittenMore<X>(xs: seq<X>, x: X, enc: X -> seq<byte>)
    ensures Written(xs + [x], enc) == Written(xs, enc) + enc(x)
  {
    if xs == [] {
      assert [] + [x] == [x] && [x][1..] == [];
    } else {
      assert (xs + [x])[1..] == xs[1..] + [x];
      WrittenMore(xs[1..], x, enc);
    }
  }

  /** `n` records of `w` bytes from `pos` on, as far as the buffer reaches. */
  function Read<X>(buf: seq<byte>, pos: nat, n: nat, w: nat, dec: seq<byte> -> X): (xs: seq<X>)
    decreases n
  {
    if n == 0 || pos + w > |buf| then [] else [dec(buf[pos..pos + w])] + Read(buf, pos + w, n - 1, w, dec)
  }

  ghost predicate Has(buf: seq<byte>, pos: nat, part: seq<byte>) {
    pos + |part| <= |buf| && buf[pos..pos + |part|] == part
  }

  lemma HasBoth(buf: seq<byte>, pos: nat, a: seq<byte>, b: seq<byte>)
    requires Has(buf, pos, a + b)
    ensures Has(buf, pos, a) && Has(buf, pos + |a|, b)
  {
    var s := buf[pos..pos + |a + b|];
    assert s[..|a|] == a && s[|a|..] == b;
  }

  lemma {:induction false} ReadWritten<X>(buf: seq<byte>, pos: nat, xs: seq<X>, w: nat, enc: X -> seq<byte>,
                                          dec: seq<byte> -> X)
    requires forall x :: x in xs ==> |enc(x)| == w && dec(enc(x)) == x
    requires Has(buf, pos, Written(xs, enc))
    ensures Read(buf, pos, |xs|, w, dec) == xs
    decreases |xs|
  {
    if xs != [] {
      HasBoth(buf, pos, enc(xs[0]), Written(xs[1..], enc));
      ReadWritten(buf, pos + w, xs[1..], w, enc, dec);
    }
  }

  lemma {:induction false} LengthBy<X>(xs: seq<X>, k: nat, w: nat, enc: X -> seq<byte>)
    requires k == |xs| && forall x :: x in xs ==> |enc(x)| == w
    ensures |Written(xs, enc)| == k * w
  {
    if xs != [] {
      LengthBy(xs[1..], k - 1, w, enc);
      assert |enc(xs[0])| == w && k * w == (k - 1) * w + w;
    } else {
      assert Written(xs, enc) == [];
    }
  }

  /** What holds of everything a decoder returns holds of everything read. */
  lemma {:induction false} ReadAll<X>(buf: seq<byte>, pos: nat, n: nat, w: nat, dec: seq<byte> -> X, p: X -> bool)
    requires forall b: seq<byte> :: p(dec(b))
    ensures |Read(buf, pos, n, w, dec)| <= n && forall x :: x in Read(buf, pos, n, w, dec) ==> p(x)
    decreases n
  {
    if n > 0 && pos + w <= |buf| {
      ReadAll(buf, pos + w, n - 1, w, dec, p);
    }
  }

  // ----- maps as lists of pairs -----

  lemma {:induction false} MapOfMembers<V>(ps: seq<(int, V)>)
    ensures |MapOf(ps)| <= |ps| && forall k: int :: k in MapOf(ps) ==> (k, MapOf(ps)[k]) in ps
  {
    if ps != [] {
      MapOfMembers(ps[..|ps| - 1]);
      assert ps[|ps| - 1] == (ps[|ps| - 1].0, ps[|ps| - 1].1);
    }
  }

  lemma MapReadAll<V>(buf: seq<byte>, pos: nat, n: nat, w: nat, dec: seq<byte> -> (int, V), p: ((int, V)) -> bool)
    requires forall b: seq<byte> :: p(dec(b))
    ensures var m := MapOf(Read(buf, pos, n, w, dec)); |m| <= n && forall k: int :: k in m ==> p((k, m[k]))
  {
    ReadAll(buf, pos, n, w, dec, p);
    MapOfMembers(Read(buf, pos, n, w, dec));
  }

  function PairsOf<V>(order: seq<int>, m: map<int, V>): (ps: seq<(int, V)>)
    requires forall k: int :: k in order ==> k in m
    ensures |ps| == |order|
  {
    if order == [] then [] else
    var last := order[|order| - 1];
    assert last in order;
    PairsOf(order[..|order| - 1], m) + [(last, m[last])]
  }

  /** Later pairs win. */
  function MapOf<V>(ps: seq<(int, V)>): (m: map<int, V>)
  {
    if ps == [] then map[] else
    var m := MapOf(ps[..|ps| - 1]);
    var (k, v) := ps[|ps| - 1];
    m[k := v]
  }

  lemma {:induction false} MapOfPairs<V>(order: seq<int>, m: map<int, V>)
    requires forall k: int :: k in order ==> k in m
    ensures var r := MapOf(PairsOf(order, m)); forall k: int :: (k in r <==> k in order) && (k in r ==> r[k] == m[k])
  {
    if order != [] {
      var n := |order| - 1;
      assert order == order[..n] + [order[n]];
      MapOfPairs(order[..n], m);
      assert PairsOf(order, m)[..n] == PairsOf(order[..n], m);
    }
  }

  lemma MapOfAllPairs<V>(order: seq<int>, m: map<int, V>)
    requires forall k: int :: k in order <==> k in m
    ensures MapOf(PairsOf(order, m)) == m
  {
    MapOfPairs(order, m);
    var r := MapOf(PairsOf(order, m));
    forall k: int
      ensures k in r.Keys <==> k in m.Keys
      ensures k in r ==> r[k] == m[k]
    {
      assert k in r <==> k in order;
    }
    SameMaps(r, m);
  }

  lemma SameMaps<V>(a: map<int, V>, b: map<int, V>)
    requires forall k: int :: k in a.Keys <==> k in b.Keys
    requires forall k: int :: k in a ==> a[k] == b[k]
    ensures a == b
  {
    forall k: int
      ensures k in a.Keys <==> k in b.Keys
    {
    }
    assert a.Keys == b.Keys;
    forall k: int | k in a
      ensures a[k] == b[k]
    {
    }
  }

  lemma PairsMore<V>(order: seq<int>, i: nat, m: map<int, V>, enc: ((int, V)) -> seq<byte>)
    requires i < |order| && forall k: int :: k in order ==> k in m
    ensures order[i] in order
    ensures Written(PairsOf(order[..i + 1], m), enc) ==
      Written(PairsOf(order[..i], m), enc) + enc((order[i], m[order[i]]))
  {
    var k := order[i];
    assert k in order && order[..i + 1][..i] == order[..i];
    WrittenMore(PairsOf(order[..i], m), (k, m[k]), enc);
  }

  lemma {:induction false} PairsRoundTrip<V>(order: seq<int>, m: map<int, V>, w: nat, enc: ((int, V)) -> seq<byte>,
                                             dec: seq<byte> -> (int, V))
    requires forall k: int :: k in order ==> k in m && |enc((k, m[k]))| == w && dec(enc((k, m[k]))) == (k, m[k])
    ensures forall e :: e in PairsOf(order, m) ==> |enc(e)| == w && dec(enc(e)) == e
  {
    if order != [] {
      PairsRoundTrip(order[..|order| - 1], m, w, enc, dec);
      assert order[|order| - 1] in order;
    }
  }

  /** A map written in any order of its keys is read back. */
  lemma MapReadBack<V>(buf: seq<byte>, pos: nat, order: seq<int>, m: map<int, V>, w: nat, enc: ((int, V)) -> seq<byte>,
                       dec: seq<byte> -> (int, V))
    requires |order| == |m| && (forall k: int :: k in order <==> k in m)
    requires forall k: int :: k in m ==> |enc((k, m[k]))| == w && dec(enc((k, m[k]))) == (k, m[k])
    requires Has(buf, pos, Written(PairsOf(order, m), enc))
    ensures MapOf(Read(buf, pos, |m|, w, dec)) == m
  {
    MapOfAllPairs(order, m);
    PairsRoundTrip(order, m, w, enc, dec);
    ReadWritten(buf, pos, PairsOf(order, m), w, enc, dec);
  }

  lemma MapOfMore<V>(ps: seq<(int, V)>, k: int, v: V)
    ensures MapOf(ps + [(k, v)]) == MapOf(ps)[k := v]
  {
    assert (ps + [(k, v)])[..|ps|] == ps;
  }

  lemma Reassociate<X>(a: seq<X>, x: X, b: seq<X>)
    ensures a + ([x] + b) == (a + [x]) + b
  {
  }

  lemma EnoughToRead<X>(buf: seq<byte>, pos: nat, n: nat, w: nat, dec: seq<byte> -> X)
    requires pos + n * w <= |buf|
    ensures |Read(buf, pos, n, w, dec)| == n
    decreases n
  {
    if n > 0 {
      assert n * w == (n - 1) * w + w;
      EnoughToRead(buf, pos + w, n - 1, w, dec);
    }
  }

  /** Reads `n` records of `w` bytes at a moving position. */
  method ReadList<X>(buf: seq<byte>, pos: nat, n: nat, w: nat, dec: seq<byte> -> X) returns (xs: seq<X>)
    requires |Read(buf, pos, n, w, dec)| == n
    ensures xs == Read(buf, pos, n, w, dec)
  {
    xs := [];
    var leftPos: nat := pos;
    for i := 0 to n
      invariant |Read(buf, leftPos, n - i, w, dec)| == n - i
      invariant xs + Read(buf, leftPos, n - i, w, dec) == Read(buf, pos, n, w, dec)
    {
      Reassociate(xs, dec(buf[leftPos..leftPos + w]), Read(buf, leftPos + w, n - i - 1, w, dec));
      xs := xs + [dec(buf[leftPos..leftPos + w])];
      leftPos := leftPos + w;
    }
  }

  /** Reads `n` entries of `w` bytes into a map. */
  method ReadMap<V>(buf: seq<byte>, pos: nat, n: nat, w: nat, dec: seq<byte> -> (int, V)) returns (m: map<int, V>)
    requires |Read(buf, pos, n, w, dec)| == n
    ensures m == MapOf(Read(buf, pos, n, w, dec))
  {
    m := map[];
    ghost var ps: seq<(int, V)> := [];
    var leftPos: nat := pos;
    for i := 0 to n
      invariant |Read(buf, leftPos, n - i, w, dec)| == n - i && m == MapOf(ps)
      invariant ps + Read(buf, leftPos, n - i, w, dec) == Read(buf, pos, n, w, dec)
    {
      var e := dec(buf[leftPos..leftPos + w]);
      Reassociate(ps, e, Read(buf, leftPos + w, n - i - 1, w, dec));
      MapOfMore(ps, e.0, e.1);
      m, ps, leftPos := m[e.0 := e.1], ps + [e], leftPos + w;
    }
    assert ps + [] == ps;
  }
}
