/** The two codecs for posting lists (`compress.go`). Bytes are numbers, so masking and shifting are
    written as remainder, product and quotient. */
module Compress {
  import opened Wrappers

  type byte = b: int | 0 <= b < 0x100
  const TWO_63 := 0x8000_0000_0000_0000
  const TWO_64 := 0x1_0000_0000_0000_0000
  type Uint64 = x: int | 0 <= x < TWO_64
  type Int64 = x: int | -TWO_63 <= x < TWO_63

  /** Conversions keep the 64 bits. */
  function ToUint64(x: Int64): (u: Uint64)
    ensures u % TWO_64 == x % TWO_64
  {
    if x < 0 then x + TWO_64 else x
  }

  function ToInt64(x: Uint64): (i: Int64)
    ensures i % TWO_64 == x % TWO_64
  {
    if x < TWO_63 then x else x - TWO_64
  }

  /** Signed arithmetic keeps the low 64 bits. */
  function Wrap(x: int): Int64 {
    ToInt64(x % TWO_64)
  }

  function Pow128(k: nat): (p: nat)
    ensures p >= 1
  {
    if k == 0 then 1 else 128 * Pow128(k - 1)
  }

  // ----- unsigned LEB128, section 7.6 of DWARF Version 4 -----

  /** Groups of seven bits, low-order group first, the high bit set on all but the last. */
  function Leb128(x: nat): (bytes: seq<byte>)
    ensures bytes != []
  {
    if x < 128 then [x] else [x % 128 + 128] + Leb128(x / 128)
  }

  lemma {:induction false} Leb128Length(x: nat, k: nat)
    requires x < 128 * Pow128(k)
    ensures |Leb128(x)| <= k + 1
    decreases k
  {
    if k > 0 && x >= 128 {
      Leb128Length(x / 128, k - 1);
    }
  }

  /** A 64-bit number takes at most ten bytes. */
  lemma TenBytesSuffice(x: Uint64)
    ensures |Leb128(x)| <= 10
  {
    assert Pow128(9) == TWO_63 by { Pow128Of9(); }
    Leb128Length(x, 9);
  }

  lemma Pow128Of9()
    ensures Pow128(9) == TWO_63
  {
    assert Pow128(3) == 0x20_0000;
    assert Pow128(6) == 0x400_0000_0000;
  }

  lemma Regroup(a: seq<byte>, b: seq<byte>, c: seq<byte>)
    ensures a + b + c == a + (b + c)
  {
  }

  /** Taking the lowest group off: after nine groups one bit is left. */
  lemma LowestGroup(x: nat, i: nat)
    requires i < 10 && x < 2 * Pow128(9 - i)
    ensures if i < 9 then x / 128 < 2 * Pow128(9 - (i + 1)) else x < 2
    ensures Leb128(x) == if x / 128 == 0 then [x % 128] else [x % 128 + 128] + Leb128(x / 128)
  {
  }

  /** The loop stops by its tenth step, so the tenth byte needs one bit only. */
  method EncodeUVarint(x: Uint64) returns (bytes: seq<byte>)
    ensures bytes == Leb128(x) && |bytes| <= 10
  {
    hide Leb128, Pow128;
    TenBytesSuffice(x);
    Pow128Of9();
    var rest: Uint64 := x;
    var i := 0;
    var buf := new byte[11](_ => 0);
    while i < 10
      invariant 0 <= i < 10 && buf[..i] + Leb128(rest) == Leb128(x) && rest < 2 * Pow128(9 - i)
      decreases 10 - i
    {
      ghost var written, before := buf[..i], rest;
      LowestGroup(before, i);
      buf[i] := (if i < 9 then rest % 128 else rest % 2) + 128;
      assert buf[..i] == written && buf[..i + 1] == written + [buf[i]];
      rest := if i < 9 then rest / 128 else rest / 2;
      if rest == 0 {
        assert Leb128(before) == [buf[i] % 128];
        break;
      }
      assert Leb128(before) == [buf[i]] + Leb128(rest);
      Regroup(written, [buf[i]], Leb128(rest));
      i := i + 1;
    }
    ghost var written := buf[..i];
    buf[i] := buf[i] % 128;
    assert buf[..i + 1] == written + [buf[i]];
    return buf[..i + 1];
  }

  // ----- reading one number -----

  /** How many bytes at the front have the high bit. */
  function Leading(bytes: seq<byte>): (k: nat)
    ensures k <= |bytes| && (forall i :: 0 <= i < k ==> bytes[i] >= 128) && (k < |bytes| ==> bytes[k] < 128)
  {
    if bytes == [] || bytes[0] < 128 then 0 else 1 + Leading(bytes[1..])
  }

  /** The number in groups of seven bits, low-order group first. */
  function ValueOf(bytes: seq<byte>): (v: nat)
    ensures v < Pow128(|bytes|)
  {
    if bytes == [] then 0 else bytes[0] % 128 + 128 * ValueOf(bytes[1..])
  }

  lemma TimesAssociates(a: int, b: int, c: int)
    ensures a * (b * c) == (a * b) * c
  {
  }

  lemma {:induction false} ValueOfSnoc(bytes: seq<byte>, b: byte)
    ensures ValueOf(bytes + [b]) == ValueOf(bytes) + Pow128(|bytes|) * (b % 128)
  {
    if bytes == [] {
      assert [] + [b] == [b] && [b][1..] == [];
    } else {
      assert (bytes + [b])[1..] == bytes[1..] + [b];
      ValueOfSnoc(bytes[1..], b);
      TimesAssociates(128, Pow128(|bytes| - 1), b % 128);
    }
  }

  lemma LeadingSplit(bytes: seq<byte>, k: nat)
    requires k <= |bytes| && (forall i :: 0 <= i < k ==> bytes[i] >= 128) && (k < |bytes| ==> bytes[k] < 128)
    ensures Leading(bytes) == k
  {
  }

  /** The value fits 64 bits when it has at most ten groups and the tenth is a single bit. */
  predicate Fits(bytes: seq<byte>) {
    |bytes| <= 9 || (|bytes| == 10 && bytes[9] <= 1)
  }

  lemma FitsIn64(bytes: seq<byte>)
    requires Fits(bytes)
    ensures ValueOf(bytes) < TWO_64
  {
    Pow128Of9();
    if |bytes| == 10 {
      assert bytes == bytes[..9] + [bytes[9]];
      ValueOfSnoc(bytes[..9], bytes[9]);
    } else {
      PowGrows(|bytes|, 9);
    }
  }

  lemma {:induction false} PowGrows(j: nat, k: nat)
    requires j <= k
    ensures Pow128(j) <= Pow128(k)
  {
    if j < k { PowGrows(j, k - 1); }
  }

  /** `binary.Uvarint`: the value and the number of bytes read, 0 bytes when the input ends too
      early and a negative number when the value does not fit 64 bits. */
  function Uvarint(buf: seq<byte>): (r: (Uint64, int))
    ensures r.1 <= |buf| && (r.1 == 0 <==> Leading(buf) == |buf| <= 10)
  {
    var k := Leading(buf);
    if k >= 10 && |buf| > 10 then (0, -11)
    else if k == |buf| then (0, 0)
    else if !Fits(buf[..k + 1]) then (0, -10)
    else
      FitsIn64(buf[..k + 1]);
      (ValueOf(buf[..k + 1]), k + 1)
  }

  lemma OneMoreGroup(buf: seq<byte>, i: nat)
    requires i < |buf|
    ensures ValueOf(buf[..i + 1]) == ValueOf(buf[..i]) + Pow128(i) * (buf[i] % 128)
    ensures i < 9 ==> ValueOf(buf[..i + 1]) < TWO_63
  {
    assert buf[..i + 1] == buf[..i] + [buf[i]];
    ValueOfSnoc(buf[..i], buf[i]);
    TenGroups(buf[..i + 1]);
  }

  /** What the first byte without the high bit decides. */
  lemma LastGroupRead(buf: seq<byte>, i: nat)
    requires i < |buf| && i < 10 && buf[i] < 128 && forall j :: 0 <= j < i ==> buf[j] >= 128
    ensures if i == 9 && buf[i] > 1 then Uvarint(buf) == (0, -10)
            else ValueOf(buf[..i + 1]) < TWO_64 && Uvarint(buf) == (ValueOf(buf[..i + 1]), i + 1)
  {
    LeadingSplit(buf, i);
    if !(i == 9 && buf[i] > 1) {
      FitsIn64(buf[..i + 1]);
    }
  }

  method DecodeUVarint(buf: seq<byte>) returns (v: Uint64, n: int)
    ensures (v, n) == Uvarint(buf)
  {
    hide ValueOf;
    var x: Uint64, scale: int := 0, 1;
    for i := 0 to |buf|
      invariant i <= 10 && forall j :: 0 <= j < i ==> buf[j] >= 128
      invariant scale == Pow128(i) && (i < 10 ==> x == ValueOf(buf[..i]))
    {
      if i == 10 {
        LeadingOver(buf, i);
        return 0, -11;
      }
      OneMoreGroup(buf, i);
      var group: int := scale * (buf[i] % 128);
      if buf[i] < 128 {
        LastGroupRead(buf, i);
        if i == 9 && buf[i] > 1 {
          return 0, -10;
        }
        return x + group, i + 1;
      }
      x := (x + group) % TWO_64;
      scale := scale * 128;
    }
    LeadingSplit(buf, |buf|);
    return 0, 0;
  }

  lemma LeadingOver(buf: seq<byte>, i: nat)
    requires i < |buf| && forall j :: 0 <= j < i ==> buf[j] >= 128
    ensures Leading(buf) >= i
  {
  }

  lemma TenGroups(bytes: seq<byte>)
    ensures |bytes| <= 9 ==> ValueOf(bytes) < TWO_63
  {
    if |bytes| <= 9 {
      Pow128Of9();
      PowGrows(|bytes|, 9);
    }
  }

  /** Reading back what was written leaves exactly the bytes that follow. */
  lemma {:induction false} LebShape(x: nat, rest: seq<byte>)
    ensures Leading(Leb128(x) + rest) == |Leb128(x)| - 1 && ValueOf(Leb128(x)) == x
  {
    if x < 128 {
      LastByte(x, rest);
    } else {
      var tail := Leb128(x / 128);
      LebShape(x / 128, rest);
      OneMoreByte(x % 128 + 128, tail, rest);
    }
  }

  lemma LastByte(b: byte, rest: seq<byte>)
    requires b < 128
    ensures Leading([b] + rest) == 0 && ValueOf([b]) == b
  {
    assert ([b] + rest)[0] == b && [b][1..] == [];
  }

  lemma OneMoreByte(b: byte, tail: seq<byte>, rest: seq<byte>)
    requires b >= 128
    ensures Leading([b] + tail + rest) == 1 + Leading(tail + rest) &&
      ValueOf([b] + tail) == b - 128 + 128 * ValueOf(tail)
  {
    assert ([b] + tail + rest)[1..] == tail + rest && ([b] + tail)[1..] == tail;
  }

  lemma DecodesEncoding(x: Uint64, rest: seq<byte>)
    ensures Uvarint(Leb128(x) + rest) == (x, |Leb128(x)|)
  {
    var e := Leb128(x);
    var k := |e| - 1;
    LebShape(x, rest);
    TenBytesSuffice(x);
    assert (e + rest)[..k + 1] == e;
    if |e| == 10 {
      LastGroup(x, 9);
    }
  }

  lemma {:induction false} LastGroup(x: nat, k: nat)
    requires |Leb128(x)| == k + 1 && x < 2 * Pow128(k)
    ensures Leb128(x)[k] <= 1
    decreases k
  {
    if k > 0 {
      LastGroup(x / 128, k - 1);
    }
  }

  // ----- posting lists -----

  function Encoded(numbers: seq<Int64>): (bytes: seq<byte>)
    ensures numbers != [] ==> bytes != []
  {
    if numbers == [] then [] else Leb128(ToUint64(numbers[0])) + Encoded(numbers[1..])
  }

  /** None stands for the panic on a negative count. */
  function Decoded(buf: seq<byte>): Option<seq<Int64>>
    decreases |buf|
  {
    if buf == [] then Some([]) else
    var (v, n) := Uvarint(buf);
    if n == 0 then Some([])
    else if n < 0 then None
    else
      var rest := Decoded(buf[n..]);
      if rest == None then None else Some([ToInt64(v)] + rest.value)
  }

  /** Every list of 64-bit integers comes back, negative ones included. */
  lemma {:induction false} DecodedEncoded(numbers: seq<Int64>)
    ensures Decoded(Encoded(numbers)) == Some(numbers)
  {
    if numbers != [] {
      var head, rest := Leb128(ToUint64(numbers[0])), Encoded(numbers[1..]);
      DecodesEncoding(ToUint64(numbers[0]), rest);
      DecodedEncoded(numbers[1..]);
      assert (head + rest)[|head|..] == rest;
      assert numbers == [numbers[0]] + numbers[1..];
    }
  }

  lemma {:induction false} EncodedMore(numbers: seq<Int64>, x: Int64)
    ensures Encoded(numbers + [x]) == Encoded(numbers) + Leb128(ToUint64(x))
  {
    if numbers == [] {
      assert [] + [x] == [x] && [x][1..] == [];
    } else {
      assert (numbers + [x])[1..] == numbers[1..] + [x];
      EncodedMore(numbers[1..], x);
    }
  }

  method EncodePostingsList(postings: seq<Int64>) returns (bytes: seq<byte>)
    ensures bytes == Encoded(postings)
  {
    bytes := [];
    for i := 0 to |postings|
      invariant bytes == Encoded(postings[..i])
    {
      assert postings[..i + 1] == postings[..i] + [postings[i]];
      EncodedMore(postings[..i], postings[i]);
      var one := EncodeUVarint(ToUint64(postings[i]));
      bytes := bytes + one;
    }
    assert postings[..|postings|] == postings;
  }

  lemma RegroupOne(a: seq<Int64>, x: Int64, rest: Option<seq<Int64>>)
    ensures rest.Some? ==> a + ([x] + rest.value) == (a + [x]) + rest.value
  {
  }

  method DecodePostingsList(bytes: seq<byte>) returns (numbers: Option<seq<Int64>>)
    ensures numbers == Decoded(bytes)
  {
    var buf, results := bytes, [];
    assert Decoded(bytes).Some? ==> results + Decoded(bytes).value == Decoded(bytes).value;
    while |buf| > 0
      invariant Decoded(bytes) == if Decoded(buf) == None then None else Some(results + Decoded(buf).value)
      decreases |buf|
    {
      var v, n := DecodeUVarint(buf);
      if n == 0 {
        assert results + [] == results;
        break;
      }
      if n < 0 {
        return None;
      }
      RegroupOne(results, ToInt64(v), Decoded(buf[n..]));
      results := results + [ToInt64(v)];
      buf := buf[n..];
    }
    assert results + [] == results;
    return Some(results);
  }

  // ----- the second codec: groups of seven bits, high-order group first, the last one marked -----

  function Digits(n: nat): (groups: seq<byte>)
    ensures groups != []
  {
    if n < 128 then [n] else Digits(n / 128) + [n % 128]
  }

  function Marked(groups: seq<byte>): seq<byte>
    requires groups != [] && groups[|groups| - 1] < 128
  {
    groups[|groups| - 1 := groups[|groups| - 1] + 128]
  }

  /** A negative number is cut to its low seven bits. */
  function Stored(n: Int64): (s: Int64)
    ensures s == n <==> n >= 0
  {
    if n < 0 then n % 128 else n
  }

  lemma {:induction false} DigitsAreSmall(n: nat)
    ensures forall i :: 0 <= i < |Digits(n)| ==> Digits(n)[i] < 128
  {
    if n >= 128 {
      DigitsAreSmall(n / 128);
    }
  }

  function VarByte(n: Int64): (bytes: seq<byte>)
  {
    DigitsAreSmall(Stored(n));
    Marked(Digits(Stored(n)))
  }

  method VbEncodeNum(n: Int64) returns (buf: seq<byte>)
    ensures buf == VarByte(n)
  {
    DigitsAreSmall(Stored(n));
    var rest := n;
    buf := [];
    while true
      invariant n < 0 ==> rest == n && buf == []
      invariant n >= 0 ==> rest >= 0 && Digits(rest) + buf == Digits(n)
      decreases if rest < 0 then 0 else rest
    {
      buf := [rest % 128] + buf;
      if rest < 128 {
        break;
      }
      assert Digits(rest / 128) + buf == Digits(n);
      rest := rest / 128;
    }
    assert buf == Digits(Stored(n));
    buf := buf[|buf| - 1 := buf[|buf| - 1] % 128 + 128];
  }

  function VbDecodedFrom(bytes: seq<byte>, n: Int64): (numbers: seq<Int64>) {
    if bytes == [] then []
    else if bytes[0] < 128 then VbDecodedFrom(bytes[1..], Wrap(n * 128 + bytes[0]))
    else [Wrap(n * 128 + bytes[0] - 128)] + VbDecodedFrom(bytes[1..], 0)
  }

  method VbDecode(bytes: seq<byte>) returns (numbers: seq<Int64>)
    ensures numbers == VbDecodedFrom(bytes, 0)
  {
    numbers := [];
    var n: Int64 := 0;
    for i := 0 to |bytes|
      invariant VbDecodedFrom(bytes, 0) == numbers + VbDecodedFrom(bytes[i..], n)
    {
      assert bytes[i..][1..] == bytes[i + 1..];
      if bytes[i] < 128 {
        n := Wrap(n * 128 + bytes[i]);
      } else {
        n := Wrap(n * 128 + (bytes[i] - 128));
        numbers := numbers + [n];
        n := 0;
      }
    }
  }

  lemma SmallIsKept(n: int)
    requires 0 <= n < TWO_63
    ensures Wrap(n) == n && Wrap(n / 128 * 128 + n % 128) == n
  {
  }

  lemma ReadGroup(b: byte, rest: seq<byte>, n: Int64)
    ensures VbDecodedFrom([b] + rest, n) ==
      if b < 128 then VbDecodedFrom(rest, Wrap(n * 128 + b)) else [Wrap(n * 128 + b - 128)] + VbDecodedFrom(rest, 0)
  {
    assert ([b] + rest)[1..] == rest;
  }

  /** Unmarked groups shift into the number being read. */
  lemma {:induction false} DigitsAccumulate(n: nat, rest: seq<byte>)
    requires n < TWO_63
    ensures VbDecodedFrom(Digits(n) + rest, 0) == VbDecodedFrom(rest, n)
  {
    SmallIsKept(n);
    if n < 128 {
      ReadGroup(n, rest, 0);
    } else {
      Regroup(Digits(n / 128), [n % 128], rest);
      DigitsAccumulate(n / 128, [n % 128] + rest);
      ReadGroup(n % 128, rest, n / 128);
    }
  }

  lemma VarByteRead(n: Int64, rest: seq<byte>)
    ensures VbDecodedFrom(VarByte(n) + rest, 0) == [Stored(n)] + VbDecodedFrom(rest, 0)
  {
    var s := Stored(n);
    DigitsAreSmall(s);
    SmallIsKept(s);
    var last: seq<byte> := [s % 128 + 128];
    if s < 128 {
      assert VarByte(n) == last;
      ReadGroup(s + 128, rest, 0);
    } else {
      assert VarByte(n) == Digits(s / 128) + last;
      Regroup(Digits(s / 128), last, rest);
      DigitsAccumulate(s / 128, last + rest);
      ReadGroup(s % 128 + 128, rest, s / 128);
    }
  }

  function Encoded2(numbers: seq<Int64>): seq<byte> {
    if numbers == [] then [] else VarByte(numbers[0]) + Encoded2(numbers[1..])
  }

  function AllStored(numbers: seq<Int64>): seq<Int64> {
    seq(|numbers|, i requires 0 <= i < |numbers| => Stored(numbers[i]))
  }

  lemma {:induction false} DecodedEncoded2(numbers: seq<Int64>)
    ensures VbDecodedFrom(Encoded2(numbers), 0) == AllStored(numbers)
  {
    if numbers != [] {
      VarByteRead(numbers[0], Encoded2(numbers[1..]));
      DecodedEncoded2(numbers[1..]);
      assert AllStored(numbers) == [Stored(numbers[0])] + AllStored(numbers[1..]);
    }
  }

  /** The second codec returns exactly the lists without negative numbers. */
  lemma RoundTrip2Iff(numbers: seq<Int64>)
    ensures VbDecodedFrom(Encoded2(numbers), 0) == numbers <==> forall i :: 0 <= i < |numbers| ==> numbers[i] >= 0
  {
    DecodedEncoded2(numbers);
    forall i | 0 <= i < |numbers|
      ensures AllStored(numbers)[i] == numbers[i] <==> numbers[i] >= 0
    {
    }
    if forall i :: 0 <= i < |numbers| ==> numbers[i] >= 0 {
      assert AllStored(numbers) == numbers;
    }
  }

  lemma {:induction false} EncodedMore2(numbers: seq<Int64>, x: Int64)
    ensures Encoded2(numbers + [x]) == Encoded2(numbers) + VarByte(x)
  {
    if numbers == [] {
      assert [] + [x] == [x] && [x][1..] == [];
    } else {
      assert (numbers + [x])[1..] == numbers[1..] + [x];
      EncodedMore2(numbers[1..], x);
    }
  }

  method EncodePostingsList2(postings: seq<Int64>) returns (bytes: seq<byte>)
    ensures bytes == Encoded2(postings)
  {
    bytes := [];
    for i := 0 to |postings|
      invariant bytes == Encoded2(postings[..i])
    {
      assert postings[..i + 1] == postings[..i] + [postings[i]];
      EncodedMore2(postings[..i], postings[i]);
      var one := VbEncodeNum(postings[i]);
      bytes := bytes + one;
    }
    assert postings[..|postings|] == postings;
  }

  // ----- some bytes -----

  /** 300 in the first codec, 824 and 5 in the second. */
  lemma SomeBytes()
    ensures Leb128(300) == [0xAC, 0x02]
    ensures VarByte(824) == [6, 184] && VarByte(5) == [133]
    ensures VbDecodedFrom([6, 184, 133], 0) == [824, 5]
  {
    assert Leb128(2) == [2];
    assert Digits(6) == [6] && Digits(824) == [6, 56];
    assert [6, 184, 133][1..] == [184, 133] && [184, 133][1..] == [133] && [133][1..] == [];
  }
}
