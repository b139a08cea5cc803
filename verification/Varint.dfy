/**
 Base 128 varints as the generated code writes and reads them
 (aggregate/tsdata.pb.go:725-736, 834-836, 899-912).
 */
module Varints {
  import opened Hashing
  import opened Wrappers

  /** The bytes of a varint, lowest seven bits first. */
  function Varint(v: nat): Bytes {
    if v < 128 then [v] else [v % 128 + 128] + Varint(v / 128)
  }

  function BitLen(v: nat): nat {
    if v == 0 then 0 else 1 + BitLen(v / 2)
  }

  /** sovTsdata: the number of bytes of the varint, from the bit length of x|1. */
  function Sov(x: nat): nat {
    (BitLen(if x % 2 == 0 then x + 1 else x) + 6) / 7
  }

  lemma BitLenOdd(x: nat)
    ensures BitLen(if x % 2 == 0 then x + 1 else x) == if x == 0 then 1 else BitLen(x)
  {
  }

  lemma BitLenBy3(x: nat)
    requires x >= 8
    ensures BitLen(x) == 3 + BitLen(x / 8)
  {
    assert BitLen(x) == 1 + BitLen(x / 2) && BitLen(x / 2) == 1 + BitLen(x / 4);
  }

  /** Seven more bits. */
  lemma BitLenBy7(x: nat)
    requires x >= 128
    ensures BitLen(x) == 7 + BitLen(x / 128)
  {
    BitLenBy3(x);
    BitLenBy3(x / 8);
    assert x / 8 / 8 == x / 64 && x / 64 / 2 == x / 128;
  }

  lemma BitLenSmall(x: nat)
    requires 0 < x < 128
    ensures 1 <= BitLen(x) <= 7
  {
  }

  lemma {:induction false} BitLenBelow(x: nat, k: nat)
    requires x < Pow2(k)
    ensures BitLen(x) <= k
  {
    if x > 0 {
      BitLenBelow(x / 2, k - 1);
    }
  }

  /** sovTsdata is the length of the varint. */
  lemma {:induction false} SovIsLength(x: nat)
    ensures Sov(x) == |Varint(x)|
  {
    BitLenOdd(x);
    if x < 128 {
      if x > 0 {
        BitLenSmall(x);
      }
    } else {
      BitLenBy7(x);
      BitLenOdd(x / 128);
      SovIsLength(x / 128);
    }
  }

  /** encodeVarintTsdata: write the varint so that it ends at offset. */
  method EncodeVarint(dAtA: array<byte>, offset: nat, v: u64) returns (base: nat)
    requires Sov(v) <= offset <= dAtA.Length
    modifies dAtA
    ensures base == offset - Sov(v)
    ensures dAtA[base..offset] == Varint(v)
    ensures forall j :: 0 <= j < dAtA.Length && !(base <= j < offset) ==> dAtA[j] == old(dAtA[j])
  {
    SovIsLength(v);
    base := offset - Sov(v);
    var i, rest: nat := base, v;
    while rest >= 128
      invariant base <= i && i + |Varint(rest)| == offset && 0 <= rest
      invariant dAtA[base..i] + Varint(rest) == Varint(v)
      invariant forall j :: 0 <= j < dAtA.Length && !(base <= j < i) ==> dAtA[j] == old(dAtA[j])
    {
      ghost var before := dAtA[base..i];
      dAtA[i] := rest % 128 + 128;
      assert dAtA[base..i + 1] == before + [rest % 128 + 128];
      assert before + Varint(rest) == before + [rest % 128 + 128] + Varint(rest / 128);
      rest := rest / 128;
      i := i + 1;
    }
    ghost var before := dAtA[base..i];
    dAtA[i] := rest;
    assert dAtA[base..offset] == before + [rest];
  }

  datatype WireError = IntOverflow | UnexpectedEOF | InvalidLength | WrongWireType | IllegalTag | EndGroup

  datatype Read<T> = Ok(value: T, next: nat) | Fail(error: WireError)

  /** v << n, not cut off. */
  function Shl(v: nat, n: nat): nat {
    if n == 0 then v else 2 * Shl(v, n - 1)
  }

  /** The decoding loop from index i, with shift and the bits collected so far. */
  function ReadFrom(b: Bytes, i: nat, shift: nat, acc: nat): (r: Read<nat>)
    ensures r.Ok? ==> i < r.next <= |b| && r.value < TWO_64
    decreases |b| - i
  {
    if shift >= 64 then Fail(IntOverflow)
    else if i >= |b| then Fail(UnexpectedEOF)
    else
      var acc' := (acc + Shl(b[i] % 128, shift)) % TWO_64;
      if b[i] < 128 then Ok(acc', i + 1) else ReadFrom(b, i + 1, shift + 7, acc')
  }

  function ReadVarint(b: Bytes, i: nat): (r: Read<nat>) {
    ReadFrom(b, i, 0, 0)
  }

  lemma {:induction false} ShlAdd(a: nat, b: nat, n: nat)
    ensures Shl(a + b, n) == Shl(a, n) + Shl(b, n)
  {
    if n > 0 {
      ShlAdd(a, b, n - 1);
    }
  }

  lemma {:induction false} ShlTwice(v: nat, n: nat)
    ensures Shl(2 * v, n) == Shl(v, n + 1)
  {
    if n > 0 {
      ShlTwice(v, n - 1);
    }
  }

  lemma ShlBy7(v: nat, n: nat)
    ensures Shl(128 * v, n) == Shl(v, n + 7)
  {
    ShlTwice(64 * v, n);
    ShlTwice(32 * v, n + 1);
    ShlTwice(16 * v, n + 2);
    ShlTwice(8 * v, n + 3);
    ShlTwice(4 * v, n + 4);
    ShlTwice(2 * v, n + 5);
    ShlTwice(v, n + 6);
  }

  lemma {:induction false} ShlAtLeast(v: nat, n: nat)
    requires v > 0
    ensures Shl(v, n) >= Pow2(n)
  {
    if n > 0 {
      ShlAtLeast(v, n - 1);
    }
  }

  lemma {:induction false} Pow2Grows(m: nat, n: nat)
    requires m <= n
    ensures Pow2(m) <= Pow2(n)
    decreases n - m
  {
    if m < n {
      Pow2Grows(m + 1, n);
    }
  }

  lemma ShiftFits(v: nat, shift: nat)
    requires v > 0 && Shl(v, shift) < TWO_64
    ensures shift < 64
  {
    ShlAtLeast(v, shift);
    Pow2Of64();
    if shift >= 64 {
      Pow2Grows(64, shift);
    }
  }

  /** Splitting off the lowest seven bits leaves the total unchanged. */
  lemma SplitLow(v: nat, shift: nat)
    ensures Shl(v, shift) == Shl(v % 128, shift) + Shl(v / 128, shift + 7)
  {
    ShlAdd(v % 128, 128 * (v / 128), shift);
    ShlBy7(v / 128, shift);
  }

  lemma {:induction false} ReadMore(b: Bytes, i: nat, shift: nat, acc: nat, lo: nat)
    requires i < |b| && lo < 128 && b[i] == lo + 128 && shift < 64 && acc + Shl(lo, shift) < TWO_64
    ensures ReadFrom(b, i, shift, acc) == ReadFrom(b, i + 1, shift + 7, acc + Shl(lo, shift))
  {
  }

  /** Reading at the start of a varint finds its value and its end. */
  lemma {:induction false} ReadFromVarint(b: Bytes, i: nat, shift: nat, acc: nat, v: nat)
    requires i + |Varint(v)| <= |b| && b[i..i + |Varint(v)|] == Varint(v)
    requires acc + Shl(v, shift) < TWO_64 && shift < 64
    ensures ReadFrom(b, i, shift, acc) == Ok(acc + Shl(v, shift), i + |Varint(v)|)
    decreases v
  {
    assert b[i] == Varint(v)[0];
    if v >= 128 {
      SplitLow(v, shift);
      ShiftFits(v / 128, shift + 7);
      ReadMore(b, i, shift, acc, v % 128);
      assert b[i + 1..i + 1 + |Varint(v / 128)|] == Varint(v)[1..];
      ReadFromVarint(b, i + 1, shift + 7, acc + Shl(v % 128, shift), v / 128);
    }
  }

  lemma ReadVarintOfVarint(b: Bytes, i: nat, v: u64)
    requires i + |Varint(v)| <= |b| && b[i..i + |Varint(v)|] == Varint(v)
    ensures ReadVarint(b, i) == Ok(v, i + |Varint(v)|)
  {
    ReadFromVarint(b, i, 0, 0, v);
  }

  /** The decoding loop of the generated code. */
  method DecodeVarint(dAtA: Bytes, start: nat) returns (r: Read<nat>)
    ensures r == ReadVarint(dAtA, start)
  {
    var i, shift: nat, v: nat := start, 0, 0;
    while true
      invariant ReadVarint(dAtA, start) == ReadFrom(dAtA, i, shift, v)
      decreases |dAtA| - i
    {
      if shift >= 64 {
        return Fail(IntOverflow);
      }
      if i >= |dAtA| {
        return Fail(UnexpectedEOF);
      }
      var c := dAtA[i];
      i := i + 1;
      v := (v + Shl(c % 128, shift)) % TWO_64;
      if c < 128 {
        return Ok(v, i);
      }
      shift := shift + 7;
    }
  }
}
