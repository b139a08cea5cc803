/**
 The group keys of the tail sampler (aggregate/point.go:126-132,
 aggregate/timewheel.go:185-190). xxhash is an oracle.
 */
module Hashing {
  import opened Wrappers

  type u64 = x: int | 0 <= x < TWO_64

  const GOLDEN: int := 0x9e3779b9
  const MULTIPLIER: int := 0x517cc1b727220a95

  /** The inverse of MULTIPLIER modulo 2^64. */
  const INVERSE: int := 0x2040003d780970bd

  function Xor(a: nat, b: nat): nat
    decreases a + b
  {
    if a == 0 && b == 0 then 0
    else (if a % 2 != b % 2 then 1 else 0) + 2 * Xor(a / 2, b / 2)
  }

  function Pow2(n: nat): (r: nat)
    ensures r > 0
  {
    if n == 0 then 1 else 2 * Pow2(n - 1)
  }

  lemma {:induction false} XorBound(a: nat, b: nat, bits: nat)
    requires a < Pow2(bits) && b < Pow2(bits)
    ensures Xor(a, b) < Pow2(bits)
    decreases bits
  {
    if bits > 0 {
      XorBound(a / 2, b / 2, bits - 1);
    }
  }

  lemma {:induction false} XorCancels(a: nat, b: nat)
    ensures Xor(Xor(a, b), b) == a
    ensures Xor(a, b) == Xor(b, a)
    decreases a + b
  {
    if a != 0 || b != 0 {
      XorCancels(a / 2, b / 2);
    }
  }

  lemma Pow2Of64()
    ensures Pow2(64) == TWO_64
  {
    assert Pow2(8) == 256;
    assert Pow2(16) == 65536;
    assert Pow2(24) == 0x100_0000;
    assert Pow2(32) == TWO_32;
    assert Pow2(40) == 0x100_0000_0000;
    assert Pow2(48) == 0x1_0000_0000_0000;
    assert Pow2(56) == 0x100_0000_0000_0000;
  }

  function Xor64(a: u64, b: u64): u64 {
    Pow2Of64();
    XorBound(a, b, 64);
    Xor(a, b)
  }

  function Scramble(a: u64): u64 {
    a * MULTIPLIER % TWO_64
  }

  /** HashCombine in wrapping 64-bit arithmetic. */
  function HashCombine(seed: u64, hash: u64): u64 {
    Scramble(Xor64((seed + GOLDEN) % TWO_64, hash))
  }

  lemma Wrapped(x: int, a: u64)
    ensures (TWO_64 * x + a) % TWO_64 == a
  {
  }

  /** The multiplier is odd, so multiplying by it can be undone modulo 2^64. */
  lemma ScrambleInvertible(a: u64)
    ensures Scramble(a) * INVERSE % TWO_64 == a
  {
    var q := a * MULTIPLIER / TWO_64;
    var r := Scramble(a);
    var k := MULTIPLIER * INVERSE / TWO_64;
    assert MULTIPLIER * INVERSE == k * TWO_64 + 1;
    assert r == a * MULTIPLIER - q * TWO_64;
    assert r * INVERSE == TWO_64 * (a * k - q * INVERSE) + a;
    Wrapped(a * k - q * INVERSE, a);
  }

  lemma ScrambleInjective(a: u64, b: u64)
    requires Scramble(a) == Scramble(b)
    ensures a == b
  {
    ScrambleInvertible(a);
    ScrambleInvertible(b);
  }

  lemma SeedInjective(s: u64, s': u64, h: u64)
    requires HashCombine(s, h) == HashCombine(s', h)
    ensures s == s'
  {
    var (t, t') := ((s + GOLDEN) % TWO_64, (s' + GOLDEN) % TWO_64);
    ScrambleInjective(Xor64(t, h), Xor64(t', h));
    XorCancels(t, h);
    XorCancels(t', h);
  }

  lemma HashInjective(s: u64, h: u64, h': u64)
    requires HashCombine(s, h) == HashCombine(s, h')
    ensures h == h'
  {
    var t := (s + GOLDEN) % TWO_64;
    ScrambleInjective(Xor64(t, h), Xor64(t, h'));
    XorCancels(t, h);
    XorCancels(t, h');
    XorCancels(h, t);
    XorCancels(h', t);
  }

  type Sum64 = Bytes -> u64

  /** tailSamplingGroupMapKeyByFields. */
  function GroupMapKey(sum: Sum64, token: Bytes, groupIdHash: u64, dataType: Bytes, groupKey: Bytes): u64 {
    var k := HashCombine(groupIdHash, sum(token));
    var k' := HashCombine(k, sum(dataType));
    HashCombine(k', sum(groupKey))
  }

  /**
   Within one token, data type and group dimension two groups share a map key
   only when their group hashes are equal.
   */
  lemma GroupMapKeyInjective(sum: Sum64, token: Bytes, dataType: Bytes, groupKey: Bytes, g: u64, g': u64)
    ensures GroupMapKey(sum, token, g, dataType, groupKey) == GroupMapKey(sum, token, g', dataType, groupKey) <==> g == g'
  {
    if GroupMapKey(sum, token, g, dataType, groupKey) == GroupMapKey(sum, token, g', dataType, groupKey) {
      var (k, l) := (HashCombine(g, sum(token)), HashCombine(g', sum(token)));
      SeedInjective(HashCombine(k, sum(dataType)), HashCombine(l, sum(dataType)), sum(groupKey));
      SeedInjective(k, l, sum(dataType));
      SeedInjective(g, g', sum(token));
    }
  }

  /** Under one group hash, data type and dimension, two tokens share a map key exactly when their sums are equal. */
  lemma GroupMapKeyTokens(sum: Sum64, token: Bytes, token': Bytes, g: u64, dataType: Bytes, groupKey: Bytes)
    ensures GroupMapKey(sum, token, g, dataType, groupKey) == GroupMapKey(sum, token', g, dataType, groupKey) <==> sum(token) == sum(token')
  {
    if GroupMapKey(sum, token, g, dataType, groupKey) == GroupMapKey(sum, token', g, dataType, groupKey) {
      var (k, l) := (HashCombine(g, sum(token)), HashCombine(g, sum(token')));
      SeedInjective(HashCombine(k, sum(dataType)), HashCombine(l, sum(dataType)), sum(groupKey));
      SeedInjective(k, l, sum(dataType));
      HashInjective(g, sum(token), sum(token'));
    }
  }

  /** Under one token, group hash and dimension, two data types share a map key exactly when their sums are equal. */
  lemma GroupMapKeyDataTypes(sum: Sum64, token: Bytes, g: u64, dataType: Bytes, dataType': Bytes, groupKey: Bytes)
    ensures GroupMapKey(sum, token, g, dataType, groupKey) == GroupMapKey(sum, token, g, dataType', groupKey) <==> sum(dataType) == sum(dataType')
  {
    if GroupMapKey(sum, token, g, dataType, groupKey) == GroupMapKey(sum, token, g, dataType', groupKey) {
      var k := HashCombine(g, sum(token));
      SeedInjective(HashCombine(k, sum(dataType)), HashCombine(k, sum(dataType')), sum(groupKey));
      HashInjective(k, sum(dataType), sum(dataType'));
    }
  }

  /** Under one token, group hash and data type, two dimensions share a map key exactly when their sums are equal. */
  lemma GroupMapKeyDimensions(sum: Sum64, token: Bytes, g: u64, dataType: Bytes, groupKey: Bytes, groupKey': Bytes)
    ensures GroupMapKey(sum, token, g, dataType, groupKey) == GroupMapKey(sum, token, g, dataType, groupKey') <==> sum(groupKey) == sum(groupKey')
  {
    if GroupMapKey(sum, token, g, dataType, groupKey) == GroupMapKey(sum, token, g, dataType, groupKey') {
      HashInjective(HashCombine(HashCombine(g, sum(token)), sum(dataType)), sum(groupKey), sum(groupKey'));
    }
  }

  lemma {:induction false} XorSelf(a: nat)
    ensures Xor(a, a) == 0 && Xor(a, 0) == a
  {
    if a > 0 {
      XorSelf(a / 2);
    }
  }

  /** The constants: a zero hash leaves the shifted seed times the multiplier, and a hash equal to the shifted seed gives zero. */
  lemma HashConstants(seed: u64)
    ensures HashCombine(seed, 0) == (seed + 0x9e3779b9) % 0x1_0000_0000_0000_0000 * 0x517cc1b727220a95 % 0x1_0000_0000_0000_0000
    ensures HashCombine(seed, (seed + 0x9e3779b9) % 0x1_0000_0000_0000_0000) == 0
  {
    XorSelf((seed + GOLDEN) % TWO_64);
  }
}
