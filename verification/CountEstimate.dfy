/** What a distinct count reports once hashes are in the bitmap: when more hashes give a larger count, and when not. */
module CountEstimate {
  import opened Hashing
  import opened CountDistinct
  import opened Wrappers

  /** What is used of the natural logarithm: it is zero at one and grows. */
  ghost predicate IsLog(log: real -> real) {
    log(1.0) == 0.0 && forall x: real, y: real :: 0.0 < x <= y ==> log(x) <= log(y)
  }

  /** What count reports for a set of hashes. */
  ghost function Reported(log: real -> real, seen: set<u64>): int {
    if |seen| <= EXACT_LIMIT then |seen| else Estimate(log, |Free(seen, SKETCH_BITS)|)
  }

  /** Up to 4096 hashes are counted exactly; above, the number of free bits of 2^18 decides. */
  lemma ExactUpTo(log: real -> real, seen: set<u64>)
    ensures |seen| <= 4096 ==> Reported(log, seen) == |seen|
    ensures |seen| > 4096 ==> Reported(log, seen) == Estimate(log, |Free(seen, 262144)|)
  {
  }

  /** The estimate is -m ln(z/m), rounded, for z free bits of m; none for an empty bitmap. */
  lemma EstimateRounds(log: real -> real, z: nat)
    requires IsLog(log) && 0 < z <= SKETCH_BITS
    ensures var x := -262144.0 * log(z as real / 262144.0); x - 0.5 <= Estimate(log, z) as real <= x + 0.5
    ensures z == SKETCH_BITS ==> Estimate(log, z) == 0
  {
    var x := -262144.0 * log(z as real / 262144.0);
    assert Estimate(log, z) == (x + 0.5).Floor;
    if z == SKETCH_BITS {
      assert z as real / 262144.0 == 1.0;
    }
  }

  lemma Scaled(a: real, b: real)
    requires a <= b
    ensures -262144.0 * a >= -262144.0 * b
  {
  }

  /** With fewer free bits the estimate is larger, as long as one is left. */
  lemma EstimateGrows(log: real -> real, z: nat, z': nat)
    requires IsLog(log) && 0 < z' <= z <= SKETCH_BITS
    ensures Estimate(log, z) <= Estimate(log, z')
  {
    var (x, y) := (z' as real / 262144.0, z as real / 262144.0);
    assert 0.0 < x <= y;
    Scaled(log(x), log(y));
    assert Estimate(log, z) == (-262144.0 * log(y) + 0.5).Floor && Estimate(log, z') == (-262144.0 * log(x) + 0.5).Floor;
  }

  lemma SmallerSet<T>(a: set<T>, b: set<T>)
    requires a <= b
    ensures |a| <= |b|
  {
    assert b == a + (b - a);
  }

  lemma FreeShrinks(s: set<u64>, t: set<u64>)
    requires s <= t
    ensures Free(t, SKETCH_BITS) <= Free(s, SKETCH_BITS) && |Free(t, SKETCH_BITS)| <= |Free(s, SKETCH_BITS)| <= SKETCH_BITS
  {
    forall i: nat | Hit(s, i)
      ensures Hit(t, i)
    {
      var h :| h in s && h % SKETCH_BITS == i;
      assert h in t;
    }
    SmallerSet(Free(t, SKETCH_BITS), Free(s, SKETCH_BITS));
    FreeAtMost(s, SKETCH_BITS);
  }

  lemma {:induction false} FreeAtMost(s: set<u64>, n: nat)
    ensures |Free(s, n)| <= n
  {
    if n == 0 {
      FreeNone(s);
    } else {
      FreeAtMost(s, n - 1);
      FreeNext(s, n - 1);
    }
  }

  /**
   In the bitmap, more hashes are never reported as fewer, as long as a bit is free; when
   the last bit is taken, they are if and only if more than the bitmap has bits were
   reported before.
   */
  lemma MoreHashes(log: real -> real, s: set<u64>, t: set<u64>)
    requires IsLog(log) && s <= t && |s| > EXACT_LIMIT
    ensures Free(t, SKETCH_BITS) != {} ==> Reported(log, s) <= Reported(log, t)
    ensures Free(t, SKETCH_BITS) == {} ==> (Reported(log, s) <= Reported(log, t) <==> Reported(log, s) <= SKETCH_BITS)
  {
    SmallerSet(s, t);
    FreeShrinks(s, t);
    if Free(t, SKETCH_BITS) != {} {
      assert |Free(t, SKETCH_BITS)| > 0;
      EstimateGrows(log, |Free(s, SKETCH_BITS)|, |Free(t, SKETCH_BITS)|);
    }
  }

  // ----- a full bitmap -----

  /** The hashes 0 to n - 1. */
  function Below(n: nat): set<u64>
    requires n <= SKETCH_BITS
  {
    if n == 0 then {} else Below(n - 1) + {n - 1}
  }

  lemma {:induction false} BelowMeans(n: nat)
    requires n <= SKETCH_BITS
    ensures |Below(n)| == n && forall h: u64 :: h in Below(n) <==> h < n
  {
    if n > 0 {
      BelowMeans(n - 1);
    }
  }

  lemma OwnBit(h: nat)
    requires h < SKETCH_BITS
    ensures h % SKETCH_BITS == h
  {
  }

  lemma BelowHits(n: nat, i: nat)
    requires n <= SKETCH_BITS && i < SKETCH_BITS
    ensures Hit(Below(n), i) <==> i < n
  {
    BelowMeans(n);
    if i < n {
      var h: u64 := i;
      OwnBit(h);
      assert h in Below(n);
    } else {
      forall h <- Below(n)
        ensures h % SKETCH_BITS != i
      {
        OwnBit(h);
      }
    }
  }

  lemma BelowFree(n: nat)
    requires n <= SKETCH_BITS
    ensures forall i: nat :: i in Free(Below(n), SKETCH_BITS) <==> n <= i < SKETCH_BITS
  {
    forall i: nat
      ensures i in Free(Below(n), SKETCH_BITS) <==> n <= i < SKETCH_BITS
    {
      if i < SKETCH_BITS {
        BelowHits(n, i);
      }
    }
  }

  lemma AlmostFull(n: nat)
    requires n + 1 == SKETCH_BITS
    ensures |Free(Below(n), SKETCH_BITS)| == 1 && |Free(Below(n + 1), SKETCH_BITS)| == 0
    ensures |Below(n)| > EXACT_LIMIT && |Below(n + 1)| > EXACT_LIMIT
  {
    BelowMeans(n);
    BelowMeans(n + 1);
    BelowFree(n);
    BelowFree(n + 1);
    assert Free(Below(n), SKETCH_BITS) == {n} && |{n}| == 1;
    assert Free(Below(n + 1), SKETCH_BITS) == {};
  }

  /** The hash that takes the last free bit makes the reported count fall. */
  lemma LastBitDrops(log: real -> real, n: nat)
    requires IsLog(log) && log(1.0 / 262144.0) <= -2.0 && n + 1 == SKETCH_BITS
    ensures Reported(log, Below(n)) >= 2 * SKETCH_BITS && Reported(log, Below(n) + {n}) == SKETCH_BITS
  {
    AlmostFull(n);
    assert Below(n + 1) == Below(n) + {n};
    Scaled(log(1.0 / 262144.0), -2.0);
    assert Estimate(log, 1) == (-262144.0 * log(1.0 / 262144.0) + 0.5).Floor;
  }
}
