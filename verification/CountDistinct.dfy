/** Distinct counting (aggregate/algo_count_distinct.go): exact hashes up to a limit, then a bitmap of 64-bit words. */
module CountDistinct {
  import opened Hashing
  import opened Wrappers

  const EXACT_LIMIT: nat := 4096
  const SKETCH_BITS: nat := 0x4_0000
  const WORDS: nat := 4096

  // ----- bits of a word -----

  /** Bit k of w. */
  predicate Bit(w: nat, k: nat) {
    if k == 0 then w % 2 == 1 else Bit(w / 2, k - 1)
  }

  /** w | v. */
  function Or(w: nat, v: nat): nat
    decreases w + v
  {
    if w == 0 then v else if v == 0 then w
    else 2 * Or(w / 2, v / 2) + if w % 2 == 1 || v % 2 == 1 then 1 else 0
  }

  lemma {:induction false} NoBits(k: nat)
    ensures !Bit(0, k)
  {
    if k > 0 {
      NoBits(k - 1);
    }
  }

  lemma {:induction false} OrBits(w: nat, v: nat, k: nat)
    ensures Bit(Or(w, v), k) <==> Bit(w, k) || Bit(v, k)
    decreases k
  {
    if w == 0 || v == 0 {
      NoBits(k);
    } else if k > 0 {
      OrBits(w / 2, v / 2, k - 1);
    }
  }

  lemma {:induction false} OrBound(w: nat, v: nat, n: nat)
    requires w < Pow2(n) && v < Pow2(n)
    ensures Or(w, v) < Pow2(n)
    decreases n
  {
    if w != 0 && v != 0 {
      OrBound(w / 2, v / 2, n - 1);
    }
  }

  lemma {:induction false} ShiftedOne(k: nat, j: nat)
    ensures Bit(Pow2(k), j) <==> j == k
  {
    if k == 0 {
      if j > 0 {
        NoBits(j - 1);
      }
    } else if j > 0 {
      assert Pow2(k) / 2 == Pow2(k - 1);
      ShiftedOne(k - 1, j - 1);
    }
  }

  lemma {:induction false} ShiftedOneFits(k: nat, n: nat)
    requires k < n
    ensures Pow2(k) < Pow2(n)
  {
    if k > 0 {
      ShiftedOneFits(k - 1, n - 1);
    } else if n > 1 {
      ShiftedOneFits(0, n - 1);
    }
  }

  /** A word of n ones. */
  lemma {:induction false} AllOnes(n: nat, k: nat)
    requires k < n
    ensures Pow2(n) >= 1 && Bit(Pow2(n) - 1, k)
  {
    if k > 0 {
      assert (Pow2(n) - 1) / 2 == Pow2(n - 1) - 1;
      AllOnes(n - 1, k - 1);
    }
  }

  /** A word is known by its bits. */
  lemma {:induction false} SameBits(w: nat, v: nat, n: nat)
    requires w < Pow2(n) && v < Pow2(n) && forall k: nat :: k < n ==> (Bit(w, k) <==> Bit(v, k))
    ensures w == v
    decreases n
  {
    if n > 0 {
      assert Bit(w, 0) <==> Bit(v, 0);
      forall k: nat | k < n - 1
        ensures Bit(w / 2, k) <==> Bit(v / 2, k)
      {
        assert Bit(w, k + 1) <==> Bit(v, k + 1);
      }
      SameBits(w / 2, v / 2, n - 1);
    }
  }

  /** The words of the bitmap. */
  function OrWord(w: u64, v: u64): u64 {
    Pow2Of64();
    OrBound(w, v, 64);
    Or(w, v)
  }

  function BitWord(k: nat): u64
    requires k < 64
  {
    Pow2Of64();
    ShiftedOneFits(k, 64);
    Pow2(k)
  }

  // ----- the bitmap -----

  /** Bit i of the bitmap. */
  predicate Marked(words: seq<u64>, i: nat)
    requires |words| == WORDS && i < SKETCH_BITS
  {
    Bit(words[i / 64], i % 64)
  }

  /** Some hash of s falls on bit i. */
  ghost predicate Hit(s: set<u64>, i: nat) {
    exists h <- s :: h % SKETCH_BITS == i
  }

  /** The bitmap of a set of hashes. */
  ghost predicate Sketches(words: seq<u64>, s: set<u64>) {
    |words| == WORDS && forall i: nat :: i < SKETCH_BITS ==> (Marked(words, i) <==> Hit(s, i))
  }

  /** addSketchHash on the words. */
  function Mark(words: seq<u64>, h: u64): (r: seq<u64>)
    requires |words| == WORDS
    ensures |r| == WORDS
  {
    var i := h % SKETCH_BITS;
    words[i / 64 := OrWord(words[i / 64], BitWord(i % 64))]
  }

  lemma MarkSets(words: seq<u64>, h: u64, i: nat)
    requires |words| == WORDS && i < SKETCH_BITS
    ensures Marked(Mark(words, h), i) <==> Marked(words, i) || i == h % SKETCH_BITS
  {
    var j := h % SKETCH_BITS;
    if i / 64 == j / 64 {
      OrBits(words[i / 64], BitWord(j % 64), i % 64);
      ShiftedOne(j % 64, i % 64);
    }
  }

  lemma MarkSketches(words: seq<u64>, s: set<u64>, h: u64)
    requires Sketches(words, s)
    ensures Sketches(Mark(words, h), s + {h})
  {
    forall i: nat | i < SKETCH_BITS
      ensures Marked(Mark(words, h), i) <==> Hit(s + {h}, i)
    {
      MarkSets(words, h, i);
      assert Marked(words, i) <==> Hit(s, i);
      if Hit(s, i) {
        var g :| g in s && g % SKETCH_BITS == i;
        assert g in s + {h};
      }
      if i == h % SKETCH_BITS {
        assert h in s + {h};
      }
    }
  }

  /** The bitmap is determined by the set. */
  lemma SketchUnique(a: seq<u64>, b: seq<u64>, s: set<u64>)
    requires Sketches(a, s) && Sketches(b, s)
    ensures a == b
  {
    forall w: nat | w < WORDS
      ensures a[w] == b[w]
    {
      forall k: nat | k < 64
        ensures Bit(a[w], k) <==> Bit(b[w], k)
      {
        var i := 64 * w + k;
        assert i / 64 == w && i % 64 == k;
        assert Marked(a, i) <==> Marked(b, i);
      }
      Pow2Of64();
      SameBits(a[w], b[w], 64);
    }
  }

  /** The words of two bitmaps, one by one. */
  lemma OrSketches(a: seq<u64>, b: seq<u64>, c: seq<u64>, s: set<u64>, t: set<u64>)
    requires Sketches(a, s) && Sketches(b, t) && |c| == WORDS
    requires forall w: nat :: w < WORDS ==> c[w] == OrWord(a[w], b[w])
    ensures Sketches(c, s + t)
  {
    forall i: nat | i < SKETCH_BITS
      ensures Marked(c, i) <==> Hit(s + t, i)
    {
      OrBits(a[i / 64], b[i / 64], i % 64);
      assert Marked(a, i) <==> Hit(s, i);
      assert Marked(b, i) <==> Hit(t, i);
      HitUnion(s, t, i);
    }
  }

  lemma HitUnion(s: set<u64>, t: set<u64>, i: nat)
    ensures Hit(s + t, i) <==> Hit(s, i) || Hit(t, i)
  {
  }

  lemma EmptySketch(words: seq<u64>)
    requires |words| == WORDS && forall w: nat :: w < WORDS ==> words[w] == 0
    ensures Sketches(words, {})
  {
    forall i: nat | i < SKETCH_BITS
      ensures !Marked(words, i)
    {
      NoBits(i % 64);
    }
  }

  // ----- counting the free bits -----

  /** The bits below n that no hash falls on. */
  ghost function Free(s: set<u64>, n: nat): set<nat> {
    set i: nat | i < n && !Hit(s, i)
  }

  lemma FreeNext(s: set<u64>, n: nat)
    ensures |Free(s, n + 1)| == |Free(s, n)| + if Hit(s, n) then 0 else 1
  {
    assert Free(s, n + 1) == Free(s, n) + if Hit(s, n) then {} else {n};
  }

  /** The bits of a full word are all in use. */
  lemma {:induction false} FullWord(words: seq<u64>, s: set<u64>, w: nat, k: nat)
    requires Sketches(words, s) && w < WORDS && words[w] == TWO_64 - 1 && k <= 64
    ensures |Free(s, 64 * w + k)| == |Free(s, 64 * w)|
  {
    if k > 0 {
      var i := 64 * w + (k - 1);
      Pow2Of64();
      AllOnes(64, k - 1);
      assert i / 64 == w && i % 64 == k - 1;
      assert Marked(words, i) <==> Hit(s, i);
      FreeNext(s, i);
      FullWord(words, s, w, k - 1);
    }
  }

  lemma FreeNone(s: set<u64>)
    ensures Free(s, 0) == {}
  {
  }

  /** The loop of count: how many bits of the bitmap are zero. */
  method ZeroBits(words: seq<u64>, ghost s: set<u64>) returns (zeroBits: nat)
    requires Sketches(words, s)
    ensures zeroBits == |Free(s, SKETCH_BITS)|
  {
    zeroBits := 0;
    FreeNone(s);
    var w := 0;
    while w < |words|
      invariant 0 <= w <= |words| && zeroBits == |Free(s, 64 * w)|
    {
      if words[w] == TWO_64 - 1 {
        FullWord(words, s, w, 64);
      } else {
        var bit := 0;
        while bit < 64
          invariant 0 <= bit <= 64 && zeroBits == |Free(s, 64 * w + bit)|
        {
          assert (64 * w + bit) / 64 == w && (64 * w + bit) % 64 == bit;
          assert Marked(words, 64 * w + bit) <==> Hit(s, 64 * w + bit);
          FreeNext(s, 64 * w + bit);
          if !Bit(words[w], bit) {
            zeroBits := zeroBits + 1;
          }
          bit := bit + 1;
        }
      }
      w := w + 1;
    }
  }

  /** Linear counting from the number of zero bits; log is the natural logarithm. */
  function Estimate(log: real -> real, zeroBits: nat): int {
    if zeroBits == 0 then SKETCH_BITS
    else
      var m := SKETCH_BITS as real;
      (-m * log(zeroBits as real / m) + 0.5).Floor
  }

  // ----- the calculator's state -----

  /** The state is a function of the set of hashes alone: the set itself up to the limit, its bitmap above. */
  ghost predicate StateOf(s: set<u64>, values: set<u64>, sketch: Option<seq<u64>>) {
    if |s| <= EXACT_LIMIT then values == s && sketch.None?
    else values == {} && sketch.Some? && Sketches(sketch.value, s)
  }

  lemma StateUnique(s: set<u64>, values: set<u64>, sketch: Option<seq<u64>>, values': set<u64>, sketch': Option<seq<u64>>)
    requires StateOf(s, values, sketch) && StateOf(s, values', sketch')
    ensures values == values' && sketch == sketch'
  {
    if |s| > EXACT_LIMIT {
      SketchUnique(sketch.value, sketch'.value, s);
    }
  }

  lemma SubsetSize(a: set<u64>, b: set<u64>)
    requires a <= b
    ensures |a| <= |b|
  {
    assert b == a + (b - a);
  }

  class AlgoCountDistinct {
    var maxTime: int
    var values: set<u64>
    var sketch: array?<u64>
    /** Every hash added so far. */
    ghost var seen: set<u64>

    ghost function Words(): Option<seq<u64>>
      reads this, sketch
    {
      if sketch == null then None else Some(sketch[..])
    }

    ghost function Repr(): set<object>
      reads this
    {
      if sketch == null then {this} else {this, sketch}
    }

    ghost predicate Valid()
      reads this, sketch
    {
      StateOf(seen, values, Words())
    }

    constructor (maxTime: int, hash: u64)
      ensures Valid() && seen == {hash} && this.maxTime == maxTime && fresh(Repr())
    {
      this.maxTime, values, sketch, seen := maxTime, {}, null, {};
      new;
      AddHash(hash);
    }

    /** count: exact up to the limit, above it an estimate from the number of bits that no hash falls on. */
    method Count(log: real -> real) returns (n: int)
      requires Valid()
      ensures n == if |seen| <= EXACT_LIMIT then |seen| else Estimate(log, |Free(seen, SKETCH_BITS)|)
    {
      if sketch == null {
        return |values|;
      }
      var zeroBits := ZeroBits(sketch[..], seen);
      return Estimate(log, zeroBits);
    }

    method AddSketchHash(hash: u64)
      requires sketch != null && sketch.Length == WORDS
      modifies sketch
      ensures sketch[..] == Mark(old(sketch[..]), hash)
    {
      var idx := hash % SKETCH_BITS;
      sketch[idx / 64] := OrWord(sketch[idx / 64], BitWord(idx % 64));
    }

    /** ensureSketch: the bitmap of the exact hashes, unless there is one. */
    method EnsureSketch()
      requires sketch == null
      modifies this`sketch, this`values
      ensures sketch != null && fresh(sketch) && values == {} && Sketches(sketch[..], old(values))
    {
      sketch := new u64[WORDS](_ => 0);
      EmptySketch(sketch[..]);
      var todo := values;
      while todo != {}
        invariant sketch != null && fresh(sketch) && sketch.Length == WORDS && values == old(values)
        invariant todo <= values && Sketches(sketch[..], values - todo)
        decreases todo
      {
        var h :| h in todo;
        MarkSketches(sketch[..], values - todo, h);
        AddSketchHash(h);
        assert values - (todo - {h}) == (values - todo) + {h};
        todo := todo - {h};
      }
      assert values - todo == values;
      values := {};
    }

    method AddHash(hash: u64)
      requires Valid()
      modifies this, sketch
      ensures Valid() && seen == old(seen) + {hash} && maxTime == old(maxTime)
      ensures fresh(Repr() - old(Repr())) && (old(sketch) != null ==> sketch == old(sketch))
    {
      SubsetSize(seen, seen + {hash});
      if sketch != null {
        MarkSketches(sketch[..], seen, hash);
        AddSketchHash(hash);
        seen := seen + {hash};
        return;
      }
      if hash in values || |values| < EXACT_LIMIT {
        values := values + {hash};
        seen := seen + {hash};
        return;
      }
      EnsureSketch();
      MarkSketches(sketch[..], seen, hash);
      AddSketchHash(hash);
      seen := seen + {hash};
    }

    /** Or-ing in the words of another bitmap, or of the same. */
    method OrSketch(other: array<u64>)
      requires sketch != null && sketch.Length == WORDS == other.Length
      modifies sketch
      ensures forall w :: 0 <= w < WORDS ==> sketch[w] == OrWord(old(sketch[w]), old(other[w]))
    {
      var i := 0;
      while i < WORDS
        invariant 0 <= i <= WORDS
        invariant forall w :: 0 <= w < i ==> sketch[w] == OrWord(old(sketch[w]), old(other[w]))
        invariant forall w :: i <= w < WORDS ==> sketch[w] == old(sketch[w]) && other[w] == old(other[w])
      {
        sketch[i] := OrWord(sketch[i], other[i]);
        i := i + 1;
      }
    }

    /** Merging in another calculator, or this one itself. */
    method Add(inst: AlgoCountDistinct)
      requires Valid() && inst.Valid() && (inst == this || inst.Repr() !! Repr())
      modifies this, sketch
      ensures Valid() && seen == old(seen) + old(inst.seen)
      ensures maxTime == if old(inst.maxTime) > old(maxTime) then old(inst.maxTime) else old(maxTime)
      ensures fresh(Repr() - old(Repr()))
    {
      if inst.sketch != null {
        AddSketch(inst);
      } else {
        AddHashes(inst.values);
      }
      if inst.maxTime > maxTime {
        maxTime := inst.maxTime;
      }
    }

    method AddSketch(inst: AlgoCountDistinct)
      requires Valid() && inst.Valid() && (inst == this || inst.Repr() !! Repr()) && inst.sketch != null
      modifies this`values, this`sketch, this`seen, sketch
      ensures Valid() && seen == old(seen) + old(inst.seen) && fresh(Repr() - old(Repr()))
    {
      ghost var s, t := seen, inst.seen;
      SubsetSize(t, s + t);
      if sketch == null {
        EnsureSketch();
      }
      ghost var a, b := sketch[..], inst.sketch[..];
      OrSketch(inst.sketch);
      OrSketches(a, b, sketch[..], s, t);
      seen := s + t;
    }

    /** Every hash of another calculator's set; a set of its own changes nothing while it is scanned. */
    method AddHashes(all: set<u64>)
      requires Valid()
      modifies this, sketch
      ensures Valid() && seen == old(seen) + all && maxTime == old(maxTime) && fresh(Repr() - old(Repr()))
    {
      var todo := all;
      while todo != {}
        invariant Valid() && todo <= all && maxTime == old(maxTime)
        invariant seen == old(seen) + (all - todo)
        invariant sketch == old(sketch) || (sketch != null && fresh(sketch))
        decreases todo
      {
        var h :| h in todo;
        AddHash(h);
        OneLess(old(seen), all, todo, h);
        todo := todo - {h};
      }
      assert all - todo == all;
    }
  }

  lemma OneLess(s: set<u64>, all: set<u64>, todo: set<u64>, h: u64)
    requires h in todo && todo <= all
    ensures s + (all - todo) + {h} == s + (all - (todo - {h}))
  {
  }

  /** Two calculators that saw the same hashes, in whatever order and through whatever merges, are in the same state. */
  lemma SameSeenSameState(a: AlgoCountDistinct, b: AlgoCountDistinct)
    requires a.Valid() && b.Valid() && a.seen == b.seen
    ensures a.values == b.values && a.Words() == b.Words()
  {
    StateUnique(a.seen, a.values, a.Words(), b.values, b.Words());
  }
}
