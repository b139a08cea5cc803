/** The streaming standard deviation (aggregate/algo_stdev.go), over real numbers. */
module Stdev {
  import opened Wrappers

  // ----- the two-pass reference -----

  function Sum(xs: seq<real>): real {
    if xs == [] then 0.0 else Sum(xs[..|xs| - 1]) + xs[|xs| - 1]
  }

  /** The sum of squared distances from m. */
  function Deviations(xs: seq<real>, m: real): real {
    if xs == [] then 0.0
    else Deviations(xs[..|xs| - 1], m) + (xs[|xs| - 1] - m) * (xs[|xs| - 1] - m)
  }

  function Mean(xs: seq<real>): real
    requires |xs| > 0
  {
    Sum(xs) / |xs| as real
  }

  /** The sample variance. */
  function Variance(xs: seq<real>): real
    requires |xs| >= 2
  {
    Deviations(xs, Mean(xs)) / (|xs| - 1) as real
  }

  /** The standard deviation, with the square root as a parameter; an error below two values. */
  function StdDev(sqrt: real -> real, xs: seq<real>): Option<real> {
    if |xs| < 2 then None else Some(sqrt(Variance(xs)))
  }

  /** The function SampleStdDev, in two passes. */
  method SampleStdDev(sqrt: real -> real, data: seq<real>) returns (stdDev: Option<real>)
    ensures stdDev == StdDev(sqrt, data)
  {
    var n := |data|;
    if n < 2 {
      return None;
    }
    var sum, i := 0.0, 0;
    while i < n
      invariant 0 <= i <= n && sum == Sum(data[..i])
    {
      assert data[..i + 1][..i] == data[..i];
      sum := sum + data[i];
      i := i + 1;
    }
    assert data[..n] == data;
    var mean := sum / n as real;
    var sqDiff := 0.0;
    i := 0;
    while i < n
      invariant 0 <= i <= n && sqDiff == Deviations(data[..i], mean)
    {
      assert data[..i + 1][..i] == data[..i];
      var diff := data[i] - mean;
      sqDiff := sqDiff + diff * diff;
      i := i + 1;
    }
    return Some(sqrt(sqDiff / (n - 1) as real));
  }

  // ----- sums of squares -----

  function Squares(xs: seq<real>): real {
    if xs == [] then 0.0 else Squares(xs[..|xs| - 1]) + xs[|xs| - 1] * xs[|xs| - 1]
  }

  lemma Expand(d: real, s: real, q: real, n: real, m: real, x: real)
    requires d == q - 2.0 * m * s + n * (m * m)
    ensures d + (x - m) * (x - m) == (q + x * x) - 2.0 * m * (s + x) + (n + 1.0) * (m * m)
  {
  }

  lemma {:induction false} DeviationsExpand(xs: seq<real>, m: real)
    ensures Deviations(xs, m) == Squares(xs) - 2.0 * m * Sum(xs) + |xs| as real * (m * m)
  {
    if xs != [] {
      var init := xs[..|xs| - 1];
      var x, n := xs[|xs| - 1], |init| as real;
      DeviationsExpand(init, m);
      Expand(Deviations(init, m), Sum(init), Squares(init), n, m, x);
      assert |xs| as real == n + 1.0 && Sum(xs) == Sum(init) + x && Squares(xs) == Squares(init) + x * x;
    }
  }

  lemma {:induction false} SumsConcat(xs: seq<real>, ys: seq<real>)
    ensures Sum(xs + ys) == Sum(xs) + Sum(ys) && Squares(xs + ys) == Squares(xs) + Squares(ys)
  {
    if ys == [] {
      assert xs + ys == xs;
    } else {
      assert (xs + ys)[..|xs + ys| - 1] == xs + ys[..|ys| - 1];
      SumsConcat(xs, ys[..|ys| - 1]);
    }
  }

  // ----- the running form -----

  /** count, mean and m2 of xs. */
  ghost predicate Describes(count: int, mean: real, m2: real, xs: seq<real>) {
    && count == |xs|
    && count as real * mean == Sum(xs)
    && m2 == Squares(xs) - count as real * (mean * mean)
    && (count == 0 ==> mean == 0.0)
  }

  /** The numbers a description holds are the mean and the squared deviations from it. */
  lemma DescribesMeans(count: int, mean: real, m2: real, xs: seq<real>)
    requires Describes(count, mean, m2, xs)
    ensures m2 == Deviations(xs, mean)
    ensures count > 0 ==> mean == Mean(xs)
  {
    DeviationsExpand(xs, mean);
    AroundMean(count as real, mean, Sum(xs), Squares(xs));
  }

  lemma DescribesVariance(count: int, mean: real, m2: real, xs: seq<real>)
    requires count == |xs| && m2 == Deviations(xs, mean) && (count > 0 ==> mean == Mean(xs))
    ensures count >= 2 ==> Variance(xs) == m2 / (count - 1) as real
  {
  }

  /** Around the mean, the sum of squared distances loses its middle term. */
  lemma AroundMean(n: real, m: real, s: real, q: real)
    requires n * m == s
    ensures n != 0.0 ==> m == s / n
    ensures q - 2.0 * m * s + n * (m * m) == q - n * (m * m)
  {
  }

  /** One more value, with k values and step e of the mean. */
  lemma OneMore(q: real, s: real, a: real, k: real, e: real)
    requires (k - 1.0) * a == s
    ensures k * (a + e) == s + (a + k * e)
    ensures (q - (k - 1.0) * (a * a)) + (k * e) * (k * e - e) == q + (a + k * e) * (a + k * e) - k * ((a + e) * (a + e))
  {
  }

  /** The numbers of the pairwise merge. */
  lemma MergeNumbers(n: real, m: real, t: real, a: real, b: real, qa: real, qb: real, sa: real, sb: real, mean: real, m2: real)
    requires t == n + m > 0.0 && n * a == sa && m * b == sb
    requires mean == a + (b - a) * m / t
    requires m2 == (qa - n * (a * a)) + ((qb - m * (b * b)) + (b - a) * (b - a) * n * m / t)
    ensures t * mean == sa + sb
    ensures m2 == qa + qb - t * (mean * mean)
  {
  }

  /** The pairwise merge describes the values of both. */
  lemma MergeDescribes(ca: int, a: real, ma: real, xs: seq<real>, cb: int, b: real, mb: real, ys: seq<real>, mean: real, m2: real)
    requires Describes(ca, a, ma, xs) && Describes(cb, b, mb, ys) && ca > 0 && cb > 0
    requires mean == a + (b - a) * cb as real / (ca + cb) as real
    requires m2 == ma + (mb + (b - a) * (b - a) * ca as real * cb as real / (ca + cb) as real)
    ensures Describes(ca + cb, mean, m2, xs + ys)
  {
    MergeNumbers(ca as real, cb as real, (ca + cb) as real, a, b, Squares(xs), Squares(ys), Sum(xs), Sum(ys), mean, m2);
    SumsConcat(xs, ys);
  }

  class AlgoStdev {
    var count: int
    var mean: real
    var m2: real
    var maxTime: int
    /** Every value added so far. */
    ghost var samples: seq<real>

    ghost predicate Valid()
      reads this
    {
      Describes(count, mean, m2, samples)
    }

    constructor (maxTime: int, value: real)
      ensures Valid() && samples == [value] && this.maxTime == maxTime
    {
      count, mean, m2, this.maxTime, samples := 0, 0.0, 0.0, maxTime, [];
      new;
      AddValue(value);
    }

    method AddValue(value: real)
      requires Valid()
      modifies this
      ensures Valid() && samples == old(samples) + [value] && maxTime == old(maxTime)
    {
      ghost var xs, a := samples, mean;
      count := count + 1;
      var delta := value - mean;
      ghost var k, e := count as real, delta / count as real;
      assert delta == k * e;
      mean := mean + delta / count as real;
      var delta2 := value - mean;
      m2 := m2 + delta * delta2;
      samples := samples + [value];
      assert (xs + [value])[..|xs|] == xs;
      assert k - 1.0 == |xs| as real;
      OneMore(Squares(xs), Sum(xs), a, k, e);
    }

    /** The merge of two calculators that both hold values. */
    method MergePair(inst: AlgoStdev)
      requires Valid() && inst.Valid() && count > 0 && inst.count > 0
      modifies this`count, this`mean, this`m2
      ensures Describes(count, mean, m2, samples + inst.samples)
    {
      var n, m, delta := count, inst.count, inst.mean - mean;
      var total := n + m;
      var shift := delta * m as real / total as real;
      var spread := inst.m2 + delta * delta * n as real * m as real / total as real;
      MergeDescribes(n, mean, m2, samples, m, inst.mean, inst.m2, inst.samples, mean + shift, m2 + spread);
      mean := mean + shift;
      m2 := m2 + spread;
      count := total;
    }

    /** Merging in another calculator, or this one itself. */
    method Add(inst: AlgoStdev)
      requires Valid() && inst.Valid()
      modifies this
      ensures Valid() && samples == old(samples) + old(inst.samples)
      ensures maxTime == if old(inst.count) != 0 && old(inst.maxTime) > old(maxTime) then old(inst.maxTime) else old(maxTime)
    {
      ghost var xs, ys := samples, inst.samples;
      if inst.count == 0 {
        assert xs + ys == xs;
        return;
      }
      if count == 0 {
        assert xs + ys == ys;
        count, mean, m2 := inst.count, inst.mean, inst.m2;
      } else {
        MergePair(inst);
      }
      samples := xs + ys;
      if inst.maxTime > maxTime {
        maxTime := inst.maxTime;
      }
    }

    /** The method SampleStdDev: the two-pass result for every value added. */
    method SampleStdDev(sqrt: real -> real) returns (stdDev: Option<real>)
      requires Valid()
      ensures stdDev == StdDev(sqrt, samples)
    {
      DescribesMeans(count, mean, m2, samples);
      DescribesVariance(count, mean, m2, samples);
      if count < 2 {
        return None;
      }
      return Some(sqrt(m2 / (count - 1) as real));
    }
  }
}
