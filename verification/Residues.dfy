/** Facts about remainders that the solver does not find on its own. */
module Residues {

  lemma Multiples(d: int, k: int)
    requires d > 0
    ensures (k >= 1 ==> d * k >= d) && (k <= -1 ==> d * k <= -d)
  {
    if k <= -1 {
      var j := -k - 1;
      assert d * j >= 0 && d * k == -(d * j) - d;
    }
  }

  lemma Remainder(q: int, r: int, d: int)
    requires 0 <= r < d
    ensures (d * q + r) % d == r
  {
    var x := d * q + r;
    var k := x / d - q;
    assert x == d * (x / d) + x % d && d * (x / d) == d * q + d * k;
    Multiples(d, k);
  }

  /** The remainder counts on until it is zero again. */
  lemma NextResidue(c: nat, d: nat)
    requires d > 0 && (c + 1) % d != 0
    ensures (c + 1) % d == c % d + 1
  {
    var (q, r) := (c / d, c % d);
    assert c == d * q + r;
    if r + 1 < d {
      Remainder(q, r + 1, d);
    } else {
      assert c + 1 == d * (q + 1) + 0;
      Remainder(q + 1, 0, d);
    }
  }

  /** Two numbers have the same remainder exactly when their difference has none. */
  lemma SameResidue(a: int, b: int, d: int)
    requires d > 0
    ensures a % d == b % d <==> (a - b) % d == 0
  {
    var (k, r) := (a / d - b / d, a % d - b % d);
    assert a == d * (a / d) + a % d && b == d * (b / d) + b % d;
    assert a - b == d * k + r;
    if r >= 0 {
      Remainder(k, r, d);
    } else {
      assert a - b == d * (k - 1) + (r + d);
      Remainder(k - 1, r + d, d);
    }
  }
}
