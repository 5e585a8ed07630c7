/** Division facts that need a variable divisor. */
module Numbers {

  lemma AtLeast(e: nat, d: nat)
    requires e > 0
    ensures e * d >= d
  {
    assert e * d == (e - 1) * d + d;
  }

  lemma Far(e: int, d: nat)
    requires e != 0
    ensures e * d >= d || e * d + d <= 0
  {
    if e > 0 {
      AtLeast(e, d);
    } else {
      AtLeast(-e, d);
      assert (-e) * d == -(e * d);
    }
  }

  /** Quotient and remainder are unique. */
  lemma QuotientIs(k: nat, d: nat, q: nat, r: nat)
    requires r < d && k == q * d + r
    ensures k / d == q && k % d == r
  {
    var e := k / d - q;
    assert k == (k / d) * d + k % d;
    assert e * d == (k / d) * d - q * d;
    if e != 0 { Far(e, d); }
  }

  lemma DivNext(k: nat, d: nat)
    requires d > 0
    ensures (k + 1) % d == if k % d == d - 1 then 0 else k % d + 1
    ensures (k + 1) / d == k / d + if k % d == d - 1 then 1 else 0
  {
    var q, r := k / d, k % d;
    assert k == q * d + r;
    if r == d - 1 {
      assert k + 1 == (q + 1) * d;
      QuotientIs(k + 1, d, q + 1, 0);
    } else {
      QuotientIs(k + 1, d, q, r + 1);
    }
  }

  lemma ModPlusDivisor(k: nat, d: nat)
    requires d > 0
    ensures (d + k) % d == k % d
  {
    var q, r := k / d, k % d;
    assert k == q * d + r;
    assert d + k == (q + 1) * d + r;
    QuotientIs(d + k, d, q + 1, r);
  }

  /** Numbers less than d apart have different remainders. */
  lemma ModDistinct(x: nat, y: nat, d: nat)
    requires x < y < x + d
    ensures x % d != y % d
  {
    var e := y / d - x / d;
    assert x == (x / d) * d + x % d && y == (y / d) * d + y % d;
    assert e * d == (y / d) * d - (x / d) * d;
    if e != 0 { Far(e, d); }
  }
}
