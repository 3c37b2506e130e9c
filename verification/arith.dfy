/** Division by a variable, which the solver does not know by itself. */
module Arithmetic {

  lemma DivModUnique(x: int, p: int, q: int, r: int)
    requires 0 <= r < p && x == p * q + r
    ensures x % p == r && x / p == q
  {
    var k := q - x / p;
    assert x == p * (x / p) + x % p;
    assert p * k == x % p - r by {
      Distribute(p, q, x / p);
    }
    if k > 0 {
      MulPositive(p, k);
    } else if k < 0 {
      MulPositive(p, -k);
    }
  }

  lemma Distribute(p: int, a: int, b: int)
    ensures p * (a - b) == p * a - p * b
  {
  }

  lemma {:induction false} MulPositive(p: int, k: int)
    requires p > 0 && k > 0
    ensures p * k >= p && p * -k <= -p
  {
    if k > 1 {
      MulPositive(p, k - 1);
      Distribute(p, k, 1);
    }
    Distribute(p, 0, k);
  }

  lemma AddPeriod(x: nat, p: nat)
    requires p > 0
    ensures (x + p) % p == x % p
  {
    var q := x / p;
    assert x == p * q + x % p;
    Distribute(p, q, -1);
    DivModUnique(x + p, p, q + 1, x % p);
  }

  lemma MulBound(a: nat, b: nat, d: nat)
    requires a < b && d > 0
    ensures a * d + d <= b * d
  {
    if a + 1 < b {
      MulPositive(d, b - a - 1);
      Distribute(d, b, a + 1);
    }
    Distribute(d, a, -1);
  }

  /** Position `x` in rotations of `n` slots of length `d`: which slot, and how far into it. */
  lemma Rotation(x: nat, n: nat, d: nat)
    requires n > 0 && d > 0
    ensures n * d > 0
    ensures x / d % n == x % (n * d) / d
    ensures x % (n * d) / d < n
  {
    MulPositive(d, n);
    var p := n * d;
    var q, r := x / p, x % p;
    assert x == p * q + r;
    var slot, into := r / d, r % d;
    assert r == d * slot + into;
    if slot >= n {
      MulAtLeast(slot, n, d);
    }
    assert x == d * (n * q + slot) + into by {
      Rearrange(n, d, q, slot);
    }
    DivModUnique(x, d, n * q + slot, into);
    DivModUnique(n * q + slot, n, q, slot);
  }

  lemma MulAtLeast(a: nat, b: nat, d: nat)
    requires a >= b
    ensures d * a >= b * d
  {
    if a > b && d > 0 {
      MulBound(b, a, d);
    }
  }

  lemma Rearrange(n: int, d: int, q: int, slot: int)
    ensures n * d * q + d * slot == d * (n * q + slot)
  {
  }

  lemma QuotientNat(x: nat, d: nat)
    requires d > 0
    ensures x / d >= 0 && x / d * d <= x < x / d * d + d
  {
    assert x == x / d * d + x % d;
  }

  lemma QuotientMono(a: nat, b: nat, d: nat)
    requires a <= b && d > 0
    ensures a / d <= b / d
  {
    QuotientNat(a, d);
    QuotientNat(b, d);
    if a / d > b / d {
      MulBound(b / d, a / d, d);
    }
  }

  lemma QuotientBelow(a: nat, m: nat, d: nat)
    requires d > 0 && a < m * d
    ensures a / d < m
  {
    QuotientNat(a, d);
    if a / d >= m {
      MulAtLeast(a / d, m, d);
    }
  }
}
