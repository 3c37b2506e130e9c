/** Integers as bit strings, most significant bit first, and the exclusive-or of both. */
module BitStrings {
  import opened Arithmetic

  function Xor(a: nat, b: nat): nat
    decreases a + b
  {
    if a == 0 && b == 0 then 0 else (if a % 2 != b % 2 then 1 else 0) + 2 * Xor(a / 2, b / 2)
  }

  function Pow2(n: nat): (p: nat)
    ensures p > 0
  {
    if n == 0 then 1 else 2 * Pow2(n - 1)
  }

  lemma Pow2Values()
    ensures Pow2(8) == 0x100 && Pow2(15) == 0x8000 && Pow2(16) == 0x1_0000
  {
  }

  /** The low `n` bits of `v`. */
  function BitsOf(v: nat, n: nat): (bits: seq<bool>)
    ensures |bits| == n
  {
    if n == 0 then [] else BitsOf(v / 2, n - 1) + [v % 2 == 1]
  }

  /** Bit `i` of `v`, counting from the least significant. */
  predicate Bit(v: nat, i: nat) {
    if i == 0 then v % 2 == 1 else Bit(v / 2, i - 1)
  }

  lemma {:induction false} BitAt(v: nat, n: nat, i: nat)
    requires i < n
    ensures BitsOf(v, n)[n - 1 - i] == Bit(v, i)
  {
    if i > 0 {
      BitAt(v / 2, n - 1, i - 1);
    }
  }

  function XorBits(u: seq<bool>, v: seq<bool>): (d: seq<bool>)
    requires |u| == |v|
    ensures |d| == |u|
    ensures forall i :: 0 <= i < |d| ==> d[i] == (u[i] != v[i])
  {
    seq(|u|, i requires 0 <= i < |u| => u[i] != v[i])
  }

  function Zeros(n: nat): (bits: seq<bool>)
    ensures |bits| == n
    ensures forall i :: 0 <= i < n ==> !bits[i]
  {
    seq(n, i => false)
  }

  lemma XorHalves(a: nat, b: nat)
    ensures Xor(a, b) / 2 == Xor(a / 2, b / 2)
    ensures (Xor(a, b) % 2 == 1) == ((a % 2 == 1) != (b % 2 == 1))
  {
    var bit := if a % 2 != b % 2 then 1 else 0;
    var rest := Xor(a / 2, b / 2);
    assert Xor(a, b) == bit + 2 * rest;
    assert (bit + 2 * rest) / 2 == rest && (bit + 2 * rest) % 2 == bit;
  }

  lemma {:induction false} BitsOfXor(a: nat, b: nat, n: nat)
    ensures BitsOf(Xor(a, b), n) == XorBits(BitsOf(a, n), BitsOf(b, n))
  {
    if n > 0 {
      XorHalves(a, b);
      BitsOfXor(a / 2, b / 2, n - 1);
    }
  }

  lemma {:induction false} XorBound(a: nat, b: nat, n: nat)
    requires a < Pow2(n) && b < Pow2(n)
    ensures Xor(a, b) < Pow2(n)
  {
    if n > 0 {
      XorBound(a / 2, b / 2, n - 1);
    }
  }

  lemma {:induction false} BitsOfInjective(a: nat, b: nat, n: nat)
    requires a < Pow2(n) && b < Pow2(n) && BitsOf(a, n) == BitsOf(b, n)
    ensures a == b
  {
    if n > 0 {
      var u, v := BitsOf(a, n), BitsOf(b, n);
      assert u[n - 1] == (a % 2 == 1) && v[n - 1] == (b % 2 == 1);
      assert u[..n - 1] == BitsOf(a / 2, n - 1) && v[..n - 1] == BitsOf(b / 2, n - 1);
      BitsOfInjective(a / 2, b / 2, n - 1);
    }
  }

  /** Dropping the top bit of the low `n + 1` bits leaves the low `n`. */
  lemma {:induction false} BitsOfTail(v: nat, n: nat)
    ensures BitsOf(v, n + 1)[1..] == BitsOf(v, n)
  {
    if n > 0 {
      BitsOfTail(v / 2, n - 1);
    }
  }

  lemma {:induction false} BitsOfMod(v: nat, n: nat)
    ensures BitsOf(v % Pow2(n), n) == BitsOf(v, n)
  {
    if n > 0 {
      var p := Pow2(n - 1);
      ModHalf(v, p);
      BitsOfMod(v / 2, n - 1);
    }
  }

  lemma ModHalf(v: nat, p: nat)
    requires p > 0
    ensures v % (2 * p) / 2 == v / 2 % p && v % (2 * p) % 2 == v % 2
  {
    var q, r := v / (2 * p), v % (2 * p);
    assert v == 2 * (p * q) + r;
    assert v / 2 == p * q + r / 2;
    DivModUnique(v / 2, p, q, r / 2);
  }

  lemma {:induction false} BitsOfTop(v: nat, n: nat)
    ensures BitsOf(v, n + 1)[0] == (v / Pow2(n) % 2 == 1)
  {
    if n > 0 {
      BitsOfTop(v / 2, n - 1);
      DivDiv(v, Pow2(n - 1));
    }
  }

  lemma DivDiv(v: nat, p: nat)
    requires p > 0
    ensures v / 2 / p == v / (2 * p)
  {
    var q, r := v / (2 * p), v % (2 * p);
    assert v == 2 * (p * q) + r;
    DivModUnique(v / 2, p, q, r / 2);
  }

  /** Shifting left by `k` appends `k` zero bits. */
  lemma {:induction false} BitsOfScaled(v: nat, n: nat, k: nat)
    ensures BitsOf(v * Pow2(k), n + k) == BitsOf(v, n) + Zeros(k)
  {
    if k == 0 {
      assert BitsOf(v, n) + Zeros(0) == BitsOf(v, n);
    } else {
      BitsOfScaled(v, n, k - 1);
      assert v * Pow2(k) == 2 * (v * Pow2(k - 1));
      assert Zeros(k) == Zeros(k - 1) + [false];
    }
  }
}
