/**
 CRC-16/CCITT-FALSE: the byte loop both sides run, and what it detects.

 The byte loop is shown to be a bit-serial register fed most significant bit first. A step of
 that register is linear over exclusive-or, from which the error-detection theorem follows.
 */
module Crc {
  import opened Bytes
  import opened BitStrings

  const INITIAL: nat := 0xFFFF

  /** One turn of the inner loop: shift left in 16 bits, and reduce when a one falls out. */
  function Shift(crc: nat): nat {
    if crc / 0x8000 % 2 == 1 then Xor(crc * 2 % 0x1_0000, 0x1021) else crc * 2 % 0x1_0000
  }

  function Shifted(crc: nat, n: nat): nat {
    if n == 0 then crc else Shift(Shifted(crc, n - 1))
  }

  function HighByte(b: Byte): nat {
    b as int * 0x100
  }

  function Feed(crc: nat, b: Byte): nat {
    Shifted(Xor(crc, HighByte(b)), 8)
  }

  function FeedAll(crc: nat, data: seq<Byte>): nat
    decreases |data|
  {
    if data == [] then crc else FeedAll(Feed(crc, data[0]), data[1..])
  }

  function Crc16(data: seq<Byte>): U16 {
    FeedAllBound(INITIAL, data);
    FeedAll(INITIAL, data)
  }

  lemma ShiftBound(crc: nat)
    ensures Shift(crc) < 0x1_0000
  {
    Pow2Values();
    XorBound(crc * 2 % 0x1_0000, 0x1021, 16);
  }

  lemma {:induction false} FeedAllBound(crc: nat, data: seq<Byte>)
    requires crc < 0x1_0000
    ensures FeedAll(crc, data) < 0x1_0000
    decreases |data|
  {
    if data != [] {
      ShiftBound(Shifted(Xor(crc, HighByte(data[0])), 7));
      FeedAllBound(Feed(crc, data[0]), data[1..]);
    }
  }

  /** The nested loops of the Go and the Python implementation, which are the same statements. */
  method ComputeCrc16(data: seq<Byte>) returns (r: U16)
    ensures r == Crc16(data)
  {
    var crc := INITIAL;
    for i := 0 to |data|
      invariant FeedAll(crc, data[i..]) == FeedAll(INITIAL, data)
    {
      crc := Xor(crc, HighByte(data[i]));
      ghost var start := crc;
      for n := 0 to 8
        invariant crc == Shifted(start, n)
      {
        if crc / 0x8000 % 2 == 1 {
          crc := Xor(crc * 2 % 0x1_0000, 0x1021);
        } else {
          crc := crc * 2 % 0x1_0000;
        }
      }
      assert data[i..][1..] == data[i + 1..];
    }
    FeedAllBound(INITIAL, data);
    r := crc;
  }

  // ----- the bit-serial register

  /** The register's 16 bits. */
  type Register = r: seq<bool> | |r| == 16 witness Zeros(16)

  /** The bits of 0x1021. */
  const GENERATOR: Register :=
    [false, false, false, true, false, false, false, false,
     false, false, true, false, false, false, false, true]

  function ShiftBits(r: Register): Register {
    if r[0] then XorBits(r[1..] + [false], GENERATOR) else r[1..] + [false]
  }

  function ShiftedBits(r: Register, n: nat): Register {
    if n == 0 then r else ShiftBits(ShiftedBits(r, n - 1))
  }

  function FeedBit(r: Register, bit: bool): Register {
    ShiftBits(XorBits(r, [bit] + Zeros(15)))
  }

  function FeedBits(r: Register, bits: seq<bool>): Register {
    if bits == [] then r else FeedBit(FeedBits(r, bits[..|bits| - 1]), bits[|bits| - 1])
  }

  function Bits(data: seq<Byte>): (bits: seq<bool>)
    ensures |bits| == 8 * |data|
  {
    if data == [] then [] else BitsOf(data[0], 8) + Bits(data[1..])
  }

  lemma GeneratorBits(g: nat)
    requires g == 0x1021
    ensures BitsOf(g, 16) == GENERATOR
  {
    forall i: nat | i < 16
      ensures BitsOf(g, 16)[i] == GENERATOR[i]
    {
      BitAt(g, 16, 15 - i);
      GeneratorBit(15 - i);
    }
  }

  /** 0x1021 is the polynomial with terms in degree 12, 5 and 0. */
  lemma GeneratorBit(k: nat)
    requires k < 16
    ensures Bit(0x1021, k) == (k == 12 || k == 5 || k == 0) == GENERATOR[15 - k]
  {
    assert !Bit(0, 0) && !Bit(0, 1) && !Bit(0, 2);
    assert Bit(0x1021, 0) && Bit(0x1021, 5) && Bit(0x1021, 12);
    assert !Bit(0x1021, 1) && !Bit(0x1021, 2) && !Bit(0x1021, 3) && !Bit(0x1021, 4);
    assert !Bit(0x1021, 6) && !Bit(0x1021, 7) && !Bit(0x1021, 8) && !Bit(0x1021, 9);
    assert !Bit(0x1021, 10) && !Bit(0x1021, 11);
    assert !Bit(0x1021, 13) && !Bit(0x1021, 14) && !Bit(0x1021, 15);
  }

  /** The register after a plain shift. */
  lemma ShiftedOutBits(crc: nat)
    ensures BitsOf(crc, 16)[0] == (crc / 0x8000 % 2 == 1)
    ensures BitsOf(crc * 2 % 0x1_0000, 16) == BitsOf(crc, 16)[1..] + [false]
  {
    Pow2Values();
    BitsOfTop(crc, 15);
    BitsOfMod(crc * 2, 16);
    BitsOfTail(crc, 15);
  }

  lemma ShiftIsShiftBits(crc: nat)
    ensures BitsOf(Shift(crc), 16) == ShiftBits(BitsOf(crc, 16))
  {
    ShiftedOutBits(crc);
    var g: nat := 0x1021;
    BitsOfXor(crc * 2 % 0x1_0000, g, 16);
    GeneratorBits(g);
  }

  lemma {:induction false} ShiftedIsShiftedBits(crc: nat, n: nat)
    ensures BitsOf(Shifted(crc, n), 16) == ShiftedBits(BitsOf(crc, 16), n)
  {
    if n > 0 {
      ShiftedIsShiftedBits(crc, n - 1);
      ShiftIsShiftBits(Shifted(crc, n - 1));
    }
  }

  lemma ShiftLinear(x: Register, y: Register)
    ensures ShiftBits(XorBits(x, y)) == XorBits(ShiftBits(x), ShiftBits(y))
  {
  }

  lemma PeelBit(r: Register, w: Register)
    ensures ShiftBits(XorBits(r, w)) == XorBits(FeedBit(r, w[0]), w[1..] + [false])
  {
    var top, low := [w[0]] + Zeros(15), [false] + w[1..];
    assert XorBits(r, w) == XorBits(XorBits(r, top), low);
    ShiftLinear(XorBits(r, top), low);
  }

  /** Shifting `k` times with `w` mixed in feeds the first `k` bits of `w`. */
  lemma {:induction false} ShiftedFeeds(r: Register, w: Register, k: nat)
    requires k <= 16
    ensures ShiftedBits(XorBits(r, w), k) == XorBits(FeedBits(r, w[..k]), w[k..] + Zeros(k))
  {
    if k == 0 {
      assert w[0..] + Zeros(0) == w;
    } else {
      ShiftedFeeds(r, w, k - 1);
      var rest := w[k - 1..] + Zeros(k - 1);
      PeelBit(FeedBits(r, w[..k - 1]), rest);
      assert rest[1..] + [false] == w[k..] + Zeros(k);
      assert w[..k][..k - 1] == w[..k - 1];
    }
  }

  lemma FeedIsFeedBits(crc: nat, b: Byte)
    ensures BitsOf(Feed(crc, b), 16) == FeedBits(BitsOf(crc, 16), BitsOf(b, 8))
  {
    var w := BitsOf(b, 8) + Zeros(8);
    Pow2Values();
    BitsOfScaled(b, 8, 8);
    BitsOfXor(crc, HighByte(b), 16);
    ShiftedIsShiftedBits(Xor(crc, HighByte(b)), 8);
    ShiftedFeeds(BitsOf(crc, 16), w, 8);
    assert w[..8] == BitsOf(b, 8);
    assert w[8..] + Zeros(8) == Zeros(16);
    var c := FeedBits(BitsOf(crc, 16), BitsOf(b, 8));
    assert XorBits(c, Zeros(16)) == c;
  }

  lemma {:induction false} FeedBitsSplit(r: Register, a: seq<bool>, b: seq<bool>)
    ensures FeedBits(r, a + b) == FeedBits(FeedBits(r, a), b)
    decreases |b|
  {
    if b == [] {
      assert a + b == a;
    } else {
      FeedBitsSplit(r, a, b[..|b| - 1]);
      assert (a + b)[..|a + b| - 1] == a + b[..|b| - 1];
    }
  }

  lemma {:induction false} FeedAllIsFeedBits(crc: nat, data: seq<Byte>)
    ensures BitsOf(FeedAll(crc, data), 16) == FeedBits(BitsOf(crc, 16), Bits(data))
    decreases |data|
  {
    if data != [] {
      FeedIsFeedBits(crc, data[0]);
      FeedAllIsFeedBits(Feed(crc, data[0]), data[1..]);
      FeedBitsSplit(BitsOf(crc, 16), BitsOf(data[0], 8), Bits(data[1..]));
    }
  }

  // ----- error detection

  lemma {:induction false} FeedBitsLinear(x: Register, y: Register, u: seq<bool>, v: seq<bool>)
    requires |u| == |v|
    ensures XorBits(FeedBits(x, u), FeedBits(y, v)) == FeedBits(XorBits(x, y), XorBits(u, v))
    decreases |u|
  {
    if u != [] {
      var n := |u| - 1;
      var a, b := FeedBits(x, u[..n]), FeedBits(y, v[..n]);
      FeedBitsLinear(x, y, u[..n], v[..n]);
      assert XorBits(u, v)[..n] == XorBits(u[..n], v[..n]);
      var p, q := [u[n]] + Zeros(15), [v[n]] + Zeros(15);
      ShiftLinear(XorBits(a, p), XorBits(b, q));
      assert XorBits(XorBits(a, p), XorBits(b, q)) == XorBits(XorBits(a, b), [u[n] != v[n]] + Zeros(15));
    }
  }

  /** The last `16 - n` bits of the register are clear. */
  ghost predicate ClearFrom(r: Register, n: nat) {
    forall i :: n <= i < 16 ==> !r[i]
  }

  lemma ClearStep(r: Register, bit: bool, n: nat)
    requires n < 16 && ClearFrom(FeedBit(r, bit), n)
    ensures ClearFrom(r, n + 1)
  {
    var e := XorBits(r, [bit] + Zeros(15));
    assert !ShiftBits(e)[15];
    forall i | n + 1 <= i < 16
      ensures !r[i]
    {
      assert !ShiftBits(e)[i - 1];
    }
  }

  /** A register that `n` further bits bring to zero had its last `16 - n` bits clear. */
  lemma {:induction false} KernelClear(r: Register, bits: seq<bool>)
    requires |bits| <= 16 && FeedBits(r, bits) == Zeros(16)
    ensures ClearFrom(r, |bits|)
  {
    KernelClearBack(r, bits, 0);
  }

  lemma {:induction false} KernelClearBack(r: Register, bits: seq<bool>, n: nat)
    requires |bits| + n <= 16 && ClearFrom(FeedBits(r, bits), n)
    ensures ClearFrom(r, n + |bits|)
    decreases |bits|
  {
    if bits != [] {
      var m := |bits| - 1;
      ClearStep(FeedBits(r, bits[..m]), bits[m], n);
      KernelClearBack(r, bits[..m], n + 1);
    }
  }

  /** No non-zero pattern of up to 16 bits cancels itself out of a clear register. */
  lemma {:induction false} NoShortCancel(bits: seq<bool>)
    requires |bits| <= 16 && FeedBits(Zeros(16), bits) == Zeros(16)
    ensures bits == Zeros(|bits|)
    decreases |bits|
  {
    if bits != [] {
      var next := FeedBit(Zeros(16), bits[0]);
      FeedBitsSplit(Zeros(16), [bits[0]], bits[1..]);
      assert [bits[0]] + bits[1..] == bits;
      KernelClear(next, bits[1..]);
      assert !next[15];
      assert next == Zeros(16);
      NoShortCancel(bits[1..]);
    }
  }

  lemma {:induction false} FeedBitsInjective(x: Register, y: Register, bits: seq<bool>)
    requires FeedBits(x, bits) == FeedBits(y, bits)
    ensures x == y
    decreases |bits|
  {
    if bits != [] {
      var n := |bits| - 1;
      var a, b := FeedBits(x, bits[..n]), FeedBits(y, bits[..n]);
      FeedBitInjective(a, b, bits[n]);
      FeedBitsInjective(x, y, bits[..n]);
    }
  }

  lemma FeedBitInjective(a: Register, b: Register, bit: bool)
    requires FeedBit(a, bit) == FeedBit(b, bit)
    ensures a == b
  {
    var p := [bit] + Zeros(15);
    var x, y := XorBits(a, p), XorBits(b, p);
    assert ShiftBits(x)[15] == x[0] && ShiftBits(y)[15] == y[0];
    forall i | 0 <= i < 16
      ensures a[i] == b[i]
    {
      assert (a[i] == b[i]) == (x[i] == y[i]);
      if i > 0 {
        assert ShiftBits(x)[i - 1] == ShiftBits(y)[i - 1];
      }
    }
  }

  /** The two bit strings agree outside the 16 positions from `at` on. */
  ghost predicate AgreeOutside(u: seq<bool>, v: seq<bool>, at: nat) {
    |u| == |v| && forall i :: 0 <= i < |u| && !(at <= i < at + 16) ==> u[i] == v[i]
  }

  lemma WindowInjective(r: Register, x: seq<bool>, y: seq<bool>)
    requires |x| == |y| <= 16 && FeedBits(r, x) == FeedBits(r, y)
    ensures x == y
  {
    FeedBitsLinear(r, r, x, y);
    assert XorBits(r, r) == Zeros(16);
    assert XorBits(FeedBits(r, x), FeedBits(r, y)) == Zeros(16);
    NoShortCancel(XorBits(x, y));
    forall i | 0 <= i < |x|
      ensures x[i] == y[i]
    {
      assert !XorBits(x, y)[i];
    }
  }

  lemma FramedInjective(r: Register, p: seq<bool>, x: seq<bool>, y: seq<bool>, t: seq<bool>)
    requires |x| == |y| <= 16
    requires FeedBits(r, p + (x + t)) == FeedBits(r, p + (y + t))
    ensures x == y
  {
    var c := FeedBits(r, p);
    FeedBitsSplit(r, p, x + t);
    FeedBitsSplit(r, p, y + t);
    FeedBitsSplit(c, x, t);
    FeedBitsSplit(c, y, t);
    FeedBitsInjective(FeedBits(c, x), FeedBits(c, y), t);
    WindowInjective(c, x, y);
  }

  lemma BurstBits(r: Register, u: seq<bool>, v: seq<bool>, at: nat)
    requires AgreeOutside(u, v, at) && FeedBits(r, u) == FeedBits(r, v)
    ensures u == v
  {
    var lo := if at < |u| then at else |u|;
    var hi := if at + 16 < |u| then at + 16 else |u|;
    SameEnds(u, v, at, lo, hi);
    ThreeParts(u, lo, hi);
    ThreeParts(v, lo, hi);
    FramedInjective(r, u[..lo], u[lo..hi], v[lo..hi], u[hi..]);
  }

  lemma SameEnds(u: seq<bool>, v: seq<bool>, at: nat, lo: nat, hi: nat)
    requires AgreeOutside(u, v, at) && lo <= hi <= |u|
    requires lo <= at && (hi == |u| || hi == at + 16)
    ensures u[..lo] == v[..lo] && u[hi..] == v[hi..]
  {
  }

  lemma ThreeParts(u: seq<bool>, lo: nat, hi: nat)
    requires lo <= hi <= |u|
    ensures u == u[..lo] + (u[lo..hi] + u[hi..])
  {
  }

  lemma {:induction false} BitsAt(data: seq<Byte>, i: nat)
    requires i < |data|
    ensures Bits(data)[8 * i..8 * i + 8] == BitsOf(data[i], 8)
  {
    hide BitsOf;
    if i > 0 {
      BitsAt(data[1..], i - 1);
      SliceBehind(BitsOf(data[0], 8), Bits(data[1..]), 8 * (i - 1), 8);
    }
  }

  lemma SliceBehind<T>(front: seq<T>, rest: seq<T>, at: nat, n: nat)
    requires at + n <= |rest|
    ensures (front + rest)[|front| + at..|front| + at + n] == rest[at..at + n]
  {
  }

  lemma BitsInjective(a: seq<Byte>, b: seq<Byte>)
    requires |a| == |b| && Bits(a) == Bits(b)
    ensures a == b
  {
    Pow2Values();
    forall i | 0 <= i < |a|
      ensures a[i] == b[i]
    {
      BitsAt(a, i);
      BitsAt(b, i);
      BitsOfInjective(a[i], b[i], 8);
    }
  }

  /** `b` is `a` after an error burst: it differs, but only within 16 consecutive bits. */
  ghost predicate Burst(a: seq<Byte>, b: seq<Byte>) {
    |a| == |b| && a != b && exists at: nat :: AgreeOutside(Bits(a), Bits(b), at)
  }

  /** Every burst of up to 16 bits, at any position of data of any length, changes the CRC. */
  lemma BurstDetected(a: seq<Byte>, b: seq<Byte>)
    requires Burst(a, b)
    ensures Crc16(a) != Crc16(b)
  {
    var at: nat :| AgreeOutside(Bits(a), Bits(b), at);
    if Crc16(a) == Crc16(b) {
      FeedAllIsFeedBits(INITIAL, a);
      FeedAllIsFeedBits(INITIAL, b);
      BurstBits(BitsOf(INITIAL, 16), Bits(a), Bits(b), at);
      BitsInjective(a, b);
    }
  }

  /** Changing anything within two adjacent bytes is such a burst. */
  lemma AdjacentBytesBurst(a: seq<Byte>, b: seq<Byte>, k: nat)
    requires |a| == |b| && a != b
    requires forall i :: 0 <= i < |a| && i != k && i != k + 1 ==> a[i] == b[i]
    ensures Burst(a, b)
  {
    var u, v := Bits(a), Bits(b);
    forall i | 0 <= i < |u| && !(8 * k <= i < 8 * k + 16)
      ensures u[i] == v[i]
    {
      var j := i / 8;
      BitsAt(a, j);
      BitsAt(b, j);
      assert u[i] == u[8 * j..8 * j + 8][i - 8 * j];
      assert v[i] == v[8 * j..8 * j + 8][i - 8 * j];
    }
    assert AgreeOutside(u, v, 8 * k);
  }
}
