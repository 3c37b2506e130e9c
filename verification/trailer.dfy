/**
 Damage where the body meets its CRC.

 The trailer is little-endian, so the byte next to the body is the low half of the CRC, and the
 burst guarantee does not reach across the border. Exactly one pattern gets through.
 */
module Trailer {
  import opened Bytes
  import opened BitStrings
  import opened Crc
  import opened Format

  /** The register shifted, with `t` fed back at the terms of the generator. */
  function Reduced(r: Register, t: bool): Register {
    [r[1], r[2], r[3], r[4] != t, r[5], r[6], r[7], r[8],
     r[9], r[10], r[11] != t, r[12], r[13], r[14], r[15], t]
  }

  function Stepped(r: Register, bit: bool): Register {
    Reduced(r, r[0] != bit)
  }

  lemma ShiftReduced(e: Register)
    ensures ShiftBits(e) == Reduced(e, e[0])
  {
  }

  lemma FeedBitStepped(r: Register, bit: bool)
    ensures FeedBit(r, bit) == Stepped(r, bit)
  {
    hide ShiftBits;
    var e := XorBits(r, [bit] + Zeros(15));
    ShiftReduced(e);
    assert e[1..] == r[1..];
    TopIgnored(e, r, e[0]);
  }

  lemma TopIgnored(e: Register, r: Register, t: bool)
    requires e[1..] == r[1..]
    ensures Reduced(e, t) == Reduced(r, t)
  {
    assert forall i :: 1 <= i < 16 ==> e[i] == e[1..][i - 1] && r[i] == r[1..][i - 1];
  }

  /** Four more bits into a register. */
  lemma FeedFour(r: Register, u: seq<bool>)
    requires |u| == 4
    ensures FeedBits(r, u) == Stepped(Stepped(Stepped(Stepped(r, u[0]), u[1]), u[2]), u[3])
  {
    hide FeedBit, Stepped;
    assert u[..3][..2] == u[..2] && u[..2][..1] == u[..1] && u[..1][..0] == [];
    FeedBitStepped(r, u[0]);
    FeedBitStepped(Stepped(r, u[0]), u[1]);
    FeedBitStepped(Stepped(Stepped(r, u[0]), u[1]), u[2]);
    FeedBitStepped(Stepped(Stepped(Stepped(r, u[0]), u[1]), u[2]), u[3]);
    assert FeedBits(r, u[..1]) == Stepped(r, u[0]);
    assert FeedBits(r, u[..2]) == Stepped(Stepped(r, u[0]), u[1]);
    assert FeedBits(r, u[..3]) == Stepped(Stepped(Stepped(r, u[0]), u[1]), u[2]);
  }

  /** What a byte makes of a clear register, `t` being its bits with the feedback in. */
  function ByteRegister(t: seq<bool>): Register
    requires |t| == 8
  {
    [t[4], t[5], t[6], t[0] != t[7], t[1], t[2], t[3], t[4],
     t[0] != t[5], t[1] != t[6], t[2] != t[7], t[3], t[4], t[5], t[6], t[7]]
  }

  function HalfRegister(t: seq<bool>): Register
    requires |t| == 4
  {
    [t[0], t[1], t[2], t[3], false, false, false, t[0], t[1], t[2], t[3], false, t[0], t[1], t[2], t[3]]
  }

  function Feedback(u: seq<bool>): seq<bool>
    requires |u| == 8
  {
    [u[0], u[1], u[2], u[3], u[4] != u[0], u[5] != u[1], u[6] != u[2], u[7] != u[3]]
  }

  lemma FirstHalf(u: seq<bool>)
    requires |u| == 4
    ensures FeedBits(Zeros(16), u) == HalfRegister(u)
  {
    hide FeedBits;
    FeedFour(Zeros(16), u);
  }

  lemma SecondHalf(t: seq<bool>, u: seq<bool>)
    requires |t| == 4 && |u| == 4
    ensures FeedBits(HalfRegister(t), u) == ByteRegister(Feedback(t + u))
  {
    hide FeedBits;
    FeedFour(HalfRegister(t), u);
  }

  lemma ByteFed(u: seq<bool>)
    requires |u| == 8
    ensures FeedBits(Zeros(16), u) == ByteRegister(Feedback(u))
  {
    hide FeedBits, ByteRegister, Feedback, HalfRegister;
    FeedBitsSplit(Zeros(16), u[..4], u[4..]);
    assert u[..4] + u[4..] == u;
    FirstHalf(u[..4]);
    SecondHalf(u[..4], u[4..]);
  }

  const MASK: seq<bool> := [true, false, false, false, true, false, false, true]
  const SHADOW: seq<bool> := [true, false, true, false, false, false, false, true]

  /** Only one non-zero byte leaves the upper half of a clear register clear. */
  lemma UpperClear(u: seq<bool>)
    requires |u| == 8
    ensures FeedBits(Zeros(16), u)[..8] == Zeros(8) <==> u == Zeros(8) || u == MASK
    ensures FeedBits(Zeros(16), Zeros(8)) == Zeros(16)
    ensures FeedBits(Zeros(16), MASK)[8..] == SHADOW
  {
    hide FeedBits, ByteRegister, Feedback;
    ByteFed(u);
    ByteFed(Zeros(8));
    ByteFed(MASK);
    UpperHalf(u);
    FedConstants();
  }

  lemma UpperHalf(u: seq<bool>)
    requires |u| == 8
    ensures ByteRegister(Feedback(u))[..8] == Zeros(8) <==> u == Zeros(8) || u == MASK
  {
    var r, t := ByteRegister(Feedback(u)), Feedback(u);
    var h: seq<bool> := [t[4], t[5], t[6], t[0] != t[7], t[1], t[2], t[3], t[4]];
    assert r[..8] == h;
    if h == Zeros(8) {
      assert !h[0] && !h[1] && !h[2] && !h[3] && !h[4] && !h[5] && !h[6];
    }
  }

  lemma FedConstants()
    ensures ByteRegister(Feedback(Zeros(8))) == Zeros(16) && ByteRegister(Feedback(MASK))[8..] == SHADOW
  {
  }

  // ----- in bytes

  lemma {:induction false} BitsSnoc(data: seq<Byte>, b: Byte)
    ensures Bits(data + [b]) == Bits(data) + BitsOf(b, 8)
    decreases |data|
  {
    hide BitsOf;
    if data == [] {
      assert [] + [b] == [b] && [b][1..] == [];
    } else {
      assert (data + [b])[1..] == data[1..] + [b];
      BitsSnoc(data[1..], b);
    }
  }

  /** The CRCs of two bodies that differ in their last byte differ by that difference alone. */
  lemma BorderBits(front: seq<Byte>, a: Byte, b: Byte)
    ensures XorBits(BitsOf(Crc16(front + [a]), 16), BitsOf(Crc16(front + [b]), 16))
         == FeedBits(Zeros(16), XorBits(BitsOf(a, 8), BitsOf(b, 8)))
  {
    hide FeedBits, FeedAll, BitsOf, Bits;
    var start: Register := BitsOf(INITIAL, 16);
    var c := FeedBits(start, Bits(front));
    FeedAllIsFeedBits(INITIAL, front + [a]);
    FeedAllIsFeedBits(INITIAL, front + [b]);
    BitsSnoc(front, a);
    BitsSnoc(front, b);
    FeedBitsSplit(start, Bits(front), BitsOf(a, 8));
    FeedBitsSplit(start, Bits(front), BitsOf(b, 8));
    FeedBitsLinear(c, c, BitsOf(a, 8), BitsOf(b, 8));
    assert XorBits(c, c) == Zeros(16);
  }

  /** `v` without its low `k` bits. */
  function Upper(v: nat, k: nat): nat {
    if k == 0 then v else Upper(v / 2, k - 1)
  }

  lemma UpperByte(v: nat)
    ensures Upper(v, 8) == v / 256
  {
    UpperFour(v);
    UpperFour(v / 16);
    UpperTwice(v, 4, 4);
  }

  lemma UpperFour(v: nat)
    ensures Upper(v, 4) == v / 16
  {
    UpperTwo(v);
    UpperTwo(v / 4);
    UpperTwice(v, 2, 2);
  }

  lemma UpperTwo(v: nat)
    ensures Upper(v, 2) == v / 4
  {
    assert Upper(v / 2, 1) == Upper(v / 2 / 2, 0);
  }

  lemma {:induction false} UpperTwice(v: nat, j: nat, k: nat)
    ensures Upper(v, j + k) == Upper(Upper(v, j), k)
  {
    if j > 0 {
      UpperTwice(v / 2, j - 1, k);
    }
  }

  lemma {:induction false} BitsOfHalves(v: nat, n: nat, k: nat)
    ensures BitsOf(v, n + k) == BitsOf(Upper(v, k), n) + BitsOf(v, k)
  {
    hide BitsOf;
    if k == 0 {
      NoBits(v);
      assert BitsOf(v, n) + [] == BitsOf(v, n);
    } else {
      var low := [v % 2 == 1];
      BitsOfHalves(v / 2, n, k - 1);
      NextBit(v, n + k);
      NextBit(v, k);
      var high, mid := BitsOf(Upper(v, k), n), BitsOf(v / 2, k - 1);
      assert high + mid + low == high + (mid + low);
    }
  }

  lemma NoBits(v: nat)
    ensures BitsOf(v, 0) == []
  {
  }

  lemma NextBit(v: nat, n: nat)
    requires n > 0
    ensures BitsOf(v, n) == BitsOf(v / 2, n - 1) + [v % 2 == 1]
  {
  }

  /** A CRC as its two bytes, upper first. */
  lemma CrcHalves(crc: U16)
    ensures BitsOf(crc, 16) == BitsOf(crc / 256, 8) + BitsOf(crc % 256, 8)
  {
    hide BitsOf;
    Pow2Values();
    UpperByte(crc);
    BitsOfHalves(crc, 8, 8);
    BitsOfMod(crc, 8);
  }

  lemma MaskBits()
    ensures BitsOf(0x89, 8) == MASK && BitsOf(0xA1, 8) == SHADOW && BitsOf(0, 8) == Zeros(8)
  {
    hide BitsOf, Bit;
    forall i: nat | i < 8
      ensures BitsOf(0x89, 8)[i] == MASK[i] && BitsOf(0xA1, 8)[i] == SHADOW[i] && !BitsOf(0, 8)[i]
    {
      BitAt(0x89, 8, 7 - i);
      BitAt(0xA1, 8, 7 - i);
      BitAt(0, 8, 7 - i);
      MaskBit(7 - i);
    }
  }

  lemma MaskBit(k: nat)
    requires k < 8
    ensures Bit(0x89, k) == MASK[7 - k] && Bit(0xA1, k) == SHADOW[7 - k] && !Bit(0, k)
  {
    assert Bit(0x89, 0) && Bit(0x89, 3) && Bit(0x89, 7);
    assert !Bit(0x89, 1) && !Bit(0x89, 2) && !Bit(0x89, 4) && !Bit(0x89, 5) && !Bit(0x89, 6);
    assert Bit(0xA1, 0) && Bit(0xA1, 5) && Bit(0xA1, 7);
    assert !Bit(0xA1, 1) && !Bit(0xA1, 2) && !Bit(0xA1, 3) && !Bit(0xA1, 4) && !Bit(0xA1, 6);
    NoBit(k);
  }

  lemma {:induction false} NoBit(k: nat)
    ensures !Bit(0, k)
  {
    if k > 0 {
      NoBit(k - 1);
    }
  }

  /** A byte difference is a mask exactly when the bits differ by the mask's. */
  lemma XorIs(a: Byte, b: Byte, mask: Byte)
    ensures Xor(a, b) == mask <==> XorBits(BitsOf(a, 8), BitsOf(b, 8)) == BitsOf(mask, 8)
  {
    hide BitsOf, Xor;
    Pow2Values();
    BitsOfXor(a, b, 8);
    XorBound(a, b, 8);
    if BitsOf(Xor(a, b), 8) == BitsOf(mask, 8) {
      BitsOfInjective(Xor(a, b), mask, 8);
    }
  }

  lemma XorZeroIff(a: Byte, b: Byte)
    ensures XorBits(BitsOf(a, 8), BitsOf(b, 8)) == Zeros(8) <==> a == b
  {
    hide BitsOf;
    Pow2Values();
    var d := XorBits(BitsOf(a, 8), BitsOf(b, 8));
    if d == Zeros(8) {
      assert forall i :: 0 <= i < 8 ==> !d[i];
      assert BitsOf(a, 8) == BitsOf(b, 8);
      BitsOfInjective(a, b, 8);
    }
  }

  lemma XorSame(u: seq<bool>, v: seq<bool>, w: seq<bool>)
    requires |u| == |v| == |w|
    ensures XorBits(u, v) == w <==> v == XorBits(u, w)
  {
    if XorBits(u, v) == w {
      assert forall i :: 0 <= i < |w| ==> w[i] == (u[i] != v[i]);
    }
    if v == XorBits(u, w) {
      assert forall i :: 0 <= i < |v| ==> v[i] == (u[i] != w[i]);
    }
  }

  /** The differences of the two halves of the CRC, for a difference in the last byte. */
  lemma HalvesDiffer(front: seq<Byte>, a: Byte, b: Byte)
    ensures
      var was, now := Crc16(front + [a]), Crc16(front + [b]);
      && (was / 256 == now / 256 <==> a == b || Xor(a, b) == 0x89)
      && (Xor(a, b) == 0x89 ==> Xor(was % 256, now % 256) == 0xA1)
  {
    hide BitsOf, Xor, Crc16, FeedBits;
    var was, now := Crc16(front + [a]), Crc16(front + [b]);
    var u := XorBits(BitsOf(a, 8), BitsOf(b, 8));
    var r := FeedBits(Zeros(16), u);
    BorderBits(front, a, b);
    CrcHalves(was);
    CrcHalves(now);
    MaskBits();
    UpperClear(u);
    XorIs(a, b, 0x89);
    XorZeroIff(a, b);
    XorZeroIff(was / 256, now / 256);
    XorIs(was % 256, now % 256, 0xA1);
    assert r[..8] == XorBits(BitsOf(was / 256, 8), BitsOf(now / 256, 8));
    assert r[8..] == XorBits(BitsOf(was % 256, 8), BitsOf(now % 256, 8));
  }

  /**
   Damage to the last byte of the body and the first byte of the trailer, `a` read as `b` and the
   lower half of the CRC as `low`, passes the check exactly when it is none at all or the one pair
   of masks 0x89 and 0xA1.
   */
  lemma BorderBurstIff(front: seq<Byte>, a: Byte, b: Byte, low: Byte)
    ensures
      var was, now := Crc16(front + [a]), Crc16(front + [b]);
      now == low + was / 256 * 256
      <==> (b == a && low == was % 256) || (Xor(a, b) == 0x89 && Xor(was % 256, low) == 0xA1)
  {
    hide Xor, Crc16;
    var was, now := Crc16(front + [a]), Crc16(front + [b]);
    HalvesDiffer(front, a, b);
    XorNeverMask(a);
    if Xor(a, b) == 0x89 {
      XorDetermines(was % 256, now % 256, low, 0xA1);
    }
  }

  lemma XorNeverMask(a: Byte)
    ensures Xor(a, a) != 0x89
  {
    hide BitsOf, Xor;
    XorIs(a, a, 0x89);
    XorZeroIff(a, a);
    MaskBits();
    assert MASK[0] && !Zeros(8)[0];
  }

  lemma XorDetermines(a: Byte, x: Byte, y: Byte, mask: Byte)
    requires Xor(a, x) == mask
    ensures Xor(a, y) == mask <==> x == y
  {
    hide BitsOf, Xor;
    Pow2Values();
    XorIs(a, x, mask);
    XorIs(a, y, mask);
    XorSame(BitsOf(a, 8), BitsOf(x, 8), BitsOf(mask, 8));
    XorSame(BitsOf(a, 8), BitsOf(y, 8), BitsOf(mask, 8));
    if Xor(a, y) == mask {
      BitsOfInjective(x, y, 8);
    }
  }

  // ----- in blobs

  /** The CRC of the first `end` bytes is the one that follows them. */
  predicate CheckPasses(data: seq<Byte>, end: nat)
    requires end + 2 <= |data|
  {
    U16At(data, end) == Crc16(data[..end])
  }

  /** The one pattern: the last body byte against 0x89, the first trailer byte against 0xA1. */
  predicate Masked(data: seq<Byte>, damaged: seq<Byte>, end: nat)
    requires 0 < end && end + 2 <= |data| == |damaged|
  {
    Xor(data[end - 1], damaged[end - 1]) == 0x89 && Xor(data[end], damaged[end]) == 0xA1
  }

  ghost predicate SameBut(a: seq<Byte>, b: seq<Byte>, k: nat) {
    |a| == |b| && forall i :: 0 <= i < |a| && i != k && i != k + 1 ==> a[i] == b[i]
  }

  lemma Difference(a: seq<Byte>, b: seq<Byte>) returns (i: nat)
    requires |a| == |b| && a != b
    ensures i < |a| && a[i] != b[i]
  {
    i :| i < |a| && a[i] != b[i];
  }

  lemma InsideBody(data: seq<Byte>, damaged: seq<Byte>, k: nat, end: nat)
    requires end + 2 <= |data| && CheckPasses(data, end) && SameBut(data, damaged, k) && data != damaged
    requires k + 1 < end
    ensures !CheckPasses(damaged, end)
  {
    hide Crc16;
    var a, b := data[..end], damaged[..end];
    var i := Difference(data, damaged);
    assert a[i] == data[i] && b[i] == damaged[i];
    assert forall i :: 0 <= i < end && i != k && i != k + 1 ==> a[i] == b[i];
    AdjacentBytesBurst(a, b, k);
    BurstDetected(a, b);
  }

  lemma InsideTrailer(data: seq<Byte>, damaged: seq<Byte>, k: nat, end: nat)
    requires end + 2 <= |data| && CheckPasses(data, end) && SameBut(data, damaged, k)
    requires end <= k && data[end..end + 2] != damaged[end..end + 2]
    ensures !CheckPasses(damaged, end)
  {
    hide Crc16;
    assert data[..end] == damaged[..end];
    assert data[end..end + 2] == [data[end], data[end + 1]];
  }

  lemma AcrossBorder(data: seq<Byte>, damaged: seq<Byte>, end: nat)
    requires 0 < end && end + 2 <= |data| && CheckPasses(data, end) && SameBut(data, damaged, end - 1)
    ensures CheckPasses(damaged, end) <==> data == damaged || Masked(data, damaged, end)
  {
    hide Crc16, Xor;
    var front, a, b := data[..end - 1], data[end - 1], damaged[end - 1];
    assert data[..end] == front + [a];
    assert damaged[..end] == front + [b];
    BorderBurstIff(front, a, b, damaged[end]);
  }

  /**
   Damage to any two adjacent bytes of an accepted blob, other than its length field: the check
   passes exactly when nothing changed or the damage is that one pattern on the border, and no
   decoder accepts a blob that fails the check.
   */
  lemma AdjacentDamageIff(d: Dialect, e: Dialect, data: seq<Byte>, damaged: seq<Byte>, k: nat)
    requires Decode(d, data).Ok? && SameBut(data, damaged, k)
    requires k + 1 < BlobLength(data) && k + 1 != 8 && k != 8 && k != 9
    ensures
      var end := BlobLength(data) - 2;
      && (CheckPasses(damaged, end) <==> data == damaged || (k == end - 1 && Masked(data, damaged, end)))
      && (!CheckPasses(damaged, end) ==> Decode(e, damaged) == Err)
  {
    hide ParseProfiles, Crc16, Xor;
    var end := BlobLength(data) - 2;
    if k + 1 < end {
      if data != damaged {
        InsideBody(data, damaged, k, end);
      }
    } else if k + 1 == end {
      AcrossBorder(data, damaged, end);
    } else if data != damaged {
      TrailerDiffers(data, damaged, k, end);
      InsideTrailer(data, damaged, k, end);
    }
  }

  lemma TrailerDiffers(data: seq<Byte>, damaged: seq<Byte>, k: nat, end: nat)
    requires SameBut(data, damaged, k) && data != damaged && k == end && end + 2 <= |data|
    ensures data[end..end + 2] != damaged[end..end + 2]
  {
    var i := Difference(data, damaged);
    assert data[end..end + 2][i - end] == data[i] && damaged[end..end + 2][i - end] == damaged[i];
  }
}
