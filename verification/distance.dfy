/**
 How far apart two valid bodies are.

 The generator has an even number of terms, and its powers of x only repeat after 32767 steps. So
 within the 4096 bytes the store allows, no one, two or three flipped bits of a body keep its CRC.
 */
module Distance {
  import opened Arithmetic
  import opened Bytes
  import opened BitStrings
  import opened Configs
  import opened Crc
  import opened Format
  import opened RoundTrip

  // ----- an odd number of flipped bits

  function Parity(bits: seq<bool>): bool {
    if bits == [] then false else Parity(bits[..|bits| - 1]) != bits[|bits| - 1]
  }

  lemma {:induction false} ParityXor(u: seq<bool>, v: seq<bool>)
    requires |u| == |v|
    ensures Parity(XorBits(u, v)) == (Parity(u) != Parity(v))
  {
    if u != [] {
      var n := |u| - 1;
      assert XorBits(u, v)[..n] == XorBits(u[..n], v[..n]);
      ParityXor(u[..n], v[..n]);
    }
  }

  lemma {:induction false} ParityCons(bit: bool, bits: seq<bool>)
    ensures Parity([bit] + bits) == (bit != Parity(bits))
  {
    if bits == [] {
      assert [bit] + bits == [bit] && [bit][..0] == [];
    } else {
      var n := |bits| - 1;
      assert ([bit] + bits)[..n + 1] == [bit] + bits[..n];
      ParityCons(bit, bits[..n]);
    }
  }

  lemma {:induction false} ParityZeros(n: nat)
    ensures !Parity(Zeros(n))
  {
    if n > 0 {
      assert Zeros(n)[..n - 1] == Zeros(n - 1);
      ParityZeros(n - 1);
    }
  }

  /** Three of the generator's terms lie within the register: with the fourth it has an even number. */
  lemma GeneratorParity()
    ensures Parity(GENERATOR)
  {
    hide Parity;
    ParityZeros(3);
    var a := [false, false, true];
    var rest: seq<bool> := GENERATOR[4..];
    assert GENERATOR == [false] + ([false] + ([false] + ([true] + rest)));
    ParityCons(false, [false] + ([false] + ([true] + rest)));
    ParityCons(false, [false] + ([true] + rest));
    ParityCons(false, [true] + rest);
    ParityCons(true, rest);
    RestParity(rest);
  }

  lemma RestParity(rest: seq<bool>)
    requires rest == Zeros(6) + ([true] + (Zeros(4) + [true]))
    ensures !Parity(rest)
  {
    hide Parity;
    var tail := [true] + (Zeros(4) + [true]);
    ParityJoin(Zeros(6), tail);
    ParityZeros(6);
    ParityCons(true, Zeros(4) + [true]);
    ParityJoin(Zeros(4), [true]);
    ParityZeros(4);
    ParityCons(true, []);
    ParityZeros(0);
    assert [true] + [] == [true] && Zeros(0) == [];
  }

  lemma {:induction false} ParityJoin(a: seq<bool>, b: seq<bool>)
    ensures Parity(a + b) == (Parity(a) != Parity(b))
    decreases |b|
  {
    if b == [] {
      assert a + b == a;
    } else {
      assert (a + b)[..|a + b| - 1] == a + b[..|b| - 1];
      ParityJoin(a, b[..|b| - 1]);
    }
  }

  /** A shift keeps the register's parity. */
  lemma ShiftParity(r: Register)
    ensures Parity(ShiftBits(r)) == Parity(r)
  {
    hide Parity;
    var shifted := r[1..] + [false];
    assert r == [r[0]] + r[1..];
    ParityCons(r[0], r[1..]);
    ParityJoin(r[1..], [false]);
    ParityZeros(1);
    assert Zeros(1) == [false];
    GeneratorParity();
    ParityXor(shifted, GENERATOR);
  }

  /** The register's parity is that of everything fed into it. */
  lemma {:induction false} FedParity(r: Register, bits: seq<bool>)
    ensures Parity(FeedBits(r, bits)) == (Parity(r) != Parity(bits))
  {
    hide Parity, ShiftBits;
    if bits == [] {
      ParityZeros(0);
      assert Zeros(0) == [];
    } else {
      var n := |bits| - 1;
      var before, top := FeedBits(r, bits[..n]), [bits[n]] + Zeros(15);
      FedParity(r, bits[..n]);
      ShiftParity(XorBits(before, top));
      ParityXor(before, top);
      ParityCons(bits[n], Zeros(15));
      ParityZeros(15);
      ParityJoin(bits[..n], [bits[n]]);
      assert bits == bits[..n] + [bits[n]];
      ParityCons(bits[n], []);
      assert [bits[n]] + [] == [bits[n]];
      ParityZeros(0);
      assert Zeros(0) == [];
    }
  }

  /** How many bits differ. */
  function Flips(u: seq<bool>, v: seq<bool>): nat
    requires |u| == |v|
  {
    if u == [] then 0
    else
      var n := |u| - 1;
      Flips(u[..n], v[..n]) + if u[n] != v[n] then 1 else 0
  }

  lemma {:induction false} FlipsParity(u: seq<bool>, v: seq<bool>)
    requires |u| == |v|
    ensures (Flips(u, v) % 2 == 1) == (Parity(u) != Parity(v))
  {
    if u != [] {
      FlipsParity(u[..|u| - 1], v[..|u| - 1]);
    }
  }

  /** Any odd number of flipped bits, anywhere in data of any length, changes the CRC. */
  lemma OddDetected(a: seq<Byte>, b: seq<Byte>)
    requires |a| == |b| && Flips(Bits(a), Bits(b)) % 2 == 1
    ensures Crc16(a) != Crc16(b)
  {
    hide Parity, Bits, FeedBits, Crc16, BitsOf, Flips, FeedAll;
    FlipsParity(Bits(a), Bits(b));
    CrcParity(a);
    CrcParity(b);
  }

  lemma CrcParity(data: seq<Byte>)
    ensures Parity(BitsOf(Crc16(data), 16)) == (Parity(BitsOf(INITIAL, 16)) != Parity(Bits(data)))
  {
    hide Parity, Bits, FeedBits, BitsOf, FeedAll;
    FeedAllIsFeedBits(INITIAL, data);
    FedParity(BitsOf(INITIAL, 16), Bits(data));
  }

  // ----- powers of x, in registers

  const ONE: Register := Zeros(15) + [true]
  const TOP: Register := [true] + Zeros(15)

  /** x to the `n`, reduced. */
  function Power(n: nat): Register {
    ShiftedBits(ONE, n)
  }

  lemma {:induction false} ShiftedSplit(r: Register, m: nat, n: nat)
    ensures ShiftedBits(r, m + n) == ShiftedBits(ShiftedBits(r, m), n)
  {
    hide ShiftBits;
    if n > 0 {
      ShiftedSplit(r, m, n - 1);
    }
  }

  lemma ShiftInjective(a: Register, b: Register)
    requires ShiftBits(a) == ShiftBits(b)
    ensures a == b
  {
    hide ShiftBits, XorBits;
    var z: Register := [false] + Zeros(15);
    assert XorBits(a, z) == a && XorBits(b, z) == b by {
      AddNothing(a, z);
      AddNothing(b, z);
    }
    FeedBitInjective(a, b, false);
  }

  lemma AddNothing(a: Register, z: Register)
    requires z == [false] + Zeros(15)
    ensures XorBits(a, z) == a
  {
  }

  lemma {:induction false} ShiftedInjective(a: Register, b: Register, n: nat)
    requires ShiftedBits(a, n) == ShiftedBits(b, n)
    ensures a == b
  {
    hide ShiftBits;
    if n > 0 {
      ShiftInjective(ShiftedBits(a, n - 1), ShiftedBits(b, n - 1));
      ShiftedInjective(a, b, n - 1);
    }
  }

  /** Multiplication by the polynomial `bits`, highest term first. */
  function Times(p: Register, bits: seq<bool>): Register {
    if bits == [] then Zeros(16)
    else
      XorBits(ShiftBits(Times(p, bits[..|bits| - 1])), if bits[|bits| - 1] then p else Zeros(16))
  }

  lemma ShiftZero()
    ensures ShiftBits(Zeros(16)) == Zeros(16)
  {
  }

  lemma {:induction false} TimesShift(p: Register, bits: seq<bool>)
    ensures Times(ShiftBits(p), bits) == ShiftBits(Times(p, bits))
  {
    hide ShiftBits;
    ShiftZero();
    if bits != [] {
      var n := |bits| - 1;
      TimesShift(p, bits[..n]);
      ShiftLinear(ShiftBits(Times(p, bits[..n])), if bits[n] then p else Zeros(16));
    }
  }

  lemma ShiftPadded(r: Register, bits: seq<bool>)
    requires |bits| < 16 && r == Zeros(16 - |bits|) + bits
    ensures ShiftBits(r) == Zeros(15 - |bits|) + bits + [false]
  {
    assert !r[0];
    assert r[1..] == Zeros(15 - |bits|) + bits;
  }

  lemma AddLast(front: seq<bool>, bit: bool)
    requires |front| == 15
    ensures XorBits(front + [false], if bit then ONE else Zeros(16)) == front + [bit]
  {
  }

  lemma {:induction false} TimesOne(bits: seq<bool>)
    requires |bits| <= 16
    ensures Times(ONE, bits) == Zeros(16 - |bits|) + bits
  {
    hide ShiftBits, XorBits;
    if bits == [] {
      assert Zeros(16) + [] == Zeros(16);
    } else {
      var n := |bits| - 1;
      TimesOne(bits[..n]);
      ShiftPadded(Times(ONE, bits[..n]), bits[..n]);
      AddLast(Zeros(15 - n) + bits[..n], bits[n]);
      assert Zeros(15 - n) + bits[..n] + [bits[n]] == Zeros(15 - n) + bits;
    }
  }

  /** Shifting `n` times multiplies by x to the `n`. */
  lemma {:induction false} ShiftedIsTimes(y: Register, n: nat)
    ensures ShiftedBits(y, n) == Times(Power(n), y)
  {
    hide ShiftBits, Times;
    if n == 0 {
      TimesOne(y);
      assert Zeros(0) + y == y;
    } else {
      ShiftedIsTimes(y, n - 1);
      TimesShift(Power(n - 1), y);
    }
  }

  lemma PowerSum(m: nat, n: nat)
    ensures Power(m + n) == Times(Power(n), Power(m))
  {
    hide ShiftBits, Times, ShiftedBits;
    ShiftedSplit(ONE, m, n);
    ShiftedIsTimes(Power(m), n);
  }

  // ----- the same in 16-bit words, where the powers can be worked out

  function ShiftWord(x: bv16): bv16 {
    if x & 0x8000 != 0 then (x << 1) ^ 0x1021 else x << 1
  }

  predicate Has(x: bv16, mask: bv16) {
    x & mask != 0
  }

  const MASKS: seq<bv16> :=
    [0x8000, 0x4000, 0x2000, 0x1000, 0x0800, 0x0400, 0x0200, 0x0100,
     0x0080, 0x0040, 0x0020, 0x0010, 0x0008, 0x0004, 0x0002, 0x0001]

  function Word(x: bv16): Register {
    seq(16, i requires 0 <= i < 16 => Has(x, MASKS[i]))
  }

  lemma MasksSingle(i: nat)
    requires i < 16
    ensures MASKS[i] & (MASKS[i] - 1) == 0
    ensures i < 15 ==> MASKS[i] == MASKS[i + 1] << 1 && MASKS[i + 1] != 0x8000
  {
  }

  lemma HasXor(x: bv16, y: bv16, mask: bv16)
    requires mask & (mask - 1) == 0
    ensures Has(x ^ y, mask) == (Has(x, mask) != Has(y, mask))
  {
  }

  lemma HasShifted(x: bv16, mask: bv16)
    requires mask & (mask - 1) == 0 && mask != 0x8000
    ensures Has(x << 1, mask << 1) == Has(x, mask)
  {
  }

  lemma WordXor(x: bv16, y: bv16)
    ensures Word(x ^ y) == XorBits(Word(x), Word(y))
  {
    hide Has;
    forall i | 0 <= i < 16
      ensures Word(x ^ y)[i] == XorBits(Word(x), Word(y))[i]
    {
      MasksSingle(i);
      HasXor(x, y, MASKS[i]);
    }
  }

  lemma WordShifted(x: bv16)
    ensures Word(x << 1) == Word(x)[1..] + [false]
  {
    hide Has;
    forall i | 0 <= i < 16
      ensures Word(x << 1)[i] == (Word(x)[1..] + [false])[i]
    {
      MasksSingle(i);
      if i < 15 {
        MasksSingle(i + 1);
        HasShifted(x, MASKS[i + 1]);
      } else {
        LastClear(x);
      }
    }
  }

  lemma LastClear(x: bv16)
    ensures !Has(x << 1, 1)
  {
  }

  lemma WordGenerator()
    ensures Word(0x1021) == GENERATOR
  {
  }

  lemma WordShift(x: bv16)
    ensures Word(ShiftWord(x)) == ShiftBits(Word(x))
  {
    hide Word, XorBits;
    WordShifted(x);
    WordXor(x << 1, 0x1021);
    WordGenerator();
    WordTop(x);
  }

  lemma WordTop(x: bv16)
    ensures Word(x)[0] == (x & 0x8000 != 0)
  {
  }

  lemma WordZero()
    ensures Word(0) == Zeros(16)
  {
  }

  // ----- multiplication in words

  function Accumulate(a: bv16, p: bv16, bit: bool): bv16 {
    if bit then ShiftWord(a) ^ p else ShiftWord(a)
  }

  lemma TimesNext(p: Register, bits: seq<bool>, bit: bool)
    ensures Times(p, bits + [bit]) == XorBits(ShiftBits(Times(p, bits)), if bit then p else Zeros(16))
  {
    hide ShiftBits, XorBits;
    assert (bits + [bit])[..|bits|] == bits;
  }

  lemma AccumulateSet(a: bv16, p: bv16)
    ensures Word(Accumulate(a, p, true)) == XorBits(ShiftBits(Word(a)), Word(p))
  {
    hide Word, ShiftWord, ShiftBits, XorBits;
    WordShift(a);
    WordXor(ShiftWord(a), p);
  }

  lemma AccumulateClear(a: bv16, p: bv16)
    ensures Word(Accumulate(a, p, false)) == ShiftBits(Word(a))
  {
    hide Word, ShiftWord, ShiftBits, XorBits;
    WordShift(a);
  }

  lemma WordAccumulate(a: bv16, p: bv16, bits: seq<bool>, bit: bool)
    requires Word(a) == Times(Word(p), bits)
    ensures Word(Accumulate(a, p, bit)) == Times(Word(p), bits + [bit])
  {
    hide Word, ShiftWord, ShiftBits, XorBits, Times, Accumulate;
    TimesNext(Word(p), bits, bit);
    if bit {
      AccumulateSet(a, p);
    } else {
      AccumulateClear(a, p);
      AddZero(ShiftBits(Word(a)));
    }
  }

  lemma AddZero(r: Register)
    ensures XorBits(r, Zeros(16)) == r
  {
  }

  /** Four terms more. */
  function Four(a: bv16, p: bv16, y: bv16, i: nat): bv16
    requires i + 4 <= 16
  {
    var b := Accumulate(a, p, Has(y, MASKS[i]));
    var c := Accumulate(b, p, Has(y, MASKS[i + 1]));
    var d := Accumulate(c, p, Has(y, MASKS[i + 2]));
    Accumulate(d, p, Has(y, MASKS[i + 3]))
  }

  lemma WordNext(a: bv16, p: bv16, y: bv16, i: nat)
    requires i < 16 && Word(a) == Times(Word(p), Word(y)[..i])
    ensures Word(Accumulate(a, p, Has(y, MASKS[i]))) == Times(Word(p), Word(y)[..i + 1])
  {
    hide Accumulate, Times, Has;
    WordAccumulate(a, p, Word(y)[..i], Word(y)[i]);
    assert Word(y)[..i] + [Word(y)[i]] == Word(y)[..i + 1];
  }

  lemma WordFour(a: bv16, p: bv16, y: bv16, i: nat)
    requires i + 4 <= 16 && Word(a) == Times(Word(p), Word(y)[..i])
    ensures Word(Four(a, p, y, i)) == Times(Word(p), Word(y)[..i + 4])
  {
    hide Accumulate, Times, Has, Word;
    var b := Accumulate(a, p, Has(y, MASKS[i]));
    var c := Accumulate(b, p, Has(y, MASKS[i + 1]));
    var d := Accumulate(c, p, Has(y, MASKS[i + 2]));
    WordNext(a, p, y, i);
    WordNext(b, p, y, i + 1);
    WordNext(c, p, y, i + 2);
    WordNext(d, p, y, i + 3);
  }

  function Product(p: bv16, y: bv16): bv16 {
    Four(Four(Four(Four(0, p, y, 0), p, y, 4), p, y, 8), p, y, 12)
  }

  lemma WordProduct(p: bv16, y: bv16)
    ensures Word(Product(p, y)) == Times(Word(p), Word(y))
  {
    hide Four, Times, Word;
    WordZero();
    NoTerms(Word(p));
    var y0: Register := Word(y);
    assert y0[..0] == [] && y0[..16] == y0;
    WordFour(0, p, y, 0);
    WordFour(Four(0, p, y, 0), p, y, 4);
    WordFour(Four(Four(0, p, y, 0), p, y, 4), p, y, 8);
    WordFour(Four(Four(Four(0, p, y, 0), p, y, 4), p, y, 8), p, y, 12);
  }

  lemma NoTerms(p: Register)
    ensures Times(p, []) == Zeros(16)
  {
  }

  /** The word is the power of x. */
  predicate IsPower(n: nat, w: bv16) {
    Power(n) == Word(w)
  }

  lemma Multiply(m: nat, v: bv16, n: nat, w: bv16)
    requires IsPower(m, v) && IsPower(n, w)
    ensures IsPower(m + n, Product(w, v))
  {
    hide Power, Times, Word, Product;
    PowerSum(m, n);
    WordProduct(w, v);
  }

  lemma PowerOne()
    ensures IsPower(1, 0x0002)
  {
    WordShift(1);
    WordUnit();
    assert Power(1) == ShiftBits(Power(0));
  }

  lemma WordUnit()
    ensures Word(1) == ONE
  {
  }

  // ----- the powers themselves

  lemma Power2()
    ensures IsPower(2, 0x0004)
  {
    hide IsPower;
    PowerOne();
    Multiply(1, 0x0002, 1, 0x0002);
    assert Product(0x0002, 0x0002) == 0x0004;
  }

  lemma Power4()
    ensures IsPower(4, 0x0010)
  {
    hide IsPower;
    Power2();
    Multiply(2, 0x0004, 2, 0x0004);
    assert Product(0x0004, 0x0004) == 0x0010;
  }

  lemma Power8()
    ensures IsPower(8, 0x0100)
  {
    hide IsPower;
    Power4();
    Multiply(4, 0x0010, 4, 0x0010);
    assert Product(0x0010, 0x0010) == 0x0100;
  }

  lemma Power16()
    ensures IsPower(16, 0x1021)
  {
    hide IsPower;
    Power8();
    Multiply(8, 0x0100, 8, 0x0100);
    assert Product(0x0100, 0x0100) == 0x1021;
  }

  lemma Power32()
    ensures IsPower(32, 0x3730)
  {
    hide IsPower;
    Power16();
    Multiply(16, 0x1021, 16, 0x1021);
    assert Product(0x1021, 0x1021) == 0x3730;
  }

  lemma Power64()
    ensures IsPower(64, 0xB861)
  {
    hide IsPower;
    Power32();
    Multiply(32, 0x3730, 32, 0x3730);
    assert Product(0x3730, 0x3730) == 0xB861;
  }

  lemma Power128()
    ensures IsPower(128, 0xAEFC)
  {
    hide IsPower;
    Power64();
    Multiply(64, 0xB861, 64, 0xB861);
    assert Product(0xB861, 0xB861) == 0xAEFC;
  }

  lemma Power256()
    ensures IsPower(256, 0x8E29)
  {
    hide IsPower;
    Power128();
    Multiply(128, 0xAEFC, 128, 0xAEFC);
    assert Product(0xAEFC, 0xAEFC) == 0x8E29;
  }

  lemma Power512()
    ensures IsPower(512, 0x13FC)
  {
    hide IsPower;
    Power256();
    Multiply(256, 0x8E29, 256, 0x8E29);
    assert Product(0x8E29, 0x8E29) == 0x13FC;
  }

  lemma Power1024()
    ensures IsPower(1024, 0x36C4)
  {
    hide IsPower;
    Power512();
    Multiply(512, 0x13FC, 512, 0x13FC);
    assert Product(0x13FC, 0x13FC) == 0x36C4;
  }

  lemma Power2048()
    ensures IsPower(2048, 0xFD50)
  {
    hide IsPower;
    Power1024();
    Multiply(1024, 0x36C4, 1024, 0x36C4);
    assert Product(0x36C4, 0x36C4) == 0xFD50;
  }

  lemma Power4096()
    ensures IsPower(4096, 0xAA9E)
  {
    hide IsPower;
    Power2048();
    Multiply(2048, 0xFD50, 2048, 0xFD50);
    assert Product(0xFD50, 0xFD50) == 0xAA9E;
  }

  lemma Power8192()
    ensures IsPower(8192, 0x881C)
  {
    hide IsPower;
    Power4096();
    Multiply(4096, 0xAA9E, 4096, 0xAA9E);
    assert Product(0xAA9E, 0xAA9E) == 0x881C;
  }

  lemma Power16384()
    ensures IsPower(16384, 0x4458)
  {
    hide IsPower;
    Power8192();
    Multiply(8192, 0x881C, 8192, 0x881C);
    assert Product(0x881C, 0x881C) == 0x4458;
  }

  lemma Power9()
    ensures IsPower(9, 0x0200)
  {
    hide IsPower;
    PowerOne();
    Power8();
    Multiply(1, 0x0002, 8, 0x0100);
    assert Product(0x0100, 0x0002) == 0x0200;
  }

  lemma Power25()
    ensures IsPower(25, 0x6662)
  {
    hide IsPower;
    Power9();
    Power16();
    Multiply(9, 0x0200, 16, 0x1021);
    assert Product(0x1021, 0x0200) == 0x6662;
  }

  lemma Power89()
    ensures IsPower(89, 0xDE8A)
  {
    hide IsPower;
    Power25();
    Power64();
    Multiply(25, 0x6662, 64, 0xB861);
    assert Product(0xB861, 0x6662) == 0xDE8A;
  }

  lemma Power217()
    ensures IsPower(217, 0x48E3)
  {
    hide IsPower;
    Power89();
    Power128();
    Multiply(89, 0xDE8A, 128, 0xAEFC);
    assert Product(0xAEFC, 0xDE8A) == 0x48E3;
  }

  lemma Power33()
    ensures IsPower(33, 0x6E60)
  {
    hide IsPower;
    PowerOne();
    Power32();
    Multiply(1, 0x0002, 32, 0x3730);
    assert Product(0x3730, 0x0002) == 0x6E60;
  }

  lemma Power1057()
    ensures IsPower(1057, 0xF2AF)
  {
    hide IsPower;
    Power33();
    Power1024();
    Multiply(33, 0x6E60, 1024, 0x36C4);
    assert Product(0x36C4, 0x6E60) == 0xF2AF;
  }

  lemma Power73()
    ensures IsPower(73, 0x8FA6)
  {
    hide IsPower;
    Power9();
    Power64();
    Multiply(9, 0x0200, 64, 0xB861);
    assert Product(0xB861, 0x0200) == 0x8FA6;
  }

  lemma Power585()
    ensures IsPower(585, 0x4500)
  {
    hide IsPower;
    Power73();
    Power512();
    Multiply(73, 0x8FA6, 512, 0x13FC);
    assert Product(0x13FC, 0x8FA6) == 0x4500;
  }

  lemma Power4681()
    ensures IsPower(4681, 0x2C42)
  {
    hide IsPower;
    Power585();
    Power4096();
    Multiply(585, 0x4500, 4096, 0xAA9E);
    assert Product(0xAA9E, 0x4500) == 0x2C42;
  }

  lemma Power3()
    ensures IsPower(3, 0x0008)
  {
    hide IsPower;
    PowerOne();
    Power2();
    Multiply(1, 0x0002, 2, 0x0004);
    assert Product(0x0004, 0x0002) == 0x0008;
  }

  lemma Power7()
    ensures IsPower(7, 0x0080)
  {
    hide IsPower;
    Power3();
    Power4();
    Multiply(3, 0x0008, 4, 0x0010);
    assert Product(0x0010, 0x0008) == 0x0080;
  }

  lemma Power15()
    ensures IsPower(15, 0x8000)
  {
    hide IsPower;
    Power7();
    Power8();
    Multiply(7, 0x0080, 8, 0x0100);
    assert Product(0x0100, 0x0080) == 0x8000;
  }

  lemma Power31()
    ensures IsPower(31, 0x1B98)
  {
    hide IsPower;
    Power15();
    Power16();
    Multiply(15, 0x8000, 16, 0x1021);
    assert Product(0x1021, 0x8000) == 0x1B98;
  }

  lemma Power63()
    ensures IsPower(63, 0xD420)
  {
    hide IsPower;
    Power31();
    Power32();
    Multiply(31, 0x1B98, 32, 0x3730);
    assert Product(0x3730, 0x1B98) == 0xD420;
  }

  lemma Power127()
    ensures IsPower(127, 0x577E)
  {
    hide IsPower;
    Power63();
    Power64();
    Multiply(63, 0xD420, 64, 0xB861);
    assert Product(0xB861, 0xD420) == 0x577E;
  }

  lemma Power255()
    ensures IsPower(255, 0xCF04)
  {
    hide IsPower;
    Power127();
    Power128();
    Multiply(127, 0x577E, 128, 0xAEFC);
    assert Product(0xAEFC, 0x577E) == 0xCF04;
  }

  lemma Power511()
    ensures IsPower(511, 0x09FE)
  {
    hide IsPower;
    Power255();
    Power256();
    Multiply(255, 0xCF04, 256, 0x8E29);
    assert Product(0x8E29, 0xCF04) == 0x09FE;
  }

  lemma Power1023()
    ensures IsPower(1023, 0x1B62)
  {
    hide IsPower;
    Power511();
    Power512();
    Multiply(511, 0x09FE, 512, 0x13FC);
    assert Product(0x13FC, 0x09FE) == 0x1B62;
  }

  lemma Power2047()
    ensures IsPower(2047, 0x7EA8)
  {
    hide IsPower;
    Power1023();
    Power1024();
    Multiply(1023, 0x1B62, 1024, 0x36C4);
    assert Product(0x36C4, 0x1B62) == 0x7EA8;
  }

  lemma Power4095()
    ensures IsPower(4095, 0x554F)
  {
    hide IsPower;
    Power2047();
    Power2048();
    Multiply(2047, 0x7EA8, 2048, 0xFD50);
    assert Product(0xFD50, 0x7EA8) == 0x554F;
  }

  lemma Power8191()
    ensures IsPower(8191, 0x440E)
  {
    hide IsPower;
    Power4095();
    Power4096();
    Multiply(4095, 0x554F, 4096, 0xAA9E);
    assert Product(0xAA9E, 0x554F) == 0x440E;
  }

  lemma Power16383()
    ensures IsPower(16383, 0x222C)
  {
    hide IsPower;
    Power8191();
    Power8192();
    Multiply(8191, 0x440E, 8192, 0x881C);
    assert Product(0x881C, 0x440E) == 0x222C;
  }

  lemma Power32767()
    ensures IsPower(32767, 0x0001)
  {
    hide IsPower;
    Power16383();
    Power16384();
    Multiply(16383, 0x222C, 16384, 0x4458);
    assert Product(0x4458, 0x222C) == 0x0001;
  }

  /** The powers are back at 1 after 32767 steps, and not after its third, or fifth part. */
  predicate Returns(k: nat) {
    Power(k) == ONE
  }

  lemma ReturnsThere()
    ensures Returns(32767) && !Returns(217) && !Returns(1057) && !Returns(4681)
  {
    hide Power;
    Power32767();
    WordUnit();
    Power217();
    Power1057();
    Power4681();
    WordsNotUnit();
  }

  lemma WordsNotUnit()
    ensures Word(0x48E3) != ONE && Word(0xF2AF) != ONE && Word(0x2C42) != ONE
  {
    assert Word(0x48E3)[1] && Word(0xF2AF)[1] && Word(0x2C42)[2];
  }

  lemma ReturnsDifference(a: nat, b: nat)
    requires Returns(a + b) && Returns(b)
    ensures Returns(a)
  {
    hide ShiftedBits;
    ShiftedSplit(ONE, b, a);
  }

  lemma {:induction false} ReturnsMultiple(g: nat, n: nat)
    requires Returns(g)
    ensures Returns(g * n)
  {
    hide ShiftBits;
    if n == 0 {
      assert g * n == 0;
    } else {
      ReturnsMultiple(g, n - 1);
      Distribute(g, n, 1);
      ShiftedSplit(ONE, g * (n - 1), g);
    }
  }

  /** Two returns have one at their greatest common divisor. */
  lemma {:induction false} CommonReturn(a: nat, b: nat) returns (g: nat, p: nat, q: nat)
    requires a > 0 && Returns(a) && Returns(b)
    ensures 0 < g <= a && a == g * p && b == g * q && Returns(g)
    decreases a + b
  {
    hide Returns;
    if b == 0 {
      g, p, q := a, 1, 0;
    } else if a <= b {
      ReturnsDifference(b - a, a);
      g, p, q := CommonReturn(a, b - a);
      Distribute(g, q + p, p);
      q := q + p;
    } else {
      ReturnsDifference(a - b, b);
      g, p, q := CommonReturn(a - b, b);
      Distribute(g, p + q, q);
      p := p + q;
    }
  }

  // ----- 32767 is 7 times 31 times 151

  predicate Plain(n: nat)
    requires n > 0
  {
    32767 % n == 0 ==> n == 1 || n == 7 || n == 31 || n == 151
  }

  /** None of the eight odd numbers from `lo` on divides, but for the known ones. */
  predicate EightPlain(lo: nat)
    requires lo > 0
  {
    && Plain(lo) && Plain(lo + 2) && Plain(lo + 4) && Plain(lo + 6)
    && Plain(lo + 8) && Plain(lo + 10) && Plain(lo + 12) && Plain(lo + 14)
  }

  lemma OneOfEight(lo: nat, q: nat)
    requires lo > 0 && EightPlain(lo) && lo <= q < lo + 16 && q % 2 == lo % 2
    ensures Plain(q)
  {
    hide Plain;
    assert q == lo || q == lo + 2 || q == lo + 4 || q == lo + 6 || q == lo + 8 || q == lo + 10 || q == lo + 12
        || q == lo + 14;
  }

  lemma OddPlain1()
    ensures EightPlain(1) && EightPlain(17) && EightPlain(33) && EightPlain(49)
  {
  }

  lemma OddPlain2()
    ensures EightPlain(65) && EightPlain(81) && EightPlain(97) && EightPlain(113)
  {
  }

  lemma OddPlain3()
    ensures EightPlain(129) && EightPlain(145) && EightPlain(161) && EightPlain(177)
  {
  }

  lemma OddPlain()
    ensures EightPlain(1) && EightPlain(17) && EightPlain(33) && EightPlain(49)
    ensures EightPlain(65) && EightPlain(81) && EightPlain(97) && EightPlain(113)
    ensures EightPlain(129) && EightPlain(145) && EightPlain(161) && EightPlain(177)
  {
    hide EightPlain;
    OddPlain1();
    OddPlain2();
    OddPlain3();
  }

  lemma DivisorIsOdd(q: nat, g: nat)
    requires g * q == 32767
    ensures q % 2 == 1
  {
    if q % 2 == 0 {
      var h := q / 2;
      assert g * q == g * h + g * h by {
        Distribute(g, h, -h);
      }
    }
  }

  lemma SmallDivisors(q: nat, g: nat)
    requires 1 <= q <= 181 && g * q == 32767
    ensures q == 1 || q == 7 || q == 31 || q == 151
  {
    hide EightPlain;
    DivisorIsOdd(q, g);
    DivModUnique(32767, q, g, 0);
    OddPlain();
    if q < 17 {
      OneOfEight(1, q);
    } else if q < 33 {
      OneOfEight(17, q);
    } else if q < 49 {
      OneOfEight(33, q);
    } else if q < 65 {
      OneOfEight(49, q);
    } else if q < 81 {
      OneOfEight(65, q);
    } else if q < 97 {
      OneOfEight(81, q);
    } else if q < 113 {
      OneOfEight(97, q);
    } else if q < 129 {
      OneOfEight(113, q);
    } else if q < 145 {
      OneOfEight(129, q);
    } else if q < 161 {
      OneOfEight(145, q);
    } else if q < 177 {
      OneOfEight(161, q);
    } else {
      OneOfEight(177, q);
    }
  }

  lemma LargePair(g: nat, q: nat)
    requires g >= 182 && q >= 181
    ensures g * q >= 182 * 181
  {
    MulAtLeast(q, 181, g);
    MulAtLeast(g, 182, 181);
  }

  lemma DivisorPairs(g: nat, q: nat)
    requires g * q == 32767 && g < 32767
    ensures g == 1 || g == 7 || g == 31 || g == 151 || g == 4681 || g == 1057 || g == 217
  {
    if g <= 181 {
      SmallDivisors(g, q);
    } else {
      if q >= 181 {
        LargePair(g, q);
      }
      SmallDivisors(q, g);
    }
  }

  /** No power of x below the 32767th is 1. */
  lemma NoEarlyReturn(k: nat)
    requires 0 < k < 32767
    ensures !Returns(k)
  {
    hide Returns;
    if Returns(k) {
      ReturnsThere();
      var g, p, q := CommonReturn(k, 32767);
      DivisorPairs(g, q);
      EarlyParts(g);
    }
  }

  lemma EarlyParts(g: nat)
    requires g == 1 || g == 7 || g == 31 || g == 151 || g == 4681 || g == 1057 || g == 217
    ensures !Returns(g)
  {
    hide Returns;
    ReturnsThere();
    if g == 1 && Returns(g) {
      ReturnsMultiple(1, 217);
    } else if g == 7 && Returns(g) {
      ReturnsMultiple(7, 31);
    } else if g == 31 && Returns(g) {
      ReturnsMultiple(31, 7);
    } else if g == 151 && Returns(g) {
      ReturnsMultiple(151, 7);
    }
  }

  // ----- two flipped bits

  lemma {:induction false} FeedZeros(r: Register, n: nat)
    ensures FeedBits(r, Zeros(n)) == ShiftedBits(r, n)
  {
    hide ShiftBits;
    if n > 0 {
      FeedZeros(r, n - 1);
      assert Zeros(n)[..n - 1] == Zeros(n - 1);
      FeedZero(ShiftedBits(r, n - 1));
    }
  }

  lemma FeedZero(r: Register)
    ensures FeedBit(r, false) == ShiftBits(r)
  {
    assert XorBits(r, [false] + Zeros(15)) == r;
  }

  lemma {:induction false} ZeroStays(n: nat)
    ensures ShiftedBits(Zeros(16), n) == Zeros(16)
  {
    hide ShiftBits;
    ShiftZero();
    if n > 0 {
      ZeroStays(n - 1);
    }
  }

  /** A lone bit fed into a clear register acts like the register's top bit shifted on. */
  lemma FeedTop()
    ensures FeedBits(Zeros(16), [true]) == ShiftBits(TOP)
  {
    assert [true][..0] == [];
    assert XorBits(Zeros(16), [true] + Zeros(15)) == TOP;
  }

  lemma TopIsPower()
    ensures TOP == Power(15)
  {
    hide ShiftBits;
    TopSteps(15);
    assert Zeros(0) == [];
  }

  lemma {:induction false} TopSteps(n: nat)
    requires n <= 15
    ensures Power(n) == Zeros(15 - n) + ([true] + Zeros(n))
  {
    hide ShiftBits;
    if n == 0 {
      assert Zeros(0) == [];
    } else {
      TopSteps(n - 1);
      var bits: seq<bool> := [true] + Zeros(n - 1);
      ShiftPadded(Power(n - 1), bits);
      assert Zeros(15 - n) + bits + [false] == Zeros(15 - n) + ([true] + Zeros(n));
    }
  }

  /** The register after a flip, `gap - 1` unchanged bits and another flip. */
  lemma PairLeaves(gap: nat)
    requires 0 < gap < 32767
    ensures FeedBits(Zeros(16), [true] + (Zeros(gap - 1) + [true])) != Zeros(16)
  {
    hide ShiftBits, ShiftedBits, FeedBits, FeedBit, Power;
    FeedBitsSplit(Zeros(16), [true], Zeros(gap - 1) + [true]);
    FeedBitsSplit(ShiftBits(TOP), Zeros(gap - 1), [true]);
    FeedTop();
    FeedZeros(ShiftBits(TOP), gap - 1);
    TopMoves(gap);
    FeedLast(ShiftedBits(TOP, gap));
    TopGone(gap);
  }

  lemma TopMoves(gap: nat)
    requires gap > 0
    ensures ShiftedBits(ShiftBits(TOP), gap - 1) == ShiftedBits(TOP, gap)
  {
    hide ShiftBits;
    ShiftedSplit(TOP, 1, gap - 1);
    assert ShiftedBits(TOP, 1) == ShiftBits(ShiftedBits(TOP, 0));
  }

  lemma FeedLast(r: Register)
    ensures FeedBits(r, [true]) == Zeros(16) ==> r == TOP
  {
    hide ShiftBits;
    assert [true][..0] == [];
    assert FeedBits(r, [true]) == FeedBit(r, true);
    if FeedBit(r, true) == Zeros(16) {
      FeedTopAgain();
      FeedBitInjective(r, TOP, true);
    }
  }

  lemma FeedTopAgain()
    ensures FeedBit(TOP, true) == Zeros(16)
  {
    hide ShiftBits;
    assert XorBits(TOP, [true] + Zeros(15)) == Zeros(16);
    ShiftZero();
  }

  lemma TopGone(gap: nat)
    requires 0 < gap < 32767
    ensures ShiftedBits(TOP, gap) != TOP
  {
    hide ShiftBits, ShiftedBits;
    if ShiftedBits(TOP, gap) == TOP {
      TopIsPower();
      ShiftedSplit(ONE, 15, gap);
      ShiftedSplit(ONE, gap, 15);
      ShiftedInjective(Power(gap), ONE, 15);
      NoEarlyReturn(gap);
    }
  }

  /** A pattern of exactly two flips. */
  lemma PairPattern(before: nat, gap: nat, after: nat)
    requires 0 < gap < 32767
    ensures FeedBits(Zeros(16), Zeros(before) + ([true] + (Zeros(gap - 1) + [true])) + Zeros(after)) != Zeros(16)
  {
    hide FeedBits, ShiftedBits;
    var pair: seq<bool> := [true] + (Zeros(gap - 1) + [true]);
    FeedBitsSplit(Zeros(16), Zeros(before) + pair, Zeros(after));
    FeedBitsSplit(Zeros(16), Zeros(before), pair);
    FeedZeros(Zeros(16), before);
    ZeroStays(before);
    PairLeaves(gap);
    var r := FeedBits(Zeros(16), pair);
    FeedZeros(r, after);
    ZeroStays(after);
    if ShiftedBits(r, after) == Zeros(16) {
      ShiftedInjective(r, Zeros(16), after);
    }
  }

  ghost predicate PairFlipped(u: seq<bool>, v: seq<bool>, i: nat, j: nat) {
    && i < j < |u| == |v| && u[i] != v[i] && u[j] != v[j]
    && forall k :: 0 <= k < |u| && k != i && k != j ==> u[k] == v[k]
  }

  lemma PairDetectedInBits(r: Register, u: seq<bool>, v: seq<bool>, i: nat, j: nat)
    requires PairFlipped(u, v, i, j) && j - i < 32767
    ensures FeedBits(r, u) != FeedBits(r, v)
  {
    hide FeedBits;
    var pattern := Zeros(i) + ([true] + (Zeros(j - i - 1) + [true])) + Zeros(|u| - j - 1);
    assert XorBits(u, v) == pattern;
    FeedBitsLinear(r, r, u, v);
    assert XorBits(r, r) == Zeros(16);
    PairPattern(i, j - i, |u| - j - 1);
    SameCancels(FeedBits(r, u), FeedBits(r, v));
  }

  lemma SameCancels(a: Register, b: Register)
    ensures XorBits(a, b) != Zeros(16) ==> a != b
  {
  }

  /** Any two flipped bits less than 32767 apart change the CRC. */
  lemma PairDetected(a: seq<Byte>, b: seq<Byte>, i: nat, j: nat)
    requires PairFlipped(Bits(a), Bits(b), i, j) && j - i < 32767
    ensures Crc16(a) != Crc16(b)
  {
    hide Bits, FeedBits, BitsOf, FeedAll, PairFlipped;
    FeedAllIsFeedBits(INITIAL, a);
    FeedAllIsFeedBits(INITIAL, b);
    PairDetectedInBits(BitsOf(INITIAL, 16), Bits(a), Bits(b), i, j);
  }

  // ----- one, two or three

  lemma {:induction false} NoFlips(u: seq<bool>, v: seq<bool>)
    requires |u| == |v| && Flips(u, v) == 0
    ensures u == v
  {
    if u != [] {
      NoFlips(u[..|u| - 1], v[..|u| - 1]);
      assert u == u[..|u| - 1] + [u[|u| - 1]] && v == v[..|u| - 1] + [v[|u| - 1]];
    }
  }

  lemma {:induction false} OneFlip(u: seq<bool>, v: seq<bool>) returns (i: nat)
    requires |u| == |v| && Flips(u, v) == 1
    ensures i < |u| && u[i] != v[i] && forall k :: 0 <= k < |u| && k != i ==> u[k] == v[k]
  {
    var n := |u| - 1;
    if u[n] != v[n] {
      i := n;
      NoFlips(u[..n], v[..n]);
      assert forall k :: 0 <= k < n ==> u[k] == u[..n][k] && v[k] == v[..n][k];
    } else {
      i := OneFlip(u[..n], v[..n]);
      assert forall k :: 0 <= k < n ==> u[k] == u[..n][k] && v[k] == v[..n][k];
    }
  }

  lemma {:induction false} TwoFlips(u: seq<bool>, v: seq<bool>) returns (i: nat, j: nat)
    requires |u| == |v| && Flips(u, v) == 2
    ensures PairFlipped(u, v, i, j)
  {
    var n := |u| - 1;
    assert forall k :: 0 <= k < n ==> u[k] == u[..n][k] && v[k] == v[..n][k];
    if u[n] != v[n] {
      i := OneFlip(u[..n], v[..n]);
      j := n;
    } else {
      i, j := TwoFlips(u[..n], v[..n]);
    }
  }

  /** In at most 4094 bytes, which is what the store leaves a body: up to three flipped bits are seen. */
  lemma FewFlipsDetected(a: seq<Byte>, b: seq<Byte>)
    requires |a| == |b| <= 4094 && 1 <= Flips(Bits(a), Bits(b)) <= 3
    ensures Crc16(a) != Crc16(b)
  {
    hide Bits, Crc16, Flips, PairFlipped;
    if Flips(Bits(a), Bits(b)) == 2 {
      var i, j := TwoFlips(Bits(a), Bits(b));
      PairSpan(Bits(a), Bits(b), i, j);
      PairDetected(a, b, i, j);
    } else {
      OddDetected(a, b);
    }
  }

  lemma PairSpan(u: seq<bool>, v: seq<bool>, i: nat, j: nat)
    requires PairFlipped(u, v, i, j)
    ensures 0 < j - i < |u|
  {
  }

  /** More is not to be had: the four bits of the generator itself, anywhere, keep the CRC. */
  lemma FourFlipsMissed(a: seq<Byte>, b: seq<Byte>, at: nat)
    requires |a| == |b| && at + 17 <= |Bits(a)|
    requires XorBits(Bits(a), Bits(b)) == Zeros(at) + ([true] + GENERATOR) + Zeros(|Bits(a)| - at - 17)
    ensures Crc16(a) == Crc16(b)
  {
    hide Bits, FeedBits, BitsOf, FeedAll, ShiftBits, ShiftedBits;
    var start: Register := BitsOf(INITIAL, 16);
    FeedAllIsFeedBits(INITIAL, a);
    FeedAllIsFeedBits(INITIAL, b);
    FeedBitsLinear(start, start, Bits(a), Bits(b));
    assert XorBits(start, start) == Zeros(16);
    GeneratorCancels(at, |Bits(a)| - at - 17);
    var x, y := FeedBits(start, Bits(a)), FeedBits(start, Bits(b));
    assert forall i :: 0 <= i < 16 ==> x[i] == y[i] by {
      assert forall i :: 0 <= i < 16 ==> !XorBits(x, y)[i];
    }
    CrcBits(a, b);
  }

  lemma CrcBits(a: seq<Byte>, b: seq<Byte>)
    requires BitsOf(Crc16(a), 16) == BitsOf(Crc16(b), 16)
    ensures Crc16(a) == Crc16(b)
  {
    hide BitsOf, Crc16;
    Pow2Values();
    BitsOfInjective(Crc16(a), Crc16(b), 16);
  }

  lemma GeneratorCancels(before: nat, after: nat)
    ensures FeedBits(Zeros(16), Zeros(before) + ([true] + GENERATOR) + Zeros(after)) == Zeros(16)
  {
    hide FeedBits, ShiftBits, ShiftedBits;
    FeedBitsSplit(Zeros(16), Zeros(before) + ([true] + GENERATOR), Zeros(after));
    FeedBitsSplit(Zeros(16), Zeros(before), [true] + GENERATOR);
    FeedZeros(Zeros(16), before);
    ZeroStays(before);
    FeedBitsSplit(Zeros(16), [true], GENERATOR);
    FeedTop();
    TopIsGenerator();
    ShiftedFeeds(GENERATOR, GENERATOR, 16);
    var g: seq<bool> := GENERATOR;
    assert g[..16] == g && g[16..] + Zeros(16) == Zeros(16);
    assert XorBits(GENERATOR, GENERATOR) == Zeros(16);
    ZeroStays(16);
    AddZero(FeedBits(GENERATOR, g));
    FeedZeros(Zeros(16), after);
    ZeroStays(after);
  }

  lemma TopIsGenerator()
    ensures ShiftBits(TOP) == GENERATOR
  {
  }

  /**
   Up to three flipped bits in the body of a blob that fits the storage, outside its length field,
   make either decoder refuse it.
   */
  lemma FewFlipsRejected(d: Dialect, e: Dialect, data: seq<Byte>, damaged: seq<Byte>)
    requires Decode(d, data).Ok? && |damaged| == |data| && BlobLength(data) <= NVM_SIZE
    requires
      var end := BlobLength(data) - 2;
      && 1 <= Flips(Bits(data[..end]), Bits(damaged[..end])) <= 3
      && damaged[8..10] == data[8..10] && damaged[end..] == data[end..]
    ensures Decode(e, damaged) == Err
  {
    hide ParseProfiles, Crc16, Flips, Bits;
    var end := BlobLength(data) - 2;
    FewFlipsDetected(data[..end], damaged[..end]);
    ChangedBodyRejected(d, e, data, damaged);
  }
}
