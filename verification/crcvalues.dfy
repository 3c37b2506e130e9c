/**
 What the preset of the register does, and the value the catalogue of CRCs lists.

 Comparing two CRCs says nothing of the value the register starts with; these results do.
 */
module CrcValues {
  import opened Arithmetic
  import opened Bytes
  import opened BitStrings
  import opened Crc
  import opened Distance
  import Trailer

  /** Nothing fed in leaves the preset. */
  lemma CrcOfNothing()
    ensures Crc16([]) == 0xFFFF
  {
  }

  const ONES: Register := XorBits(Zeros(16), seq(16, i => true))

  lemma {:induction false} OnesBits(n: nat)
    ensures BitsOf(Pow2(n) - 1, n) == seq(n, i => true)
  {
    if n > 0 {
      OnesBits(n - 1);
      assert (Pow2(n) - 1) / 2 == Pow2(n - 1) - 1 && (Pow2(n) - 1) % 2 == 1;
      assert seq(n, i => true) == seq(n - 1, i => true) + [true];
    }
  }

  lemma PresetBits()
    ensures BitsOf(INITIAL, 16) == ONES
  {
    Pow2Values();
    OnesBits(16);
  }

  /** The bits of a byte subtracted from 255 are the opposite ones. */
  lemma {:induction false} ComplementBits(v: nat, n: nat)
    requires v < Pow2(n)
    ensures BitsOf(Pow2(n) - 1 - v, n) == XorBits(seq(n, i => true), BitsOf(v, n))
  {
    if n > 0 {
      var w := Pow2(n) - 1 - v;
      assert w / 2 == Pow2(n - 1) - 1 - v / 2 && (w % 2 == 1) == (v % 2 != 1);
      ComplementBits(v / 2, n - 1);
      assert seq(n, i => true) == seq(n - 1, i => true) + [true];
      assert XorBits(seq(n - 1, i => true), BitsOf(v / 2, n - 1)) + [v % 2 != 1]
          == XorBits(seq(n, i => true), BitsOf(v, n));
    }
  }

  function Complement(b: Byte): Byte {
    255 - b
  }

  lemma ComplementByte(b: Byte)
    ensures BitsOf(Complement(b), 8) == XorBits(seq(8, i => true), BitsOf(b, 8))
  {
    Pow2Values();
    ComplementBits(b, 8);
  }

  /** Sixteen bits fed into a register are sixteen shifts of the two together. */
  lemma SixteenFed(r: Register, w: Register)
    ensures FeedBits(r, w) == ShiftedBits(XorBits(r, w), 16)
  {
    hide FeedBits, ShiftedBits;
    ShiftedFeeds(r, w, 16);
    var bits: seq<bool> := w;
    assert bits[..16] == bits && bits[16..] + Zeros(16) == Zeros(16);
    AddZero(FeedBits(r, w));
  }

  lemma TwoBytesFirst(data: seq<Byte>)
    requires |data| >= 2
    ensures Bits(data) == BitsOf(data[0], 8) + BitsOf(data[1], 8) + Bits(data[2..])
  {
    hide BitsOf;
    assert data[1..][1..] == data[2..];
  }

  lemma OppositePair(a: Byte, b: Byte)
    ensures
      var w := BitsOf(a, 8) + BitsOf(b, 8);
      var c := BitsOf(Complement(a), 8) + BitsOf(Complement(b), 8);
      XorBits(ONES, w) == XorBits(Zeros(16), c)
  {
    hide BitsOf;
    ComplementByte(a);
    ComplementByte(b);
  }

  /**
   The preset is the same as taking the first sixteen bits for their opposites and starting from a
   clear register.
   */
  lemma PresetIsComplement(data: seq<Byte>)
    requires |data| >= 2
    ensures BitsOf(Crc16(data), 16)
         == FeedBits(Zeros(16), Bits([Complement(data[0]), Complement(data[1])] + data[2..]))
  {
    hide BitsOf, FeedBits, FeedAll, Bits, ShiftedBits, XorBits, Complement;
    var a, b := data[0], data[1];
    var other := [Complement(a), Complement(b)] + data[2..];
    var w := BitsOf(a, 8) + BitsOf(b, 8);
    var c := BitsOf(Complement(a), 8) + BitsOf(Complement(b), 8);
    FeedAllIsFeedBits(INITIAL, data);
    PresetBits();
    TwoBytesFirst(data);
    TwoBytesFirst(other);
    assert other[2..] == data[2..];
    FeedBitsSplit(ONES, w, Bits(data[2..]));
    FeedBitsSplit(Zeros(16), c, Bits(data[2..]));
    SixteenFed(ONES, w);
    SixteenFed(Zeros(16), c);
    OppositePair(a, b);
  }

  // ----- bytes fed into words

  function EightShifts(x: bv16): bv16 {
    ShiftWord(ShiftWord(ShiftWord(ShiftWord(ShiftWord(ShiftWord(ShiftWord(ShiftWord(x))))))))
  }

  lemma NoShift(x: bv16)
    ensures ShiftedBits(Word(x), 0) == Word(x)
  {
    hide Word;
  }

  lemma OneMore(x: bv16, y: bv16, n: nat)
    requires Word(y) == ShiftedBits(Word(x), n)
    ensures Word(ShiftWord(y)) == ShiftedBits(Word(x), n + 1)
  {
    hide ShiftBits, Word, ShiftWord;
    WordShift(y);
  }

  lemma WordEight(x: bv16)
    ensures Word(EightShifts(x)) == ShiftedBits(Word(x), 8)
  {
    hide Word, ShiftWord, ShiftedBits;
    NoShift(x);
    var a := ShiftWord(x);
    var b := ShiftWord(a);
    var c := ShiftWord(b);
    var d := ShiftWord(c);
    var e := ShiftWord(d);
    var f := ShiftWord(e);
    var g := ShiftWord(f);
    OneMore(x, x, 0);
    OneMore(x, a, 1);
    OneMore(x, b, 2);
    OneMore(x, c, 3);
    OneMore(x, d, 4);
    OneMore(x, e, 5);
    OneMore(x, f, 6);
    OneMore(x, g, 7);
  }

  /** The word has the bits of the byte in its upper half. */
  predicate IsByte(b: Byte, w: bv16) {
    Word(w) == BitsOf(b, 8) + Zeros(8)
  }

  lemma ByteFedIntoWord(r: bv16, b: Byte, w: bv16)
    requires IsByte(b, w)
    ensures FeedBits(Word(r), BitsOf(b, 8)) == Word(EightShifts(r ^ w))
  {
    hide BitsOf, FeedBits, ShiftedBits, Word, EightShifts;
    var bits: Register := BitsOf(b, 8) + Zeros(8);
    WordXor(r, w);
    WordEight(r ^ w);
    ShiftedFeeds(Word(r), bits, 8);
    assert bits[..8] == BitsOf(b, 8) && bits[8..] + Zeros(8) == Zeros(16);
    AddZero(FeedBits(Word(r), BitsOf(b, 8)));
  }

  lemma NumberIsWord(v: nat, w: bv16)
    requires forall i: nat :: i < 16 ==> Bit(v, 15 - i) == Has(w, MASKS[i])
    ensures BitsOf(v, 16) == Word(w)
  {
    hide Bit, Has, BitsOf;
    forall i: nat | i < 16
      ensures BitsOf(v, 16)[i] == Word(w)[i]
    {
      BitAt(v, 16, 15 - i);
    }
  }

  lemma ByteIsWord(b: Byte, w: bv16)
    requires forall i: nat :: i < 8 ==> Bit(b, 7 - i) == Has(w, MASKS[i])
    requires forall i: nat :: 8 <= i < 16 ==> !Has(w, MASKS[i])
    ensures IsByte(b, w)
  {
    hide Bit, Has, BitsOf;
    forall i: nat | i < 16
      ensures Word(w)[i] == (BitsOf(b, 8) + Zeros(8))[i]
    {
      if i < 8 {
        BitAt(b, 8, 7 - i);
      }
    }
  }

  lemma MaskSet(i: nat)
    requires i < 16
    ensures MASKS[i] != 0
  {
  }

  lemma OnesHave(mask: bv16)
    requires mask != 0
    ensures Has(0xFFFF, mask)
  {
  }

  lemma PresetWord()
    ensures BitsOf(0xFFFF, 16) == Word(0xFFFF)
  {
    hide Has, BitsOf;
    Pow2Values();
    OnesBits(16);
    forall i: nat | i < 16
      ensures Word(0xFFFF)[i]
    {
      MaskSet(i);
      OnesHave(MASKS[i]);
    }
  }

  // ----- a lost leading zero byte is noticed

  lemma ZeroByteWord()
    ensures IsByte(0, 0)
  {
    hide Bit;
    forall k
      ensures !Bit(0, k)
    {
      Trailer.NoBit(k);
    }
    ByteIsWord(0, 0);
  }

  lemma ZeroByteMoves()
    ensures EightShifts(0xFFFF ^ 0) == 0xE1F0
  {
  }

  lemma WordsDiffer()
    ensures Word(0xE1F0) != Word(0xFFFF)
  {
    assert !Word(0xE1F0)[3] && Word(0xFFFF)[3];
  }

  /** A zero byte in front of data changes its CRC, which a clear register would not notice. */
  lemma LeadingZeroNoticed(data: seq<Byte>)
    ensures Crc16([0] + data) != Crc16(data)
  {
    hide BitsOf, FeedBits, FeedAll, Bits, Word, EightShifts;
    var start: Register := BitsOf(INITIAL, 16);
    FeedAllIsFeedBits(INITIAL, [0] + data);
    FeedAllIsFeedBits(INITIAL, data);
    FirstByte(0, data);
    FeedBitsSplit(start, BitsOf(0, 8), Bits(data));
    PresetWord();
    ZeroByteWord();
    ByteFedIntoWord(0xFFFF, 0, 0);
    ZeroByteMoves();
    WordsDiffer();
    if Crc16([0] + data) == Crc16(data) {
      FeedBitsInjective(Word(0xE1F0), Word(0xFFFF), Bits(data));
    }
  }

  lemma FirstByte(b: Byte, data: seq<Byte>)
    ensures Bits([b] + data) == BitsOf(b, 8) + Bits(data)
  {
    hide BitsOf;
    assert ([b] + data)[1..] == data;
  }

  // ----- the check value

  lemma OneMoreByte(done: seq<Byte>, r: bv16, b: Byte, w: bv16)
    requires FeedBits(Word(0xFFFF), Bits(done)) == Word(r) && IsByte(b, w)
    ensures FeedBits(Word(0xFFFF), Bits(done + [b])) == Word(EightShifts(r ^ w))
  {
    hide BitsOf, FeedBits, Bits, Word, EightShifts, IsByte;
    Trailer.BitsSnoc(done, b);
    FeedBitsSplit(Word(0xFFFF), Bits(done), BitsOf(b, 8));
    ByteFedIntoWord(r, b, w);
  }

  /** A bit by division. */
  lemma {:induction false} BitIs(v: nat, k: nat)
    ensures Bit(v, k) <==> v / Pow2(k) % 2 == 1
  {
    if k > 0 {
      BitIs(v / 2, k - 1);
      HalfFirst(v, Pow2(k - 1));
    }
  }

  lemma HalfFirst(v: nat, p: nat)
    requires p > 0
    ensures v / 2 / p == v / (2 * p)
  {
    var q, r := v / 2 / p, v / 2 % p;
    assert v / 2 == p * q + r;
    assert 2 * p * q == 2 * (p * q);
    DivModUnique(v, 2 * p, q, 2 * r + v % 2);
  }

  lemma Powers()
    ensures Pow2(0) == 1 && Pow2(1) == 2 && Pow2(2) == 4 && Pow2(3) == 8
    ensures Pow2(4) == 16 && Pow2(5) == 32 && Pow2(6) == 64 && Pow2(7) == 128
  {
    assert Pow2(3) == 8;
  }

  lemma MorePowers()
    ensures Pow2(8) == 256 && Pow2(9) == 512 && Pow2(10) == 1024 && Pow2(11) == 2048
    ensures Pow2(12) == 4096 && Pow2(13) == 8192 && Pow2(14) == 16384 && Pow2(15) == 32768
  {
    Pow2Values();
    assert Pow2(9) == 2 * Pow2(8) && Pow2(10) == 2 * Pow2(9) && Pow2(11) == 2 * Pow2(10);
    assert Pow2(12) == 2 * Pow2(11) && Pow2(13) == 2 * Pow2(12) && Pow2(14) == 2 * Pow2(13);
  }

  lemma BitsOfByte(b: Byte)
    ensures Bit(b, 7) == (b / 128 % 2 == 1) && Bit(b, 6) == (b / 64 % 2 == 1)
    ensures Bit(b, 5) == (b / 32 % 2 == 1) && Bit(b, 4) == (b / 16 % 2 == 1)
    ensures Bit(b, 3) == (b / 8 % 2 == 1) && Bit(b, 2) == (b / 4 % 2 == 1)
    ensures Bit(b, 1) == (b / 2 % 2 == 1) && Bit(b, 0) == (b % 2 == 1)
  {
    hide Bit, Pow2;
    Powers();
    BitIs(b, 0);
    BitIs(b, 1);
    BitIs(b, 2);
    BitIs(b, 3);
    BitIs(b, 4);
    BitIs(b, 5);
    BitIs(b, 6);
    BitIs(b, 7);
  }

  /** The bytes of "1" to "9", whose upper half is the same. */
  lemma DigitIsWord(b: Byte, w: bv16)
    requires 48 <= b < 64 && !Has(w, 0x8000) && !Has(w, 0x4000) && Has(w, 0x2000) && Has(w, 0x1000)
    requires Has(w, 0x0800) == (b / 8 % 2 == 1) && Has(w, 0x0400) == (b / 4 % 2 == 1)
    requires Has(w, 0x0200) == (b / 2 % 2 == 1) && Has(w, 0x0100) == (b % 2 == 1)
    requires w & 0xFF == 0
    ensures IsByte(b, w)
  {
    hide Has, IsByte, BitsOf, Bit;
    BitsOfByte(b);
    LowHalfClear(w);
    ByteIsWord(b, w);
  }

  lemma LowHalfClear(w: bv16)
    requires w & 0xFF == 0
    ensures forall i: nat :: 8 <= i < 16 ==> !Has(w, MASKS[i])
  {
    assert !Has(w, 0x80) && !Has(w, 0x40) && !Has(w, 0x20) && !Has(w, 0x10);
    assert !Has(w, 0x08) && !Has(w, 0x04) && !Has(w, 0x02) && !Has(w, 0x01);
  }

  lemma NothingFed()
    ensures FeedBits(Word(0xFFFF), Bits([])) == Word(0xFFFF)
  {
    hide Word;
  }

  lemma WordsMove()
    ensures EightShifts(0xFFFF ^ 0x3100) == 0xC782
    ensures EightShifts(0xC782 ^ 0x3200) == 0x3DBA
    ensures EightShifts(0x3DBA ^ 0x3300) == 0x5BCE
    ensures EightShifts(0x5BCE ^ 0x3400) == 0x5349
    ensures EightShifts(0x5349 ^ 0x3500) == 0x4560
    ensures EightShifts(0x4560 ^ 0x3600) == 0x2EF4
    ensures EightShifts(0x2EF4 ^ 0x3700) == 0x7718
    ensures EightShifts(0x7718 ^ 0x3800) == 0xA12B
    ensures EightShifts(0xA12B ^ 0x3900) == 0x29B1
  {
  }

  lemma Check1()
    ensures FeedBits(Word(0xFFFF), Bits([49])) == Word(0xC782)
  {
    hide FeedBits, Bits, Word, BitsOf, EightShifts, IsByte;
    NothingFed();
    DigitIsWord(49, 0x3100);
    OneMoreByte([], 0xFFFF, 49, 0x3100);
    WordsMove();
    assert [] + [49] == [49];
  }

  lemma Check2()
    ensures FeedBits(Word(0xFFFF), Bits([49, 50])) == Word(0x3DBA)
  {
    hide FeedBits, Bits, Word, BitsOf, EightShifts, IsByte;
    Check1();
    DigitIsWord(50, 0x3200);
    OneMoreByte([49], 0xC782, 50, 0x3200);
    WordsMove();
    assert [49] + [50] == [49, 50];
  }

  lemma Check3()
    ensures FeedBits(Word(0xFFFF), Bits([49, 50, 51])) == Word(0x5BCE)
  {
    hide FeedBits, Bits, Word, BitsOf, EightShifts, IsByte;
    Check2();
    DigitIsWord(51, 0x3300);
    OneMoreByte([49, 50], 0x3DBA, 51, 0x3300);
    WordsMove();
    assert [49, 50] + [51] == [49, 50, 51];
  }

  lemma Check4()
    ensures FeedBits(Word(0xFFFF), Bits([49, 50, 51, 52])) == Word(0x5349)
  {
    hide FeedBits, Bits, Word, BitsOf, EightShifts, IsByte;
    Check3();
    DigitIsWord(52, 0x3400);
    OneMoreByte([49, 50, 51], 0x5BCE, 52, 0x3400);
    WordsMove();
    assert [49, 50, 51] + [52] == [49, 50, 51, 52];
  }

  lemma Check5()
    ensures FeedBits(Word(0xFFFF), Bits([49, 50, 51, 52, 53])) == Word(0x4560)
  {
    hide FeedBits, Bits, Word, BitsOf, EightShifts, IsByte;
    Check4();
    DigitIsWord(53, 0x3500);
    OneMoreByte([49, 50, 51, 52], 0x5349, 53, 0x3500);
    WordsMove();
    assert [49, 50, 51, 52] + [53] == [49, 50, 51, 52, 53];
  }

  lemma Check6()
    ensures FeedBits(Word(0xFFFF), Bits([49, 50, 51, 52, 53, 54])) == Word(0x2EF4)
  {
    hide FeedBits, Bits, Word, BitsOf, EightShifts, IsByte;
    Check5();
    DigitIsWord(54, 0x3600);
    OneMoreByte([49, 50, 51, 52, 53], 0x4560, 54, 0x3600);
    WordsMove();
    assert [49, 50, 51, 52, 53] + [54] == [49, 50, 51, 52, 53, 54];
  }

  lemma Check7()
    ensures FeedBits(Word(0xFFFF), Bits([49, 50, 51, 52, 53, 54, 55])) == Word(0x7718)
  {
    hide FeedBits, Bits, Word, BitsOf, EightShifts, IsByte;
    Check6();
    DigitIsWord(55, 0x3700);
    OneMoreByte([49, 50, 51, 52, 53, 54], 0x2EF4, 55, 0x3700);
    WordsMove();
    assert [49, 50, 51, 52, 53, 54] + [55] == [49, 50, 51, 52, 53, 54, 55];
  }

  lemma Check8()
    ensures FeedBits(Word(0xFFFF), Bits([49, 50, 51, 52, 53, 54, 55, 56])) == Word(0xA12B)
  {
    hide FeedBits, Bits, Word, BitsOf, EightShifts, IsByte;
    Check7();
    DigitIsWord(56, 0x3800);
    OneMoreByte([49, 50, 51, 52, 53, 54, 55], 0x7718, 56, 0x3800);
    WordsMove();
    assert [49, 50, 51, 52, 53, 54, 55] + [56] == [49, 50, 51, 52, 53, 54, 55, 56];
  }

  lemma Check9()
    ensures FeedBits(Word(0xFFFF), Bits([49, 50, 51, 52, 53, 54, 55, 56, 57])) == Word(0x29B1)
  {
    hide FeedBits, Bits, Word, BitsOf, EightShifts, IsByte;
    Check8();
    DigitIsWord(57, 0x3900);
    OneMoreByte([49, 50, 51, 52, 53, 54, 55, 56], 0xA12B, 57, 0x3900);
    WordsMove();
    assert [49, 50, 51, 52, 53, 54, 55, 56] + [57] == [49, 50, 51, 52, 53, 54, 55, 56, 57];
  }

  lemma HighBits(v: nat)
    requires v == 0x29B1
    ensures !Bit(v, 15) && !Bit(v, 14) && Bit(v, 13) && !Bit(v, 12)
    ensures Bit(v, 11) && !Bit(v, 10) && !Bit(v, 9) && Bit(v, 8)
  {
    hide Bit, Pow2;
    MorePowers();
    BitIs(v, 8);
    BitIs(v, 9);
    BitIs(v, 10);
    BitIs(v, 11);
    BitIs(v, 12);
    BitIs(v, 13);
    BitIs(v, 14);
    BitIs(v, 15);
  }

  lemma LowBits(v: nat)
    requires v == 0x29B1
    ensures Bit(v, 7) && !Bit(v, 6) && Bit(v, 5) && Bit(v, 4)
    ensures !Bit(v, 3) && !Bit(v, 2) && !Bit(v, 1) && Bit(v, 0)
  {
    hide Bit, Pow2;
    Powers();
    BitIs(v, 0);
    BitIs(v, 1);
    BitIs(v, 2);
    BitIs(v, 3);
    BitIs(v, 4);
    BitIs(v, 5);
    BitIs(v, 6);
    BitIs(v, 7);
  }

  lemma CheckWord(v: nat)
    requires v == 0x29B1
    ensures BitsOf(v, 16) == Word(0x29B1)
  {
    hide BitsOf, Bit;
    HighBits(v);
    LowBits(v);
    NumberIsWord(v, 0x29B1);
  }

  /** The CRC of the text "123456789" is the one the catalogue lists for this variant. */
  lemma CheckValue()
    ensures Crc16([49, 50, 51, 52, 53, 54, 55, 56, 57]) == 0x29B1
  {
    hide FeedBits, Bits, Word, BitsOf, FeedAll;
    var data: seq<Byte> := [49, 50, 51, 52, 53, 54, 55, 56, 57];
    FeedAllIsFeedBits(INITIAL, data);
    PresetWord();
    Check9();
    CheckWord(0x29B1);
    Pow2Values();
    BitsOfInjective(Crc16(data), 0x29B1, 16);
  }
}
