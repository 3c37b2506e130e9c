/** Decoding undoes encoding, and what counting characters and lines can rely on. */
module Ascii85Proofs {
  import opened Bytes
  import opened Ascii85
  import opened Framing

  // ----- digits and values

  function Value(digits: seq<Byte>): nat
    requires forall i :: 0 <= i < |digits| ==> Digit(digits[i])
  {
    if digits == [] then 0
    else
      var last := digits[|digits| - 1];
      assert Digit(last);
      Value(digits[..|digits| - 1]) * 85 + (last - OFFSET)
  }

  function Pow85(n: nat): nat {
    if n == 0 then 1 else 85 * Pow85(n - 1)
  }

  lemma {:induction false} ValueOfDigits(v: nat, n: nat)
    requires v < Pow85(n)
    ensures Value(Digits(v, n)) == v
  {
    if n > 0 {
      ValueOfDigits(v / 85, n - 1);
      var ds := Digits(v, n);
      assert ds[..n - 1] == Digits(v / 85, n - 1) && ds[n - 1] == OFFSET + v % 85;
    }
  }

  /** Dropping the last digit divides by 85. */
  lemma DropDigit(v: nat, n: nat)
    requires n > 0
    ensures Digits(v, n)[..n - 1] == Digits(v / 85, n - 1)
  {
  }

  lemma Pow85Five()
    ensures Pow85(2) == 7225 && Pow85(3) == 614125 && Pow85(4) == 52200625 && Pow85(5) == 4437053125
  {
  }

  /** Digits of an unfinished group accumulate in the state. */
  lemma {:induction false} ScanDigits(text: seq<Byte>, digits: seq<Byte>)
    requires |digits| < 5 && ScanAll(text).Scan? && ScanAll(text).count == 0 && ScanAll(text).group == 0
    requires forall i :: 0 <= i < |digits| ==> Digit(digits[i])
    ensures ScanAll(text + digits) == Scan(ScanAll(text).out, Value(digits), |digits|)
    decreases |digits|
  {
    if digits == [] {
      assert text + digits == text;
    } else {
      var front := digits[..|digits| - 1];
      ScanDigits(text, front);
      assert (text + digits)[..|text + digits| - 1] == text + front;
    }
  }

  lemma FifthDigit(out: seq<Byte>, v: nat)
    requires v <= MAX_U32
    ensures Step(Scan(out, v / 85, 4), OFFSET + v % 85) == Scan(out + U32(v), 0, 0)
  {
    hide U32;
  }

  lemma ScanGroup(text: seq<Byte>, v: nat)
    requires ScanAll(text).Scan? && ScanAll(text).count == 0 && ScanAll(text).group == 0
    requires v <= MAX_U32
    ensures ScanAll(text + Digits(v, 5)) == Scan(ScanAll(text).out + U32(v), 0, 0)
  {
    hide U32, Step, Value, ScanAll, Digits;
    var ds := Digits(v, 5);
    Pow85Five();
    ValueOfDigits(v / 85, 4);
    LastDigit(v, 5);
    ScanDigits(text, Digits(v / 85, 4));
    FifthDigit(ScanAll(text).out, v);
    ScanNext(text + ds);
    assert (text + ds)[..|text + ds| - 1] == text + Digits(v / 85, 4);
  }

  lemma LastDigit(v: nat, n: nat)
    requires n > 0
    ensures Digits(v, n) == Digits(v / 85, n - 1) + [OFFSET + v % 85]
  {
  }

  lemma ScanNext(text: seq<Byte>)
    requires text != []
    ensures ScanAll(text) == Step(ScanAll(text[..|text| - 1]), text[|text| - 1])
  {
    hide Step;
  }

  // ----- the partial group

  lemma PartialDigits(v: nat, k: nat)
    requires 1 <= k <= 3
    ensures Digits(v, 5)[..5 - k]
         == Digits(if k == 1 then v / 85 else if k == 2 then v / 7225 else v / 614125, 5 - k)
  {
    hide Digits;
    DropDigit(v, 5);
    DropDigit(v / 85, 4);
    DropDigit(v / 85 / 85, 3);
    assert v / 85 / 85 == v / 7225 && v / 85 / 85 / 85 == v / 614125;
    var ds := Digits(v, 5);
    assert ds[..3] == ds[..4][..3] && ds[..2] == ds[..3][..2];
  }

  /** 'u' padding rounds the group up by less than a byte of the dropped part. */
  lemma PaddedTail(v: nat, k: nat)
    requires 1 <= k <= 3
    ensures
      var group := if k == 1 then v / 85 else if k == 2 then v / 7225 else v / 614125;
      v <= Padded(group, k) < v + (if k == 1 then 85 else if k == 2 then 7225 else 614125)
  {
    if k == 1 {
      assert Padded(v / 85, 1) == v / 85 * 85 + 84;
    } else if k == 2 {
      var g := v / 7225;
      assert Padded(g, 1) == g * 85 + 84;
      assert Padded(g, 2) == g * 7225 + 7224;
    } else {
      var g := v / 614125;
      assert Padded(g, 1) == g * 85 + 84;
      assert Padded(g, 2) == g * 7225 + 7224;
      assert Padded(g, 3) == g * 614125 + 614124;
    }
  }

  lemma BigEndianTail(tail: seq<Byte>)
    requires 1 <= |tail| <= 3
    ensures
      var v := BigEndian(tail + Padding(4 - |tail|));
      && v <= MAX_U32
      && (|tail| == 3 ==> v == Word(tail[0], tail[1], tail[2], 0))
      && (|tail| == 2 ==> v == Word(tail[0], tail[1], 0, 0))
      && (|tail| == 1 ==> v == Word(tail[0], 0, 0, 0))
  {
    BigEndianFour(tail + Padding(4 - |tail|));
  }

  lemma ShiftTwice(w: int)
    ensures w / 0x100 / 0x100 == w / 0x1_0000
    ensures w / 0x1_0000 / 0x100 == w / 0x100_0000
  {
  }

  lemma Peel(q: int, r: int)
    requires 0 <= r < 0x100
    ensures (q * 0x100 + r) / 0x100 == q && (q * 0x100 + r) % 0x100 == r
  {
  }

  lemma WordParts(w: int, i0: int, q1: int, q2: int, b1: Byte, b2: Byte, b3: Byte)
    requires w == q2 * 0x100 + b3 && q2 == q1 * 0x100 + b2 && q1 == i0 * 0x100 + b1
    ensures w / 0x100 == q2 && w / 0x1_0000 == q1 && w / 0x100_0000 == i0
  {
    Peel(q2, b3);
    Peel(q1, b2);
    Peel(i0, b1);
    ShiftTwice(w);
  }

  lemma TailByte(b0: Byte, b1: Byte, b2: Byte, b3: Byte)
    ensures 0 <= Word(b0, b1, b2, b3) <= MAX_U32
    ensures U32(Word(b0, b1, b2, b3)) == [b0, b1, b2, b3]
  {
    hide Low;
    var i0: int := b0;
    var q1 := i0 * 0x100 + b1;
    var q2 := q1 * 0x100 + b2;
    WordParts(Word(b0, b1, b2, b3), i0, q1, q2, b1, b2, b3);
    LowOfByte(b0);
    LowAfter(i0, b1);
    LowAfter(q1, b2);
    LowAfter(q2, b3);
  }

  lemma TailThree(q: nat, w: nat)
    requires 0 <= w - q * 0x100 < 0x100
    ensures w / 0x100 == q && w / 0x1_0000 == q / 0x100 && w / 0x100_0000 == q / 0x100 / 0x100
  {
    Peel(q, w - q * 0x100);
    ShiftTwice(w);
  }

  lemma TailTwo(q: nat, w: nat)
    requires 0 <= w - q * 0x1_0000 < 0x1_0000
    ensures w / 0x1_0000 == q && w / 0x100_0000 == q / 0x100
  {
    ShiftTwice(w);
  }

  lemma TailBytes(tail: seq<Byte>, w: nat)
    requires 1 <= |tail| <= 3
    requires |tail| == 3 ==> 0 <= w - Word(tail[0], tail[1], tail[2], 0) < 0x100
    requires |tail| == 2 ==> 0 <= w - Word(tail[0], tail[1], 0, 0) < 0x1_0000
    requires |tail| == 1 ==> 0 <= w - Word(tail[0], 0, 0, 0) < 0x100_0000
    ensures w <= MAX_U32 && U32(w)[..|tail|] == tail
  {
    hide Low;
    var t0: int := tail[0];
    LowOfByte(tail[0]);
    if |tail| == 3 {
      var t1: int, t2: int := tail[1], tail[2];
      TailThree((t0 * 0x100 + t1) * 0x100 + t2, w);
      Peel(t0 * 0x100 + t1, t2);
      Peel(t0, t1);
      LowAfter(t0 * 0x100 + t1, tail[2]);
      LowAfter(t0, tail[1]);
    } else if |tail| == 2 {
      var t1: int := tail[1];
      TailTwo(t0 * 0x100 + t1, w);
      Peel(t0, t1);
      LowAfter(t0, tail[1]);
    } else {
      assert w / 0x100_0000 == t0;
    }
  }

  lemma LowOfByte(b: Byte)
    ensures Low(b) == b
  {
  }

  lemma LowAfter(q: int, b: Byte)
    ensures Low(q * 0x100 + b as int) == b
  {
  }

  lemma ScanTail(text: seq<Byte>, tail: seq<Byte>)
    requires ScanAll(text).Scan? && ScanAll(text).count == 0 && ScanAll(text).group == 0
    requires 1 <= |tail| <= 3
    ensures Finish(ScanAll(text + Encode(tail))) == Ok(ScanAll(text).out + tail)
  {
    hide U32, ScanAll, Digits, Padded, Word, BigEndian, Value;
    var k := 4 - |tail|;
    var v := BigEndian(tail + Padding(k));
    var group := if k == 1 then v / 85 else if k == 2 then v / 7225 else v / 614125;
    BigEndianTail(tail);
    PartialDigits(v, k);
    Pow85Five();
    ValueOfDigits(group, 5 - k);
    ScanDigits(text, Digits(group, 5 - k));
    PaddedTail(v, k);
    TailBytes(tail, Padded(group, k));
  }

  // ----- the round trip

  /** The state after a whole number of groups. */
  lemma {:induction false} ScanGroups(text: seq<Byte>, data: seq<Byte>)
    requires ScanAll(text).Scan? && ScanAll(text).count == 0 && ScanAll(text).group == 0
    ensures Finish(ScanAll(text + Encode(data))) == Ok(ScanAll(text).out + data)
    decreases |data|
  {
    hide U32, ScanAll, Digits, BigEndian;
    if data == [] {
      assert text + Encode(data) == text;
      assert ScanAll(text).out + data == ScanAll(text).out;
    } else if |data| < 4 {
      ScanTail(text, data);
    } else {
      var v := BigEndian(data[..4]);
      BigEndianFour(data[..4]);
      TailByte(data[0], data[1], data[2], data[3]);
      ScanGroup(text, v);
      ScanGroups(text + Digits(v, 5), data[4..]);
      assert text + Encode(data) == text + Digits(v, 5) + Encode(data[4..]);
      var out, first := ScanAll(text).out, [data[0], data[1], data[2], data[3]];
      assert data == first + data[4..];
      assert out + first + data[4..] == out + data;
    }
  }

  /**
   Every byte string survives encoding, insertion of whitespace anywhere, and decoding; in
   particular no group overflows and no padding byte leaks out.
   */
  lemma DecodeEncode(data: seq<Byte>, text: seq<Byte>)
    requires Visible(text) == Encode(data)
    ensures Decode(text) == Ok(data)
  {
    hide Encode, Visible, Finish;
    ScanVisible(text);
    ScanGroups([], data);
    assert [] + Encode(data) == Encode(data);
    assert [] + data == data;
  }

  lemma {:induction false} JoinCons(first: seq<Byte>, rest: seq<seq<Byte>>)
    ensures Join([first] + rest) == first + Join(rest)
    decreases |rest|
  {
    if rest == [] {
      assert [first] + rest == [first];
      assert Join([first]) == Join([]) + first;
    } else {
      var front := rest[..|rest| - 1];
      assert ([first] + rest)[..|rest|] == [first] + front;
      JoinCons(first, front);
    }
  }

  /** Wrapping loses nothing, every line but the last is full, and none is empty. */
  lemma LinesJoin(text: seq<Byte>, width: nat)
    requires width > 0
    ensures Join(Lines(text, width)) == text
    ensures forall line <- Lines(text, width) :: 1 <= |line| <= width
  {
    JoinedBack(text, width);
    LineWidths(text, width);
  }

  lemma {:induction false} JoinedBack(text: seq<Byte>, width: nat)
    requires width > 0
    ensures Join(Lines(text, width)) == text
    decreases |text|
  {
    hide Join;
    JoinNothing();
    if |text| > width {
      JoinedBack(text[width..], width);
      JoinCons(text[..width], Lines(text[width..], width));
    } else if text != [] {
      JoinCons(text, []);
      assert [text] + [] == [text];
    }
  }

  lemma JoinNothing()
    ensures Join([]) == []
  {
  }

  lemma {:induction false} LineWidths(text: seq<Byte>, width: nat)
    requires width > 0
    ensures forall line <- Lines(text, width) :: 1 <= |line| <= width
    decreases |text|
  {
    if |text| > width {
      LineWidths(text[width..], width);
    }
  }

  // ----- counting characters

  function CountWhitespace(text: seq<Byte>): nat {
    if text == [] then 0
    else CountWhitespace(text[..|text| - 1]) + if Whitespace(text[|text| - 1]) then 1 else 0
  }

  function CountZ(text: seq<Byte>): nat {
    if text == [] then 0
    else CountZ(text[..|text| - 1]) + if text[|text| - 1] == Z then 1 else 0
  }

  lemma {:induction false} ScanCount(text: seq<Byte>)
    ensures
      var st := ScanAll(text);
      st.Scan? ==>
        var groups := |st.out| / 4 - CountZ(text);
        && |st.out| % 4 == 0 && st.count < 5 && groups >= 0
        && |text| == CountWhitespace(text) + CountZ(text) + 5 * groups + st.count
  {
    hide Step;
    if text != [] {
      var front, last := text[..|text| - 1], text[|text| - 1];
      ScanCount(front);
      if ScanAll(front).Scan? {
        StepCount(ScanAll(front), last);
      } else {
        BadStep(last);
      }
    }
  }

  lemma BadStep(c: Byte)
    ensures Step(Bad, c) == Bad
  {
  }

  lemma StepCount(st: State, c: Byte)
    requires st.Scan? && st.count < 5
    ensures
      var next := Step(st, c);
      next.Scan? ==>
        if Whitespace(c) then next == st
        else if c == Z then |next.out| == |st.out| + 4 && next.count == st.count == 0
        else if st.count == 4 then |next.out| == |st.out| + 4 && next.count == 0
        else next.out == st.out && next.count == st.count + 1
  {
  }

  /**
   Text of exactly the announced length that decodes to the announced number of bytes has four
   whitespace characters for every 'z': counting leaves the shorthand no room otherwise.
   */
  lemma CountingRulesOutShorthand(text: seq<Byte>, n: nat)
    requires |text| == EncodedLen(n) && Decode(text).Ok? && |Decode(text).value| == n
    ensures CountWhitespace(text) == 4 * CountZ(text)
  {
    hide ScanAll, Padded;
    ScanCount(text);
  }

  // ----- no payload line can be taken for a terminator

  /** A slice of the rest is a slice of the text, a line further on. */
  lemma NextLine(text: seq<Byte>, width: nat, i: nat, line: seq<Byte>)
    requires i > 0 && width <= |text| && width * (i - 1) + |line| <= |text[width..]|
    requires line == text[width..][width * (i - 1)..width * (i - 1) + |line|]
    ensures width * i == width + width * (i - 1) && width * (i + 1) == width + width * i
    ensures line == text[width * i..width * i + |line|]
  {
    assert width * i == width + width * (i - 1);
  }

  lemma {:induction false} LineIsSlice(text: seq<Byte>, width: nat, i: nat)
    requires width > 0 && i < |Lines(text, width)|
    ensures
      var line := Lines(text, width)[i];
      && width * i < |text| && width * i + |line| <= |text|
      && line == text[width * i..width * i + |line|]
      && |line| == if width * (i + 1) <= |text| then width else |text| - width * i
    decreases |text|
  {
    if i > 0 {
      LineIsSlice(text[width..], width, i - 1);
      NextLine(text, width, i, Lines(text, width)[i]);
    } else if |text| <= width {
      assert width * (i + 1) == width;
      assert text == text[0..|text|];
    }
  }

  lemma {:induction false} SingleByteTail(data: seq<Byte>)
    requires |data| % 4 == 1
    ensures
      var text, v := Encode(data), data[|data| - 1] as nat * 0x100_0000;
      |text| >= 2 && text[|text| - 2..] == Digits(v / 614125, 2)
    decreases |data|
  {
    hide Digits, BigEndian, Padding;
    if |data| >= 4 {
      SingleByteTail(data[4..]);
      var rest := Encode(data[4..]);
      assert Encode(data)[|Encode(data)| - 2..] == rest[|rest| - 2..];
    } else {
      BigEndianTail(data);
      PartialDigits(BigEndian(data + Padding(3)), 3);
      assert Encode(data)[0..] == Encode(data);
    }
  }

  /** No byte's two-character tail group spells "OK". */
  lemma TailIsNotOk(b: Byte)
    ensures Digits(b as nat * 0x100_0000 / 614125, 2) != OK_LINE
  {
    var v: nat := b as nat * 0x100_0000;
    var q := v / 614125;
    LastDigit(q, 2);
    LastDigit(q / 85, 1);
    var ds := Digits(q, 2);
    assert ds[0] == OFFSET + q / 85 % 85 && ds[1] == OFFSET + q % 85;
  }

  /** No line of any wrapped encoding is "OK", and none holds a space. */
  lemma PayloadIsNotTerminator(data: seq<Byte>, i: nat)
    requires i < |Lines(Encode(data), 80)|
    ensures
      var line := Lines(Encode(data), 80)[i];
      line != OK_LINE && forall c <- line :: Digit(c)
  {
    hide Encode, Lines, Digits;
    var text := Encode(data);
    var line := Lines(text, 80)[i];
    EncodedAlphabet(data);
    EncodedLength(data);
    LineIsSlice(text, 80, i);
    if |line| == 2 {
      assert |data| % 4 == 1;
      SingleByteTail(data);
      assert line == text[|text| - 2..];
      TailIsNotOk(data[|data| - 1]);
    }
  }
}
