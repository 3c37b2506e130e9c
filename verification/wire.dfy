/** The CLI's side of the wire encoding. */
module Wire {
  import opened Bytes
  import opened Ascii85
  import opened Ascii85Proofs

  const LINE_WIDTH := 80
  const ZERO_GROUP: seq<Byte> := [33, 33, 33, 33, 33]

  /** The library encoder, which shortens a whole group of zero bytes to 'z'. */
  function LibraryEncode(data: seq<Byte>): seq<Byte>
    decreases |data|
  {
    if |data| < 4 then Ascii85.Encode(data)
    else
      var v := BigEndian(data[..4]);
      (if v == 0 then [Z] else Digits(v, 5)) + LibraryEncode(data[4..])
  }

  /** `strings.ReplaceAll(s, "z", "!!!!!")`. */
  function ExpandZ(text: seq<Byte>): seq<Byte> {
    if text == [] then []
    else (if text[0] == Z then ZERO_GROUP else [text[0]]) + ExpandZ(text[1..])
  }

  function Encode(data: seq<Byte>): seq<Byte> {
    ExpandZ(LibraryEncode(data))
  }

  lemma {:induction false} ExpandZJoin(a: seq<Byte>, b: seq<Byte>)
    ensures ExpandZ(a + b) == ExpandZ(a) + ExpandZ(b)
  {
    if a == [] {
      assert a + b == b;
    } else {
      assert (a + b)[1..] == a[1..] + b;
      ExpandZJoin(a[1..], b);
    }
  }

  lemma {:induction false} ExpandZPlain(text: seq<Byte>)
    requires forall c <- text :: Digit(c)
    ensures ExpandZ(text) == text
  {
    if text != [] {
      assert Digit(text[0]);
      ExpandZPlain(text[1..]);
    }
  }

  lemma ZeroDigits()
    ensures Digits(0, 5) == ZERO_GROUP && ExpandZ([Z]) == ZERO_GROUP
  {
    LastDigit(0, 5);
    LastDigit(0, 4);
    LastDigit(0, 3);
    LastDigit(0, 2);
    LastDigit(0, 1);
    assert ExpandZ([Z]) == ZERO_GROUP + ExpandZ([Z][1..]);
  }

  /** With the shorthand expanded, the CLI sends the characters the firmware would. */
  lemma {:induction false} EncodersAgree(data: seq<Byte>)
    ensures Encode(data) == Ascii85.Encode(data)
    decreases |data|
  {
    hide Digits, BigEndian, ExpandZ;
    if |data| < 4 {
      EncodedAlphabet(data);
      ExpandZPlain(Ascii85.Encode(data));
    } else {
      var v := BigEndian(data[..4]);
      EncodersAgree(data[4..]);
      ExpandZJoin(if v == 0 then [Z] else Digits(v, 5), LibraryEncode(data[4..]));
      ZeroDigits();
      DigitsAlphabet(v);
      ExpandZPlain(Digits(v, 5));
    }
  }

  lemma DigitsAlphabet(v: nat)
    ensures forall c <- Digits(v, 5) :: Digit(c)
  {
  }

  method EncodeLines(data: seq<Byte>) returns (lines: seq<seq<Byte>>)
    ensures lines == Lines(Ascii85.Encode(data), LINE_WIDTH)
  {
    hide Encode, Ascii85.Encode;
    var s := Encode(data);
    EncodersAgree(data);
    if s == [] {
      return [];
    }
    lines := [];
    var i := 0;
    while i < |s|
      invariant 0 <= i
      invariant lines + Lines(if i <= |s| then s[i..] else [], LINE_WIDTH) == Lines(s, LINE_WIDTH)
    {
      var end := if i + LINE_WIDTH < |s| then i + LINE_WIDTH else |s|;
      assert s[i..end] == if |s[i..]| <= LINE_WIDTH then s[i..] else s[i..][..LINE_WIDTH];
      assert i + LINE_WIDTH < |s| ==> s[i..][LINE_WIDTH..] == s[i + LINE_WIDTH..];
      lines := lines + [s[i..end]];
      i := i + LINE_WIDTH;
    }
  }

  // ----- the shorthand means four zero bytes

  lemma ZeroGroup(group: seq<Byte>)
    requires |group| == 4
    ensures BigEndian(group) == 0 ==> group == [0, 0, 0, 0]
    ensures 0 <= BigEndian(group) <= MAX_U32 && U32(BigEndian(group)) == group
  {
    hide BigEndian, U32, Word;
    BigEndianFour(group);
    TailByte(group[0], group[1], group[2], group[3]);
    ZeroBytes();
  }

  lemma ZeroBytes()
    ensures U32(0) == [0, 0, 0, 0]
  {
  }

  lemma LibraryNext(data: seq<Byte>)
    requires |data| >= 4
    ensures LibraryEncode(data)
         == (if BigEndian(data[..4]) == 0 then [Z] else Digits(BigEndian(data[..4]), 5)) + LibraryEncode(data[4..])
  {
    hide BigEndian, Digits;
  }

  lemma ScanZ(text: seq<Byte>)
    requires ScanAll(text).Scan? && ScanAll(text).count == 0 && ScanAll(text).group == 0
    ensures ScanAll(text + [122]) == Scan(ScanAll(text).out + [0, 0, 0, 0], 0, 0)
  {
    assert (text + [122])[..|text + [122]| - 1] == text;
  }

  lemma LibraryTail(data: seq<Byte>)
    requires |data| < 4
    ensures LibraryEncode(data) == Ascii85.Encode(data)
  {
    hide Ascii85.Encode;
  }

  lemma {:induction false} ScanLibrary(text: seq<Byte>, data: seq<Byte>)
    requires ScanAll(text).Scan? && ScanAll(text).count == 0 && ScanAll(text).group == 0
    ensures Finish(ScanAll(text + LibraryEncode(data))) == Ok(ScanAll(text).out + data)
    decreases |data|
  {
    hide U32, ScanAll, Digits, BigEndian, Finish, LibraryEncode;
    if |data| < 4 {
      LibraryTail(data);
      ScanGroups(text, data);
    } else {
      LibraryNext(data);
      var group, v := data[..4], BigEndian(data[..4]);
      var chars: seq<Byte> := if v == 0 then [122] else Digits(v, 5);
      ZeroGroup(group);
      if v == 0 {
        ScanZ(text);
      } else {
        ScanGroup(text, v);
      }
      ScanLibrary(text + chars, data[4..]);
      assert text + LibraryEncode(data) == text + chars + LibraryEncode(data[4..]);
      var out := ScanAll(text).out;
      assert data == group + data[4..];
      assert out + group + data[4..] == out + data;
    }
  }

  /** Text of the library encoder, shorthand and all, decodes to the bytes it was made of. */
  lemma DecodeLibrary(data: seq<Byte>)
    ensures Ascii85.Decode(LibraryEncode(data)) == Ok(data)
  {
    hide LibraryEncode, Finish;
    ScanLibrary([], data);
    assert [] + LibraryEncode(data) == LibraryEncode(data) && [] + data == data;
  }
}
