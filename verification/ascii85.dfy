/** The Ascii85 codec (btoa flavour) that frames an upload by counting characters. */
module Ascii85 {
  import opened Bytes

  const OFFSET := 33
  const Z: Byte := 122
  const MAX_U32 := 0xFFFF_FFFF

  predicate Whitespace(c: Byte) {
    c == 32 || 9 <= c <= 13
  }

  predicate Digit(c: Byte) {
    33 <= c <= 117
  }

  // ----- encoding

  /** The last `n` base-85 digits of `v` as characters, most significant first. */
  function Digits(v: nat, n: nat): (chars: seq<Byte>)
    ensures |chars| == n && forall i :: 0 <= i < n ==> Digit(chars[i])
  {
    if n == 0 then [] else Digits(v / 85, n - 1) + [OFFSET + v % 85]
  }

  function BigEndian(bytes: seq<Byte>): nat {
    if bytes == [] then 0 else BigEndian(bytes[..|bytes| - 1]) * 256 + bytes[|bytes| - 1]
  }

  function Padding(n: nat): seq<Byte> {
    seq(n, i => 0)
  }

  function Encode(data: seq<Byte>): seq<Byte>
    decreases |data|
  {
    if data == [] then []
    else if |data| < 4 then Digits(BigEndian(data + Padding(4 - |data|)), 5)[..|data| + 1]
    else Digits(BigEndian(data[..4]), 5) + Encode(data[4..])
  }

  function EncodedLen(n: nat): nat {
    5 * (n / 4) + if n % 4 != 0 then n % 4 + 1 else 0
  }

  /** Wrapping at a column width. */
  function Lines(text: seq<Byte>, width: nat): seq<seq<Byte>>
    requires width > 0
    decreases |text|
  {
    if text == [] then []
    else if |text| <= width then [text]
    else [text[..width]] + Lines(text[width..], width)
  }

  function Join(lines: seq<seq<Byte>>): seq<Byte> {
    if lines == [] then [] else Join(lines[..|lines| - 1]) + lines[|lines| - 1]
  }

  method Emit(prefix: seq<Byte>, value: nat, count: nat) returns (out: seq<Byte>)
    requires count <= 5
    ensures out == prefix + Digits(value, 5)[..count]
  {
    var chars := new Byte[5];
    var v := value;
    ghost var whole := Digits(value, 5);
    var k := 5;
    while k > 0
      invariant 0 <= k <= 5
      invariant Digits(v, k) == whole[..k]
      invariant chars[k..] == whole[k..]
    {
      k := k - 1;
      assert Digits(v, k + 1) == Digits(v / 85, k) + [OFFSET + v % 85];
      assert whole[k] == whole[..k + 1][k];
      chars[k] := OFFSET + v % 85;
      v := v / 85;
      assert Digits(v, k) == whole[..k + 1][..k];
    }
    out := prefix + chars[..count];
  }

  lemma BigEndianNext(bytes: seq<Byte>, b: Byte)
    ensures BigEndian(bytes + [b]) == BigEndian(bytes) * 256 + b
  {
    assert (bytes + [b])[..|bytes|] == bytes;
  }

  /** The source's shift-and-or of four bytes. */
  function Word(b0: int, b1: int, b2: int, b3: int): int {
    b0 * 0x100_0000 + b1 * 0x1_0000 + b2 * 0x100 + b3
  }

  lemma BigEndianFour(s: seq<Byte>)
    requires |s| == 4
    ensures BigEndian(s) == Word(s[0], s[1], s[2], s[3])
  {
    hide BigEndian;
    BigEndianOne(s[0]);
    BigEndianNext([s[0]], s[1]);
    BigEndianNext([s[0], s[1]], s[2]);
    BigEndianNext([s[0], s[1], s[2]], s[3]);
    assert [s[0]] + [s[1]] == [s[0], s[1]];
    assert [s[0], s[1]] + [s[2]] == [s[0], s[1], s[2]] && [s[0], s[1], s[2]] + [s[3]] == s;
  }

  lemma BigEndianOne(b: Byte)
    ensures BigEndian([b]) == b
  {
    assert [b][..0] == [];
  }

  lemma EncodeNext(data: seq<Byte>, i: nat)
    requires i + 4 <= |data|
    ensures Encode(data[i..]) == Digits(BigEndian(data[i..i + 4]), 5) + Encode(data[i + 4..])
  {
    hide Digits, BigEndian;
    var rest := data[i..];
    assert rest[..4] == data[i..i + 4] && rest[4..] == data[i + 4..];
  }

  method EncodeBytes(data: seq<Byte>) returns (out: seq<Byte>)
    ensures out == Encode(data)
  {
    hide Digits, BigEndian, Encode;
    out := [];
    var n := |data|;
    var full := n - n % 4;
    var i := 0;
    assert data[0..] == data;
    while i < full
      invariant 0 <= i <= full && i % 4 == 0
      invariant out + Encode(data[i..]) == Encode(data)
    {
      EncodeNext(data, i);
      BigEndianFour(data[i..i + 4]);
      out := Emit(out, Word(data[i], data[i + 1], data[i + 2], data[i + 3]), 5);
      i := i + 4;
    }
    out := EncodeTail(out, data[full..]);
  }

  /** The partial group at the end of `EncodeBytes`. */
  method EncodeTail(prefix: seq<Byte>, tail: seq<Byte>) returns (out: seq<Byte>)
    requires |tail| < 4
    ensures out == prefix + Encode(tail)
  {
    hide Digits;
    out := prefix;
    var rem := |tail|;
    if rem > 0 {
      ghost var padded := tail + Padding(4 - rem);
      var v: nat := 0;
      for k := 0 to 4
        invariant v == BigEndian(padded[..k])
      {
        assert padded[..k + 1] == padded[..k] + [padded[k]];
        BigEndianNext(padded[..k], padded[k]);
        v := v * 256 + if k < rem then tail[k] else 0;
      }
      assert padded[..4] == padded;
      out := Emit(out, v, rem + 1);
    }
  }

  // ----- decoding

  /** Where the decoding loop stands: bytes out, and the digits of the group so far. */
  datatype State = Scan(out: seq<Byte>, group: nat, count: nat) | Bad

  function Step(st: State, c: Byte): State {
    if st.Bad? || Whitespace(c) then st
    else if c == Z then
      if st.count != 0 then Bad else st.(out := st.out + [0, 0, 0, 0])
    else if !Digit(c) then Bad
    else
      var group := st.group * 85 + (c - OFFSET);
      if st.count + 1 < 5 then Scan(st.out, group, st.count + 1)
      else if group > MAX_U32 then Bad
      else Scan(st.out + U32(group), 0, 0)
  }

  function U32(v: nat): seq<Byte> {
    [Low(v / 0x100_0000), Low(v / 0x1_0000), Low(v / 0x100), Low(v)]
  }

  function ScanAll(text: seq<Byte>): State {
    if text == [] then Scan([], 0, 0) else Step(ScanAll(text[..|text| - 1]), text[|text| - 1])
  }

  /** A group with `n` more digits of the highest value. */
  function Padded(group: nat, n: nat): nat {
    if n == 0 then group else Padded(group, n - 1) * 85 + 84
  }

  function Finish(st: State): Result<seq<Byte>> {
    if st.Bad? || st.count == 1 then Err
    else if st.count == 0 || st.count >= 5 then Ok(st.out)
    else
      var group := Padded(st.group, 5 - st.count);
      if group > MAX_U32 then Err else Ok(st.out + U32(group)[..st.count - 1])
  }

  function Decode(text: seq<Byte>): Result<seq<Byte>> {
    Finish(ScanAll(text))
  }

  lemma {:induction false} BadStays(text: seq<Byte>, i: nat)
    requires i <= |text| && ScanAll(text[..i]).Bad?
    ensures ScanAll(text).Bad? && Decode(text) == Err
    decreases |text|
  {
    if i < |text| {
      assert text[..|text| - 1][..i] == text[..i];
      BadStays(text[..|text| - 1], i);
    } else {
      assert text[..i] == text;
    }
  }

  lemma {:induction false} CountBelowFive(text: seq<Byte>)
    ensures ScanAll(text).Scan? ==> ScanAll(text).count < 5
  {
    if text != [] {
      CountBelowFive(text[..|text| - 1]);
    }
  }

  method DecodeText(text: seq<Byte>) returns (r: Result<seq<Byte>>)
    ensures r == Decode(text)
  {
    hide U32, Finish;
    var out: seq<Byte> := [];
    var group: nat := 0;
    var count := 0;
    for i := 0 to |text|
      invariant ScanAll(text[..i]) == Scan(out, group, count) && count < 5
    {
      var c := text[i];
      assert text[..i + 1][..i] == text[..i];
      assert ScanAll(text[..i + 1]) == Step(Scan(out, group, count), c);
      if Whitespace(c) {
        continue;
      }
      if c == Z {
        if count != 0 {
          BadStays(text, i + 1);
          return Err;
        }
        out := out + [0, 0, 0, 0];
        continue;
      }
      if c < 33 || c > 117 {
        BadStays(text, i + 1);
        return Err;
      }
      group := group * 85 + (c - OFFSET);
      count := count + 1;
      if count == 5 {
        if group > MAX_U32 {
          BadStays(text, i + 1);
          return Err;
        }
        out := out + U32(group);
        group := 0;
        count := 0;
      }
    }
    assert text[..|text|] == text;
    r := FinishGroup(out, group, count);
  }

  /** The end of `DecodeText`. */
  method FinishGroup(out: seq<Byte>, start: nat, count: nat) returns (r: Result<seq<Byte>>)
    requires count < 5
    ensures r == Finish(Scan(out, start, count))
  {
    if count == 1 {
      return Err;
    }
    if count == 0 {
      return Ok(out);
    }
    var group := start;
    for k := 0 to 5 - count
      invariant group == Padded(start, k)
    {
      group := group * 85 + 84;
    }
    if group > MAX_U32 {
      return Err;
    }
    return Ok(out + U32(group)[..count - 1]);
  }

  // ----- lengths and the alphabet

  lemma {:induction false} EncodedLength(data: seq<Byte>)
    ensures |Encode(data)| == EncodedLen(|data|)
    decreases |data|
  {
    if |data| >= 4 {
      EncodedLength(data[4..]);
    }
  }

  lemma {:induction false} EncodedAlphabet(data: seq<Byte>)
    ensures forall c <- Encode(data) :: Digit(c)
    decreases |data|
  {
    hide BigEndian;
    if |data| >= 4 {
      EncodedAlphabet(data[4..]);
    }
  }

  // ----- whitespace

  function Visible(text: seq<Byte>): seq<Byte> {
    if text == [] then []
    else
      var last := text[|text| - 1];
      Visible(text[..|text| - 1]) + if Whitespace(last) then [] else [last]
  }

  lemma {:induction false} ScanVisible(text: seq<Byte>)
    ensures ScanAll(Visible(text)) == ScanAll(text)
  {
    hide Step;
    if text != [] {
      var front, last := text[..|text| - 1], text[|text| - 1];
      ScanVisible(front);
      if Whitespace(last) {
        WhitespaceStep(ScanAll(front), last);
        assert Visible(text) == Visible(front);
      } else {
        assert Visible(text)[..|Visible(text)| - 1] == Visible(front);
      }
    }
  }

  lemma WhitespaceStep(st: State, c: Byte)
    requires Whitespace(c)
    ensures Step(st, c) == st
  {
  }

  lemma {:induction false} VisibleOfPlain(text: seq<Byte>)
    requires forall c <- text :: !Whitespace(c)
    ensures Visible(text) == text
  {
    if text != [] {
      VisibleOfPlain(text[..|text| - 1]);
    }
  }

  lemma {:induction false} VisibleJoin(a: seq<Byte>, b: seq<Byte>)
    ensures Visible(a + b) == Visible(a) + Visible(b)
    decreases |b|
  {
    if b == [] {
      assert a + b == a;
    } else {
      var front := b[..|b| - 1];
      assert (a + b)[..|a + b| - 1] == a + front;
      VisibleJoin(a, front);
    }
  }
}
