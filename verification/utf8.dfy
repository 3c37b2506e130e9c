/** Well-formed UTF-8, by the grammar in section 4 of RFC 3629. */
module Utf8 {
  import opened Bytes

  predicate Tail(b: Byte) {
    0x80 <= b <= 0xBF
  }

  /** The length of the well-formed character `s` starts with, or 0. */
  function CharLength(s: seq<Byte>): (n: nat)
    ensures n <= 4 && n <= |s|
  {
    if |s| >= 1 && s[0] <= 0x7F then 1
    else if |s| >= 2 && 0xC2 <= s[0] <= 0xDF && Tail(s[1]) then 2
    else if |s| >= 3 && Second3(s[0], s[1]) && Tail(s[2]) then 3
    else if |s| >= 4 && Second4(s[0], s[1]) && Tail(s[2]) && Tail(s[3]) then 4
    else 0
  }

  predicate Second3(first: Byte, second: Byte) {
    || (first == 0xE0 && 0xA0 <= second <= 0xBF)
    || (0xE1 <= first <= 0xEC && Tail(second))
    || (first == 0xED && 0x80 <= second <= 0x9F)
    || (0xEE <= first <= 0xEF && Tail(second))
  }

  predicate Second4(first: Byte, second: Byte) {
    || (first == 0xF0 && 0x90 <= second <= 0xBF)
    || (0xF1 <= first <= 0xF3 && Tail(second))
    || (first == 0xF4 && 0x80 <= second <= 0x8F)
  }

  predicate WellFormed(s: seq<Byte>)
    decreases |s|
  {
    s == [] || (CharLength(s) > 0 && WellFormed(s[CharLength(s)..]))
  }

  // ----- the encoding itself, by the arithmetic of section 3 of RFC 3629

  /** A Unicode scalar value: a code point that is no surrogate. */
  type Scalar = c: int | 0 <= c < 0x11_0000 && !(0xD800 <= c < 0xE000)

  function EncodeScalar(c: Scalar): (s: seq<Byte>)
    ensures s != []
  {
    if c < 0x80 then [c]
    else if c < 0x800 then [0xC0 + c / 64, 0x80 + c % 64]
    else if c < 0x1_0000 then [0xE0 + c / 4096, 0x80 + c / 64 % 64, 0x80 + c % 64]
    else [0xF0 + c / 262144, 0x80 + c / 4096 % 64, 0x80 + c / 64 % 64, 0x80 + c % 64]
  }

  function EncodeAll(cs: seq<Scalar>): seq<Byte> {
    if cs == [] then [] else EncodeScalar(cs[0]) + EncodeAll(cs[1..])
  }

  /** The six bits a tail byte carries. */
  function Share(b: Byte): int {
    b as int - 0x80
  }

  /** The scalar value that the first character of `s` stands for. */
  function FirstScalar(s: seq<Byte>): int
    requires CharLength(s) > 0
  {
    var lead: int := s[0];
    if CharLength(s) == 1 then lead
    else if CharLength(s) == 2 then (lead - 0xC0) * 64 + Share(s[1])
    else if CharLength(s) == 3 then ((lead - 0xE0) * 64 + Share(s[1])) * 64 + Share(s[2])
    else (((lead - 0xF0) * 64 + Share(s[1])) * 64 + Share(s[2])) * 64 + Share(s[3])
  }

  lemma Sextets(q: int, r: int)
    requires 0 <= r < 64
    ensures (q * 64 + r) / 64 == q && (q * 64 + r) % 64 == r
  {
  }

  lemma FirstTwo(s: seq<Byte>)
    requires CharLength(s) == 2
    ensures 0x80 <= FirstScalar(s) < 0x800
    ensures EncodeScalar(FirstScalar(s)) == s[..2]
  {
    Sextets(s[0] as int - 0xC0, Share(s[1]));
  }

  lemma FirstThree(s: seq<Byte>)
    requires CharLength(s) == 3
    ensures 0x800 <= FirstScalar(s) < 0x1_0000 && !(0xD800 <= FirstScalar(s) < 0xE000)
    ensures EncodeScalar(FirstScalar(s)) == s[..3]
  {
    var top, mid, low := s[0] as int - 0xE0, Share(s[1]), Share(s[2]);
    Sextets(top * 64 + mid, low);
    Sextets(top, mid);
    var c := FirstScalar(s);
    assert c / 4096 == c / 64 / 64;
  }

  lemma FirstFour(s: seq<Byte>)
    requires CharLength(s) == 4
    ensures 0x1_0000 <= FirstScalar(s) < 0x11_0000
    ensures EncodeScalar(FirstScalar(s)) == s[..4]
  {
    var top, high, mid, low := s[0] as int - 0xF0, Share(s[1]), Share(s[2]), Share(s[3]);
    Sextets((top * 64 + high) * 64 + mid, low);
    Sextets(top * 64 + high, mid);
    Sextets(top, high);
    var c := FirstScalar(s);
    assert c / 4096 == c / 64 / 64 && c / 262144 == c / 64 / 64 / 64;
  }

  /** A well-formed character is the encoding of a scalar value. */
  lemma FirstIsEncoded(s: seq<Byte>)
    requires CharLength(s) > 0
    ensures
      var c := FirstScalar(s);
      && 0 <= c < 0x11_0000 && !(0xD800 <= c < 0xE000)
      && EncodeScalar(c) == s[..CharLength(s)]
  {
    hide EncodeScalar, FirstScalar;
    if CharLength(s) == 1 {
      FirstOne(s);
    } else if CharLength(s) == 2 {
      FirstTwo(s);
    } else if CharLength(s) == 3 {
      FirstThree(s);
    } else {
      FirstFour(s);
    }
  }

  lemma FirstOne(s: seq<Byte>)
    requires CharLength(s) == 1
    ensures 0 <= FirstScalar(s) < 0x80 && EncodeScalar(FirstScalar(s)) == s[..1]
  {
  }

  /** And the encoding of a scalar value is a well-formed character that stands for it. */
  lemma EncodedIsFirst(c: Scalar, rest: seq<Byte>)
    ensures CharLength(EncodeScalar(c) + rest) == |EncodeScalar(c)|
    ensures FirstScalar(EncodeScalar(c) + rest) == c
  {
    var s := EncodeScalar(c) + rest;
    assert c / 4096 == c / 64 / 64 && c / 262144 == c / 64 / 64 / 64;
    if c < 0x80 {
      assert s[0] == c;
    } else if c < 0x800 {
      assert s[0] == 0xC0 + c / 64 && s[1] == 0x80 + c % 64;
    } else if c < 0x1_0000 {
      assert s[0] == 0xE0 + c / 4096 && s[1] == 0x80 + c / 64 % 64 && s[2] == 0x80 + c % 64;
    } else {
      assert s[0] == 0xF0 + c / 262144 && s[1] == 0x80 + c / 4096 % 64;
      assert s[2] == 0x80 + c / 64 % 64 && s[3] == 0x80 + c % 64;
    }
  }

  /** The scalar values of well-formed text. */
  function Scalars(s: seq<Byte>): seq<Scalar>
    requires WellFormed(s)
    decreases |s|
  {
    if s == [] then []
    else
      FirstIsEncoded(s);
      [FirstScalar(s)] + Scalars(s[CharLength(s)..])
  }

  lemma ScalarsNext(s: seq<Byte>)
    requires WellFormed(s) && s != []
    ensures
      var n := CharLength(s);
      && n > 0 && WellFormed(s[n..]) && Scalars(s) == [FirstScalar(s)] + Scalars(s[n..])
      && EncodeScalar(Scalars(s)[0]) == s[..n]
  {
    hide EncodeScalar, FirstScalar, CharLength;
    FirstIsEncoded(s);
  }

  lemma EncodeAllNext(c: Scalar, rest: seq<Scalar>)
    ensures EncodeAll([c] + rest) == EncodeScalar(c) + EncodeAll(rest)
  {
    hide EncodeScalar;
    assert ([c] + rest)[1..] == rest;
  }

  lemma {:induction false} ScalarsEncode(s: seq<Byte>)
    requires WellFormed(s)
    ensures EncodeAll(Scalars(s)) == s
    decreases |s|
  {
    hide EncodeScalar, FirstScalar, CharLength, WellFormed, Scalars, EncodeAll;
    if s == [] {
      NoScalars();
    } else {
      var n := CharLength(s);
      ScalarsNext(s);
      ScalarsEncode(s[n..]);
      EncodeAllNext(Scalars(s)[0], Scalars(s[n..]));
      assert s == s[..n] + s[n..];
    }
  }

  lemma NoScalars()
    ensures WellFormed([]) && Scalars([]) == [] && EncodeAll([]) == []
  {
  }

  /** Every text of scalar values is well-formed, and its encoding tells them. */
  lemma {:induction false} EncodedIsWellFormed(cs: seq<Scalar>)
    ensures WellFormed(EncodeAll(cs)) && Scalars(EncodeAll(cs)) == cs
  {
    hide EncodeScalar, FirstScalar, CharLength;
    if cs != [] {
      var first, rest := EncodeScalar(cs[0]), EncodeAll(cs[1..]);
      EncodedIsWellFormed(cs[1..]);
      EncodedIsFirst(cs[0], rest);
      assert (first + rest)[|first|..] == rest;
    }
  }

  /** Well-formed is exactly what some sequence of scalar values encodes to, and of one only. */
  lemma WellFormedIff(s: seq<Byte>)
    ensures WellFormed(s) <==> exists cs: seq<Scalar> :: EncodeAll(cs) == s
  {
    hide EncodeAll, WellFormed;
    if WellFormed(s) {
      ScalarsEncode(s);
    }
    forall cs: seq<Scalar> | EncodeAll(cs) == s
      ensures WellFormed(s)
    {
      EncodedIsWellFormed(cs);
    }
  }

  lemma EncodeAllInjective(a: seq<Scalar>, b: seq<Scalar>)
    requires EncodeAll(a) == EncodeAll(b)
    ensures a == b
  {
    hide EncodeAll, WellFormed, Scalars;
    EncodedIsWellFormed(a);
    EncodedIsWellFormed(b);
  }
}
