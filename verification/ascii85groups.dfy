/**
 Ascii85 decoding group by group, in its own arithmetic: what every text decodes to, or that it does
 not.
 */
module Ascii85Groups {
  import opened Bytes
  import opened Ascii85
  import opened Ascii85Proofs

  /** The value of five digits by their weights. */
  function Weigh(a: int, b: int, c: int, d: int, e: int): int {
    a * 52200625 + b * 614125 + c * 7225 + d * 85 + e
  }

  /** The big-endian bytes of a group's value. */
  function Quad(w: nat): seq<Byte>
    requires w < 0x1_0000_0000
  {
    [w / 0x100_0000, w / 0x1_0000 % 0x100, w / 0x100 % 0x100, w % 0x100]
  }

  /** Characters '!' to 'u'. */
  predicate AllDigits(v: seq<Byte>) {
    forall i :: 0 <= i < |v| ==> 33 <= v[i] <= 117
  }

  /** The digit in place `i`; one that is missing counts as 'u'. */
  function Place(v: seq<Byte>, i: nat): int {
    if i < |v| then v[i] as int - 33 else 84
  }


  function Weight(v: seq<Byte>): int {
    Weigh(Place(v, 0), Place(v, 1), Place(v, 2), Place(v, 3), Place(v, 4))
  }

  /**
   What text without whitespace decodes to: "z" is four zero bytes, five digits the four bytes of
   their value, and two to four digits at the end one byte less than there are digits.
   */
  function Grouped(v: seq<Byte>): Result<seq<Byte>> {
    if v == [] then Ok([])
    else if v[0] == 122 then
      var rest :- Grouped(v[1..]);
      Ok([0, 0, 0, 0] + rest)
    else if |v| < 5 then
      if |v| == 1 || !AllDigits(v) || !(0 <= Weight(v) < 0x1_0000_0000) then Err
      else Ok(Quad(Weight(v))[..|v| - 1])
    else if !AllDigits(v[..5]) || !(0 <= Weight(v[..5]) < 0x1_0000_0000) then Err
    else
      var rest :- Grouped(v[5..]);
      Ok(Quad(Weight(v[..5])) + rest)
  }

  lemma QuadIsU32(w: nat)
    requires w < 0x1_0000_0000
    ensures U32(w) == Quad(w)
  {
  }

  lemma ValueNext(v: seq<Byte>, last: Byte)
    requires AllDigits(v + [last])
    ensures AllDigits(v) && Value(v + [last]) == Value(v) * 85 + (last - 33)
  {
    var all := v + [last];
    assert all[..|v|] == v && all[|v|] == last;
    assert forall i :: 0 <= i < |v| ==> v[i] == all[i];
  }

  lemma ValueOfOne(a: Byte)
    requires 33 <= a <= 117
    ensures Value([a]) == a - 33
  {
    assert [a] == [] + [a];
    ValueNext([], a);
  }

  lemma ValueOfTwo(a: Byte, b: Byte)
    requires AllDigits([a, b])
    ensures Value([a, b]) == (a - 33) * 85 + (b - 33)
  {
    hide Value;
    assert [a, b] == [a] + [b] && [a, b][0] == a;
    ValueNext([a], b);
    ValueOfOne(a);
  }

  lemma ValueOfThree(a: Byte, b: Byte, c: Byte)
    requires AllDigits([a, b, c])
    ensures AllDigits([a, b]) && Value([a, b, c]) == (a - 33) * 7225 + (b - 33) * 85 + (c - 33)
  {
    hide Value;
    assert [a, b, c] == [a, b] + [c];
    ValueNext([a, b], c);
    ValueOfTwo(a, b);
  }

  lemma ValueOfFour(a: Byte, b: Byte, c: Byte, d: Byte)
    requires AllDigits([a, b, c, d])
    ensures Value([a, b, c, d]) == (a - 33) * 614125 + (b - 33) * 7225 + (c - 33) * 85 + (d - 33)
  {
    hide Value;
    assert [a, b, c, d] == [a, b, c] + [d];
    ValueNext([a, b, c], d);
    ValueOfThree(a, b, c);
  }

  lemma PaddedValues(g: nat)
    ensures Padded(g, 1) == g * 85 + 84
    ensures Padded(g, 2) == g * 7225 + 7224
    ensures Padded(g, 3) == g * 614125 + 614124
  {
    assert Padded(g, 1) == g * 85 + 84;
    assert Padded(g, 2) == Padded(g, 1) * 85 + 84;
    assert Padded(g, 3) == Padded(g, 2) * 85 + 84;
  }

  lemma PartialWeight(v: seq<Byte>)
    requires 2 <= |v| <= 4 && AllDigits(v)
    ensures Padded(Value(v), 5 - |v|) == Weight(v)
  {
    hide Value, Padded;
    PaddedValues(Value(v));
    if |v| == 2 {
      assert v == [v[0], v[1]];
      ValueOfTwo(v[0], v[1]);
    } else if |v| == 3 {
      assert v == [v[0], v[1], v[2]];
      ValueOfThree(v[0], v[1], v[2]);
    } else {
      assert v == [v[0], v[1], v[2], v[3]];
      ValueOfFour(v[0], v[1], v[2], v[3]);
    }
  }

  lemma FullWeight(v: seq<Byte>)
    requires |v| == 5 && AllDigits(v)
    ensures AllDigits(v[..4]) && Value(v[..4]) * 85 + (v[4] - 33) == Weight(v)
  {
    hide Value;
    assert forall i :: 0 <= i < 4 ==> v[..4][i] == v[i];
    assert v[..4] == [v[0], v[1], v[2], v[3]];
    ValueOfFour(v[0], v[1], v[2], v[3]);
  }

  predicate AtStart(text: seq<Byte>) {
    var st := ScanAll(text);
    st.Scan? && st.count == 0 && st.group == 0
  }

  /** What is left of a scan with the text still to come decoded on its own. */
  predicate Continues(text: seq<Byte>, v: seq<Byte>)
    requires AtStart(text)
  {
    Decode(text + v)
    == match Grouped(v)
       case Err => Err
       case Ok(d) => Ok(ScanAll(text).out + d)
  }

  /** A character that is no digit inside a group ends the scan. */
  lemma BadInGroup(text: seq<Byte>, v: seq<Byte>, k: nat)
    requires AtStart(text) && k < |v| && k < 5 && AllDigits(v[..k]) && !(33 <= v[k] <= 117) && !Whitespace(v[k])
    requires v[k] == 122 ==> k > 0
    ensures Decode(text + v) == Err
  {
    hide Value, ScanAll, Finish;
    ScanDigits(text, v[..k]);
    var all := text + v;
    assert all[..|text| + k + 1][..|text| + k] == text + v[..k];
    ScanNext(all[..|text| + k + 1]);
    BadStays(all, |text| + k + 1);
  }

  lemma NoGroup(text: seq<Byte>, v: seq<Byte>)
    requires AtStart(text) && v != [] && v[0] != 122 && forall c <- v :: !Whitespace(c)
    requires !AllDigits(if |v| < 5 then v else v[..5])
    ensures Decode(text + v) == Err
  {
    hide Decode, AtStart;
    var k := FirstBad(v);
    BadInGroup(text, v, k);
  }

  lemma {:induction false} FirstBad(v: seq<Byte>) returns (k: nat)
    requires !AllDigits(v)
    ensures k < |v| && AllDigits(v[..k]) && !(33 <= v[k] <= 117)
    ensures |v| >= 5 && !AllDigits(v[..5]) ==> k < 5
  {
    k := 0;
    while 33 <= v[k] <= 117
      invariant k < |v| && AllDigits(v[..k])
      decreases |v| - k
    {
      k := k + 1;
    }
  }

  lemma LastGroup(text: seq<Byte>, v: seq<Byte>)
    requires AtStart(text) && 1 <= |v| <= 4 && AllDigits(v)
    ensures Continues(text, v)
  {
    hide Value, ScanAll, Padded, Quad, U32, Weight;
    ScanDigits(text, v);
    if |v| > 1 {
      PartialWeight(v);
      if Weight(v) < 0x1_0000_0000 {
        QuadIsU32(Weight(v));
      }
    }
    assert v[0] != 122;
  }

  lemma WholeGroup(text: seq<Byte>, v: seq<Byte>)
    requires AtStart(text) && |v| == 5 && AllDigits(v)
    ensures 0 <= Weight(v)
    ensures Weight(v) >= 0x1_0000_0000 ==> ScanAll(text + v).Bad?
    ensures Weight(v) < 0x1_0000_0000 ==>
      AtStart(text + v) && ScanAll(text + v).out == ScanAll(text).out + Quad(Weight(v))
  {
    hide Value, ScanAll, Quad, U32, Weight;
    FullWeight(v);
    ScanDigits(text, v[..4]);
    assert (text + v)[..|text + v| - 1] == text + v[..4];
    ScanNext(text + v);
    if Weight(v) < 0x1_0000_0000 {
      QuadIsU32(Weight(v));
    }
  }

  lemma ZeroGroup(text: seq<Byte>)
    requires AtStart(text)
    ensures AtStart(text + [122]) && ScanAll(text + [122]).out == ScanAll(text).out + [0, 0, 0, 0]
  {
    assert (text + [122])[..|text|] == text;
  }

  lemma {:induction false} GroupsContinue(text: seq<Byte>, v: seq<Byte>)
    requires AtStart(text) && forall c <- v :: !Whitespace(c)
    ensures Continues(text, v)
    decreases |v|
  {
    hide ScanAll, Quad, Weight, Whitespace, AllDigits;
    if v == [] {
      assert text + v == text;
      DoneAtStart(text);
    } else if v[0] == 122 {
      ZeroGroup(text);
      assert text + v == text + [122] + v[1..];
      assert forall c <- v[1..] :: c in v;
      GroupsContinue(text + [122], v[1..]);
      if Grouped(v[1..]).Ok? {
        var rest := Grouped(v[1..]).value;
        assert ScanAll(text).out + [0, 0, 0, 0] + rest == ScanAll(text).out + ([0, 0, 0, 0] + rest);
      }
    } else if !AllDigits(if |v| < 5 then v else v[..5]) {
      NoGroup(text, v);
    } else if |v| < 5 {
      LastGroup(text, v);
    } else {
      WholeGroup(text, v[..5]);
      assert text + v == text + v[..5] + v[5..];
      if Weight(v[..5]) < 0x1_0000_0000 {
        assert forall c <- v[5..] :: c in v;
        GroupsContinue(text + v[..5], v[5..]);
        if Grouped(v[5..]).Ok? {
          var first, rest := Quad(Weight(v[..5])), Grouped(v[5..]).value;
          assert ScanAll(text).out + first + rest == ScanAll(text).out + (first + rest);
        }
      } else {
        assert (text + v)[..|text| + 5] == text + v[..5];
        BadStays(text + v, |text| + 5);
      }
    }
  }

  lemma DoneAtStart(text: seq<Byte>)
    requires AtStart(text)
    ensures Decode(text) == Ok(ScanAll(text).out + [])
  {
    hide ScanAll;
    assert ScanAll(text).out + [] == ScanAll(text).out;
  }

  lemma {:induction false} NoneVisible(text: seq<Byte>)
    ensures forall c <- Visible(text) :: !Whitespace(c)
  {
    if text != [] {
      NoneVisible(text[..|text| - 1]);
    }
  }

  /** Every text decodes to what its groups say, once its whitespace is taken out. */
  lemma DecodedByGroups(text: seq<Byte>)
    ensures Decode(text) == Grouped(Visible(text))
  {
    hide ScanAll, Visible, Grouped, Finish;
    var v := Visible(text);
    ScanVisible(text);
    NoneVisible(text);
    StartIsStart();
    GroupsContinue([], v);
    assert [] + v == v;
    if Grouped(v).Ok? {
      assert [] + Grouped(v).value == Grouped(v).value;
    }
  }

  lemma StartIsStart()
    ensures AtStart([]) && ScanAll([]).out == []
  {
  }

  /** A known pair: "Man " and "9jqo^". */
  lemma KnownPair()
    ensures Encode([77, 97, 110, 32]) == [57, 106, 113, 111, 94]
    ensures Decode([57, 106, 113, 111, 94]) == Ok([77, 97, 110, 32])
  {
    hide Digits, Decode, Visible, Finish;
    var man: seq<Byte> := [77, 97, 110, 32];
    assert man[..4] == man && man[4..] == [] && Encode([]) == [];
    BigEndianFour(man);
    ManDigits();
    assert [57, 106, 113, 111, 94] + [] == [57, 106, 113, 111, 94];
    EncodedAlphabet(man);
    VisibleOfPlain(Encode(man));
    DecodeEncode(man, Encode(man));
  }

  lemma ManDigits()
    ensures Digits(1298230816, 5) == [57, 106, 113, 111, 94]
  {
    LastDigit(1298230816, 5);
    LastDigit(15273303, 4);
    LastDigit(179685, 3);
    LastDigit(2113, 2);
    LastDigit(24, 1);
  }
}
