/** Names for key, media and modifier codes, and the way back, over any tables of the CLI's shape. */
module KeyNames {
  import opened Bytes
  import opened BitStrings
  import opened Text

  // ----- reverse tables

  /** Names to codes, as the source lists them: upper case, no "0X", and no surrounding space. */
  predicate GoodTable(table: map<Line, nat>, limit: nat) {
    forall name | name in table ::
      name != [] && Upper(Strip(name)) == name && !(HEX_UPPER <= name) && table[name] < limit
  }

  /** The canonical names fixed beforehand are names of their codes. */
  predicate GoodFixed(table: map<Line, nat>, fixed: map<nat, Line>) {
    forall code | code in fixed :: fixed[code] in table && table[fixed[code]] == code
  }

  /** Every listed code has a name of its own, the fixed one if there is one. */
  ghost predicate Reverses(table: map<Line, nat>, fixed: map<nat, Line>, names: map<nat, Line>) {
    && (forall code | code in names :: names[code] in table && table[names[code]] == code)
    && (forall name | name in table :: table[name] in names)
    && (forall code | code in fixed :: code in names && names[code] == fixed[code])
  }

  /** Filling the reverse table in whatever order the source's map yields its entries. */
  method Reverse(table: map<Line, nat>, fixed: map<nat, Line>) returns (names: map<nat, Line>)
    requires GoodFixed(table, fixed)
    ensures Reverses(table, fixed, names)
  {
    names := fixed;
    var rest := table.Keys;
    while rest != {}
      invariant rest <= table.Keys
      invariant forall code | code in names :: names[code] in table && table[names[code]] == code
      invariant forall name | name in table && name !in rest :: table[name] in names
      invariant forall code | code in fixed :: code in names && names[code] == fixed[code]
      decreases |rest|
    {
      var name :| name in rest;
      if table[name] !in names {
        names := names[table[name] := name];
      }
      rest := rest - {name};
    }
  }

  function UpperByte(c: Byte): Byte {
    if 97 <= c <= 122 then c - 32 else c
  }

  function Upper(s: Line): (u: Line)
    ensures |u| == |s|
  {
    seq(|s|, i requires 0 <= i < |s| => UpperByte(s[i]))
  }

  // ----- codes

  const HEX_UPPER: Line := [48, 88]

  function UpperHexDigit(d: nat): Byte
    requires d < 16
  {
    if d < 10 then 48 + d else 55 + d
  }

  function UpperHex(n: nat, width: nat): Line {
    if width == 0 then [] else UpperHex(n / 16, width - 1) + [UpperHexDigit(n % 16)]
  }

  /** A name of the code, or "0x" and its digits. */
  function CodeName(names: map<nat, Line>, width: nat, code: nat): Line {
    if code in names then names[code] else HEX_PREFIX + UpperHex(code, width)
  }

  /** "0X" and hexadecimal, or plain decimal, below a limit. */
  function ParseNumeric(s: Line, limit: nat): Option<nat> {
    var n := if HEX_UPPER <= s then
               if |s| == 2 then None else DigitsValue(16, s[2..])
             else
               if s == [] then None else DigitsValue(10, s);
    match n
    case Some(v) => if v < limit then Some(v) else None
    case None => None
  }

  function Lookup(table: map<Line, nat>, limit: nat, name: Line): Option<nat> {
    var key := Upper(Strip(name));
    if key in table then Some(table[key]) else ParseNumeric(key, limit)
  }

  lemma UpperHexDigitValue(d: nat)
    requires d < 16
    ensures DigitValue(16, UpperHexDigit(d)) == Some(d)
    ensures 48 <= UpperHexDigit(d) <= 57 || 65 <= UpperHexDigit(d) <= 70
  {
  }

  lemma {:induction false} UpperHexDigits(n: nat, width: nat)
    requires n < Pow16(width)
    ensures |UpperHex(n, width)| == width
    ensures forall i :: 0 <= i < width ==> 48 <= UpperHex(n, width)[i] <= 57 || 65 <= UpperHex(n, width)[i] <= 70
    ensures DigitsValue(16, UpperHex(n, width)) == Some(n)
  {
    hide DigitsValue, DigitValue, UpperHexDigit;
    if width == 0 {
      NoDigits(16);
    } else {
      UpperHexDigits(n / 16, width - 1);
      UpperHexDigitValue(n % 16);
      DigitsValueNext(16, UpperHex(n / 16, width - 1), UpperHexDigit(n % 16));
      assert n == n / 16 * 16 + n % 16;
    }
  }

  lemma NumericForm(n: nat, width: nat)
    requires width > 0 && n < Pow16(width)
    ensures
      var s := HEX_PREFIX + UpperHex(n, width);
      Strip(s) == s && s != [] && Upper(s) == HEX_UPPER + UpperHex(n, width)
  {
    hide UpperHex, DigitsValue;
    UpperHexDigits(n, width);
    var digits := UpperHex(n, width);
    var s := HEX_PREFIX + digits;
    assert s[|s| - 1] == digits[width - 1];
    StripPlain(s);
    forall i | 0 <= i < |s|
      ensures Upper(s)[i] == (HEX_UPPER + digits)[i]
    {
      assert i >= 2 ==> s[i] == digits[i - 2];
    }
  }

  /** Looking a printed code up gives the code, whichever of its names the table filled in. */
  lemma LookupCodeName(table: map<Line, nat>, fixed: map<nat, Line>, names: map<nat, Line>, width: nat, code: nat)
    requires width > 0 && code < Pow16(width) && GoodTable(table, Pow16(width)) && Reverses(table, fixed, names)
    ensures CodeName(names, width, code) != []
    ensures Lookup(table, Pow16(width), CodeName(names, width, code)) == Some(code)
  {
    hide UpperHex, DigitsValue, Pow16, Strip, Upper;
    if code !in names {
      NumericForm(code, width);
      UpperHexDigits(code, width);
      var key := HEX_UPPER + UpperHex(code, width);
      assert HEX_UPPER <= key && key[2..] == UpperHex(code, width);
    }
  }

  /** What is looked up is in range, whether it was named or written as a number. */
  lemma LookupInRange(table: map<Line, nat>, limit: nat, name: Line)
    requires GoodTable(table, limit)
    ensures Lookup(table, limit, name).Some? ==> Lookup(table, limit, name).value < limit
  {
    hide Strip, Upper, DigitsValue;
  }

  // ----- modifiers

  /** The eight names in bit order, and the names accepted, each for one bit. */
  predicate GoodModifiers(order: seq<Line>, bits: map<Line, nat>) {
    && |order| == 8
    && forall k :: 0 <= k < 8 ==> Upper(Strip(order[k])) in bits && bits[Upper(Strip(order[k]))] == k
  }

  function ModNamesUpTo(order: seq<Line>, mods: nat, k: nat): seq<Line>
    requires k <= |order|
  {
    if k == 0 then []
    else ModNamesUpTo(order, mods, k - 1) + if Bit(mods, k - 1) then [order[k - 1]] else []
  }

  function ModNames(order: seq<Line>, mods: nat): seq<Line>
    requires |order| == 8
  {
    ModNamesUpTo(order, mods, 8)
  }

  /** `mods | 1 << k`. */
  function WithBit(mods: nat, k: nat): nat {
    if Bit(mods, k) then mods else mods + Pow2(k)
  }

  function LookupMods(bits: map<Line, nat>, names: seq<Line>): Option<nat> {
    if names == [] then Some(0)
    else
      var key := Upper(Strip(names[|names| - 1]));
      match LookupMods(bits, names[..|names| - 1])
      case Some(mods) => if key in bits then Some(WithBit(mods, bits[key])) else None
      case None => None
  }

  method ListMods(order: seq<Line>, mods: nat) returns (names: seq<Line>)
    requires |order| == 8
    ensures names == ModNames(order, mods)
  {
    names := [];
    for k := 0 to |order|
      invariant names == ModNamesUpTo(order, mods, k)
    {
      if Bit(mods, k) {
        names := names + [order[k]];
      }
    }
  }

  method FoldMods(bits: map<Line, nat>, names: seq<Line>) returns (r: Option<nat>)
    ensures r == LookupMods(bits, names)
  {
    hide Upper, Strip, WithBit;
    var mods := 0;
    for i := 0 to |names|
      invariant LookupMods(bits, names[..i]) == Some(mods)
    {
      var key := Upper(Strip(names[i]));
      assert names[..i + 1][..i] == names[..i];
      if key !in bits {
        UnknownModStays(bits, names, i + 1);
        return None;
      }
      mods := WithBit(mods, bits[key]);
    }
    assert names[..|names|] == names;
    return Some(mods);
  }

  lemma {:induction false} UnknownModStays(bits: map<Line, nat>, names: seq<Line>, i: nat)
    requires i <= |names| && LookupMods(bits, names[..i]) == None
    ensures LookupMods(bits, names) == None
    decreases |names|
  {
    hide Upper, Strip, WithBit;
    if i < |names| {
      assert names[..|names| - 1][..i] == names[..i];
      UnknownModStays(bits, names[..|names| - 1], i);
    } else {
      assert names[..i] == names;
    }
  }

  lemma {:induction false} BitAdded(m: nat, k: nat, j: nat)
    requires !Bit(m, k)
    ensures Bit(m + Pow2(k), j) <==> Bit(m, j) || j == k
  {
    if k > 0 {
      assert Pow2(k) == 2 * Pow2(k - 1);
      assert (m + Pow2(k)) / 2 == m / 2 + Pow2(k - 1) && (m + Pow2(k)) % 2 == m % 2;
      if j > 0 {
        BitAdded(m / 2, k - 1, j - 1);
      }
    } else if j > 0 {
      assert (m + 1) / 2 == m / 2;
    }
  }

  lemma WithBitIff(m: nat, k: nat, j: nat)
    ensures Bit(WithBit(m, k), j) <==> Bit(m, j) || j == k
  {
    hide Bit, Pow2;
    if !Bit(m, k) {
      BitAdded(m, k, j);
    }
  }

  /** The name as it is compared. */
  function Key(name: Line): Line {
    Upper(Strip(name))
  }

  /**
   Modifiers are read exactly when every name is known, and have just the bits that are named, in
   whatever order and however often.
   */
  lemma {:induction false} ModsReadIff(bits: map<Line, nat>, names: seq<Line>, j: nat)
    ensures LookupMods(bits, names).Some? <==> forall i :: 0 <= i < |names| ==> Key(names[i]) in bits
    ensures LookupMods(bits, names).Some? ==>
      (Bit(LookupMods(bits, names).value, j)
       <==> exists i :: 0 <= i < |names| && Key(names[i]) in bits && bits[Key(names[i])] == j)
  {
    hide Upper, Strip, WithBit, Bit;
    if names == [] {
      NoBitSet(j);
    } else {
      var n := |names| - 1;
      var front := names[..n];
      ModsReadIff(bits, front, j);
      assert forall i :: 0 <= i < n ==> front[i] == names[i];
      if LookupMods(bits, front).Some? && Key(names[n]) in bits {
        WithBitIff(LookupMods(bits, front).value, bits[Key(names[n])], j);
      }
    }
  }

  lemma {:induction false} NoBitSet(j: nat)
    ensures !Bit(0, j)
  {
    if j > 0 {
      NoBitSet(j - 1);
    }
  }

  lemma {:induction false} LowBits(m: nat, k: nat)
    ensures m % Pow2(k + 1) == m % Pow2(k) + if Bit(m, k) then Pow2(k) else 0
    ensures !Bit(m % Pow2(k), k)
  {
    if k > 0 {
      LowBits(m / 2, k - 1);
      ModHalf(m, Pow2(k));
      ModHalf(m, Pow2(k - 1));
      var a, b := m % Pow2(k + 1), m % Pow2(k);
      assert a == 2 * (a / 2) + a % 2 && b == 2 * (b / 2) + b % 2;
    }
  }

  lemma {:induction false} ModsRoundTripUpTo(order: seq<Line>, bits: map<Line, nat>, mods: nat, k: nat)
    requires GoodModifiers(order, bits) && k <= 8
    ensures LookupMods(bits, ModNamesUpTo(order, mods, k)) == Some(mods % Pow2(k))
  {
    hide Upper, Strip, Pow2, Bit;
    if k == 0 {
      Pow2Zero(mods);
    } else {
      ModsRoundTripUpTo(order, bits, mods, k - 1);
      LowBits(mods, k - 1);
      var names := ModNamesUpTo(order, mods, k);
      if Bit(mods, k - 1) {
        assert names[..|names| - 1] == ModNamesUpTo(order, mods, k - 1);
      } else {
        assert names == ModNamesUpTo(order, mods, k - 1);
      }
    }
  }

  lemma Pow2Zero(m: nat)
    ensures m % Pow2(0) == 0
  {
  }

  /** Every modifier mask survives being spelled out. */
  lemma ModsRoundTrip(order: seq<Line>, bits: map<Line, nat>, mods: Byte)
    requires GoodModifiers(order, bits)
    ensures LookupMods(bits, ModNames(order, mods)) == Some(mods)
  {
    hide LookupMods, ModNamesUpTo, GoodModifiers;
    ModsRoundTripUpTo(order, bits, mods, 8);
    Pow2Values();
  }
}
