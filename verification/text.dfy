/**
 Lines of the serial protocol as bytes, and the string operations the firmware applies to them.

 Whitespace is the six characters CircuitPython's `strip` and `split` know.
 */
module Text {
  import opened Bytes
  import opened Ascii85

  type Line = seq<Byte>

  /** What the board reads. The firmware's string operations are modelled on these lines only. */
  type AsciiLine = s: Line | IsAscii(s) witness []

  predicate IsAscii(s: Line) {
    forall c <- s :: c < 128
  }

  function Ascii(s: string): Line {
    seq(|s|, i requires 0 <= i < |s| => Low(s[i] as int))
  }

  function TrimLeft(s: Line): Line {
    if s != [] && Whitespace(s[0]) then TrimLeft(s[1..]) else s
  }

  function TrimRight(s: Line): Line {
    if s != [] && Whitespace(s[|s| - 1]) then TrimRight(s[..|s| - 1]) else s
  }

  function Strip(s: Line): Line {
    TrimLeft(TrimRight(s))
  }

  predicate Printable(c: Byte) {
    c >= 32 && c != 127
  }

  /** Only the printable characters of `s`. */
  function DropControls(s: Line): Line {
    if s == [] then []
    else
      var last := s[|s| - 1];
      DropControls(s[..|s| - 1]) + if Printable(last) then [last] else []
  }

  function Sanitize(s: Line): Line {
    Strip(DropControls(s))
  }

  function WordLength(s: Line): (n: nat)
    ensures n <= |s|
  {
    if s == [] || Whitespace(s[0]) then 0 else 1 + WordLength(s[1..])
  }

  /** `str.split()`: the maximal runs of characters that are not whitespace. */
  function Words(s: Line): seq<Line>
    decreases |s|
  {
    if s == [] then []
    else if Whitespace(s[0]) then Words(s[1..])
    else [s[..WordLength(s)]] + Words(s[WordLength(s)..])
  }

  function LowerByte(c: Byte): Byte {
    if 65 <= c <= 90 then c + 32 else c
  }

  function Lower(s: Line): Line {
    seq(|s|, i requires 0 <= i < |s| => LowerByte(s[i]))
  }

  // ----- numbers

  function Dec(n: nat): AsciiLine {
    if n < 10 then [48 + n] else Dec(n / 10) + [48 + n % 10]
  }

  function DecInt(n: int): Line {
    if n < 0 then [45] + Dec(-n) else Dec(n)
  }

  function HexDigit(d: nat): Byte
    requires d < 16
  {
    if d < 10 then 48 + d else 87 + d
  }

  /** `n` in `width` lower-case hexadecimal digits. */
  function Hex(n: nat, width: nat): AsciiLine {
    if width == 0 then [] else Hex(n / 16, width - 1) + [HexDigit(n % 16)]
  }

  function DigitValue(base: nat, c: Byte): Option<nat> {
    if 48 <= c <= 57 then Some(c - 48)
    else if base == 16 && 97 <= c <= 102 then Some(c - 87)
    else if base == 16 && 65 <= c <= 70 then Some(c - 55)
    else None
  }

  function DigitsValue(base: nat, s: Line): Option<nat> {
    if s == [] then Some(0)
    else
      match (DigitsValue(base, s[..|s| - 1]), DigitValue(base, s[|s| - 1]))
      case (Some(front), Some(last)) => Some(front * base + last)
      case _ => None
  }

  const HEX_PREFIX: AsciiLine := [48, 120]

  /** Signed decimal, as Go's `strconv.Atoi` reads it. */
  function ParseDecimal(s: Line): Option<int> {
    if s != [] && s[0] == 45 then
      match (if |s| == 1 then None else DigitsValue(10, s[1..]))
      case Some(n) => Some(-(n as int))
      case None => None
    else if s != [] && s[0] == 43 then
      if |s| == 1 then None else DigitsValue(10, s[1..])
    else
      if s == [] then None else DigitsValue(10, s)
  }

  /** The firmware's `_int`: hexadecimal after "0x" in either case, otherwise signed decimal. */
  function ParseInt(s: Line): Option<int> {
    if |s| >= 2 && Lower(s[..2]) == HEX_PREFIX then
      if |s| == 2 then None else DigitsValue(16, s[2..])
    else ParseDecimal(s)
  }

  lemma {:induction false} DecDigits(n: nat)
    ensures Dec(n) != [] && forall c <- Dec(n) :: 48 <= c <= 57
    ensures DigitsValue(10, Dec(n)) == Some(n)
  {
    if n < 10 {
      assert Dec(n)[..0] == [];
    } else {
      DecDigits(n / 10);
      assert Dec(n)[..|Dec(n)| - 1] == Dec(n / 10);
    }
  }

  lemma ParseDec(n: nat)
    ensures ParseDecimal(Dec(n)) == Some(n) && ParseInt(Dec(n)) == Some(n)
  {
    hide Dec, DigitsValue;
    DecDigits(n);
    var s := Dec(n);
    assert s[0] in s;
    if |s| >= 2 {
      assert s[1] in s;
      assert Lower(s[..2])[1] == s[1];
    }
  }

  function Pow16(n: nat): nat {
    if n == 0 then 1 else 16 * Pow16(n - 1)
  }

  lemma NoDigits(base: nat)
    ensures DigitsValue(base, []) == Some(0)
  {
  }

  lemma HexDigitValue(d: nat)
    requires d < 16
    ensures DigitValue(16, HexDigit(d)) == Some(d)
    ensures 48 <= HexDigit(d) <= 57 || 97 <= HexDigit(d) <= 102
  {
  }

  lemma DigitsValueNext(base: nat, front: Line, last: Byte)
    requires DigitsValue(base, front).Some? && DigitValue(base, last).Some?
    ensures DigitsValue(base, front + [last])
         == Some(DigitsValue(base, front).value * base + DigitValue(base, last).value)
  {
    hide DigitValue;
    assert (front + [last])[..|front|] == front;
  }

  lemma {:induction false} HexDigits(n: nat, width: nat)
    requires n < Pow16(width)
    ensures |Hex(n, width)| == width
    ensures forall c <- Hex(n, width) :: 48 <= c <= 57 || 97 <= c <= 102
    ensures DigitsValue(16, Hex(n, width)) == Some(n)
  {
    hide DigitsValue, DigitValue, HexDigit;
    if width == 0 {
      NoDigits(16);
    } else {
      HexDigits(n / 16, width - 1);
      var front, last := Hex(n / 16, width - 1), HexDigit(n % 16);
      HexDigitValue(n % 16);
      DigitsValueNext(16, front, last);
      assert n == n / 16 * 16 + n % 16;
    }
  }

  lemma ParseHex(n: U16)
    ensures ParseInt(HEX_PREFIX + Hex(n, 4)) == Some(n)
  {
    hide Hex, DigitsValue;
    assert Pow16(4) == 0x1_0000;
    HexDigits(n, 4);
    var s := HEX_PREFIX + Hex(n, 4);
    assert s[2..] == Hex(n, 4);
    assert Lower(s[..2]) == HEX_PREFIX;
  }

  // ----- words

  predicate Solid(s: Line) {
    forall c <- s :: !Whitespace(c) && Printable(c)
  }

  lemma {:induction false} SolidWordLength(w: Line, rest: Line)
    requires Solid(w) && (rest == [] || Whitespace(rest[0]))
    ensures WordLength(w + rest) == |w|
  {
    if w == [] {
      assert w + rest == rest;
    } else {
      assert !Whitespace(w[0]);
      assert (w + rest)[1..] == w[1..] + rest;
      SolidWordLength(w[1..], rest);
    }
  }

  lemma FirstWord(w: Line, rest: Line)
    requires w != [] && Solid(w)
    ensures Words(w + ([32] + rest)) == [w] + Words(rest)
    ensures Words(w) == [w]
  {
    var s := w + ([32] + rest);
    SolidWordLength(w, [32] + rest);
    assert !Whitespace(w[0]);
    assert s[..|w|] == w && s[|w|..] == [32] + rest;
    assert ([32] + rest)[1..] == rest;
    SolidWordLength(w, []);
    assert w + [] == w && w[..|w|] == w && w[|w|..] == [];
  }

  lemma {:induction false} DropControlsPlain(s: Line)
    requires forall c <- s :: Printable(c)
    ensures DropControls(s) == s
  {
    hide Printable;
    if s != [] {
      var front, last := s[..|s| - 1], s[|s| - 1];
      assert last in s;
      DropControlsPlain(front);
      assert front + [last] == s;
    }
  }

  lemma StripPlain(s: Line)
    requires s != [] ==> !Whitespace(s[0]) && !Whitespace(s[|s| - 1])
    ensures Strip(s) == s
  {
  }

  /** A line of two words survives sanitising and splitting. */
  lemma TwoWords(a: Line, b: Line)
    requires a != [] && b != [] && Solid(a) && Solid(b)
    ensures
      var s := a + ([32] + b);
      Sanitize(s) == s && Words(s) == [a, b]
  {
    hide Words, WordLength;
    var s := a + ([32] + b);
    assert forall x <- s :: Printable(x);
    DropControlsPlain(s);
    assert s[0] == a[0] && !Whitespace(a[0]);
    assert s[|s| - 1] == b[|b| - 1] && !Whitespace(b[|b| - 1]);
    StripPlain(s);
    FirstWord(a, b);
    FirstWord(b, []);
  }

  /** A line of three words survives sanitising and splitting. */
  lemma ThreeWords(a: Line, b: Line, c: Line)
    requires a != [] && b != [] && c != [] && Solid(a) && Solid(b) && Solid(c)
    ensures
      var s := a + ([32] + (b + ([32] + c)));
      Sanitize(s) == s && Words(s) == [a, b, c]
  {
    hide Words, WordLength;
    var tail := b + ([32] + c);
    var s := a + ([32] + tail);
    assert forall x <- s :: Printable(x);
    DropControlsPlain(s);
    assert s[0] == a[0] && !Whitespace(a[0]);
    assert s[|s| - 1] == c[|c| - 1] && !Whitespace(c[|c| - 1]);
    StripPlain(s);
    FirstWord(a, tail);
    FirstWord(b, c);
    FirstWord(c, []);
  }

  /** Plain text is untouched by trimming. */
  lemma SolidStrip(s: Line)
    requires Solid(s)
    ensures Strip(s) == s
  {
    assert s != [] ==> !Whitespace(s[0]) && !Whitespace(s[|s| - 1]);
    StripPlain(s);
  }

  /** A line of one word survives sanitising and splitting. */
  lemma OneWord(w: Line)
    requires w != [] && Solid(w)
    ensures Words(Sanitize(w)) == [w]
  {
    hide Words;
    DropControlsPlain(w);
    SolidStrip(w);
    FirstWord(w, []);
  }

  // ----- blank lines

  lemma BlankSanitizes(line: Line)
    requires Strip(line) == []
    ensures Sanitize(line) == []
  {
    StripBlank(line);
    DropControlsBlank(line);
  }

  lemma StripBlank(line: Line)
    requires Strip(line) == []
    ensures forall c <- line :: Whitespace(c)
  {
    TrimLeftBlank(TrimRight(line));
    TrimRightBlank(line);
  }

  lemma {:induction false} TrimLeftBlank(s: Line)
    requires TrimLeft(s) == []
    ensures forall c <- s :: Whitespace(c)
  {
    if s != [] {
      TrimLeftBlank(s[1..]);
      assert s == [s[0]] + s[1..];
    }
  }

  lemma {:induction false} TrimRightBlank(s: Line)
    requires forall c <- TrimRight(s) :: Whitespace(c)
    ensures forall c <- s :: Whitespace(c)
  {
    if s != [] && Whitespace(s[|s| - 1]) {
      TrimRightBlank(s[..|s| - 1]);
    }
  }

  lemma DropControlsBlank(s: Line)
    requires forall c <- s :: Whitespace(c)
    ensures Sanitize(s) == []
  {
    AllDropped(s);
    AllTrimmed(DropControls(s));
  }

  lemma {:induction false} AllDropped(s: Line)
    requires forall c <- s :: Whitespace(c)
    ensures forall c <- DropControls(s) :: Whitespace(c)
  {
    if s != [] {
      AllDropped(s[..|s| - 1]);
    }
  }

  lemma {:induction false} AllTrimmed(s: Line)
    requires forall c <- s :: Whitespace(c)
    ensures Strip(s) == []
  {
    if s != [] {
      assert s[|s| - 1] in s;
      AllTrimmed(s[..|s| - 1]);
    }
  }
}
