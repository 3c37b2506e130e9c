/** What the firmware's string operations do to a line, by laws that fix them. */
module TextLaws {
  import opened Bytes
  import opened Ascii85
  import opened KeyNames
  import opened Text

  /** Tab, line feed, vertical tab, form feed, carriage return, space. */
  predicate Blank(c: Byte) {
    c == 9 || c == 10 || c == 11 || c == 12 || c == 13 || c == 32
  }

  predicate Stray(c: Byte) {
    c < 32 || c == 127
  }

  // ----- words

  /** A blank anywhere separates the words on its two sides. */
  lemma {:induction false} WordsAtBlank(a: Line, c: Byte, b: Line)
    requires Blank(c)
    ensures Words(a + [c] + b) == Words(a) + Words(b)
    decreases |a|
  {
    hide Words, WordLength;
    if a == [] {
      NoWords();
      WordsAfterBlank(c, b);
      assert [] + [c] + b == [c] + b && [] + Words(b) == Words(b);
    } else if Whitespace(a[0]) {
      WordsAfterBlank(a[0], a[1..] + [c] + b);
      WordsAfterBlank(a[0], a[1..]);
      assert [a[0]] + (a[1..] + [c] + b) == a + [c] + b && [a[0]] + a[1..] == a;
      WordsAtBlank(a[1..], c, b);
    } else {
      var k := WordLength(a);
      SameFirstWord(a, c, b);
      FirstWordOf(a);
      FirstWordOf(a + [c] + b);
      assert (a + [c] + b)[..k] == a[..k] && (a + [c] + b)[k..] == a[k..] + [c] + b;
      WordsAtBlank(a[k..], c, b);
      assert [a[..k]] + (Words(a[k..]) + Words(b)) == [a[..k]] + Words(a[k..]) + Words(b);
    }
  }

  lemma NoWords()
    ensures Words([]) == []
  {
  }

  lemma WordsAfterBlank(c: Byte, b: Line)
    requires Blank(c)
    ensures Words([c] + b) == Words(b)
  {
    assert ([c] + b)[1..] == b;
  }

  lemma FirstWordOf(s: Line)
    requires s != [] && !Whitespace(s[0])
    ensures WordLength(s) > 0 && Words(s) == [s[..WordLength(s)]] + Words(s[WordLength(s)..])
  {
  }

  lemma {:induction false} SameFirstWord(a: Line, c: Byte, b: Line)
    requires Blank(c)
    ensures WordLength(a + [c] + b) == WordLength(a)
    decreases |a|
  {
    if a == [] {
      assert ([] + [c] + b)[0] == c;
    } else {
      assert (a + [c] + b)[1..] == a[1..] + [c] + b;
      SameFirstWord(a[1..], c, b);
    }
  }

  /** And text without blanks is one word; with the law above this determines the words of any line. */
  lemma WordsOfOne(w: Line)
    requires w != [] && forall c <- w :: !Blank(c)
    ensures Words(w) == [w]
  {
    hide Words;
    WholeWord(w);
    FirstWordOf(w);
    NoWords();
    assert w[..|w|] == w && w[|w|..] == [];
  }

  lemma {:induction false} WholeWord(w: Line)
    requires forall c <- w :: !Blank(c)
    ensures WordLength(w) == |w|
  {
    if w != [] {
      assert w[0] in w && forall c <- w[1..] :: c in w;
      WholeWord(w[1..]);
    }
  }

  // ----- sanitising

  /** A stray control character, such as a break's NUL, may stand anywhere in a line. */
  lemma StrayIgnored(a: Line, c: Byte, b: Line)
    requires Stray(c)
    ensures Sanitize(a + [c] + b) == Sanitize(a + b)
  {
    hide DropControls, Strip;
    DropJoin(a + [c], b);
    DropJoin(a, [c]);
    DropJoin(a, b);
    DropStray(c);
    assert DropControls(a) + [] == DropControls(a);
  }

  lemma {:induction false} DropJoin(a: Line, b: Line)
    ensures DropControls(a + b) == DropControls(a) + DropControls(b)
    decreases |b|
  {
    hide Printable;
    if b == [] {
      assert a + b == a;
    } else {
      assert (a + b)[..|a + b| - 1] == a + b[..|b| - 1];
      DropJoin(a, b[..|b| - 1]);
    }
  }

  lemma DropStray(c: Byte)
    requires Stray(c)
    ensures DropControls([c]) == []
  {
    assert [c][..0] == [];
  }

  lemma DropKept(c: Byte)
    requires !Stray(c)
    ensures DropControls([c]) == [c]
  {
    assert [c][..0] == [];
  }

  /** Spaces at either end do not matter. */
  lemma MarginsIgnored(s: Line)
    ensures Sanitize([32] + s) == Sanitize(s) && Sanitize(s + [32]) == Sanitize(s)
  {
    hide DropControls, Strip;
    DropJoin([32], s);
    DropJoin(s, [32]);
    DropKept(32);
    StripMargins(32, DropControls(s));
  }

  lemma StripMargins(c: Byte, s: Line)
    requires Blank(c)
    ensures Strip([c] + s) == Strip(s) && Strip(s + [c]) == Strip(s)
  {
    assert (s + [c])[..|s|] == s;
    TrimmedFront(c, s);
  }

  lemma {:induction false} TrimmedFront(c: Byte, s: Line)
    requires Blank(c)
    ensures Strip([c] + s) == Strip(s)
    decreases |s|
  {
    if s == [] {
      assert [c] + s == [c] && [c][..0] == [];
    } else if Whitespace(s[|s| - 1]) {
      assert ([c] + s)[..|s|] == [c] + s[..|s| - 1];
      TrimmedFront(c, s[..|s| - 1]);
    } else {
      assert ([c] + s)[1..] == s;
    }
  }

  /** Anything else is kept; with the laws above this determines what any line is taken for. */
  lemma PlainKept(s: Line)
    requires forall c <- s :: !Stray(c)
    requires s != [] ==> s[0] != 32 && s[|s| - 1] != 32
    ensures Sanitize(s) == s
  {
    hide Strip;
    assert forall c <- s :: Printable(c);
    DropControlsPlain(s);
    assert s != [] ==> s[0] in s && s[|s| - 1] in s;
    StripPlain(s);
  }

  // ----- case

  /** `u` is `w` with some of its letters written as capitals. */
  predicate Capitalised(u: Line, w: Line) {
    |u| == |w| && forall i :: 0 <= i < |u| ==> u[i] == w[i] || (97 <= w[i] <= 122 && u[i] == w[i] - 32)
  }

  lemma CaseIgnored(u: Line, w: Line)
    requires Capitalised(u, w) && forall c <- w :: !(65 <= c <= 90)
    ensures Lower(u) == w
  {
    forall i | 0 <= i < |u|
      ensures Lower(u)[i] == w[i]
    {
      assert w[i] in w;
    }
  }

  // ----- numbers

  predicate DigitOf(base: nat, c: Byte) {
    48 <= c <= 57 || (base == 16 && (65 <= c <= 70 || 97 <= c <= 102))
  }

  predicate Decimal(s: Line) {
    s != [] && forall i :: 0 <= i < |s| ==> DigitOf(10, s[i])
  }

  predicate Hexadecimal(s: Line) {
    s != [] && forall i :: 0 <= i < |s| ==> DigitOf(16, s[i])
  }

  lemma {:induction false} DigitsIff(base: nat, s: Line)
    requires base == 10 || base == 16
    ensures DigitsValue(base, s).Some? <==> forall i :: 0 <= i < |s| ==> DigitOf(base, s[i])
  {
    hide DigitValue, DigitOf;
    if s != [] {
      var n := |s| - 1;
      DigitsIff(base, s[..n]);
      DigitIff(base, s[n]);
      assert forall i :: 0 <= i < n ==> s[..n][i] == s[i];
    }
  }

  lemma DigitIff(base: nat, c: Byte)
    requires base == 10 || base == 16
    ensures DigitValue(base, c).Some? <==> DigitOf(base, c)
  {
  }

  /** Which arguments are numbers: decimal with an optional sign, or hexadecimal after "0x" or "0X". */
  lemma NumberIff(s: Line)
    ensures ParseInt(s).Some?
       <==> Decimal(s)
            || (s != [] && (s[0] == 43 || s[0] == 45) && Decimal(s[1..]))
            || (|s| >= 2 && s[0] == 48 && (s[1] == 120 || s[1] == 88) && Hexadecimal(s[2..]))
  {
    hide DigitsValue, Lower;
    if |s| >= 2 {
      PrefixIff(s);
      DigitsIff(16, s[2..]);
    }
    if s != [] {
      DigitsIff(10, s[1..]);
    }
    DigitsIff(10, s);
  }

  lemma PrefixIff(s: Line)
    requires |s| >= 2
    ensures Lower(s[..2]) == HEX_PREFIX <==> s[0] == 48 && (s[1] == 120 || s[1] == 88)
  {
    assert Lower(s[..2]) == [LowerByte(s[0]), LowerByte(s[1])];
  }

  /** And what they stand for: signs, leading zeros and capital digits as one expects. */
  lemma NumberMeans(n: nat, zeros: nat)
    ensures ParseInt(Zeros(zeros) + Dec(n)) == Some(n)
    ensures ParseInt([45] + (Zeros(zeros) + Dec(n))) == Some(-(n as int))
    ensures ParseInt([43] + (Zeros(zeros) + Dec(n))) == Some(n)
  {
    hide Dec, DigitsValue;
    var s := Zeros(zeros) + Dec(n);
    DecDigits(n);
    ZerosCountNothing(10, zeros, Dec(n));
    assert forall i :: 0 <= i < |s| ==> 48 <= s[i] <= 57 by {
      assert forall i :: 0 <= i < |Dec(n)| ==> Dec(n)[i] in Dec(n);
    }
    assert ([45] + s)[1..] == s && ([43] + s)[1..] == s;
    if |s| >= 2 {
      PrefixIff(s);
    }
    PrefixIff([45] + s);
    PrefixIff([43] + s);
  }

  function Zeros(n: nat): Line {
    seq(n, i => 48)
  }

  lemma {:induction false} ZerosCountNothing(base: nat, n: nat, s: Line)
    ensures DigitsValue(base, Zeros(n) + s) == DigitsValue(base, s)
    decreases n + |s|
  {
    hide DigitValue;
    var all := Zeros(n) + s;
    if s == [] {
      if n > 0 {
        assert all[..n - 1] == Zeros(n - 1) + [];
        ZerosCountNothing(base, n - 1, []);
        assert DigitValue(base, 48) == Some(0) by {
          ZeroDigit(base);
        }
      } else {
        assert all == s;
      }
    } else {
      assert all[..|all| - 1] == Zeros(n) + s[..|s| - 1];
      ZerosCountNothing(base, n, s[..|s| - 1]);
    }
  }

  lemma ZeroDigit(base: nat)
    ensures DigitValue(base, 48) == Some(0)
  {
  }

  // ----- names of keys

  /** A name is found in any case: what is looked up is its capitals. */
  lemma NameAnyCase(table: map<Line, nat>, limit: nat, u: Line, w: Line)
    requires Capitalised(w, u) && forall c <- w :: !(97 <= c <= 122)
    requires w != [] ==> !Blank(w[0]) && !Blank(w[|w| - 1])
    ensures Lookup(table, limit, u) == if w in table then Some(table[w]) else ParseNumeric(w, limit)
  {
    hide ParseNumeric, Strip;
    StripPlain(u);
    forall i | 0 <= i < |u|
      ensures Upper(u)[i] == w[i]
    {
      assert w[i] in w;
    }
    assert Upper(u) == w;
  }

  /** And with any blanks around it. */
  lemma NameAnyMargin(table: map<Line, nat>, limit: nat, c: Byte, s: Line)
    requires Blank(c)
    ensures Lookup(table, limit, [c] + s) == Lookup(table, limit, s) == Lookup(table, limit, s + [c])
  {
    hide ParseNumeric, Strip, Upper;
    StripMargins(c, s);
  }
}
