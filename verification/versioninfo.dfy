/** The reply to `version` as the CLI takes it apart, and that it gets out what the board put in. */
module VersionInfo {
  import opened Bytes
  import opened Framing
  import opened Protocols
  import opened Store
  import opened Text
  import TextLaws

  const EQUALS: Byte := 61

  datatype Info = Info(firmware: Line, format: int, nvmSize: int, used: int, profiles: int, active: int, status: Line)

  /** Where the first '=' is. */
  function EqualsAt(s: Line): (i: nat)
    ensures i <= |s|
  {
    if s == [] || s[0] == EQUALS then 0 else 1 + EqualsAt(s[1..])
  }

  /** The value of a key among "key=value" words, the last one counting; empty without one. */
  function Field(words: seq<Line>, key: Line): Line {
    if words == [] then []
    else
      var last := words[|words| - 1];
      var i := EqualsAt(last);
      if i < |last| && last[..i] == key then last[i + 1..] else Field(words[..|words| - 1], key)
  }

  /** `strconv.Atoi` with its error ignored. */
  function Number(s: Line): int {
    match ParseDecimal(s)
    case Some(n) => n
    case None => 0
  }

  function TrimOk(line: Line): Line {
    if OK_LINE <= line then line[2..] else line
  }

  function ParseInfo(line: Line): Option<Info> {
    var words := Words(TrimOk(line));
    if Field(words, Ascii("fw")) == [] then None
    else
      Some(Info(Field(words, Ascii("fw")), Number(Field(words, Ascii("fmt"))), Number(Field(words, Ascii("nvm"))),
                Number(Field(words, Ascii("used"))), Number(Field(words, Ascii("profiles"))),
                Number(Field(words, Ascii("active"))), Field(words, Ascii("status"))))
  }

  function Get(fields: map<Line, Line>, key: Line): Line {
    if key in fields then fields[key] else []
  }

  /** The loop that collects the fields in a map. */
  method ReadInfo(line: Line) returns (r: Option<Info>)
    ensures r == ParseInfo(line)
  {
    hide Words, Ascii, Number, TrimOk;
    var words := Words(TrimOk(line));
    var fields: map<Line, Line> := map[];
    for k := 0 to |words|
      invariant forall key :: Get(fields, key) == Field(words[..k], key)
    {
      var part := words[k];
      var i := EqualsAt(part);
      assert words[..k + 1][..k] == words[..k];
      if i < |part| {
        fields := fields[part[..i] := part[i + 1..]];
      }
    }
    assert words[..|words|] == words;
    if Get(fields, Ascii("fw")) == [] {
      return None;
    }
    return Some(Info(Get(fields, Ascii("fw")), Number(Get(fields, Ascii("fmt"))), Number(Get(fields, Ascii("nvm"))),
                     Number(Get(fields, Ascii("used"))), Number(Get(fields, Ascii("profiles"))),
                     Number(Get(fields, Ascii("active"))), Get(fields, Ascii("status"))));
  }

  // ----- what the board prints

  function Pair(key: Line, value: Line): Line {
    key + ([EQUALS] + value)
  }

  /** The status as one word. */
  function StatusWord(s: Status): Line {
    match s
    case StatusOk => Ascii("ok")
    case NoNvm => Ascii("no-nvm")
    case Blank => Ascii("blank")
    case Corrupt => Ascii("corrupt:")
  }

  lemma {:induction false} EqualsAfter(key: Line, value: Line)
    requires EQUALS !in key
    ensures EqualsAt(Pair(key, value)) == |key|
  {
    if key != [] {
      assert Pair(key, value)[1..] == Pair(key[1..], value);
      assert key[0] in key && forall c <- key[1..] :: c in key;
      EqualsAfter(key[1..], value);
    }
  }

  lemma FieldNext(words: seq<Line>, k: Line, value: Line, key: Line)
    requires EQUALS !in k
    ensures Field(words + [Pair(k, value)], key) == if key == k then value else Field(words, key)
  {
    var p, all := Pair(k, value), words + [Pair(k, value)];
    EqualsAfter(k, value);
    assert p[..|k|] == k && p[|k| + 1..] == value;
    assert all[..|words|] == words;
  }

  /** No blank inside, and not empty. */
  predicate OneWord(w: Line) {
    w != [] && forall c <- w :: !TextLaws.Blank(c)
  }

  /** One more "key=value" behind what was printed so far. */
  lemma PairPrinted(front: Line, mark: Line, key: Line, value: Line)
    requires mark == [32] + key + [EQUALS]
    requires OneWord(Pair(key, value))
    ensures Words(front + mark + value) == Words(front) + [Pair(key, value)]
  {
    hide Words;
    assert front + mark + value == front + [32] + Pair(key, value);
    TextLaws.WordsAtBlank(front, 32, Pair(key, value));
    TextLaws.WordsOfOne(Pair(key, value));
  }

  lemma NumberWord(key: Line, n: int)
    requires Unbroken(key)
    ensures OneWord(Pair(key, DecInt(n))) && ParseDecimal(DecInt(n)) == Some(n)
  {
    hide Dec, DigitsValue;
    var m := if n < 0 then -n else n;
    DecDigits(m);
    assert Unbroken(Dec(m));
    PairIsWord(key, DecInt(n));
    ParseDec(m);
    if n < 0 {
      assert ([45] + Dec(m))[1..] == Dec(m);
    }
  }

  lemma Marks()
    ensures Ascii(" used=") == [32] + Ascii("used") + [EQUALS]
    ensures Ascii(" profiles=") == [32] + Ascii("profiles") + [EQUALS]
    ensures Ascii(" active=") == [32] + Ascii("active") + [EQUALS]
    ensures Ascii(" status=") == [32] + Ascii("status") + [EQUALS]
  {
  }

  lemma FirstMarks()
    ensures [32] + Ascii("fw=0.1.0 fmt=1 nvm=")
         == [] + ([32] + Ascii("fw") + [EQUALS]) + Ascii("0.1.0") + ([32] + Ascii("fmt") + [EQUALS]) + Ascii("1")
            + ([32] + Ascii("nvm") + [EQUALS])
  {
  }

  /** No blank inside. */
  predicate Unbroken(s: Line) {
    forall c <- s :: !TextLaws.Blank(c)
  }

  predicate PlainKey(key: Line) {
    EQUALS !in key && Unbroken(key)
  }

  /** Text of letters, digits and the marks that occur is plain. */
  lemma Plainly(s: string)
    requires forall i :: 0 <= i < |s| ==> 'a' <= s[i] <= 'z' || '-' <= s[i] <= ':'
    ensures PlainKey(Ascii(s))
  {
    forall i | 0 <= i < |s|
      ensures 45 <= Ascii(s)[i] <= 58 || 97 <= Ascii(s)[i] <= 122
    {
    }
  }

  lemma KeysPlain()
    ensures PlainKey(Ascii("fw")) && PlainKey(Ascii("fmt")) && PlainKey(Ascii("nvm")) && PlainKey(Ascii("used"))
    ensures PlainKey(Ascii("profiles")) && PlainKey(Ascii("active")) && PlainKey(Ascii("status"))
  {
    hide PlainKey, Ascii;
    Plainly("fw");
    Plainly("fmt");
    Plainly("nvm");
    Plainly("used");
    Plainly("profiles");
    Plainly("active");
    Plainly("status");
  }

  lemma ValuesPlain(s: Status)
    ensures PlainKey(Ascii("0.1.0")) && PlainKey(Ascii("1")) && PlainKey(StatusWord(s))
  {
    hide PlainKey, Ascii;
    Plainly("0.1.0");
    Plainly("1");
    Plainly("ok");
    Plainly("no-nvm");
    Plainly("blank");
    Plainly("corrupt:");
  }

  lemma PairIsWord(key: Line, value: Line)
    requires Unbroken(key) && Unbroken(value)
    ensures OneWord(Pair(key, value))
  {
    assert !TextLaws.Blank(EQUALS);
  }

  function Mark(key: Line): Line {
    [32] + key + [EQUALS]
  }

  /** What follows the first three fields. */
  function Tail(used: nat, profiles: nat, active: int, status: Status): Line {
    Ascii(" used=") + Dec(used) + Ascii(" profiles=") + Dec(profiles)
    + Ascii(" active=") + DecInt(active) + Ascii(" status=") + RenderStatus(status)
  }

  lemma FirstWords(nvm: nat)
    ensures Words([32] + Ascii("fw=0.1.0 fmt=1 nvm=") + Dec(nvm))
         == [Pair(Ascii("fw"), Ascii("0.1.0")), Pair(Ascii("fmt"), Ascii("1")), Pair(Ascii("nvm"), Dec(nvm))]
  {
    hide Words, Ascii, Pair, Dec, OneWord, Unbroken;
    FirstMarks();
    KeysPlain();
    NumberWord(Ascii("nvm"), nvm);
    ValuesPlain(Blank);
    PairIsWord(Ascii("fw"), Ascii("0.1.0"));
    PairIsWord(Ascii("fmt"), Ascii("1"));
    PairPrinted([], Mark(Ascii("fw")), Ascii("fw"), Ascii("0.1.0"));
    var one := [] + Mark(Ascii("fw")) + Ascii("0.1.0");
    PairPrinted(one, Mark(Ascii("fmt")), Ascii("fmt"), Ascii("1"));
    PairPrinted(one + Mark(Ascii("fmt")) + Ascii("1"), Mark(Ascii("nvm")), Ascii("nvm"), Dec(nvm));
    TextLaws.NoWords();
  }

  lemma StatusPrinted(front: Line, s: Status)
    ensures Words(front + Ascii(" status=") + RenderStatus(s))
         == Words(front) + [Pair(Ascii("status"), StatusWord(s))]
  {
    hide Words, Pair, OneWord, Unbroken;
    Marks();
    KeysPlain();
    ValuesPlain(s);
    PairIsWord(Ascii("status"), StatusWord(s));
    PairPrinted(front, Ascii(" status="), Ascii("status"), StatusWord(s));
    if s.Corrupt? {
      var text := front + Ascii(" status=") + StatusWord(s);
      TextLaws.WordsAtBlank(text, 32, []);
      TextLaws.NoWords();
      assert Ascii("corrupt: ") == Ascii("corrupt:") + [32];
      assert text + [32] + [] == front + Ascii(" status=") + RenderStatus(s);
    }
  }

  lemma TailWords(front: Line, used: nat, profiles: nat, active: int, status: Status)
    ensures Words(front + Tail(used, profiles, active, status))
         == Words(front) + [Pair(Ascii("used"), Dec(used)), Pair(Ascii("profiles"), Dec(profiles)),
                            Pair(Ascii("active"), DecInt(active)), Pair(Ascii("status"), StatusWord(status))]
  {
    hide Words, Ascii, Pair, Dec, DecInt, OneWord, Unbroken, RenderStatus, StatusWord;
    Marks();
    KeysPlain();
    NatPrinted(used);
    NatPrinted(profiles);
    NumberWord(Ascii("used"), used);
    NumberWord(Ascii("profiles"), profiles);
    NumberWord(Ascii("active"), active);
    PairPrinted(front, Ascii(" used="), Ascii("used"), Dec(used));
    var a := front + Ascii(" used=") + Dec(used);
    PairPrinted(a, Ascii(" profiles="), Ascii("profiles"), Dec(profiles));
    var b := a + Ascii(" profiles=") + Dec(profiles);
    PairPrinted(b, Ascii(" active="), Ascii("active"), DecInt(active));
    var c := b + Ascii(" active=") + DecInt(active);
    StatusPrinted(c, status);
    assert front + Tail(used, profiles, active, status) == c + Ascii(" status=") + RenderStatus(status);
  }

  lemma NatPrinted(n: nat)
    ensures DecInt(n) == Dec(n)
  {
  }

  lemma KeysApart()
    ensures Ascii("fw")[..2] == [102, 119] && Ascii("fmt")[..2] == [102, 109] && Ascii("nvm")[..2] == [110, 118]
    ensures Ascii("used")[..2] == [117, 115] && Ascii("profiles")[..2] == [112, 114]
    ensures Ascii("active")[..2] == [97, 99] && Ascii("status")[..2] == [115, 116]
  {
  }

  /** The words of a reply, as pairs. */
  function ReplyWords(v: Detail): seq<Line>
    requires v.Versions?
  {
    [Pair(Ascii("fw"), Ascii("0.1.0")), Pair(Ascii("fmt"), Ascii("1")), Pair(Ascii("nvm"), Dec(v.nvm))]
    + [Pair(Ascii("used"), Dec(v.used)), Pair(Ascii("profiles"), Dec(v.profiles)),
       Pair(Ascii("active"), DecInt(v.active)), Pair(Ascii("status"), StatusWord(v.status))]
  }

  lemma ReplySplits(v: Detail)
    requires v.Versions?
    ensures Words(TrimOk(Render(Done(v)))) == ReplyWords(v)
  {
    hide Words, Ascii, Pair, Dec, DecInt, RenderStatus, StatusWord;
    var front := [32] + Ascii("fw=0.1.0 fmt=1 nvm=") + Dec(v.nvm);
    var text := [32] + RenderDetail(v);
    assert text == front + Tail(v.used, v.profiles, v.active, v.status);
    assert Render(Done(v)) == OK_LINE + text;
    assert TrimOk(OK_LINE + text) == text;
    FirstWords(v.nvm);
    TailWords(front, v.used, v.profiles, v.active, v.status);
  }

  lemma SevenFields(v: Detail, key: Line)
    requires v.Versions?
    ensures
      Field(ReplyWords(v), key)
      == if key == Ascii("status") then StatusWord(v.status)
         else if key == Ascii("active") then DecInt(v.active)
         else if key == Ascii("profiles") then Dec(v.profiles)
         else if key == Ascii("used") then Dec(v.used)
         else if key == Ascii("nvm") then Dec(v.nvm)
         else if key == Ascii("fmt") then Ascii("1")
         else if key == Ascii("fw") then Ascii("0.1.0") else []
  {
    hide Field, Ascii, Pair, Dec, DecInt, StatusWord, Unbroken;
    KeysPlain();
    var w := ReplyWords(v);
    NoField(key);
    FieldNext([], Ascii("fw"), Ascii("0.1.0"), key);
    FieldNext(w[..1], Ascii("fmt"), Ascii("1"), key);
    FieldNext(w[..2], Ascii("nvm"), Dec(v.nvm), key);
    FieldNext(w[..3], Ascii("used"), Dec(v.used), key);
    FieldNext(w[..4], Ascii("profiles"), Dec(v.profiles), key);
    FieldNext(w[..5], Ascii("active"), DecInt(v.active), key);
    FieldNext(w[..6], Ascii("status"), StatusWord(v.status), key);
    assert forall k :: 0 <= k < 7 ==> w[..k] + [w[k]] == w[..k + 1];
    assert w[..0] == [] && w[..7] == w;
  }

  lemma NoField(key: Line)
    ensures Field([], key) == []
  {
  }

  /**
   The CLI gets out of every reply to `version` just the numbers and the status the board put in;
   of a corrupt region it gets the first word of the status.
   */
  lemma InfoArrives(v: Detail)
    requires v.Versions?
    ensures ParseInfo(Render(Done(v)))
         == Some(Info(Ascii("0.1.0"), 1, v.nvm, v.used, v.profiles, v.active, StatusWord(v.status)))
  {
    hide Words, Ascii, Dec, DecInt, ReplyWords, Render, TrimOk, Field, ParseDecimal, StatusWord, PlainKey;
    ReplySplits(v);
    KeysApart();
    SevenFields(v, Ascii("fw"));
    SevenFields(v, Ascii("fmt"));
    SevenFields(v, Ascii("nvm"));
    SevenFields(v, Ascii("used"));
    SevenFields(v, Ascii("profiles"));
    SevenFields(v, Ascii("active"));
    SevenFields(v, Ascii("status"));
    NumbersRead(v.nvm, v.used, v.profiles, v.active);
  }

  lemma NumbersRead(nvm: nat, used: nat, profiles: nat, active: int)
    ensures Number(Dec(nvm)) == nvm && Number(Dec(used)) == used && Number(Dec(profiles)) == profiles
    ensures Number(DecInt(active)) == active && Number(Ascii("1")) == 1 && Ascii("0.1.0") != []
  {
    hide Dec, DecInt, ParseDecimal, Unbroken;
    ParseDec(nvm);
    ParseDec(used);
    ParseDec(profiles);
    ParseDec(1);
    assert Ascii("1") == [49];
    OneDigit();
    assert Unbroken([]) by {
      EmptyUnbroken();
    }
    NumberWord([], active);
  }

  lemma OneDigit()
    ensures Dec(1) == [49]
  {
  }

  lemma EmptyUnbroken()
    ensures Unbroken([])
  {
  }
}
