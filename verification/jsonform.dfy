/** The editable form of a configuration, at the level of its fields, and the way back. */
module JsonForm {
  import opened Ascii85
  import opened Bytes
  import opened Configs
  import opened KeyNames
  import opened Text

  /** Exactly one of the four is set in a good step; an absent delay differs from a zero one. */
  datatype JsonStep = JsonStep(key: Line, mods: seq<Line>, text: Line, consumer: Line, delayMs: Option<U16>)

  datatype JsonBinding = JsonBinding(color: Line, steps: seq<JsonStep>)

  datatype JsonProfile = JsonProfile(
    name: Line, dwellMs: U16, tapMaxMs: U16, overflow: Line, extCount: Byte, brightness: Byte,
    idleMode: Line, idleColor: Line, tap: JsonBinding, slots: seq<JsonBinding>)

  /** The name tables, with the reverse ones as some order of filling left them. */
  datatype Tables = Tables(
    keycodes: map<Line, nat>, fixedKeys: map<nat, Line>, keyNames: map<nat, Line>,
    consumers: map<Line, nat>, consumerNames: map<nat, Line>,
    modOrder: seq<Line>, modBits: map<Line, nat>)

  ghost predicate GoodTables(t: Tables) {
    && GoodTable(t.keycodes, 0x100) && Reverses(t.keycodes, t.fixedKeys, t.keyNames)
    && GoodTable(t.consumers, 0x1_0000) && Reverses(t.consumers, map[], t.consumerNames)
    && GoodModifiers(t.modOrder, t.modBits)
  }

  // ----- colours and modes

  const HASH: Byte := 35

  function FormatRgb(c: Rgb): Line {
    [HASH] + (UpperHex(c.r, 2) + (UpperHex(c.g, 2) + UpperHex(c.b, 2)))
  }

  function HexPair(s: Line): Option<nat> {
    ParseNumeric(HEX_UPPER + Upper(s), 0x100)
  }

  /** "#RRGGBB" or "RRGGBB" in either case. */
  function ParseRgb(s: Line): Option<Rgb> {
    var t := Strip(s);
    var h := if t != [] && t[0] == HASH then t[1..] else t;
    if |h| != 6 then None
    else
      match (HexPair(h[0..2]), HexPair(h[2..4]), HexPair(h[4..6]))
      case (Some(r), Some(g), Some(b)) => if r < 256 && g < 256 && b < 256 then Some(Rgb(r, g, b)) else None
      case _ => None
  }

  const OVERFLOW_NAMES: seq<Line> := [Ascii("wrap"), Ascii("wrap_cancel"), Ascii("clamp")]
  const IDLE_NAMES: seq<Line> := [Ascii("off"), Ascii("solid"), Ascii("breathe"), Ascii("rainbow")]

  /** The name at a mode's place; a mode without one renders as the empty string. */
  function ModeName(names: seq<Line>, mode: nat): Line {
    if mode < |names| then names[mode] else []
  }

  /** The place of a name, the empty string standing for the first; any case, any margin. */
  function ParseMode(names: seq<Line>, s: Line): Option<nat> {
    var key := Lower(Strip(s));
    if key == [] then Some(0) else IndexOf(names, key)
  }

  function IndexOf(names: seq<Line>, key: Line): (r: Option<nat>)
    ensures r.Some? ==> r.value < |names|
  {
    if names == [] then None
    else if names[0] == key then Some(0)
    else
      match IndexOf(names[1..], key)
      case Some(i) => Some(i + 1)
      case None => None
  }

  // ----- to JSON

  function StepToJson(t: Tables, s: Step): JsonStep
    requires |t.modOrder| == 8
  {
    match s
    case Key(keycode, mods) =>
      JsonStep(CodeName(t.keyNames, 2, keycode), ModNames(t.modOrder, mods), [], [], None)
    case Text(text) => JsonStep([], [], text, [], None)
    case Consumer(code) => JsonStep([], [], [], CodeName(t.consumerNames, 4, code), None)
    case Delay(ms) => JsonStep([], [], [], [], Some(ms))
    case Unknown(_) => JsonStep([], [], [], [], Some(0))
  }

  function StepsToJson(t: Tables, steps: seq<Step>): seq<JsonStep>
    requires |t.modOrder| == 8
  {
    if steps == [] then [] else StepsToJson(t, steps[..|steps| - 1]) + [StepToJson(t, steps[|steps| - 1])]
  }

  function BindingToJson(t: Tables, b: Binding): JsonBinding
    requires |t.modOrder| == 8
  {
    JsonBinding(FormatRgb(b.color), StepsToJson(t, b.steps))
  }

  function BindingsToJson(t: Tables, bs: seq<Binding>): seq<JsonBinding>
    requires |t.modOrder| == 8
  {
    if bs == [] then [] else BindingsToJson(t, bs[..|bs| - 1]) + [BindingToJson(t, bs[|bs| - 1])]
  }

  function ProfileToJson(t: Tables, p: Profile): JsonProfile
    requires |t.modOrder| == 8
  {
    JsonProfile(p.name, p.dwellMs, p.tapMaxMs, ModeName(OVERFLOW_NAMES, p.overflow), p.extCount, p.brightness,
                ModeName(IDLE_NAMES, p.idleMode), FormatRgb(p.idleColor), BindingToJson(t, p.tap),
                BindingsToJson(t, p.slots))
  }

  // ----- from JSON

  /** How many of the four forms a step sets. */
  function FormsSet(js: JsonStep): nat {
    (if js.key != [] then 1 else 0) + (if js.text != [] then 1 else 0)
    + (if js.consumer != [] then 1 else 0) + (if js.delayMs.Some? then 1 else 0)
  }

  function StepFromJson(t: Tables, js: JsonStep): Result<Step> {
    if FormsSet(js) != 1 then Err
    else if js.mods != [] && js.key == [] then Err
    else if js.key != [] then
      match (Lookup(t.keycodes, 0x100, js.key), LookupMods(t.modBits, js.mods))
      case (Some(code), Some(mods)) => if code < 0x100 && mods < 0x100 then Ok(Key(code, mods)) else Err
      case _ => Err
    else if js.text != [] then Ok(Text(js.text))
    else if js.consumer != [] then
      match Lookup(t.consumers, 0x1_0000, js.consumer)
      case Some(code) => if code < 0x1_0000 then Ok(Consumer(code)) else Err
      case None => Err
    else Ok(Delay(js.delayMs.value))
  }

  function StepsFromJson(t: Tables, steps: seq<JsonStep>): Result<seq<Step>> {
    if steps == [] then Ok([])
    else
      var front :- StepsFromJson(t, steps[..|steps| - 1]);
      var last :- StepFromJson(t, steps[|steps| - 1]);
      Ok(front + [last])
  }

  function BindingFromJson(t: Tables, jb: JsonBinding): Result<Binding> {
    match ParseRgb(jb.color)
    case None => Err
    case Some(color) =>
      var steps :- StepsFromJson(t, jb.steps);
      Ok(Binding(color, steps))
  }

  function BindingsFromJson(t: Tables, bs: seq<JsonBinding>): Result<seq<Binding>> {
    if bs == [] then Ok([])
    else
      var front :- BindingsFromJson(t, bs[..|bs| - 1]);
      var last :- BindingFromJson(t, bs[|bs| - 1]);
      Ok(front + [last])
  }

  function ProfileFromJson(t: Tables, jp: JsonProfile): Result<Profile> {
    match (ParseMode(OVERFLOW_NAMES, jp.overflow), ParseMode(IDLE_NAMES, jp.idleMode), ParseRgb(jp.idleColor))
    case (Some(overflow), Some(idleMode), Some(idleColor)) =>
      if overflow >= 256 || idleMode >= 256 then Err
      else
        var tap :- BindingFromJson(t, jp.tap);
        var slots :- BindingsFromJson(t, jp.slots);
        Ok(Profile(jp.name, jp.dwellMs, jp.tapMaxMs, overflow, jp.extCount, jp.brightness, idleMode, idleColor,
                   tap, slots))
    case _ => Err
  }

  // ----- the loops

  method ConvertBinding(t: Tables, b: Binding) returns (jb: JsonBinding)
    requires |t.modOrder| == 8
    ensures jb == BindingToJson(t, b)
  {
    hide StepToJson, FormatRgb;
    var steps: seq<JsonStep> := [];
    for i := 0 to |b.steps|
      invariant steps == StepsToJson(t, b.steps[..i])
    {
      assert b.steps[..i + 1][..i] == b.steps[..i];
      steps := steps + [StepToJson(t, b.steps[i])];
    }
    assert b.steps[..|b.steps|] == b.steps;
    return JsonBinding(FormatRgb(b.color), steps);
  }

  method ConvertProfile(t: Tables, p: Profile) returns (jp: JsonProfile)
    requires |t.modOrder| == 8
    ensures jp == ProfileToJson(t, p)
  {
    hide BindingToJson, FormatRgb, ModeName;
    var tap := ConvertBinding(t, p.tap);
    var slots: seq<JsonBinding> := [];
    for i := 0 to |p.slots|
      invariant slots == BindingsToJson(t, p.slots[..i])
    {
      var slot := ConvertBinding(t, p.slots[i]);
      assert p.slots[..i + 1][..i] == p.slots[..i];
      slots := slots + [slot];
    }
    assert p.slots[..|p.slots|] == p.slots;
    return JsonProfile(p.name, p.dwellMs, p.tapMaxMs, ModeName(OVERFLOW_NAMES, p.overflow), p.extCount, p.brightness,
                       ModeName(IDLE_NAMES, p.idleMode), FormatRgb(p.idleColor), tap, slots);
  }

  method ReadBinding(t: Tables, jb: JsonBinding) returns (r: Result<Binding>)
    ensures r == BindingFromJson(t, jb)
  {
    hide StepFromJson, ParseRgb;
    var color := ParseRgb(jb.color);
    if color.None? {
      return Err;
    }
    var steps: seq<Step> := [];
    for i := 0 to |jb.steps|
      invariant StepsFromJson(t, jb.steps[..i]) == Ok(steps)
    {
      assert jb.steps[..i + 1][..i] == jb.steps[..i];
      var s := StepFromJson(t, jb.steps[i]);
      if s.Err? {
        BadStepStays(t, jb.steps, i + 1);
        return Err;
      }
      steps := steps + [s.value];
    }
    assert jb.steps[..|jb.steps|] == jb.steps;
    return Ok(Binding(color.value, steps));
  }

  method ReadProfile(t: Tables, jp: JsonProfile) returns (r: Result<Profile>)
    ensures r == ProfileFromJson(t, jp)
  {
    hide BindingFromJson, ParseRgb, ParseMode;
    var overflow, idleMode := ParseMode(OVERFLOW_NAMES, jp.overflow), ParseMode(IDLE_NAMES, jp.idleMode);
    var idleColor := ParseRgb(jp.idleColor);
    if overflow.None? || idleMode.None? || idleColor.None? || overflow.value >= 256 || idleMode.value >= 256 {
      return Err;
    }
    var tap :- ReadBinding(t, jp.tap);
    var slots: seq<Binding> := [];
    for i := 0 to |jp.slots|
      invariant BindingsFromJson(t, jp.slots[..i]) == Ok(slots)
    {
      assert jp.slots[..i + 1][..i] == jp.slots[..i];
      var b := ReadBinding(t, jp.slots[i]);
      if b.Err? {
        BadBindingStays(t, jp.slots, i + 1);
        return Err;
      }
      slots := slots + [b.value];
    }
    assert jp.slots[..|jp.slots|] == jp.slots;
    return Ok(Profile(jp.name, jp.dwellMs, jp.tapMaxMs, overflow.value, jp.extCount, jp.brightness, idleMode.value,
                      idleColor.value, tap, slots));
  }

  lemma {:induction false} BadBindingStays(t: Tables, bs: seq<JsonBinding>, i: nat)
    requires i <= |bs| && BindingsFromJson(t, bs[..i]).Err?
    ensures BindingsFromJson(t, bs).Err?
    decreases |bs|
  {
    hide BindingFromJson;
    if i < |bs| {
      assert bs[..|bs| - 1][..i] == bs[..i];
      BadBindingStays(t, bs[..|bs| - 1], i);
    } else {
      assert bs[..i] == bs;
    }
  }

  lemma {:induction false} BadStepStays(t: Tables, steps: seq<JsonStep>, i: nat)
    requires i <= |steps| && StepsFromJson(t, steps[..i]).Err?
    ensures StepsFromJson(t, steps).Err?
    decreases |steps|
  {
    hide StepFromJson;
    if i < |steps| {
      assert steps[..|steps| - 1][..i] == steps[..i];
      BadStepStays(t, steps[..|steps| - 1], i);
    } else {
      assert steps[..i] == steps;
    }
  }

  // ----- the round trip

  lemma PairRoundTrip(b: Byte)
    ensures |UpperHex(b, 2)| == 2 && HexPair(UpperHex(b, 2)) == Some(b)
  {
    hide UpperHex, DigitsValue;
    assert Pow16(2) == 0x100;
    UpperHexDigits(b, 2);
    var s := UpperHex(b, 2);
    assert Upper(s) == s;
    assert HEX_UPPER <= HEX_UPPER + s && (HEX_UPPER + s)[2..] == s;
  }

  lemma RgbRoundTrip(c: Rgb)
    ensures ParseRgb(FormatRgb(c)) == Some(c)
  {
    hide UpperHex, HexPair, Strip;
    PairRoundTrip(c.r);
    PairRoundTrip(c.g);
    PairRoundTrip(c.b);
    var r, g, b := UpperHex(c.r, 2), UpperHex(c.g, 2), UpperHex(c.b, 2);
    var s := FormatRgb(c);
    assert Pow16(2) == 0x100;
    UpperHexDigits(c.b, 2);
    assert s[|s| - 1] == b[1];
    StripPlain(s);
    var h := s[1..];
    assert h == r + (g + b);
    assert h[0..2] == r && h[2..4] == g && h[4..6] == b;
  }

  lemma OverflowRoundTrip(mode: nat)
    requires mode < 3
    ensures ParseMode(OVERFLOW_NAMES, ModeName(OVERFLOW_NAMES, mode)) == Some(mode)
  {
    hide Strip, Lower;
    ModeText(OVERFLOW_NAMES[mode]);
    assert OVERFLOW_NAMES[1..][0] == OVERFLOW_NAMES[1] && OVERFLOW_NAMES[1..][1..][0] == OVERFLOW_NAMES[2];
  }

  lemma IdleRoundTrip(mode: nat)
    requires mode < 4
    ensures ParseMode(IDLE_NAMES, ModeName(IDLE_NAMES, mode)) == Some(mode)
  {
    hide Strip, Lower;
    ModeText(IDLE_NAMES[mode]);
    var names := IDLE_NAMES;
    assert names[1..][0] == names[1] && names[1..][1..][0] == names[2] && names[1..][1..][1..][0] == names[3];
    assert names[1][0] == 115 && names[2][0] == 98 && names[3][0] == 114;
  }

  lemma ModeText(s: Line)
    requires s != [] && forall c <- s :: 97 <= c <= 122 || c == 95
    ensures Lower(Strip(s)) == s
  {
    hide Strip;
    assert s[0] in s && s[|s| - 1] in s;
    StripPlain(s);
    forall i | 0 <= i < |s|
      ensures Lower(s)[i] == s[i]
    {
      assert s[i] in s;
    }
  }

  /**
   Every step survives but two: an empty text, which is refused, and a step of unknown type, which
   turns into a delay of 0.
   */
  lemma StepRoundTrip(t: Tables, s: Step)
    requires GoodTables(t)
    ensures StepFromJson(t, StepToJson(t, s))
         == if s.Unknown? then Ok(Delay(0)) else if s == Text([]) then Err else Ok(s)
    ensures ValidStep(s) ==> StepFromJson(t, StepToJson(t, s)) == Ok(s)
  {
    hide GoodTable, Reverses, CodeName, Lookup, LookupMods, ModNames;
    assert Pow16(2) == 0x100 && Pow16(4) == 0x1_0000;
    match s
    case Key(keycode, mods) =>
      LookupCodeName(t.keycodes, t.fixedKeys, t.keyNames, 2, keycode);
      ModsRoundTrip(t.modOrder, t.modBits, mods);
    case Consumer(code) =>
      LookupCodeName(t.consumers, map[], t.consumerNames, 4, code);
    case _ =>
  }

  lemma {:induction false} StepsRoundTrip(t: Tables, steps: seq<Step>)
    requires GoodTables(t) && forall s <- steps :: ValidStep(s)
    ensures StepsFromJson(t, StepsToJson(t, steps)) == Ok(steps)
  {
    hide GoodTable, Reverses, StepToJson, StepFromJson;
    if steps != [] {
      var front, last := steps[..|steps| - 1], steps[|steps| - 1];
      assert ValidStep(last);
      StepsRoundTrip(t, front);
      StepRoundTrip(t, last);
      var js := StepsToJson(t, steps);
      assert js[..|js| - 1] == StepsToJson(t, front);
      assert front + [last] == steps;
    }
  }

  lemma BindingRoundTrip(t: Tables, b: Binding)
    requires GoodTables(t) && ValidBinding(b)
    ensures BindingFromJson(t, BindingToJson(t, b)) == Ok(b)
  {
    hide GoodTable, Reverses, GoodModifiers, StepsToJson, StepsFromJson, FormatRgb, ParseRgb;
    RgbRoundTrip(b.color);
    StepsRoundTrip(t, b.steps);
  }

  lemma {:induction false} BindingsRoundTrip(t: Tables, bs: seq<Binding>)
    requires GoodTables(t) && forall b <- bs :: ValidBinding(b)
    ensures BindingsFromJson(t, BindingsToJson(t, bs)) == Ok(bs)
  {
    hide GoodTable, Reverses, BindingToJson, BindingFromJson, ValidBinding;
    if bs != [] {
      var front, last := bs[..|bs| - 1], bs[|bs| - 1];
      assert ValidBinding(last);
      BindingsRoundTrip(t, front);
      BindingRoundTrip(t, last);
      var js := BindingsToJson(t, bs);
      assert js[..|js| - 1] == BindingsToJson(t, front);
      assert front + [last] == bs;
    }
  }

  /** Every profile the CLI validates survives the trip through its editable form. */
  lemma ProfileRoundTrip(t: Tables, p: Profile)
    requires GoodTables(t) && ValidProfile(p)
    ensures ProfileFromJson(t, ProfileToJson(t, p)) == Ok(p)
  {
    hide GoodTable, Reverses, GoodModifiers, BindingToJson, BindingFromJson, BindingsToJson, BindingsFromJson,
      FormatRgb, ParseRgb, ParseMode, ModeName, ValidBinding;
    OverflowRoundTrip(p.overflow);
    IdleRoundTrip(p.idleMode);
    RgbRoundTrip(p.idleColor);
    BindingRoundTrip(t, p.tap);
    BindingsRoundTrip(t, p.slots);
  }

  // ----- the whole document

  datatype JsonConfig = JsonConfig(format: Byte, active: int, profiles: seq<JsonProfile>)

  function ProfilesToJson(t: Tables, ps: seq<Profile>): seq<JsonProfile>
    requires |t.modOrder| == 8
  {
    if ps == [] then [] else ProfilesToJson(t, ps[..|ps| - 1]) + [ProfileToJson(t, ps[|ps| - 1])]
  }

  function ProfilesFromJson(t: Tables, ps: seq<JsonProfile>): Result<seq<Profile>> {
    if ps == [] then Ok([])
    else
      var front :- ProfilesFromJson(t, ps[..|ps| - 1]);
      var last :- ProfileFromJson(t, ps[|ps| - 1]);
      Ok(front + [last])
  }

  function ToJson(t: Tables, c: Config): JsonConfig
    requires |t.modOrder| == 8
  {
    JsonConfig(c.version, c.active, ProfilesToJson(t, c.profiles))
  }

  /** A missing format number reads as 0 and stands for the current one. */
  function FromJson(t: Tables, jc: JsonConfig): Result<Config> {
    var ps :- ProfilesFromJson(t, jc.profiles);
    Ok(Config(if jc.format == 0 then FORMAT_VERSION else jc.format, jc.active, ps))
  }

  lemma {:induction false} ProfilesRoundTrip(t: Tables, ps: seq<Profile>)
    requires GoodTables(t) && forall p <- ps :: ValidProfile(p)
    ensures ProfilesFromJson(t, ProfilesToJson(t, ps)) == Ok(ps)
  {
    hide GoodTable, Reverses, ProfileToJson, ProfileFromJson, ValidProfile;
    if ps != [] {
      var front, last := ps[..|ps| - 1], ps[|ps| - 1];
      assert ValidProfile(last);
      ProfilesRoundTrip(t, front);
      ProfileRoundTrip(t, last);
      var js := ProfilesToJson(t, ps);
      assert js[..|js| - 1] == ProfilesToJson(t, front);
      assert front + [last] == ps;
    }
  }

  /** Downloading a configuration for editing and reading it back loses nothing. */
  lemma ConfigRoundTrip(t: Tables, c: Config)
    requires GoodTables(t) && Valid(c)
    ensures FromJson(t, ToJson(t, c)) == Ok(c)
  {
    hide GoodTable, Reverses, ProfilesToJson, ProfilesFromJson, ValidProfile, ConfigSize;
    ProfilesRoundTrip(t, c.profiles);
  }

  /**
   Exactly the steps that set one form, with modifiers for a key only, are read, and as what: a step
   with none of the forms or with two is refused, and so are unknown names.
   */
  lemma StepReadIff(t: Tables, js: JsonStep, s: Step)
    ensures StepFromJson(t, js) == Ok(s)
       <==> match s
            case Key(code, mods) =>
              && js.key != [] && js.text == [] && js.consumer == [] && js.delayMs == None
              && Lookup(t.keycodes, 0x100, js.key) == Some(code as nat)
              && LookupMods(t.modBits, js.mods) == Some(mods as nat)
            case Text(text) => text != [] && js == JsonStep([], [], text, [], None)
            case Consumer(code) =>
              && js == JsonStep([], [], [], js.consumer, None) && js.consumer != []
              && Lookup(t.consumers, 0x1_0000, js.consumer) == Some(code as nat)
            case Delay(ms) => js == JsonStep([], [], [], [], Some(ms))
            case Unknown(_) => false
  {
    hide Lookup, LookupMods;
  }

  /** A colour is printed red, green, blue, two capital digits each. */
  lemma RgbDigits(c: Rgb)
    ensures FormatRgb(c)
         == [35, UpperHexDigit(c.r / 16), UpperHexDigit(c.r % 16), UpperHexDigit(c.g / 16), UpperHexDigit(c.g % 16),
             UpperHexDigit(c.b / 16), UpperHexDigit(c.b % 16)]
  {
    hide UpperHexDigit;
    TwoDigits(c.r);
    TwoDigits(c.g);
    TwoDigits(c.b);
  }

  lemma TwoDigits(b: Byte)
    ensures UpperHex(b, 2) == [UpperHexDigit(b / 16), UpperHexDigit(b % 16)]
  {
    hide UpperHexDigit;
    assert b / 16 % 16 == b / 16;
    assert UpperHex(b / 16, 1) == UpperHex(b / 16 / 16, 0) + [UpperHexDigit(b / 16 % 16)];
  }

  /** Any spelling of those digits reads as the colour: in either case, with or without the mark. */
  lemma RgbAnyCase(c: Rgb, digits: Line)
    requires Upper(digits) == FormatRgb(c)[1..]
    ensures ParseRgb(digits) == Some(c) && ParseRgb([35] + digits) == Some(c)
  {
    hide UpperHex, HexPair, Strip, UpperByte;
    PairRoundTrip(c.r);
    PairRoundTrip(c.g);
    PairRoundTrip(c.b);
    var r, g, b := UpperHex(c.r, 2), UpperHex(c.g, 2), UpperHex(c.b, 2);
    assert FormatRgb(c)[1..] == r + (g + b);
    SpelledPair(c.r, digits[0..2], digits, 0);
    SpelledPair(c.g, digits[2..4], digits, 2);
    SpelledPair(c.b, digits[4..6], digits, 4);
    StripPlain(digits);
    StripPlain([35] + digits);
    assert ([35] + digits)[1..] == digits;
  }

  lemma SpelledPair(v: Byte, pair: Line, digits: Line, at: nat)
    requires at + 2 <= |digits| && pair == digits[at..at + 2] && Upper(digits)[at..at + 2] == UpperHex(v, 2)
    ensures HexPair(pair) == Some(v)
    ensures forall i :: at <= i < at + 2 ==> !Whitespace(digits[i]) && digits[i] != 35
  {
    hide UpperHex, DigitsValue;
    assert Pow16(2) == 0x100;
    UpperHexDigits(v, 2);
    PairRoundTrip(v);
    var s := UpperHex(v, 2);
    assert Upper(pair) == s && Upper(s) == s;
    forall i | at <= i < at + 2
      ensures !Whitespace(digits[i]) && digits[i] != 35
    {
      assert UpperByte(digits[i]) == s[i - at];
    }
  }
}
