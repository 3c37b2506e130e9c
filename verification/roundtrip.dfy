/** The parser undoes the printer, the sizes agree, and decoding is bounded and self-delimiting. */
module RoundTrip {
  import opened Bytes
  import opened Configs
  import opened Crc
  import opened Format
  import Utf8

  // ----- sizes

  lemma {:induction false} EncodedStepsSize(steps: seq<Step>)
    requires forall s <- steps :: EncodableStep(s)
    ensures |EncodeSteps(steps)| == StepsSize(steps)
  {
    if steps != [] {
      var last := steps[|steps| - 1];
      assert EncodableStep(last);
      EncodedStepsSize(steps[..|steps| - 1]);
    }
  }

  lemma EncodedBindingSize(b: Binding)
    requires EncodableBinding(b)
    ensures |EncodeBinding(b)| == BindingSize(b)
  {
    EncodedStepsSize(b.steps);
  }

  lemma {:induction false} EncodedBindingsSize(bs: seq<Binding>)
    requires forall b <- bs :: EncodableBinding(b)
    ensures |EncodeBindings(bs)| == BindingsSize(bs)
  {
    if bs != [] {
      EncodedBindingsSize(bs[..|bs| - 1]);
      EncodedBindingSize(bs[|bs| - 1]);
    }
  }

  lemma EncodedProfileSize(p: Profile)
    requires EncodableProfile(p)
    ensures |EncodeProfile(p)| == ProfileSize(p)
  {
    EncodedBindingSize(p.tap);
    EncodedBindingsSize(p.slots);
  }

  lemma {:induction false} EncodedProfilesSize(ps: seq<Profile>)
    requires forall p <- ps :: EncodableProfile(p)
    ensures |EncodeProfiles(ps)| == ProfilesSize(ps)
  {
    if ps != [] {
      EncodedProfilesSize(ps[..|ps| - 1]);
      EncodedProfileSize(ps[|ps| - 1]);
    }
  }

  lemma {:induction false} EncodedOffsetsSize(base: nat, ps: seq<Profile>)
    ensures |EncodeOffsets(base, ps)| == 2 * |ps|
  {
    if ps != [] {
      EncodedOffsetsSize(base, ps[..|ps| - 1]);
    }
  }

  lemma HeaderSize(c: Config)
    ensures |EncodeHeader(c)| == HEADER_BASE
  {
  }

  /** The size the CLI budgets with is the size the encoders produce. */
  lemma EncodedSize(c: Config)
    requires forall p <- c.profiles :: EncodableProfile(p)
    ensures |Encode(c)| == ConfigSize(c)
    ensures |EncodeBody(c)| == ConfigSize(c) - 2
  {
    EncodedOffsetsSize(HEADER_BASE + 2 * |c.profiles|, c.profiles);
    EncodedProfilesSize(c.profiles);
    HeaderSize(c);
  }

  lemma StorableIsEncodable(d: Dialect, c: Config)
    requires Storable(d, c)
    ensures forall p <- c.profiles :: EncodableProfile(p)
    ensures ConfigSize(c) <= NVM_SIZE ==> Encodable(c)
  {
    hide Utf8.WellFormed, ConfigSize;
    forall p | p in c.profiles
      ensures EncodableProfile(p)
    {
      assert StorableProfile(d, p);
      StorableBindingIsEncodable(d, p.tap);
      forall b | b in p.slots
        ensures EncodableBinding(b)
      {
        StorableBindingIsEncodable(d, b);
      }
    }
  }

  lemma StorableBindingIsEncodable(d: Dialect, b: Binding)
    requires StorableBinding(d, b)
    ensures EncodableBinding(b)
  {
    hide Utf8.WellFormed;
    forall s | s in b.steps
      ensures EncodableStep(s)
    {
      assert StorableStep(d, s);
    }
  }

  // ----- printing one more record

  lemma EncodeStepsNext(steps: seq<Step>, i: nat)
    requires i < |steps|
    ensures EncodeSteps(steps[..i + 1]) == EncodeSteps(steps[..i]) + EncodeStep(steps[i])
  {
    hide EncodeStep;
    assert steps[..i + 1][..i] == steps[..i];
  }

  lemma EncodeBindingsNext(bs: seq<Binding>, i: nat)
    requires i < |bs|
    ensures EncodeBindings(bs[..i + 1]) == EncodeBindings(bs[..i]) + EncodeBinding(bs[i])
  {
    hide EncodeBinding;
    assert bs[..i + 1][..i] == bs[..i];
  }

  lemma EncodeProfilesNext(base: nat, ps: seq<Profile>, i: nat)
    requires i < |ps|
    ensures EncodeProfiles(ps[..i + 1]) == EncodeProfiles(ps[..i]) + EncodeProfile(ps[i])
    ensures EncodeOffsets(base, ps[..i + 1])
         == EncodeOffsets(base, ps[..i]) + U16LE(base + |EncodeProfiles(ps[..i])|)
  {
    hide EncodeProfile, U16LE;
    assert ps[..i + 1][..i] == ps[..i];
  }

  lemma EncodeNothing()
    ensures EncodeSteps([]) == [] && EncodeBindings([]) == [] && EncodeProfiles([]) == []
    ensures forall base :: EncodeOffsets(base, []) == []
  {
  }

  lemma ProfileConcat(p: Profile, head: seq<Byte>)
    requires head == EncodeName(p.name) + U16LE(p.dwellMs) + U16LE(p.tapMaxMs) + EncodeModes(p)
                     + EncodeRgb(p.idleColor) + [Low(|p.slots|)]
    ensures head + EncodeBinding(p.tap) + EncodeBindings(p.slots) == EncodeProfile(p)
  {
    hide EncodeName, U16LE, EncodeModes, EncodeRgb, EncodeBinding, EncodeBindings;
    var slots := EncodeBinding(p.tap) + EncodeBindings(p.slots);
    assert EncodeSlots(p) == [Low(|p.slots|)] + slots;
    assert EncodeProfile(p) == EncodeName(p.name) + (U16LE(p.dwellMs) + (U16LE(p.tapMaxMs) + (EncodeModes(p)
      + (EncodeRgb(p.idleColor) + EncodeSlots(p)))));
  }

  // ----- records

  lemma ReadU16At(buf: seq<Byte>, pos: nat, v: U16)
    requires At(buf, pos, U16LE(v))
    ensures ReadU16(buf, pos) == Got(v, pos + 2)
  {
    assert buf[pos..pos + 2][0] == U16LE(v)[0];
    assert buf[pos..pos + 2][1] == U16LE(v)[1];
  }

  lemma ReadU8At(buf: seq<Byte>, pos: nat, v: Byte)
    requires At(buf, pos, [v])
    ensures ReadU8(buf, pos) == Got(v, pos + 1)
  {
    assert buf[pos..pos + 1][0] == v;
  }

  lemma TaggedU16At(buf: seq<Byte>, pos: nat, tag: Byte, v: U16)
    requires At(buf, pos, [tag] + U16LE(v))
    ensures ReadU8(buf, pos) == Got(tag, pos + 1) && ReadU16(buf, pos + 1) == Got(v, pos + 3)
  {
    hide At, ReadU8, ReadU16;
    AtSplit(buf, pos, [tag], U16LE(v));
    ReadU8At(buf, pos, tag);
    ReadU16At(buf, pos + 1, v);
  }

  lemma TextAt(buf: seq<Byte>, pos: nat, text: seq<Byte>)
    requires |text| < 256 && At(buf, pos, [1, Low(|text|)] + text)
    ensures ReadU8(buf, pos) == Got(1, pos + 1) && ReadU8(buf, pos + 1) == Got(|text|, pos + 2)
    ensures ReadBytes(buf, pos + 2, |text|) == Got(text, pos + 2 + |text|)
  {
    AtSplit(buf, pos, [1, Low(|text|)], text);
    assert buf[pos..pos + 2][0] == 1 && buf[pos..pos + 2][1] == |text|;
  }

  lemma StepRoundTrip(d: Dialect, s: Step, buf: seq<Byte>, pos: nat)
    requires StorableStep(d, s) && At(buf, pos, EncodeStep(s))
    ensures ParseStep(d, buf, pos) == Got(s, pos + |EncodeStep(s)|)
  {
    hide Utf8.WellFormed, U16LE;
    match s
    case Key(keycode, mods) =>
      AtIndex(buf, pos, EncodeStep(s), 0);
      AtIndex(buf, pos, EncodeStep(s), 1);
      AtIndex(buf, pos, EncodeStep(s), 2);
    case Text(text) => TextAt(buf, pos, text);
    case Consumer(code) => TaggedU16At(buf, pos, 2, code);
    case Delay(ms) => TaggedU16At(buf, pos, 3, ms);
  }

  lemma {:induction false} StepsRoundTrip(d: Dialect, steps: seq<Step>, buf: seq<Byte>, pos: nat)
    requires (forall s <- steps :: StorableStep(d, s)) && At(buf, pos, EncodeSteps(steps))
    ensures ParseSteps(d, buf, pos, |steps|) == Got(steps, pos + |EncodeSteps(steps)|)
  {
    hide At, EncodeStep, ParseStep, StorableStep;
    if steps != [] {
      var front, last := steps[..|steps| - 1], steps[|steps| - 1];
      AtSplit(buf, pos, EncodeSteps(front), EncodeStep(last));
      StepsRoundTrip(d, front, buf, pos);
      StepRoundTrip(d, last, buf, pos + |EncodeSteps(front)|);
      assert steps == front + [last];
    }
  }

  lemma RgbSize(c: Rgb)
    ensures |EncodeRgb(c)| == 3
  {
  }

  lemma RgbRoundTrip(c: Rgb, buf: seq<Byte>, pos: nat)
    requires At(buf, pos, EncodeRgb(c))
    ensures ParseRgb(buf, pos) == Got(c, pos + 3)
  {
  }

  lemma BindingRoundTrip(d: Dialect, b: Binding, buf: seq<Byte>, pos: nat)
    requires StorableBinding(d, b) && At(buf, pos, EncodeBinding(b))
    ensures ParseBinding(d, buf, pos) == Got(b, pos + |EncodeBinding(b)|)
  {
    hide At, EncodeSteps, ParseSteps, EncodeRgb, ParseRgb, StorableStep;
    var count := [Low(|b.steps|)];
    RgbSize(b.color);
    AtSplit(buf, pos, EncodeRgb(b.color), count + EncodeSteps(b.steps));
    AtSplit(buf, pos + 3, count, EncodeSteps(b.steps));
    RgbRoundTrip(b.color, buf, pos);
    ReadU8At(buf, pos + 3, count[0]);
    StepsRoundTrip(d, b.steps, buf, pos + 4);
  }

  lemma {:induction false} BindingsRoundTrip(d: Dialect, bs: seq<Binding>, buf: seq<Byte>, pos: nat)
    requires (forall b <- bs :: StorableBinding(d, b)) && At(buf, pos, EncodeBindings(bs))
    ensures ParseBindings(d, buf, pos, |bs|) == Got(bs, pos + |EncodeBindings(bs)|)
  {
    hide At, EncodeBinding, ParseBinding, StorableBinding;
    if bs != [] {
      var front, last := bs[..|bs| - 1], bs[|bs| - 1];
      AtSplit(buf, pos, EncodeBindings(front), EncodeBinding(last));
      BindingsRoundTrip(d, front, buf, pos);
      BindingRoundTrip(d, last, buf, pos + |EncodeBindings(front)|);
      assert bs == front + [last];
    }
  }

  lemma NameRoundTrip(d: Dialect, name: seq<Byte>, buf: seq<Byte>, pos: nat)
    requires |name| <= MAX_NAME_LEN && GoodText(d, name) && At(buf, pos, EncodeName(name))
    ensures ParseName(d, buf, pos) == Got(name, pos + 1 + |name|)
  {
    AtSplit(buf, pos, [Low(|name|)], name);
    ReadU8At(buf, pos, Low(|name|));
  }

  lemma ProfileFieldsAt(p: Profile, buf: seq<Byte>, pos: nat)
    requires At(buf, pos, EncodeProfile(p))
    ensures
      var p1 := pos + 1 + |p.name|;
      && At(buf, pos, EncodeName(p.name))
      && At(buf, p1, U16LE(p.dwellMs)) && At(buf, p1 + 2, U16LE(p.tapMaxMs))
      && At(buf, p1 + 4, EncodeModes(p)) && At(buf, p1 + 8, EncodeRgb(p.idleColor))
      && At(buf, p1 + 11, EncodeSlots(p))
  {
    hide At, EncodeSlots;
    var slots := EncodeSlots(p);
    var colour := EncodeRgb(p.idleColor) + slots;
    var modes := EncodeModes(p) + colour;
    var taps := U16LE(p.tapMaxMs) + modes;
    var p1 := pos + 1 + |p.name|;
    AtSplit(buf, pos, EncodeName(p.name), U16LE(p.dwellMs) + taps);
    AtSplit(buf, p1, U16LE(p.dwellMs), taps);
    AtSplit(buf, p1 + 2, U16LE(p.tapMaxMs), modes);
    AtSplit(buf, p1 + 4, EncodeModes(p), colour);
    AtSplit(buf, p1 + 8, EncodeRgb(p.idleColor), slots);
  }

  lemma SlotsRoundTrip(d: Dialect, p: Profile, buf: seq<Byte>, pos: nat)
    requires StorableProfile(d, p) && At(buf, pos, EncodeSlots(p))
    ensures ReadU8(buf, pos) == Got(|p.slots|, pos + 1)
    ensures
      var q := pos + 1 + |EncodeBinding(p.tap)|;
      && ParseBinding(d, buf, pos + 1) == Got(p.tap, q)
      && ParseBindings(d, buf, q, |p.slots|) == Got(p.slots, pos + |EncodeSlots(p)|)
  {
    hide At, EncodeBinding, ParseBinding, EncodeBindings, ParseBindings, StorableBinding;
    var tap, slots := EncodeBinding(p.tap), EncodeBindings(p.slots);
    AtSplit(buf, pos, [Low(|p.slots|)], tap + slots);
    AtSplit(buf, pos + 1, tap, slots);
    ReadU8At(buf, pos, Low(|p.slots|));
    BindingRoundTrip(d, p.tap, buf, pos + 1);
    BindingsRoundTrip(d, p.slots, buf, pos + 1 + |tap|);
  }

  lemma ModesAt(p: Profile, buf: seq<Byte>, pos: nat)
    requires At(buf, pos, EncodeModes(p))
    ensures ReadBytes(buf, pos, 4) == Got([p.overflow, p.extCount, p.brightness, p.idleMode], pos + 4)
  {
  }

  lemma ProfileLength(p: Profile)
    ensures |EncodeProfile(p)| == 12 + |p.name| + |EncodeSlots(p)|
  {
    hide EncodeSlots;
  }

  lemma ProfileRoundTrip(d: Dialect, p: Profile, buf: seq<Byte>, pos: nat)
    requires StorableProfile(d, p) && At(buf, pos, EncodeProfile(p))
    ensures ParseProfile(d, buf, pos) == Got(p, pos + |EncodeProfile(p)|)
  {
    hide At, EncodeProfile, EncodeName, ParseName, ParseRgb, EncodeRgb, ParseBinding, ParseBindings,
      EncodeSlots, ReadU16, ReadU8, ReadBytes, StorableBinding, U16LE, GoodText, EncodeModes;
    var p1 := pos + 1 + |p.name|;
    ProfileFieldsAt(p, buf, pos);
    NameRoundTrip(d, p.name, buf, pos);
    ReadU16At(buf, p1, p.dwellMs);
    ReadU16At(buf, p1 + 2, p.tapMaxMs);
    ModesAt(p, buf, p1 + 4);
    RgbRoundTrip(p.idleColor, buf, p1 + 8);
    SlotsRoundTrip(d, p, buf, p1 + 11);
    ProfileLength(p);
  }

  // ----- the offset table

  lemma {:induction false} OffsetAt(base: nat, ps: seq<Profile>, i: nat)
    requires i < |ps| && base + |EncodeProfiles(ps)| < 0x1_0000
    ensures |EncodeOffsets(base, ps)| == 2 * |ps|
    ensures U16At(EncodeOffsets(base, ps), 2 * i) == base + |EncodeProfiles(ps[..i])|
    ensures |EncodeProfiles(ps[..i])| + |EncodeProfile(ps[i])| <= |EncodeProfiles(ps)|
  {
    hide EncodeProfile;
    var front := ps[..|ps| - 1];
    EncodedOffsetsSize(base, ps);
    EncodedOffsetsSize(base, front);
    if i == |ps| - 1 {
      assert EncodeOffsets(base, ps)[2 * i..] == U16LE(base + |EncodeProfiles(front)|);
    } else {
      OffsetAt(base, front, i);
      assert front[..i] == ps[..i];
    }
  }

  lemma {:induction false} RecordAt(ps: seq<Profile>, i: nat, buf: seq<Byte>, pos: nat)
    requires i < |ps| && At(buf, pos, EncodeProfiles(ps))
    ensures At(buf, pos + |EncodeProfiles(ps[..i])|, EncodeProfile(ps[i]))
  {
    hide At, EncodeProfile;
    var front := ps[..|ps| - 1];
    AtSplit(buf, pos, EncodeProfiles(front), EncodeProfile(ps[|ps| - 1]));
    if i < |ps| - 1 {
      RecordAt(front, i, buf, pos);
      assert front[..i] == ps[..i];
    }
  }

  /** The body laid out in its three parts. */
  lemma BodyParts(d: Dialect, c: Config)
    requires Storable(d, c)
    ensures
      var body, n := EncodeBody(c), |c.profiles|;
      && At(body, 0, EncodeHeader(c))
      && At(body, HEADER_BASE, EncodeOffsets(HEADER_BASE + 2 * n, c.profiles))
      && At(body, HEADER_BASE + 2 * n, EncodeProfiles(c.profiles))
  {
    hide EncodeOffsets, EncodeProfiles, EncodeHeader;
    var body, n := EncodeBody(c), |c.profiles|;
    var offsets := EncodeOffsets(HEADER_BASE + 2 * n, c.profiles);
    EncodedOffsetsSize(HEADER_BASE + 2 * n, c.profiles);
    assert |EncodeHeader(c)| == HEADER_BASE by {
      HeaderSize(c);
    }
    assert body[0..|body|] == body;
    AtSplit(body, 0, EncodeHeader(c), offsets + EncodeProfiles(c.profiles));
    AtSplit(body, HEADER_BASE, offsets, EncodeProfiles(c.profiles));
  }

  lemma TableEntry(d: Dialect, c: Config, i: nat)
    requires Storable(d, c) && ConfigSize(c) < 0x1_0000 && i < |c.profiles|
    ensures
      var body, n := EncodeBody(c), |c.profiles|;
      && HEADER_BASE + 2 * n <= |body|
      && var off := U16At(body, HEADER_BASE + 2 * i);
      && HEADER_BASE + 2 * n <= off < |body|
      && At(body, off, EncodeProfile(c.profiles[i]))
  {
    hide At, EncodeProfile, EncodeProfiles, EncodeOffsets, EncodeBody, U16At, StorableProfile, EncodableProfile,
      ProfilesSize;
    var body, n := EncodeBody(c), |c.profiles|;
    var base := HEADER_BASE + 2 * n;
    var offsets := EncodeOffsets(base, c.profiles);
    BodyParts(d, c);
    StorableIsEncodable(d, c);
    EncodedSize(c);
    EncodedProfilesSize(c.profiles);
    OffsetAt(base, c.profiles, i);
    RecordAt(c.profiles, i, body, base);
    ProfileLength(c.profiles[i]);
    TableIndex(body, HEADER_BASE, offsets, 2 * i);
  }

  lemma TableIndex(buf: seq<Byte>, pos: nat, piece: seq<Byte>, k: nat)
    requires At(buf, pos, piece) && k + 2 <= |piece|
    ensures U16At(buf, pos + k) == U16At(piece, k)
  {
    assert buf[pos..pos + |piece|][k] == piece[k];
    assert buf[pos..pos + |piece|][k + 1] == piece[k + 1];
  }

  lemma {:induction false} ProfilesRoundTrip(d: Dialect, c: Config, i: nat)
    requires Storable(d, c) && ConfigSize(c) < 0x1_0000 && i <= |c.profiles|
    requires HEADER_BASE + 2 * |c.profiles| <= |EncodeBody(c)|
    ensures ParseProfiles(d, EncodeBody(c), |c.profiles|, i) == Ok(c.profiles[..i])
  {
    hide At, EncodeBody, EncodeProfile, U16At, ParseProfile, ConfigSize, StorableProfile;
    if i > 0 {
      ProfilesRoundTrip(d, c, i - 1);
      TableEntry(d, c, i - 1);
      var body := EncodeBody(c);
      ProfileRoundTrip(d, c.profiles[i - 1], body, U16At(body, HEADER_BASE + 2 * (i - 1)));
      assert c.profiles[..i] == c.profiles[..i - 1] + [c.profiles[i - 1]];
    }
  }

  lemma HeaderFields(d: Dialect, c: Config, data: seq<Byte>)
    requires Storable(d, c) && ConfigSize(c) < 0x1_0000
    requires At(data, 0, EncodeHeader(c))
    ensures data[..4] == MAGIC && data[4] == c.version && data[6] == c.active && data[7] == |c.profiles|
    ensures BlobLength(data) == ConfigSize(c)
  {
    var h := EncodeHeader(c);
    assert data[0..10] == h;
    assert data[..4] == h[..4] == MAGIC;
    assert forall i :: 0 <= i < 10 ==> data[i] == data[0..10][i];
    assert h[8..10] == U16LE(ConfigSize(c));
    assert data[8] == h[8..10][0] && data[9] == h[8..10][1];
  }

  lemma Framed(body: seq<Byte>, crc: U16, trailing: seq<Byte>)
    ensures
      var data := body + U16LE(crc) + trailing;
      && data[..|body|] == body && U16At(data, |body|) == crc
      && forall piece :: At(body, 0, piece) ==> At(data, 0, piece)
  {
    var data := body + U16LE(crc) + trailing;
    assert data[|body|..|body| + 2] == U16LE(crc);
    assert data[|body|] == U16LE(crc)[0] && data[|body| + 1] == U16LE(crc)[1];
    forall piece | At(body, 0, piece)
      ensures At(data, 0, piece)
    {
      assert data[0..|piece|] == body[0..|piece|];
    }
  }

  /**
   For every configuration a decoder can produce, of any size that 16 bits can state, decoding
   its encoding gives it back, whatever follows in the buffer.
   */
  lemma DecodeEncode(d: Dialect, c: Config, trailing: seq<Byte>)
    requires Storable(d, c) && ConfigSize(c) < 0x1_0000
    ensures Decode(d, Encode(c) + trailing) == Ok(c)
  {
    hide EncodeBody, ParseProfiles, EncodeHeader, Crc16, StorableProfile, EncodableProfile, ProfilesSize, U16LE,
      U16At, At, BlobLength;
    var data, body := Encode(c) + trailing, EncodeBody(c);
    StorableIsEncodable(d, c);
    EncodedSize(c);
    Framed(body, Crc16(body), trailing);
    BodyParts(d, c);
    HeaderFields(d, c, data);
    ProfilesRoundTrip(d, c, |c.profiles|);
    assert c.profiles[..|c.profiles|] == c.profiles;
  }

  // ----- what a decoder lets through

  lemma ParsedStepStorable(d: Dialect, buf: seq<Byte>, pos: nat)
    requires ParseStep(d, buf, pos).Got?
    ensures StorableStep(d, ParseStep(d, buf, pos).value)
  {
    hide Utf8.WellFormed;
  }

  lemma {:induction false} ParsedStepsStorable(d: Dialect, buf: seq<Byte>, pos: nat, n: nat)
    requires ParseSteps(d, buf, pos, n).Got?
    ensures
      var steps := ParseSteps(d, buf, pos, n).value;
      |steps| == n && forall s <- steps :: StorableStep(d, s)
  {
    hide ParseStep, StorableStep;
    if n > 0 {
      ParsedStepsStorable(d, buf, pos, n - 1);
      ParsedStepStorable(d, buf, ParseSteps(d, buf, pos, n - 1).next);
    }
  }

  lemma ParsedBindingStorable(d: Dialect, buf: seq<Byte>, pos: nat)
    requires ParseBinding(d, buf, pos).Got?
    ensures StorableBinding(d, ParseBinding(d, buf, pos).value)
  {
    hide ParseSteps, StorableStep, ParseRgb;
    var q := ParseRgb(buf, pos).next;
    ParsedStepsStorable(d, buf, q + 1, buf[q]);
  }

  lemma {:induction false} ParsedBindingsStorable(d: Dialect, buf: seq<Byte>, pos: nat, n: nat)
    requires ParseBindings(d, buf, pos, n).Got?
    ensures
      var bs := ParseBindings(d, buf, pos, n).value;
      |bs| == n && forall b <- bs :: StorableBinding(d, b)
  {
    hide ParseBinding, StorableBinding;
    if n > 0 {
      ParsedBindingsStorable(d, buf, pos, n - 1);
      ParsedBindingStorable(d, buf, ParseBindings(d, buf, pos, n - 1).next);
    }
  }

  lemma ParsedProfileStorable(d: Dialect, buf: seq<Byte>, pos: nat)
    requires ParseProfile(d, buf, pos).Got?
    ensures StorableProfile(d, ParseProfile(d, buf, pos).value)
  {
    hide ParseBinding, StorableBinding, ParseBindings, ParseRgb, Utf8.WellFormed, U16At;
    var p1 := ParseName(d, buf, pos).next;
    var p5 := ParseRgb(buf, p1 + 8).next;
    ParsedBindingStorable(d, buf, p5 + 1);
    ParsedBindingsStorable(d, buf, ParseBinding(d, buf, p5 + 1).next, buf[p5]);
  }

  lemma {:induction false} ParsedProfilesStorable(d: Dialect, body: seq<Byte>, n: nat, i: nat)
    requires i <= n && HEADER_BASE + 2 * n <= |body| && ParseProfiles(d, body, n, i).Ok?
    ensures
      var ps := ParseProfiles(d, body, n, i).value;
      |ps| == i && forall p <- ps :: StorableProfile(d, p)
  {
    hide ParseProfile, StorableProfile, U16At;
    if i > 0 {
      ParsedProfilesStorable(d, body, n, i - 1);
      ParsedProfileStorable(d, body, U16At(body, HEADER_BASE + 2 * (i - 1)));
    }
  }

  /** Whatever bytes it is given, a decoder that succeeds returns a bounded configuration. */
  lemma DecodedStorable(d: Dialect, data: seq<Byte>)
    requires Decode(d, data).Ok?
    ensures Storable(d, Decode(d, data).value)
  {
    hide ParseProfiles, StorableProfile, U16At, Crc16;
    var body := data[..BlobLength(data) - 2];
    ParsedProfilesStorable(d, body, data[7], data[7]);
  }

  /** The round trip holds for exactly the storable configurations. */
  lemma DecodeEncodeIff(d: Dialect, c: Config, trailing: seq<Byte>)
    requires ConfigSize(c) < 0x1_0000
    ensures Decode(d, Encode(c) + trailing) == Ok(c) <==> Storable(d, c)
  {
    hide Decode, Encode, Storable;
    if Storable(d, c) {
      DecodeEncode(d, c, trailing);
    } else if Decode(d, Encode(c) + trailing) == Ok(c) {
      DecodedStorable(d, Encode(c) + trailing);
    }
  }

  lemma ValidIsStorable(c: Config)
    requires Valid(c)
    ensures Storable(Cli, c)
    ensures Utf8Strings(c) ==> Storable(Firmware, c)
  {
    hide ConfigSize, Utf8.WellFormed;
    forall p | p in c.profiles
      ensures StorableProfile(Cli, p)
      ensures Utf8Strings(c) ==> StorableProfile(Firmware, p)
    {
      assert ValidProfile(p);
      assert Utf8Strings(c) ==> Utf8Profile(p);
      ValidProfileIsStorable(p);
    }
  }

  lemma ValidProfileIsStorable(p: Profile)
    requires ValidProfile(p)
    ensures StorableProfile(Cli, p)
    ensures Utf8Profile(p) ==> StorableProfile(Firmware, p)
  {
    hide Utf8.WellFormed;
    ValidBindingIsStorable(p.tap);
    forall b | b in p.slots
      ensures StorableBinding(Cli, b)
      ensures Utf8Profile(p) ==> StorableBinding(Firmware, b)
    {
      ValidBindingIsStorable(b);
    }
  }

  lemma ValidBindingIsStorable(b: Binding)
    requires ValidBinding(b)
    ensures StorableBinding(Cli, b)
    ensures Utf8Binding(b) ==> StorableBinding(Firmware, b)
  {
    hide Utf8.WellFormed;
    forall s | s in b.steps
      ensures StorableStep(Cli, s)
      ensures Utf8Binding(b) ==> StorableStep(Firmware, s)
    {
      assert ValidStep(s);
    }
  }

  // ----- only the first blob_len bytes matter, and damage to them is caught

  lemma DecodeDelimited(d: Dialect, data: seq<Byte>, other: seq<Byte>)
    requires GoodHeader(data) && BlobLength(data) <= |other|
    requires other[..BlobLength(data)] == data[..BlobLength(data)]
    ensures Decode(d, other) == Decode(d, data)
  {
    hide ParseProfiles, Crc16;
    var total := BlobLength(data);
    SamePrefix(data, other, total);
    assert other[..total - 2] == data[..total - 2];
  }

  lemma SamePrefix(a: seq<Byte>, b: seq<Byte>, n: nat)
    requires n <= |a| && n <= |b| && a[..n] == b[..n]
    ensures forall i :: 0 <= i < n ==> a[i] == b[i]
    ensures n >= 4 ==> a[..4] == b[..4]
    ensures n >= 2 ==> a[..n - 2] == b[..n - 2]
  {
    assert forall i :: 0 <= i < n ==> a[i] == a[..n][i] && b[i] == b[..n][i];
  }

  /** A blob whose body has another CRC than the one that is kept after it is refused. */
  lemma ChangedBodyRejected(d: Dialect, e: Dialect, data: seq<Byte>, damaged: seq<Byte>)
    requires Decode(d, data).Ok? && |damaged| == |data|
    requires
      var end := BlobLength(data) - 2;
      && Crc16(data[..end]) != Crc16(damaged[..end])
      && damaged[8..10] == data[8..10]
      && damaged[end..] == data[end..]
    ensures Decode(e, damaged) == Err
  {
    hide ParseProfiles, Crc16;
    var end := BlobLength(data) - 2;
    assert damaged[8] == damaged[8..10][0] && damaged[9] == damaged[8..10][1];
    assert data[8] == data[8..10][0] && data[9] == data[8..10][1];
    assert damaged[end] == damaged[end..][0] && damaged[end + 1] == damaged[end..][1];
    assert data[end] == data[end..][0] && data[end + 1] == data[end..][1];
  }

  /**
   An error burst of up to 16 bits anywhere before the CRC of an accepted blob, other than in the
   length field that says where that CRC is, makes either decoder refuse it.
   */
  lemma BurstRejected(d: Dialect, e: Dialect, data: seq<Byte>, damaged: seq<Byte>)
    requires Decode(d, data).Ok? && |damaged| == |data|
    requires
      var end := BlobLength(data) - 2;
      && Burst(data[..end], damaged[..end])
      && damaged[8..10] == data[8..10]
      && damaged[end..] == data[end..]
    ensures Decode(e, damaged) == Err
  {
    hide ParseProfiles, Crc16, Burst;
    var end := BlobLength(data) - 2;
    BurstDetected(data[..end], damaged[..end]);
    ChangedBodyRejected(d, e, data, damaged);
  }

  // ----- the two decoders agree

  lemma StepAgreement(buf: seq<Byte>, pos: nat)
    ensures ParseStep(Firmware, buf, pos)
         == match ParseStep(Cli, buf, pos)
            case Stop => Stop
            case Got(s, p) => if StorableStep(Firmware, s) then Got(s, p) else Stop
  {
    hide Utf8.WellFormed;
  }

  lemma {:induction false} StepsAgreement(buf: seq<Byte>, pos: nat, n: nat)
    ensures ParseSteps(Firmware, buf, pos, n)
         == match ParseSteps(Cli, buf, pos, n)
            case Stop => Stop
            case Got(steps, p) => if forall s <- steps :: StorableStep(Firmware, s) then Got(steps, p) else Stop
  {
    hide ParseStep, StorableStep;
    if n > 0 {
      StepsAgreement(buf, pos, n - 1);
      var front := ParseSteps(Cli, buf, pos, n - 1);
      if front.Got? {
        StepAgreement(buf, front.next);
      }
    }
  }

  lemma BindingAgreement(buf: seq<Byte>, pos: nat)
    ensures ParseBinding(Firmware, buf, pos)
         == match ParseBinding(Cli, buf, pos)
            case Stop => Stop
            case Got(b, p) => if StorableBinding(Firmware, b) then Got(b, p) else Stop
  {
    hide ParseSteps, StorableStep;
    var color := ParseRgb(buf, pos);
    if color.Got? && color.next < |buf| {
      var n := buf[color.next];
      StepsAgreement(buf, color.next + 1, n);
      if ParseSteps(Cli, buf, color.next + 1, n).Got? {
        ParsedStepsStorable(Cli, buf, color.next + 1, n);
      }
    }
  }

  lemma {:induction false} BindingsAgreement(buf: seq<Byte>, pos: nat, n: nat)
    ensures ParseBindings(Firmware, buf, pos, n)
         == match ParseBindings(Cli, buf, pos, n)
            case Stop => Stop
            case Got(bs, p) => if forall b <- bs :: StorableBinding(Firmware, b) then Got(bs, p) else Stop
  {
    hide ParseBinding, StorableBinding;
    if n > 0 {
      BindingsAgreement(buf, pos, n - 1);
      var front := ParseBindings(Cli, buf, pos, n - 1);
      if front.Got? {
        BindingAgreement(buf, front.next);
      }
    }
  }

  lemma ProfileAgreement(buf: seq<Byte>, pos: nat)
    ensures ParseProfile(Firmware, buf, pos)
         == match ParseProfile(Cli, buf, pos)
            case Stop => Stop
            case Got(p, q) => if StorableProfile(Firmware, p) then Got(p, q) else Stop
  {
    hide ParseBinding, StorableBinding, ParseBindings, Utf8.WellFormed, U16At, ParseRgb;
    var name := ParseName(Cli, buf, pos);
    if name.Got? {
      var color := ParseRgb(buf, name.next + 8);
      if color.Got? && color.next < |buf| {
        var q := color.next + 1;
        BindingAgreement(buf, q);
        var tap := ParseBinding(Cli, buf, q);
        if tap.Got? {
          BindingsAgreement(buf, tap.next, buf[color.next]);
          if ParseBindings(Cli, buf, tap.next, buf[color.next]).Got? {
            ParsedBindingsStorable(Cli, buf, tap.next, buf[color.next]);
          }
        }
      }
    }
  }

  lemma {:induction false} ProfilesAgreement(body: seq<Byte>, n: nat, i: nat)
    requires i <= n && HEADER_BASE + 2 * n <= |body|
    ensures ParseProfiles(Firmware, body, n, i)
         == match ParseProfiles(Cli, body, n, i)
            case Err => Err
            case Ok(ps) => if forall p <- ps :: StorableProfile(Firmware, p) then Ok(ps) else Err
  {
    hide ParseProfile, StorableProfile, U16At;
    if i > 0 {
      ProfilesAgreement(body, n, i - 1);
      ProfileAgreement(body, U16At(body, HEADER_BASE + 2 * (i - 1)));
    }
  }

  /**
   On every byte string the firmware's decoder gives exactly what the CLI's gives, except that it
   refuses a configuration with an unknown mode byte or a string that is not UTF-8.
   */
  lemma DecodersAgree(data: seq<Byte>)
    ensures Decode(Firmware, data)
         == match Decode(Cli, data)
            case Err => Err
            case Ok(c) => if Storable(Firmware, c) then Ok(c) else Err
  {
    hide ParseProfiles, StorableProfile, U16At, Crc16;
    if GoodHeader(data) {
      var body := data[..BlobLength(data) - 2];
      var n: nat := data[7];
      if HEADER_BASE + 2 * n <= |body| {
        ProfilesAgreement(body, n, n);
        if ParseProfiles(Cli, body, n, n).Ok? {
          ParsedProfilesStorable(Cli, body, n, n);
        }
      }
    }
  }
}
