/** What the one pattern of damage that passes the check does to a blob an encoder printed. */
module Border {
  import opened Bytes
  import opened BitStrings
  import opened Configs
  import opened Crc
  import opened Cursors
  import opened Format
  import opened RoundTrip
  import opened Trailer
  import Utf8

  // ----- the last byte of a body

  function LastProfile(c: Config): Profile
    requires c.profiles != []
  {
    c.profiles[|c.profiles| - 1]
  }

  function LastBinding(p: Profile): Binding
    requires p.slots != []
  {
    p.slots[|p.slots| - 1]
  }

  /** The configuration with another binding in its last place. */
  function WithLast(c: Config, b: Binding): Config
    requires c.profiles != [] && LastProfile(c).slots != []
  {
    var p := LastProfile(c);
    c.(profiles := c.profiles[..|c.profiles| - 1] + [p.(slots := p.slots[..|p.slots| - 1] + [b])])
  }

  /** The step whose encoding ends in `w` instead, if there is one. */
  function TwistedStep(s: Step, w: Byte): Option<Step> {
    match s
    case Key(keycode, _) => Some(Key(keycode, w))
    case Text(text) => if text == [] then None else Some(Text(text[..|text| - 1] + [w]))
    case Consumer(code) => Some(Consumer(code % 256 + 256 * w))
    case Delay(ms) => Some(Delay(ms % 256 + 256 * w))
    case Unknown(_) => None
  }

  function Twisted(b: Binding, w: Byte): Option<Binding> {
    if b.steps == [] then None
    else
      match TwistedStep(b.steps[|b.steps| - 1], w)
      case None => None
      case Some(s) => Some(Binding(b.color, b.steps[..|b.steps| - 1] + [s]))
  }

  /** Two encodings that are the same but for their last bytes, `x` and `w`. */
  ghost predicate EndIn(a: seq<Byte>, b: seq<Byte>, x: Byte, w: Byte) {
    |a| > 0 && a[|a| - 1] == x && b == a[..|a| - 1] + [w]
  }

  lemma EndInAfter(prefix: seq<Byte>, a: seq<Byte>, b: seq<Byte>, x: Byte, w: Byte)
    requires EndIn(a, b, x, w)
    ensures EndIn(prefix + a, prefix + b, x, w)
  {
    assert (prefix + a)[..|prefix + a| - 1] == prefix + a[..|a| - 1];
    assert prefix + b == prefix + a[..|a| - 1] + [w];
  }

  lemma HighByte(v: U16, w: Byte, tag: Byte)
    ensures
      var code := v % 256 + 256 * w as int;
      0 <= code < 0x1_0000 && EndIn([tag] + U16LE(v), [tag] + U16LE(code), v / 256, w)
  {
    var code := v % 256 + 256 * w as int;
    assert U16LE(v) == [v % 256, v / 256] && U16LE(code) == [v % 256, w];
  }

  lemma StepTwists(s: Step, w: Byte)
    requires StorableStep(Cli, s) && TwistedStep(s, w).Some?
    ensures
      var e, t := EncodeStep(s), TwistedStep(s, w).value;
      && |e| > 0 && EndIn(e, EncodeStep(t), e[|e| - 1], w)
      && StepSize(t) == StepSize(s) && StorableStep(Cli, t)
  {
    hide U16LE;
    match s
    case Key(_, _) =>
    case Text(text) =>
      var t := text[..|text| - 1] + [w];
      assert [1, Low(|text|)] + t == ([1, Low(|text|)] + text)[..|text| + 1] + [w];
    case Consumer(code) => HighByte(code, w, 2);
    case Delay(ms) => HighByte(ms, w, 3);
  }

  lemma StepsSnoc(front: seq<Step>, s: Step)
    ensures EncodeSteps(front + [s]) == EncodeSteps(front) + EncodeStep(s)
    ensures StepsSize(front + [s]) == StepsSize(front) + StepSize(s)
  {
    hide EncodeStep, StepSize;
    assert (front + [s])[..|front|] == front;
  }

  lemma BindingTwists(b: Binding, w: Byte)
    requires StorableBinding(Cli, b) && Twisted(b, w).Some?
    ensures
      var e, t := EncodeBinding(b), Twisted(b, w).value;
      && |e| > 0 && EndIn(e, EncodeBinding(t), e[|e| - 1], w)
      && BindingSize(t) == BindingSize(b) && StorableBinding(Cli, t)
  {
    hide EncodeStep, EncodeSteps, EncodeRgb, StepSize, StepsSize, TwistedStep, StorableStep;
    var front, s := b.steps[..|b.steps| - 1], b.steps[|b.steps| - 1];
    var t := TwistedStep(s, w).value;
    StepTwists(s, w);
    assert b.steps == front + [s];
    StepsSnoc(front, s);
    StepsSnoc(front, t);
    var head := EncodeRgb(b.color) + ([Low(|b.steps|)] + EncodeSteps(front));
    EndInAfter(head, EncodeStep(s), EncodeStep(t), EncodeStep(s)[|EncodeStep(s)| - 1], w);
    assert EncodeBinding(b) == head + EncodeStep(s);
    assert EncodeBinding(Twisted(b, w).value) == head + EncodeStep(t);
  }

  lemma BindingsSnoc(bs: seq<Binding>, b: Binding)
    ensures EncodeBindings(bs + [b]) == EncodeBindings(bs) + EncodeBinding(b)
    ensures BindingsSize(bs + [b]) == BindingsSize(bs) + BindingSize(b)
  {
    hide EncodeBinding, BindingSize;
    assert (bs + [b])[..|bs|] == bs;
  }

  lemma ProfilesSnoc(base: nat, ps: seq<Profile>, p: Profile)
    ensures EncodeProfiles(ps + [p]) == EncodeProfiles(ps) + EncodeProfile(p)
    ensures EncodeOffsets(base, ps + [p]) == EncodeOffsets(base, ps) + U16LE(base + |EncodeProfiles(ps)|)
    ensures ProfilesSize(ps + [p]) == ProfilesSize(ps) + ProfileSize(p)
  {
    hide EncodeProfile, ProfileSize, U16LE;
    assert (ps + [p])[..|ps|] == ps;
  }

  /** A profile record up to its slots. */
  function EncodeFields(p: Profile): seq<Byte> {
    EncodeName(p.name) + (U16LE(p.dwellMs) + (U16LE(p.tapMaxMs) + (EncodeModes(p) + EncodeRgb(p.idleColor))))
  }

  lemma FieldsFirst(p: Profile)
    ensures EncodeProfile(p) == EncodeFields(p) + EncodeSlots(p)
  {
    hide EncodeName, U16LE, EncodeModes, EncodeRgb, EncodeSlots;
    var slots := EncodeSlots(p);
    var modes := EncodeModes(p) + EncodeRgb(p.idleColor);
    assert EncodeModes(p) + (EncodeRgb(p.idleColor) + slots) == modes + slots;
    var taps := U16LE(p.tapMaxMs) + modes;
    assert U16LE(p.tapMaxMs) + (modes + slots) == taps + slots;
    assert U16LE(p.dwellMs) + (taps + slots) == (U16LE(p.dwellMs) + taps) + slots;
  }

  lemma SameFields(p: Profile, q: Profile)
    requires q == p.(slots := q.slots)
    ensures EncodeFields(q) == EncodeFields(p)
  {
  }

  /** A record up to its last binding. */
  function ProfileFront(p: Profile): seq<Byte>
    requires p.slots != []
  {
    EncodeFields(p) + ([Low(|p.slots|)] + (EncodeBinding(p.tap) + EncodeBindings(p.slots[..|p.slots| - 1])))
  }

  lemma ProfileFrontThenLast(p: Profile)
    requires p.slots != []
    ensures EncodeProfile(p) == ProfileFront(p) + EncodeBinding(LastBinding(p))
    ensures ProfileSize(p) == 13 + |p.name| + BindingSize(p.tap) + BindingsSize(p.slots[..|p.slots| - 1])
                              + BindingSize(LastBinding(p))
  {
    hide EncodeFields, EncodeBinding, EncodeBindings, BindingSize, BindingsSize, EncodeProfile;
    var front, last := p.slots[..|p.slots| - 1], EncodeBinding(LastBinding(p));
    FieldsFirst(p);
    assert p.slots == front + [LastBinding(p)];
    BindingsSnoc(front, LastBinding(p));
    var slots := [Low(|p.slots|)] + (EncodeBinding(p.tap) + EncodeBindings(front));
    assert EncodeSlots(p) == slots + last;
    assert EncodeFields(p) + (slots + last) == EncodeFields(p) + slots + last;
  }

  lemma ProfileTwists(p: Profile, b: Binding, x: Byte, w: Byte)
    requires p.slots != [] && EndIn(EncodeBinding(LastBinding(p)), EncodeBinding(b), x, w)
    requires BindingSize(b) == BindingSize(LastBinding(p))
    ensures
      var q := p.(slots := p.slots[..|p.slots| - 1] + [b]);
      EndIn(EncodeProfile(p), EncodeProfile(q), x, w) && ProfileSize(q) == ProfileSize(p)
  {
    hide EncodeFields, EncodeBinding, EncodeBindings, BindingSize, BindingsSize, EncodeProfile, ProfileSize, EndIn;
    var front := p.slots[..|p.slots| - 1];
    var q := p.(slots := front + [b]);
    ProfileFrontThenLast(p);
    ProfileFrontThenLast(q);
    SameFields(p, q);
    assert q.slots[..|q.slots| - 1] == front;
    EndInAfter(ProfileFront(p), EncodeBinding(LastBinding(p)), EncodeBinding(b), x, w);
  }

  /** A body up to its last record. */
  function BodyFront(c: Config): seq<Byte>
    requires c.profiles != []
  {
    EncodeHeader(c)
    + (EncodeOffsets(HEADER_BASE + 2 * |c.profiles|, c.profiles) + EncodeProfiles(c.profiles[..|c.profiles| - 1]))
  }

  lemma BodyFrontThenLast(c: Config)
    requires c.profiles != []
    ensures EncodeBody(c) == BodyFront(c) + EncodeProfile(LastProfile(c))
    ensures ConfigSize(c) == HEADER_BASE + 2 * |c.profiles| + CRC_TRAILER
                             + ProfilesSize(c.profiles[..|c.profiles| - 1]) + ProfileSize(LastProfile(c))
  {
    hide EncodeHeader, EncodeOffsets, EncodeProfile, EncodeProfiles, ProfileSize, ProfilesSize;
    var front := c.profiles[..|c.profiles| - 1];
    assert c.profiles == front + [LastProfile(c)];
    ProfilesSnoc(HEADER_BASE + 2 * |c.profiles|, front, LastProfile(c));
    var offsets := EncodeOffsets(HEADER_BASE + 2 * |c.profiles|, c.profiles);
    assert offsets + (EncodeProfiles(front) + EncodeProfile(LastProfile(c)))
        == offsets + EncodeProfiles(front) + EncodeProfile(LastProfile(c));
  }

  lemma SameOffsets(base: nat, front: seq<Profile>, p: Profile, q: Profile)
    ensures EncodeOffsets(base, front + [p]) == EncodeOffsets(base, front + [q])
  {
    hide EncodeOffsets, EncodeProfiles;
    ProfilesSnoc(base, front, p);
    ProfilesSnoc(base, front, q);
  }

  /** With another last binding of the same size and but for its last byte the same bytes, so is the body. */
  lemma BodyTwists(c: Config, b: Binding, x: Byte, w: Byte)
    requires c.profiles != [] && LastProfile(c).slots != []
    requires EndIn(EncodeBinding(LastBinding(LastProfile(c))), EncodeBinding(b), x, w)
    requires BindingSize(b) == BindingSize(LastBinding(LastProfile(c)))
    ensures EndIn(EncodeBody(c), EncodeBody(WithLast(c, b)), x, w) && ConfigSize(WithLast(c, b)) == ConfigSize(c)
  {
    hide EncodeOffsets, EncodeProfile, EncodeProfiles, ProfileSize, ProfilesSize, EncodeBinding, BindingSize, EndIn,
      ConfigSize, EncodeBody, U16LE;
    var d, p := WithLast(c, b), LastProfile(c);
    var front := c.profiles[..|c.profiles| - 1];
    ProfileTwists(p, b, x, w);
    BodyFrontThenLast(c);
    BodyFrontThenLast(d);
    assert d.profiles[..|d.profiles| - 1] == front;
    assert c.profiles == front + [p] && d.profiles == front + [LastProfile(d)];
    SameOffsets(HEADER_BASE + 2 * |c.profiles|, front, p, LastProfile(d));
    assert EncodeHeader(c) == EncodeHeader(d);
    EndInAfter(BodyFront(c), EncodeProfile(p), EncodeProfile(LastProfile(d)), x, w);
  }

  // ----- where the damaged blob is another encoding

  lemma TwistStorable(c: Config, w: Byte)
    requires Storable(Cli, c) && LastProfile(c).slots != [] && Twisted(LastBinding(LastProfile(c)), w).Some?
    ensures Storable(Cli, WithLast(c, Twisted(LastBinding(LastProfile(c)), w).value))
  {
    hide Twisted, StorableBinding;
    var p := LastProfile(c);
    assert StorableProfile(Cli, p);
    assert StorableBinding(Cli, LastBinding(p));
    TwistedIsStorable(LastBinding(p), w);
  }

  lemma TwistedIsStorable(b: Binding, w: Byte)
    requires StorableBinding(Cli, b) && Twisted(b, w).Some?
    ensures StorableBinding(Cli, Twisted(b, w).value)
  {
    hide EncodeBinding, BindingSize, EndIn, Twisted, StorableBinding;
    BindingTwists(b, w);
  }

  lemma LastStorable(c: Config)
    requires Storable(Cli, c)
    ensures StorableProfile(Cli, LastProfile(c)) && StorableBinding(Cli, LastBinding(LastProfile(c)))
  {
    hide StorableBinding;
    assert LastProfile(c) in c.profiles;
    assert LastBinding(LastProfile(c)) in LastProfile(c).slots;
  }

  lemma EncodedParts(c: Config)
    requires Storable(Cli, c) && ConfigSize(c) < 0x1_0000
    ensures |EncodeBody(c)| == ConfigSize(c) - 2 && |Encode(c)| == ConfigSize(c) && |EncodeBody(c)| >= 14
    ensures Encode(c)[..|EncodeBody(c)|] == EncodeBody(c) && CheckPasses(Encode(c), |EncodeBody(c)|)
  {
    hide EncodeBody, ProfilesSize, StorableProfile, EncodableProfile, Crc16, U16LE;
    StorableIsEncodable(Cli, c);
    EncodedSize(c);
    Framed(EncodeBody(c), Crc16(EncodeBody(c)), []);
    assert Encode(c) + [] == Encode(c);
    LastRoom(c);
  }

  lemma LastRoom(c: Config)
    requires Storable(Cli, c)
    ensures ConfigSize(c) >= 16
  {
    hide ProfileSize, StorableProfile;
    ProfileRoom(c.profiles[|c.profiles| - 1]);
  }

  lemma ProfileRoom(p: Profile)
    ensures ProfileSize(p) >= 13
  {
  }

  lemma FinishedBy(damaged: seq<Byte>, body: seq<Byte>)
    requires |damaged| == |body| + 2 && damaged[..|body|] == body && CheckPasses(damaged, |body|)
    ensures damaged == body + U16LE(Crc16(body))
  {
    hide Crc16;
    var end := |body|;
    assert damaged[end..] == [damaged[end], damaged[end + 1]];
    assert damaged == damaged[..end] + damaged[end..];
    assert U16LE(Crc16(body)) == [damaged[end], damaged[end + 1]];
  }

  /** With a twisted last step, the damaged blob is what the encoder prints for that. */
  lemma DamagedIsEncoding(c: Config, end: nat, damaged: seq<Byte>, b: Binding)
    requires Storable(Cli, c) && c.profiles != [] && LastProfile(c).slots != [] && ConfigSize(c) < 0x1_0000
    requires 0 < end == |EncodeBody(c)| && |damaged| == |Encode(c)| == end + 2
    requires SameBut(Encode(c), damaged, end - 1) && Masked(Encode(c), damaged, end)
    requires Twisted(LastBinding(LastProfile(c)), damaged[end - 1]) == Some(b)
    ensures damaged == Encode(WithLast(c, b))
  {
    hide Masked, Twisted, EncodeBody, Storable, StorableProfile, StorableBinding, ConfigSize, BindingSize,
      EncodeBinding, Crc16, U16LE, CheckPasses, Encode, EndIn, SameBut, WithLast;
    var data := Encode(c);
    var last := EncodeBinding(LastBinding(LastProfile(c)));
    EncodedParts(c);
    LastStorable(c);
    BindingTwists(LastBinding(LastProfile(c)), damaged[end - 1]);
    BodyTwists(c, b, last[|last| - 1], damaged[end - 1]);
    AcrossBorder(data, damaged, end);
    SameBody(data, damaged, EncodeBody(c), EncodeBody(WithLast(c, b)), last[|last| - 1]);
    FinishedBy(damaged, EncodeBody(WithLast(c, b)));
    EncodeIs(WithLast(c, b));
  }

  lemma EncodeIs(c: Config)
    ensures Encode(c) == EncodeBody(c) + U16LE(Crc16(EncodeBody(c)))
  {
    hide EncodeBody, Crc16, U16LE;
  }

  lemma SameBody(data: seq<Byte>, damaged: seq<Byte>, body: seq<Byte>, other: seq<Byte>, x: Byte)
    requires |body| > 0 && |data| == |body| + 2 && data[..|body|] == body && SameBut(data, damaged, |body| - 1)
    requires EndIn(body, other, x, damaged[|body| - 1])
    ensures damaged[..|body|] == other && |other| == |body|
  {
    var end := |body|;
    assert forall i :: 0 <= i < end ==> body[i] == data[..end][i];
  }

  // ----- where it is none: a count or a length of 0 has become 137

  lemma FieldsAt(p: Profile, buf: seq<Byte>, pos: nat)
    requires At(buf, pos, EncodeFields(p))
    ensures
      var p1 := pos + 1 + |p.name|;
      && |EncodeFields(p)| == 12 + |p.name|
      && At(buf, pos, EncodeName(p.name))
      && At(buf, p1, U16LE(p.dwellMs)) && At(buf, p1 + 2, U16LE(p.tapMaxMs))
      && At(buf, p1 + 4, EncodeModes(p)) && At(buf, p1 + 8, EncodeRgb(p.idleColor))
  {
    hide At;
    var modes := EncodeModes(p) + EncodeRgb(p.idleColor);
    var taps := U16LE(p.tapMaxMs) + modes;
    var p1 := pos + 1 + |p.name|;
    AtSplit(buf, pos, EncodeName(p.name), U16LE(p.dwellMs) + taps);
    AtSplit(buf, p1, U16LE(p.dwellMs), taps);
    AtSplit(buf, p1 + 2, U16LE(p.tapMaxMs), modes);
    AtSplit(buf, p1 + 4, EncodeModes(p), EncodeRgb(p.idleColor));
  }

  /** A record whose slots do not parse does not. */
  lemma SlotsStopProfile(p: Profile, buf: seq<Byte>, pos: nat)
    requires StorableProfile(Cli, p) && At(buf, pos, EncodeFields(p))
    requires
      var at := pos + 12 + |p.name|;
      && ReadU8(buf, at) == Got(|p.slots|, at + 1)
      && ParseBinding(Cli, buf, at + 1) == Got(p.tap, at + 1 + |EncodeBinding(p.tap)|)
      && ParseBindings(Cli, buf, at + 1 + |EncodeBinding(p.tap)|, |p.slots|).Stop?
    ensures ParseProfile(Cli, buf, pos).Stop?
  {
    hide At, EncodeFields, EncodeName, ParseName, ParseRgb, EncodeRgb, ParseBinding, ParseBindings, ReadU16, ReadU8,
      ReadBytes, StorableBinding, U16LE, EncodeModes, EncodeBinding;
    var p1 := pos + 1 + |p.name|;
    FieldsAt(p, buf, pos);
    NameRoundTrip(Cli, p.name, buf, pos);
    ReadU16At(buf, p1, p.dwellMs);
    ReadU16At(buf, p1 + 2, p.tapMaxMs);
    ModesAt(p, buf, p1 + 4);
    RgbRoundTrip(p.idleColor, buf, p1 + 8);
  }

  lemma CountStops(buf: seq<Byte>, pos: nat, b: Binding)
    requires At(buf, pos, EncodeRgb(b.color)) && pos + 4 <= |buf| && buf[pos + 3] > MAX_STEPS
    ensures ParseBinding(Cli, buf, pos).Stop?
  {
    hide At, EncodeRgb, ParseRgb;
    RgbRoundTrip(b.color, buf, pos);
  }

  lemma LengthStops(buf: seq<Byte>, pos: nat, b: Binding)
    requires b.steps != [] && StorableBinding(Cli, b)
    requires
      var front := b.steps[..|b.steps| - 1];
      var at := pos + 4 + |EncodeSteps(front)|;
      && At(buf, pos, EncodeRgb(b.color) + ([Low(|b.steps|)] + EncodeSteps(front)))
      && |buf| == at + 2 && buf[at] == 1 && buf[at + 1] > 0
    ensures ParseBinding(Cli, buf, pos).Stop?
  {
    hide At, EncodeRgb, ParseRgb, EncodeSteps, StorableStep;
    hide ParseSteps;
    var n := |b.steps|;
    var front := b.steps[..n - 1];
    var count := [Low(n)];
    RgbSize(b.color);
    AtSplit(buf, pos, EncodeRgb(b.color), count + EncodeSteps(front));
    AtSplit(buf, pos + 3, count, EncodeSteps(front));
    RgbRoundTrip(b.color, buf, pos);
    ReadU8At(buf, pos + 3, count[0]);
    StepsRoundTrip(Cli, front, buf, pos + 4);
    TextStops(buf, pos + 4, n - 1, front, pos + 4 + |EncodeSteps(front)|);
  }

  lemma TextStops(buf: seq<Byte>, pos: nat, n: nat, front: seq<Step>, at: nat)
    requires ParseSteps(Cli, buf, pos, n) == Got(front, at)
    requires |buf| == at + 2 && buf[at] == 1 && buf[at + 1] > 0
    ensures ParseSteps(Cli, buf, pos, n + 1).Stop?
  {
  }

  lemma LastOffset(c: Config)
    requires Storable(Cli, c) && c.profiles != [] && ConfigSize(c) < 0x1_0000
    ensures
      var n, body := |c.profiles|, EncodeBody(c);
      && HEADER_BASE + 2 * n <= |BodyFront(c)| < |body|
      && U16At(body, HEADER_BASE + 2 * (n - 1)) == |BodyFront(c)|
  {
    hide At, EncodeHeader, EncodeOffsets, EncodeProfile, EncodeProfiles, U16At, StorableProfile, EncodableProfile,
      ProfilesSize;
    var n, body := |c.profiles|, EncodeBody(c);
    var base := HEADER_BASE + 2 * n;
    BodyParts(Cli, c);
    StorableIsEncodable(Cli, c);
    EncodedSize(c);
    EncodedProfilesSize(c.profiles);
    EncodedOffsetsSize(base, c.profiles);
    OffsetAt(base, c.profiles, n - 1);
    TableIndex(body, HEADER_BASE, EncodeOffsets(base, c.profiles), 2 * (n - 1));
    HeaderSize(c);
    BodyFrontThenLast(c);
    ProfileLength(LastProfile(c));
  }

  /** The encoding of a last binding without its last byte, where a 0 stood that now is more. */
  lemma BindingRefused(b: Binding, other: seq<Byte>, pos: nat)
    requires StorableBinding(Cli, b) && Twisted(b, 0) == None
    requires |EncodeBinding(b)| > 0 && pos + |EncodeBinding(b)| == |other| && other[|other| - 1] > MAX_STEPS
    requires At(other, pos, EncodeBinding(b)[..|EncodeBinding(b)| - 1])
    ensures ParseBinding(Cli, other, pos).Stop?
  {
    hide At, EncodeRgb, ParseBinding, StorableStep;
    RgbSize(b.color);
    if b.steps == [] {
      assert EncodeBinding(b) == EncodeRgb(b.color) + [0];
      assert EncodeBinding(b)[..3] == EncodeRgb(b.color);
      CountStops(other, pos, b);
    } else {
      EmptyTextLast(b);
      var front := b.steps[..|b.steps| - 1];
      var head := EncodeRgb(b.color) + ([Low(|b.steps|)] + EncodeSteps(front));
      assert EncodeBinding(b)[..|EncodeBinding(b)| - 1] == head + [1];
      AtSplit(other, pos, head, [1]);
      ReadU8At(other, pos + |head|, 1);
      LengthStops(other, pos, b);
    }
  }

  lemma EmptyTextLast(b: Binding)
    requires StorableBinding(Cli, b) && Twisted(b, 0) == None && b.steps != []
    ensures
      var front := b.steps[..|b.steps| - 1];
      EncodeBinding(b) == EncodeRgb(b.color) + ([Low(|b.steps|)] + EncodeSteps(front)) + [1, 0]
  {
    hide EncodeRgb, EncodeSteps;
    var front, s := b.steps[..|b.steps| - 1], b.steps[|b.steps| - 1];
    assert StorableStep(Cli, s);
    assert s == Text([]);
    assert b.steps == front + [s];
    StepsSnoc(front, s);
    assert EncodeStep(s) == [1, 0];
  }

  /** A record whose last binding is refused, although all before it is in order. */
  lemma RecordRefused(p: Profile, other: seq<Byte>, pos: nat)
    requires StorableProfile(Cli, p) && p.slots != [] && At(other, pos, ProfileFront(p))
    requires ParseBinding(Cli, other, pos + |ProfileFront(p)|).Stop?
    ensures ParseProfile(Cli, other, pos).Stop?
  {
    hide At, EncodeFields, EncodeBinding, EncodeBindings, ParseBinding, ParseBindings, ParseProfile, StorableBinding,
      ReadU8;
    var front := p.slots[..|p.slots| - 1];
    var tap, slots, count := EncodeBinding(p.tap), EncodeBindings(front), [Low(|p.slots|)];
    AtSplit(other, pos, EncodeFields(p), count + (tap + slots));
    FieldsAt(p, other, pos);
    var at := pos + |EncodeFields(p)|;
    AtSplit(other, at, count, tap + slots);
    AtSplit(other, at + 1, tap, slots);
    ReadU8At(other, at, count[0]);
    BindingRoundTrip(Cli, p.tap, other, at + 1);
    BindingsRoundTrip(Cli, front, other, at + 1 + |tap|);
    BindingsNext(Cli, other, at + 1 + |tap|, |front|, front, at + 1 + |tap| + |slots|);
    SlotsStopProfile(p, other, pos);
  }

  lemma LastRecordStops(body: seq<Byte>, n: nat)
    requires 0 < n && HEADER_BASE + 2 * n <= |body|
    requires
      var off := U16At(body, HEADER_BASE + 2 * (n - 1));
      off >= |body| || ParseProfile(Cli, body, off).Stop?
    ensures ParseProfiles(Cli, body, n, n).Err?
  {
    hide ParseProfile, U16At;
  }

  /** The body with such a last byte has no last record. */
  lemma BodyRefused(c: Config, other: seq<Byte>)
    requires Storable(Cli, c) && c.profiles != [] && LastProfile(c).slots != [] && ConfigSize(c) < 0x1_0000
    requires Twisted(LastBinding(LastProfile(c)), 0) == None
    requires 0 < |EncodeBody(c)| == |other| && other[|other| - 1] > MAX_STEPS
    requires other[..|other| - 1] == EncodeBody(c)[..|other| - 1]
    ensures HEADER_BASE + 2 * |c.profiles| <= |other| && ParseProfiles(Cli, other, |c.profiles|, |c.profiles|).Err?
  {
    hide At, EncodeBody, BodyFront, ProfileFront, EncodeBinding, ParseBinding, ParseProfile, ParseProfiles, Twisted,
      U16At, ConfigSize, Storable, StorableProfile, StorableBinding, EncodeProfile;
    var body, n, p := EncodeBody(c), |other| - 1, LastProfile(c);
    var start, last := |BodyFront(c)|, EncodeBinding(LastBinding(p));
    LastOffset(c);
    LastStorable(c);
    BodyFrontThenLast(c);
    ProfileFrontThenLast(p);
    BindingSome(LastBinding(p));
    var piece := last[..|last| - 1];
    assert BodyFront(c) + (ProfileFront(p) + last) == BodyFront(c) + ProfileFront(p) + last;
    LaidOut(body, other, BodyFront(c), ProfileFront(p), last);
    BindingRefused(LastBinding(p), other, start + |ProfileFront(p)|);
    RecordRefused(p, other, start);
    SameEntry(body, other, n, HEADER_BASE + 2 * (|c.profiles| - 1));
    LastRecordStops(other, |c.profiles|);
  }

  lemma BindingSome(b: Binding)
    ensures |EncodeBinding(b)| > 0
  {
  }

  lemma LaidOut(body: seq<Byte>, other: seq<Byte>, a: seq<Byte>, b: seq<Byte>, last: seq<Byte>)
    requires |last| > 0 && body == a + b + last && |other| == |body|
    requires other[..|other| - 1] == body[..|other| - 1]
    ensures At(other, |a|, b) && At(other, |a| + |b|, last[..|last| - 1])
  {
    var n := |other| - 1;
    assert forall k :: 0 <= k < n ==> other[k] == other[..n][k] && body[k] == body[..n][k];
    assert forall k :: |a| <= k < |a| + |b| ==> body[k] == b[k - |a|];
    assert forall k :: |a| + |b| <= k < n ==> body[k] == last[k - |a| - |b|];
    assert other[|a|..|a| + |b|] == b;
    assert other[|a| + |b|..n] == last[..|last| - 1];
  }

  lemma SameEntry(buf: seq<Byte>, other: seq<Byte>, n: nat, pos: nat)
    requires pos + 2 <= n <= |buf| && n <= |other| && buf[..n] == other[..n]
    ensures U16At(buf, pos) == U16At(other, pos)
  {
    assert buf[pos] == buf[..n][pos] && other[pos] == other[..n][pos];
    assert buf[pos + 1] == buf[..n][pos + 1] && other[pos + 1] == other[..n][pos + 1];
  }

  // ----- exactly when it is accepted

  lemma ZeroDiffers(w: Byte)
    requires Xor(0, w) == 0x89
    ensures w == 0x89
  {
    hide Xor;
    XorNothing(w);
  }

  lemma {:induction false} XorNothing(v: nat)
    ensures Xor(0, v) == v
  {
    if v > 0 {
      XorNothing(v / 2);
    }
  }

  lemma TwistNone(b: Binding, w: Byte)
    ensures Twisted(b, w) == None <==> Twisted(b, 0) == None
  {
  }

  lemma EndsInZero(b: Binding)
    requires StorableBinding(Cli, b) && Twisted(b, 0) == None
    ensures |EncodeBinding(b)| > 0 && EncodeBinding(b)[|EncodeBinding(b)| - 1] == 0
  {
    hide EncodeRgb, StorableStep;
    if b.steps == [] {
      assert EncodeBinding(b) == EncodeRgb(b.color) + [0];
    } else {
      EmptyTextLast(b);
    }
  }

  lemma BodyEndsInZero(c: Config)
    requires Storable(Cli, c) && c.profiles != [] && LastProfile(c).slots != []
    requires Twisted(LastBinding(LastProfile(c)), 0) == None
    ensures |EncodeBody(c)| > 0 && EncodeBody(c)[|EncodeBody(c)| - 1] == 0
  {
    hide EncodeBody, BodyFront, ProfileFront, EncodeBinding, EncodeProfile, Twisted, Storable, StorableBinding,
      StorableProfile;
    var p := LastProfile(c);
    LastStorable(c);
    BodyFrontThenLast(c);
    ProfileFrontThenLast(p);
    EndsInZero(LastBinding(p));
    assert EncodeBody(c) == BodyFront(c) + ProfileFront(p) + EncodeBinding(LastBinding(p));
  }

  lemma CliStores(d: Dialect, c: Config)
    requires Storable(d, c)
    ensures Storable(Cli, c)
  {
    hide Utf8.WellFormed;
    forall p | p in c.profiles
      ensures StorableProfile(Cli, p)
    {
      assert StorableProfile(d, p);
      CliStoresBinding(d, p.tap);
      forall b | b in p.slots
        ensures StorableBinding(Cli, b)
      {
        CliStoresBinding(d, b);
      }
    }
  }

  lemma CliStoresBinding(d: Dialect, b: Binding)
    requires StorableBinding(d, b)
    ensures StorableBinding(Cli, b)
  {
    hide Utf8.WellFormed;
    forall s | s in b.steps
      ensures StorableStep(Cli, s)
    {
      assert StorableStep(d, s);
    }
  }

  lemma HeaderKept(c: Config, end: nat, damaged: seq<Byte>)
    requires Storable(Cli, c) && ConfigSize(c) < 0x1_0000 && end == |EncodeBody(c)| >= 14
    requires |damaged| == |Encode(c)| == end + 2 && SameBut(Encode(c), damaged, end - 1)
    ensures damaged[7] == |c.profiles| && BlobLength(damaged) == ConfigSize(c)
    ensures damaged[..end - 1] == EncodeBody(c)[..end - 1]
  {
    hide EncodeBody, ConfigSize, Crc16, StorableProfile, Encode, At, EncodeHeader;
    var data := Encode(c);
    EncodedParts(c);
    BodyParts(Cli, c);
    FrontAt(data, EncodeBody(c), EncodeHeader(c));
    HeaderFields(Cli, c, data);
    assert forall i :: 0 <= i < end ==> EncodeBody(c)[i] == data[..end][i];
  }

  lemma FrontAt(data: seq<Byte>, body: seq<Byte>, piece: seq<Byte>)
    requires |body| <= |data| && data[..|body|] == body && At(body, 0, piece)
    ensures At(data, 0, piece)
  {
    assert data[0..|piece|] == data[..|body|][0..|piece|];
  }

  lemma RefusedBody(damaged: seq<Byte>, end: nat, n: nat)
    requires end + 2 <= |damaged| && end >= 12 && damaged[7] == n && BlobLength(damaged) == end + 2
    requires HEADER_BASE + 2 * n <= end && ParseProfiles(Cli, damaged[..end], n, n).Err?
    ensures Decode(Cli, damaged) == Err
  {
    hide ParseProfiles, Crc16;
  }

  lemma MaskedRefused(c: Config, end: nat, damaged: seq<Byte>)
    requires Storable(Cli, c) && c.profiles != [] && LastProfile(c).slots != [] && ConfigSize(c) < 0x1_0000
    requires end == |EncodeBody(c)| >= 14 && |damaged| == |Encode(c)| == end + 2 == ConfigSize(c)
    requires SameBut(Encode(c), damaged, end - 1) && Masked(Encode(c), damaged, end)
    requires Twisted(LastBinding(LastProfile(c)), 0) == None
    ensures Decode(Cli, damaged) == Err
  {
    hide EncodeBody, Crc16, StorableProfile, Encode, Decode, Twisted, ParseProfiles, BlobLength, SameBut, Xor, Storable,
      ConfigSize;
    HeaderKept(c, end, damaged);
    BodyEndsInZero(c);
    EncodedParts(c);
    assert Encode(c)[end - 1] == Encode(c)[..end][end - 1];
    ZeroDiffers(damaged[end - 1]);
    var other := damaged[..end];
    assert other[..end - 1] == damaged[..end - 1];
    BodyRefused(c, other);
    RefusedBody(damaged, end, |c.profiles|);
  }

  lemma MaskedAccepted(c: Config, end: nat, damaged: seq<Byte>, b: Binding)
    requires Storable(Cli, c) && c.profiles != [] && LastProfile(c).slots != [] && ConfigSize(c) < 0x1_0000
    requires 0 < end == |EncodeBody(c)| && |damaged| == |Encode(c)| == end + 2
    requires SameBut(Encode(c), damaged, end - 1) && Masked(Encode(c), damaged, end)
    requires Twisted(LastBinding(LastProfile(c)), damaged[end - 1]) == Some(b)
    ensures Decode(Cli, damaged) == Ok(WithLast(c, b))
  {
    hide Encode, Decode, Storable, ConfigSize, SameBut, Masked, Twisted, WithLast, EncodeBody;
    DamagedIsEncoding(c, end, damaged, b);
    TwistStorable(c, damaged[end - 1]);
    TwistSize(c, damaged[end - 1], b);
    DecodeEncode(Cli, WithLast(c, b), []);
    assert damaged + [] == damaged;
  }

  lemma MaskedCli(c: Config, end: nat, damaged: seq<Byte>)
    requires Storable(Cli, c) && c.profiles != [] && LastProfile(c).slots != [] && ConfigSize(c) < 0x1_0000
    requires end == |EncodeBody(c)| >= 14 && |damaged| == |Encode(c)| == end + 2 == ConfigSize(c)
    requires SameBut(Encode(c), damaged, end - 1) && Masked(Encode(c), damaged, end)
    ensures Decode(Cli, damaged)
         == match Twisted(LastBinding(LastProfile(c)), damaged[end - 1])
            case None => Err
            case Some(b) => Ok(WithLast(c, b))
  {
    hide Encode, Decode, Storable, ConfigSize, SameBut, Masked, Twisted, WithLast, EncodeBody;
    TwistNone(LastBinding(LastProfile(c)), damaged[end - 1]);
    match Twisted(LastBinding(LastProfile(c)), damaged[end - 1])
    case None => MaskedRefused(c, end, damaged);
    case Some(b) => MaskedAccepted(c, end, damaged, b);
  }

  /**
   The one pattern of damage that the CRC misses, on the encoding of any storable configuration: it
   is accepted exactly when the last step's encoding ends in a byte that can be anything, and then
   decodes to the configuration with that byte changed. A step count or a text length of 0 becomes
   137 and is refused; the firmware besides refuses a text that is no longer UTF-8.
   */
  lemma MaskedIff(d: Dialect, c: Config, end: nat, damaged: seq<Byte>)
    requires Storable(d, c) && c.profiles != [] && LastProfile(c).slots != [] && ConfigSize(c) < 0x1_0000
    requires 0 < end && end + 2 == |Encode(c)| == |damaged|
    requires SameBut(Encode(c), damaged, end - 1) && Masked(Encode(c), damaged, end)
    ensures
      match Twisted(LastBinding(LastProfile(c)), damaged[end - 1])
      case None => Decode(Cli, damaged) == Err && Decode(Firmware, damaged) == Err
      case Some(b) =>
        var other := WithLast(c, b);
        && Decode(Cli, damaged) == Ok(other)
        && Decode(Firmware, damaged) == if Storable(Firmware, other) then Ok(other) else Err
  {
    hide Encode, Decode, Storable, ConfigSize, SameBut, Masked, Twisted, WithLast, EncodeBody;
    CliStores(d, c);
    EncodedParts(c);
    MaskedCli(c, end, damaged);
    DecodersAgree(damaged);
  }

  lemma TwistSize(c: Config, w: Byte, b: Binding)
    requires Storable(Cli, c) && c.profiles != [] && LastProfile(c).slots != []
    requires Twisted(LastBinding(LastProfile(c)), w) == Some(b)
    ensures ConfigSize(WithLast(c, b)) == ConfigSize(c)
  {
    hide Storable, ConfigSize, Twisted, EncodeBinding, BindingSize, EndIn, StorableBinding, WithLast;
    var last := EncodeBinding(LastBinding(LastProfile(c)));
    LastStorable(c);
    BindingTwists(LastBinding(LastProfile(c)), w);
    BodyTwists(c, b, last[|last| - 1], w);
  }

  /**
   So the check alone does not protect the last byte: every configuration whose last step is a key
   press, a media key, a delay or a text has a damage to two adjacent bytes of its blob that passes
   the check and changes the blob.
   */
  lemma DamageMissed(c: Config) returns (damaged: seq<Byte>)
    requires Storable(Cli, c) && ConfigSize(c) < 0x1_0000
    requires c.profiles != [] && LastProfile(c).slots != []
    requires Twisted(LastBinding(LastProfile(c)), 0).Some?
    ensures |Encode(c)| > 2 && SameBut(Encode(c), damaged, |Encode(c)| - 3) && damaged != Encode(c)
    ensures Decode(Cli, damaged).Ok? && Decode(Cli, damaged).value != c
  {
    hide Encode, Decode, Storable, StorableProfile, ConfigSize, Twisted, WithLast, EncodeBody, Xor, Crc16, U16LE;
    var end := |EncodeBody(c)|;
    EncodedParts(c);
    damaged := Damage(Encode(c), end);
    TwistNone(LastBinding(LastProfile(c)), damaged[end - 1]);
    MaskedIff(Cli, c, end, damaged);
    EncodedIsNot(c, damaged, end);
    DecodeEncode(Cli, c, []);
    assert Encode(c) + [] == Encode(c);
    TwistDiffers(c, damaged, end);
  }

  /** The pattern, put on a blob. */
  lemma Damage(data: seq<Byte>, end: nat) returns (damaged: seq<Byte>)
    requires 0 < end && |data| == end + 2
    ensures |damaged| == |data| && SameBut(data, damaged, end - 1) && Masked(data, damaged, end)
  {
    hide Xor;
    var a := Mask(data[end - 1], 0x89);
    var b := Mask(data[end], 0xA1);
    damaged := data[end - 1 := a][end := b];
  }

  lemma Mask(x: Byte, mask: Byte) returns (y: Byte)
    ensures Xor(x, y) == mask
  {
    hide Xor;
    Pow2Values();
    XorBound(x, mask, 8);
    y := Xor(x, mask);
    XorTwice(x, mask);
  }

  lemma {:induction false} XorTwice(a: nat, b: nat)
    ensures Xor(a, Xor(a, b)) == b
    decreases a + b
  {
    XorHalves(a, b);
    XorHalves(a, Xor(a, b));
    if a > 0 || b > 0 {
      XorTwice(a / 2, b / 2);
    }
  }

  lemma EncodedIsNot(c: Config, damaged: seq<Byte>, end: nat)
    requires 0 < end && |Encode(c)| == end + 2 == |damaged| && Masked(Encode(c), damaged, end)
    ensures damaged[end - 1] != Encode(c)[end - 1] && damaged != Encode(c)
  {
    hide Xor, Encode;
    XorNeverMask(Encode(c)[end - 1]);
  }

  lemma TwistDiffers(c: Config, damaged: seq<Byte>, end: nat)
    requires Storable(Cli, c) && c.profiles != [] && LastProfile(c).slots != [] && ConfigSize(c) < 0x1_0000
    requires 0 < end == |EncodeBody(c)| && |damaged| == |Encode(c)| == end + 2 && damaged != Encode(c)
    requires SameBut(Encode(c), damaged, end - 1) && Masked(Encode(c), damaged, end)
    requires Twisted(LastBinding(LastProfile(c)), damaged[end - 1]).Some?
    ensures WithLast(c, Twisted(LastBinding(LastProfile(c)), damaged[end - 1]).value) != c
  {
    hide Encode, Storable, ConfigSize, Twisted, WithLast, EncodeBody, Masked, SameBut;
    DamagedIsEncoding(c, end, damaged, Twisted(LastBinding(LastProfile(c)), damaged[end - 1]).value);
  }
}
