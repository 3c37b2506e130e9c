/**
 The documented layout of a blob, field by field at its offset, and the proof that a decoder accepts
 exactly the blobs so laid out, as exactly the configuration that lies there.
 */
module Layout {
  import opened Bytes
  import opened Configs
  import opened Format
  import Crc
  import RoundTrip
  import Utf8

  /** A little-endian number. */
  function Number(low: Byte, high: Byte): U16 {
    low as int + 0x100 * high as int
  }

  /** What the firmware asks of a string. */
  predicate Spelled(d: Dialect, text: seq<Byte>) {
    d.Cli? || Utf8.WellFormed(text)
  }

  predicate StepLies(d: Dialect, data: seq<Byte>, at: nat, s: Step) {
    match s
    case Key(keycode, mods) =>
      at + 3 <= |data| && data[at] == 0 && data[at + 1] == keycode && data[at + 2] == mods
    case Text(text) =>
      && at + 2 + |text| <= |data| && data[at] == 1 && data[at + 1] as int == |text|
      && data[at + 2..at + 2 + |text|] == text && Spelled(d, text)
    case Consumer(code) =>
      at + 3 <= |data| && data[at] == 2 && Number(data[at + 1], data[at + 2]) == code
    case Delay(ms) =>
      at + 3 <= |data| && data[at] == 3 && Number(data[at + 1], data[at + 2]) == ms
    case Unknown(_) => false
  }

  /** The steps one after another. */
  predicate StepsLie(d: Dialect, data: seq<Byte>, at: nat, steps: seq<Step>) {
    steps == []
    || (var front := steps[..|steps| - 1];
        StepsLie(d, data, at, front) && StepLies(d, data, at + StepsSize(front), steps[|steps| - 1]))
  }

  predicate BindingLies(d: Dialect, data: seq<Byte>, at: nat, b: Binding) {
    && at + 4 <= |data|
    && data[at] == b.color.r && data[at + 1] == b.color.g && data[at + 2] == b.color.b
    && data[at + 3] as int == |b.steps| <= 64
    && StepsLie(d, data, at + 4, b.steps)
  }

  /** The bindings one after another. */
  predicate BindingsLie(d: Dialect, data: seq<Byte>, at: nat, bs: seq<Binding>) {
    bs == []
    || (var front := bs[..|bs| - 1];
        BindingsLie(d, data, at, front) && BindingLies(d, data, at + BindingsSize(front), bs[|bs| - 1]))
  }

  predicate NameLies(d: Dialect, data: seq<Byte>, at: nat, name: seq<Byte>) {
    && at + 1 + |name| <= |data| && data[at] as int == |name| <= 16
    && data[at + 1..at + 1 + |name|] == name && Spelled(d, name)
  }

  /** The twelve bytes after the name. */
  predicate FieldsLie(d: Dialect, data: seq<Byte>, at: nat, p: Profile) {
    && at + 12 <= |data|
    && Number(data[at], data[at + 1]) == p.dwellMs
    && Number(data[at + 2], data[at + 3]) == p.tapMaxMs
    && data[at + 4] == p.overflow && data[at + 5] == p.extCount
    && data[at + 6] == p.brightness && data[at + 7] == p.idleMode
    && data[at + 8] == p.idleColor.r && data[at + 9] == p.idleColor.g && data[at + 10] == p.idleColor.b
    && data[at + 11] as int == |p.slots| && 1 <= |p.slots| <= 16
    && (d.Firmware? ==> p.overflow <= 2 && p.idleMode <= 3)
  }

  predicate ProfileLies(d: Dialect, data: seq<Byte>, at: nat, p: Profile) {
    && NameLies(d, data, at, p.name)
    && FieldsLie(d, data, at + 1 + |p.name|, p)
    && BindingLies(d, data, at + 13 + |p.name|, p.tap)
    && BindingsLie(d, data, at + 13 + |p.name| + BindingSize(p.tap), p.slots)
  }

  lemma StepParsed(d: Dialect, data: seq<Byte>, at: nat, s: Step, next: nat)
    ensures ParseStep(d, data, at) == Got(s, next) <==> StepLies(d, data, at, s) && next == at + StepSize(s)
  {
    hide Utf8.WellFormed;
  }

  lemma StepsLieNone(d: Dialect, data: seq<Byte>, at: nat)
    ensures StepsLie(d, data, at, []) && StepsSize([]) == 0
  {
  }

  lemma StepsLieMore(d: Dialect, data: seq<Byte>, at: nat, steps: seq<Step>, s: Step)
    ensures StepsLie(d, data, at, steps + [s])
       <==> StepsLie(d, data, at, steps) && StepLies(d, data, at + StepsSize(steps), s)
    ensures StepsSize(steps + [s]) == StepsSize(steps) + StepSize(s)
  {
    hide StepLies, StepSize;
    assert (steps + [s])[..|steps|] == steps;
  }

  lemma {:induction false} StepsRead(d: Dialect, data: seq<Byte>, at: nat, n: nat)
    requires ParseSteps(d, data, at, n).Got?
    ensures
      var Got(steps, next) := ParseSteps(d, data, at, n);
      |steps| == n && StepsLie(d, data, at, steps) && next == at + StepsSize(steps)
  {
    hide ParseStep, StepLies, StepSize, StepsLie, StepsSize;
    if n == 0 {
      StepsLieNone(d, data, at);
    } else {
      StepsRead(d, data, at, n - 1);
      var Got(front, middle) := ParseSteps(d, data, at, n - 1);
      var Got(s, next) := ParseStep(d, data, middle);
      StepParsed(d, data, middle, s, next);
      StepsLieMore(d, data, at, front, s);
    }
  }

  lemma {:induction false} StepsFound(d: Dialect, data: seq<Byte>, at: nat, steps: seq<Step>)
    requires StepsLie(d, data, at, steps)
    ensures ParseSteps(d, data, at, |steps|) == Got(steps, at + StepsSize(steps))
  {
    hide ParseStep, StepLies, StepSize, StepsLie, StepsSize;
    if steps == [] {
      StepsLieNone(d, data, at);
    } else {
      var n := |steps| - 1;
      assert steps[..n] + [steps[n]] == steps;
      StepsLieMore(d, data, at, steps[..n], steps[n]);
      StepsFound(d, data, at, steps[..n]);
      var middle := at + StepsSize(steps[..n]);
      StepParsed(d, data, middle, steps[n], middle + StepSize(steps[n]));
    }
  }

  lemma BindingRead(d: Dialect, data: seq<Byte>, at: nat)
    requires ParseBinding(d, data, at).Got?
    ensures
      var Got(b, next) := ParseBinding(d, data, at);
      BindingLies(d, data, at, b) && next == at + BindingSize(b)
  {
    hide ParseSteps, StepsLie, StepsSize;
    StepsRead(d, data, at + 4, data[at + 3] as int);
  }

  lemma BindingFound(d: Dialect, data: seq<Byte>, at: nat, b: Binding)
    requires BindingLies(d, data, at, b)
    ensures ParseBinding(d, data, at) == Got(b, at + BindingSize(b))
  {
    hide ParseSteps, StepsLie, StepsSize;
    StepsFound(d, data, at + 4, b.steps);
  }

  lemma BindingsLieNone(d: Dialect, data: seq<Byte>, at: nat)
    ensures BindingsLie(d, data, at, []) && BindingsSize([]) == 0
  {
  }

  lemma BindingsLieMore(d: Dialect, data: seq<Byte>, at: nat, bs: seq<Binding>, b: Binding)
    ensures BindingsLie(d, data, at, bs + [b])
       <==> BindingsLie(d, data, at, bs) && BindingLies(d, data, at + BindingsSize(bs), b)
    ensures BindingsSize(bs + [b]) == BindingsSize(bs) + BindingSize(b)
  {
    hide BindingLies, BindingSize;
    assert (bs + [b])[..|bs|] == bs;
  }

  lemma {:induction false} BindingsRead(d: Dialect, data: seq<Byte>, at: nat, n: nat)
    requires ParseBindings(d, data, at, n).Got?
    ensures
      var Got(bs, next) := ParseBindings(d, data, at, n);
      |bs| == n && BindingsLie(d, data, at, bs) && next == at + BindingsSize(bs)
  {
    hide ParseBinding, BindingLies, BindingSize, BindingsLie, BindingsSize;
    if n == 0 {
      BindingsLieNone(d, data, at);
    } else {
      BindingsRead(d, data, at, n - 1);
      var Got(front, middle) := ParseBindings(d, data, at, n - 1);
      BindingRead(d, data, middle);
      var b := ParseBinding(d, data, middle).value;
      BindingsLieMore(d, data, at, front, b);
    }
  }

  lemma {:induction false} BindingsFound(d: Dialect, data: seq<Byte>, at: nat, bs: seq<Binding>)
    requires BindingsLie(d, data, at, bs)
    ensures ParseBindings(d, data, at, |bs|) == Got(bs, at + BindingsSize(bs))
  {
    hide ParseBinding, BindingLies, BindingSize, BindingsLie, BindingsSize;
    if bs == [] {
      BindingsLieNone(d, data, at);
    } else {
      var n := |bs| - 1;
      assert bs[..n] + [bs[n]] == bs;
      BindingsLieMore(d, data, at, bs[..n], bs[n]);
      BindingsFound(d, data, at, bs[..n]);
      BindingFound(d, data, at + BindingsSize(bs[..n]), bs[n]);
    }
  }

  lemma NameParsed(d: Dialect, data: seq<Byte>, at: nat, name: seq<Byte>, next: nat)
    ensures ParseName(d, data, at) == Got(name, next) <==> NameLies(d, data, at, name) && next == at + 1 + |name|
  {
    hide Utf8.WellFormed;
  }

  /** The name and the fields of a record that was read, and where its bindings were read from. */
  lemma FieldsRead(d: Dialect, data: seq<Byte>, at: nat)
    requires ParseProfile(d, data, at).Got?
    ensures
      var p, name := ParseProfile(d, data, at).value, ParseName(d, data, at);
      && name.Got? && name.value == p.name && FieldsLie(d, data, name.next, p)
      && ParseBinding(d, data, name.next + 12).Got? && ParseBinding(d, data, name.next + 12).value == p.tap
      && ParseBindings(d, data, ParseBinding(d, data, name.next + 12).next, |p.slots|).Got?
      && ParseBindings(d, data, ParseBinding(d, data, name.next + 12).next, |p.slots|).value == p.slots
  {
    hide ParseName, ParseBinding, ParseBindings, BindingsLie, BindingsSize;
    var f := ParseName(d, data, at).next;
    BindingsRead(d, data, ParseBinding(d, data, f + 12).next, data[f + 11] as int);
  }

  /** A profile record is read exactly where it lies, and as what lies there. */
  lemma ProfileRead(d: Dialect, data: seq<Byte>, at: nat)
    requires ParseProfile(d, data, at).Got?
    ensures ProfileLies(d, data, at, ParseProfile(d, data, at).value)
  {
    hide ParseName, NameLies, FieldsLie, ParseProfile, ParseBinding, ParseBindings, BindingLies, BindingsLie,
      BindingSize, BindingsSize;
    var p, name := ParseProfile(d, data, at).value, ParseName(d, data, at);
    FieldsRead(d, data, at);
    NameParsed(d, data, at, p.name, name.next);
    BindingRead(d, data, name.next + 12);
    BindingsRead(d, data, ParseBinding(d, data, name.next + 12).next, |p.slots|);
  }

  lemma ProfileFound(d: Dialect, data: seq<Byte>, at: nat, p: Profile)
    requires ProfileLies(d, data, at, p)
    ensures ParseProfile(d, data, at) == Got(p, at + ProfileSize(p))
  {
    hide ParseName, NameLies, ParseBinding, ParseBindings, BindingLies, BindingsLie, BindingSize, BindingsSize;
    var f := at + 1 + |p.name|;
    NameParsed(d, data, at, p.name, f);
    BindingFound(d, data, f + 12, p.tap);
    BindingsFound(d, data, f + 12 + BindingSize(p.tap), p.slots);
    assert data[f + 4..f + 8] == [p.overflow, p.extCount, p.brightness, p.idleMode];
    assert data[f + 8..f + 11] == [p.idleColor.r, p.idleColor.g, p.idleColor.b];
  }

  // ----- the whole blob

  /** The record that table entry `i` of `n` points to lies behind the table and inside the body. */
  predicate RecordLies(d: Dialect, body: seq<Byte>, n: nat, i: nat, p: Profile)
    requires i < n && 10 + 2 * n <= |body|
  {
    var at := Number(body[10 + 2 * i], body[11 + 2 * i]);
    10 + 2 * n <= at < |body| && ProfileLies(d, body, at, p)
  }

  predicate RecordsLie(d: Dialect, body: seq<Byte>, n: nat, ps: seq<Profile>)
    requires |ps| <= n && 10 + 2 * n <= |body|
  {
    forall i :: 0 <= i < |ps| ==> RecordLies(d, body, n, i, ps[i])
  }

  /** Magic, version, and a length that the buffer holds. */
  predicate HeaderLies(data: seq<Byte>, size: nat) {
    && |data| >= 12
    && data[0] == 0x4B && data[1] == 0x42 && data[2] == 0x32 && data[3] == 0x4B
    && data[4] == 1
    && Number(data[8], data[9]) == size && 12 <= size <= |data|
  }

  /** The configuration lies in the data as documented; bytes after the announced size are free. */
  predicate BlobLies(d: Dialect, data: seq<Byte>, size: nat, c: Config) {
    && HeaderLies(data, size)
    && Number(data[size - 2], data[size - 1]) == Crc.Crc16(data[..size - 2])
    && c.version == 1 && c.active == data[6] as int
    && data[7] as int == |c.profiles| && 1 <= |c.profiles| <= 8 && c.active < |c.profiles|
    && 10 + 2 * |c.profiles| <= size - 2
    && RecordsLie(d, data[..size - 2], |c.profiles|, c.profiles)
  }

  lemma {:induction false} RecordsRead(d: Dialect, body: seq<Byte>, n: nat, i: nat)
    requires i <= n && 10 + 2 * n <= |body| && ParseProfiles(d, body, n, i).Ok?
    ensures
      var ps := ParseProfiles(d, body, n, i).value;
      |ps| == i && RecordsLie(d, body, n, ps)
  {
    hide ParseProfile, ProfileLies;
    if i > 0 {
      RecordsRead(d, body, n, i - 1);
      ProfileRead(d, body, Number(body[8 + 2 * i], body[9 + 2 * i]));
    }
  }

  lemma {:induction false} RecordsFound(d: Dialect, body: seq<Byte>, n: nat, ps: seq<Profile>)
    requires |ps| <= n && 10 + 2 * n <= |body| && RecordsLie(d, body, n, ps)
    ensures ParseProfiles(d, body, n, |ps|) == Ok(ps)
  {
    hide ParseProfile, ProfileLies;
    if ps != [] {
      var k := |ps| - 1;
      RecordsFound(d, body, n, ps[..k]);
      assert RecordLies(d, body, n, k, ps[k]);
      ProfileFound(d, body, Number(body[10 + 2 * k], body[11 + 2 * k]), ps[k]);
      assert ps[..k] + [ps[k]] == ps;
    }
  }

  lemma HeaderIff(data: seq<Byte>)
    ensures GoodHeader(data) <==> |data| >= 12 && HeaderLies(data, BlobLength(data))
  {
    if |data| >= 12 {
      assert data[..4] == [data[0], data[1], data[2], data[3]];
    }
  }

  /**
   Both decoders accept exactly the data in which a configuration lies as documented, and return
   just that configuration.
   */
  lemma DecodedIff(d: Dialect, data: seq<Byte>, c: Config)
    ensures Decode(d, data) == Ok(c) <==> exists size: nat :: BlobLies(d, data, size, c)
  {
    if Decode(d, data) == Ok(c) {
      DecodedLies(d, data);
    }
    if size: nat :| BlobLies(d, data, size, c) {
      LyingDecodes(d, data, size, c);
    }
  }

  lemma DecodedLies(d: Dialect, data: seq<Byte>)
    requires Decode(d, data).Ok?
    ensures BlobLies(d, data, BlobLength(data), Decode(d, data).value)
  {
    hide ParseProfiles, RecordsLie, Crc.Crc16;
    HeaderIff(data);
    var n, size := data[7] as int, BlobLength(data);
    RecordsRead(d, data[..size - 2], n, n);
  }

  lemma LyingDecodes(d: Dialect, data: seq<Byte>, size: nat, c: Config)
    requires BlobLies(d, data, size, c)
    ensures Decode(d, data) == Ok(c)
  {
    hide ParseProfiles, RecordsLie, Crc.Crc16;
    HeaderIff(data);
    RecordsFound(d, data[..size - 2], |c.profiles|, c.profiles);
  }

  /** Where in decoded data the name and the fields of a profile lie. */
  lemma RecordOf(d: Dialect, data: seq<Byte>, c: Config, i: nat) returns (at: nat)
    requires Decode(d, data) == Ok(c) && i < |c.profiles|
    ensures NameLies(d, data, at, c.profiles[i].name)
    ensures FieldsLie(d, data, at + 1 + |c.profiles[i].name|, c.profiles[i])
  {
    hide Decode, Crc.Crc16, ProfileLies, NameLies, FieldsLie;
    DecodedLies(d, data);
    var p, body := c.profiles[i], data[..BlobLength(data) - 2];
    assert RecordLies(d, body, |c.profiles|, i, p);
    at := Number(body[10 + 2 * i], body[11 + 2 * i]);
    InFront(d, data, BlobLength(data) - 2, at, p);
  }

  /** What lies in the front of some data lies in the data. */
  lemma InFront(d: Dialect, data: seq<Byte>, n: nat, at: nat, p: Profile)
    requires n <= |data| && ProfileLies(d, data[..n], at, p)
    ensures NameLies(d, data, at, p.name) && FieldsLie(d, data, at + 1 + |p.name|, p)
  {
    hide BindingLies, BindingsLie, Spelled;
    assert data[..n][at + 1..at + 1 + |p.name|] == data[at + 1..at + 1 + |p.name|];
  }

  /** Where the printer puts record `i`: right behind the one before it, the first behind the table. */
  lemma EntryPrinted(c: Config, i: nat)
    requires Storable(Cli, c) && ConfigSize(c) < 0x1_0000 && i < |c.profiles|
    ensures
      var body := EncodeBody(c);
      && 12 + 2 * i <= |body|
      && Number(body[10 + 2 * i], body[11 + 2 * i]) == 10 + 2 * |c.profiles| + ProfilesSize(c.profiles[..i])
  {
    hide EncodeProfile, EncodeProfiles, EncodeOffsets, EncodeBody, StorableProfile, EncodableProfile, ProfilesSize,
      EncodeHeader;
    var n := |c.profiles|;
    var base := 10 + 2 * n;
    var offsets := EncodeOffsets(base, c.profiles);
    RoundTrip.BodyParts(Cli, c);
    RoundTrip.StorableIsEncodable(Cli, c);
    RoundTrip.EncodedSize(c);
    RoundTrip.EncodedProfilesSize(c.profiles);
    RoundTrip.EncodedProfilesSize(c.profiles[..i]);
    RoundTrip.OffsetAt(base, c.profiles, i);
    assert EncodeBody(c)[10..10 + |offsets|] == offsets;
    assert offsets[2 * i] == EncodeBody(c)[10 + 2 * i] && offsets[2 * i + 1] == EncodeBody(c)[11 + 2 * i];
  }

  lemma PrintedHeader(c: Config, rest: seq<Byte>)
    requires Storable(Cli, c) && ConfigSize(c) < 0x1_0000
    ensures
      var data := Encode(c) + rest;
      |data| >= 12 && data[5] == 0 && Number(data[8], data[9]) == ConfigSize(c)
  {
    hide EncodeOffsets, EncodeProfiles, StorableProfile, ProfilesSize, EncodableProfile, Crc.Crc16;
    RoundTrip.StorableIsEncodable(Cli, c);
    RoundTrip.EncodedSize(c);
    RoundTrip.HeaderSize(c);
    var h, data := EncodeHeader(c), Encode(c) + rest;
    assert data[..10] == h;
    assert h[8..10] == U16LE(ConfigSize(c));
    assert data[5] == data[..10][5] && data[8] == h[8..10][0] && data[9] == h[8..10][1];
  }

  /**
   What the printer prints of a configuration the CLI validates, followed by anything: the documented
   layout, a reserved byte of 0, and records back to back from the end of the table to the checksum.
   */
  lemma PrintedLies(c: Config, rest: seq<Byte>)
    requires Valid(c)
    ensures
      var data, n := Encode(c) + rest, |c.profiles|;
      && BlobLies(Cli, data, ConfigSize(c), c) && data[5] == 0
      && ConfigSize(c) == 10 + 2 * n + ProfilesSize(c.profiles) + 2
      && forall i :: 0 <= i < n ==>
           Number(data[10 + 2 * i], data[11 + 2 * i]) == 10 + 2 * n + ProfilesSize(c.profiles[..i])
  {
    hide Encode, Decode, ProfilesSize, RecordsLie, StorableProfile, ValidProfile, EncodableProfile, EncodeBody;
    RoundTrip.ValidIsStorable(c);
    RoundTrip.DecodeEncode(Cli, c, rest);
    var data, n := Encode(c) + rest, |c.profiles|;
    DecodedLies(Cli, data);
    PrintedHeader(c, rest);
    RoundTrip.StorableIsEncodable(Cli, c);
    RoundTrip.EncodedSize(c);
    forall i | 0 <= i < n
      ensures Number(data[10 + 2 * i], data[11 + 2 * i]) == 10 + 2 * n + ProfilesSize(c.profiles[..i])
    {
      EntryPrinted(c, i);
      BodyIsFront(c, rest);
    }
  }

  lemma BodyIsFront(c: Config, rest: seq<Byte>)
    ensures |EncodeBody(c)| <= |Encode(c) + rest| && (Encode(c) + rest)[..|EncodeBody(c)|] == EncodeBody(c)
  {
    hide EncodeBody;
  }
}
