/** The firmware's encoder and decoder, as the Python code runs them. */
module PyCodec {
  import opened Bytes
  import opened Configs
  import opened Crc
  import opened Cursors
  import opened Format
  import opened RoundTrip
  import Utf8

  /** `bytearray.append` raises on a value that is not a byte. */
  method Append(prefix: seq<Byte>, v: int) returns (r: Result<seq<Byte>>)
    ensures r == if 0 <= v < 256 then Ok(prefix + [Low(v)]) else Err
  {
    if v < 0 || v > 255 {
      return Err;
    }
    return Ok(prefix + [v]);
  }

  /** One turn of the loop in `EncodeBindingRecord`. */
  method AppendStep(prefix: seq<Byte>, s: Step) returns (r: Result<seq<Byte>>)
    ensures r == if EncodableStep(s) then Ok(prefix + EncodeStep(s)) else Err
  {
    match s {
      case Key(keycode, mods) =>
        var out := prefix + [0];
        out := out + [keycode];
        out := out + [mods];
        assert out == prefix + [0, keycode, mods];
        return Ok(out);
      case Text(text) =>
        var out := prefix + [1];
        out :- Append(out, |text|);
        assert out + text == prefix + ([1, Low(|text|)] + text);
        return Ok(out + text);
      case Consumer(code) =>
        assert prefix + [2] + U16LE(code) == prefix + ([2] + U16LE(code));
        return Ok(prefix + [2] + U16LE(code));
      case Delay(ms) =>
        assert prefix + [3] + U16LE(ms) == prefix + ([3] + U16LE(ms));
        return Ok(prefix + [3] + U16LE(ms));
      case Unknown(tag) =>
        return Err;
    }
  }

  method EncodeBindingRecord(b: Binding) returns (r: Result<seq<Byte>>)
    ensures r == if EncodableBinding(b) then Ok(EncodeBinding(b)) else Err
  {
    hide EncodeStep, EncodeSteps, EncodeRgb, EncodableStep;
    var out := EncodeRgb(b.color);
    out :- Append(out, |b.steps|);
    ghost var start := out;
    EncodeNothing();
    for i := 0 to |b.steps|
      invariant out == start + EncodeSteps(b.steps[..i])
      invariant forall s <- b.steps[..i] :: EncodableStep(s)
    {
      out :- AppendStep(out, b.steps[i]);
      EncodeStepsNext(b.steps, i);
    }
    assert b.steps[..|b.steps|] == b.steps;
    assert out == EncodeRgb(b.color) + ([Low(|b.steps|)] + EncodeSteps(b.steps));
    return Ok(out);
  }

  method EncodeProfileRecord(p: Profile) returns (r: Result<seq<Byte>>)
    ensures r == if EncodableProfile(p) then Ok(EncodeProfile(p)) else Err
  {
    hide EncodeBinding, EncodeBindings, EncodeRgb, U16LE, EncodableBinding, EncodeProfile;
    EncodeNothing();
    var out :- Append([], |p.name|);
    out := out + p.name;
    out := out + U16LE(p.dwellMs);
    out := out + U16LE(p.tapMaxMs);
    out := out + [p.overflow];
    out := out + [p.extCount];
    out := out + [p.brightness];
    out := out + [p.idleMode];
    out := out + EncodeRgb(p.idleColor);
    out :- Append(out, |p.slots|);
    ghost var head := out;
    HeadOf(p, head);
    var tap :- EncodeBindingRecord(p.tap);
    out := out + tap;
    for i := 0 to |p.slots|
      invariant out == head + EncodeBinding(p.tap) + EncodeBindings(p.slots[..i])
      invariant forall b <- p.slots[..i] :: EncodableBinding(b)
    {
      var slot :- EncodeBindingRecord(p.slots[i]);
      out := out + slot;
      EncodeBindingsNext(p.slots, i);
    }
    assert p.slots[..|p.slots|] == p.slots;
    ProfileConcat(p, head);
    return Ok(out);
  }

  lemma HeadOf(p: Profile, head: seq<Byte>)
    requires head == [] + [Low(|p.name|)] + p.name + U16LE(p.dwellMs) + U16LE(p.tapMaxMs) + [p.overflow]
                     + [p.extCount] + [p.brightness] + [p.idleMode] + EncodeRgb(p.idleColor) + [Low(|p.slots|)]
    ensures head == EncodeName(p.name) + U16LE(p.dwellMs) + U16LE(p.tapMaxMs) + EncodeModes(p)
                    + EncodeRgb(p.idleColor) + [Low(|p.slots|)]
  {
    hide EncodeRgb, U16LE;
    var left := EncodeName(p.name) + U16LE(p.dwellMs) + U16LE(p.tapMaxMs);
    assert left + [p.overflow] + [p.extCount] + [p.brightness] + [p.idleMode] == left + EncodeModes(p);
  }

  /** The first line of `EncodeConfig`: all records, or the first fault. */
  method EncodeRecords(ps: seq<Profile>) returns (r: Result<seq<seq<Byte>>>)
    ensures r.Ok? <==> forall p <- ps :: EncodableProfile(p)
    ensures r.Ok? ==> |r.value| == |ps| && forall k :: 0 <= k < |ps| ==> r.value[k] == EncodeProfile(ps[k])
  {
    hide EncodeProfile, EncodableProfile;
    var records: seq<seq<Byte>> := [];
    for i := 0 to |ps|
      invariant |records| == i && forall k :: 0 <= k < i ==> records[k] == EncodeProfile(ps[k])
      invariant forall p <- ps[..i] :: EncodableProfile(p)
    {
      var record :- EncodeProfileRecord(ps[i]);
      records := records + [record];
    }
    return Ok(records);
  }

  /** `sum(len(r) for r in records)`. */
  method TotalLength(records: seq<seq<Byte>>, ghost ps: seq<Profile>) returns (sum: nat)
    requires |records| == |ps| && forall k :: 0 <= k < |ps| ==> records[k] == EncodeProfile(ps[k])
    ensures sum == |EncodeProfiles(ps)|
  {
    hide EncodeProfile, EncodeProfiles;
    sum := 0;
    EncodeNothing();
    for i := 0 to |records|
      invariant sum == |EncodeProfiles(ps[..i])|
    {
      sum := sum + |records[i]|;
      EncodeProfilesNext(0, ps, i);
    }
    assert ps[..|ps|] == ps;
  }

  method EncodeConfig(c: Config) returns (r: Result<seq<Byte>>)
    ensures r == if Encodable(c) then Ok(Format.Encode(c)) else Err
  {
    hide EncodeProfile, EncodeProfiles, EncodeOffsets, EncodableProfile, ProfilesSize, U16LE, Crc16;
    EncodeNothing();
    var records :- EncodeRecords(c.profiles);
    var sum := TotalLength(records, c.profiles);
    EncodedProfilesSize(c.profiles);
    assert c.profiles[..|c.profiles|] == c.profiles;
    var n := |records|;
    if n < 1 || n > MAX_PROFILES || c.active >= n {
      return Err;
    }
    var headerLen := HEADER_BASE + 2 * n;
    var total := headerLen + sum + CRC_TRAILER;
    if total > NVM_SIZE {
      return Err;
    }
    var out := MAGIC;
    out := out + [c.version];
    out := out + [0];
    out :- Append(out, c.active);
    out := out + [n];
    out := out + U16LE(total);
    assert out == EncodeHeader(c);
    ghost var header := out;

    var off := headerLen;
    for i := 0 to n
      invariant off == headerLen + |EncodeProfiles(c.profiles[..i])|
      invariant out == header + EncodeOffsets(headerLen, c.profiles[..i])
    {
      out := out + U16LE(off);
      off := off + |records[i]|;
      EncodeProfilesNext(headerLen, c.profiles, i);
    }
    ghost var table := out;
    for i := 0 to n
      invariant out == table + EncodeProfiles(c.profiles[..i])
    {
      out := out + records[i];
      EncodeProfilesNext(headerLen, c.profiles, i);
    }
    assert out == EncodeBody(c);
    var crc := ComputeCrc16(out);
    return Ok(out + U16LE(crc));
  }

  /** `bytes.decode("utf-8")`. */
  method DecodeText(text: seq<Byte>) returns (r: Result<seq<Byte>>)
    ensures r == if Utf8.WellFormed(text) then Ok(text) else Err
  {
    var rest := text;
    while rest != []
      invariant Utf8.WellFormed(rest) == Utf8.WellFormed(text)
      decreases |rest|
    {
      var n := Utf8.CharLength(rest);
      if n == 0 {
        return Err;
      }
      rest := rest[n..];
    }
    return Ok(text);
  }

  method DecodeStep(c: Cursor) returns (r: Result<Step>)
    modifies c
    ensures Yields(ParseStep(Firmware, c.buf, old(c.pos)), r, c.pos)
  {
    hide Utf8.WellFormed;
    var tag :- c.U8();
    if tag == 0 {
      var pair :- c.Take(2);
      return Ok(Key(pair[0], pair[1]));
    }
    if tag == 1 {
      var n :- c.U8();
      var text :- c.Take(n);
      text :- DecodeText(text);
      return Ok(Text(text));
    }
    if tag == 2 {
      var code :- c.U16();
      return Ok(Consumer(code));
    }
    if tag == 3 {
      var ms :- c.U16();
      return Ok(Delay(ms));
    }
    return Err;
  }

  method DecodeBinding(c: Cursor) returns (r: Result<Binding>)
    modifies c
    ensures Yields(ParseBinding(Firmware, c.buf, old(c.pos)), r, c.pos)
  {
    hide ParseStep;
    var color :- c.Take(3);
    var nsteps :- c.U8();
    if nsteps > MAX_STEPS {
      return Err;
    }
    ghost var start := c.pos;
    var steps: seq<Step> := [];
    NothingParsed(Firmware, c.buf, start, 0);
    for i := 0 to nsteps
      invariant ParseSteps(Firmware, c.buf, start, i) == Got(steps, c.pos)
    {
      var s := DecodeStep(c);
      if s.Err? {
        StepsStop(Firmware, c.buf, start, i + 1, nsteps);
        return Err;
      }
      steps := steps + [s.value];
    }
    return Ok(Binding(Rgb(color[0], color[1], color[2]), steps));
  }

  /** The first field of `DecodeProfile`. */
  method DecodeName(c: Cursor) returns (r: Result<seq<Byte>>)
    modifies c
    ensures Yields(ParseName(Firmware, c.buf, old(c.pos)), r, c.pos)
  {
    hide Utf8.WellFormed;
    var nameLen :- c.U8();
    if nameLen > MAX_NAME_LEN {
      return Err;
    }
    var name :- c.Take(nameLen);
    name :- DecodeText(name);
    return Ok(name);
  }

  /** The four single-byte fields of `DecodeProfile`. */
  method DecodeModes(c: Cursor) returns (r: Result<seq<Byte>>)
    modifies c
    ensures Yields(ReadBytes(c.buf, old(c.pos), 4), r, c.pos)
  {
    var overflow :- c.U8();
    var extCount :- c.U8();
    var brightness :- c.U8();
    var idleMode :- c.U8();
    assert c.buf[old(c.pos)..c.pos] == [overflow, extCount, brightness, idleMode];
    return Ok([overflow, extCount, brightness, idleMode]);
  }

  /** The loop over the slots at the end of `DecodeProfile`. */
  method DecodeSlots(c: Cursor, nslots: nat) returns (r: Result<seq<Binding>>)
    modifies c
    ensures Yields(ParseBindings(Firmware, c.buf, old(c.pos), nslots), r, c.pos)
  {
    hide ParseBinding;
    ghost var start := c.pos;
    var slots: seq<Binding> := [];
    for i := 0 to nslots
      invariant ParseBindings(Firmware, c.buf, start, i) == Got(slots, c.pos)
    {
      ghost var at := c.pos;
      var b := DecodeBinding(c);
      BindingsNext(Firmware, c.buf, start, i, slots, at);
      if b.Err? {
        BindingsStop(Firmware, c.buf, start, i + 1, nslots);
        return Err;
      }
      slots := slots + [b.value];
    }
    return Ok(slots);
  }

  method DecodeProfile(c: Cursor) returns (r: Result<Profile>)
    modifies c
    ensures Yields(ParseProfile(Firmware, c.buf, old(c.pos)), r, c.pos)
  {
    hide ParseBinding, ParseBindings, U16At, ParseName;
    var name :- DecodeName(c);
    var dwellMs :- c.U16();
    var tapMaxMs :- c.U16();
    var modes :- DecodeModes(c);
    var idle :- c.Take(3);
    var nslots :- c.U8();
    if modes[0] > CLAMP || modes[3] > RAINBOW || nslots < 1 || nslots > MAX_SLOTS {
      return Err;
    }
    var tap :- DecodeBinding(c);
    var slots :- DecodeSlots(c, nslots);
    return Ok(Profile(name, dwellMs, tapMaxMs, modes[0], modes[1], modes[2], modes[3],
                      Rgb(idle[0], idle[1], idle[2]), tap, slots));
  }

  method DecodeConfig(data: seq<Byte>) returns (r: Result<Config>)
    ensures r == Format.Decode(Firmware, data)
  {
    hide ParseProfile, ParseProfiles, Crc16;
    assert |data| >= 4 ==> data[..4] == data[0..4];
    if |data| < HEADER_BASE + CRC_TRAILER || data[0..4] != MAGIC || data[4] != FORMAT_VERSION {
      return Err;
    }
    var total := U16At(data, 8);
    if total < HEADER_BASE + CRC_TRAILER || total > |data| {
      return Err;
    }
    var blob := data[..total];
    var body := blob[..total - CRC_TRAILER];
    assert body == data[..total - 2];
    var stored := U16At(blob, total - 2);
    var computed := ComputeCrc16(body);
    if computed != stored {
      return Err;
    }
    var nprofiles: nat := blob[7];
    if nprofiles < 1 || nprofiles > MAX_PROFILES || |body| < HEADER_BASE + 2 * nprofiles {
      return Err;
    }
    var active := blob[6];
    if active >= nprofiles {
      return Err;
    }
    var profiles: seq<Profile> := [];
    NothingParsed(Firmware, body, 0, nprofiles);
    for i := 0 to nprofiles
      invariant ParseProfiles(Firmware, body, nprofiles, i) == Ok(profiles)
    {
      var off := U16At(body, HEADER_BASE + 2 * i);
      ProfilesNext(Firmware, body, nprofiles, i, profiles);
      if off < HEADER_BASE + 2 * nprofiles || off >= |body| {
        ProfilesStop(Firmware, body, nprofiles, i + 1, nprofiles);
        return Err;
      }
      var cur := new Cursor(body, off);
      var p := DecodeProfile(cur);
      if p.Err? {
        ProfilesStop(Firmware, body, nprofiles, i + 1, nprofiles);
        return Err;
      }
      profiles := profiles + [p.value];
    }
    return Ok(Config(blob[4], active, profiles));
  }
}
