/** The CLI's encoder and decoder, as the Go code runs them. */
module GoCodec {
  import opened Bytes
  import opened Configs
  import opened Crc
  import opened Cursors
  import opened Format
  import opened RoundTrip

  /** One turn of the loop in `AppendBinding`. */
  method AppendStep(prefix: seq<Byte>, s: Step) returns (out: seq<Byte>)
    ensures out == prefix + EncodeStep(s)
  {
    out := prefix;
    match s {
      case Key(keycode, mods) =>
        out := out + [0];
        out := out + [keycode, mods];
      case Text(text) =>
        out := out + [1];
        out := out + [Low(|text|)];
        out := out + text;
      case Consumer(code) =>
        out := out + [2];
        out := out + U16LE(code);
      case Delay(ms) =>
        out := out + [3];
        out := out + U16LE(ms);
      case Unknown(tag) =>
        out := out + [tag];
    }
  }

  method AppendBinding(prefix: seq<Byte>, b: Binding) returns (out: seq<Byte>)
    ensures out == prefix + EncodeBinding(b)
  {
    hide EncodeStep, EncodeSteps, EncodeRgb;
    out := prefix + EncodeRgb(b.color);
    out := out + [Low(|b.steps|)];
    ghost var start := out;
    assert EncodeSteps([]) == [] by {
      EncodeNothing();
    }
    for i := 0 to |b.steps|
      invariant out == start + EncodeSteps(b.steps[..i])
    {
      out := AppendStep(out, b.steps[i]);
      EncodeStepsNext(b.steps, i);
    }
    assert b.steps[..|b.steps|] == b.steps;
  }

  method EncodeProfileRecord(p: Profile) returns (out: seq<Byte>)
    ensures out == EncodeProfile(p)
  {
    hide EncodeBinding, EncodeBindings, EncodeRgb, U16LE;
    EncodeNothing();
    out := [Low(|p.name|)];
    out := out + p.name;
    out := out + U16LE(p.dwellMs);
    out := out + U16LE(p.tapMaxMs);
    out := out + [p.overflow, p.extCount, p.brightness, p.idleMode];
    out := out + EncodeRgb(p.idleColor);
    out := out + [Low(|p.slots|)];
    ghost var head := out;
    out := AppendBinding(out, p.tap);
    for i := 0 to |p.slots|
      invariant out == head + EncodeBinding(p.tap) + EncodeBindings(p.slots[..i])
    {
      out := AppendBinding(out, p.slots[i]);
      EncodeBindingsNext(p.slots, i);
    }
    assert p.slots[..|p.slots|] == p.slots;
    ProfileConcat(p, head);
  }

  /** The internal size check after the last append never fires: the result is an error only for
      a configuration that does not validate. */
  method EncodeConfig(c: Config) returns (r: Result<seq<Byte>>)
    requires 0 <= c.active < 256
    ensures r == if Valid(c) then Ok(Format.Encode(c)) else Err
  {
    hide EncodeProfile, EncodeProfiles, EncodeOffsets, Valid, ConfigSize, U16LE, Crc16;
    var ok := Validate(c);
    if !ok {
      return Err;
    }
    var records: seq<seq<Byte>> := [];
    for i := 0 to |c.profiles|
      invariant |records| == i && forall k :: 0 <= k < i ==> records[k] == EncodeProfile(c.profiles[k])
    {
      var record := EncodeProfileRecord(c.profiles[i]);
      records := records + [record];
    }
    var headerLen := HEADER_BASE + 2 * |c.profiles|;
    var total := ConfigEncodedSize(c);
    var out := MAGIC + [c.version, 0, c.active, Low(|c.profiles|)];
    out := out + U16LE(total);
    assert out == EncodeHeader(c);
    EncodeNothing();
    ghost var header := out;

    var off := headerLen;
    for i := 0 to |records|
      invariant off == headerLen + |EncodeProfiles(c.profiles[..i])|
      invariant out == header + EncodeOffsets(headerLen, c.profiles[..i])
    {
      out := out + U16LE(off);
      off := off + |records[i]|;
      EncodeProfilesNext(headerLen, c.profiles, i);
    }
    assert c.profiles[..|records|] == c.profiles;
    ghost var table := out;
    for i := 0 to |records|
      invariant out == table + EncodeProfiles(c.profiles[..i])
    {
      out := out + records[i];
      EncodeProfilesNext(headerLen, c.profiles, i);
    }
    assert out == EncodeBody(c);
    var crc := ComputeCrc16(out);
    out := out + U16LE(crc);

    var size := ConfigEncodedSize(c);
    ValidSize(c);
    if |out| != size {
      return Err;
    }
    return Ok(out);
  }

  lemma ValidSize(c: Config)
    requires Valid(c)
    ensures |Format.Encode(c)| == ConfigSize(c) <= NVM_SIZE
  {
    hide Format.Encode, ConfigSize;
    ValidIsStorable(c);
    StorableIsEncodable(Cli, c);
    EncodedSize(c);
  }

  method DecodeStep(c: Cursor) returns (r: Result<Step>)
    modifies c
    ensures Yields(ParseStep(Cli, c.buf, old(c.pos)), r, c.pos)
  {
    var tag :- c.U8();
    if tag == 0 {
      var pair :- c.Take(2);
      return Ok(Key(pair[0], pair[1]));
    } else if tag == 1 {
      var n :- c.U8();
      var text :- c.Take(n);
      return Ok(Text(text));
    } else if tag == 2 {
      var code :- c.U16();
      return Ok(Consumer(code));
    } else if tag == 3 {
      var ms :- c.U16();
      return Ok(Delay(ms));
    } else {
      return Err;
    }
  }

  /** The loop over the steps in `DecodeBinding`. */
  method DecodeSteps(c: Cursor, nsteps: nat) returns (r: Result<seq<Step>>)
    modifies c
    ensures Yields(ParseSteps(Cli, c.buf, old(c.pos), nsteps), r, c.pos)
  {
    hide ParseStep;
    ghost var start := c.pos;
    var steps: seq<Step> := [];
    NothingParsed(Cli, c.buf, start, 0);
    for i := 0 to nsteps
      invariant ParseSteps(Cli, c.buf, start, i) == Got(steps, c.pos)
    {
      var s := DecodeStep(c);
      if s.Err? {
        StepsStop(Cli, c.buf, start, i + 1, nsteps);
        return Err;
      }
      steps := steps + [s.value];
    }
    return Ok(steps);
  }

  method DecodeBinding(c: Cursor) returns (r: Result<Binding>)
    modifies c
    ensures Yields(ParseBinding(Cli, c.buf, old(c.pos)), r, c.pos)
  {
    hide ParseSteps;
    var color :- c.Take(3);
    var nsteps :- c.U8();
    if nsteps > MAX_STEPS {
      return Err;
    }
    var steps :- DecodeSteps(c, nsteps);
    return Ok(Binding(Rgb(color[0], color[1], color[2]), steps));
  }

  /** The loop over the slots in `DecodeProfile`. */
  method DecodeSlots(c: Cursor, nslots: nat) returns (r: Result<seq<Binding>>)
    modifies c
    ensures Yields(ParseBindings(Cli, c.buf, old(c.pos), nslots), r, c.pos)
  {
    hide ParseBinding;
    ghost var start := c.pos;
    var slots: seq<Binding> := [];
    NothingParsed(Cli, c.buf, start, 0);
    for i := 0 to nslots
      invariant ParseBindings(Cli, c.buf, start, i) == Got(slots, c.pos)
    {
      ghost var at := c.pos;
      var b := DecodeBinding(c);
      BindingsNext(Cli, c.buf, start, i, slots, at);
      if b.Err? {
        BindingsStop(Cli, c.buf, start, i + 1, nslots);
        return Err;
      }
      slots := slots + [b.value];
    }
    return Ok(slots);
  }

  method DecodeProfile(c: Cursor) returns (r: Result<Profile>)
    modifies c
    ensures Yields(ParseProfile(Cli, c.buf, old(c.pos)), r, c.pos)
  {
    hide ParseBinding, ParseBindings, U16At;
    var nameLen :- c.U8();
    if nameLen > MAX_NAME_LEN {
      return Err;
    }
    var name :- c.Take(nameLen);
    var dwellMs :- c.U16();
    var tapMaxMs :- c.U16();
    var fixed :- c.Take(4);
    var idle :- c.Take(3);
    var nslots :- c.U8();
    if nslots < 1 || nslots > MAX_SLOTS {
      return Err;
    }
    var tap :- DecodeBinding(c);
    var slots :- DecodeSlots(c, nslots);
    return Ok(Profile(name, dwellMs, tapMaxMs, fixed[0], fixed[1], fixed[2], fixed[3],
                      Rgb(idle[0], idle[1], idle[2]), tap, slots));
  }

  method DecodeConfig(data: seq<Byte>) returns (r: Result<Config>)
    ensures r == Format.Decode(Cli, data)
  {
    hide ParseProfile, ParseProfiles, Crc16;
    assert |data| >= 4 ==> data[..4] == data[0..4];
    if |data| < HEADER_BASE + CRC_TRAILER || data[0..4] != MAGIC || data[4] != FORMAT_VERSION {
      return Err;
    }
    var total := U16At(data, 8);
    if total < HEADER_BASE + CRC_TRAILER || total > |data| {
      return Err;
    }
    var blob := data[..total];
    var body, want := blob[..|blob| - CRC_TRAILER], U16At(blob, |blob| - CRC_TRAILER);
    assert body == data[..total - 2];
    var got := ComputeCrc16(body);
    if got != want {
      return Err;
    }
    var nprofiles: nat := blob[7];
    if nprofiles < 1 || nprofiles > MAX_PROFILES || |body| < HEADER_BASE + 2 * nprofiles || blob[6] >= nprofiles {
      return Err;
    }
    var profiles: seq<Profile> := [];
    assert ParseProfiles(Cli, body, nprofiles, 0) == Ok([]) by {
      NothingParsed(Cli, body, 0, nprofiles);
    }
    for i := 0 to nprofiles
      invariant ParseProfiles(Cli, body, nprofiles, i) == Ok(profiles)
    {
      var off := U16At(body, HEADER_BASE + 2 * i);
      ProfilesNext(Cli, body, nprofiles, i, profiles);
      if off < HEADER_BASE + 2 * nprofiles || off >= |body| {
        ProfilesStop(Cli, body, nprofiles, i + 1, nprofiles);
        return Err;
      }
      var cur := new Cursor(body, off);
      var p := DecodeProfile(cur);
      if p.Err? {
        ProfilesStop(Cli, body, nprofiles, i + 1, nprofiles);
        return Err;
      }
      profiles := profiles + [p.value];
    }
    return Ok(Config(blob[4], blob[6], profiles));
  }
}
