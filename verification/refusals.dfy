/** Exactly which commands the board refuses, for every line, and that a refusal changes nothing more. */
module Refusals {
  import opened Bytes
  import opened Configs
  import opened Devices
  import opened Format
  import opened Protocols
  import opened ReadAnswers
  import opened RoundTrip
  import opened Runs
  import opened Store
  import opened StorageInvariant
  import opened Text
  import Ascii85
  import Crc

  /** The configuration can be stored: its active profile exists, and it fits. */
  predicate Keeps(region: Region, c: Config) {
    0 <= c.active < |c.profiles| && ConfigSize(c) <= 4096 && (region.Some? ==> ConfigSize(c) <= |region.value|)
  }

  /** Saving a sound configuration goes well exactly then, with or without a region. */
  lemma SavesIff(region: Region, c: Config)
    requires Storable(Firmware, c.(active := 0))
    ensures SaveConfig(region, c).Ok? <==> Keeps(region, c)
    ensures SaveConfig(region, c).Ok? && region.None? ==> SaveConfig(region, c).value == (None, ConfigSize(c))
  {
    hide Decode, Encode, ProfilesSize, EncodableProfile, StorableProfile, SaveConfig;
    if region.Some? {
      SaveConfigIff(region, c);
    } else {
      SavesNowhere(c);
    }
  }

  lemma SavesNowhere(c: Config)
    requires Storable(Firmware, c.(active := 0))
    ensures SaveConfig(None, c) == if Keeps(None, c) then Ok((None, ConfigSize(c))) else Err
  {
    hide Decode, Encode, ProfilesSize, EncodableProfile, StorableProfile;
    StorableIsEncodable(Firmware, c.(active := 0));
    EncodedSize(c);
    if Keeps(None, c) {
      assert Encode(c) + [] == Encode(c);
      DecodeEncode(Firmware, c, []);
    }
  }

  predicate HasBinding(c: Config, pi: int, bi: int) {
    && -|c.profiles| <= pi < |c.profiles|
    && var p := if pi < 0 then c.profiles[pi + |c.profiles|] else c.profiles[pi];
       bi == 0 || (bi <= |p.slots| && 0 <= (if bi <= 0 then bi - 1 + |p.slots| else bi - 1) < |p.slots|)
  }

  lemma BindingIff(c: Config, pi: int, bi: int)
    ensures BindingAt(c, pi, bi).Some? <==> HasBinding(c, pi, bi)
  {
  }

  /** What the board carries out, by command word and arguments. */
  predicate Accepted(b: Board, cmd: Line, args: seq<Line>) {
    var c := b.live;
    if cmd == Ascii("help") then true
    else if cmd == Ascii("version") || cmd == Ascii("read") then StoredSome(b.region) || LiveEncodes(c)
    else if cmd == Ascii("write") then
      |args| == 2 && ParseInt(args[0]).Some? && ParseInt(args[1]).Some?
      && 12 <= ParseInt(args[0]).value <= RegionSize(b.region)
    else if cmd == Ascii("profile") then
      |args| == 1 && ParseInt(args[0]).Some?
      && ParseInt(args[0]).value < |c.profiles| && Keeps(b.region, c.(active := ParseInt(args[0]).value))
    else if cmd == Ascii("test") then
      |args| == 2 && ParseInt(args[0]).Some? && ParseInt(args[1]).Some?
      && HasBinding(c, ParseInt(args[0]).value, ParseInt(args[1]).value)
    else if cmd == Ascii("events") then
      |args| == 1 && (Lower(args[0]) == Ascii("on") || Lower(args[0]) == Ascii("off"))
    else cmd == Ascii("defaults") && Keeps(b.region, b.factory)
  }

  /** A header in the region announces bytes that it holds. */
  predicate StoredSome(region: Region) {
    region.Some? && |region.value| >= 10
    && Announces(region.value, region.value[8] as int + 0x100 * region.value[9] as int)
  }

  lemma ReadsIff(b: Board)
    requires LiveSound(b)
    ensures ReadBack(b).Ok? <==> StoredSome(b.region) || LiveEncodes(b.live)
    ensures ReadBack(b).Ok? ==> ReadBack(b).value != []
  {
    hide LiveSound, LiveEncodes, FirmwareEncode, ReadBack, Encode, Decode, ConfigSize;
    if StoredSome(b.region) {
      StoredIsRead(b, b.region.value[8] as int + 0x100 * b.region.value[9] as int);
    } else {
      NothingIsRead(b);
      LiveEncoded(b);
    }
  }

  lemma ProfileIff(s: State, args: seq<Line>)
    requires LiveSound(s.board)
    ensures
      SelectProfile(s, args).1 != [Refused]
      <==> |args| == 1 && ParseInt(args[0]).Some?
           && ParseInt(args[0]).value < |s.board.live.profiles|
           && Keeps(s.board.region, s.board.live.(active := ParseInt(args[0]).value))
  {
    hide ParseInt, SaveConfig, Storable, ConfigSize;
    if |args| == 1 && ParseInt(args[0]).Some? {
      var n := ParseInt(args[0]).value;
      var live := s.board.live.(active := n);
      assert live.(active := 0) == s.board.live.(active := 0);
      SavesIff(s.board.region, live);
    }
  }

  lemma DefaultsIff(s: State)
    requires LiveSound(s.board)
    ensures Defaults(s).1 != [Refused] <==> Keeps(s.board.region, s.board.factory)
  {
    hide SaveConfig, StorableProfile, ConfigSize;
    SavesIff(s.board.region, s.board.factory);
  }

  lemma ReadRefused(s: State)
    ensures Read(s).1 == [Refused] <==> ReadBack(s.board).Err? || ReadBack(s.board).value == []
  {
    hide ReadBack, Ascii85.Lines, Ascii85.Encode;
    if ReadBack(s.board).Ok? && ReadBack(s.board).value != [] {
      assert Read(s).1[|Read(s).1| - 1].Done?;
    }
  }

  lemma WordsApart()
    ensures Ascii("help")[0] == 104 && Ascii("version")[0] == 118 && Ascii("profile")[0] == 112
    ensures Ascii("test")[0] == 116 && Ascii("events")[0] == 101 && Ascii("defaults")[0] == 100
    ensures Ascii("read")[0] == 114 && Ascii("write")[0] == 119 && Ascii("on")[1] == 110 && Ascii("off")[1] == 102
  {
  }

  /** A line that starts a command draws an ERR exactly when the command is none of these. */
  lemma RefusedIff(s: State, e: Event)
    requires LiveSound(s.board) && Command(s, e).Some?
    ensures Next(s, e).1 == [Refused] <==> !Accepted(s.board, Command(s, e).value, Args(e))
  {
    hide Words, Sanitize, ParseInt, ReadBack, BindingAt, SelectProfile, Defaults, Read, Keeps, StoredSome, HasBinding,
      LiveEncodes, Ascii, LiveSound, Ascii85.Lines, Ascii85.Encode;
    WordsApart();
    ReadsIff(s.board);
    ReadRefused(s);
    ProfileIff(s, Args(e));
    DefaultsIff(s);
    if |Args(e)| == 2 && ParseInt(Args(e)[0]).Some? && ParseInt(Args(e)[1]).Some? {
      BindingIff(s.board.live, ParseInt(Args(e)[0]).value, ParseInt(Args(e)[1]).value);
    }
  }

  lemma NegativeSaves(b: Board)
    requires LiveSound(b)
    ensures SetActive(b, -1) == (b.(live := b.live.(active := -1)), Err)
    ensures |b.live.profiles| > 0
  {
    hide SaveConfig, StorableProfile, ConfigSize;
    var live := b.live.(active := -1);
    assert live.(active := 0) == b.live.(active := 0);
    SavesIff(b.region, live);
  }

  /**
   A concrete failure: on a board with nothing stored, such as an erased one, `profile -1` is refused
   and still leaves it unable to answer `version` or `read`.
   */
  lemma NegativeSilences(s: State, now: int, later: int)
    requires s.upload.Idle? && LiveSound(s.board) && NothingStored(s.board.region)
    ensures
      var (t, replies) := Next(s, Receive(PROFILE_MINUS_ONE, now));
      && replies == [Refused] && t == s.(board := t.board)
      && Next(t, Receive(VERSION, later)) == (t, [Refused]) && Next(t, Receive(READ, later)) == (t, [Refused])
  {
    hide Words, Sanitize, ParseInt, ReadBack, LiveSound, NothingStored, SetActive, Ascii, Ascii85.Lines,
      Ascii85.Encode, FirmwareEncode, Encodable;
    MinusOneLine();
    ParseMinusOne();
    CommandWordsDiffer();
    NegativeSaves(s.board);
    var t := Next(s, Receive(PROFILE_MINUS_ONE, now)).0;
    NothingIsRead(t.board);
    NotEncodable(t.board.live);
    ReadsBack(t, later);
    ReportsBack(t, later);
  }

  lemma NotEncodable(c: Config)
    requires c.active < 0
    ensures FirmwareEncode(c) == Err
  {
  }

  /** The help names every command: any other word is refused, whatever its arguments, and changes nothing. */
  lemma HelpIsComplete(s: State, cmd: Line, args: seq<Line>, now: int)
    requires Body(cmd) !in HELP_REPLY
    ensures Dispatch(s, cmd, args, now) == (s, [Refused])
  {
    hide Ascii, SelectProfile, Defaults, Read, Version, Write, Test, SetEvents;
    var h := HELP_REPLY;
    assert h[0] in h && h[1] in h && h[2] in h && h[3] in h && h[4] in h && h[5] in h && h[6] in h && h[7] in h;
  }

  // ----- a line of an upload

  /** The text so far carries a configuration that can be stored. */
  predicate Carries(s: State, text: seq<Byte>)
    requires s.upload.Receiving?
  {
    match Ascii85.Decode(text)
    case Err => false
    case Ok(data) =>
      && |data| == s.upload.expectBytes && Crc.Crc16(data) == s.upload.expectCrc
      && Decode(Firmware, data).Ok?
  }

  /**
   Every line of an upload: too little text so far draws no answer and waits for more; too much ends
   the upload with an ERR; just enough ends it with OK and the number of bytes exactly when the text
   carries a configuration that can be stored, and with ERR otherwise. Only OK changes the board.
   */
  lemma UploadLineIff(s: State, line: AsciiLine, now: int)
    requires s.upload.Receiving? && UploadSound(s)
    ensures
      var (t, replies) := Next(s, Receive(line, now));
      var text := Buffered(s, line);
      if |text| < s.upload.expectChars then
        t.upload.Receiving? && t.upload.lastRx == now && t == s.(upload := t.upload) && replies == []
      else if |text| == s.upload.expectChars && Carries(s, text) then
        var data := Ascii85.Decode(text).value;
        && replies == [Done(Written(|data|))] && t.upload.Idle? && t.events == s.events
        && t.board.live == Decode(Firmware, data).value && t.board.status == StatusOk
        && t.board.region.Some? && |t.board.region.value| == |s.board.region.value| >= |data|
        && t.board.region.value[..|data|] == data
        && t.board.region.value[|data|..] == s.board.region.value[|data|..]
      else
        t == s.(upload := Idle) && replies == [Refused]
  {
    hide Strip, Ascii85.Decode, Crc.Crc16, Decode, Ascii85.Join;
    BufferedLength(s, line);
  }

  lemma BufferedLength(s: State, line: Line)
    requires s.upload.Receiving? && UploadSound(s)
    ensures |Buffered(s, line)| == s.upload.got + |Strip(line)|
  {
    hide Strip;
    assert (s.upload.buf + [Strip(line)])[..|s.upload.buf|] == s.upload.buf;
  }
}
