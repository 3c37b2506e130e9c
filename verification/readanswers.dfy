/**
 What `read` and `version` answer, whatever the region holds: what a header there announces, or
 else the live configuration.
 */
module ReadAnswers {
  import opened Bytes
  import opened Configs
  import opened Devices
  import opened Format
  import opened LineReading
  import opened Protocols
  import opened RoundTrip
  import opened Runs
  import opened Store
  import opened StorageInvariant
  import opened Text
  import Ascii85
  import Ascii85Proofs
  import Client
  import System

  // ----- what is stored

  /** The region starts with a header that announces `n` bytes, all of which it holds. */
  predicate Announces(bytes: seq<Byte>, n: nat) {
    && |bytes| >= 10
    && bytes[0] == 0x4B && bytes[1] == 0x42 && bytes[2] == 0x32 && bytes[3] == 0x4B
    && n == bytes[8] as int + 0x100 * bytes[9] as int
    && 12 <= n <= |bytes|
  }

  ghost predicate NothingStored(region: Region) {
    region.Some? ==> forall n :: !Announces(region.value, n)
  }

  lemma StoredLengthIff(region: Region, n: nat)
    requires n > 0
    ensures StoredLength(region) == n <==> region.Some? && Announces(region.value, n)
  {
    if region.Some? && |region.value| >= 10 {
      var bytes := region.value;
      assert bytes[..4] == [bytes[0], bytes[1], bytes[2], bytes[3]];
    }
  }

  lemma StoredIsRead(b: Board, n: nat)
    requires b.region.Some? && Announces(b.region.value, n)
    ensures ReadBack(b) == Ok(b.region.value[..n])
  {
    hide StoredLength, Announces;
    assert n > 0 by {
      AnnouncesSome(b.region.value, n);
    }
    StoredLengthIff(b.region, n);
  }

  lemma AnnouncesSome(bytes: seq<Byte>, n: nat)
    requires Announces(bytes, n)
    ensures 12 <= n <= |bytes|
  {
  }

  lemma NothingIsRead(b: Board)
    requires NothingStored(b.region)
    ensures ReadBack(b) == FirmwareEncode(b.live)
  {
    hide StoredLength, Announces, FirmwareEncode;
    var n := StoredLength(b.region);
    if n > 0 {
      StoredLengthIff(b.region, n);
    }
  }

  // ----- the answer to `read`

  /** Body lines of 1 to 80 characters that spell the bytes in Ascii85, closed by their count. */
  ghost predicate Spells(replies: seq<Reply>, lines: seq<Line>, data: seq<Byte>) {
    && |replies| == |lines| + 1
    && (forall i :: 0 <= i < |lines| ==> replies[i] == Body(lines[i]) && 1 <= |lines[i]| <= 80)
    && replies[|lines|] == Done(Length(|data|))
    && Ascii85.Decode(Ascii85.Join(lines)) == Ok(data)
  }

  function LinesFor(data: seq<Byte>): seq<Line> {
    Ascii85.Lines(Ascii85.Encode(data), 80)
  }

  lemma LinesSpell(data: seq<Byte>)
    ensures Spells(Bodies(LinesFor(data)) + [Done(Length(|data|))], LinesFor(data), data)
  {
    hide Ascii85.Lines, Ascii85.Encode, Ascii85.Decode, Ascii85.Join;
    var text := Ascii85.Encode(data);
    Ascii85Proofs.LinesJoin(text, 80);
    Ascii85.EncodedAlphabet(data);
    Ascii85.VisibleOfPlain(text);
    Ascii85Proofs.DecodeEncode(data, text);
  }

  lemma CommandLines()
    ensures Words(Sanitize(READ)) == [READ] && Lower(READ) == READ
    ensures Words(Sanitize(VERSION)) == [VERSION] && Lower(VERSION) == VERSION
    ensures READ != HELP && READ != VERSION && VERSION != HELP
  {
    hide Words, Sanitize;
    assert Solid(READ) && Solid(VERSION) && Lower(READ) == READ && Lower(VERSION) == VERSION;
    assert READ[0] == 114 && VERSION[0] == 118 && HELP[0] == 104;
    OneWord(READ);
    OneWord(VERSION);
  }

  lemma ReadsBack(s: State, now: int)
    requires s.upload.Idle?
    ensures
      Next(s, Receive(READ, now))
      == match ReadBack(s.board)
         case Err => (s, [Refused])
         case Ok(data) =>
           if data == [] then (s, [Refused]) else (s, Bodies(LinesFor(data)) + [Done(Length(|data|))])
  {
    hide Words, Sanitize, ReadBack, Ascii85.Lines, Ascii85.Encode, Bodies;
    CommandLines();
  }

  lemma ReportsBack(s: State, now: int)
    requires s.upload.Idle?
    ensures
      var b := s.board;
      Next(s, Receive(VERSION, now))
      == match ReadBack(b)
         case Err => (s, [Refused])
         case Ok(data) =>
           (s, [Done(Versions(RegionSize(b.region), |data|, |b.live.profiles|, b.live.active, b.status))])
  {
    hide Words, Sanitize, ReadBack;
    CommandLines();
  }

  /** `read` with something announced answers exactly those bytes, whether or not they decode. */
  lemma ReadsStored(s: State, n: nat, now: int)
    requires s.upload.Idle? && s.board.region.Some? && Announces(s.board.region.value, n)
    ensures
      var data := s.board.region.value[..n];
      var (t, replies) := Next(s, Receive(READ, now));
      t == s && Spells(replies, LinesFor(data), data)
  {
    hide ReadBack, Spells, LinesFor, Bodies, Announces, Next;
    AnnouncesSome(s.board.region.value, n);
    StoredIsRead(s.board, n);
    ReadsBack(s, now);
    LinesSpell(s.board.region.value[..n]);
  }

  /** The live configuration can be encoded. */
  predicate LiveEncodes(c: Config) {
    0 <= c.active < |c.profiles| && ConfigSize(c) <= 4096
  }

  lemma LiveEncoded(b: Board)
    requires LiveSound(b)
    ensures FirmwareEncode(b.live).Ok? <==> LiveEncodes(b.live)
    ensures LiveEncodes(b.live) ==>
      var data := Encode(b.live);
      && FirmwareEncode(b.live) == Ok(data) && |data| == ConfigSize(b.live) && data != []
      && Decode(Firmware, data) == Ok(b.live) && Decode(Cli, data) == Ok(b.live)
  {
    hide Decode, Encode, ProfilesSize, EncodableProfile, StorableProfile;
    var c := b.live;
    StorableIsEncodable(Firmware, c.(active := 0));
    EncodedSize(c);
    if LiveEncodes(c) {
      assert Encode(c) + [] == Encode(c);
      DecodeEncode(Firmware, c, []);
      DecodersAgree(Encode(c));
    }
  }

  /**
   `read` with nothing stored answers the live configuration: the bytes it spells decode to it on
   both sides. It is refused exactly when the live configuration cannot be encoded.
   */
  lemma ReadsLive(s: State, now: int)
    requires s.upload.Idle? && LiveSound(s.board) && NothingStored(s.board.region)
    ensures
      var c, data := s.board.live, Encode(s.board.live);
      var (t, replies) := Next(s, Receive(READ, now));
      && t == s
      && if LiveEncodes(c) then
           && Spells(replies, LinesFor(data), data) && |data| == ConfigSize(c)
           && Decode(Firmware, data) == Ok(c) && Decode(Cli, data) == Ok(c)
         else replies == [Refused]
  {
    hide ReadBack, Spells, LinesFor, Bodies, Next, LiveSound, Encode, Decode, LiveEncodes, ConfigSize, FirmwareEncode;
    NothingIsRead(s.board);
    LiveEncoded(s.board);
    ReadsBack(s, now);
    LinesSpell(Encode(s.board.live));
  }

  /** And `version` counts as used what is announced, or else the live configuration's size. */
  lemma ReportsUsed(s: State, n: nat, now: int)
    requires s.upload.Idle? && LiveSound(s.board)
    requires
      if s.board.region.Some? && Announces(s.board.region.value, n) then true
      else NothingStored(s.board.region) && LiveEncodes(s.board.live) && n == ConfigSize(s.board.live)
    ensures
      var b := s.board;
      Next(s, Receive(VERSION, now))
      == (s, [Done(Versions(RegionSize(b.region), n, |b.live.profiles|, b.live.active, b.status))])
  {
    hide ReadBack, Next, LiveSound, Encode, Decode, LiveEncodes, ConfigSize, FirmwareEncode, Announces, NothingStored;
    ReportsBack(s, now);
    if s.board.region.Some? && Announces(s.board.region.value, n) {
      AnnouncesSome(s.board.region.value, n);
      StoredIsRead(s.board, n);
    } else {
      NothingIsRead(s.board);
      LiveEncoded(s.board);
    }
  }

  // ----- from power-on

  /** A region whose first byte is not the magic's, such as an erased one, has nothing stored. */
  lemma ForeignIsNothing(region: Region)
    requires region.Some? && region.value != [] ==> region.value[0] != 0x4B
    ensures NothingStored(region)
  {
  }

  /**
   A board that powers on without a region, or with an erased one of any size, runs the factory
   configuration and answers `read` with it.
   */
  lemma ErasedReadsFactory(region: Region, factory: Config, erased: Byte, now: int)
    requires Storable(Firmware, factory) && ConfigSize(factory) <= 4096
    requires erased == 0x00 || erased == 0xFF
    requires region.Some? ==> forall i :: 0 <= i < |region.value| ==> region.value[i] == erased
    ensures
      var s, data := PowerOn(region, factory), Encode(factory);
      var (t, replies) := Next(s, Receive(READ, now));
      && s.board == Board(region, factory, if region.None? then NoNvm else Blank, factory)
      && t == s && Spells(replies, LinesFor(data), data) && Decode(Firmware, data) == Ok(factory)
      && Next(s, Receive(VERSION, now))
         == (s, [Done(Versions(RegionSize(region), ConfigSize(factory), |factory.profiles|, factory.active,
                               if region.None? then NoNvm else Blank))])
  {
    hide Spells, LinesFor, Next, LiveSound, Encode, Decode, ConfigSize, NothingStored, StorableProfile;
    var s := PowerOn(region, factory);
    BootSound(region, factory);
    ForeignIsNothing(region);
    ReadsLive(s, now);
    NotAnnounced(region, ConfigSize(factory));
    ReportsUsed(s, ConfigSize(factory), now);
  }

  lemma NotAnnounced(region: Region, n: nat)
    requires NothingStored(region)
    ensures region.Some? ==> !Announces(region.value, n)
  {
  }

  // ----- to the client

  /** The client downloads the announced bytes, wherever event lines cut into the answer. */
  lemma DownloadsStored(s: State, n: nat, now: int, stream: seq<Byte>)
    requires s.upload.Idle? && s.board.region.Some? && Announces(s.board.region.value, n)
    requires Client.WithoutEvents(Split(stream).0) == System.RenderAll(Next(s, Receive(READ, now)).1)
    ensures Client.Download(Client.Respond([], Split(stream).0)) == Ok(s.board.region.value[..n])
  {
    hide ReadBack, Bodies, Announces, Next, Split, Client.WithoutEvents, System.RenderAll, Client.Download,
      Client.Respond, Ascii85.Lines, Ascii85.Encode, Client.ReplyLines;
    AnnouncesSome(s.board.region.value, n);
    var data := s.board.region.value[..n];
    StoredIsRead(s.board, n);
    ReadsBack(s, now);
    System.RenderRead(data);
    Client.DownloadsWhatWasStored(stream, data);
  }

  /** With nothing stored it downloads bytes that decode to the live configuration. */
  lemma DownloadsLive(s: State, now: int, stream: seq<Byte>)
    requires s.upload.Idle? && LiveSound(s.board) && NothingStored(s.board.region) && LiveEncodes(s.board.live)
    requires Client.WithoutEvents(Split(stream).0) == System.RenderAll(Next(s, Receive(READ, now)).1)
    ensures
      var r := Client.Download(Client.Respond([], Split(stream).0));
      r.Ok? && |r.value| == ConfigSize(s.board.live) && Decode(Cli, r.value) == Ok(s.board.live)
  {
    hide ReadBack, Bodies, Next, Split, Client.WithoutEvents, System.RenderAll, Client.Download, LiveSound,
      NothingStored, Client.Respond, Ascii85.Lines, Ascii85.Encode, Client.ReplyLines, Encode, Decode, LiveEncodes, ConfigSize,
      FirmwareEncode;
    var data := Encode(s.board.live);
    NothingIsRead(s.board);
    LiveEncoded(s.board);
    ReadsBack(s, now);
    System.RenderRead(data);
    Client.DownloadsWhatWasStored(stream, data);
  }
}
