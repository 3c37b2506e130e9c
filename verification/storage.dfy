/** The stored bytes and the live configuration agree over every run, and exactly when they part. */
module StorageInvariant {
  import opened Bytes
  import opened Configs
  import opened Devices
  import opened Format
  import opened Protocols
  import opened RoundTrip
  import opened Runs
  import opened Store
  import opened Text
  import Ascii85
  import Crc

  /** The region decodes to the live configuration. */
  ghost predicate Synced(b: Board) {
    b.region.Some? && Decode(Firmware, b.region.value) == Ok(b.live)
  }

  /** The live profiles came out of a decoder or the factory configuration. */
  ghost predicate LiveSound(b: Board) {
    Storable(Firmware, b.live.(active := 0)) && Storable(Firmware, b.factory)
  }

  predicate Fits(c: Config, region: Region) {
    ConfigSize(c) <= NVM_SIZE && ConfigSize(c) <= RegionSize(region)
  }

  // ----- saving

  /** Bytes after the blob do not matter, so a stored blob decodes as it did on its own. */
  lemma SavedDecodes(data: seq<Byte>, rest: seq<Byte>)
    requires Decode(Firmware, data).Ok?
    ensures Decode(Firmware, data + rest) == Decode(Firmware, data)
  {
    hide ParseProfiles, Crc.Crc16;
    var n := BlobLength(data);
    assert (data + rest)[..n] == data[..n];
    DecodeDelimited(Firmware, data, data + rest);
  }

  lemma CommitSyncs(b: Board, data: seq<Byte>)
    requires b.region.Some?
    ensures
      var (t, r) := Commit(b, data);
      if r.Ok? then Synced(t) else t == b
  {
    hide Decode;
    if Decode(Firmware, data).Ok? && |data| <= |b.region.value| {
      SavedDecodes(data, b.region.value[|data|..]);
    }
  }

  /** A configuration whose profiles are sound saves exactly when its index is and it fits. */
  lemma SaveConfigIff(region: Region, c: Config)
    requires Storable(Firmware, c.(active := 0)) && region.Some?
    ensures SaveConfig(region, c).Ok? <==> 0 <= c.active < |c.profiles| && Fits(c, region)
    ensures SaveConfig(region, c).Ok? ==>
      && SaveConfig(region, c).value == (Some(Encode(c) + region.value[|Encode(c)|..]), |Encode(c)|)
      && Decode(Firmware, SaveConfig(region, c).value.0.value) == Ok(c)
  {
    hide Decode, Encode, ProfilesSize, EncodableProfile, StorableProfile;
    var base := c.(active := 0);
    StorableIsEncodable(Firmware, base);
    EncodedSize(c);
    assert ConfigSize(base) == ConfigSize(c);
    if 0 <= c.active < |c.profiles| && ConfigSize(c) <= NVM_SIZE {
      assert Encode(c) + [] == Encode(c);
      DecodeEncode(Firmware, c, []);
      if |Encode(c)| <= |region.value| {
        DecodeEncode(Firmware, c, region.value[|Encode(c)|..]);
      }
    }
  }

  // ----- the live profiles stay sound

  lemma DecodedLive(data: seq<Byte>)
    requires Decode(Firmware, data).Ok?
    ensures Storable(Firmware, Decode(Firmware, data).value.(active := 0))
  {
    hide Decode, StorableProfile;
    DecodedStorable(Firmware, data);
  }

  /** No stored byte pattern stops the board: what it boots with always has its active profile. */
  lemma BootSound(region: Region, factory: Config)
    requires Storable(Firmware, factory)
    ensures
      var b := Boot(region, factory);
      && Storable(Firmware, b.live) && LiveSound(b)
      && (b.status != StatusOk ==> b.live == factory)
      && (b.status == StatusOk ==> Synced(b))
  {
    hide Decode, StorableProfile, IsBlank;
    if region.Some? && Decode(Firmware, region.value).Ok? {
      DecodedStorable(Firmware, region.value);
    }
  }

  /** A freshly booted board with a protocol that has seen nothing. */
  function PowerOn(region: Region, factory: Config): State {
    State(Boot(region, factory), false, Idle)
  }

  /** What holds in every state any run from any power-on reaches. */
  lemma {:induction false} ReachableSound(region: Region, factory: Config, es: seq<Event>)
    requires Storable(Firmware, factory)
    ensures
      var s := Run(PowerOn(region, factory), es).0;
      UploadSound(s) && LiveSound(s.board)
  {
    hide Next, LiveSound, UploadSound, Boot;
    if es == [] {
      BootSound(region, factory);
      assert UploadSound(PowerOn(region, factory)) by {
        IdleIsSound(Boot(region, factory));
      }
    } else {
      var front, last := es[..|es| - 1], es[|es| - 1];
      ReachableSound(region, factory, front);
      StepSound(Run(PowerOn(region, factory), front).0, last);
      StepLiveSound(Run(PowerOn(region, factory), front).0, last);
    }
  }

  lemma IdleIsSound(b: Board)
    ensures UploadSound(State(b, false, Idle))
  {
  }

  lemma CommitSound(b: Board, data: seq<Byte>)
    requires LiveSound(b)
    ensures LiveSound(Commit(b, data).0)
  {
    hide Decode, Storable;
    if Decode(Firmware, data).Ok? {
      DecodedLive(data);
    }
  }

  lemma SetActiveSound(b: Board, n: int)
    requires LiveSound(b)
    ensures LiveSound(SetActive(b, n).0)
  {
    hide SaveConfig, Storable;
    assert b.live.(active := n).(active := 0) == b.live.(active := 0);
  }

  lemma RestoreSound(b: Board)
    requires LiveSound(b)
    ensures LiveSound(RestoreDefaults(b).0)
  {
    hide SaveConfig, StorableProfile;
  }

  // ----- which board operation a step performs

  /** The bytes a step commits, if it completes an upload that passes the transfer checks. */
  function Committed(s: State, e: Event): Option<seq<Byte>> {
    if s.upload.Idle? || e.Poll? then None
    else
      var u := s.upload;
      var chunk := Strip(e.line);
      if u.got + |chunk| != u.expectChars then None
      else
        match Ascii85.Decode(Ascii85.Join(u.buf + [chunk]))
        case Err => None
        case Ok(data) => if |data| == u.expectBytes && Crc.Crc16(data) == u.expectCrc then Some(data) else None
  }

  /** The index a step makes active, if it is a `profile` command that gets that far. */
  function Selected(s: State, e: Event): (n: Option<int>)
    ensures n.Some? ==> n.value < |s.board.live.profiles|
  {
    if Command(s, e) != Some(PROFILE) || |Args(e)| != 1 then None
    else
      match ParseInt(Args(e)[0])
      case None => None
      case Some(n) => if n < |s.board.live.profiles| then Some(n) else None
  }

  lemma CommandWordsDiffer()
    ensures PROFILE != DEFAULTS && PROFILE != HELP && PROFILE != VERSION && PROFILE != READ && PROFILE != WRITE
    ensures DEFAULTS != HELP && DEFAULTS != VERSION && DEFAULTS != READ && DEFAULTS != WRITE
    ensures PROFILE != TEST && PROFILE != EVENTS && DEFAULTS != TEST && DEFAULTS != EVENTS
  {
    assert PROFILE[0] == 112 && VERSION[0] == 118;
  }

  lemma UploadBoard(s: State, e: Event)
    requires s.upload.Receiving? && e.Receive?
    ensures UploadLine(s, e.line, e.now).0.board
         == if Committed(s, e).Some? then Commit(s.board, Committed(s, e).value).0 else s.board
  {
    hide Strip, Ascii85.Join, Ascii85.Decode, Crc.Crc16, Decode;
  }

  lemma DispatchBoard(s: State, cmd: Line, args: seq<Line>, now: int)
    ensures Dispatch(s, cmd, args, now).0.board
         == if cmd == PROFILE && |args| == 1 then SelectProfile(s, args).0.board
            else if cmd == DEFAULTS then RestoreDefaults(s.board).0
            else s.board
  {
    hide ParseInt, ReadBack, BindingAt, SetActive, RestoreDefaults, Ascii85.Lines, Ascii85.Encode;
    CommandWordsDiffer();
  }

  lemma SelectBoard(s: State, args: seq<Line>)
    requires |args| == 1
    ensures SelectProfile(s, args).0.board
         == match ParseInt(args[0])
            case None => s.board
            case Some(n) => if n < |s.board.live.profiles| then SetActive(s.board, n).0 else s.board
  {
    hide ParseInt, SetActive;
  }

  lemma StepBoard(s: State, e: Event)
    ensures Next(s, e).0.board
         == if Committed(s, e).Some? then Commit(s.board, Committed(s, e).value).0
            else if Selected(s, e).Some? then SetActive(s.board, Selected(s, e).value).0
            else if Command(s, e) == Some(DEFAULTS) then RestoreDefaults(s.board).0
            else s.board
  {
    hide Words, Sanitize, ParseInt, RestoreDefaults, SetActive, Commit, SelectProfile, Dispatch, UploadLine, Lower;
    assert PROFILE != DEFAULTS by {
      CommandWordsDiffer();
    }
    if e.Receive? {
      if s.upload.Receiving? {
        UploadBoard(s, e);
      } else if Command(s, e).Some? {
        DispatchBoard(s, Command(s, e).value, Args(e), e.now);
        if |Args(e)| == 1 {
          SelectBoard(s, Args(e));
        }
      }
    }
  }

  lemma StepLiveSound(s: State, e: Event)
    requires LiveSound(s.board)
    ensures LiveSound(Next(s, e).0.board)
  {
    hide LiveSound, Next, Committed, Selected, Command, Commit, SetActive, RestoreDefaults;
    StepBoard(s, e);
    if Committed(s, e).Some? {
      CommitSound(s.board, Committed(s, e).value);
    }
    if Selected(s, e).Some? {
      SetActiveSound(s.board, Selected(s, e).value);
    }
    RestoreSound(s.board);
  }

  // ----- agreement

  /**
   The steps that part the live configuration from the stored one: `profile` naming another
   profile by an index or at a size that cannot be encoded, and `defaults` with a factory
   configuration too large for the region.
   */
  predicate Parts(s: State, e: Event) {
    var b := s.board;
    if Selected(s, e).Some? then
      var n := Selected(s, e).value;
      n != b.live.active && (n < 0 || !Fits(b.live, b.region))
    else
      Command(s, e) == Some(DEFAULTS) && b.factory != b.live && !Fits(b.factory, b.region)
  }

  lemma SelectSyncsIff(b: Board, n: int)
    requires LiveSound(b) && Synced(b) && n < |b.live.profiles|
    ensures Synced(SetActive(b, n).0) <==> n == b.live.active || (0 <= n && Fits(b.live, b.region))
  {
    hide Decode, Storable, SaveConfig, Encode;
    var live := b.live.(active := n);
    assert live.(active := 0) == b.live.(active := 0);
    assert ConfigSize(live) == ConfigSize(b.live);
    SaveConfigIff(b.region, live);
    if n == b.live.active {
      assert live == b.live;
    }
  }

  lemma RestoreSyncsIff(b: Board)
    requires LiveSound(b) && Synced(b)
    ensures Synced(RestoreDefaults(b).0) <==> b.factory == b.live || Fits(b.factory, b.region)
  {
    hide Decode, SaveConfig, Encode, StorableProfile;
    SaveConfigIff(b.region, b.factory);
  }

  /** From agreement, a step keeps agreement exactly when it is not one of those. */
  lemma StepSyncedIff(s: State, e: Event)
    requires LiveSound(s.board) && Synced(s.board)
    ensures Synced(Next(s, e).0.board) <==> !Parts(s, e)
  {
    hide Next, Command, Commit, SetActive, RestoreDefaults, Synced, LiveSound, Fits, Committed, Selected;
    StepBoard(s, e);
    assert s.board.region.Some? by {
      SyncedHasRegion(s.board);
    }
    if Committed(s, e).Some? {
      CommitSyncs(s.board, Committed(s, e).value);
      CommitIsNoCommand(s, e);
    } else if Selected(s, e).Some? {
      SelectSyncsIff(s.board, Selected(s, e).value);
    } else if Command(s, e) == Some(DEFAULTS) {
      RestoreSyncsIff(s.board);
    }
  }

  lemma SyncedHasRegion(b: Board)
    requires Synced(b)
    ensures b.region.Some?
  {
  }

  lemma CommitIsNoCommand(s: State, e: Event)
    requires Committed(s, e).Some?
    ensures Command(s, e) == None && Selected(s, e) == None
  {
  }

  predicate NonePart(s: State, es: seq<Event>) {
    es == [] || (NonePart(s, es[..|es| - 1]) && !Parts(Run(s, es[..|es| - 1]).0, es[|es| - 1]))
  }

  /** Whole-run agreement: it lasts as long as no step parts the two. */
  lemma {:induction false} RunSynced(s: State, es: seq<Event>)
    requires LiveSound(s.board) && Synced(s.board) && NonePart(s, es)
    ensures LiveSound(Run(s, es).0.board) && Synced(Run(s, es).0.board)
  {
    hide Next, Synced, LiveSound, Parts;
    if es != [] {
      var front, last := es[..|es| - 1], es[|es| - 1];
      RunSynced(s, front);
      StepSyncedIff(Run(s, front).0, last);
      StepLiveSound(Run(s, front).0, last);
    }
  }

  /** A save that is answered with OK makes the two agree, whatever the region held before. */
  lemma SuccessSyncs(s: State, e: Event)
    requires LiveSound(s.board) && s.board.region.Some?
    requires
      var replies := Next(s, e).1;
      |replies| == 1 && replies[0].Done?
      && (replies[0].detail.Written? || replies[0].detail.Active? || replies[0].detail.DefaultsWritten?)
    ensures Synced(Next(s, e).0.board)
  {
    hide Words, Sanitize, Strip, ParseInt, ReadBack, BindingAt, Ascii85.Join,
      Ascii85.Decode, Crc.Crc16, Ascii85.Lines, Ascii85.Encode, Decode, SaveConfig, Synced, LiveSound, Encode;
    var b := s.board;
    if s.upload.Receiving? {
      var u := s.upload;
      var text := Ascii85.Join(u.buf + [Strip(e.line)]);
      CommitSyncs(b, Ascii85.Decode(text).value);
    } else {
      ActiveSyncs(b, if Selected(s, e).Some? then Selected(s, e).value else 0);
      DefaultsSync(b);
    }
  }

  lemma ActiveSyncs(b: Board, n: int)
    requires LiveSound(b) && b.region.Some?
    ensures SetActive(b, n).1.Ok? ==> Synced(SetActive(b, n).0)
  {
    hide Decode, Storable, SaveConfig, Encode;
    var live := b.live.(active := n);
    assert live.(active := 0) == b.live.(active := 0);
    SaveConfigIff(b.region, live);
  }

  lemma DefaultsSync(b: Board)
    requires LiveSound(b) && b.region.Some?
    ensures RestoreDefaults(b).1.Ok? ==> Synced(RestoreDefaults(b).0)
  {
    hide Decode, SaveConfig, Encode, StorableProfile;
    SaveConfigIff(b.region, b.factory);
  }

  /** A concrete parting: `profile -1` is refused, and yet changes the live configuration alone. */
  lemma NegativeProfileParts(s: State, now: int)
    requires s.upload.Idle? && LiveSound(s.board) && Synced(s.board)
    ensures
      var (t, replies) := Next(s, Receive(PROFILE_MINUS_ONE, now));
      && replies == [Refused] && t.board.live.active == -1
      && t.board.region == s.board.region && !Synced(t.board)
  {
    hide Synced, LiveSound, Words, Sanitize, SaveConfig, ParseInt;
    var line := PROFILE_MINUS_ONE;
    var e := Receive(line, now);
    MinusOneLine();
    ParseMinusOne();
    StepSyncedIff(s, e);
    CommandWordsDiffer();
    NegativeRefused(s.board);
  }

  lemma NegativeRefused(b: Board)
    requires LiveSound(b) && Synced(b)
    ensures SetActive(b, -1) == (b.(live := b.live.(active := -1)), Err)
    ensures b.live.active >= 0 && |b.live.profiles| > 0
  {
    hide Decode, Encode;
    DecodedStorable(Firmware, b.region.value);
  }

  const MINUS_ONE: AsciiLine := [45, 49]
  const PROFILE_MINUS_ONE: AsciiLine := PROFILE + ([32] + MINUS_ONE)

  lemma ParseMinusOne()
    ensures ParseInt(MINUS_ONE) == Some(-1)
  {
    assert Lower(MINUS_ONE[..2])[0] == 45;
    var one: Line := MINUS_ONE[1..];
    assert one == [49] && one[..0] == [];
    assert DigitsValue(10, one) == Some(1);
  }

  lemma MinusOneLine()
    ensures
      var words := Words(Sanitize(PROFILE_MINUS_ONE));
      words == [PROFILE, MINUS_ONE] && Lower(words[0]) == PROFILE
  {
    hide Words, Sanitize;
    TwoWords(PROFILE, MINUS_ONE);
    assert Lower(PROFILE) == PROFILE;
  }

  // ----- the stored bytes are the encoding of the live configuration

  /** The region starts with exactly what encoding the live configuration prints. */
  ghost predicate Canonical(b: Board) {
    && b.region.Some? && Storable(Firmware, b.live) && Fits(b.live, b.region)
    && |Encode(b.live)| == ConfigSize(b.live)
    && b.region.value[..ConfigSize(b.live)] == Encode(b.live)
  }

  /** The data is what an encoder printed. */
  ghost predicate Printed(data: seq<Byte>) {
    Decode(Firmware, data).Ok? ==>
      data == Encode(Decode(Firmware, data).value) && |data| <= NVM_SIZE
  }

  /** Indices are natural numbers, and an upload that gets as far as the store was printed. */
  ghost predicate Clean(s: State, e: Event) {
    && (Selected(s, e).Some? ==> Selected(s, e).value >= 0)
    && (Committed(s, e).Some? ==> Printed(Committed(s, e).value))
  }

  ghost predicate AllClean(s: State, es: seq<Event>) {
    es == [] || (AllClean(s, es[..|es| - 1]) && Clean(Run(s, es[..|es| - 1]).0, es[|es| - 1]))
  }

  /** Canonical storage loads as the live configuration and reads back as its encoding. */
  lemma CanonicalMeans(b: Board)
    requires Canonical(b)
    ensures Synced(b)
    ensures Load(b.region, b.factory) == (b.live, StatusOk)
    ensures ReadBlob(b.region) == Some(Encode(b.live)) && ReadBack(b) == Ok(Encode(b.live))
  {
    hide Decode, StorableProfile, ProfilesSize, Encode, IsBlank, StoredLength;
    var n, data := ConfigSize(b.live), b.region.value;
    assert data == Encode(b.live) + data[n..];
    DecodeEncode(Firmware, b.live, data[n..]);
    EncodedHeader(b.live, data);
  }

  lemma EncodedHeader(c: Config, data: seq<Byte>)
    requires Storable(Firmware, c) && ConfigSize(c) < 0x1_0000
    requires |Encode(c)| == ConfigSize(c) <= |data| && data[..ConfigSize(c)] == Encode(c)
    ensures !IsBlank(data) && StoredLength(Some(data)) == ConfigSize(c)
  {
    hide StorableProfile, ProfilesSize, EncodeOffsets, EncodeProfiles, Crc.Crc16, U16LE, At;
    var rest := EncodeOffsets(HEADER_BASE + 2 * |c.profiles|, c.profiles) + EncodeProfiles(c.profiles)
      + U16LE(Crc.Crc16(EncodeBody(c)));
    HeaderSize(c);
    assert Encode(c) == EncodeHeader(c) + rest;
    assert At(data, 0, EncodeHeader(c)) by {
      PrefixAt(data, EncodeHeader(c), rest);
    }
    HeaderFields(Firmware, c, data);
    assert data[..4][0] == 0x4B;
  }

  lemma PrefixAt(data: seq<Byte>, a: seq<Byte>, b: seq<Byte>)
    requires |a + b| <= |data| && data[..|a + b|] == a + b
    ensures At(data, 0, a)
  {
    assert data[0..|a|] == data[..|a + b|][..|a|];
  }

  lemma SavedCanonical(region: Region, c: Config)
    requires Storable(Firmware, c.(active := 0)) && region.Some? && SaveConfig(region, c).Ok?
    ensures
      var b := SaveConfig(region, c).value.0;
      forall status, factory :: Canonical(Board(b, c, status, factory))
  {
    hide Decode, Encode, ProfilesSize, StorableProfile, EncodableProfile, SaveConfig;
    SaveConfigIff(region, c);
    StorableIsEncodable(Firmware, c);
    EncodedSize(c);
    var after := SaveConfig(region, c).value.0.value;
    assert after[..|Encode(c)|] == Encode(c);
    SaveNeedsRoom(region, c);
  }

  lemma SaveNeedsRoom(region: Region, c: Config)
    requires region.Some? && SaveConfig(region, c).Ok?
    ensures |Encode(c)| <= |region.value| && RegionSize(SaveConfig(region, c).value.0) == |region.value|
  {
    hide Decode, Encode, Encodable;
  }

  lemma CommitCanonical(b: Board, data: seq<Byte>)
    requires b.region.Some? && Printed(data) && Commit(b, data).1.Ok?
    ensures Canonical(Commit(b, data).0)
  {
    hide Decode, Encode, ProfilesSize, StorableProfile, EncodableProfile;
    var c := Decode(Firmware, data).value;
    DecodedStorable(Firmware, data);
    StorableIsEncodable(Firmware, c);
    EncodedSize(c);
    assert (data + b.region.value[|data|..])[..|data|] == data;
  }

  lemma SelectCanonical(b: Board, n: int)
    requires LiveSound(b) && Canonical(b) && 0 <= n < |b.live.profiles|
    ensures Canonical(SetActive(b, n).0)
  {
    hide Storable, SaveConfig, Encode, Canonical;
    var live := b.live.(active := n);
    assert live.(active := 0) == b.live.(active := 0);
    CanonicalFits(b);
    assert ConfigSize(live) == ConfigSize(b.live);
    SaveConfigIff(b.region, live);
    SavedCanonical(b.region, live);
  }

  lemma CanonicalFits(b: Board)
    requires Canonical(b)
    ensures b.region.Some? && Fits(b.live, b.region)
  {
  }

  lemma RestoreCanonical(b: Board)
    requires LiveSound(b) && b.region.Some? && Fits(b.factory, b.region)
    ensures Canonical(RestoreDefaults(b).0)
  {
    hide StorableProfile, SaveConfig, Encode, Canonical;
    SaveConfigIff(b.region, b.factory);
    SavedCanonical(b.region, b.factory);
  }

  lemma StepCanonical(s: State, e: Event)
    requires LiveSound(s.board) && Canonical(s.board) && Fits(s.board.factory, s.board.region) && Clean(s, e)
    ensures Canonical(Next(s, e).0.board) && Fits(Next(s, e).0.board.factory, Next(s, e).0.board.region)
  {
    hide Next, Command, Commit, SetActive, RestoreDefaults, Canonical, LiveSound, Committed, Selected, Printed, Fits;
    StepBoard(s, e);
    CanonicalFits(s.board);
    if Committed(s, e).Some? {
      CommitSyncs(s.board, Committed(s, e).value);
      if Commit(s.board, Committed(s, e).value).1.Ok? {
        CommitCanonical(s.board, Committed(s, e).value);
      }
    } else if Selected(s, e).Some? {
      SelectCanonical(s.board, Selected(s, e).value);
    } else if Command(s, e) == Some(DEFAULTS) {
      RestoreCanonical(s.board);
    }
    StepKeepsFixed(s, e);
    SameSizeFits(s.board.factory, s.board.region, Next(s, e).0.board.region);
  }

  lemma SameSizeFits(c: Config, a: Region, b: Region)
    requires RegionSize(a) == RegionSize(b) && Fits(c, a)
    ensures Fits(c, b)
  {
  }

  /**
   The storage invariant: over any run of clean events the region starts with the encoding of the
   live configuration, so the next boot loads it and `read` returns it.
   */
  lemma {:induction false} RunCanonical(s: State, es: seq<Event>)
    requires LiveSound(s.board) && Canonical(s.board) && Fits(s.board.factory, s.board.region) && AllClean(s, es)
    ensures
      var b := Run(s, es).0.board;
      && LiveSound(b) && Canonical(b) && Fits(b.factory, b.region)
      && Boot(b.region, b.factory) == b.(status := StatusOk)
      && ReadBack(b) == Ok(Encode(b.live))
  {
    hide Next, LiveSound, Canonical, Fits, Clean, Load, ReadBack, Encode;
    if es != [] {
      var front, last := es[..|es| - 1], es[|es| - 1];
      RunCanonical(s, front);
      StepCanonical(Run(s, front).0, last);
      StepLiveSound(Run(s, front).0, last);
    }
    CanonicalMeans(Run(s, es).0.board);
  }

  /** Where the invariant starts: a clean step that saves, whatever the region held before. */
  lemma SuccessCanonical(s: State, e: Event)
    requires LiveSound(s.board) && s.board.region.Some? && Clean(s, e)
    requires
      var replies := Next(s, e).1;
      |replies| == 1 && replies[0].Done?
      && (replies[0].detail.Written? || replies[0].detail.Active? || replies[0].detail.DefaultsWritten?)
    ensures Canonical(Next(s, e).0.board)
  {
    hide Words, Sanitize, Strip, ParseInt, ReadBack, BindingAt, Ascii85.Join, Printed, Canonical,
      Ascii85.Decode, Crc.Crc16, Ascii85.Lines, Ascii85.Encode, Decode, SaveConfig, Synced, Encode, StorableProfile;
    var b := s.board;
    if s.upload.Receiving? {
      CommitCanonical(b, Committed(s, e).value);
    } else if Selected(s, e).Some? {
      var live := b.live.(active := Selected(s, e).value);
      assert live.(active := 0) == b.live.(active := 0);
      SavedCanonical(b.region, live);
    } else {
      SavedCanonical(b.region, b.factory);
    }
  }
}
