/** What the short commands answer, from the line that asks to the state that results. */
module Commands {
  import opened Bytes
  import opened Configs
  import opened Devices
  import opened Framing
  import opened Protocols
  import opened Runs
  import opened Store
  import opened StorageInvariant
  import opened Text
  import Format
  import RT = RoundTrip

  /** A command with one or two arguments, as a line. */
  function Ask(cmd: AsciiLine, arg: AsciiLine): AsciiLine {
    cmd + ([32] + arg)
  }

  function AskTwo(cmd: AsciiLine, a: AsciiLine, b: AsciiLine): AsciiLine {
    cmd + ([32] + (a + ([32] + b)))
  }

  lemma DecIsSolid(n: nat)
    ensures Solid(Dec(n)) && Dec(n) != []
  {
    hide Dec;
    DecDigits(n);
  }

  lemma WordsOfAsk(cmd: AsciiLine, arg: AsciiLine)
    requires cmd in {PROFILE, EVENTS} && Solid(arg) && arg != []
    ensures Words(Sanitize(Ask(cmd, arg))) == [cmd, arg] && Lower(cmd) == cmd
  {
    hide Words, Sanitize;
    assert Solid(PROFILE) && Solid(EVENTS) && Lower(PROFILE) == PROFILE && Lower(EVENTS) == EVENTS;
    TwoWords(cmd, arg);
  }

  lemma WordsOfTest(a: AsciiLine, b: AsciiLine)
    requires Solid(a) && a != [] && Solid(b) && b != []
    ensures Words(Sanitize(AskTwo(TEST, a, b))) == [TEST, a, b] && Lower(TEST) == TEST
  {
    hide Words, Sanitize;
    assert Solid(TEST) && Lower(TEST) == TEST;
    ThreeWords(TEST, a, b);
  }

  lemma OtherWordsDiffer()
    ensures TEST != HELP && TEST != VERSION && TEST != READ && TEST != WRITE && TEST != PROFILE
    ensures EVENTS != HELP && EVENTS != VERSION && EVENTS != READ && EVENTS != WRITE && EVENTS != PROFILE
    ensures EVENTS != TEST
  {
    assert TEST[0] == 116 && EVENTS[0] == 101 && HELP[0] == 104;
  }

  /**
   `profile n` on a board with room for its live configuration, whatever the region holds: for an
   existing profile the answer names it, it is active, and the region starts with the encoding of
   just that configuration; for any other the command changes nothing.
   */
  lemma ProfileAnswers(s: State, n: nat, now: int)
    requires s.upload.Idle? && LiveSound(s.board) && s.board.region.Some? && Fits(s.board.live, s.board.region)
    ensures
      var (t, replies) := Next(s, Receive(Ask(PROFILE, Dec(n)), now));
      if n < |s.board.live.profiles| then
        && replies == [Done(Active(n, s.board.live.profiles[n].name))]
        && t.board.live == s.board.live.(active := n)
        && Canonical(t.board) && t == s.(board := t.board) && t.board.status == s.board.status
      else
        t == s && replies == [Refused]
  {
    hide Words, Sanitize, Dec, ParseInt, SetActive, Canonical, LiveSound, Fits;
    DecIsSolid(n);
    WordsOfAsk(PROFILE, Dec(n));
    ParseDec(n);
    CommandWordsDiffer();
    if n < |s.board.live.profiles| {
      SelectSucceeds(s.board, n);
    }
  }

  lemma SelectSucceeds(b: Board, n: nat)
    requires LiveSound(b) && b.region.Some? && Fits(b.live, b.region) && n < |b.live.profiles|
    ensures SetActive(b, n).1.Ok? && SetActive(b, n).0.live == b.live.(active := n)
    ensures SetActive(b, n).0.status == b.status
    ensures Canonical(SetActive(b, n).0)
  {
    hide Canonical, Format.Storable, SaveConfig, Format.Encode, Format.Decode;
    var live := b.live.(active := n);
    assert live.(active := 0) == b.live.(active := 0);
    assert ConfigSize(live) == ConfigSize(b.live);
    SaveConfigIff(b.region, live);
    SavedCanonical(b.region, live);
  }

  /** The bindings of a profile in the order the commands and the gesture number them. */
  function Numbered(p: Profile): seq<Binding> {
    [p.tap] + p.slots
  }

  /** `test p b` fires the binding that number `b` names, when both exist, and changes nothing. */
  lemma TestAnswers(s: State, pi: nat, bi: nat, now: int)
    requires s.upload.Idle?
    ensures
      var ps := s.board.live.profiles;
      Next(s, Receive(AskTwo(TEST, Dec(pi), Dec(bi)), now))
      == if pi < |ps| && bi < |Numbered(ps[pi])| then (s, [Done(Fired(|Numbered(ps[pi])[bi].steps|))])
         else (s, [Refused])
  {
    hide Words, Sanitize, Dec, ParseInt;
    DecIsSolid(pi);
    DecIsSolid(bi);
    WordsOfTest(Dec(pi), Dec(bi));
    ParseDec(pi);
    ParseDec(bi);
    OtherWordsDiffer();
  }

  /** `events on` and `events off` set what they say and touch nothing else. */
  lemma EventsAnswers(s: State, on: bool, now: int)
    requires s.upload.Idle?
    ensures Next(s, Receive(Ask(EVENTS, if on then ON else OFF), now)) == (s.(events := on), [Done(EventsSet(on))])
  {
    hide Words, Sanitize;
    assert Solid(ON) && Solid(OFF) && Lower(ON) == ON && Lower(OFF) == OFF && ON[1] != OFF[1];
    WordsOfAsk(EVENTS, if on then ON else OFF);
    OtherWordsDiffer();
  }

  /** `defaults` on a board with room for the factory configuration puts it in force and in store. */
  lemma DefaultsAnswers(s: State, now: int)
    requires s.upload.Idle? && LiveSound(s.board) && s.board.region.Some? && Fits(s.board.factory, s.board.region)
    ensures
      var (t, replies) := Next(s, Receive(DEFAULTS, now));
      && replies == [Done(DefaultsWritten(ConfigSize(s.board.factory)))]
      && t.board.live == s.board.factory && t.board.status == StatusOk && Canonical(t.board)
  {
    hide Words, Sanitize, RestoreDefaults, Canonical, LiveSound, Fits;
    DefaultsWord();
    CommandWordsDiffer();
    RestoreCanonical(s.board);
    RestoreSucceeds(s.board);
  }

  lemma DefaultsWord()
    ensures Words(Sanitize(DEFAULTS)) == [DEFAULTS] && Lower(DEFAULTS) == DEFAULTS
  {
    hide Words, Sanitize;
    assert Solid(DEFAULTS) && Lower(DEFAULTS) == DEFAULTS;
    OneWord(DEFAULTS);
  }

  lemma RestoreSucceeds(b: Board)
    requires LiveSound(b) && b.region.Some? && Fits(b.factory, b.region)
    ensures
      var (t, r) := RestoreDefaults(b);
      r == Ok(ConfigSize(b.factory)) && t.live == b.factory && t.status == StatusOk
  {
    hide SaveConfig, Format.Encode, Format.Decode, Format.StorableProfile, ProfilesSize, Format.EncodableProfile;
    SaveConfigIff(b.region, b.factory);
    RoundTripSize(b.factory);
  }

  lemma RoundTripSize(c: Config)
    requires Format.Storable(Format.Firmware, c)
    ensures |Format.Encode(c)| == ConfigSize(c)
  {
    hide Format.Encode, Format.StorableProfile, ProfilesSize, Format.EncodableProfile;
    RT.StorableIsEncodable(Format.Firmware, c);
    RT.EncodedSize(c);
  }

  /** `version` on such a board counts the bytes of exactly the live configuration as used. */
  lemma VersionAnswers(s: State, now: int)
    requires s.upload.Idle? && Canonical(s.board)
    ensures
      var b := s.board;
      Next(s, Receive(VERSION, now))
      == (s, [Done(Versions(|b.region.value|, ConfigSize(b.live), |b.live.profiles|, b.live.active, b.status))])
  {
    hide Words, Sanitize, Format.Encode, Canonical, ReadBack, Synced, Load;
    assert Solid(VERSION) && Lower(VERSION) == VERSION && VERSION[0] != HELP[0];
    OneWord(VERSION);
    CanonicalMeans(s.board);
    CanonicalSize(s.board);
  }

  lemma CanonicalSize(b: Board)
    requires Canonical(b)
    ensures b.region.Some? && |Format.Encode(b.live)| == ConfigSize(b.live)
  {
    hide Format.Encode, Format.Storable, ProfilesSize;
  }

  /** The answers to `events`, as they are written. */
  lemma EventsSpelled()
    ensures Render(Done(EventsSet(true))) == Ascii("OK events=on")
    ensures Render(Done(EventsSet(false))) == Ascii("OK events=off")
  {
    hide Ascii;
    EventsOn();
    EventsOff();
  }

  lemma EventsOn()
    ensures OK_LINE + ([32] + (Ascii("events=") + ON)) == Ascii("OK events=on")
  {
  }

  lemma EventsOff()
    ensures OK_LINE + ([32] + (Ascii("events=") + OFF)) == Ascii("OK events=off")
  {
  }

  /** And the other short answers. */
  lemma AnswersSpelled(n: int, name: seq<Byte>, k: nat)
    ensures Render(Done(Active(n, name))) == Ascii("OK active=") + (DecInt(n) + (Ascii(" name=") + name))
    ensures Render(Done(Fired(k))) == Ascii("OK fired ") + (Dec(k) + Ascii(" step(s)"))
    ensures Render(Done(DefaultsWritten(k))) == Ascii("OK defaults written ") + Dec(k)
  {
    hide Dec, DecInt, Ascii;
    ActiveOpening();
    FiredOpening();
    DefaultsOpening();
    Glue(OK_LINE, Ascii("active="), DecInt(n), Ascii(" name=") + name);
    Glue(OK_LINE, Ascii("fired "), Dec(k), Ascii(" step(s)"));
    Glue(OK_LINE, Ascii("defaults written "), Dec(k), []);
    assert Ascii("active=") + DecInt(n) + Ascii(" name=") + name
        == Ascii("active=") + (DecInt(n) + (Ascii(" name=") + name));
    assert Ascii("fired ") + Dec(k) + Ascii(" step(s)") == Ascii("fired ") + (Dec(k) + Ascii(" step(s)"));
    assert Dec(k) + [] == Dec(k);
  }

  lemma Glue(ok: Line, word: Line, a: Line, b: Line)
    ensures ok + ([32] + (word + (a + b))) == ok + ([32] + word) + (a + b)
  {
  }

  lemma ActiveOpening()
    ensures OK_LINE + ([32] + Ascii("active=")) == Ascii("OK active=")
  {
  }

  lemma FiredOpening()
    ensures OK_LINE + ([32] + Ascii("fired ")) == Ascii("OK fired ")
  {
  }

  lemma DefaultsOpening()
    ensures OK_LINE + ([32] + Ascii("defaults written ")) == Ascii("OK defaults written ")
  {
  }
}
