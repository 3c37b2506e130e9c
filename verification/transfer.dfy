/** The whole upload, end to end: from a validated configuration to stored bytes and back. */
module Transfer {
  import opened Bytes
  import opened Configs
  import opened Devices
  import opened Protocols
  import opened Runs
  import opened Store
  import opened Text
  import opened Ticks
  import Ascii85
  import Ascii85Proofs
  import Crc
  import Format
  import RoundTrip
  import StorageInvariant

  /** The header line the CLI prints: `write %d 0x%04x`. */
  function HeaderLine(data: seq<Byte>): AsciiLine {
    WRITE + ([32] + (Dec(|data|) + ([32] + (HEX_PREFIX + Hex(Crc.Crc16(data), 4)))))
  }

  /** What arrives at the board, with true times in milliseconds. */
  datatype Arrival = LineAt(line: AsciiLine, t: int) | PollAt(t: int)

  function ToEvent(epoch: int, a: Arrival): Event {
    match a
    case LineAt(line, t) => Receive(line, Tick(epoch, t))
    case PollAt(t) => Poll(Tick(epoch, t))
  }

  function ToEvents(epoch: int, arrivals: seq<Arrival>): (es: seq<Event>)
    ensures |es| == |arrivals|
  {
    seq(|arrivals|, i requires 0 <= i < |arrivals| => ToEvent(epoch, arrivals[i]))
  }

  /** The text the lines carry, trimmed and joined. */
  function Sent(arrivals: seq<Arrival>): seq<Byte> {
    if arrivals == [] then []
    else
      var last := arrivals[|arrivals| - 1];
      Sent(arrivals[..|arrivals| - 1]) + if last.LineAt? then Strip(last.line) else []
  }

  /** When the last line arrived, `t0` being when the header did. */
  function LastLine(t0: int, arrivals: seq<Arrival>): int {
    if arrivals == [] then t0
    else
      var last := arrivals[|arrivals| - 1];
      if last.LineAt? then last.t else LastLine(t0, arrivals[..|arrivals| - 1])
  }

  /** Every poll of the main loop comes less than 5 s after the line before it. */
  predicate Prompt(t0: int, arrivals: seq<Arrival>) {
    arrivals == []
    || (var front, last := arrivals[..|arrivals| - 1], arrivals[|arrivals| - 1];
        Prompt(t0, front)
        && (last.PollAt? ==> LastLine(t0, front) <= last.t < LastLine(t0, front) + 5000))
  }

  // ----- the header

  lemma HeaderParses(data: seq<Byte>)
    requires |data| < 0x1_0000
    ensures
      var words := Words(Sanitize(HeaderLine(data)));
      && |words| == 3 && Lower(words[0]) == WRITE
      && ParseInt(words[1]) == Some(|data|) && ParseInt(words[2]) == Some(Crc.Crc16(data))
  {
    hide Words, Sanitize, Dec, Hex, ParseInt, Crc.Crc16;
    var len, crc := Dec(|data|), HEX_PREFIX + Hex(Crc.Crc16(data), 4);
    DecDigits(|data|);
    HexIsSolid(Crc.Crc16(data));
    assert Solid(WRITE) && Lower(WRITE) == WRITE && WRITE != [];
    ThreeWords(WRITE, len, crc);
    ParseDec(|data|);
    ParseHex(Crc.Crc16(data));
  }

  lemma HexIsSolid(crc: U16)
    ensures Solid(HEX_PREFIX + Hex(crc, 4))
  {
    hide Hex;
    assert Pow16(4) == 0x1_0000;
    HexDigits(crc, 4);
  }

  /** The state in which an upload has buffered `text`, the last line having come at `t`. */
  ghost predicate Waiting(s: State, base: State, data: seq<Byte>, text: seq<Byte>, now: int) {
    && s.upload.Receiving?
    && s == base.(upload := s.upload)
    && s.upload.expectBytes == |data| && s.upload.expectCrc == Crc.Crc16(data)
    && s.upload.expectChars == |Ascii85.Encode(data)|
    && Ascii85.Join(s.upload.buf) == text && s.upload.got == |text|
    && s.upload.lastRx == now
  }

  lemma HeaderOpens(base: State, data: seq<Byte>, now: int)
    requires base.upload.Idle? && 12 <= |data| < 0x1_0000 && |data| <= RegionSize(base.board.region)
    ensures
      var (s, replies) := Next(base, Receive(HeaderLine(data), now));
      replies == [] && Waiting(s, base, data, [], now)
  {
    hide Words, Sanitize, ParseInt, HeaderLine, Crc.Crc16, Ascii85.Encode;
    HeaderParses(data);
    WriteIsDispatched();
    Ascii85.EncodedLength(data);
  }

  lemma WriteIsDispatched()
    ensures WRITE != HELP && WRITE != VERSION && WRITE != READ
    ensures READ != HELP && READ != VERSION
  {
    assert READ[0] == 114 && HELP[0] == 104;
  }

  // ----- one arrival

  lemma PollWaits(s: State, base: State, data: seq<Byte>, text: seq<Byte>, epoch: int, t: int, d: nat)
    requires Waiting(s, base, data, text, Tick(epoch, t)) && d < 5000
    ensures Next(s, Poll(Tick(epoch, t + d))) == (s, [])
  {
    hide Ascii85.Encode, Crc.Crc16;
    ElapsedIsTrueTime(epoch, t, d);
  }

  lemma LineExtends(s: State, base: State, data: seq<Byte>, text: seq<Byte>, was: int, line: AsciiLine, now: int)
    requires Waiting(s, base, data, text, was)
    requires |text + Strip(line)| < |Ascii85.Encode(data)|
    ensures
      var (t, replies) := Next(s, Receive(line, now));
      replies == [] && Waiting(t, base, data, text + Strip(line), now)
  {
    hide Strip, Ascii85.Encode, Crc.Crc16, Complete;
    assert (s.upload.buf + [Strip(line)])[..|s.upload.buf|] == s.upload.buf;
  }

  lemma LineCompletes(s: State, base: State, data: seq<Byte>, text: seq<Byte>, was: int, line: AsciiLine, now: int)
    requires base.upload.Idle? && Waiting(s, base, data, text, was)
    requires text + Strip(line) == Ascii85.Encode(data)
    requires Commit(base.board, data).1 == Ok(|data|)
    ensures Next(s, Receive(line, now)) == (base.(board := Commit(base.board, data).0), [Done(Written(|data|))])
  {
    hide Strip, Ascii85.Encode, Crc.Crc16, Ascii85.Decode, Commit;
    assert (s.upload.buf + [Strip(line)])[..|s.upload.buf|] == s.upload.buf;
    EncodedIsVisible(data);
    Ascii85Proofs.DecodeEncode(data, Ascii85.Encode(data));
  }

  lemma EncodedIsVisible(data: seq<Byte>)
    ensures Ascii85.Visible(Ascii85.Encode(data)) == Ascii85.Encode(data)
  {
    hide Ascii85.Encode, Ascii85.Visible;
    Ascii85.EncodedAlphabet(data);
    Ascii85.VisibleOfPlain(Ascii85.Encode(data));
  }

  /** Once idle again, blank lines and ticks do nothing. */
  lemma IdleIgnores(s: State, e: Event)
    requires s.upload.Idle? && (e.Receive? ==> Strip(e.line) == [])
    ensures Next(s, e) == (s, [])
  {
    hide Dispatch, Strip;
    if e.Receive? {
      BlankSanitizes(e.line);
    }
  }

  // ----- the whole transfer

  /** Where a transfer stands after some arrivals: still waiting, or committed and answered. */
  ghost predicate Progress(s: State, replies: seq<Reply>, base: State, data: seq<Byte>, text: seq<Byte>, now: int) {
    if text == Ascii85.Encode(data) then
      s == base.(board := Commit(base.board, data).0) && replies == [Done(Written(|data|))]
    else
      replies == [] && Waiting(s, base, data, text, now)
  }

  lemma PollProgress(s: State, replies: seq<Reply>, base: State, data: seq<Byte>, text: seq<Byte>,
                     epoch: int, was: int, t: int)
    requires base.upload.Idle?
    requires Progress(s, replies, base, data, text, Tick(epoch, was))
    requires was <= t < was + 5000
    ensures Next(s, Poll(Tick(epoch, t))) == (s, [])
  {
    hide Ascii85.Encode, Commit, Next, Waiting, Tick;
    if text == Ascii85.Encode(data) {
      IdleIgnores(s, Poll(Tick(epoch, t)));
    } else {
      PollWaits(s, base, data, text, epoch, was, t - was);
    }
  }

  lemma LineProgress(s: State, replies: seq<Reply>, base: State, data: seq<Byte>, text: seq<Byte>,
                     was: int, line: AsciiLine, now: int)
    requires base.upload.Idle? && Commit(base.board, data).1 == Ok(|data|)
    requires Progress(s, replies, base, data, text, was)
    requires text + Strip(line) <= Ascii85.Encode(data)
    ensures Progress(Next(s, Receive(line, now)).0, replies + Next(s, Receive(line, now)).1, base, data,
                     text + Strip(line), now)
  {
    hide Strip, Ascii85.Encode, Commit, Next, Waiting;
    var whole := Ascii85.Encode(data);
    if text == whole {
      assert Strip(line) == [];
      IdleIgnores(s, Receive(line, now));
      assert replies + [] == replies && text + [] == text;
    } else if text + Strip(line) == whole {
      LineCompletes(s, base, data, text, was, line, now);
    } else {
      LineExtends(s, base, data, text, was, line, now);
    }
  }

  lemma {:induction false} TransferProgress(s: State, base: State, data: seq<Byte>, epoch: int, t0: int,
                                            arrivals: seq<Arrival>)
    requires base.upload.Idle? && Commit(base.board, data).1 == Ok(|data|)
    requires Waiting(s, base, data, [], Tick(epoch, t0)) && Ascii85.Encode(data) != []
    requires Prompt(t0, arrivals) && Sent(arrivals) <= Ascii85.Encode(data)
    ensures Progress(Run(s, ToEvents(epoch, arrivals)).0, Run(s, ToEvents(epoch, arrivals)).1, base, data,
                     Sent(arrivals), Tick(epoch, LastLine(t0, arrivals)))
    decreases |arrivals|
  {
    hide Strip, Ascii85.Encode, Commit, Next, Waiting, Progress, Tick;
    if arrivals == [] {
      StartsWaiting(s, base, data, Tick(epoch, t0));
    } else {
      var front, last := arrivals[..|arrivals| - 1], arrivals[|arrivals| - 1];
      var es := ToEvents(epoch, arrivals);
      assert es[..|es| - 1] == ToEvents(epoch, front);
      assert Sent(front) <= Sent(arrivals);
      TransferProgress(s, base, data, epoch, t0, front);
      var mid, replies := Run(s, ToEvents(epoch, front)).0, Run(s, ToEvents(epoch, front)).1;
      var was := LastLine(t0, front);
      match last
      case PollAt(t) =>
        PollProgress(mid, replies, base, data, Sent(front), epoch, was, t);
        assert replies + [] == replies && Sent(front) + [] == Sent(front);
      case LineAt(line, t) =>
        LineProgress(mid, replies, base, data, Sent(front), Tick(epoch, was), line, Tick(epoch, t));
    }
  }

  lemma StartsWaiting(s: State, base: State, data: seq<Byte>, now: int)
    requires Waiting(s, base, data, [], now) && Ascii85.Encode(data) != []
    ensures Progress(s, [], base, data, [], now)
  {
    hide Waiting, Ascii85.Encode;
  }

  lemma ValidCommits(b: Board, c: Config)
    requires Valid(c) && Format.Utf8Strings(c)
    requires b.region.Some? && ConfigSize(c) <= |b.region.value|
    ensures |Format.Encode(c)| == ConfigSize(c) && 12 <= ConfigSize(c) <= NVM_SIZE
    ensures
      var data := Format.Encode(c);
      && Commit(b, data).1 == Ok(|data|)
      && Commit(b, data).0 == b.(region := Some(data + b.region.value[|data|..]), live := c, status := StatusOk)
      && StorageInvariant.Canonical(Commit(b, data).0)
  {
    hide Format.Encode, Format.Decode, ProfilesSize, ValidProfile, Format.Utf8Strings, Format.Storable, ConfigSize,
      Format.EncodableProfile, StorageInvariant.Canonical, Commit;
    var data := Format.Encode(c);
    ValidRoom(c);
    RoundTrip.ValidIsStorable(c);
    RoundTrip.StorableIsEncodable(Format.Firmware, c);
    RoundTrip.EncodedSize(c);
    RoundTrip.DecodeEncode(Format.Firmware, c, []);
    assert data + [] == data;
    CommitsDecoded(b, data, c);
    StorageInvariant.CommitCanonical(b, data);
  }

  lemma ValidRoom(c: Config)
    requires Valid(c)
    ensures 12 <= ConfigSize(c) <= NVM_SIZE
  {
    hide ProfilesSize, ValidProfile;
  }

  lemma CommitsDecoded(b: Board, data: seq<Byte>, c: Config)
    requires b.region.Some? && |data| <= |b.region.value| && Format.Decode(Format.Firmware, data) == Ok(c)
    ensures
      Commit(b, data)
      == (b.(region := Some(data + b.region.value[|data|..]), live := c, status := StatusOk), Ok(|data|))
  {
    hide Format.Decode;
  }

  /** What a board does when the header for `data` and then `arrivals` reach it. */
  function Session(s: State, data: seq<Byte>, epoch: int, t0: int, arrivals: seq<Arrival>): (State, seq<Reply>) {
    Run(s, [Receive(HeaderLine(data), Tick(epoch, t0))] + ToEvents(epoch, arrivals))
  }

  /** The board is idle, holds exactly `data` before whatever was there, and runs `c`. */
  ghost predicate Stored(after: State, before: State, data: seq<Byte>, c: Config) {
    && after.upload.Idle? && after.events == before.events
    && after.board.live == c && after.board.status == StatusOk
    && StorageInvariant.Canonical(after.board)
    && before.board.region.Some? && |data| <= |before.board.region.value|
    && after.board.region == Some(data + before.board.region.value[|data|..])
  }

  /**
   End to end: for every configuration the CLI validates whose strings are UTF-8, and every idle
   board with room for it whatever its region holds, the header and the Ascii85 text, cut into
   lines in any way and with every tick less than 5 s after a line, draw exactly one reply; then
   the region starts with exactly the sent bytes and the configuration is live.
   */
  lemma UploadEndToEnd(s: State, c: Config, epoch: int, t0: int, arrivals: seq<Arrival>)
    requires Valid(c) && Format.Utf8Strings(c)
    requires s.upload.Idle? && s.board.region.Some? && ConfigSize(c) <= |s.board.region.value|
    requires Prompt(t0, arrivals) && Sent(arrivals) == Ascii85.Encode(Format.Encode(c))
    ensures Session(s, Format.Encode(c), epoch, t0, arrivals).1 == [Done(Written(|Format.Encode(c)|))]
    ensures Stored(Session(s, Format.Encode(c), epoch, t0, arrivals).0, s, Format.Encode(c), c)
  {
    hide Format.Encode, Commit, Next, HeaderLine, Valid, Format.Utf8Strings, Ascii85.Encode, ConfigSize,
      ToEvents, Waiting, Prompt, StorageInvariant.Canonical, Sent, Tick;
    var data := Format.Encode(c);
    var header := Receive(HeaderLine(data), Tick(epoch, t0));
    ValidCommits(s.board, c);
    HeaderOpens(s, data, Tick(epoch, t0));
    Ascii85.EncodedLength(data);
    OneStep(s, header);
    TransferProgress(Next(s, header).0, s, data, epoch, t0, arrivals);
    RunSplit(s, [header], ToEvents(epoch, arrivals));
    var replies := Run(Next(s, header).0, ToEvents(epoch, arrivals)).1;
    assert [] + replies == replies;
  }

  lemma OneStep(s: State, e: Event)
    ensures Run(s, [e]) == Next(s, e)
  {
    hide Next;
    assert [e][..0] == [];
    assert [] + Next(s, e).1 == Next(s, e).1;
  }

  /** And then `read` answers with the same bytes, wrapped, and their count. */
  lemma ReadAfterUpload(s: State, c: Config, now: int)
    requires s.upload.Idle? && StorageInvariant.Canonical(s.board) && s.board.live == c
    ensures
      var data := Format.Encode(c);
      Next(s, Receive(READ, now)) == (s, Bodies(Ascii85.Lines(Ascii85.Encode(data), 80)) + [Done(Length(|data|))])
  {
    hide Words, Sanitize, Ascii85.Encode, Ascii85.Lines, Bodies, ReadBack, Format.Encode, StorageInvariant.Canonical,
      ReadBlob, Load, StorageInvariant.Synced;
    StorageInvariant.CanonicalMeans(s.board);
    OneWord(READ);
    WriteIsDispatched();
    assert Lower(READ) == READ;
    CanonicalNonEmpty(s.board);
  }

  lemma CanonicalNonEmpty(b: Board)
    requires StorageInvariant.Canonical(b)
    ensures Format.Encode(b.live) != []
  {
    hide Format.Encode, Format.Storable, ProfilesSize;
  }
}
