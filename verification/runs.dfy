/** Properties of the protocol over every run of lines and ticks. */
module Runs {
  import opened Bytes
  import opened Configs
  import opened Crc
  import opened Devices
  import opened Protocols
  import opened Store
  import opened Text
  import opened Ticks
  import Ascii85
  import Ascii85Proofs
  import Format

  datatype Event = Receive(line: AsciiLine, now: int) | Poll(now: int)

  function Next(s: State, e: Event): (State, seq<Reply>) {
    match e
    case Receive(line, now) => Handle(s, line, now)
    case Poll(now) => TickAt(s, now)
  }

  /** The state after a run and all the replies it gave. */
  function Run(s: State, es: seq<Event>): (State, seq<Reply>) {
    if es == [] then (s, [])
    else
      var (mid, before) := Run(s, es[..|es| - 1]);
      var (end, last) := Next(mid, es[|es| - 1]);
      (end, before + last)
  }

  lemma {:induction false} RunSplit(s: State, a: seq<Event>, b: seq<Event>)
    ensures Run(s, a + b) == (Run(Run(s, a).0, b).0, Run(s, a).1 + Run(Run(s, a).0, b).1)
    decreases |b|
  {
    hide Next;
    if b == [] {
      assert a + b == a;
      assert Run(s, a).1 + [] == Run(s, a).1;
    } else {
      var front, last := b[..|b| - 1], b[|b| - 1];
      assert (a + b)[..|a + b| - 1] == a + front;
      RunSplit(s, a, front);
      var mid := Run(s, a).0;
      var tail := Next(Run(mid, front).0, last).1;
      assert Run(s, a).1 + Run(mid, front).1 + tail == Run(s, a).1 + (Run(mid, front).1 + tail);
    }
  }

  /** The command word of a line that starts a command, in the idle state. */
  function Command(s: State, e: Event): Option<Line> {
    if s.upload.Receiving? || e.Poll? then None
    else
      var words := Words(Sanitize(e.line));
      if words == [] then None else Some(Lower(words[0]))
  }

  function Args(e: Event): seq<Line>
    requires e.Receive?
  {
    var words := Words(Sanitize(e.line));
    if words == [] then [] else words[1..]
  }

  // ----- the upload invariant

  ghost predicate UploadSound(s: State) {
    s.upload.Receiving? ==>
      var u := s.upload;
      && u.got == |Ascii85.Join(u.buf)|
      && u.got < u.expectChars
      && HEADER_BASE + CRC_TRAILER <= u.expectBytes <= RegionSize(s.board.region)
      && u.expectChars == Ascii85.EncodedLen(u.expectBytes)
  }

  /** No step changes the size of the region or the factory configuration. */
  lemma StepKeepsFixed(s: State, e: Event)
    ensures
      var t := Next(s, e).0.board;
      RegionSize(t.region) == RegionSize(s.board.region) && t.region.Some? == s.board.region.Some?
      && t.factory == s.board.factory
  {
    hide Format.Decode, FirmwareEncode, Words, Sanitize, Strip, Ascii85.Decode, ParseInt, ReadBack, BindingAt,
      Ascii85.Join;
  }

  lemma WriteOpensSound(s: State, args: seq<Line>, now: int)
    requires s.upload.Idle?
    ensures UploadSound(Write(s, args, now).0)
  {
    hide ParseInt;
  }

  lemma UploadLineSound(s: State, line: Line, now: int)
    requires s.upload.Receiving? && UploadSound(s)
    ensures UploadSound(UploadLine(s, line, now).0)
  {
    hide Strip, Complete;
    var u := s.upload;
    var chunk := Strip(line);
    assert (u.buf + [chunk])[..|u.buf|] == u.buf;
    CompleteIsIdle(s.(upload := Idle), Ascii85.Join(u.buf + [chunk]), u.expectBytes, u.expectCrc);
  }

  lemma CompleteIsIdle(s: State, text: seq<Byte>, expectBytes: int, expectCrc: int)
    ensures Complete(s, text, expectBytes, expectCrc).0.upload == s.upload
  {
  }

  lemma StepSound(s: State, e: Event)
    requires UploadSound(s)
    ensures UploadSound(Next(s, e).0)
  {
    hide Words, Sanitize, Write, UploadLine, ReadBack, BindingAt, SetActive, RestoreDefaults;
    if e.Receive? {
      if s.upload.Receiving? {
        UploadLineSound(s, e.line, e.now);
      } else {
        WriteOpensSound(s, Args(e), e.now);
      }
    }
  }

  /** In every reachable state an upload has counted exactly what it buffered, and wants more. */
  lemma {:induction false} RunSound(s: State, es: seq<Event>)
    requires UploadSound(s)
    ensures UploadSound(Run(s, es).0)
  {
    hide Next, UploadSound;
    if es != [] {
      RunSound(s, es[..|es| - 1]);
      StepSound(Run(s, es[..|es| - 1]).0, es[|es| - 1]);
    }
  }

  // ----- one terminating reply for every command

  /** Body lines, closed by exactly one OK or ERR. */
  ghost predicate Closed(replies: seq<Reply>) {
    && replies != [] && Terminator(replies[|replies| - 1])
    && forall i :: 0 <= i < |replies| - 1 ==> replies[i].Body?
  }

  function Terminators(replies: seq<Reply>): nat {
    if replies == [] then 0
    else Terminators(replies[..|replies| - 1]) + if Terminator(replies[|replies| - 1]) then 1 else 0
  }

  lemma {:induction false} TerminatorsJoin(a: seq<Reply>, b: seq<Reply>)
    ensures Terminators(a + b) == Terminators(a) + Terminators(b)
    decreases |b|
  {
    if b == [] {
      assert a + b == a;
    } else {
      assert (a + b)[..|a + b| - 1] == a + b[..|b| - 1];
      TerminatorsJoin(a, b[..|b| - 1]);
    }
  }

  lemma {:induction false} BodiesHaveNone(replies: seq<Reply>)
    requires forall i :: 0 <= i < |replies| ==> replies[i].Body?
    ensures Terminators(replies) == 0
  {
    if replies != [] {
      BodiesHaveNone(replies[..|replies| - 1]);
    }
  }

  lemma ClosedHasOne(replies: seq<Reply>)
    requires Closed(replies)
    ensures Terminators(replies) == 1
  {
    BodiesHaveNone(replies[..|replies| - 1]);
  }

  /** An upload in progress still owes its reply. */
  function Owed(s: State): nat {
    if s.upload.Receiving? then 1 else 0
  }

  lemma DispatchReplies(s: State, cmd: Line, args: seq<Line>, now: int)
    requires s.upload.Idle?
    ensures
      var (t, replies) := Dispatch(s, cmd, args, now);
      if t.upload.Receiving? then replies == [] else Closed(replies)
  {
    hide ParseInt, ReadBack, BindingAt, SetActive, RestoreDefaults, Ascii85.Lines, Ascii85.Encode;
  }

  lemma UploadReplies(s: State, line: Line, now: int)
    requires s.upload.Receiving?
    ensures
      var (t, replies) := UploadLine(s, line, now);
      if t.upload.Receiving? then replies == [] else Closed(replies)
  {
    hide Strip, Ascii85.Join, Ascii85.Decode, Commit, Crc16;
  }

  /** What a step replies: nothing, or one closed answer; and an answer settles what was owed. */
  lemma StepReplies(s: State, e: Event)
    ensures
      var (t, replies) := Next(s, e);
      && (replies == [] || Closed(replies))
      && Terminators(replies) + Owed(t) == Owed(s) + if Command(s, e).Some? then 1 else 0
  {
    hide Words, Sanitize, Dispatch, UploadLine, Closed, Terminators;
    var (t, replies) := Next(s, e);
    if e.Receive? && s.upload.Receiving? {
      UploadReplies(s, e.line, e.now);
    } else if Command(s, e).Some? {
      DispatchReplies(s, Command(s, e).value, Args(e), e.now);
    } else {
      assert replies == [] || replies == [Refused];
      RefusedIsClosed();
    }
    assert Terminators([]) == 0 by {
      BodiesHaveNone([]);
    }
    if Closed(replies) {
      ClosedHasOne(replies);
    }
  }

  lemma RefusedIsClosed()
    ensures Closed([Refused])
  {
  }

  /** How many commands a run starts. */
  function Commands(s: State, es: seq<Event>): nat {
    if es == [] then 0
    else
      var front := es[..|es| - 1];
      Commands(s, front) + if Command(Run(s, front).0, es[|es| - 1]).Some? then 1 else 0
  }

  /** Over any run, every command started is answered exactly once, or is the upload still open. */
  lemma {:induction false} RepliesBalance(s: State, es: seq<Event>)
    ensures Terminators(Run(s, es).1) + Owed(Run(s, es).0) == Owed(s) + Commands(s, es)
  {
    hide Next, Command, Owed;
    if es == [] {
      BodiesHaveNone([]);
    } else {
      var front, last := es[..|es| - 1], es[|es| - 1];
      var mid := Run(s, front).0;
      RepliesBalance(s, front);
      StepReplies(mid, last);
      TerminatorsJoin(Run(s, front).1, Next(mid, last).1);
    }
  }

  // ----- an upload is all or nothing

  /** Only a completed upload, `profile` and `defaults` can change what is stored or live. */
  lemma OnlyTheseChangeTheBoard(s: State, e: Event)
    requires Next(s, e).0.board != s.board
    ensures
      || (s.upload.Receiving? && |Next(s, e).1| == 1 && Accepts(Next(s, e).1[0]))
      || Command(s, e) == Some(PROFILE)
      || Command(s, e) == Some(DEFAULTS)
  {
    hide Words, Sanitize, Strip, ParseInt, ReadBack, BindingAt, SetActive, RestoreDefaults, Ascii85.Join,
      Ascii85.Decode, Commit, Crc16, Ascii85.Lines, Ascii85.Encode;
  }

  predicate Accepts(r: Reply) {
    r.Done? && r.detail.Written?
  }

  ghost predicate NoneAccepted(replies: seq<Reply>) {
    forall i :: 0 <= i < |replies| ==> !Accepts(replies[i])
  }

  lemma QuietStep(s: State, e: Event)
    requires NoneAccepted(Next(s, e).1)
    requires Command(s, e) != Some(PROFILE) && Command(s, e) != Some(DEFAULTS)
    ensures Next(s, e).0.board == s.board
  {
    hide Next, Command;
    if Next(s, e).0.board != s.board {
      OnlyTheseChangeTheBoard(s, e);
    }
  }

  /** A run that answers no upload with OK and has no such command leaves the board as it was. */
  lemma {:induction false} RefusedRunIsHarmless(s: State, es: seq<Event>)
    requires NoneAccepted(Run(s, es).1)
    requires forall k :: 0 <= k < |es| ==>
      Command(Run(s, es[..k]).0, es[k]) != Some(PROFILE) && Command(Run(s, es[..k]).0, es[k]) != Some(DEFAULTS)
    ensures Run(s, es).0.board == s.board
  {
    hide Next, Command, Accepts;
    if es != [] {
      var n := |es| - 1;
      var front := es[..n];
      assert forall k :: 0 <= k < n ==> front[..k] == es[..k] && front[k] == es[k];
      var before, last := Run(s, front).1, Next(Run(s, front).0, es[n]).1;
      NoneAcceptedParts(before, last);
      RefusedRunIsHarmless(s, front);
      QuietStep(Run(s, front).0, es[n]);
    }
  }

  lemma NoneAcceptedParts(a: seq<Reply>, b: seq<Reply>)
    requires NoneAccepted(a + b)
    ensures NoneAccepted(a) && NoneAccepted(b)
  {
    hide Accepts;
    forall i | 0 <= i < |b|
      ensures !Accepts(b[i])
    {
      assert (a + b)[|a| + i] == b[i];
    }
    assert forall i :: 0 <= i < |a| ==> (a + b)[i] == a[i];
  }

  /** What an upload has buffered once `line` is added. */
  function Buffered(s: State, line: Line): seq<Byte>
    requires s.upload.Receiving?
  {
    Ascii85.Join(s.upload.buf + [Strip(line)])
  }

  /** A line that draws OK: the reply states the length, and the decoded bytes are stored and live. */
  lemma AcceptedUpload(s: State, line: AsciiLine, now: int, n: nat)
    requires s.upload.Receiving? && Next(s, Receive(line, now)).1 == [Done(Written(n))]
    ensures
      var t := Next(s, Receive(line, now)).0;
      && t.upload.Idle? && t.events == s.events && Ascii85.Decode(Buffered(s, line)).Ok?
      && var data := Ascii85.Decode(Buffered(s, line)).value;
      && n == |data| == s.upload.expectBytes && Crc16(data) == s.upload.expectCrc
      && Format.Decode(Format.Firmware, data) == Ok(t.board.live)
      && (s.board.region.Some? ==>
            n <= |s.board.region.value| && t.board.region == Some(data + s.board.region.value[n..]))
  {
    hide Ascii85.Decode, Crc16, Format.Decode, Strip, Ascii85.Join;
  }

  /**
   A line that completes a transfer whose bytes suffered an error burst is refused, ends the upload
   and changes nothing, where `sent` is what the header announced.
   */
  lemma BurstRefused(s: State, line: AsciiLine, now: int, sent: seq<Byte>)
    requires s.upload.Receiving? && UploadSound(s)
    requires s.upload.expectBytes == |sent| && s.upload.expectCrc == Crc16(sent)
    requires
      var text := Buffered(s, line);
      |text| == s.upload.expectChars && Ascii85.Decode(text).Ok? && Burst(sent, Ascii85.Decode(text).value)
    ensures Next(s, Receive(line, now)) == (s.(upload := Idle), [Refused])
  {
    hide Crc16, Burst, Ascii85.Decode, Strip;
    assert (s.upload.buf + [Strip(line)])[..|s.upload.buf|] == s.upload.buf;
    BurstDetected(sent, Ascii85.Decode(Buffered(s, line)).value);
  }

  /** An accepted transfer used the 'z' shorthand only as far as whitespace made up for it. */
  lemma AcceptedCounting(s: State, line: Line, now: int)
    requires s.upload.Receiving? && UploadSound(s)
    requires
      var replies := UploadLine(s, line, now).1;
      |replies| == 1 && replies[0].Done?
    ensures
      var text := Buffered(s, line);
      Ascii85Proofs.CountWhitespace(text) == 4 * Ascii85Proofs.CountZ(text)
  {
    hide Strip, Ascii85.Decode, Commit, Crc16;
    var u := s.upload;
    var chunk := Strip(line);
    var text := Ascii85.Join(u.buf + [chunk]);
    assert (u.buf + [chunk])[..|u.buf|] == u.buf;
    assert |text| == u.expectChars;
    Ascii85Proofs.CountingRulesOutShorthand(text, u.expectBytes);
  }

  // ----- the port never stays wedged

  /** Exactly when a tick `d` true milliseconds after the last line abandons the upload. */
  lemma TimeoutIff(s: State, epoch: int, t: int, d: nat)
    requires s.upload.Receiving? && s.upload.lastRx == Tick(epoch, t)
    ensures
      TickAt(s, Tick(epoch, t + d))
      == if 5000 <= d % 0x2000_0000 < 0x1000_0000 then (s.(upload := Idle), [Refused]) else (s, [])
  {
    hide Elapsed, Tick;
    ElapsedFolded(epoch, t, d);
  }

  /** Silence of 5 s up to half a clock period after the last line always frees the port. */
  lemma TimesOut(s: State, epoch: int, t: int, d: nat)
    requires s.upload.Receiving? && s.upload.lastRx == Tick(epoch, t)
    requires 5000 <= d < 0x1000_0000
    ensures
      var (after, replies) := TickAt(s, Tick(epoch, t + d));
      after.upload.Idle? && after.board == s.board && replies == [Refused]
  {
    TimeoutIff(s, epoch, t, d);
  }
}
