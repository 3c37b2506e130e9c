/** From the bytes the CLI writes to the bytes it reads back, through the board's main loop. */
module EndToEnd {
  import opened Bytes
  import opened Configs
  import opened Framing
  import opened LineReading
  import opened MainLoop
  import opened Protocols
  import opened Runs
  import opened System
  import opened Text
  import opened Ticks
  import opened Transfer
  import Ascii85
  import Ascii85Proofs
  import Client
  import Format
  import StorageInvariant

  // ----- what the loop reads, as arrivals

  function LinesAt(lines: seq<AsciiLine>, t: int): (arrivals: seq<Arrival>)
    ensures |arrivals| == |lines|
  {
    seq(|lines|, i requires 0 <= i < |lines| => LineAt(lines[i], t))
  }

  /** The arrivals of some turns, in the order the loop handles them, and the unfinished line. */
  function Arrivals(buf: AsciiLine, passes: seq<Pass>): (seq<Arrival>, AsciiLine) {
    if passes == [] then ([], buf)
    else
      var pass := passes[|passes| - 1];
      var (front, rest) := Arrivals(buf, passes[..|passes| - 1]);
      var (lines, next) := ReadPort(rest, pass.waiting);
      (front + (LinesAt(lines, pass.t) + [PollAt(pass.t)]), next)
  }

  function Waiting(passes: seq<Pass>): seq<seq<Byte>> {
    seq(|passes|, i requires 0 <= i < |passes| => passes[i].waiting)
  }

  lemma TurnEvents(epoch: int, lines: seq<AsciiLine>, t: int)
    ensures ToEvents(epoch, LinesAt(lines, t) + [PollAt(t)]) == Events(lines, Tick(epoch, t))
  {
    hide Tick;
  }

  lemma ToEventsJoin(epoch: int, a: seq<Arrival>, b: seq<Arrival>)
    ensures ToEvents(epoch, a + b) == ToEvents(epoch, a) + ToEvents(epoch, b)
  {
    hide ToEvent;
  }

  lemma {:induction false} TrafficIsArrivals(epoch: int, buf: AsciiLine, passes: seq<Pass>)
    ensures Traffic(epoch, buf, passes) == (ToEvents(epoch, Arrivals(buf, passes).0), Arrivals(buf, passes).1)
  {
    hide ToEvents, Events, LinesAt, ReadPort, Tick;
    if passes == [] {
      NoEvents(epoch);
    } else {
      var pass := passes[|passes| - 1];
      var (front, rest) := Arrivals(buf, passes[..|passes| - 1]);
      var lines := ReadPort(rest, pass.waiting).0;
      TrafficIsArrivals(epoch, buf, passes[..|passes| - 1]);
      TurnEvents(epoch, lines, pass.t);
      ToEventsJoin(epoch, front, LinesAt(lines, pass.t) + [PollAt(pass.t)]);
    }
  }

  lemma NoEvents(epoch: int)
    ensures ToEvents(epoch, []) == []
  {
  }

  lemma {:induction false} LinesOfJoin(a: seq<Arrival>, b: seq<Arrival>)
    ensures LinesOf(a + b) == LinesOf(a) + LinesOf(b)
    decreases |b|
  {
    if b == [] {
      assert a + b == a;
      assert LinesOf(a) + [] == LinesOf(a);
    } else {
      var front, last := b[..|b| - 1], b[|b| - 1];
      assert (a + b)[..|a + b| - 1] == a + front;
      LinesOfJoin(a, front);
      var tail := if last.LineAt? then [last.line] else [];
      assert LinesOf(a) + LinesOf(front) + tail == LinesOf(a) + (LinesOf(front) + tail);
    }
  }

  lemma {:induction false} LinesOfLines(lines: seq<AsciiLine>, t: int)
    ensures LinesOf(LinesAt(lines, t)) == lines
  {
    if lines != [] {
      var front := lines[..|lines| - 1];
      assert LinesAt(lines, t)[..|lines| - 1] == LinesAt(front, t);
      LinesOfLines(front, t);
    }
  }

  lemma LinesOfTurn(lines: seq<AsciiLine>, t: int)
    ensures LinesOf(LinesAt(lines, t) + [PollAt(t)]) == lines
  {
    hide LinesOf, LinesAt;
    LinesOfLines(lines, t);
    LinesOfJoin(LinesAt(lines, t), [PollAt(t)]);
    NoLines(t);
  }

  lemma NoLines(t: int)
    ensures LinesOf([PollAt(t)]) == []
  {
    assert [PollAt(t)][..0] == [];
  }

  lemma {:induction false} DeliverMore(buf: seq<Byte>, chunks: seq<seq<Byte>>, chunk: seq<Byte>)
    ensures
      var (lines, rest) := Deliver(buf, chunks);
      Deliver(buf, chunks + [chunk]) == (lines + Split(rest + chunk).0, Split(rest + chunk).1)
    decreases |chunks|
  {
    hide Split;
    if chunks == [] {
      assert [chunk][1..] == [];
      assert chunks + [chunk] == [chunk];
      assert Split(buf + chunk).0 + [] == Split(buf + chunk).0;
      assert [] + Split(buf + chunk).0 == Split(buf + chunk).0;
    } else {
      assert (chunks + [chunk])[1..] == chunks[1..] + [chunk];
      var (lines, rest) := Split(buf + chunks[0]);
      DeliverMore(rest, chunks[1..], chunk);
      var more, end := Deliver(rest, chunks[1..]).0, Deliver(rest, chunks[1..]).1;
      assert lines + (more + Split(end + chunk).0) == lines + more + Split(end + chunk).0;
    }
  }

  lemma ReadIsSplit(buf: AsciiLine, waiting: AsciiLine)
    ensures ReadPort(buf, waiting).0 == Split(buf + waiting).0 && ReadPort(buf, waiting).1 == Split(buf + waiting).1
  {
    hide Split;
  }

  /** The lines that arrive are those the bytes hold, however they are spread over turns. */
  lemma {:induction false} ArrivalsAreDelivered(buf: AsciiLine, passes: seq<Pass>)
    ensures LinesOf(Arrivals(buf, passes).0) == Deliver(buf, Waiting(passes)).0
    ensures Arrivals(buf, passes).1 == Deliver(buf, Waiting(passes)).1
  {
    hide LinesOf, LinesAt, ReadPort, Split, Deliver;
    if passes == [] {
      NothingDelivered(buf);
      assert Waiting([]) == [];
    } else {
      var n := |passes| - 1;
      var pass := passes[n];
      var (front, rest) := Arrivals(buf, passes[..n]);
      var lines := ReadPort(rest, pass.waiting).0;
      ArrivalsAreDelivered(buf, passes[..n]);
      assert Waiting(passes) == Waiting(passes[..n]) + [pass.waiting];
      DeliverMore(buf, Waiting(passes[..n]), pass.waiting);
      ReadIsSplit(rest, pass.waiting);
      LinesOfTurn(lines, pass.t);
      LinesOfJoin(front, LinesAt(lines, pass.t) + [PollAt(pass.t)]);
    }
  }

  lemma NothingDelivered(buf: seq<Byte>)
    ensures Deliver(buf, []) == ([], buf) && LinesOf([]) == []
  {
  }

  // ----- time

  function LastTime(arrivals: seq<Arrival>): Option<int> {
    if arrivals == [] then None
    else
      var last := arrivals[|arrivals| - 1];
      if last.LineAt? then Some(last.t) else LastTime(arrivals[..|arrivals| - 1])
  }

  /** Once a line has come, every tick is less than 5 s after the line before it. */
  predicate Steady(arrivals: seq<Arrival>) {
    arrivals == []
    || (var front, last := arrivals[..|arrivals| - 1], arrivals[|arrivals| - 1];
        Steady(front)
        && (last.PollAt? && LastTime(front).Some? ==>
              LastTime(front).value <= last.t < LastTime(front).value + 5000))
  }

  lemma {:induction false} SteadyIsPrompt(before: seq<Arrival>, line: AsciiLine, t0: int, rest: seq<Arrival>)
    requires Steady(before + [LineAt(line, t0)] + rest)
    ensures Prompt(t0, rest) && LastTime(before + [LineAt(line, t0)] + rest) == Some(LastLine(t0, rest))
    decreases |rest|
  {
    var all := before + [LineAt(line, t0)] + rest;
    if rest == [] {
      assert all[|all| - 1] == LineAt(line, t0);
    } else {
      assert all[..|all| - 1] == before + [LineAt(line, t0)] + rest[..|rest| - 1];
      SteadyIsPrompt(before, line, t0, rest[..|rest| - 1]);
    }
  }

  predicate OnlyPolls(arrivals: seq<Arrival>) {
    forall i :: 0 <= i < |arrivals| ==> arrivals[i].PollAt?
  }

  /** The first line among some arrivals, and what lies around it. */
  lemma {:induction false} FirstLine(arrivals: seq<Arrival>) returns (before: seq<Arrival>, t0: int, rest: seq<Arrival>)
    requires LinesOf(arrivals) != []
    ensures IsAscii(LinesOf(arrivals)[0])
    ensures arrivals == before + [LineAt(LinesOf(arrivals)[0], t0)] + rest && OnlyPolls(before)
    ensures LinesOf(arrivals) == [LinesOf(arrivals)[0]] + LinesOf(rest)
  {
    hide LinesOf;
    var k := FirstIndex(arrivals);
    before, t0, rest := arrivals[..k], arrivals[k].t, arrivals[k + 1..];
    var line := arrivals[k].line;
    assert arrivals == before + [LineAt(line, t0)] + rest;
    LinesOfJoin(before + [LineAt(line, t0)], rest);
    LinesOfJoin(before, [LineAt(line, t0)]);
    PollsHaveNone(before);
    OneLineOf(line, t0);
    assert [] + [line] == [line];
  }

  lemma OneLineOf(line: AsciiLine, t: int)
    ensures LinesOf([LineAt(line, t)]) == [line]
  {
    assert [LineAt(line, t)][..0] == [];
  }

  lemma {:induction false} PollsHaveNone(arrivals: seq<Arrival>)
    requires OnlyPolls(arrivals)
    ensures LinesOf(arrivals) == []
  {
    if arrivals != [] {
      PollsHaveNone(arrivals[..|arrivals| - 1]);
    }
  }

  lemma {:induction false} NoneIsPolls(arrivals: seq<Arrival>)
    requires LinesOf(arrivals) == []
    ensures OnlyPolls(arrivals)
  {
    if arrivals != [] {
      NoneIsPolls(arrivals[..|arrivals| - 1]);
    }
  }

  lemma {:induction false} FirstIndex(arrivals: seq<Arrival>) returns (k: nat)
    requires LinesOf(arrivals) != []
    ensures k < |arrivals| && arrivals[k].LineAt? && OnlyPolls(arrivals[..k])
  {
    var front := arrivals[..|arrivals| - 1];
    if LinesOf(front) == [] {
      NoneIsPolls(front);
      k := |arrivals| - 1;
    } else {
      k := FirstIndex(front);
      assert front[..k] == arrivals[..k];
    }
  }

  // ----- runs

  lemma {:induction false} PollsDoNothing(s: State, epoch: int, arrivals: seq<Arrival>)
    requires s.upload.Idle? && OnlyPolls(arrivals)
    ensures Run(s, ToEvents(epoch, arrivals)) == (s, [])
  {
    hide Next, Tick;
    var es := ToEvents(epoch, arrivals);
    if arrivals == [] {
      assert es == [];
    } else {
      var n := |arrivals| - 1;
      PollsDoNothing(s, epoch, arrivals[..n]);
      assert es[..n] == ToEvents(epoch, arrivals[..n]) && es[n] == ToEvent(epoch, arrivals[n]);
      IdleIgnores(s, es[n]);
      var none: seq<Reply> := [];
      assert none + none == none;
    }
  }

  lemma OneArrival(epoch: int, line: AsciiLine, t0: int)
    ensures ToEvents(epoch, [LineAt(line, t0)]) == [Receive(line, Tick(epoch, t0))]
  {
    hide Tick;
  }

  /** Ticks before the first line change nothing. */
  lemma RunFromFirst(s: State, epoch: int, before: seq<Arrival>, line: AsciiLine, t0: int, rest: seq<Arrival>)
    requires s.upload.Idle? && OnlyPolls(before)
    ensures Run(s, ToEvents(epoch, before + [LineAt(line, t0)] + rest))
         == Run(s, [Receive(line, Tick(epoch, t0))] + ToEvents(epoch, rest))
  {
    hide Next, Tick, ToEvents, Run;
    var first := [LineAt(line, t0)];
    ToEventsJoin(epoch, before + first, rest);
    ToEventsJoin(epoch, before, first);
    OneArrival(epoch, line, t0);
    var es, one, after := ToEvents(epoch, before), [Receive(line, Tick(epoch, t0))], ToEvents(epoch, rest);
    assert es + one + after == es + (one + after);
    RunSplit(s, es, one + after);
    PollsDoNothing(s, epoch, before);
    assert [] + Run(s, one + after).1 == Run(s, one + after).1;
  }

  /** The upload, from bytes: for any spread of them over turns of the loop. */
  lemma BytesUpload(s: State, c: Config, epoch: int, passes: seq<Pass>)
    requires Valid(c) && Format.Utf8Strings(c)
    requires s.upload.Idle? && s.board.region.Some? && ConfigSize(c) <= |s.board.region.value|
    requires Concat(Waiting(passes)) == LineReading.Written(Client.UploadLines(Format.Encode(c)))
    requires Steady(Arrivals([], passes).0)
    ensures
      var (after, replies) := Run(s, Traffic(epoch, [], passes).0);
      && Traffic(epoch, [], passes).1 == []
      && replies == [Done(Written(|Format.Encode(c)|))] && Stored(after, s, Format.Encode(c), c)
  {
    hide Valid, Format.Utf8Strings, Format.Encode, Ascii85.Encode, Ascii85.Lines, Deliver, Concat, ConfigSize, Run,
      Next, Arrivals, Traffic, LinesOf, Steady, Prompt, ToEvents, HeaderLine, Stored, Tick, LineReading.Written,
      Waiting, Sent;
    var data := Format.Encode(c);
    EncodedIsShort(c);
    ClientLinesArrive(data, Waiting(passes));
    ArrivalsAreDelivered([], passes);
    TrafficIsArrivals(epoch, [], passes);
    var arrivals := Arrivals([], passes).0;
    var before, t0, rest := FirstLine(arrivals);
    SteadyIsPrompt(before, HeaderLine(data), t0, rest);
    RunFromFirst(s, epoch, before, HeaderLine(data), t0, rest);
    assert LinesOf(arrivals)[1..] == LinesOf(rest);
    assert Client.UploadLines(data)[1..] == Ascii85.Lines(Ascii85.Encode(data), 80);
    ClientLinesSend(data, rest);
    UploadEndToEnd(s, c, epoch, t0, rest);
  }

  lemma EncodedIsShort(c: Config)
    requires Valid(c)
    ensures |Format.Encode(c)| == ConfigSize(c) < 0x1_0000
  {
    hide Format.Encode, ConfigSize;
    ValidRoundTrip(c, []);
  }

  const READ_LINES: seq<Line> := [READ]

  lemma ReadPlain()
    ensures LineReading.Written(READ_LINES) == READ + [NEWLINE] && PlainLine(READ)
  {
    assert READ_LINES[1..] == [];
    assert READ + ([NEWLINE] + []) == READ + [NEWLINE];
  }

  /** A lone `read`, from bytes. */
  lemma BytesRead(s: State, c: Config, epoch: int, passes: seq<Pass>)
    requires s.upload.Idle? && StorageInvariant.Canonical(s.board) && s.board.live == c
    requires Concat(Waiting(passes)) == LineReading.Written(READ_LINES)
    ensures
      var data := Format.Encode(c);
      Run(s, Traffic(epoch, [], passes).0)
      == (s, Bodies(Ascii85.Lines(Ascii85.Encode(data), 80)) + [Done(Length(|data|))])
  {
    hide Format.Encode, Ascii85.Encode, Ascii85.Lines, Deliver, Concat, Run, Next, Arrivals, Traffic, LinesOf, ToEvents,
      Tick, LineReading.Written, Waiting, StorageInvariant.Canonical, Bodies, PlainLine, Split;
    ReadPlain();
    ChunkIndependent([], Waiting(passes));
    assert [] + Concat(Waiting(passes)) == Concat(Waiting(passes));
    SplitWritten(READ_LINES);
    ArrivalsAreDelivered([], passes);
    TrafficIsArrivals(epoch, [], passes);
    var before, t0, rest := FirstLine(Arrivals([], passes).0);
    NoneIsPolls(rest);
    RunFromFirst(s, epoch, before, READ, t0, rest);
    ReadAfterUpload(s, c, Tick(epoch, t0));
    var one := [Receive(READ, Tick(epoch, t0))];
    RunSplit(s, one, ToEvents(epoch, rest));
    OneStep(s, one[0]);
    PollsDoNothing(s, epoch, rest);
    var replies := Run(s, one).1;
    assert replies + [] == replies;
  }

  // ----- the way back

  lemma {:induction false} AllPlain(lines: seq<Line>)
    requires forall i :: 0 <= i < |lines| && Client.HasPrefix(lines[i], EV_PREFIX) ==> PlainLine(lines[i])
    requires forall i :: 0 <= i < |Client.WithoutEvents(lines)| ==> PlainLine(Client.WithoutEvents(lines)[i])
    ensures forall i :: 0 <= i < |lines| ==> PlainLine(lines[i])
  {
    hide PlainLine, Client.HasPrefix;
    if lines != [] {
      var rest, all := Client.WithoutEvents(lines[1..]), Client.WithoutEvents(lines);
      var skip := if Client.HasPrefix(lines[0], EV_PREFIX) then 0 else 1;
      forall i | 0 <= i < |rest|
        ensures PlainLine(rest[i])
      {
        assert rest[i] == all[i + skip];
      }
      assert PlainLine(lines[0]) by {
        assert skip == 1 ==> lines[0] == all[0];
      }
      AllPlain(lines[1..]);
      assert forall i :: 1 <= i < |lines| ==> lines[i] == lines[1..][i - 1];
    }
  }

  /** Lines that go out plain, with plain event lines among them, come in as they went. */
  lemma ComesBack(lines: seq<Line>, chunks: seq<seq<Byte>>)
    requires forall i :: 0 <= i < |lines| && Client.HasPrefix(lines[i], EV_PREFIX) ==> PlainLine(lines[i])
    requires forall i :: 0 <= i < |Client.WithoutEvents(lines)| ==> PlainLine(Client.WithoutEvents(lines)[i])
    requires Concat(chunks) == LineReading.Written(lines)
    ensures Split(Concat(chunks)) == (lines, [])
  {
    hide Split, PlainLine, LineReading.Written;
    AllPlain(lines);
    SplitWritten(lines);
  }

  lemma ReplyIsPlain(data: seq<Byte>, i: nat)
    requires i < |Client.ReplyLines(data)|
    ensures PlainLine(Client.ReplyLines(data)[i])
  {
    hide Ascii85.Lines, Ascii85.Encode, PlainLine, Render;
    var payload := Ascii85.Lines(Ascii85.Encode(data), 80);
    if i < |payload| {
      Ascii85Proofs.PayloadIsNotTerminator(data, i);
      DigitsPrintable(payload[i]);
      SolidIsPlain(payload[i]);
    } else {
      CountPlain(|data|);
    }
  }

  lemma CountPlain(n: nat)
    ensures PlainLine(Render(Done(Length(n)))) && PlainLine(Render(Done(Written(n))))
  {
    hide PlainLine, Render;
    LengthPlain(n);
    WrittenPlain(n);
  }

  lemma PrefixesPrintable()
    ensures (forall c <- OK_SPACE :: Printable(c)) && forall c <- Client.OK_WRITTEN :: Printable(c)
  {
  }

  lemma LengthRendered(n: nat)
    ensures Render(Done(Length(n))) == OK_SPACE + Dec(n)
  {
    hide Dec;
    assert OK_LINE + ([32] + Dec(n)) == OK_SPACE + Dec(n);
  }

  lemma WrittenRendered(n: nat)
    ensures Render(Done(Written(n))) == Client.OK_WRITTEN + Dec(n)
  {
    hide Dec;
    assert OK_LINE + ([32] + (Ascii("written ") + Dec(n))) == Client.OK_WRITTEN + Dec(n);
  }

  lemma LengthPlain(n: nat)
    ensures PlainLine(Render(Done(Length(n))))
  {
    hide Dec, PlainLine, Render, Printable;
    DecDigits(n);
    PrefixesPrintable();
    LengthRendered(n);
    PrefixedPlain(OK_SPACE, Dec(n));
  }

  lemma WrittenPlain(n: nat)
    ensures PlainLine(Render(Done(Written(n))))
  {
    hide Dec, PlainLine, Render, Printable;
    DecDigits(n);
    PrefixesPrintable();
    WrittenRendered(n);
    PrefixedPlain(Client.OK_WRITTEN, Dec(n));
  }

  lemma PrefixedPlain(prefix: Line, digits: Line)
    requires (forall c <- prefix :: Printable(c)) && forall c <- digits :: 48 <= c <= 57
    ensures PlainLine(prefix + digits)
  {
    hide PlainLine;
    SolidIsPlain(prefix + digits);
  }

  // ----- both ways

  /** What the board writes for some replies, with its events in between, in any cut. */
  ghost predicate Answers(chunks: seq<seq<Byte>>, lines: seq<Line>, replies: seq<Reply>) {
    && Concat(chunks) == LineReading.Written(lines)
    && Client.WithoutEvents(lines) == RenderAll(replies)
    && forall i :: 0 <= i < |lines| && Client.HasPrefix(lines[i], EV_PREFIX) ==> PlainLine(lines[i])
  }

  lemma UploadAnswered(chunks: seq<seq<Byte>>, lines: seq<Line>, n: nat)
    requires Answers(chunks, lines, [Done(Written(n))])
    ensures Client.Uploaded(Client.Respond([], Split(Concat(chunks)).0)) == Ok(n)
  {
    hide Split, Client.WithoutEvents, Client.Respond, Client.Uploaded, PlainLine, Render, LineReading.Written, Concat;
    CountPlain(n);
    assert RenderAll([Done(Written(n))]) == [Render(Done(Written(n)))];
    ComesBack(lines, chunks);
    Client.UploadReportsCount(Concat(chunks), n);
  }

  lemma DownloadAnswered(chunks: seq<seq<Byte>>, lines: seq<Line>, data: seq<Byte>)
    requires Answers(chunks, lines, Bodies(Ascii85.Lines(Ascii85.Encode(data), 80)) + [Done(Length(|data|))])
    ensures Client.Download(Client.Respond([], Split(Concat(chunks)).0)) == Ok(data)
  {
    hide Split, Client.WithoutEvents, Client.Respond, Client.Download, PlainLine, RenderAll, Bodies, Ascii85.Lines,
      Ascii85.Encode, LineReading.Written, Concat, Client.ReplyLines;
    RenderRead(data);
    forall i | 0 <= i < |Client.WithoutEvents(lines)|
      ensures PlainLine(Client.WithoutEvents(lines)[i])
    {
      ReplyIsPlain(data, i);
    }
    ComesBack(lines, chunks);
    Client.DownloadsWhatWasStored(Concat(chunks), data);
  }

  /**
   The two programs, byte for byte. The CLI writes an upload of a configuration it validates, then
   `read`; the bytes reach the main loop spread over its turns in any way, the key doing whatever
   it does, and the ticks keep within 5 s of the lines; the answers and events come back cut in any
   way. As long as the loop goes on: the CLI reports the size of what it encoded, the board stores
   just that and runs the configuration, and the CLI downloads the same bytes and decodes the
   configuration from them.
   */
  lemma UploadThenDownload(epoch: int, m: Machine, c: Config, up: seq<Pass>, down: seq<Pass>,
                           first: seq<seq<Byte>>, firstLines: seq<Line>,
                           second: seq<seq<Byte>>, secondLines: seq<Line>)
    requires Sound(m) && m.Running? && m.buf == [] && m.s.upload.Idle?
    requires Valid(c) && Format.Utf8Strings(c)
    requires m.s.board.region.Some? && ConfigSize(c) <= |m.s.board.region.value|
    requires Concat(Waiting(up)) == LineReading.Written(Client.UploadLines(Format.Encode(c)))
    requires Steady(Arrivals([], up).0)
    requires Concat(Waiting(down)) == LineReading.Written(READ_LINES)
    requires
      var (mid, turns) := MachineRun(epoch, m, up);
      mid.Running? && Answers(first, firstLines, AllReplies(turns))
    requires
      var (end, turns) := MachineRun(epoch, MachineRun(epoch, m, up).0, down);
      end.Running? && Answers(second, secondLines, AllReplies(turns))
    ensures Client.Uploaded(Client.Respond([], Split(Concat(first)).0)) == Ok(ConfigSize(c))
    ensures Stored(MachineRun(epoch, m, up).0.s, m.s, Format.Encode(c), c)
    ensures Client.Download(Client.Respond([], Split(Concat(second)).0)) == Ok(Format.Encode(c))
    ensures Format.Decode(Format.Cli, Format.Encode(c)) == Ok(c)
  {
    hide Valid, Format.Utf8Strings, Format.Encode, Format.Decode, ConfigSize, MachineRun, Traffic, Run, Answers, Concat,
      Arrivals, Steady, Client.Uploaded, Client.Respond, Client.Download, Split, Bodies, Ascii85.Lines, Ascii85.Encode,
      LineReading.Written, Waiting, StorageInvariant.Canonical, Sound;
    var data := Format.Encode(c);
    var mid := MachineRun(epoch, m, up).0;
    EncodedIsShort(c);
    BytesUpload(m.s, c, epoch, up);
    SerialIsRun(epoch, m, up);
    UploadAnswered(first, firstLines, |data|);
    BytesRead(mid.s, c, epoch, down);
    SerialIsRun(epoch, mid, down);
    DownloadAnswered(second, secondLines, data);
    ValidDecodes(c);
  }
}
