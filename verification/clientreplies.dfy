/** What the CLI makes of every answer the board can give, and of none. */
module ClientReplies {
  import opened Bytes
  import opened Client
  import opened Devices
  import opened Framing
  import opened LineReading
  import opened Protocols
  import opened Runs
  import opened Text
  import opened Ticks
  import Ascii85
  import Crc

  /** "OK", alone or with a detail after it. */
  predicate IsOk(line: Line) {
    line == [79, 75] || [79, 75, 32] <= line
  }

  /** "ERR " and whatever it says. */
  predicate IsErr(line: Line) {
    [69, 82, 82, 32] <= line
  }

  /** "EV " and whatever it reports. */
  predicate IsEvent(line: Line) {
    [69, 86, 32] <= line
  }

  lemma Kinds(line: Line)
    ensures IsOk(line) ==> !IsErr(line) && !IsEvent(line)
    ensures IsErr(line) ==> !IsEvent(line)
    ensures Payload(line) <==> !IsOk(line) && !IsErr(line) && !IsEvent(line)
  {
    assert IsErr(line) ==> line[1] == 82;
    assert IsEvent(line) ==> line[1] == 86 && line[0] == 69;
    assert IsOk(line) ==> line[0] == 79;
  }

  /** One line read, by its kind. */
  lemma RespondLine(body: seq<Line>, line: Line, rest: seq<Line>)
    ensures
      Respond(body, [line] + rest)
      == if IsEvent(line) then Respond(body, rest)
         else if IsOk(line) then Answered(body, line)
         else if IsErr(line) then DeviceRefused
         else Respond(body + [line], rest)
  {
    assert ([line] + rest)[1..] == rest;
  }

  lemma WithoutEventsLine(line: Line, rest: seq<Line>)
    ensures WithoutEvents([line] + rest) == if IsEvent(line) then WithoutEvents(rest) else [line] + WithoutEvents(rest)
  {
    assert ([line] + rest)[1..] == rest;
  }

  /**
   The reply ends at its first OK or ERR line, wherever events cut in and whatever follows: an OK
   line answers with the body before it, an ERR line refuses.
   */
  lemma {:induction false} Decided(body: seq<Line>, lines: seq<Line>, payload: seq<Line>, last: Line, more: seq<Line>)
    requires WithoutEvents(lines) == payload + [last] + more
    requires forall i :: 0 <= i < |payload| ==> Payload(payload[i])
    requires IsOk(last) || IsErr(last)
    ensures Respond(body, lines) == if IsOk(last) then Answered(body + payload, last) else DeviceRefused
    decreases |lines|
  {
    hide IsOk, IsErr, IsEvent, Payload, Respond, WithoutEvents;
    NoLinesLeft();
    var line, rest := lines[0], lines[1..];
    assert lines == [line] + rest;
    RespondLine(body, line, rest);
    WithoutEventsLine(line, rest);
    Kinds(line);
    if IsEvent(line) {
      Decided(body, rest, payload, last, more);
    } else if payload == [] {
      assert ([line] + WithoutEvents(rest))[0] == last;
      assert body + payload == body;
    } else {
      assert ([line] + WithoutEvents(rest))[0] == payload[0];
      assert WithoutEvents(rest) == ([line] + WithoutEvents(rest))[1..] == payload[1..] + [last] + more;
      Decided(body + [line], rest, payload[1..], last, more);
      assert body + [payload[0]] + payload[1..] == body + payload;
    }
  }

  lemma NoLinesLeft()
    ensures WithoutEvents([]) == [] && forall body :: Respond(body, []) == NoAnswer
  {
  }

  /** Without such a line there is no answer, however much body came. */
  lemma {:induction false} Undecided(body: seq<Line>, lines: seq<Line>)
    requires forall i :: 0 <= i < |WithoutEvents(lines)| ==> Payload(WithoutEvents(lines)[i])
    ensures Respond(body, lines) == NoAnswer
    decreases |lines|
  {
    hide IsOk, IsErr, IsEvent, Payload, Respond, WithoutEvents;
    NoLinesLeft();
    if lines != [] {
      var line, rest := lines[0], lines[1..];
      assert lines == [line] + rest;
      RespondLine(body, line, rest);
      WithoutEventsLine(line, rest);
      Kinds(line);
      var left := WithoutEvents(lines);
      if IsEvent(line) {
        Undecided(body, rest);
      } else {
        assert left[0] == line && WithoutEvents(rest) == left[1..];
        forall i | 0 <= i < |WithoutEvents(rest)|
          ensures Payload(WithoutEvents(rest)[i])
        {
          assert WithoutEvents(rest)[i] == left[i + 1];
        }
        Undecided(body + [line], rest);
      }
    }
  }

  /** A stream whose lines, events apart, are a body, one terminating line, and anything more. */
  ghost predicate Holds(stream: seq<Byte>, payload: seq<Line>, last: Line, more: seq<Line>) {
    && WithoutEvents(Split(stream).0) == payload + [last] + more
    && forall i :: 0 <= i < |payload| ==> Payload(payload[i])
  }

  /** After an ERR line both an upload and a download report an error, in any cut, with any events. */
  lemma RefusalIsError(stream: seq<Byte>, payload: seq<Line>, last: Line, more: seq<Line>)
    requires Holds(stream, payload, last, more) && IsErr(last)
    ensures Uploaded(Respond([], Split(stream).0)) == Err && Download(Respond([], Split(stream).0)) == Err
  {
    hide Split, WithoutEvents, Respond, Payload, IsErr, IsOk, ScanWritten, JoinLines, Ascii85.Decode, ParseDecimal,
      Strip;
    Kinds(last);
    Decided([], Split(stream).0, payload, last, more);
  }

  /** An upload counts as done exactly when the terminating line is an OK. */
  lemma UploadedIff(stream: seq<Byte>, payload: seq<Line>, last: Line, more: seq<Line>)
    requires Holds(stream, payload, last, more) && (IsOk(last) || IsErr(last))
    ensures Uploaded(Respond([], Split(stream).0)).Ok? <==> IsOk(last)
  {
    hide Split, WithoutEvents, Respond, Payload, IsErr, IsOk, ScanWritten;
    Decided([], Split(stream).0, payload, last, more);
  }

  /** When the transport runs dry before such a line, both report an error. */
  lemma SilenceIsError(stream: seq<Byte>)
    requires forall line <- WithoutEvents(Split(stream).0) :: Payload(line)
    ensures Uploaded(Respond([], Split(stream).0)) == Err && Download(Respond([], Split(stream).0)) == Err
  {
    hide Split, WithoutEvents, Respond, Payload, ScanWritten, JoinLines, Ascii85.Decode, ParseDecimal, Strip;
    var lines := WithoutEvents(Split(stream).0);
    assert forall i :: 0 <= i < |lines| ==> lines[i] in lines;
    Undecided([], Split(stream).0);
  }

  /** A download whose announced count is not the number of bytes that came is an error. */
  lemma CountIsChecked(stream: seq<Byte>, data: seq<Byte>, n: nat, more: seq<Line>)
    requires WithoutEvents(Split(stream).0)
          == Ascii85.Lines(Ascii85.Encode(data), 80) + [Render(Done(Length(n)))] + more
    ensures Download(Respond([], Split(stream).0)) == if n == |data| then Ok(data) else Err
  {
    hide Split, WithoutEvents, Respond, Ascii85.Lines, Ascii85.Encode, JoinLines, Ascii85.Decode, ParseDecimal, Strip,
      Payload, Render, IsOk, IsErr;
    var payload := Ascii85.Lines(Ascii85.Encode(data), 80);
    var last := Render(Done(Length(n)));
    forall i | 0 <= i < |payload|
      ensures Payload(payload[i])
    {
      EncodedLineIsPayload(data, i);
    }
    CountReads(n);
    DoneIsOk(Length(n));
    Decided([], Split(stream).0, payload, last, more);
    assert [] + payload == payload;
    EncodedLinesDecode(data);
  }

  /** An OK that announces no count is taken on trust. */
  lemma BareOkIsTrusted(stream: seq<Byte>, data: seq<Byte>, more: seq<Line>)
    requires WithoutEvents(Split(stream).0) == Ascii85.Lines(Ascii85.Encode(data), 80) + [[79, 75]] + more
    ensures Download(Respond([], Split(stream).0)) == Ok(data)
  {
    hide Split, WithoutEvents, Respond, Ascii85.Lines, Ascii85.Encode, JoinLines, Ascii85.Decode, Payload, Render,
      IsErr;
    var payload := Ascii85.Lines(Ascii85.Encode(data), 80);
    var last: Line := [79, 75];
    forall i | 0 <= i < |payload|
      ensures Payload(payload[i])
    {
      EncodedLineIsPayload(data, i);
    }
    Decided([], Split(stream).0, payload, last, more);
    assert [] + payload == payload;
    EncodedLinesDecode(data);
    NoCount();
  }

  lemma NoCount()
    ensures HasPrefix([79, 75], OK_LINE) && ParseDecimal(Strip([79, 75][2..])) == None
  {
    assert [79, 75][2..] == [];
  }

  /** A text that does not decode is an error whatever the count. */
  lemma GarbageIsError(stream: seq<Byte>, payload: seq<Line>, last: Line, more: seq<Line>)
    requires Holds(stream, payload, last, more) && IsOk(last) && Ascii85.Decode(JoinLines(payload)).Err?
    ensures Download(Respond([], Split(stream).0)) == Err
  {
    hide Split, WithoutEvents, Respond, JoinLines, Ascii85.Decode, ParseDecimal, Strip, Payload, IsOk, IsErr;
    Decided([], Split(stream).0, payload, last, more);
    assert [] + payload == payload;
  }

  // ----- over every answer of the board

  lemma DoneIsOk(d: Detail)
    ensures IsOk(Render(Done(d)))
  {
    hide RenderDetail;
    assert Render(Done(d)) == if d.Plain? then [79, 75] else [79, 75] + ([32] + RenderDetail(d));
    assert [79, 75] + ([32] + RenderDetail(d)) == [79, 75, 32] + RenderDetail(d);
  }

  /** The line a reply goes out as; an error may say anything after its prefix. */
  predicate Carries(line: Line, r: Reply) {
    match r
    case Refused => IsErr(line)
    case Done(d) => line == Render(r)
    case Body(text) => line == text
  }

  /** What the board sends is such a line. */
  lemma RenderedCarries(r: Reply)
    ensures Carries(Render(r), r)
  {
    hide RenderDetail;
  }

  lemma TerminatorCarried(line: Line, r: Reply)
    requires Carries(line, r) && !r.Body?
    ensures if r.Done? then IsOk(line) else IsErr(line)
  {
    hide IsOk, IsErr, Render;
    if r.Done? {
      DoneIsOk(r.detail);
    }
  }

  lemma HelpIsPayload(i: nat)
    requires i < |HELP_REPLY| - 1
    ensures HELP_REPLY[i].Body? && Payload(HELP_REPLY[i].text)
  {
    var line := HELP_REPLY[i].text;
    assert line[0] == 104 || line[0] == 118 || line[0] == 114 || line[0] == 119 || line[0] == 112 || line[0] == 116
      || line[0] == 101 || line[0] == 100;
  }

  lemma ReadIsPayload(data: seq<Byte>, i: nat)
    requires i < |Ascii85.Lines(Ascii85.Encode(data), 80)|
    ensures
      var r := Bodies(Ascii85.Lines(Ascii85.Encode(data), 80))[i];
      r.Body? && Payload(r.text)
  {
    hide Ascii85.Lines, Ascii85.Encode, Payload;
    EncodedLineIsPayload(data, i);
  }

  ghost predicate PayloadBodies(replies: seq<Reply>) {
    forall i :: 0 <= i < |replies| - 1 ==> replies[i].Body? && Payload(replies[i].text)
  }

  lemma ReadBodies(s: State)
    ensures PayloadBodies(Read(s).1)
  {
    hide Ascii85.Lines, Ascii85.Encode, Payload, ReadBack;
    if Read(s).1 != [Refused] {
      var data := ReadBack(s.board).value;
      forall i | 0 <= i < |Read(s).1| - 1
        ensures Read(s).1[i].Body? && Payload(Read(s).1[i].text)
      {
        ReadIsPayload(data, i);
      }
    }
  }

  lemma HelpBodies()
    ensures PayloadBodies(HELP_REPLY)
  {
    hide Payload;
    forall i | 0 <= i < |HELP_REPLY| - 1
      ensures HELP_REPLY[i].Body? && Payload(HELP_REPLY[i].text)
    {
      HelpIsPayload(i);
    }
  }

  lemma StepBodies(s: State, e: Event)
    ensures PayloadBodies(Next(s, e).1)
  {
    hide Payload, Words, Sanitize, ParseInt, ReadBack, BindingAt, SetActive, RestoreDefaults, Read, UploadLine, Lower;
    ReadBodies(s);
    HelpBodies();
    if e.Receive? && s.upload.Receiving? {
      UploadBodies(s, e.line, e.now);
    }
  }

  lemma UploadBodies(s: State, line: Line, now: int)
    requires s.upload.Receiving?
    ensures PayloadBodies(UploadLine(s, line, now).1)
  {
    hide Strip, Ascii85.Join, Ascii85.Decode, Commit, Crc.Crc16, Payload;
  }

  /**
   Whatever state the board is in and whatever line or tick it answers: when that answer comes back,
   events cutting in anywhere, the client takes it for answered exactly when it ends in OK, with
   just the body lines the board sent, and for refused exactly when it ends in ERR.
   */
  lemma StepIsUnderstood(s: State, e: Event, stream: seq<Byte>, lines: seq<Line>, more: seq<Line>)
    requires Next(s, e).1 != [] && |lines| == |Next(s, e).1|
    requires forall i :: 0 <= i < |lines| ==> Carries(lines[i], Next(s, e).1[i])
    requires WithoutEvents(Split(stream).0) == lines + more
    ensures
      var n := |lines| - 1;
      Respond([], Split(stream).0)
      == if Next(s, e).1[n].Done? then Answered(lines[..n], lines[n]) else DeviceRefused
  {
    hide Split, WithoutEvents, Respond, Payload, IsErr, IsOk, Next, Terminators, Owed;
    var replies := Next(s, e).1;
    var n := |lines| - 1;
    StepReplies(s, e);
    StepBodies(s, e);
    TerminatorCarried(lines[n], replies[n]);
    Kinds(lines[n]);
    assert lines[..n] + [lines[n]] == lines;
    forall i | 0 <= i < n
      ensures Payload(lines[i])
    {
      assert Carries(lines[i], replies[i]);
    }
    Decided([], Split(stream).0, lines[..n], lines[n], more);
    assert [] + lines[..n] == lines[..n];
  }

  /**
   An upload the board refuses, for whatever reason, comes back as an error: nothing but the board's
   OK makes it count.
   */
  lemma RefusedUploadIsError(s: State, e: Event, stream: seq<Byte>, line: Line, more: seq<Line>)
    requires Next(s, e).1 == [Refused] && IsErr(line)
    requires WithoutEvents(Split(stream).0) == [line] + more
    ensures Uploaded(Respond([], Split(stream).0)) == Err && Download(Respond([], Split(stream).0)) == Err
  {
    hide Split, WithoutEvents, Respond, IsErr, Next, Download;
    StepIsUnderstood(s, e, stream, [line], more);
    DownloadOfNone(DeviceRefused);
  }

  lemma DownloadOfNone(a: Answer)
    requires !a.Answered?
    ensures Download(a) == Err
  {
  }

  /** So a transfer whose bytes suffered a burst is reported as an error. */
  lemma BurstIsReported(s: State, line: AsciiLine, now: int, sent: seq<Byte>,
                        stream: seq<Byte>, answer: Line, more: seq<Line>)
    requires s.upload.Receiving? && UploadSound(s)
    requires s.upload.expectBytes == |sent| && s.upload.expectCrc == Crc.Crc16(sent)
    requires
      var text := Buffered(s, line);
      |text| == s.upload.expectChars && Ascii85.Decode(text).Ok? && Crc.Burst(sent, Ascii85.Decode(text).value)
    requires IsErr(answer) && WithoutEvents(Split(stream).0) == [answer] + more
    ensures Uploaded(Respond([], Split(stream).0)) == Err
  {
    hide Split, WithoutEvents, Respond, IsErr, Next, Download, Crc.Burst, Crc.Crc16, Ascii85.Decode, Buffered,
      UploadSound;
    BurstRefused(s, line, now, sent);
    RefusedUploadIsError(s, Receive(line, now), stream, answer, more);
  }

  /** And so is one that fell silent for 5 s of true time, at any boot epoch. */
  lemma SilenceIsReported(s: State, epoch: int, t: int, d: nat, stream: seq<Byte>, answer: Line, more: seq<Line>)
    requires s.upload.Receiving? && s.upload.lastRx == Tick(epoch, t) && 5000 <= d < 0x1000_0000
    requires IsErr(answer) && WithoutEvents(Split(stream).0) == [answer] + more
    ensures Uploaded(Respond([], Split(stream).0)) == Err
  {
    hide Split, WithoutEvents, Respond, IsErr, Download, Tick;
    TimesOut(s, epoch, t, d);
    RefusedUploadIsError(s, Poll(Tick(epoch, t + d)), stream, answer, more);
  }
}
