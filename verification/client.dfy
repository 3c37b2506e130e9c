/** The CLI's half of the serial framing: reading a reply, downloading and uploading a blob. */
module Client {
  import opened Bytes
  import opened Framing
  import opened LineReading
  import opened Text
  import Ascii85
  import Ascii85Proofs
  import P = Protocols
  import Transfer
  import Wire

  predicate HasPrefix(s: Line, prefix: Line) {
    prefix <= s
  }

  datatype Answer = Answered(body: seq<Line>, last: Line) | DeviceRefused | NoAnswer

  /** What the lines amount to: events skipped, body kept, up to the one terminating line. */
  function Respond(body: seq<Line>, lines: seq<Line>): Answer
    decreases |lines|
  {
    if lines == [] then NoAnswer
    else
      var line, rest := lines[0], lines[1..];
      if HasPrefix(line, EV_PREFIX) then Respond(body, rest)
      else if line == OK_LINE || HasPrefix(line, OK_SPACE) then Answered(body, line)
      else if HasPrefix(line, ERR_PREFIX) then DeviceRefused
      else Respond(body + [line], rest)
  }

  /** `strings.Join(lines, "\\n")`. */
  function JoinLines(lines: seq<Line>): seq<Byte> {
    if lines == [] then []
    else if |lines| == 1 then lines[0]
    else JoinLines(lines[..|lines| - 1]) + [NEWLINE] + lines[|lines| - 1]
  }

  /** The bytes a reply to `read` carries, unless its count disagrees. */
  function Download(a: Answer): Result<seq<Byte>> {
    if !a.Answered? then Err
    else
      var data :- Ascii85.Decode(JoinLines(a.body));
      match ParseDecimal(Strip(if HasPrefix(a.last, OK_LINE) then a.last[2..] else a.last))
      case Some(want) => if |data| == want then Ok(data) else Err
      case None => Ok(data)
  }

  const OK_WRITTEN: Line := OK_LINE + ([32] + Ascii("written "))

  /** The digits a line starts with. */
  function LeadingDigits(s: Line): (n: nat)
    ensures n <= |s| && forall k :: 0 <= k < n ==> 48 <= s[k] <= 57
  {
    if s == [] || !(48 <= s[0] <= 57) then 0 else 1 + LeadingDigits(s[1..])
  }

  /** `fmt.Sscanf(line, "OK written %d", &n)`, with `n` left at 0 when nothing matches. */
  function ScanWritten(line: Line): nat {
    if !HasPrefix(line, OK_WRITTEN) then 0
    else
      var rest := line[|OK_WRITTEN|..];
      match DigitsValue(10, rest[..LeadingDigits(rest)])
      case Some(n) => n
      case None => 0
  }

  /** What an upload reports from the reply. */
  function Uploaded(a: Answer): Result<nat> {
    if a.Answered? then Ok(ScanWritten(a.last)) else Err
  }

  /** The lines of an upload. */
  function UploadLines(data: seq<Byte>): seq<Line> {
    [Transfer.HeaderLine(data)] + Ascii85.Lines(Ascii85.Encode(data), 80)
  }

  /** A connection: the unread buffer, and what the transport will still deliver and has taken. */
  class Conn {
    var buf: seq<Byte>
    var incoming: seq<seq<Byte>>
    var outgoing: seq<Byte>

    function Stream(): seq<Byte>
      reads this
    {
      buf + Concat(incoming)
    }

    /** No line means the transport ran dry first; what was read is kept. */
    method ReadLine() returns (r: Option<Line>)
      modifies this`buf, this`incoming
      ensures match r
              case Some(line) => Split(old(Stream())) == ([line] + Split(Stream()).0, Split(Stream()).1)
              case None => Split(old(Stream())) == ([], buf) && incoming == []
      ensures r.Some? ==> |Stream()| < |old(Stream())|
    {
      hide TrimCR;
      while true
        invariant Stream() == old(Stream())
        decreases |incoming|
      {
        var i := NewlineAt(buf);
        if i < |buf| {
          var line := TrimCR(buf[..i]);
          NewlineUnique(Stream(), i);
          assert Stream()[..i] == buf[..i] && Stream()[i + 1..] == buf[i + 1..] + Concat(incoming);
          buf := buf[i + 1..];
          return Some(line);
        }
        if incoming == [] {
          assert Stream() == buf;
          return None;
        }
        assert buf + Concat(incoming) == buf + incoming[0] + Concat(incoming[1..]);
        buf := buf + incoming[0];
        incoming := incoming[1..];
      }
    }

    method ReadResponse() returns (a: Answer)
      modifies this`buf, this`incoming
      ensures a == Respond([], Split(old(Stream())).0)
    {
      hide Split, Concat;
      var body: seq<Line> := [];
      while true
        invariant Respond(body, Split(Stream()).0) == Respond([], Split(old(Stream())).0)
        decreases |Stream()|
      {
        ghost var lines := Split(Stream()).0;
        var next := ReadLine();
        if next.None? {
          return NoAnswer;
        }
        var line := next.value;
        assert lines[1..] == Split(Stream()).0;
        if HasPrefix(line, EV_PREFIX) {
          continue;
        }
        if line == OK_LINE || HasPrefix(line, OK_SPACE) {
          return Answered(body, line);
        }
        if HasPrefix(line, ERR_PREFIX) {
          return DeviceRefused;
        }
        body := body + [line];
      }
    }

    /** The reply to a `read` command that has just been sent. */
    method ReadBlob() returns (r: Result<seq<Byte>>)
      modifies this`buf, this`incoming
      ensures r == Download(Respond([], Split(old(Stream())).0))
    {
      hide Respond, JoinLines, Split, Ascii85.Decode, ParseDecimal, Strip;
      var a := ReadResponse();
      if !a.Answered? {
        return Err;
      }
      var data :- Ascii85.DecodeText(JoinLines(a.body));
      var count := ParseDecimal(Strip(if HasPrefix(a.last, OK_LINE) then a.last[2..] else a.last));
      if count.Some? && |data| != count.value {
        return Err;
      }
      return Ok(data);
    }

    /** Everything an upload sends, before the reply is awaited. */
    method SendBlob(data: seq<Byte>)
      modifies this`outgoing
      ensures outgoing == old(outgoing) + Written(UploadLines(data))
    {
      hide Transfer.HeaderLine, Ascii85.Encode, Ascii85.Lines, Written;
      ghost var before := outgoing;
      var header := Transfer.HeaderLine(data);
      WriteLine(header);
      var lines := Wire.EncodeLines(data);
      ghost var start := outgoing;
      assert lines[0..] == lines;
      for i := 0 to |lines|
        invariant outgoing + Written(lines[i..]) == start + Written(lines)
      {
        WrittenNext(lines, i);
        WriteLine(lines[i]);
      }
      assert lines[|lines|..] == [];
      WrittenNothing();
      ghost var all := [header] + lines;
      WrittenNext(all, 0);
      assert all[0..] == all && all[1..] == lines;
      assert before + header + [NEWLINE] + Written(lines) == before + (header + ([NEWLINE] + Written(lines)));
    }

    method WriteBlob(data: seq<Byte>) returns (r: Result<nat>)
      modifies this
      ensures outgoing == old(outgoing) + Written(UploadLines(data))
      ensures r == Uploaded(Respond([], Split(old(Stream())).0))
    {
      hide Transfer.HeaderLine, Ascii85.Encode, Ascii85.Lines, Written, Split, Respond, ScanWritten;
      SendBlob(data);
      var a := ReadResponse();
      return if a.Answered? then Ok(ScanWritten(a.last)) else Err;
    }

    method WriteLine(line: Line)
      modifies this`outgoing
      ensures outgoing == old(outgoing) + line + [NEWLINE]
    {
      outgoing := outgoing + line + [NEWLINE];
    }
  }

  // ----- downloading

  function WithoutEvents(lines: seq<Line>): seq<Line> {
    if lines == [] then []
    else if HasPrefix(lines[0], EV_PREFIX) then WithoutEvents(lines[1..])
    else [lines[0]] + WithoutEvents(lines[1..])
  }

  /** A line that can only be body. */
  predicate Payload(line: Line) {
    && !HasPrefix(line, EV_PREFIX) && line != OK_LINE && !HasPrefix(line, OK_SPACE)
    && !HasPrefix(line, ERR_PREFIX)
  }

  lemma EncodedLineIsPayload(data: seq<Byte>, i: nat)
    requires i < |Ascii85.Lines(Ascii85.Encode(data), 80)|
    ensures Payload(Ascii85.Lines(Ascii85.Encode(data), 80)[i])
  {
    hide Ascii85.Lines, Ascii85.Encode;
    Ascii85Proofs.PayloadIsNotTerminator(data, i);
    var line := Ascii85.Lines(Ascii85.Encode(data), 80)[i];
    forall k | 0 <= k < |line|
      ensures line[k] != 32
    {
      assert line[k] in line;
    }
    SpaceFreeIsPayload(line);
  }

  lemma SpaceFreeIsPayload(line: Line)
    requires line != OK_LINE && forall k :: 0 <= k < |line| ==> line[k] != 32
    ensures Payload(line)
  {
    assert EV_PREFIX[2] == 32 && OK_SPACE[2] == 32 && ERR_PREFIX[3] == 32;
  }

  /** Wherever events cut in, and whatever follows, the reply is taken apart as it was sent. */
  lemma {:induction false} RespondToReply(body: seq<Line>, lines: seq<Line>, payload: seq<Line>, last: Line)
    requires WithoutEvents(lines) == payload + [last]
    requires forall i :: 0 <= i < |payload| ==> Payload(payload[i])
    requires HasPrefix(last, OK_SPACE) && !HasPrefix(last, EV_PREFIX)
    ensures Respond(body, lines) == Answered(body + payload, last)
    decreases |lines|
  {
    hide HasPrefix;
    if HasPrefix(lines[0], EV_PREFIX) {
      RespondToReply(body, lines[1..], payload, last);
    } else if payload == [] {
      assert lines[0] == WithoutEvents(lines)[0] == last;
      assert body + payload == body;
    } else {
      assert lines[0] == WithoutEvents(lines)[0] == payload[0];
      assert WithoutEvents(lines[1..]) == WithoutEvents(lines)[1..] == payload[1..] + [last];
      RespondToReply(body + [lines[0]], lines[1..], payload[1..], last);
      assert body + [payload[0]] + payload[1..] == body + payload;
    }
  }

  lemma {:induction false} AllLeading(s: Line)
    requires forall c <- s :: 48 <= c <= 57
    ensures LeadingDigits(s) == |s|
  {
    if s != [] {
      assert s[0] in s && forall c <- s[1..] :: c in s;
      AllLeading(s[1..]);
    }
  }

  lemma WrittenReads(n: nat)
    ensures
      var last := P.Render(P.Done(P.Written(n)));
      && HasPrefix(last, OK_SPACE) && !HasPrefix(last, EV_PREFIX) && ScanWritten(last) == n
  {
    hide Dec, DigitsValue;
    var last := P.Render(P.Done(P.Written(n)));
    assert last == OK_WRITTEN + Dec(n);
    assert last[|OK_WRITTEN|..] == Dec(n);
    DecDigits(n);
    AllLeading(Dec(n));
    assert Dec(n)[..|Dec(n)|] == Dec(n);
    assert last[0] == 79 && EV_PREFIX[0] == 69;
  }

  /** An accepted upload reports the count the board stored, wherever events cut in. */
  lemma UploadReportsCount(stream: seq<Byte>, n: nat)
    requires WithoutEvents(Split(stream).0) == [P.Render(P.Done(P.Written(n)))]
    ensures Uploaded(Respond([], Split(stream).0)) == Ok(n)
  {
    hide Split, WithoutEvents, Respond, ScanWritten, HasPrefix, P.Render;
    var last := P.Render(P.Done(P.Written(n)));
    WrittenReads(n);
    assert [] + [last] == [last];
    RespondToReply([], Split(stream).0, [], last);
  }

  lemma {:induction false} VisibleJoinLines(lines: seq<Line>)
    requires forall i :: 0 <= i < |lines| ==> forall c <- lines[i] :: Ascii85.Digit(c)
    ensures Ascii85.Visible(JoinLines(lines)) == Ascii85.Join(lines)
  {
    hide Ascii85.Visible, Ascii85.Digit;
    if |lines| == 0 {
      NothingVisible();
    } else if |lines| == 1 {
      DigitsVisible(lines[0]);
      assert Ascii85.Join(lines[..0]) == [];
      assert [] + lines[0] == lines[0];
    } else {
      var front, last := lines[..|lines| - 1], lines[|lines| - 1];
      VisibleJoinLines(front);
      Ascii85.VisibleJoin(JoinLines(front) + [NEWLINE], last);
      Ascii85.VisibleJoin(JoinLines(front), [NEWLINE]);
      DigitsVisible(last);
      NewlineInvisible();
    }
  }

  lemma NothingVisible()
    ensures Ascii85.Visible([]) == []
  {
  }

  lemma DigitsVisible(line: Line)
    requires forall c <- line :: Ascii85.Digit(c)
    ensures Ascii85.Visible(line) == line
  {
    hide Ascii85.Visible;
    Ascii85.VisibleOfPlain(line);
  }

  lemma NewlineInvisible()
    ensures Ascii85.Visible([NEWLINE]) == []
  {
    assert [NEWLINE][..0] == [];
  }

  /** The lines the board sends for `read`. */
  function ReplyLines(data: seq<Byte>): seq<Line> {
    Ascii85.Lines(Ascii85.Encode(data), 80) + [P.Render(P.Done(P.Length(|data|)))]
  }

  lemma EncodedLinesDecode(data: seq<Byte>)
    ensures Ascii85.Decode(JoinLines(Ascii85.Lines(Ascii85.Encode(data), 80))) == Ok(data)
  {
    hide Ascii85.Lines, Ascii85.Encode, JoinLines, Ascii85.Decode, Ascii85.Visible, Ascii85.Join;
    var lines := Ascii85.Lines(Ascii85.Encode(data), 80);
    forall i | 0 <= i < |lines|
      ensures forall c <- lines[i] :: Ascii85.Digit(c)
    {
      Ascii85Proofs.PayloadIsNotTerminator(data, i);
    }
    VisibleJoinLines(lines);
    Ascii85Proofs.LinesJoin(Ascii85.Encode(data), 80);
    Ascii85Proofs.DecodeEncode(data, JoinLines(lines));
  }

  lemma CountReads(n: nat)
    ensures
      var last := P.Render(P.Done(P.Length(n)));
      && HasPrefix(last, OK_SPACE) && HasPrefix(last, OK_LINE) && !HasPrefix(last, EV_PREFIX)
      && ParseDecimal(Strip(last[2..])) == Some(n)
  {
    hide Dec, ParseDecimal;
    var last := P.Render(P.Done(P.Length(n)));
    assert last == OK_LINE + ([32] + Dec(n));
    assert last[2..] == [32] + Dec(n);
    DecDigits(n);
    StripLeading(Dec(n));
    ParseDec(n);
    assert last[0] == 79 && EV_PREFIX[0] == 69;
  }

  lemma StripLeading(s: Line)
    requires s != [] && Solid(s)
    ensures Strip([32] + s) == s
  {
    var t := [32] + s;
    assert s[|s| - 1] in s && s[0] in s;
    assert TrimRight(t) == t;
    assert t[1..] == s;
    assert TrimLeft(t) == TrimLeft(s) == s;
  }

  /**
   For every blob: whatever event lines are interleaved with the board's reply to `read`, and
   however the bytes are chunked, the client downloads exactly the blob.
   */
  lemma DownloadsWhatWasStored(stream: seq<Byte>, data: seq<Byte>)
    requires WithoutEvents(Split(stream).0) == ReplyLines(data)
    ensures Download(Respond([], Split(stream).0)) == Ok(data)
  {
    hide Split, WithoutEvents, Respond, Ascii85.Lines, Ascii85.Encode, JoinLines, Ascii85.Decode, ParseDecimal, Strip,
      HasPrefix, Payload, P.Render;
    var payload := Ascii85.Lines(Ascii85.Encode(data), 80);
    var last := P.Render(P.Done(P.Length(|data|)));
    forall i | 0 <= i < |payload|
      ensures Payload(payload[i])
    {
      EncodedLineIsPayload(data, i);
    }
    CountReads(|data|);
    RespondToReply([], Split(stream).0, payload, last);
    assert [] + payload == payload;
    EncodedLinesDecode(data);
  }
}
