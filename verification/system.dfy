/** The CLI and the board together: what is uploaded is what is downloaded. */
module System {
  import opened Bytes
  import opened Configs
  import opened LineReading
  import opened Protocols
  import opened Store
  import opened Text
  import opened Transfer
  import Ascii85
  import Ascii85Proofs
  import Client
  import Crc
  import Format
  import RoundTrip

  lemma SolidIsPlain(line: Line)
    requires forall c <- line :: Printable(c)
    ensures PlainLine(line)
  {
    if line != [] {
      assert line[|line| - 1] in line;
    }
  }

  lemma HeaderPrintable(data: seq<Byte>)
    requires |data| < 0x1_0000
    ensures forall c <- HeaderLine(data) :: Printable(c)
  {
    hide Dec, Hex, Crc.Crc16;
    DecDigits(|data|);
    HexIsSolid(Crc.Crc16(data));
    assert Solid(WRITE);
    var crc := HEX_PREFIX + Hex(Crc.Crc16(data), 4);
    assert forall c <- crc :: Printable(c);
  }

  /** However the client's bytes are cut into reads, the board sees the client's lines. */
  lemma ClientLinesArrive(data: seq<Byte>, chunks: seq<seq<Byte>>)
    requires |data| < 0x1_0000 && Concat(chunks) == LineReading.Written(Client.UploadLines(data))
    ensures Deliver([], chunks) == (Client.UploadLines(data), [])
  {
    hide Split, LineReading.Written, Concat, Deliver, HeaderLine, Ascii85.Lines, Ascii85.Encode, PlainLine, Printable;
    var lines := Client.UploadLines(data);
    var payload := Ascii85.Lines(Ascii85.Encode(data), 80);
    forall i | 0 <= i < |lines|
      ensures PlainLine(lines[i])
    {
      if i == 0 {
        HeaderPrintable(data);
      } else {
        Ascii85Proofs.PayloadIsNotTerminator(data, i - 1);
        assert lines[i] == payload[i - 1];
        DigitsPrintable(lines[i]);
      }
      SolidIsPlain(lines[i]);
    }
    ChunkIndependent([], chunks);
    assert [] + Concat(chunks) == Concat(chunks);
    SplitWritten(lines);
  }

  lemma DigitsPrintable(line: Line)
    requires forall c <- line :: Ascii85.Digit(c)
    ensures (forall c <- line :: Printable(c)) && Strip(line) == line
  {
    hide Strip;
    assert Solid(line);
    SolidStrip(line);
  }

  /** The lines among some arrivals. */
  function LinesOf(arrivals: seq<Arrival>): seq<Line> {
    if arrivals == [] then []
    else
      var last := arrivals[|arrivals| - 1];
      LinesOf(arrivals[..|arrivals| - 1]) + if last.LineAt? then [last.line] else []
  }

  lemma {:induction false} SentIsJoin(arrivals: seq<Arrival>)
    requires forall i :: 0 <= i < |LinesOf(arrivals)| ==> forall c <- LinesOf(arrivals)[i] :: Ascii85.Digit(c)
    ensures Sent(arrivals) == Ascii85.Join(LinesOf(arrivals))
  {
    hide Strip;
    if arrivals != [] {
      var front, last := arrivals[..|arrivals| - 1], arrivals[|arrivals| - 1];
      var lines := LinesOf(arrivals);
      assert forall i :: 0 <= i < |LinesOf(front)| ==> LinesOf(front)[i] == lines[i];
      SentIsJoin(front);
      if last.LineAt? {
        assert lines[|lines| - 1] == last.line && lines[..|lines| - 1] == LinesOf(front);
        DigitsPrintable(last.line);
      } else {
        assert lines == LinesOf(front);
      }
    }
  }

  lemma ClientLinesSend(data: seq<Byte>, arrivals: seq<Arrival>)
    requires LinesOf(arrivals) == Ascii85.Lines(Ascii85.Encode(data), 80)
    ensures Sent(arrivals) == Ascii85.Encode(data)
  {
    hide Ascii85.Lines, Ascii85.Encode;
    forall i | 0 <= i < |LinesOf(arrivals)|
      ensures forall c <- LinesOf(arrivals)[i] :: Ascii85.Digit(c)
    {
      Ascii85Proofs.PayloadIsNotTerminator(data, i);
    }
    SentIsJoin(arrivals);
    Ascii85Proofs.LinesJoin(Ascii85.Encode(data), 80);
  }

  function RenderAll(replies: seq<Reply>): seq<Line> {
    seq(|replies|, i requires 0 <= i < |replies| => Render(replies[i]))
  }

  lemma RenderRead(data: seq<Byte>)
    ensures RenderAll(Bodies(Ascii85.Lines(Ascii85.Encode(data), 80)) + [Done(Length(|data|))])
         == Client.ReplyLines(data)
  {
    hide Ascii85.Lines, Ascii85.Encode, RenderAll, Bodies, Render;
    RenderBodies(Ascii85.Lines(Ascii85.Encode(data), 80), Done(Length(|data|)));
  }

  lemma RenderBodies(lines: seq<Line>, last: Reply)
    ensures RenderAll(Bodies(lines) + [last]) == lines + [Render(last)]
  {
    hide Render;
    var replies := Bodies(lines) + [last];
    forall i | 0 <= i < |replies|
      ensures RenderAll(replies)[i] == (lines + [Render(last)])[i]
    {
      if i < |lines| {
        assert replies[i] == Body(lines[i]);
        BodyRenders(lines[i]);
      }
    }
  }

  lemma BodyRenders(text: Line)
    ensures Render(Body(text)) == text
  {
    hide RenderDetail;
  }

  /** The blob round trip of the CLI: for every configuration it validates, with anything after;
      and the firmware's encoder prints the same bytes. */
  lemma ValidRoundTrip(c: Config, trailing: seq<Byte>)
    requires Valid(c)
    ensures Format.Decode(Format.Cli, Format.Encode(c) + trailing) == Ok(c)
    ensures Format.Utf8Strings(c) ==> Format.Decode(Format.Firmware, Format.Encode(c) + trailing) == Ok(c)
    ensures |Format.Encode(c)| == ConfigSize(c) <= NVM_SIZE
    ensures FirmwareEncode(c) == Ok(Format.Encode(c))
  {
    hide Format.Encode, Format.Decode, Format.Utf8Strings, Format.Storable, ConfigSize, ValidProfile, Format.Encodable;
    RoundTrip.ValidIsStorable(c);
    RoundTrip.DecodeEncode(Format.Cli, c, trailing);
    if Format.Utf8Strings(c) {
      RoundTrip.DecodeEncode(Format.Firmware, c, trailing);
    }
    RoundTrip.StorableIsEncodable(Format.Cli, c);
    RoundTrip.EncodedSize(c);
  }

  lemma ValidDecodes(c: Config)
    requires Valid(c)
    ensures Format.Decode(Format.Cli, Format.Encode(c)) == Ok(c)
  {
    hide Format.Encode, Format.Decode, Valid;
    ValidRoundTrip(c, []);
    assert Format.Encode(c) + [] == Format.Encode(c);
  }
}
