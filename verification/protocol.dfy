/**
 The command protocol: one step of its state machine as a function, and the class that takes it.

 Error replies carry no wording here, and the help text is cut down to the command names.
 */
module Protocols {
  import opened Bytes
  import opened Configs
  import opened Crc
  import opened Devices
  import opened Framing
  import opened Store
  import opened Text
  import opened Ticks
  import Ascii85
  import Format

  const WRITE_TIMEOUT_MS := 5000

  const HELP: AsciiLine := Ascii("help")
  const VERSION: AsciiLine := Ascii("version")
  const READ: AsciiLine := Ascii("read")
  const WRITE: AsciiLine := Ascii("write")
  const PROFILE: AsciiLine := Ascii("profile")
  const TEST: AsciiLine := Ascii("test")
  const EVENTS: AsciiLine := Ascii("events")
  const DEFAULTS: AsciiLine := Ascii("defaults")
  const ON: AsciiLine := Ascii("on")
  const OFF: AsciiLine := Ascii("off")

  datatype Detail =
    | Plain
    | Versions(nvm: nat, used: nat, profiles: nat, active: int, status: Status)
    | Length(n: nat)
    | Written(n: nat)
    | Active(index: int, name: seq<Byte>)
    | Fired(steps: nat)
    | EventsSet(on: bool)
    | DefaultsWritten(n: nat)

  /** One reply line: OK, ERR, or a line of a longer answer. */
  datatype Reply = Done(detail: Detail) | Refused | Body(text: Line)

  predicate Terminator(r: Reply) {
    !r.Body?
  }

  /** The reason behind a corrupt region is left out, like the wording of errors. */
  function RenderStatus(s: Status): Line {
    match s
    case StatusOk => Ascii("ok")
    case NoNvm => Ascii("no-nvm")
    case Blank => Ascii("blank")
    case Corrupt => Ascii("corrupt: ")
  }

  function RenderDetail(d: Detail): Line {
    match d
    case Plain => []
    case Versions(nvm, used, profiles, active, status) =>
      Ascii("fw=0.1.0 fmt=1 nvm=") + Dec(nvm) + Ascii(" used=") + Dec(used) + Ascii(" profiles=") + Dec(profiles)
      + Ascii(" active=") + DecInt(active) + Ascii(" status=") + RenderStatus(status)
    case Length(n) => Dec(n)
    case Written(n) => Ascii("written ") + Dec(n)
    case Active(index, name) => Ascii("active=") + DecInt(index) + Ascii(" name=") + name
    case Fired(steps) => Ascii("fired ") + Dec(steps) + Ascii(" step(s)")
    case EventsSet(on) => Ascii("events=") + if on then ON else OFF
    case DefaultsWritten(n) => Ascii("defaults written ") + Dec(n)
  }

  /** The reply as the line that goes out. */
  function Render(r: Reply): Line {
    match r
    case Done(Plain) => OK_LINE
    case Done(d) => OK_LINE + ([32] + RenderDetail(d))
    case Refused => ERR_PREFIX
    case Body(text) => text
  }

  datatype Upload =
    | Idle
    | Receiving(expectBytes: int, expectChars: nat, expectCrc: int, buf: seq<Line>, got: nat, lastRx: int)

  datatype State = State(board: Board, events: bool, upload: Upload)

  // ----- commands

  const HELP_REPLY: seq<Reply> :=
    [Body(HELP), Body(VERSION), Body(READ), Body(WRITE), Body(PROFILE), Body(TEST), Body(EVENTS),
     Body(DEFAULTS), Done(Plain)]

  function Version(s: State): (State, seq<Reply>) {
    var b := s.board;
    match ReadBack(b)
    case Err => (s, [Refused])
    case Ok(data) =>
      (s, [Done(Versions(RegionSize(b.region), |data|, |b.live.profiles|, b.live.active, b.status))])
  }

  function Bodies(lines: seq<Line>): seq<Reply> {
    seq(|lines|, i requires 0 <= i < |lines| => Body(lines[i]))
  }

  function Read(s: State): (State, seq<Reply>) {
    match ReadBack(s.board)
    case Err => (s, [Refused])
    case Ok(data) =>
      if data == [] then (s, [Refused])
      else (s, Bodies(Ascii85.Lines(Ascii85.Encode(data), 80)) + [Done(Length(|data|))])
  }

  function Write(s: State, args: seq<Line>, now: int): (State, seq<Reply>) {
    if |args| != 2 then (s, [Refused])
    else
      match (ParseInt(args[0]), ParseInt(args[1]))
      case (Some(length), Some(crc)) =>
        if length < HEADER_BASE + CRC_TRAILER || length > RegionSize(s.board.region) then (s, [Refused])
        else (s.(upload := Receiving(length, Ascii85.EncodedLen(length), crc, [], 0, now)), [])
      case _ => (s, [Refused])
  }

  function SelectProfile(s: State, args: seq<Line>): (State, seq<Reply>) {
    if |args| != 1 then (s, [Refused])
    else
      match ParseInt(args[0])
      case None => (s, [Refused])
      case Some(n) =>
        if n >= |s.board.live.profiles| then (s, [Refused])
        else
          var (b, r) := SetActive(s.board, n);
          match r
          case Err => (s.(board := b), [Refused])
          case Ok(_) =>
            match Item(b.live.profiles, n)
            case None => (s.(board := b), [Refused])
            case Some(p) => (s.(board := b), [Done(Active(n, p.name))])
  }

  /** Python's indexing, where a negative index counts from the end. */
  function Item<T>(items: seq<T>, i: int): Option<T> {
    if 0 <= i < |items| then Some(items[i])
    else if -|items| <= i < 0 then Some(items[i + |items|])
    else None
  }

  /** Binding `bi` of profile `pi`, unless an index does not exist. */
  function BindingAt(c: Config, pi: int, bi: int): Option<Binding> {
    if pi >= |c.profiles| then None
    else
      match Item(c.profiles, pi)
      case None => None
      case Some(p) =>
        if bi >= 1 + |p.slots| then None
        else if bi == 0 then Some(p.tap)
        else Item(p.slots, bi - 1)
  }

  /** Firing acts on the keyboard and the LEDs only. */
  function Test(s: State, args: seq<Line>): (State, seq<Reply>) {
    if |args| != 2 then (s, [Refused])
    else
      match (ParseInt(args[0]), ParseInt(args[1]))
      case (Some(pi), Some(bi)) =>
        (match BindingAt(s.board.live, pi, bi)
         case None => (s, [Refused])
         case Some(b) => (s, [Done(Fired(|b.steps|))]))
      case _ => (s, [Refused])
  }

  function SetEvents(s: State, args: seq<Line>): (State, seq<Reply>) {
    if |args| == 1 && Lower(args[0]) == ON then (s.(events := true), [Done(EventsSet(true))])
    else if |args| == 1 && Lower(args[0]) == OFF then (s.(events := false), [Done(EventsSet(false))])
    else (s, [Refused])
  }

  function Defaults(s: State): (State, seq<Reply>) {
    var (b, r) := RestoreDefaults(s.board);
    match r
    case Err => (s.(board := b), [Refused])
    case Ok(n) => (s.(board := b), [Done(DefaultsWritten(n))])
  }

  function Dispatch(s: State, cmd: Line, args: seq<Line>, now: int): (State, seq<Reply>) {
    if cmd == HELP then (s, HELP_REPLY)
    else if cmd == VERSION then Version(s)
    else if cmd == READ then Read(s)
    else if cmd == WRITE then Write(s, args, now)
    else if cmd == PROFILE then SelectProfile(s, args)
    else if cmd == TEST then Test(s, args)
    else if cmd == EVENTS then SetEvents(s, args)
    else if cmd == DEFAULTS then Defaults(s)
    else (s, [Refused])
  }

  // ----- one line, one tick

  /** A line of an upload: counted first, and looked at only when the count is complete. */
  function UploadLine(s: State, line: Line, now: int): (State, seq<Reply>)
    requires s.upload.Receiving?
  {
    var u := s.upload;
    var chunk := Strip(line);
    var got := u.got + |chunk|;
    var idle := s.(upload := Idle);
    if got > u.expectChars then (idle, [Refused])
    else if got < u.expectChars then
      (s.(upload := u.(buf := u.buf + [chunk], got := got, lastRx := now)), [])
    else
      Complete(idle, Ascii85.Join(u.buf + [chunk]), u.expectBytes, u.expectCrc)
  }

  /** The checks on a complete transfer, in order; only the last step changes anything. */
  function Complete(s: State, text: seq<Byte>, expectBytes: int, expectCrc: int): (State, seq<Reply>) {
    match Ascii85.Decode(text)
    case Err => (s, [Refused])
    case Ok(data) =>
      if |data| != expectBytes then (s, [Refused])
      else if Crc16(data) != expectCrc then (s, [Refused])
      else
        var (b, r) := Commit(s.board, data);
        match r
        case Err => (s, [Refused])
        case Ok(n) => (s.(board := b), [Done(Written(n))])
  }

  function Handle(s: State, line: Line, now: int): (State, seq<Reply>) {
    if s.upload.Receiving? then UploadLine(s, line, now)
    else
      var words := Words(Sanitize(line));
      if words == [] then (s, []) else Dispatch(s, Lower(words[0]), words[1..], now)
  }

  function TickAt(s: State, now: int): (State, seq<Reply>) {
    if s.upload.Idle? || Elapsed(now, s.upload.lastRx) < WRITE_TIMEOUT_MS then (s, [])
    else (s.(upload := Idle), [Refused])
  }

  // ----- the class

  class Protocol {
    const device: Device
    var eventsEnabled: bool
    var expectBytes: int
    var expectChars: nat
    var expectCrc: int
    var buf: Option<seq<Line>>
    var gotChars: nat
    var lastRx: int

    constructor (device: Device)
      ensures this.device == device
      ensures Abstract() == State(device.State(), false, Idle)
    {
      this.device := device;
      eventsEnabled := false;
      expectBytes, expectChars, expectCrc := 0, 0, 0;
      buf := None;
      gotChars, lastRx := 0, 0;
    }

    ghost function Abstract(): State
      reads this, device, device.store, device.store.nvm
    {
      State(device.State(), eventsEnabled,
            match buf
            case None => Idle
            case Some(chunks) => Receiving(expectBytes, expectChars, expectCrc, chunks, gotChars, lastRx))
    }

    method HandleLine(line: Line, now: int) returns (replies: seq<Reply>)
      modifies this, device, device.store, device.store.nvm
      ensures (Abstract(), replies) == Handle(old(Abstract()), line, now)
    {
      hide Dispatch, UploadLine, Words, Sanitize;
      if buf.Some? {
        replies := HandleUploadLine(line, now);
        return;
      }
      var words := Words(Sanitize(line));
      if words == [] {
        return [];
      }
      replies := RunCommand(Lower(words[0]), words[1..], now);
    }

    method RunCommand(cmd: Line, args: seq<Line>, now: int) returns (replies: seq<Reply>)
      requires buf.None?
      modifies this, device, device.store, device.store.nvm
      ensures (Abstract(), replies) == Dispatch(old(Abstract()), cmd, args, now)
    {
      hide SelectProfile, RestoreDefaults, Write, Read, ReadBack, BindingAt;
      if cmd == HELP {
        return HELP_REPLY;
      } else if cmd == VERSION {
        var data := device.Read();
        if data.Err? {
          return [Refused];
        }
        var size := device.store.Size();
        return [Done(Versions(size, |data.value|, |device.config.profiles|, device.config.active, device.status))];
      } else if cmd == READ {
        replies := CmdRead();
      } else if cmd == WRITE {
        replies := CmdWrite(args, now);
      } else if cmd == PROFILE {
        replies := CmdProfile(args);
      } else if cmd == TEST {
        if |args| != 2 {
          return [Refused];
        }
        var pi, bi := ParseInt(args[0]), ParseInt(args[1]);
        if pi.None? || bi.None? {
          return [Refused];
        }
        var b := BindingAt(device.config, pi.value, bi.value);
        return if b.None? then [Refused] else [Done(Fired(|b.value.steps|))];
      } else if cmd == EVENTS {
        if |args| != 1 || (Lower(args[0]) != ON && Lower(args[0]) != OFF) {
          return [Refused];
        }
        eventsEnabled := Lower(args[0]) == ON;
        return [Done(EventsSet(eventsEnabled))];
      } else if cmd == DEFAULTS {
        var n := device.Reset();
        return if n.Err? then [Refused] else [Done(DefaultsWritten(n.value))];
      } else {
        return [Refused];
      }
    }

    method CmdRead() returns (replies: seq<Reply>)
      ensures (Abstract(), replies) == Read(Abstract())
    {
      hide ReadBack, Ascii85.Encode, Ascii85.Lines;
      var data := device.Read();
      if data.Err? || data.value == [] {
        return [Refused];
      }
      var text := Ascii85.EncodeBytes(data.value);
      return Bodies(Ascii85.Lines(text, 80)) + [Done(Length(|data.value|))];
    }

    method CmdWrite(args: seq<Line>, now: int) returns (replies: seq<Reply>)
      requires buf.None?
      modifies this
      ensures (Abstract(), replies) == Write(old(Abstract()), args, now)
    {
      hide ParseInt;
      if |args| != 2 {
        return [Refused];
      }
      var length, crc := ParseInt(args[0]), ParseInt(args[1]);
      if length.None? || crc.None? {
        return [Refused];
      }
      var size := device.store.Size();
      if length.value < HEADER_BASE + CRC_TRAILER || length.value > size {
        return [Refused];
      }
      expectBytes := length.value;
      expectChars := Ascii85.EncodedLen(length.value);
      expectCrc := crc.value;
      buf := Some([]);
      gotChars := 0;
      lastRx := now;
      return [];
    }

    method CmdProfile(args: seq<Line>) returns (replies: seq<Reply>)
      requires buf.None?
      modifies this, device, device.store, device.store.nvm
      ensures (Abstract(), replies) == SelectProfile(old(Abstract()), args)
    {
      hide ParseInt, SetActive;
      if |args| != 1 {
        return [Refused];
      }
      var n := ParseInt(args[0]);
      if n.None? || n.value >= |device.config.profiles| {
        return [Refused];
      }
      var r := device.Activate(n.value);
      if r.Err? {
        return [Refused];
      }
      var p := Item(device.config.profiles, n.value);
      return if p.None? then [Refused] else [Done(Active(n.value, p.value.name))];
    }

    method HandleUploadLine(line: Line, now: int) returns (replies: seq<Reply>)
      requires buf.Some?
      modifies this, device, device.store, device.store.nvm
      ensures (Abstract(), replies) == UploadLine(old(Abstract()), line, now)
    {
      hide Strip, Complete, Ascii85.Join;
      lastRx := now;
      var chunk := Strip(line);
      gotChars := gotChars + |chunk|;
      if gotChars > expectChars {
        ResetUpload();
        return [Refused];
      }
      buf := Some(buf.value + [chunk]);
      if gotChars < expectChars {
        return [];
      }
      var text := Ascii85.Join(buf.value);
      ResetUpload();
      replies := CheckAndCommit(text);
    }

    method CheckAndCommit(text: seq<Byte>) returns (replies: seq<Reply>)
      requires buf.None?
      modifies device, device.store, device.store.nvm
      ensures (Abstract(), replies) == Complete(old(Abstract()), text, expectBytes, expectCrc)
    {
      hide Ascii85.Decode, Crc16, Format.Decode;
      var data := Ascii85.DecodeText(text);
      if data.Err? || |data.value| != expectBytes {
        return [Refused];
      }
      var crc := ComputeCrc16(data.value);
      if crc != expectCrc {
        return [Refused];
      }
      var written := device.CommitBlob(data.value);
      return if written.Err? then [Refused] else [Done(Written(written.value))];
    }

    method ResetUpload()
      modifies this`buf, this`gotChars
      ensures buf == None
    {
      buf := None;
      gotChars := 0;
    }

    method Tick(now: int) returns (replies: seq<Reply>)
      modifies this
      ensures (Abstract(), replies) == TickAt(old(Abstract()), now)
    {
      if buf.None? {
        return [];
      }
      if Elapsed(now, lastRx) < WRITE_TIMEOUT_MS {
        return [];
      }
      ResetUpload();
      return [Refused];
    }
  }
}
