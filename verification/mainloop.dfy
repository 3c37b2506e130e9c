/**
 The main loop as one machine: the key, the gesture and the LEDs, the serial port and the protocol,
 and the board, taking turns in the order the firmware gives them.
 */
module MainLoop {
  import opened Bytes
  import opened Configs
  import opened Devices
  import opened Format
  import opened Gesture
  import opened KeyLoop
  import Leds
  import opened LineReading
  import opened Playing
  import opened Protocols
  import opened Runs
  import opened StorageInvariant
  import opened Store
  import opened Text
  import opened Ticks
  import Commands
  import RoundTrip

  /** One turn of the loop: the key's level, what waits on the port, and the true time. */
  datatype Pass = Pass(level: bool, waiting: AsciiLine, t: int)

  /** `last` and `hold` are the display last seen and the colour the LEDs were then given. */
  datatype Machine =
    | Running(buf: AsciiLine, s: State, loop: Loop, last: Option<Display>, hold: Option<Rgb>)
    | Halted

  /** What a turn did: the key's outcome, the binding that was fired, and the replies. */
  datatype Turn = Turn(outcome: Outcome, fired: Option<Binding>, replies: seq<Reply>)

  ghost predicate Sound(m: Machine) {
    m.Running? ==> LiveSound(m.s.board) && |m.loop.profile.slots| >= 1
  }

  // ----- the port

  lemma {:induction false} SplitAscii(s: AsciiLine)
    ensures forall i :: 0 <= i < |Split(s).0| ==> IsAscii(Split(s).0[i])
    ensures IsAscii(Split(s).1)
    decreases |s|
  {
    hide TrimCR, NewlineAt, Split;
    var i := NewlineAt(s);
    if i < |s| {
      SplitOne(s, i);
      PartAscii(s, 0, i);
      PartAscii(s, i + 1, |s|);
      assert s[0..i] == s[..i] && s[i + 1..|s|] == s[i + 1..];
      SplitAscii(s[i + 1..]);
      TrimAscii(s[..i]);
    } else {
      Unfinished(s);
    }
  }

  lemma PartAscii(s: AsciiLine, lo: nat, hi: nat)
    requires lo <= hi <= |s|
    ensures IsAscii(s[lo..hi])
  {
    forall c | c in s[lo..hi]
      ensures c < 128
    {
      assert c in s;
    }
  }

  lemma {:induction false} TrimAscii(s: AsciiLine)
    ensures IsAscii(TrimCR(s))
  {
    if s != [] && s[|s| - 1] == CR {
      PartAscii(s, 0, |s| - 1);
      assert s[0..|s| - 1] == s[..|s| - 1];
      TrimAscii(s[..|s| - 1]);
    }
  }

  function AsAscii(lines: seq<Line>): (ascii: seq<AsciiLine>)
    requires forall i :: 0 <= i < |lines| ==> IsAscii(lines[i])
    ensures ascii == lines
  {
    if lines == [] then []
    else
      var last: AsciiLine := lines[|lines| - 1];
      AsAscii(lines[..|lines| - 1]) + [last]
  }

  /** The lines a turn reads, and the unfinished rest. */
  function ReadPort(buf: AsciiLine, waiting: AsciiLine): (seq<AsciiLine>, AsciiLine) {
    SplitAscii(buf + waiting);
    var (lines, rest) := Split(buf + waiting);
    (AsAscii(lines), rest)
  }

  /** The protocol's turn: every line, and then a tick. */
  function Events(lines: seq<AsciiLine>, now: int): seq<Event> {
    seq(|lines|, i requires 0 <= i < |lines| => Receive(lines[i], now)) + [Poll(now)]
  }

  predicate Reports(replies: seq<Reply>) {
    |replies| == 1 && Saves(replies[0])
  }

  /** The board and the played profile afterwards, and whether the gesture was given one. */
  function Serve(x: Played, es: seq<Event>): (Played, bool) {
    if es == [] then (x, false)
    else
      var (y, applied) := Serve(x, es[..|es| - 1]);
      (PlayedNext(y, es[|es| - 1]), applied || Reports(Next(y.s, es[|es| - 1]).1))
  }

  lemma {:induction false} ServeIsPlayedRun(x: Played, es: seq<Event>)
    ensures Serve(x, es).0 == PlayedRun(x, es) && PlayedRun(x, es).s == Run(x.s, es).0
  {
    hide Next, PlayedNext;
    if es != [] {
      ServeIsPlayedRun(x, es[..|es| - 1]);
      PlayedFollows(PlayedRun(x, es[..|es| - 1]), es[|es| - 1]);
    }
  }

  lemma {:induction false} KeptProfile(x: Played, es: seq<Event>)
    ensures !Serve(x, es).1 ==> Serve(x, es).0.profile == x.profile
  {
    hide Next, Saves;
    if es != [] {
      KeptProfile(x, es[..|es| - 1]);
    }
  }

  lemma {:induction false} ServeSound(x: Played, es: seq<Event>)
    requires LiveSound(x.s.board) && |x.profile.slots| >= 1
    ensures LiveSound(Serve(x, es).0.s.board) && |Serve(x, es).0.profile.slots| >= 1
  {
    hide Next, LiveSound, PlayedNext;
    if es != [] {
      ServeSound(x, es[..|es| - 1]);
      PlayedSound(Serve(x, es[..|es| - 1]).0, es[|es| - 1]);
    }
  }

  lemma PlayedSound(x: Played, e: Event)
    requires LiveSound(x.s.board) && |x.profile.slots| >= 1
    ensures LiveSound(PlayedNext(x, e).s.board) && |PlayedNext(x, e).profile.slots| >= 1
  {
    hide Next, LiveSound, Saves;
    StepLiveSound(x.s, e);
    var live := Next(x.s, e).0.board.live;
    if ActiveProfile(live).Some? {
      LiveSlots(Next(x.s, e).0.board, ActiveProfile(live).value);
    }
  }

  lemma LiveSlots(b: Board, p: Profile)
    requires LiveSound(b) && p in b.live.profiles
    ensures 1 <= |p.slots| <= MAX_SLOTS
  {
    hide StorableProfile;
    SlotCount(b.live.(active := 0), p);
  }

  // ----- a turn

  /** The switch and the gesture after the key was polled, the outcome, and the display. */
  function KeyTurn(epoch: int, loop: Loop, pass: Pass): (r: (Loop, Outcome, Result<Display>))
    requires |loop.profile.slots| >= 1
    ensures r.0.profile == loop.profile
    ensures r.2.Ok? && r.2.value.Slot? ==> r.2.value.index < |loop.profile.slots|
  {
    var (next, outcome) := LoopStep(epoch, loop, Seen(Sample(pass.level, pass.t)));
    (next, outcome, if outcome.Crashed? then Err else Shown(next, Tick(epoch, pass.t)))
  }

  /** The colour the LEDs are left with: it is set only when the display has changed. */
  function Lit(last: Option<Display>, hold: Option<Rgb>, p: Profile, shown: Display): Option<Rgb>
    requires shown.Slot? ==> shown.index < |p.slots|
  {
    if last == Some(shown) then hold else ShownColor(p, shown)
  }

  /** The part of the loop that looks at the display and lights its colour. */
  method ShowGesture(tap: ColorTap, leds: Leds.LedEngine, last: Option<Display>, now: int) returns (r: Result<Display>)
    requires |tap.profile.slots| >= 1
    modifies leds`hold
    ensures r == tap.Show(now)
    ensures r.Ok? && r.value.Slot? ==> r.value.index < |tap.profile.slots|
    ensures leds.hold == if r.Ok? then Lit(last, old(leds.hold), tap.profile, r.value) else old(leds.hold)
  {
    hide StateAt, Elapsed;
    StateAtInRange(tap.profile, tap.HeldMs(now));
    var state :- tap.Show(now);
    if last != Some(state) {
      leds.SetHold(ShownColor(tap.profile, state));
    }
    return Ok(state);
  }

  function Turned(epoch: int, m: Machine, pass: Pass): (r: (Machine, Turn))
    requires Sound(m)
    ensures Sound(r.0)
  {
    if m.Halted? then (Halted, Turn(Nothing, None, []))
    else
      var (loop, outcome, shown) := KeyTurn(epoch, m.loop, pass);
      if shown.Err? then (Halted, Turn(Crashed, None, []))
      else
        var c := m.s.board.live;
        var fired := if outcome.Fired? then BindingAt(c, c.active, outcome.binding) else None;
        var hold := Lit(m.last, m.hold, loop.profile, shown.value);
        var (lines, buf) := ReadPort(m.buf, pass.waiting);
        var es := Events(lines, Tick(epoch, pass.t));
        ServeSound(Played(m.s, loop.profile), es);
        var (y, applied) := Serve(Played(m.s, loop.profile), es);
        KeptProfile(Played(m.s, loop.profile), es);
        var after := if applied then LoopStep(epoch, loop, Reprofile(y.profile)).0 else loop;
        (Running(buf, y.s, after, Some(shown.value), if applied then None else hold),
         Turn(outcome, fired, Run(m.s, es).1))
  }

  function MachineRun(epoch: int, m: Machine, passes: seq<Pass>): (r: (Machine, seq<Turn>))
    requires Sound(m)
    ensures Sound(r.0) && |r.1| == |passes|
  {
    if passes == [] then (m, [])
    else
      var (mid, turns) := MachineRun(epoch, m, passes[..|passes| - 1]);
      var (end, turn) := Turned(epoch, mid, passes[|passes| - 1]);
      (end, turns + [turn])
  }

  /** The colour the LEDs have during a turn, once the display has been looked at. */
  function Colour(epoch: int, m: Machine, pass: Pass): Option<Rgb>
    requires Sound(m) && m.Running? && KeyTurn(epoch, m.loop, pass).2.Ok?
  {
    Lit(m.last, m.hold, m.loop.profile, KeyTurn(epoch, m.loop, pass).2.value)
  }

  // ----- the port and the key do not disturb each other

  /** All the protocol gets to see, turn by turn, and the unfinished line. */
  function Traffic(epoch: int, buf: AsciiLine, passes: seq<Pass>): (seq<Event>, AsciiLine) {
    if passes == [] then ([], buf)
    else
      var pass := passes[|passes| - 1];
      var (es, rest) := Traffic(epoch, buf, passes[..|passes| - 1]);
      var (lines, next) := ReadPort(rest, pass.waiting);
      (es + Events(lines, Tick(epoch, pass.t)), next)
  }

  function AllReplies(turns: seq<Turn>): seq<Reply> {
    if turns == [] then [] else AllReplies(turns[..|turns| - 1]) + turns[|turns| - 1].replies
  }

  lemma {:induction false} PlayedRunSplit(x: Played, a: seq<Event>, b: seq<Event>)
    ensures PlayedRun(x, a + b) == PlayedRun(PlayedRun(x, a), b)
    decreases |b|
  {
    hide PlayedNext;
    if b == [] {
      assert a + b == a;
    } else {
      assert (a + b)[..|a + b| - 1] == a + b[..|b| - 1];
      PlayedRunSplit(x, a, b[..|b| - 1]);
    }
  }

  lemma TurnServes(epoch: int, m: Machine, pass: Pass)
    requires Sound(m) && m.Running? && Turned(epoch, m, pass).0.Running?
    ensures
      var (end, turn) := Turned(epoch, m, pass);
      var es := Events(ReadPort(m.buf, pass.waiting).0, Tick(epoch, pass.t));
      && end.buf == ReadPort(m.buf, pass.waiting).1
      && Played(end.s, end.loop.profile) == PlayedRun(Played(m.s, m.loop.profile), es)
      && turn.replies == Run(m.s, es).1
  {
    hide KeyTurn, ReadPort, Events, PlayedRun, Run, LiveSound, Lit, BindingAt;
    var es := Events(ReadPort(m.buf, pass.waiting).0, Tick(epoch, pass.t));
    KeptProfile(Played(m.s, m.loop.profile), es);
    ServeIsPlayedRun(Played(m.s, m.loop.profile), es);
  }

  lemma MachineRunFront(epoch: int, m: Machine, passes: seq<Pass>)
    requires Sound(m) && passes != [] && MachineRun(epoch, m, passes).0.Running?
    ensures MachineRun(epoch, m, passes[..|passes| - 1]).0.Running?
  {
    hide KeyTurn, Serve, LiveSound, Run;
  }

  /**
   Whatever the key does, the protocol and the board take exactly the run of the lines that were
   read, and the replies are that run's, as long as the loop goes on.
   */
  lemma {:induction false} SerialIsRun(epoch: int, m: Machine, passes: seq<Pass>)
    requires Sound(m) && m.Running? && MachineRun(epoch, m, passes).0.Running?
    ensures
      var (end, turns) := MachineRun(epoch, m, passes);
      var (es, rest) := Traffic(epoch, m.buf, passes);
      && end.buf == rest
      && Played(end.s, end.loop.profile) == PlayedRun(Played(m.s, m.loop.profile), es)
      && (end.s, AllReplies(turns)) == Run(m.s, es)
  {
    hide Turned, ReadPort, Events, PlayedRun, Run, LiveSound, Sound;
    if passes == [] {
      NoRun(Played(m.s, m.loop.profile));
    } else {
      var n := |passes| - 1;
      var front, pass := passes[..n], passes[n];
      MachineRunFront(epoch, m, passes);
      SerialIsRun(epoch, m, front);
      var mid := MachineRun(epoch, m, front).0;
      TurnServes(epoch, mid, pass);
      var before := Traffic(epoch, m.buf, front).0;
      var es := Events(ReadPort(mid.buf, pass.waiting).0, Tick(epoch, pass.t));
      PlayedRunSplit(Played(m.s, m.loop.profile), before, es);
      RunSplit(m.s, before, es);
      ServeIsPlayedRun(Played(mid.s, mid.loop.profile), es);
      var turns := MachineRun(epoch, m, passes).1;
      assert turns[..n] == MachineRun(epoch, m, front).1;
    }
  }

  lemma NoRun(x: Played)
    ensures PlayedRun(x, []) == x && Run(x.s, []) == (x.s, [])
  {
  }

  // ----- the hold and the press it began with

  /** When the last press was accepted. */
  function LatestPress(passes: seq<Pass>, turns: seq<Turn>): Option<int>
    requires |passes| == |turns|
  {
    if passes == [] then None
    else if turns[|turns| - 1].outcome.Pressed? then Some(passes[|passes| - 1].t)
    else LatestPress(passes[..|passes| - 1], turns[..|turns| - 1])
  }

  lemma TurnHeld(epoch: int, m: Machine, pass: Pass)
    requires Sound(m) && m.Running? && Turned(epoch, m, pass).0.Running?
    ensures
      var (end, turn) := Turned(epoch, m, pass);
      end.loop.held == None
      || end.loop.held == if turn.outcome.Pressed? then Some(Tick(epoch, pass.t)) else m.loop.held
  {
    hide Serve, ReadPort, Events, Run, LiveSound, StateAt, BindingAt, Lit;
  }

  /** Whatever profiles come and go: a hold in progress began with the latest press. */
  lemma {:induction false} HeldSinceLatestPress(epoch: int, m: Machine, passes: seq<Pass>)
    requires Sound(m) && m.Running? && m.loop.held == None && MachineRun(epoch, m, passes).0.Running?
    ensures
      var (end, turns) := MachineRun(epoch, m, passes);
      end.loop.held.Some? ==>
        && LatestPress(passes, turns).Some?
        && end.loop.held == Some(Tick(epoch, LatestPress(passes, turns).value))
  {
    hide Turned, LiveSound, Sound, Tick;
    if passes != [] {
      var n := |passes| - 1;
      MachineRunFront(epoch, m, passes);
      HeldSinceLatestPress(epoch, m, passes[..n]);
      TurnHeld(epoch, MachineRun(epoch, m, passes[..n]).0, passes[n]);
      var turns := MachineRun(epoch, m, passes).1;
      assert turns[..n] == MachineRun(epoch, m, passes[..n]).1;
    }
  }

  // ----- what is fired

  lemma TurnFires(epoch: int, m: Machine, pass: Pass)
    requires Sound(m) && m.Running? && Turned(epoch, m, pass).1.outcome.Fired?
    ensures
      var turn := Turned(epoch, m, pass).1;
      var shown := StateAt(m.loop.profile, Elapsed(Tick(epoch, pass.t), m.loop.held.value));
      && m.loop.held.Some?
      && shown.Ok? && Fires(shown.value) == Some(turn.outcome.binding)
      && turn.fired == BindingAt(m.s.board.live, m.s.board.live.active, turn.outcome.binding)
  {
    hide Serve, ReadPort, Events, Run, LiveSound, StateAt, BindingAt, Lit, Elapsed, Tick;
  }

  /**
   The key, the port and the board together: on a board that plays what it stores, over any
   interleaving of key levels, bytes and time in which nothing parts the two, every firing is of the
   binding with that number of the stored active profile; and it is the one, of the colour, that the
   true time since the latest press put on show, if that was less than half a clock period ago.
   */
  lemma FiringsAreStored(epoch: int, m: Machine, passes: seq<Pass>, pass: Pass)
    requires Sound(m) && m.Running? && m.loop.held == None
    requires InForce(Played(m.s, m.loop.profile)) && NonePart(m.s, Traffic(epoch, m.buf, passes).0)
    requires MachineRun(epoch, m, passes).0.Running?
    requires Turned(epoch, MachineRun(epoch, m, passes).0, pass).1.outcome.Fired?
    ensures
      var (mid, turns) := MachineRun(epoch, m, passes);
      var turn := Turned(epoch, mid, pass).1;
      var (c, p, i) := (mid.s.board.live, mid.loop.profile, turn.outcome.binding);
      && mid.s.board.region.Some? && Decode(Firmware, mid.s.board.region.value) == Ok(c)
      && ActiveProfile(c) == Some(p)
      && i < |Commands.Numbered(p)| && turn.fired == Some(Commands.Numbered(p)[i])
      && LatestPress(passes, turns).Some?
      && var h := pass.t - LatestPress(passes, turns).value;
      0 <= h < HALF ==>
        && |p.slots| >= 1 && StateAt(p, h).Ok? && Fires(StateAt(p, h).value) == Some(i)
        && (StateAt(p, h).value.Slot? ==> StateAt(p, h).value.index < |p.slots|)
        && ShownColor(p, StateAt(p, h).value) == Some(Commands.Numbered(p)[i].color)
  {
    hide Turned, LiveSound, Tick, Elapsed, StateAt, Decode, MachineRun, Next, NonePart, BindingAt;
    var (mid, turns) := MachineRun(epoch, m, passes);
    SerialIsRun(epoch, m, passes);
    RunInForce(Played(m.s, m.loop.profile), Traffic(epoch, m.buf, passes).0);
    HeldSinceLatestPress(epoch, m, passes);
    TurnFires(epoch, mid, pass);
    StoredAndShown(Played(mid.s, mid.loop.profile), epoch, pass.t, mid.loop.held.value);
    var h := pass.t - LatestPress(passes, turns).value;
    if 0 <= h < HALF {
      FiresStoredBinding(Played(mid.s, mid.loop.profile), epoch, LatestPress(passes, turns).value, h);
    }
  }

  /** At any tick whatever, what a release fires is the binding so numbered of the stored profile. */
  lemma StoredAndShown(x: Played, epoch: int, t: int, since: int)
    requires InForce(x)
    ensures x.s.board.region.Some? && Decode(Firmware, x.s.board.region.value) == Ok(x.s.board.live)
    ensures |x.profile.slots| >= 1
    ensures
      var shown := StateAt(x.profile, Elapsed(Tick(epoch, t), since));
      shown.Ok? && Fires(shown.value).Some? ==>
        var i, c := Fires(shown.value).value, x.s.board.live;
        i < |Commands.Numbered(x.profile)| && BindingAt(c, c.active, i) == Some(Commands.Numbered(x.profile)[i])
  {
    hide Decode, LiveSound, StateAt, Elapsed, Tick;
    SyncedHasActive(x.s.board);
    SlotCount(x.s.board.live, x.profile);
    StateAtInRange(x.profile, Elapsed(Tick(epoch, t), since));
  }

  // ----- power-on

  /** The machine at power-on, with the key's level and nothing seen yet. */
  function Start(region: Region, factory: Config, pressed: bool, debounceMs: nat): Machine
    requires Storable(Firmware, factory)
  {
    BootSound(region, factory);
    var live := Boot(region, factory).live;
    Running([], PowerOn(region, factory), Loop(Switch(pressed, debounceMs, None), live.profiles[live.active], None),
            None, None)
  }

  /** It is where the theorems of this module begin, and in force at once if the region loads. */
  lemma StartIsSound(region: Region, factory: Config, pressed: bool, debounceMs: nat)
    requires Storable(Firmware, factory)
    ensures
      var m := Start(region, factory, pressed, debounceMs);
      && Sound(m) && InStep(m) && m.Running? && m.buf == [] && m.s.upload.Idle? && m.loop.held == None
      && (Boot(region, factory).status == StatusOk ==> InForce(Played(m.s, m.loop.profile)))
  {
    hide Boot, LiveSound, Synced, StorableProfile;
    BootSound(region, factory);
    var live := Boot(region, factory).live;
    SlotCount(live, live.profiles[live.active]);
    if Boot(region, factory).status == StatusOk {
      PowerOnInForce(region, factory);
    }
  }

  // ----- presses and firings balance

  function PressedBy(turns: seq<Turn>): nat {
    if turns == [] then 0
    else PressedBy(turns[..|turns| - 1]) + if turns[|turns| - 1].outcome.Pressed? then 1 else 0
  }

  function FiredBy(turns: seq<Turn>): nat {
    if turns == [] then 0
    else FiredBy(turns[..|turns| - 1]) + if turns[|turns| - 1].outcome.Fired? then 1 else 0
  }

  function Holding(m: Machine): nat {
    if m.Running? && m.loop.held.Some? then 1 else 0
  }

  lemma TurnBalance(epoch: int, m: Machine, pass: Pass)
    requires Sound(m)
    ensures
      var (end, turn) := Turned(epoch, m, pass);
      (if turn.outcome.Fired? then 1 else 0) + Holding(end) <= Holding(m) + if turn.outcome.Pressed? then 1 else 0
  {
    hide Serve, ReadPort, Events, Run, LiveSound, StateAt, BindingAt, Lit, Elapsed, Tick;
  }

  /** Over any run, from any state, firings never outnumber presses: each answers a press of its own. */
  lemma {:induction false} FiringsBalance(epoch: int, m: Machine, passes: seq<Pass>)
    requires Sound(m)
    ensures
      var (end, turns) := MachineRun(epoch, m, passes);
      FiredBy(turns) + Holding(end) <= Holding(m) + PressedBy(turns)
  {
    hide Turned, Sound, Holding;
    if passes != [] {
      var n := |passes| - 1;
      FiringsBalance(epoch, m, passes[..n]);
      TurnBalance(epoch, MachineRun(epoch, m, passes[..n]).0, passes[n]);
      var turns := MachineRun(epoch, m, passes).1;
      assert turns[..n] == MachineRun(epoch, m, passes[..n]).1;
    }
  }

  // ----- the LEDs

  /**
   The remembered display and colour belong together, or a new profile has cleared the colour and
   the hold; then the key is still down, so that no press can come before the display is idle.
   */
  predicate InStep(m: Machine) {
    m.Running? ==>
      && (m.loop.held.Some? ==> m.loop.sw.pressed)
      && (|| (m.hold == None && m.loop.held == None
              && (m.last.Some? && m.last.value != Display.Idle ==> m.loop.sw.pressed))
          || (m.last.Some? && (m.last.value.Slot? ==> m.last.value.index < |m.loop.profile.slots|)
              && (m.last.value != Display.Idle ==> m.loop.sw.pressed)
              && m.hold == ShownColor(m.loop.profile, m.last.value)))
  }

  lemma TurnInStep(epoch: int, m: Machine, pass: Pass)
    requires Sound(m) && m.Running? && InStep(m) && KeyTurn(epoch, m.loop, pass).2.Ok?
    ensures Colour(epoch, m, pass) == ShownColor(m.loop.profile, KeyTurn(epoch, m.loop, pass).2.value)
    ensures InStep(Turned(epoch, m, pass).0)
  {
    hide ReadPort, Events, Run, LiveSound, BindingAt, Elapsed, Tick;
    var es := Events(ReadPort(m.buf, pass.waiting).0, Tick(epoch, pass.t));
    KeptProfile(Played(m.s, m.loop.profile), es);
    IdleWhenFree(epoch, m.loop, pass);
  }

  lemma IdleWhenFree(epoch: int, loop: Loop, pass: Pass)
    requires |loop.profile.slots| >= 1 && KeyTurn(epoch, loop, pass).2.Ok?
    ensures KeyTurn(epoch, loop, pass).2.value == Display.Idle <==> KeyTurn(epoch, loop, pass).0.held == None
  {
    var (next, outcome, shown) := KeyTurn(epoch, loop, pass);
    if next.held.Some? {
      StateAtInRange(next.profile, Elapsed(Tick(epoch, pass.t), next.held.value));
    }
  }

  /**
   In every turn of every run the LEDs hold the colour of what the gesture shows, although the
   loop hands a colour over only when the display changes.
   */
  lemma {:induction false} LedsFollowDisplay(epoch: int, m: Machine, passes: seq<Pass>, pass: Pass)
    requires Sound(m) && m.Running? && InStep(m)
    requires MachineRun(epoch, m, passes).0.Running?
    ensures InStep(MachineRun(epoch, m, passes).0)
    ensures
      var mid := MachineRun(epoch, m, passes).0;
      KeyTurn(epoch, mid.loop, pass).2.Ok? ==>
        Colour(epoch, mid, pass) == ShownColor(mid.loop.profile, KeyTurn(epoch, mid.loop, pass).2.value)
    decreases |passes|
  {
    hide Turned, KeyTurn, InStep, Colour, LiveSound;
    if passes != [] {
      var n := |passes| - 1;
      MachineRunFront(epoch, m, passes);
      LedsFollowDisplay(epoch, m, passes[..n], passes[n]);
      RunningHasDisplay(epoch, MachineRun(epoch, m, passes[..n]).0, passes[n]);
      TurnInStep(epoch, MachineRun(epoch, m, passes[..n]).0, passes[n]);
    }
    var mid := MachineRun(epoch, m, passes).0;
    if KeyTurn(epoch, mid.loop, pass).2.Ok? {
      TurnInStep(epoch, mid, pass);
    }
  }

  lemma RunningHasDisplay(epoch: int, m: Machine, pass: Pass)
    requires Sound(m) && m.Running? && Turned(epoch, m, pass).0.Running?
    ensures KeyTurn(epoch, m.loop, pass).2.Ok?
  {
    hide KeyTurn, Serve, ReadPort, Events, Run, LiveSound, BindingAt, Lit;
  }

  // ----- the loop goes on, exactly as long as no hold divides by zero

  /** The press a turn's display counts from: the one just accepted, or the one in progress. */
  function Since(epoch: int, loop: Loop, pass: Pass): Option<int> {
    var now := Tick(epoch, pass.t);
    if Update(loop.sw, pass.level, now).1 == Some(true) then Some(now) else loop.held
  }

  /** A turn ends the loop exactly when the played dwell is 0 and a hold is past the tap window. */
  lemma HaltsIff(epoch: int, m: Machine, pass: Pass)
    requires Sound(m) && m.Running?
    ensures
      var since, p := Since(epoch, m.loop, pass), m.loop.profile;
      Turned(epoch, m, pass).0.Halted?
      <==> since.Some? && p.dwellMs == 0 && Elapsed(Tick(epoch, pass.t), since.value) >= p.tapMaxMs
  {
    hide Serve, ReadPort, Events, Run, LiveSound, BindingAt, Lit, Elapsed, Tick;
    var since := Since(epoch, m.loop, pass);
    if since.Some? {
      StateAtInRange(m.loop.profile, Elapsed(Tick(epoch, pass.t), since.value));
    }
  }

  predicate AllPlayable(c: Config) {
    forall p <- c.profiles :: Playable(p)
  }

  /** Every configuration in play can be played. */
  predicate Livable(x: Played) {
    Playable(x.profile) && AllPlayable(x.s.board.live) && AllPlayable(x.s.board.factory)
  }

  /** An upload that gets as far as the store carries playable profiles. */
  predicate Harmless(s: State, e: Event) {
    match Committed(s, e)
    case None => true
    case Some(data) => match Decode(Firmware, data) case Err => true case Ok(c) => AllPlayable(c)
  }

  predicate AllHarmless(s: State, es: seq<Event>) {
    es == [] || (AllHarmless(s, es[..|es| - 1]) && Harmless(Run(s, es[..|es| - 1]).0, es[|es| - 1]))
  }

  lemma StepLivable(x: Played, e: Event)
    requires Livable(x) && Harmless(x.s, e)
    ensures Livable(PlayedNext(x, e))
  {
    hide Next, Command, Committed, Selected, Saves, Decode, SaveConfig;
    StepBoard(x.s, e);
    StepKeepsFixed(x.s, e);
  }

  lemma {:induction false} RunLivable(x: Played, es: seq<Event>)
    requires Livable(x) && AllHarmless(x.s, es)
    ensures Livable(PlayedRun(x, es))
  {
    hide Next, Livable, PlayedNext, Harmless;
    if es != [] {
      var n := |es| - 1;
      RunLivable(x, es[..n]);
      ServeIsPlayedRun(x, es[..n]);
      StepLivable(PlayedRun(x, es[..n]), es[n]);
    }
  }

  lemma {:induction false} AllHarmlessFront(s: State, a: seq<Event>, b: seq<Event>)
    requires AllHarmless(s, a + b)
    ensures AllHarmless(s, a)
    decreases |b|
  {
    hide Harmless;
    if b == [] {
      assert a + b == a;
    } else {
      assert (a + b)[..|a + b| - 1] == a + b[..|b| - 1];
      AllHarmlessFront(s, a, b[..|b| - 1]);
    }
  }

  /** Over any run in which only playable configurations are stored, the loop never ends. */
  lemma {:induction false} NeverHalts(epoch: int, m: Machine, passes: seq<Pass>)
    requires Sound(m) && m.Running? && Livable(Played(m.s, m.loop.profile))
    requires AllHarmless(m.s, Traffic(epoch, m.buf, passes).0)
    ensures MachineRun(epoch, m, passes).0.Running?
  {
    hide Turned, Livable, Harmless, LiveSound, Sound, ReadPort, Events, Run, PlayedRun;
    if passes != [] {
      var n := |passes| - 1;
      var front, pass := passes[..n], passes[n];
      var es := Traffic(epoch, m.buf, front).0;
      AllHarmlessFront(m.s, es, Events(ReadPort(Traffic(epoch, m.buf, front).1, pass.waiting).0, Tick(epoch, pass.t)));
      NeverHalts(epoch, m, front);
      var mid := MachineRun(epoch, m, front).0;
      SerialIsRun(epoch, m, front);
      RunLivable(Played(m.s, m.loop.profile), es);
      LivableTurns(epoch, mid, pass);
    }
  }

  lemma LivableTurns(epoch: int, m: Machine, pass: Pass)
    requires Sound(m) && m.Running? && Livable(Played(m.s, m.loop.profile))
    ensures Turned(epoch, m, pass).0.Running?
  {
    hide Turned, LiveSound, Elapsed, Tick;
    HaltsIff(epoch, m, pass);
  }

  /** What the CLI uploads is harmless. */
  lemma ValidIsHarmless(s: State, e: Event, c: Config)
    requires Valid(c) && Utf8Strings(c) && Committed(s, e) == Some(Encode(c))
    ensures Harmless(s, e)
  {
    hide Committed, Decode, Encode, Utf8Strings, Storable, ConfigSize;
    RoundTrip.ValidIsStorable(c);
    RoundTrip.DecodeEncode(Firmware, c, []);
    assert Encode(c) + [] == Encode(c);
    forall p | p in c.profiles
      ensures Playable(p)
    {
      ValidIsPlayable(p);
    }
  }

  // ----- and one stored byte pattern with which it does end

  function Smallest(dwellMs: U16): Profile {
    Profile([], dwellMs, 250, WRAP, 0, 0, 0, Rgb(0, 0, 0), Binding(Rgb(0, 0, 0), []), [Binding(Rgb(0, 0, 0), [])])
  }

  function SmallConfig(dwellMs: U16): Config {
    Config(FORMAT_VERSION, 0, [Smallest(dwellMs)])
  }

  /** The smallest configurations take 35 bytes; the CLI validates them within its limits on the dwell. */
  lemma SmallestIsStorable(dwellMs: U16)
    ensures Storable(Firmware, SmallConfig(dwellMs)) && ConfigSize(SmallConfig(dwellMs)) == 35
    ensures 100 <= dwellMs <= 10000 ==> Valid(SmallConfig(dwellMs)) && Utf8Strings(SmallConfig(dwellMs))
    ensures Playable(Smallest(dwellMs)) <==> dwellMs >= 1
  {
    var c := SmallConfig(dwellMs);
    SmallestSize(dwellMs);
    assert c.profiles[..0] == [] && c.profiles[0] == Smallest(dwellMs);
    assert ProfilesSize(c.profiles) == ProfilesSize(c.profiles[..0]) + ProfileSize(c.profiles[0]) == 21;
    assert StorableProfile(Firmware, Smallest(dwellMs)) && Utf8Profile(Smallest(dwellMs));
    assert 100 <= dwellMs <= 10000 ==> ValidProfile(Smallest(dwellMs));
  }

  lemma SmallestSize(dwellMs: U16)
    ensures ProfileSize(Smallest(dwellMs)) == 21
  {
    assert Smallest(dwellMs).slots[..0] == [];
  }

  /** The store takes a dwell of 0 from an upload and the board runs it. */
  lemma ZeroDwellIsStored(b: Board)
    requires b.region.Some? && |b.region.value| >= 35
    ensures
      var (t, r) := Commit(b, Encode(SmallConfig(0)));
      r == Ok(35) && t.live == SmallConfig(0) && Synced(t) && !AllPlayable(t.live)
  {
    hide Encode, Decode, Storable, ConfigSize, SmallConfig, Smallest;
    var c := SmallConfig(0);
    SmallestIsStorable(0);
    Commands.RoundTripSize(c);
    RoundTrip.DecodeEncode(Firmware, c, []);
    assert Encode(c) + [] == Encode(c);
    CommitSyncs(b, Encode(c));
    SmallHasOne(0);
  }

  lemma SmallHasOne(dwellMs: U16)
    ensures Smallest(dwellMs) in SmallConfig(dwellMs).profiles
  {
    assert SmallConfig(dwellMs).profiles[0] == Smallest(dwellMs);
  }

  /** Any hold of such a profile past its tap window then ends the loop, and the port with it. */
  lemma ZeroDwellHalts(epoch: int, m: Machine, pass: Pass, t: int)
    requires Sound(m) && m.Running? && m.loop.profile.dwellMs == 0
    requires m.loop.sw.pressed && m.loop.held == Some(Tick(epoch, t))
    requires m.loop.profile.tapMaxMs <= pass.t - t < HALF
    ensures Turned(epoch, m, pass).0.Halted?
  {
    hide Turned, LiveSound, Tick, Elapsed;
    HaltsIff(epoch, m, pass);
    ElapsedIsTrueTime(epoch, t, pass.t - t);
  }
}
