/** The debounced key and the gesture it drives, over every trace of levels and true times. */
module KeyLoop {
  import opened Bytes
  import opened Configs
  import opened Gesture
  import opened Ticks

  // ----- the debouncer

  datatype Switch = Switch(pressed: bool, debounceMs: nat, last: Option<int>)

  /** The switch after a level is seen, and the edge that was accepted. */
  function Update(sw: Switch, level: bool, now: int): (Switch, Option<bool>) {
    if level == sw.pressed then (sw, None)
    else if sw.last.Some? && Diff(now, sw.last.value) < sw.debounceMs then (sw, None)
    else (sw.(pressed := level, last := Some(now)), Some(level))
  }

  class Debouncer {
    var pressed: bool
    const debounceMs: nat
    var lastChange: Option<int>

    constructor (pressed: bool, debounceMs: nat)
      ensures State() == Switch(pressed, debounceMs, None)
    {
      this.pressed, this.debounceMs := pressed, debounceMs;
      lastChange := None;
    }

    function State(): Switch
      reads this
    {
      Switch(pressed, debounceMs, lastChange)
    }

    method Poll(level: bool, now: int) returns (edge: Option<bool>)
      modifies this
      ensures (State(), edge) == Update(old(State()), level, now)
    {
      if level == pressed {
        return None;
      }
      if lastChange.Some? {
        if Diff(now, lastChange.value) < debounceMs {
          return None;
        }
      }
      lastChange := Some(now);
      pressed := level;
      return Some(level);
    }
  }

  /** A level seen at a true time. */
  datatype Sample = Sample(level: bool, t: int)

  /** The switch after a trace, and the samples it accepted as edges. */
  function Trace(epoch: int, sw: Switch, samples: seq<Sample>): (Switch, seq<Sample>) {
    if samples == [] then (sw, [])
    else
      var x := samples[|samples| - 1];
      var (mid, edges) := Trace(epoch, sw, samples[..|samples| - 1]);
      var (next, edge) := Update(mid, x.level, Tick(epoch, x.t));
      (next, if edge.Some? then edges + [x] else edges)
  }

  /** The switch remembers exactly the level and tick of the last accepted edge. */
  lemma {:induction false} TraceState(epoch: int, level: bool, debounceMs: nat, samples: seq<Sample>)
    ensures
      var (sw, edges) := Trace(epoch, Switch(level, debounceMs, None), samples);
      && sw.debounceMs == debounceMs
      && if edges == [] then sw.pressed == level && sw.last == None
         else sw.pressed == edges[|edges| - 1].level && sw.last == Some(Tick(epoch, edges[|edges| - 1].t))
  {
    hide Tick;
    if samples != [] {
      TraceState(epoch, level, debounceMs, samples[..|samples| - 1]);
    }
  }

  /**
   Exactly which samples are accepted, for any boot epoch: a change of level that is the first, or
   comes at least the debounce time and less than half a clock period after the last edge.
   */
  lemma AcceptedIff(epoch: int, level: bool, debounceMs: nat, samples: seq<Sample>, x: Sample)
    ensures
      var start := Switch(level, debounceMs, None);
      var (sw, edges) := Trace(epoch, start, samples);
      Trace(epoch, start, samples + [x]).1
      == if && x.level != (if edges == [] then level else edges[|edges| - 1].level)
            && (edges == [] || debounceMs <= (x.t - edges[|edges| - 1].t) % PERIOD < HALF)
         then edges + [x] else edges
  {
    var start := Switch(level, debounceMs, None);
    var edges := Trace(epoch, start, samples).1;
    TraceState(epoch, level, debounceMs, samples);
    assert (samples + [x])[..|samples|] == samples;
    if edges != [] {
      var t := edges[|edges| - 1].t;
      DiffOfTicks(epoch, t, x.t - t);
      Fold(x.t - t);
    }
  }

  /** A concrete gap in that rule: a press half a clock period after the last edge is ignored. */
  lemma LongIdleIsIgnored(epoch: int, t: int)
    ensures
      var start := Switch(false, 20, None);
      var release, press := [Sample(true, t), Sample(false, t + 100)], Sample(true, t + 100 + HALF);
      Trace(epoch, start, release).1 == release && Trace(epoch, start, release + [press]).1 == release
  {
    var start := Switch(false, 20, None);
    var down, up, press := Sample(true, t), Sample(false, t + 100), Sample(true, t + 100 + HALF);
    AcceptedIff(epoch, false, 20, [], down);
    assert [] + [down] == [down];
    AcceptedIff(epoch, false, 20, [down], up);
    assert [down] + [up] == [down, up];
    AcceptedIff(epoch, false, 20, [down, up], press);
  }

  predicate Ordered(samples: seq<Sample>) {
    forall i, j :: 0 <= i < j < |samples| ==> samples[i].t <= samples[j].t
  }

  /** Edges alternate, starting away from the initial level, and keep their distance. */
  ghost predicate Spaced(level: bool, debounceMs: nat, edges: seq<Sample>) {
    && (edges != [] ==> edges[0].level != level)
    && forall i :: 0 <= i < |edges| - 1 ==>
         edges[i + 1].level != edges[i].level && edges[i + 1].t - edges[i].t >= debounceMs
  }

  lemma {:induction false} EdgesAreSpaced(epoch: int, level: bool, debounceMs: nat, samples: seq<Sample>)
    requires Ordered(samples)
    ensures
      var edges := Trace(epoch, Switch(level, debounceMs, None), samples).1;
      && Spaced(level, debounceMs, edges)
      && (edges != [] ==> samples != [] && edges[|edges| - 1].t <= samples[|samples| - 1].t)
  {
    hide Trace, Spaced;
    if samples == [] {
      NoTrace(epoch, Switch(level, debounceMs, None));
      NoneSpaced(level, debounceMs);
    } else {
      var front, x := samples[..|samples| - 1], samples[|samples| - 1];
      EdgesAreSpaced(epoch, level, debounceMs, front);
      AcceptedIff(epoch, level, debounceMs, front, x);
      assert front + [x] == samples;
      var edges := Trace(epoch, Switch(level, debounceMs, None), front).1;
      if edges != [] {
        assert front[|front| - 1].t <= x.t;
        ModAtMost(x.t - edges[|edges| - 1].t);
      }
      SpacedNext(level, debounceMs, edges, x);
    }
  }

  lemma NoTrace(epoch: int, sw: Switch)
    ensures Trace(epoch, sw, []).1 == []
  {
  }

  lemma NoneSpaced(level: bool, debounceMs: nat)
    ensures Spaced(level, debounceMs, [])
  {
  }

  lemma SpacedNext(level: bool, debounceMs: nat, edges: seq<Sample>, x: Sample)
    requires Spaced(level, debounceMs, edges)
    ensures
      x.level != (if edges == [] then level else edges[|edges| - 1].level)
      && (edges == [] || x.t - edges[|edges| - 1].t >= debounceMs)
      ==> Spaced(level, debounceMs, edges + [x])
  {
  }

  lemma ModAtMost(d: int)
    requires d >= 0
    ensures d % PERIOD <= d
  {
  }

  // ----- the loop

  /** A poll of the key, or a change of profile by the protocol. */
  datatype Input = Seen(sample: Sample) | Reprofile(profile: Profile)

  /** `Crashed` is an exception that leaves the main loop, and so ends it. */
  datatype Outcome = Nothing | Pressed | Fired(binding: nat) | Cancelled | Crashed

  datatype Loop = Loop(sw: Switch, profile: Profile, held: Option<int>)

  /** The display at a tick, or the error that computing it raises. */
  function Shown(s: Loop, now: int): (r: Result<Display>)
    requires |s.profile.slots| >= 1
    ensures r.Ok? && r.value.Slot? ==> r.value.index < |s.profile.slots|
  {
    StateAtInRange(s.profile, if s.held.None? then 0 else Elapsed(now, s.held.value));
    if s.held.None? then Ok(Idle) else StateAt(s.profile, Elapsed(now, s.held.value))
  }

  function LoopStep(epoch: int, s: Loop, x: Input): (Loop, Outcome)
    requires |s.profile.slots| >= 1
  {
    match x
    case Reprofile(p) => (s.(profile := p, held := None), Nothing)
    case Seen(sample) =>
      var now := Tick(epoch, sample.t);
      var (sw, edge) := Update(s.sw, sample.level, now);
      match edge
      case None => (s, Nothing)
      case Some(true) => (s.(sw := sw, held := Some(now)), Pressed)
      case Some(false) =>
        (s.(sw := sw, held := None),
         match Shown(s, now)
         case Err => Crashed
         case Ok(shown) => match Fires(shown) case Some(i) => Fired(i) case None => Cancelled)
  }

  /** The part of the main loop that polls the key and drives the gesture. */
  method PollKey(epoch: int, key: Debouncer, tap: ColorTap, sample: Sample) returns (outcome: Outcome)
    requires |tap.profile.slots| >= 1
    modifies key, tap
    ensures
      var before := Loop(old(key.State()), old(tap.profile), old(if tap.pressed then Some(tap.pressAt) else None));
      (Loop(key.State(), tap.profile, if tap.pressed then Some(tap.pressAt) else None), outcome)
      == LoopStep(epoch, before, Seen(sample))
  {
    hide StateAt, Tick, Elapsed;
    var now := Tick(epoch, sample.t);
    var edge := key.Poll(sample.level, now);
    if edge == Some(true) {
      tap.Press(now);
      return Pressed;
    } else if edge == Some(false) {
      var index := tap.Release(now);
      if index.Err? {
        return Crashed;
      }
      return if index.value.None? then Cancelled else Fired(index.value.value);
    }
    return Nothing;
  }

  function Outcomes(epoch: int, s: Loop, xs: seq<Input>): (Loop, seq<Outcome>)
    requires |s.profile.slots| >= 1 && forall x <- xs :: x.Reprofile? ==> |x.profile.slots| >= 1
    decreases |xs|
  {
    if xs == [] then (s, [])
    else
      var (mid, first) := LoopStep(epoch, s, xs[0]);
      var (end, rest) := Outcomes(epoch, mid, xs[1..]);
      (end, [first] + rest)
  }

  function CountFired(os: seq<Outcome>): nat {
    if os == [] then 0 else (if os[0].Fired? then 1 else 0) + CountFired(os[1..])
  }

  function CountPressed(os: seq<Outcome>): nat {
    if os == [] then 0 else (if os[0].Pressed? then 1 else 0) + CountPressed(os[1..])
  }

  function Pending(s: Loop): nat {
    if s.held.Some? then 1 else 0
  }

  /**
   Over any run of polls and profile changes, firings never outnumber presses; as this holds from
   every state on, each firing answers a press of its own.
   */
  lemma {:induction false} FiringsAnswerPresses(epoch: int, s: Loop, xs: seq<Input>)
    requires |s.profile.slots| >= 1 && forall x <- xs :: x.Reprofile? ==> |x.profile.slots| >= 1
    ensures
      var (end, os) := Outcomes(epoch, s, xs);
      CountFired(os) + Pending(end) <= Pending(s) + CountPressed(os)
    decreases |xs|
  {
    hide StateAt, Tick, Elapsed;
    if xs != [] {
      var (mid, first) := LoopStep(epoch, s, xs[0]);
      FiringsAnswerPresses(epoch, mid, xs[1..]);
      var rest := Outcomes(epoch, mid, xs[1..]).1;
      assert ([first] + rest)[1..] == rest;
    }
  }

  /** A release that ends a hold of `h` true milliseconds fires the binding shown for `h`. */
  lemma ReleaseFiresShown(epoch: int, s: Loop, t: int, h: nat)
    requires |s.profile.slots| >= 1 && h < HALF && s.held == Some(Tick(epoch, t))
    requires Update(s.sw, false, Tick(epoch, t + h)).1 == Some(false)
    ensures
      LoopStep(epoch, s, Seen(Sample(false, t + h))).1
      == match StateAt(s.profile, h)
         case Err => Crashed
         case Ok(shown) => match Fires(shown) case Some(i) => Fired(i) case None => Cancelled
    ensures
      StateAt(s.profile, h).Ok? ==>
        var fired := Fires(StateAt(s.profile, h).value);
        && (fired.None? <==> StateAt(s.profile, h).value == Cancel)
        && (fired.Some? ==> fired.value < 1 + |s.profile.slots|)
  {
    hide StateAt, Tick, Elapsed;
    HoldIsTrueTime(s.profile, epoch, t, h);
    StateAtInRange(s.profile, h);
  }
}
