/** The colour-tap gesture over wrap-around ticks, and what it means in true time. */
module Gesture {
  import opened Arithmetic
  import opened Bytes
  import opened Configs
  import opened Ticks

  /** What the LEDs show: nothing held, the tap window, the dark slot, or a colour. */
  datatype Display = Idle | Tap | Cancel | Slot(index: nat)

  /** A profile every hold of which has a display. */
  predicate Playable(p: Profile) {
    p.dwellMs >= 1 && |p.slots| >= 1
  }

  function StateFor(p: Profile, held: nat): Display
    requires Playable(p)
  {
    if held < p.tapMaxMs then Tap
    else
      QuotientNat(held - p.tapMaxMs, p.dwellMs);
      Place(p, (held - p.tapMaxMs) / p.dwellMs)
  }

  /** The display after `raw` whole dwells. */
  function Place(p: Profile, raw: nat): Display
    requires |p.slots| >= 1
  {
    var n := |p.slots|;
    if p.overflow == CLAMP then Slot(if raw < n - 1 then raw else n - 1)
    else if p.overflow == WRAP_CANCEL then
      var k := raw % (n + 1);
      if k < n then Slot(k) else Cancel
    else Slot(raw % n)
  }

  /**
   The display as the firmware computes it. Once the tap window is over it divides by the dwell,
   which the decoders do not check: an error here is that division by zero.
   */
  function StateAt(p: Profile, held: nat): Result<Display>
    requires |p.slots| >= 1
  {
    if held < p.tapMaxMs then Ok(Tap) else if p.dwellMs == 0 then Err else Ok(StateFor(p, held))
  }

  /** The binding a release on this display fires: 0 is the tap, slot `i` is `i + 1`. */
  function Fires(d: Display): Option<nat> {
    match d
    case Tap => Some(0)
    case Slot(i) => Some(i + 1)
    case _ => None
  }

  /** The colour the LEDs hold for a display, or none when they follow the idle animation. */
  function ShownColor(p: Profile, d: Display): Option<Rgb>
    requires d.Slot? ==> d.index < |p.slots|
  {
    match d
    case Idle => None
    case Cancel => Some(Rgb(0, 0, 0))
    case Tap => Some(p.tap.color)
    case Slot(i) => Some(p.slots[i].color)
  }

  class ColorTap {
    var profile: Profile
    var pressed: bool
    var pressAt: int

    constructor (profile: Profile)
      ensures this.profile == profile && !pressed
    {
      this.profile := profile;
      pressed, pressAt := false, 0;
    }

    /** A hold in progress is abandoned. */
    method SetProfile(p: Profile)
      modifies this
      ensures profile == p && !pressed
    {
      profile := p;
      pressed := false;
    }

    method Press(now: int)
      modifies this
      ensures pressed && pressAt == now && profile == old(profile)
    {
      pressed := true;
      pressAt := now;
    }

    function HeldMs(now: int): (held: nat)
      reads this
      ensures held == if pressed then Elapsed(now, pressAt) else 0
    {
      if !pressed then 0 else Elapsed(now, pressAt)
    }

    function Show(now: int): Result<Display>
      requires |profile.slots| >= 1
      reads this
    {
      if !pressed then Ok(Idle) else StateAt(profile, HeldMs(now))
    }

    /** Releasing fires what was on show at that instant; the hold is over even when that raises. */
    method Release(now: int) returns (r: Result<Option<nat>>)
      requires |profile.slots| >= 1
      modifies this
      ensures match old(Show(now))
              case Err => r == Err
              case Ok(shown) => r == Ok(Fires(shown))
      ensures !pressed && profile == old(profile)
      ensures r.Ok? && r.value.Some? ==> old(pressed) && r.value.value < 1 + |profile.slots|
    {
      if !pressed {
        return Ok(None);
      }
      pressed := false;
      StateAtInRange(profile, Elapsed(now, pressAt));
      var state :- StateAt(profile, Elapsed(now, pressAt));
      if state == Tap {
        return Ok(Some(0));
      }
      if state == Cancel {
        return Ok(None);
      }
      return Ok(Some(state.index + 1));
    }
  }

  /** The tap window is exactly the time before `tapMaxMs`; after it a slot that exists, or the dark one. */
  lemma StateInRange(p: Profile, held: nat)
    requires Playable(p)
    ensures
      var d := StateFor(p, held);
      && (d == Tap <==> held < p.tapMaxMs)
      && !d.Idle? && (d.Slot? ==> d.index < |p.slots|) && (d.Cancel? ==> p.overflow == WRAP_CANCEL)
  {
    if held >= p.tapMaxMs {
      QuotientNat(held - p.tapMaxMs, p.dwellMs);
    }
  }

  /** Exactly when there is a display, and what it can be. */
  lemma StateAtInRange(p: Profile, held: nat)
    requires |p.slots| >= 1
    ensures StateAt(p, held).Ok? <==> held < p.tapMaxMs || p.dwellMs >= 1
    ensures
      StateAt(p, held).Ok? ==>
        var d := StateAt(p, held).value;
        !d.Idle? && (d.Slot? ==> d.index < |p.slots|) && (Fires(d).None? <==> d == Cancel)
  {
    if Playable(p) {
      StateInRange(p, held);
    }
  }

  /** A stored profile is playable at every hold exactly when its dwell is not 0. */
  lemma PlayableIff(p: Profile)
    requires |p.slots| >= 1
    ensures Playable(p) <==> forall held: nat :: StateAt(p, held).Ok?
  {
    hide StateAt;
    forall held: nat
      ensures Playable(p) ==> StateAt(p, held).Ok?
    {
      StateAtInRange(p, held);
    }
    StateAtInRange(p, p.tapMaxMs);
  }

  /** What the CLI validates is. */
  lemma ValidIsPlayable(p: Profile)
    requires ValidProfile(p)
    ensures Playable(p)
  {
  }

  // ----- true time

  /**
   For a board booted at any epoch, a hold of `h` true milliseconds shows, and on release fires,
   what the display of `h` says: the tick counter's wrap is invisible below half a period.
   */
  lemma HoldIsTrueTime(p: Profile, epoch: int, t: int, h: nat)
    requires |p.slots| >= 1 && h < HALF
    ensures StateAt(p, Elapsed(Tick(epoch, t + h), Tick(epoch, t))) == StateAt(p, h)
    ensures Playable(p) ==> StateAt(p, h) == Ok(StateFor(p, h))
  {
    ElapsedIsTrueTime(epoch, t, h);
  }

  /** Wrap: slot `i` is on show exactly in the `i`-th dwell of each rotation of all slots. */
  lemma WrapShows(p: Profile, h: nat, i: nat)
    requires Playable(p) && p.overflow != CLAMP && p.overflow != WRAP_CANCEL
    requires h >= p.tapMaxMs && i < |p.slots|
    ensures
      var period := |p.slots| * p.dwellMs as nat;
      period > 0
      && (StateFor(p, h) == Slot(i) <==> i * p.dwellMs <= (h - p.tapMaxMs) % period < i * p.dwellMs + p.dwellMs)
  {
    var n, d: nat, x := |p.slots|, p.dwellMs, h - p.tapMaxMs;
    Rotation(x, n, d);
    SlotBounds(x % (n * d), i, d);
  }

  /** `r` is in the `i`-th stretch of length `d` exactly when dividing says so. */
  lemma SlotBounds(r: nat, i: nat, d: nat)
    requires d > 0
    ensures r / d == i <==> i * d <= r < i * d + d
  {
    if i * d <= r < i * d + d {
      DivModUnique(r, d, i, r - i * d);
    }
    QuotientNat(r, d);
  }

  /** Wrap with cancel: each rotation has the slots in order and then exactly one dark dwell. */
  lemma WrapCancelShows(p: Profile, h: nat, i: nat)
    requires Playable(p) && p.overflow == WRAP_CANCEL
    requires h >= p.tapMaxMs && i <= |p.slots|
    ensures
      var period := (|p.slots| + 1) * p.dwellMs as nat;
      period > 0
      && (StateFor(p, h) == (if i < |p.slots| then Slot(i) else Cancel)
          <==> i * p.dwellMs <= (h - p.tapMaxMs) % period < i * p.dwellMs + p.dwellMs)
  {
    var n, d: nat, x := |p.slots|, p.dwellMs, h - p.tapMaxMs;
    Rotation(x, n + 1, d);
    SlotBounds(x % ((n + 1) * d), i, d);
  }

  /** Clamp: the slots in order, and then the last one for as long as the key is held. */
  lemma ClampShows(p: Profile, h: nat, i: nat)
    requires Playable(p) && p.overflow == CLAMP
    requires h >= p.tapMaxMs && i < |p.slots|
    ensures StateFor(p, h) == Slot(i)
       <==> i * p.dwellMs <= h - p.tapMaxMs && (i == |p.slots| - 1 || h - p.tapMaxMs < i * p.dwellMs + p.dwellMs)
  {
    var d: nat, x := p.dwellMs, h - p.tapMaxMs;
    SlotBounds(x, i, d);
    QuotientNat(x, d);
    if x / d >= i {
      MulAtLeast(x / d, i, d);
    } else {
      MulBound(x / d, i, d);
    }
  }

  /** The colours repeat with the rotation. */
  lemma WrapRepeats(p: Profile, h: nat)
    requires Playable(p) && h >= p.tapMaxMs
    requires p.overflow != CLAMP
    ensures
      var n := if p.overflow == WRAP_CANCEL then |p.slots| + 1 else |p.slots|;
      StateFor(p, h + n * p.dwellMs) == StateFor(p, h)
  {
    var n := if p.overflow == WRAP_CANCEL then |p.slots| + 1 else |p.slots|;
    var d: nat, x := p.dwellMs, h - p.tapMaxMs;
    Rotation(x, n, d);
    Rotation(x + n * d, n, d);
    AddPeriod(x, n * d);
  }

  /** Holding on never steps a clamped display back. */
  lemma ClampNeverDecreases(p: Profile, h: nat, k: nat)
    requires Playable(p) && p.overflow == CLAMP && p.tapMaxMs <= h <= k
    ensures StateFor(p, h).Slot? && StateFor(p, k).Slot? && StateFor(p, h).index <= StateFor(p, k).index
  {
    var d: nat, x, y := p.dwellMs, h - p.tapMaxMs, k - p.tapMaxMs;
    QuotientNat(x, d);
    QuotientNat(y, d);
    if x / d > y / d {
      MulBound(y / d, x / d, d);
    }
  }

  /** The dark dwell is dark, and nothing is held between holds. */
  lemma CancelIsDark(p: Profile)
    ensures ShownColor(p, Cancel) == Some(Rgb(0, 0, 0)) && ShownColor(p, Idle) == None
    ensures Fires(Cancel) == None && Fires(Idle) == None
  {
  }
}
