/**
 What the mode names of a document come to: the byte they are stored as, and what the key's display
 and the LEDs then do.
 */
module Modes {
  import opened Bytes
  import opened Configs
  import Format
  import Layout
  import opened Gesture
  import opened JsonForm
  import opened Leds
  import opened Text

  // ----- from a name to the byte

  /** The name as it is compared: margins off, in lower case. */
  function Plainly(name: Line): Line {
    Lower(Strip(name))
  }

  lemma NamesDiffer()
    ensures Ascii("wrap") != Ascii("wrap_cancel") && Ascii("wrap") != Ascii("clamp") && Ascii("wrap") != []
    ensures Ascii("wrap_cancel") != Ascii("clamp") && Ascii("wrap_cancel") != [] && Ascii("clamp") != []
    ensures Ascii("off") != Ascii("solid") && Ascii("off") != Ascii("breathe") && Ascii("off") != Ascii("rainbow")
    ensures Ascii("solid") != Ascii("breathe") && Ascii("solid") != Ascii("rainbow") && Ascii("solid") != []
    ensures Ascii("breathe") != Ascii("rainbow") && Ascii("breathe") != [] && Ascii("rainbow") != []
    ensures Ascii("off") != []
  {
    assert |Ascii("wrap")| == 4 && |Ascii("wrap_cancel")| == 11 && |Ascii("clamp")| == 5;
    assert |Ascii("off")| == 3 && |Ascii("solid")| == 5 && |Ascii("breathe")| == 7 && |Ascii("rainbow")| == 7;
    assert Ascii("breathe")[0] == 98 && Ascii("rainbow")[0] == 114;
  }

  lemma FirstName(name: Line, rest: seq<Line>, key: Line)
    ensures
      IndexOf([name] + rest, key)
      == if key == name then Some(0)
         else match IndexOf(rest, key)
              case Some(i) => Some(i + 1)
              case None => None
  {
    assert ([name] + rest)[1..] == rest;
  }

  lemma ThreeNames(a: Line, b: Line, c: Line, key: Line)
    ensures
      IndexOf([a, b, c], key)
      == if key == a then Some(0) else if key == b then Some(1) else if key == c then Some(2) else None
  {
    FirstName(a, [b, c], key);
    FirstName(b, [c], key);
    FirstName(c, [], key);
    assert [a] + [b, c] == [a, b, c] && [b] + [c] == [b, c] && [c] + [] == [c];
  }

  lemma FourNames(a: Line, b: Line, c: Line, d: Line, key: Line)
    ensures
      IndexOf([a, b, c, d], key)
      == if key == a then Some(0) else if key == b then Some(1) else if key == c then Some(2)
         else if key == d then Some(3) else None
  {
    FirstName(a, [b, c, d], key);
    ThreeNames(b, c, d, key);
    assert [a] + [b, c, d] == [a, b, c, d];
  }

  /** Which names of modes there are. */
  predicate Named(jp: JsonProfile) {
    && (Plainly(jp.overflow) == []
        || Plainly(jp.overflow) in {Ascii("wrap"), Ascii("wrap_cancel"), Ascii("clamp")})
    && (Plainly(jp.idleMode) == []
        || Plainly(jp.idleMode) in {Ascii("off"), Ascii("solid"), Ascii("breathe"), Ascii("rainbow")})
  }

  /** Exactly which profiles are read. */
  lemma ProfileReadIff(t: Tables, jp: JsonProfile)
    ensures ProfileFromJson(t, jp).Ok?
       <==> Named(jp) && JsonForm.ParseRgb(jp.idleColor).Some?
            && BindingFromJson(t, jp.tap).Ok? && BindingsFromJson(t, jp.slots).Ok?
  {
    hide Ascii, Lower, Strip, ParseRgb, BindingFromJson, BindingsFromJson, IndexOf;
    ThreeNames(Ascii("wrap"), Ascii("wrap_cancel"), Ascii("clamp"), Plainly(jp.overflow));
    FourNames(Ascii("off"), Ascii("solid"), Ascii("breathe"), Ascii("rainbow"), Plainly(jp.idleMode));
  }

  /** A profile is read only under one of the three overflow names, the empty one being "wrap". */
  lemma OverflowName(t: Tables, jp: JsonProfile, p: Profile)
    requires ProfileFromJson(t, jp) == Ok(p)
    ensures
      var name := Plainly(jp.overflow);
      && p.overflow <= 2
      && (p.overflow == 0 <==> name == [] || name == Ascii("wrap"))
      && (p.overflow == 1 <==> name == Ascii("wrap_cancel"))
      && (p.overflow == 2 <==> name == Ascii("clamp"))
  {
    hide Ascii, Lower, Strip, ParseRgb, BindingFromJson, BindingsFromJson, IndexOf;
    NamesDiffer();
    ThreeNames(Ascii("wrap"), Ascii("wrap_cancel"), Ascii("clamp"), Plainly(jp.overflow));
  }

  /** And only under one of the four idle names, the empty one being "off". */
  lemma IdleName(t: Tables, jp: JsonProfile, p: Profile)
    requires ProfileFromJson(t, jp) == Ok(p)
    ensures
      var name := Plainly(jp.idleMode);
      && p.idleMode <= 3
      && (p.idleMode == 0 <==> name == [] || name == Ascii("off"))
      && (p.idleMode == 1 <==> name == Ascii("solid"))
      && (p.idleMode == 2 <==> name == Ascii("breathe"))
      && (p.idleMode == 3 <==> name == Ascii("rainbow"))
  {
    hide Ascii, Lower, Strip, ParseRgb, BindingFromJson, BindingsFromJson, IndexOf;
    NamesDiffer();
    FourNames(Ascii("off"), Ascii("solid"), Ascii("breathe"), Ascii("rainbow"), Plainly(jp.idleMode));
  }

  // ----- from the byte to the display

  /** The hold is in the `i`-th dwell of a rotation of so many. */
  predicate InDwell(p: Profile, held: nat, i: nat, dwells: nat) {
    && held >= p.tapMaxMs && p.dwellMs > 0 && dwells > 0
    && 0 < dwells * p.dwellMs
    && i * p.dwellMs <= (held - p.tapMaxMs) % (dwells * p.dwellMs) < i * p.dwellMs + p.dwellMs
  }

  /** The slots take turns, and the display is never dark. */
  ghost predicate RotatesSlots(p: Profile)
    requires Playable(p)
  {
    && (forall held: nat, i: nat :: held >= p.tapMaxMs && i < |p.slots| ==>
          (StateFor(p, held) == Slot(i) <==> InDwell(p, held, i, |p.slots|)))
    && forall held: nat :: StateFor(p, held) != Cancel
  }

  /** The slots take turns with one dark dwell after the last. */
  ghost predicate RotatesWithDark(p: Profile)
    requires Playable(p)
  {
    && (forall held: nat, i: nat :: held >= p.tapMaxMs && i < |p.slots| ==>
          (StateFor(p, held) == Slot(i) <==> InDwell(p, held, i, |p.slots| + 1)))
    && forall held: nat :: StateFor(p, held) == Cancel <==> InDwell(p, held, |p.slots|, |p.slots| + 1)
  }

  /** The slots come in order, and the last one stays. */
  ghost predicate StopsAtLast(p: Profile)
    requires Playable(p)
  {
    && (forall held: nat, i: nat :: held >= p.tapMaxMs && i < |p.slots| ==>
          (StateFor(p, held) == Slot(i) <==>
             && i * p.dwellMs <= held - p.tapMaxMs
             && (i == |p.slots| - 1 || held - p.tapMaxMs < i * p.dwellMs + p.dwellMs)))
    && forall held: nat :: StateFor(p, held) != Cancel
  }

  lemma PeriodPositive(n: nat, d: nat)
    requires n > 0 && d > 0
    ensures 0 < n * d
  {
  }

  lemma ZeroRotates(p: Profile)
    requires Playable(p) && p.overflow == 0
    ensures RotatesSlots(p)
  {
    hide StateFor;
    PeriodPositive(|p.slots|, p.dwellMs);
    forall held: nat, i: nat | held >= p.tapMaxMs && i < |p.slots|
      ensures StateFor(p, held) == Slot(i) <==> InDwell(p, held, i, |p.slots|)
    {
      WrapShows(p, held, i);
    }
    forall held: nat
      ensures StateFor(p, held) != Cancel
    {
      StateInRange(p, held);
    }
  }

  lemma OneHasDark(p: Profile)
    requires Playable(p) && p.overflow == 1
    ensures RotatesWithDark(p)
  {
    hide StateFor;
    PeriodPositive(|p.slots| + 1, p.dwellMs);
    forall held: nat, i: nat | held >= p.tapMaxMs && i <= |p.slots|
      ensures StateFor(p, held) == (if i < |p.slots| then Slot(i) else Cancel) <==> InDwell(p, held, i, |p.slots| + 1)
    {
      WrapCancelShows(p, held, i);
    }
    forall held: nat
      ensures StateFor(p, held) == Cancel <==> InDwell(p, held, |p.slots|, |p.slots| + 1)
    {
      StateInRange(p, held);
      if held >= p.tapMaxMs {
        WrapCancelShows(p, held, |p.slots|);
      }
    }
  }

  lemma TwoStops(p: Profile)
    requires Playable(p) && p.overflow == 2
    ensures StopsAtLast(p)
  {
    hide StateFor;
    forall held: nat, i: nat | held >= p.tapMaxMs && i < |p.slots|
      ensures StateFor(p, held) == Slot(i)
         <==> i * p.dwellMs <= held - p.tapMaxMs
              && (i == |p.slots| - 1 || held - p.tapMaxMs < i * p.dwellMs + p.dwellMs)
    {
      ClampShows(p, held, i);
    }
    forall held: nat
      ensures StateFor(p, held) != Cancel
    {
      StateInRange(p, held);
    }
  }

  /** The stored bytes 0, 1 and 2, by what a hold then shows. */
  lemma OverflowByteShows(p: Profile)
    requires Playable(p)
    ensures p.overflow == 0 ==> RotatesSlots(p)
    ensures p.overflow == 1 ==> RotatesWithDark(p)
    ensures p.overflow == 2 ==> StopsAtLast(p)
  {
    hide RotatesSlots, RotatesWithDark, StopsAtLast;
    if p.overflow == 0 {
      ZeroRotates(p);
    } else if p.overflow == 1 {
      OneHasDark(p);
    } else if p.overflow == 2 {
      TwoStops(p);
    }
  }

  /** From the name in the document to what a hold shows. */
  lemma OverflowNameShows(t: Tables, jp: JsonProfile, p: Profile)
    requires ProfileFromJson(t, jp) == Ok(p) && Playable(p)
    ensures
      var name := Plainly(jp.overflow);
      && (name == [] || name == Ascii("wrap") ==> RotatesSlots(p))
      && (name == Ascii("wrap_cancel") ==> RotatesWithDark(p))
      && (name == Ascii("clamp") ==> StopsAtLast(p))
      && (name == [] || name in {Ascii("wrap"), Ascii("wrap_cancel"), Ascii("clamp")})
  {
    hide RotatesSlots, RotatesWithDark, StopsAtLast, ProfileFromJson, Plainly, Ascii;
    OverflowName(t, jp, p);
    OverflowByteShows(p);
  }

  /**
   On the stored bytes: the record of a profile the firmware decoded has the overflow byte right
   behind the name and the two times, and a hold shows what that byte says.
   */
  lemma StoredOverflowShows(data: seq<Byte>, c: Config, i: nat)
    requires Format.Decode(Format.Firmware, data) == Ok(c) && i < |c.profiles| && Playable(c.profiles[i])
    ensures
      var p := c.profiles[i];
      exists at: nat ::
        && at + 6 + |p.name| <= |data| && data[at] as int == |p.name|
        && var mode := data[at + 5 + |p.name|];
           && mode in {0, 1, 2}
           && (mode == 0 ==> RotatesSlots(p)) && (mode == 1 ==> RotatesWithDark(p)) && (mode == 2 ==> StopsAtLast(p))
  {
    hide RotatesSlots, RotatesWithDark, StopsAtLast, Format.Decode;
    var at := Layout.RecordOf(Format.Firmware, data, c, i);
    OverflowByteShows(c.profiles[i]);
  }

  // ----- from the byte to the LEDs

  /**
   From the name in the document to the LEDs at rest: "off" is dark, "solid" the idle colour at the
   profile's brightness, "breathe" that colour breathing, "rainbow" the wheel moving on every 8 ms.
   */
  lemma IdleNameShows(t: Tables, jp: JsonProfile, led: LedEngine, now: nat)
    requires ProfileFromJson(t, jp) == Ok(led.profile) && led.hold == None && led.flash == None
    ensures
      var name, p, look := Plainly(jp.idleMode), led.profile, led.Look(now);
      && (name == [] || name == Ascii("off") ==> look == Solid(Rgb(0, 0, 0)))
      && (name == Ascii("solid") ==> look == Solid(Scale(p.idleColor, p.brightness, 255)))
      && (name == Ascii("breathe") ==> look == Solid(Scale(p.idleColor, p.brightness, Breathe(now))))
      && (name == Ascii("rainbow") ==> look == Spread(now / 8, p.brightness, 255))
  {
    hide ProfileFromJson, Plainly, Ascii, Scale, Breathe;
    IdleName(t, jp, led.profile);
  }
}
