/** The documented ranges, against what the CLI validates and what the firmware's encoder takes. */
module Limits {
  import opened Configs
  import opened Format
  import RoundTrip

  /** The ranges of docs/format.md for a step; the CLI also wants a key and a media code to be set. */
  predicate StepInRange(s: Step) {
    match s
    case Key(keycode, _) => 1 <= keycode
    case Text(text) => 1 <= |text| <= 255
    case Consumer(code) => 1 <= code
    case Delay(ms) => 0 <= ms <= 10000
    case Unknown(_) => false
  }

  predicate BindingInRange(b: Binding) {
    |b.steps| <= 64 && forall s <- b.steps :: StepInRange(s)
  }

  predicate ProfileInRange(p: Profile) {
    && |p.name| <= 16 && 1 <= |p.slots| <= 16
    && 100 <= p.dwellMs <= 10000 && 20 <= p.tapMaxMs <= 2000
    && p.overflow in {0, 1, 2} && p.extCount <= 64 && p.idleMode in {0, 1, 2, 3}
    && BindingInRange(p.tap) && forall b <- p.slots :: BindingInRange(b)
  }

  lemma BindingRange(b: Binding)
    ensures ValidBinding(b) <==> BindingInRange(b)
  {
    if ValidBinding(b) {
      forall s | s in b.steps
        ensures StepInRange(s)
      {
        assert ValidStep(s);
      }
    }
    if BindingInRange(b) {
      forall s | s in b.steps
        ensures ValidStep(s)
      {
        assert StepInRange(s);
      }
    }
  }

  lemma ProfileRange(p: Profile)
    ensures ValidProfile(p) <==> ProfileInRange(p)
  {
    hide ValidBinding, BindingInRange;
    BindingRange(p.tap);
    forall b | b in p.slots
      ensures ValidBinding(b) <==> BindingInRange(b)
    {
      BindingRange(b);
    }
  }

  // ----- what fits the fields

  predicate StepFits(s: Step) {
    !s.Unknown? && (s.Text? ==> |s.text| < 0x100)
  }

  predicate BindingFits(b: Binding) {
    |b.steps| < 0x100 && forall s <- b.steps :: StepFits(s)
  }

  predicate ProfileFits(p: Profile) {
    |p.name| < 0x100 && |p.slots| < 0x100 && BindingFits(p.tap) && forall b <- p.slots :: BindingFits(b)
  }

  lemma BindingFit(b: Binding)
    ensures EncodableBinding(b) <==> BindingFits(b)
  {
    forall s | s in b.steps
      ensures EncodableStep(s) <==> StepFits(s)
    {
    }
  }

  lemma ProfileFit(p: Profile)
    ensures EncodableProfile(p) <==> ProfileFits(p)
  {
    hide EncodableBinding, BindingFits;
    BindingFit(p.tap);
    forall b | b in p.slots
      ensures EncodableBinding(b) <==> BindingFits(b)
    {
      BindingFit(b);
    }
  }

  /** The firmware's encoder raises exactly when a count does not fit its byte, or the whole 4096. */
  lemma EncodableIff(c: Config)
    ensures Encodable(c)
       <==> && 1 <= |c.profiles| <= 8 && 0 <= c.active < |c.profiles|
            && (forall p <- c.profiles :: ProfileFits(p))
            && |Encode(c)| <= 4096
  {
    hide EncodableProfile, ProfileFits, ConfigSize, Encode;
    forall p | p in c.profiles
      ensures EncodableProfile(p) <==> ProfileFits(p)
    {
      ProfileFit(p);
    }
    if forall p <- c.profiles :: EncodableProfile(p) {
      RoundTrip.EncodedSize(c);
    }
  }

  lemma RangeFits(p: Profile)
    requires ProfileInRange(p)
    ensures ProfileFits(p)
  {
    hide StepInRange, StepFits;
    BindingRangeFits(p.tap);
    forall b | b in p.slots
      ensures BindingFits(b)
    {
      BindingRangeFits(b);
    }
  }

  lemma BindingRangeFits(b: Binding)
    requires BindingInRange(b)
    ensures BindingFits(b)
  {
    forall s | s in b.steps
      ensures StepFits(s)
    {
      assert StepInRange(s);
    }
  }

  /**
   The CLI takes exactly the configurations of version 1 within the documented ranges whose encoding
   has at most 4096 bytes.
   */
  lemma ValidIff(c: Config)
    ensures Valid(c)
       <==> && c.version == 1 && 1 <= |c.profiles| <= 8 && 0 <= c.active < |c.profiles|
            && (forall p <- c.profiles :: ProfileInRange(p))
            && |Encode(c)| <= 4096
  {
    hide ValidProfile, ProfileInRange, ProfileFits, EncodableProfile, ConfigSize, Encode;
    forall p | p in c.profiles
      ensures ValidProfile(p) <==> ProfileInRange(p)
      ensures ValidProfile(p) ==> EncodableProfile(p)
    {
      ProfileRange(p);
      if ProfileInRange(p) {
        RangeFits(p);
        ProfileFit(p);
      }
    }
    if forall p <- c.profiles :: ValidProfile(p) {
      RoundTrip.EncodedSize(c);
    }
  }
}
