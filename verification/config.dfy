/** The configuration, its limits, and the size and validity checks the CLI makes of it. */
module Configs {
  import opened Bytes

  const NVM_SIZE := 4096
  const FORMAT_VERSION: Byte := 1
  const MAX_PROFILES := 8
  const MAX_NAME_LEN := 16
  const MAX_SLOTS := 16
  const MAX_STEPS := 64
  const MAX_TEXT_LEN := 255
  const HEADER_BASE := 10
  const CRC_TRAILER := 2
  const WRAP: Byte := 0
  const WRAP_CANCEL: Byte := 1
  const CLAMP: Byte := 2
  const RAINBOW: Byte := 3

  datatype Rgb = Rgb(r: Byte, g: Byte, b: Byte)

  /** One action. `Unknown` is a type tag outside the four the format defines. */
  datatype Step =
    | Key(keycode: Byte, mods: Byte)
    | Text(text: seq<Byte>)
    | Consumer(code: U16)
    | Delay(ms: U16)
    | Unknown(tag: Byte)

  datatype Binding = Binding(color: Rgb, steps: seq<Step>)

  datatype Profile = Profile(
    name: seq<Byte>, dwellMs: U16, tapMaxMs: U16, overflow: Byte, extCount: Byte, brightness: Byte,
    idleMode: Byte, idleColor: Rgb, tap: Binding, slots: seq<Binding>)

  /** `active` is an unbounded integer because the firmware's field is one. */
  datatype Config = Config(version: Byte, active: int, profiles: seq<Profile>)

  // ----- encoded size

  function StepSize(s: Step): nat {
    match s
    case Key(_, _) => 3
    case Text(text) => 2 + |text|
    case Consumer(_) => 3
    case Delay(_) => 3
    case Unknown(_) => 0
  }

  function StepsSize(steps: seq<Step>): nat {
    if steps == [] then 0 else StepsSize(steps[..|steps| - 1]) + StepSize(steps[|steps| - 1])
  }

  function BindingSize(b: Binding): nat {
    4 + StepsSize(b.steps)
  }

  function BindingsSize(bs: seq<Binding>): nat {
    if bs == [] then 0 else BindingsSize(bs[..|bs| - 1]) + BindingSize(bs[|bs| - 1])
  }

  function ProfileSize(p: Profile): nat {
    13 + |p.name| + BindingSize(p.tap) + BindingsSize(p.slots)
  }

  function ProfilesSize(ps: seq<Profile>): nat {
    if ps == [] then 0 else ProfilesSize(ps[..|ps| - 1]) + ProfileSize(ps[|ps| - 1])
  }

  function ConfigSize(c: Config): nat {
    HEADER_BASE + 2 * |c.profiles| + CRC_TRAILER + ProfilesSize(c.profiles)
  }

  method BindingEncodedSize(b: Binding) returns (n: nat)
    ensures n == BindingSize(b)
  {
    n := 4;
    for i := 0 to |b.steps|
      invariant n == 4 + StepsSize(b.steps[..i])
    {
      n := n + StepSize(b.steps[i]);
      assert b.steps[..i + 1][..i] == b.steps[..i];
    }
    assert b.steps[..|b.steps|] == b.steps;
  }

  method ProfileEncodedSize(p: Profile) returns (n: nat)
    ensures n == ProfileSize(p)
  {
    n := 1 + |p.name| + 2 + 2 + 1 + 1 + 1 + 1 + 3 + 1;
    var tap := BindingEncodedSize(p.tap);
    n := n + tap;
    for i := 0 to |p.slots|
      invariant n == 13 + |p.name| + BindingSize(p.tap) + BindingsSize(p.slots[..i])
    {
      var slot := BindingEncodedSize(p.slots[i]);
      n := n + slot;
      assert p.slots[..i + 1][..i] == p.slots[..i];
    }
    assert p.slots[..|p.slots|] == p.slots;
  }

  method ConfigEncodedSize(c: Config) returns (n: nat)
    ensures n == ConfigSize(c)
  {
    n := HEADER_BASE + 2 * |c.profiles| + CRC_TRAILER;
    for i := 0 to |c.profiles|
      invariant n == HEADER_BASE + 2 * |c.profiles| + CRC_TRAILER + ProfilesSize(c.profiles[..i])
    {
      var size := ProfileEncodedSize(c.profiles[i]);
      n := n + size;
      assert c.profiles[..i + 1][..i] == c.profiles[..i];
    }
    assert c.profiles[..|c.profiles|] == c.profiles;
  }

  // ----- validity

  predicate ValidStep(s: Step) {
    match s
    case Key(keycode, _) => keycode != 0
    case Text(text) => 1 <= |text| <= MAX_TEXT_LEN
    case Consumer(code) => code != 0
    case Delay(ms) => ms <= 10000
    case Unknown(_) => false
  }

  predicate ValidBinding(b: Binding) {
    |b.steps| <= MAX_STEPS && forall s <- b.steps :: ValidStep(s)
  }

  predicate ValidProfile(p: Profile) {
    && |p.name| <= MAX_NAME_LEN
    && 100 <= p.dwellMs <= 10000
    && 20 <= p.tapMaxMs <= 2000
    && p.overflow <= CLAMP
    && p.extCount <= 64
    && p.idleMode <= RAINBOW
    && 1 <= |p.slots| <= MAX_SLOTS
    && ValidBinding(p.tap)
    && forall b <- p.slots :: ValidBinding(b)
  }

  /** What the CLI accepts; `active` is a byte there, so it is never negative. */
  predicate Valid(c: Config) {
    && c.version == FORMAT_VERSION
    && 1 <= |c.profiles| <= MAX_PROFILES
    && 0 <= c.active < |c.profiles|
    && (forall p <- c.profiles :: ValidProfile(p))
    && ConfigSize(c) <= NVM_SIZE
  }

  method ValidateBinding(b: Binding) returns (ok: bool)
    ensures ok == ValidBinding(b)
  {
    if |b.steps| > MAX_STEPS {
      return false;
    }
    for i := 0 to |b.steps|
      invariant forall s <- b.steps[..i] :: ValidStep(s)
    {
      if !ValidStep(b.steps[i]) {
        return false;
      }
    }
    return true;
  }

  method ValidateProfile(p: Profile) returns (ok: bool)
    ensures ok == ValidProfile(p)
  {
    if |p.name| > MAX_NAME_LEN || p.dwellMs < 100 || p.dwellMs > 10000 || p.tapMaxMs < 20 || p.tapMaxMs > 2000 {
      return false;
    }
    if p.overflow > CLAMP || p.extCount > 64 || p.idleMode > RAINBOW {
      return false;
    }
    if |p.slots| < 1 || |p.slots| > MAX_SLOTS {
      return false;
    }
    ok := ValidateBinding(p.tap);
    if !ok {
      return;
    }
    for i := 0 to |p.slots|
      invariant forall b <- p.slots[..i] :: ValidBinding(b)
    {
      ok := ValidateBinding(p.slots[i]);
      if !ok {
        return;
      }
    }
    return true;
  }

  method Validate(c: Config) returns (ok: bool)
    requires 0 <= c.active
    ensures ok == Valid(c)
  {
    if c.version != FORMAT_VERSION || |c.profiles| < 1 || |c.profiles| > MAX_PROFILES {
      return false;
    }
    if c.active >= |c.profiles| {
      return false;
    }
    for i := 0 to |c.profiles|
      invariant forall p <- c.profiles[..i] :: ValidProfile(p)
    {
      ok := ValidateProfile(c.profiles[i]);
      if !ok {
        return;
      }
    }
    var n := ConfigEncodedSize(c);
    return n <= NVM_SIZE;
  }
}
