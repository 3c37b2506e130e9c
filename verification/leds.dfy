/** LED rendering: what each frame writes, and the startup self-test. */
module Leds {
  import opened Arithmetic
  import opened Bytes
  import opened Configs
  import opened Ticks

  const BOOT_FADE_FROM := 75
  const BOOT_MIN_BRIGHTNESS := 48
  const BREATHE_PERIOD_MS := 3000
  const BREATHE_FLOOR := 38

  /** The red-green-blue colour wheel. */
  function Wheel(pos: nat): Rgb
    requires pos < 256
  {
    if pos < 85 then Rgb(255 - pos * 3, pos * 3, 0)
    else if pos < 170 then Rgb(0, 255 - (pos - 85) * 3, (pos - 85) * 3)
    else Rgb((pos - 170) * 3, 0, 255 - (pos - 170) * 3)
  }

  function Scaled(channel: nat, brightness: nat, extra: nat): (c: nat)
    requires channel <= 255 && brightness <= 255 && extra <= 255
    ensures c <= 255
  {
    ScaledBound(channel, brightness);
    ScaledBound(channel * brightness / 255, extra);
    channel * brightness / 255 * extra / 255
  }

  lemma ScaledBound(a: nat, b: nat)
    requires a <= 255 && b <= 255
    ensures a * b / 255 <= 255
  {
    ProductBound(a, b, 255);
    assert 255 * 255 / 255 == 255;
  }

  lemma ProductBound(a: nat, b: nat, m: nat)
    requires a <= m && b <= m
    ensures a * b <= m * m
  {
    MulAtLeast(m, a, b);
    MulAtLeast(m, b, m);
  }

  function Scale(c: Rgb, brightness: Byte, extra: Byte): Rgb {
    Rgb(Scaled(c.r, brightness, extra), Scaled(c.g, brightness, extra), Scaled(c.b, brightness, extra))
  }

  /** A triangle wave between the floor and 255. */
  function Breathe(now: nat): (level: nat)
    ensures BREATHE_FLOOR <= level <= 255
  {
    var phase := now % BREATHE_PERIOD_MS;
    var tri := if phase < 1500 then phase else BREATHE_PERIOD_MS - phase;
    BREATHE_FLOOR + 217 * tri / 1500
  }

  /** Scaling only dims, each channel by itself, and full brightness changes nothing. */
  lemma ScaleDims(c: Rgb, brightness: Byte, extra: Byte)
    ensures Scale(c, 255, 255) == c && Scale(c, 0, extra) == Rgb(0, 0, 0)
    ensures
      var s := Scale(c, brightness, extra);
      s.r <= c.r && s.g <= c.g && s.b <= c.b
  {
    ScaledDims(c.r, brightness, extra);
    ScaledDims(c.g, brightness, extra);
    ScaledDims(c.b, brightness, extra);
  }

  lemma ScaledDims(channel: nat, brightness: nat, extra: nat)
    requires channel <= 255 && brightness <= 255 && extra <= 255
    ensures Scaled(channel, 255, 255) == channel && Scaled(channel, 0, extra) == 0
    ensures Scaled(channel, brightness, extra) <= channel
  {
    FractionAtMost(channel, brightness);
    FractionAtMost(channel * brightness / 255, extra);
    assert channel * 255 / 255 == channel;
  }

  lemma FractionAtMost(a: nat, b: nat)
    requires b <= 255
    ensures 0 <= a * b / 255 <= a
  {
    MulAtLeast(255, b, a);
    QuotientMono(a * b, a * 255, 255);
    assert a * 255 / 255 == a;
  }

  /** The wheel keeps its light constant and closes: one step on moves no channel by more than 3. */
  lemma WheelIsSmooth(pos: nat)
    requires pos < 256
    ensures
      var c, next := Wheel(pos), Wheel(if pos == 255 then 0 else pos + 1);
      && c.r + c.g + c.b == 255
      && -3 <= next.r - c.r <= 3 && -3 <= next.g - c.g <= 3 && -3 <= next.b - c.b <= 3
  {
  }

  /** The three corners of the wheel; with the smooth way between them they fix it. */
  lemma WheelCorners()
    ensures Wheel(0) == Rgb(255, 0, 0) && Wheel(85) == Rgb(0, 255, 0) && Wheel(170) == Rgb(0, 0, 255)
  {
  }

  /** Breathing repeats every period and is even about its half: up, then down the same way. */
  lemma BreatheRepeats(now: nat, k: nat)
    requires k <= 1500
    ensures Breathe(now + 3000) == Breathe(now)
    ensures Breathe(1500 + k) == Breathe(1500 - k)
    ensures Breathe(0) == 38 && Breathe(1500) == 255
  {
    hide Breathe;
    BreatheAgain(now);
    BreatheEven(k);
    BreatheEnds();
  }

  lemma BreatheAgain(now: nat)
    ensures Breathe(now + 3000) == Breathe(now)
  {
    assert (now + 3000) % 3000 == now % 3000;
  }

  lemma BreatheEven(k: nat)
    requires k <= 1500
    ensures Breathe(1500 + k) == Breathe(1500 - k)
  {
  }

  lemma BreatheEnds()
    ensures Breathe(0) == 38 && Breathe(1500) == 255
  {
  }

  /**
   On the board's counter, whose period is not a multiple of 3000 ms: a breath later the light is
   the same, unless the counter wrapped in between, which sets the breath 88 ms ahead.
   */
  lemma BreatheOnTicks(epoch: int, t: int)
    ensures Tick(epoch, t) >= 0 && Tick(epoch, t + BREATHE_PERIOD_MS) >= 0
    ensures
      var now: nat := Tick(epoch, t);
      Breathe(Tick(epoch, t + BREATHE_PERIOD_MS))
      == if now + BREATHE_PERIOD_MS < PERIOD then Breathe(now) else Breathe(now + 88)
  {
    var now := Tick(epoch, t);
    WholePeriods(now + BREATHE_PERIOD_MS, (epoch + t) / PERIOD);
    assert epoch + t == now + (epoch + t) / PERIOD * PERIOD;
    SamePhase(now, Tick(epoch, t + BREATHE_PERIOD_MS));
  }

  lemma SamePhase(now: nat, later: nat)
    requires later == (now + BREATHE_PERIOD_MS) % PERIOD && now < PERIOD
    ensures Breathe(later) == if now + BREATHE_PERIOD_MS < PERIOD then Breathe(now) else Breathe(now + 88)
  {
    hide Breathe;
    if now + BREATHE_PERIOD_MS < PERIOD {
      BreatheByPhase(later, now, 1);
    } else {
      assert later == now + 3000 - PERIOD;
      BreatheByPhase(now + 88, later, 178956);
    }
  }

  lemma BreatheByPhase(a: nat, b: nat, k: int)
    requires a == b + k * BREATHE_PERIOD_MS
    ensures Breathe(a) == Breathe(b)
  {
    var q, r := b / BREATHE_PERIOD_MS, b % BREATHE_PERIOD_MS;
    assert a == (q + k) * BREATHE_PERIOD_MS + r;
    assert a % BREATHE_PERIOD_MS == r;
  }

  /** What a frame shows: one colour everywhere, or the wheel spread over the pixels. */
  datatype Look = Solid(color: Rgb) | Spread(step: nat, brightness: Byte, envelope: Byte)

  function OnboardColor(look: Look): Rgb {
    match look
    case Solid(c) => c
    case Spread(step, brightness, envelope) => Scale(Wheel(step % 256), brightness, envelope)
  }

  function PixelColor(look: Look, i: nat, count: nat): Rgb
    requires count > 0
  {
    match look
    case Solid(c) => c
    case Spread(step, brightness, envelope) =>
      Scale(Wheel((step + i * (256 / count)) % 256), brightness, envelope)
  }

  class LedEngine {
    const maxExt: nat
    const onboard: array<Byte>
    const ext: array<Byte>
    var profile: Profile
    var extCount: nat
    var hold: Option<Rgb>
    var flash: Option<Rgb>
    var flashUntil: int

    ghost predicate Valid()
      reads this
    {
      onboard.Length == 3 && ext.Length == 3 * maxExt && extCount <= maxExt && onboard != ext
    }

    constructor (profile: Profile, maxExt: nat)
      ensures Valid() && this.profile == profile && this.maxExt == maxExt && hold == None && flash == None
      ensures extCount == if profile.extCount < maxExt then profile.extCount else maxExt
      ensures fresh(onboard) && fresh(ext)
    {
      this.maxExt := maxExt;
      onboard := new Byte[3](i => 0);
      ext := new Byte[3 * maxExt](i => 0);
      this.profile := profile;
      extCount := if profile.extCount < maxExt then profile.extCount else maxExt;
      hold, flash, flashUntil := None, None, 0;
    }

    method SetProfile(p: Profile)
      requires Valid()
      modifies this
      ensures Valid() && profile == p && hold == None && flash == None
      ensures extCount == if p.extCount < maxExt then p.extCount else maxExt
    {
      profile := p;
      extCount := if p.extCount < maxExt then p.extCount else maxExt;
      hold, flash := None, None;
    }

    /** The colour a hold is showing, or none to return to idle. */
    method SetHold(color: Option<Rgb>)
      modifies this`hold
      ensures hold == color
    {
      hold := color;
    }

    /** Override everything for a while; the end is not wrapped into the tick range. */
    method Flash(color: Rgb, now: int, durationMs: nat)
      modifies this`flash, this`flashUntil
      ensures flash == Some(color) && flashUntil == now + durationMs
    {
      flash := Some(color);
      flashUntil := now + durationMs;
    }

    /** The onboard pixel and the configured pixels show the look. */
    ghost predicate Shows(look: Look)
      requires Valid()
      reads this, onboard, ext
    {
      && Rgb(onboard[0], onboard[1], onboard[2]) == OnboardColor(look)
      && forall i :: 0 <= i < extCount ==> Pixel(i) == PixelColor(look, i, extCount)
    }

    ghost function Pixel(i: nat): Rgb
      requires Valid() && i < maxExt
      reads this, ext
    {
      Rgb(ext[3 * i], ext[3 * i + 1], ext[3 * i + 2])
    }

    /** The two painting loops of the source, one colour or the wheel. */
    method Paint(look: Look)
      requires Valid()
      modifies onboard, ext
      ensures Shows(look)
      ensures forall k :: 3 * extCount <= k < ext.Length ==> ext[k] == old(ext[k])
    {
      hide Scale, Wheel;
      var c := OnboardColor(look);
      onboard[0], onboard[1], onboard[2] := c.r, c.g, c.b;
      for i := 0 to extCount
        invariant Rgb(onboard[0], onboard[1], onboard[2]) == c
        invariant forall j :: 0 <= j < i ==> Pixel(j) == PixelColor(look, j, extCount)
        invariant forall k :: 3 * extCount <= k < ext.Length ==> ext[k] == old(ext[k])
      {
        var p := PixelColor(look, i, extCount);
        ext[3 * i] := p.r;
        ext[3 * i + 1] := p.g;
        ext[3 * i + 2] := p.b;
      }
    }

    /** Flash over hold over the idle animation. */
    function Look(now: nat): Look
      reads this
    {
      if flash.Some? && Diff(flashUntil, now) > 0 then Solid(Scale(flash.value, profile.brightness, 255))
      else if hold.Some? then Solid(Scale(hold.value, profile.brightness, 255))
      else if profile.idleMode == 0 then Solid(Rgb(0, 0, 0))
      else if profile.idleMode == 1 then Solid(Scale(profile.idleColor, profile.brightness, 255))
      else if profile.idleMode == 2 then Solid(Scale(profile.idleColor, profile.brightness, Breathe(now)))
      else Spread(now / 8, profile.brightness, 255)
    }

    method Render(now: nat)
      requires Valid()
      modifies this`flash, onboard, ext
      ensures Valid() && Shows(old(Look(now)))
      ensures forall k :: 3 * extCount <= k < ext.Length ==> ext[k] == old(ext[k])
      ensures flash == if old(flash).Some? && Diff(flashUntil, now) > 0 then old(flash) else None
    {
      hide Scale, Breathe, Diff;
      if flash.Some? {
        if Diff(flashUntil, now) > 0 {
          Paint(Solid(Scale(flash.value, profile.brightness, 255)));
          return;
        }
        flash := None;
      }
      Paint(Look(now));
    }

    /** One frame of the startup sweep; false once it is over, with nothing written. */
    method BootFrame(elapsed: int, duration: int) returns (running: bool)
      requires Valid()
      modifies onboard, ext
      ensures running == (0 < duration && elapsed < duration)
      ensures running ==> Shows(BootLook(elapsed, duration, profile.brightness))
      ensures !running ==> onboard[..] == old(onboard[..]) && ext[..] == old(ext[..])
      ensures forall k :: 3 * extCount <= k < ext.Length ==> ext[k] == old(ext[k])
    {
      hide Scale, BootLook;
      if duration <= 0 || elapsed >= duration {
        return false;
      }
      Paint(BootLook(elapsed, duration, profile.brightness));
      return true;
    }
  }

  /** A flash of `ms` is on show for exactly `ms` true milliseconds, at any boot epoch. */
  lemma FlashLasts(epoch: int, t: int, ms: nat, d: nat)
    requires ms < HALF && d <= HALF
    ensures Diff(Tick(epoch, t) + ms, Tick(epoch, t + d)) > 0 <==> d < ms
  {
    SameDiff(Tick(epoch, t) + ms, Tick(epoch, t + d), (epoch + t + d) / PERIOD - (epoch + t) / PERIOD, ms - d);
  }

  lemma SameDiff(later: int, earlier: int, k: int, d: int)
    requires later - earlier == d + k * PERIOD
    ensures Diff(later, earlier) == (d + HALF) % PERIOD - HALF
  {
    WholePeriods(d, k);
    WholePeriods(d % PERIOD + HALF, d / PERIOD);
  }

  /** The sweep's brightness at a moment: full until the fade begins, then down in proportion. */
  function Envelope(elapsed: nat, duration: nat): int
    requires elapsed < duration
  {
    var fadeFrom := duration * BOOT_FADE_FROM / 100;
    if elapsed < fadeFrom then 255 else 255 - 255 * (elapsed - fadeFrom) / (duration - fadeFrom)
  }

  function BootLook(elapsed: int, duration: int, brightness: Byte): Look
    requires 0 < duration && elapsed < duration
  {
    var t: nat := if elapsed < 0 then 0 else elapsed;
    EnvelopeInRange(t, duration);
    Spread(256 * t / duration, if brightness < BOOT_MIN_BRIGHTNESS then BOOT_MIN_BRIGHTNESS else brightness,
           Envelope(t, duration))
  }

  /** The sweep is never quite dark. */
  lemma EnvelopeInRange(elapsed: nat, duration: nat)
    requires elapsed < duration
    ensures 1 <= Envelope(elapsed, duration) <= 255
  {
    var f := duration * BOOT_FADE_FROM / 100;
    if elapsed >= f {
      QuotientBelow(255 * (elapsed - f), 255, duration - f);
    }
  }

  /** And never brightens again. */
  lemma EnvelopeFalls(a: nat, b: nat, duration: nat)
    requires a <= b < duration
    ensures Envelope(a, duration) >= Envelope(b, duration)
  {
    var f := duration * BOOT_FADE_FROM / 100;
    EnvelopeInRange(b, duration);
    if a >= f {
      QuotientMono(255 * (a - f), 255 * (b - f), duration - f);
    }
  }

  /** Before the fade, which takes the last quarter, every pixel, onboard or configured, has a channel
      that is lit, at any profile brightness and for any length of chain and sweep. */
  lemma SelfTestLights(elapsed: int, duration: int, brightness: Byte, i: nat, count: nat)
    requires 0 < duration && elapsed < duration * 75 / 100 && count > 0
    ensures elapsed < duration
    ensures
      var look := BootLook(elapsed, duration, brightness);
      && look.envelope == 255 && look.brightness == (if brightness < 48 then 48 else brightness)
      && OnboardColor(look) != Rgb(0, 0, 0) && PixelColor(look, i, count) != Rgb(0, 0, 0)
  {
    hide Scale, Wheel;
    var look := BootLook(elapsed, duration, brightness);
    WheelLights(look.step % 256, look.brightness);
    WheelLights((look.step + i * (256 / count)) % 256, look.brightness);
  }

  lemma WheelLights(pos: nat, brightness: Byte)
    requires pos < 256 && brightness >= BOOT_MIN_BRIGHTNESS
    ensures Scale(Wheel(pos), brightness, 255) != Rgb(0, 0, 0)
  {
    hide Scaled;
    var c := Wheel(pos);
    if c.r >= 127 {
      LitChannel(c.r, brightness);
    } else if c.g >= 127 {
      LitChannel(c.g, brightness);
    } else {
      LitChannel(c.b, brightness);
    }
  }

  lemma LitChannel(channel: nat, brightness: nat)
    requires 127 <= channel <= 255 && BOOT_MIN_BRIGHTNESS <= brightness <= 255
    ensures Scaled(channel, brightness, 255) > 0
  {
    MulAtLeast(channel, 127, brightness);
    MulAtLeast(brightness, 48, 127);
    assert channel * brightness >= 127 * 48;
    QuotientMono(127 * 48, channel * brightness, 255);
    assert 127 * 48 / 255 == 23;
    var q := channel * brightness / 255;
    assert q * 255 / 255 == q;
  }

  /** Scaling takes two proportions in turn, each rounded down. */
  lemma ScaledInProportion(channel: nat, brightness: nat, extra: nat, half: nat)
    requires channel <= 255 && brightness <= 255 && extra <= 255
    requires 255 * half <= channel * brightness < 255 * half + 255
    ensures 255 * Scaled(channel, brightness, extra) <= half * extra < 255 * Scaled(channel, brightness, extra) + 255
  {
    hide Scaled;
    assert channel * brightness / 255 == half;
    ScaledIs(channel, brightness, extra);
  }

  lemma ScaledIs(channel: nat, brightness: nat, extra: nat)
    requires channel <= 255 && brightness <= 255 && extra <= 255
    ensures Scaled(channel, brightness, extra) == channel * brightness / 255 * extra / 255
  {
  }

  /** Breathing rises evenly. */
  lemma BreatheRises(k: nat)
    requires k <= 1500
    ensures 1500 * (Breathe(k) - 38) <= 217 * k < 1500 * (Breathe(k) - 38) + 1500
  {
    assert k % 3000 == k;
  }

  /** The sweep goes round the wheel once, evenly. */
  lemma SweepTurnsOnce(elapsed: nat, duration: nat, brightness: Byte)
    requires elapsed < duration
    ensures
      var step := BootLook(elapsed, duration, brightness).step;
      duration * step <= 256 * elapsed < duration * step + duration && step < 256
  {
    QuotientNat(256 * elapsed, duration);
    QuotientBelow(256 * elapsed, 256, duration);
    DivideBack(256 * elapsed, duration);
  }

  lemma DivideBack(x: nat, d: nat)
    requires d > 0
    ensures d * (x / d) <= x < d * (x / d) + d
  {
    assert x == d * (x / d) + x % d;
  }

  /** Over its last quarter it fades evenly from 255. */
  lemma FadesEvenly(elapsed: nat, duration: nat)
    requires duration * 75 / 100 <= elapsed < duration
    ensures
      var from := duration * 75 / 100;
      var lost := 255 - Envelope(elapsed, duration);
      (duration - from) * lost <= 255 * (elapsed - from) < (duration - from) * lost + (duration - from)
  {
    var from := duration * 75 / 100;
    DivideBack(255 * (elapsed - from), duration - from);
  }

  /** Neighbouring pixels are the same number of steps apart, so that all of them span the wheel once. */
  lemma RainbowSpans(look: Look, count: nat, apart: nat, i: nat)
    requires look.Spread? && count * apart <= 256 < count * apart + count
    ensures PixelColor(look, i, count) == OnboardColor(look.(step := look.step + i * apart))
  {
    hide Scale, Wheel;
    QuotientIs(256, count, apart);
  }

  lemma QuotientIs(x: nat, d: nat, q: nat)
    requires d * q <= x < d * q + d
    ensures x / d == q
  {
    DivModUnique(x, d, q, x - d * q);
  }

  /** In true time: a flash shows over anything else while it lasts, and after it a hold shows again. */
  lemma FlashThenHold(led: LedEngine, color: Rgb, epoch: int, t: int, ms: nat, d: nat)
    requires ms < 0x1000_0000 && d <= 0x1000_0000
    requires led.flash == Some(color) && led.flashUntil == Tick(epoch, t) + ms
    ensures Tick(epoch, t + d) >= 0
    ensures
      var look, p := led.Look(Tick(epoch, t + d)), led.profile;
      && (d < ms ==> look == Solid(Scale(color, p.brightness, 255)))
      && (d >= ms && led.hold.Some? ==> look == Solid(Scale(led.hold.value, p.brightness, 255)))
  {
    hide Scale, Breathe, Diff, Tick;
    FlashLasts(epoch, t, ms, d);
    TickIsNatural(epoch, t + d);
  }

  lemma TickIsNatural(epoch: int, t: int)
    ensures 0 <= Tick(epoch, t) < 0x2000_0000
  {
  }

  /** The rainbow starts on the onboard pixel, and is back where it was after 2048 ms. */
  lemma RainbowTurns(now: nat, brightness: Byte, i: nat, count: nat)
    requires count > 0
    ensures
      var look, later := Spread(now / 8, brightness, 255), Spread((now + 2048) / 8, brightness, 255);
      && PixelColor(look, 0, count) == OnboardColor(look) == Scale(Wheel(now / 8 % 256), brightness, 255)
      && OnboardColor(later) == OnboardColor(look) && PixelColor(later, i, count) == PixelColor(look, i, count)
  {
    hide Scale, Wheel;
    var step, spread := now / 8, i * (256 / count);
    assert (now + 2048) / 8 == step + 256;
    assert (step + 256) % 256 == step % 256;
    assert (step + 256 + spread) % 256 == (step + spread) % 256;
    assert 0 * (256 / count) == 0;
  }
}
