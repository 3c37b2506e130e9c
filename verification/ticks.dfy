/** Wrap-around millisecond time. */
module Ticks {

  const PERIOD := 0x2000_0000
  const HALF := 0x1000_0000

  /** `later - earlier` on the circle, in `-HALF .. HALF - 1`. */
  function Diff(later: int, earlier: int): (d: int)
    ensures -HALF <= d < HALF
  {
    ((later - earlier) % PERIOD + HALF) % PERIOD - HALF
  }

  function Elapsed(now: int, since: int): nat {
    if Diff(now, since) > 0 then Diff(now, since) else 0
  }

  /** The tick counter at true time `t` of a board whose counter read `epoch` at time 0. */
  function Tick(epoch: int, t: int): int {
    (epoch + t) % PERIOD
  }

  /** The counter counts milliseconds and starts again after 2^29 - 1. */
  lemma CounterWraps(epoch: int, t: int)
    ensures Tick(epoch, t + 1) == if Tick(epoch, t) == 0x1FFF_FFFF then 0 else Tick(epoch, t) + 1
    ensures 0 <= Tick(epoch, t) <= 0x1FFF_FFFF
  {
  }

  /** The difference of two readings is the true difference, folded into half a period. */
  lemma DiffOfTicks(epoch: int, t: int, d: int)
    ensures Diff(Tick(epoch, t + d), Tick(epoch, t)) == (d + HALF) % PERIOD - HALF
  {
    var x, y := epoch + t + d, epoch + t;
    var k := y / PERIOD - x / PERIOD;
    assert Tick(epoch, t + d) - Tick(epoch, t) == d + k * PERIOD by {
      assert x == x / PERIOD * PERIOD + x % PERIOD;
      assert y == y / PERIOD * PERIOD + y % PERIOD;
    }
    WholePeriods(d, k);
    WholePeriods(d % PERIOD + HALF, d / PERIOD);
  }

  lemma WholePeriods(d: int, k: int)
    ensures (d + k * PERIOD) % PERIOD == d % PERIOD
  {
    var q, r := d / PERIOD, d % PERIOD;
    assert d + k * PERIOD == (q + k) * PERIOD + r;
  }

  /** Within half a period the counter measures true time, wherever it wraps. */
  lemma ElapsedIsTrueTime(epoch: int, t: int, d: nat)
    requires d < HALF
    ensures Diff(Tick(epoch, t + d), Tick(epoch, t)) == d
    ensures Elapsed(Tick(epoch, t + d), Tick(epoch, t)) == d
  {
    DiffOfTicks(epoch, t, d);
  }

  /** What the fold does: the lower half of a period stays, the upper half turns negative. */
  lemma Fold(d: int)
    ensures (d + HALF) % PERIOD - HALF == if d % PERIOD < HALF then d % PERIOD else d % PERIOD - PERIOD
  {
    var q, r := d / PERIOD, d % PERIOD;
    assert d == q * PERIOD + r;
    WholePeriods(r + HALF, q);
    assert d + HALF == r + HALF + q * PERIOD;
  }

  /** The time the counter sees go by, for any true time, however long. */
  lemma ElapsedFolded(epoch: int, t: int, d: int)
    ensures Elapsed(Tick(epoch, t + d), Tick(epoch, t)) == if d % PERIOD < HALF then d % PERIOD else 0
  {
    hide Diff, Tick;
    DiffOfTicks(epoch, t, d);
    Fold(d);
  }
}
