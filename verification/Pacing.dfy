/** The pace of the blocking graceful shutdown: when each removal starts, given
    how long the work between the clock readings takes. */
module Pacing {
  import opened Sessions

  /** One iteration: the time that passes before its clock reading, and by how
      much a sleep overshoots. */
  datatype Lag = Lag(work: nat, oversleep: nat)

  datatype Pace = Pace(now: Instant, last: Instant, timedOut: bool)

  /** Nanoseconds between removals at `rate` removals a second, in whole
      milliseconds. */
  function Delay(rate: int): int
    requires rate > 0
  {
    1000 / rate * 1_000_000
  }

  function Step(delay: int, timeout: int, start: Instant, p: Pace, lag: Lag): Pace {
    var now := p.now + lag.work;
    if p.timedOut then p.(now := now)
    else if now - p.last >= delay then p.(now := now)
    else if start - now > timeout then Pace(now, p.last, true)
    else
      var awake := now + (delay - (now - p.last)) + lag.oversleep;
      Pace(awake, awake, false)
  }

  /** The pace when removal number `n` starts; 0 stands for the start itself. */
  function After(delay: int, timeout: int, start: Instant, lag: nat -> Lag, n: nat): Pace {
    if n == 0 then Pace(start, start, false)
    else Step(delay, timeout, start, After(delay, timeout, start, lag, n - 1), lag(n - 1))
  }

  /** The instants at which the first `n` removals start. */
  function Removals(delay: int, timeout: int, start: Instant, lag: nat -> Lag, n: nat): seq<Instant> {
    if n == 0 then []
    else Removals(delay, timeout, start, lag, n - 1) + [After(delay, timeout, start, lag, n).now]
  }

  predicate AllFast(delay: int, lag: nat -> Lag, n: nat) {
    forall i: nat :: i < n ==> lag(i).work < delay
  }

  /** The clock never runs back, the emergency branch is never taken, and the
      last sleep ended just now iff every iteration so far was fast. */
  lemma {:induction false} PaceShape(delay: int, timeout: int, start: Instant, lag: nat -> Lag, n: nat)
    requires timeout >= 0 && delay >= 0
    ensures var p := After(delay, timeout, start, lag, n);
            && start <= p.now && !p.timedOut
            && (if AllFast(delay, lag, n) then p.last == p.now else p.now - p.last >= delay)
  {
    if n > 0 {
      PaceShape(delay, timeout, start, lag, n - 1);
      assert AllFast(delay, lag, n) <==> AllFast(delay, lag, n - 1) && lag(n - 1).work < delay;
    }
  }

  /** `startDeletionTime - now` is never positive, so the branch meant to give up
      pacing after the session timeout is dead on every run. */
  lemma {:induction false} NeverTimesOut(delay: int, timeout: int, start: Instant, lag: nat -> Lag, n: nat)
    requires timeout >= 0 && delay >= 0
    ensures !After(delay, timeout, start, lag, n).timedOut
  {
    PaceShape(delay, timeout, start, lag, n);
  }

  /** Time from the previous removal (or the start) to removal `n`. */
  function Gap(delay: int, timeout: int, start: Instant, lag: nat -> Lag, n: nat): int
    requires n > 0
  {
    After(delay, timeout, start, lag, n).now - After(delay, timeout, start, lag, n - 1).now
  }

  /** An iteration sleeps up to the delay while all iterations were fast; after
      the first slow one nothing sleeps any more. */
  lemma GapExactly(delay: int, timeout: int, start: Instant, lag: nat -> Lag, n: nat)
    requires timeout >= 0 && delay >= 0 && n > 0
    ensures Gap(delay, timeout, start, lag, n)
            == if AllFast(delay, lag, n) then delay + lag(n - 1).oversleep else lag(n - 1).work
  {
    PaceShape(delay, timeout, start, lag, n - 1);
    assert AllFast(delay, lag, n) <==> AllFast(delay, lag, n - 1) && lag(n - 1).work < delay;
  }

  /** Every one of the first `n` removals waits its share of a second: the
      configured rate is never exceeded. */
  ghost predicate KeepsRate(rate: int, timeout: int, start: Instant, lag: nat -> Lag, n: nat)
    requires rate > 0
  {
    forall i: nat :: 0 < i <= n ==> Gap(Delay(rate), timeout, start, lag, i) * rate >= SECOND
  }

  /** What iteration `i` makes its removal wait: the delay and the overshoot of the
      sleep while all iterations were fast, only its own work after a slow one. */
  function Wait(rate: int, lag: nat -> Lag, i: nat): int
    requires rate > 0
  {
    if AllFast(Delay(rate), lag, i + 1) then Delay(rate) + lag(i).oversleep else lag(i).work
  }

  /** The wait is at least the rate's share of a second. */
  predicate Enough(rate: int, lag: nat -> Lag, i: nat)
    requires rate > 0
  {
    Wait(rate, lag, i) * rate >= SECOND
  }

  /** The rate is kept iff every wait, read off the lags, is long enough for it. */
  lemma RateKeptExactly(rate: int, timeout: int, start: Instant, lag: nat -> Lag, n: nat)
    requires timeout >= 0 && rate > 0
    ensures KeepsRate(rate, timeout, start, lag, n) <==> forall i: nat :: i < n ==> Enough(rate, lag, i)
  {
    var delay := Delay(rate);
    DelayBounds(rate);
    forall i: nat | 0 < i <= n ensures Gap(delay, timeout, start, lag, i) == Wait(rate, lag, i - 1) {
      GapExactly(delay, timeout, start, lag, i);
    }
    if KeepsRate(rate, timeout, start, lag, n) {
      forall i: nat | i < n ensures Enough(rate, lag, i) {
        assert Gap(delay, timeout, start, lag, i + 1) * rate >= SECOND;
      }
    } else {
      var i: nat :| 0 < i <= n && Gap(delay, timeout, start, lag, i) * rate < SECOND;
      assert !Enough(rate, lag, i - 1);
    }
  }

  /** The whole milliseconds of the delay fall short of the rate's share of a
      second, and make it up exactly for the rates that divide 1000. */
  lemma DelayBounds(rate: int)
    requires rate > 0
    ensures 0 <= Delay(rate) && Delay(rate) * rate <= SECOND
    ensures Delay(rate) * rate == SECOND <==> 1000 % rate == 0
  {
    var q := 1000 / rate;
    assert 1000 == rate * q + 1000 % rate;
    assert Delay(rate) * rate == rate * q * 1_000_000;
  }

  /** No iteration whose work takes less than the delay follows one that took the
      delay or more. */
  ghost predicate NoFastAfterSlow(delay: int, lag: nat -> Lag, n: nat) {
    forall i: nat, j: nat :: i < j < n && lag(i).work >= delay ==> lag(j).work >= delay
  }

  lemma EnoughExactly(wait: int, delay: int, rate: int)
    requires rate > 0 && delay * rate == SECOND
    ensures wait * rate >= SECOND <==> wait >= delay
  {
    assert wait * rate - SECOND == (wait - delay) * rate;
  }

  lemma EnoughMeans(rate: int, lag: nat -> Lag, i: nat)
    requires rate > 0 && 1000 % rate == 0
    ensures Enough(rate, lag, i) <==> AllFast(Delay(rate), lag, i + 1) || lag(i).work >= Delay(rate)
  {
    DelayBounds(rate);
    EnoughExactly(Wait(rate, lag, i), Delay(rate), rate);
  }

  lemma SlowStays(delay: int, lag: nat -> Lag, n: nat)
    ensures (forall i: nat :: i < n ==> AllFast(delay, lag, i + 1) || lag(i).work >= delay)
            <==> NoFastAfterSlow(delay, lag, n)
  {
    if NoFastAfterSlow(delay, lag, n) {
      forall i: nat | i < n && lag(i).work < delay ensures AllFast(delay, lag, i + 1) {
      }
    } else {
      var i: nat, j: nat :| i < j < n && lag(i).work >= delay && lag(j).work < delay;
      assert !AllFast(delay, lag, j + 1);
    }
  }

  /** For a rate that divides 1000: kept iff no fast iteration follows a slow one. */
  lemma DivisorRateKept(rate: int, timeout: int, start: Instant, lag: nat -> Lag, n: nat)
    requires timeout >= 0 && rate > 0 && 1000 % rate == 0
    ensures KeepsRate(rate, timeout, start, lag, n) <==> NoFastAfterSlow(Delay(rate), lag, n)
  {
    RateKeptExactly(rate, timeout, start, lag, n);
    forall i: nat ensures Enough(rate, lag, i) <==> AllFast(Delay(rate), lag, i + 1) || lag(i).work >= Delay(rate) {
      EnoughMeans(rate, lag, i);
    }
    SlowStays(Delay(rate), lag, n);
  }

  /** A configured rate is safe, that is, never exceeded on any lags without a fast
      iteration after a slow one, iff it divides 1000. */
  lemma SafeRatesExactly(rate: int, timeout: int, start: Instant)
    requires timeout >= 0 && rate > 0
    ensures (forall lag: nat -> Lag, n: nat ::
               NoFastAfterSlow(Delay(rate), lag, n) ==> KeepsRate(rate, timeout, start, lag, n))
            <==> 1000 % rate == 0
  {
    if 1000 % rate == 0 {
      forall lag: nat -> Lag, n: nat | NoFastAfterSlow(Delay(rate), lag, n)
        ensures KeepsRate(rate, timeout, start, lag, n)
      {
        DivisorRateKept(rate, timeout, start, lag, n);
      }
    } else {
      var still := (i: nat) => Lag(0, 0);
      DelayBounds(rate);
      GapExactly(Delay(rate), timeout, start, still, 1);
      assert NoFastAfterSlow(Delay(rate), still, 1);
      assert Gap(Delay(rate), timeout, start, still, 1) == Delay(rate);
      assert !KeepsRate(rate, timeout, start, still, 1);
    }
  }

  /** A run at 10 removals a second that breaks the rate: after one iteration of
      100 ms the next removal follows at once. */
  lemma RateBroken(start: Instant)
    ensures var lag := (i: nat) => Lag(if i == 0 then 100_000_000 else 0, 0);
            Delay(10) == 100_000_000 && Gap(Delay(10), 30 * SECOND, start, lag, 2) == 0
  {
    var lag := (i: nat) => Lag(if i == 0 then 100_000_000 else 0, 0);
    GapExactly(Delay(10), 30 * SECOND, start, lag, 2);
    assert lag(0).work == 100_000_000;
  }

  /** Without any lag the first `n` removals take exactly `n` delays. */
  lemma {:induction false} IdlePace(rate: int, timeout: int, start: Instant, n: nat)
    requires timeout >= 0 && rate > 0
    ensures After(Delay(rate), timeout, start, (i: nat) => Lag(0, 0), n).now == start + n * Delay(rate)
  {
    var still := (i: nat) => Lag(0, 0);
    DelayBounds(rate);
    if n > 0 {
      IdlePace(rate, timeout, start, n - 1);
      GapExactly(Delay(rate), timeout, start, still, n);
      if Delay(rate) == 0 { assert still(n - 1).work == 0; }
    }
  }

  /** So a rate of 600 lets 1000 sessions go within a second, and 2000 lets any
      number go at once. */
  lemma RateExceeded(timeout: int, start: Instant, n: nat)
    requires timeout >= 0
    ensures var still := (i: nat) => Lag(0, 0);
            && After(Delay(600), timeout, start, still, 1000).now == start + SECOND
            && After(Delay(2000), timeout, start, still, n).now == start
  {
    IdlePace(600, timeout, start, 1000);
    IdlePace(2000, timeout, start, n);
    assert Delay(600) == 1_000_000 && Delay(2000) == 0;
  }

  /** While the work of every iteration takes less than the delay, removal `n`
      starts no earlier than `n` delays after the start. */
  lemma {:induction false} PacedFromStart(delay: int, timeout: int, start: Instant, lag: nat -> Lag, n: nat)
    requires timeout >= 0 && AllFast(delay, lag, n) && delay >= 0
    ensures After(delay, timeout, start, lag, n).now >= start + n * delay
  {
    if n > 0 {
      PacedFromStart(delay, timeout, start, lag, n - 1);
      GapExactly(delay, timeout, start, lag, n);
    }
  }

  /** Each removal starts after its pause: removal `i` as long after the one before it
      as the gap of iteration `i + 1` says. */
  lemma {:induction false} RemovalsFollowGaps(delay: int, timeout: int, start: Instant, lag: nat -> Lag, n: nat, i: nat)
    requires i < n
    ensures var rs := Removals(delay, timeout, start, lag, n);
            && |rs| == n && |Removals(delay, timeout, start, lag, n - 1)| == n - 1
            && rs[i] == (if i == 0 then start else rs[i - 1]) + Gap(delay, timeout, start, lag, i + 1)
  {
    if n > 1 {
      RemovalsFollowGaps(delay, timeout, start, lag, n - 1, if i < n - 1 then i else n - 2);
      RemovalsLast(delay, timeout, start, lag, n - 1);
    }
  }

  lemma RemovalsLast(delay: int, timeout: int, start: Instant, lag: nat -> Lag, n: nat)
    requires n > 0 && |Removals(delay, timeout, start, lag, n - 1)| == n - 1
    ensures Removals(delay, timeout, start, lag, n)[n - 1] == After(delay, timeout, start, lag, n).now
  {
  }
}
