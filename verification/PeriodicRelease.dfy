/** Release times of a periodic registration (continue_registration and activate_registration in
    include/solar/execution/runtime.hpp, to_ticks_ceil in include/solar/kernel/time.hpp).

    Ticks are unbounded integers; the clock is an input.
 */
module PeriodicRelease {

  const NANOSECONDS: nat := 1_000_000_000
  const TICK_MAX: nat := 0x7fff_ffff_ffff_ffff

  /** to_ticks_ceil: rounded up, clamped to the largest tick. */
  function TicksCeil(nanoseconds: int, hertz: nat): nat
  {
    if nanoseconds <= 0 then 0
    else
      var ticks := (nanoseconds * hertz + NANOSECONDS - 1) / NANOSECONDS;
      if ticks > TICK_MAX then TICK_MAX else ticks
  }

  /** The least number of ticks that lasts at least as long; a positive duration is never rounded to 0. */
  lemma TicksCeilIsLeast(nanoseconds: int, hertz: nat)
    requires hertz > 0 && nanoseconds > 0
    ensures var t := TicksCeil(nanoseconds, hertz);
            && 1 <= t <= TICK_MAX
            && (t - 1) * NANOSECONDS < nanoseconds * hertz
            && (t < TICK_MAX ==> nanoseconds * hertz <= t * NANOSECONDS)
  {
    assert nanoseconds * hertz >= 1;
  }

  // ---------------------------------------------------------------- one continuation

  /** Releases skipped because they were already due at `now`. */
  function Missed(release: int, period: nat, now: int): nat
    requires period > 0
  {
    if now < release + period then 0 else (now - release) / period
  }

  function Next(release: int, period: nat, now: int): int
    requires period > 0
  {
    Grid(release, period, 1 + Missed(release, period, now))
  }

  /** The k-th release of the grid that starts at `origin`. */
  function Grid(origin: int, period: nat, k: int): int
  {
    origin + period * k
  }

  ghost predicate OnGrid(origin: int, period: nat, t: int)
  {
    exists k :: t == Grid(origin, period, k)
  }

  lemma GridSum(origin: int, period: nat, j: int, k: int)
    ensures Grid(Grid(origin, period, j), period, k) == Grid(origin, period, j + k)
  {
  }

  lemma {:induction false} GridGap(origin: int, period: nat, j: int, k: int)
    requires j < k
    ensures Grid(origin, period, j) + period <= Grid(origin, period, k)
    decreases k - j
  {
    GridSum(origin, period, k - 1, 1);
    if j + 1 < k {
      GridGap(origin, period, j, k - 1);
    }
  }

  /** Grid points are ordered by their numbers. */
  lemma GridOrder(origin: int, period: nat, j: int, k: int)
    requires Grid(origin, period, j) < Grid(origin, period, k)
    ensures j < k
  {
    if k < j {
      GridGap(origin, period, k, j);
    }
  }

  /** The next release is the least grid point after both the old release and now. */
  lemma NextIsLeast(release: int, period: nat, now: int)
    requires period > 0
    ensures var n := Next(release, period, now);
            && n > release && n > now && OnGrid(release, period, n)
            && (forall t :: t > release && t > now && OnGrid(release, period, t) ==> n <= t)
  {
    var n := Next(release, period, now);
    var m := Missed(release, period, now);
    assert n == Grid(release, period, 1 + m);
    NextBounds(release, period, now);
    forall t | t > release && t > now && OnGrid(release, period, t)
      ensures n <= t
    {
      var k :| t == Grid(release, period, k);
      GridOrder(release, period, m, k);
      GridGap(release, period, m, k);
    }
  }

  /** One period earlier would be too early: at or before the old release, or already due. */
  lemma NextBounds(release: int, period: nat, now: int)
    requires period > 0
    ensures var n := Next(release, period, now);
            && n > release && n > now
            && n - period == Grid(release, period, Missed(release, period, now))
            && (n - period <= now || n - period == release)
  {
    var m := Missed(release, period, now);
    assert period * (1 + m) == period + period * m;
    if now >= release + period {
      assert now - release == period * m + (now - release) % period;
    }
  }

  // ---------------------------------------------------------------- whole runs

  /** The state after activation and after a continuation at each of the times `nows`. */
  datatype Schedule = Schedule(next: int, missed: nat, overruns: nat)

  function FixedRate(first: int, period: nat, nows: seq<int>): Schedule
    requires period > 0
  {
    if nows == [] then Schedule(first, 0, 0)
    else
      var s := FixedRate(first, period, nows[..|nows| - 1]);
      var now := nows[|nows| - 1];
      var m := Missed(s.next, period, now);
      Schedule(Next(s.next, period, now), s.missed + m, s.overruns + if m != 0 then 1 else 0)
  }

  function FixedDelay(first: int, period: nat, nows: seq<int>): int
  {
    if nows == [] then first else nows[|nows| - 1] + period
  }

  /** No drift: the releases, taken and missed, are exactly the grid of the first one. */
  lemma {:induction false} FixedRateNeverDrifts(first: int, period: nat, nows: seq<int>)
    requires period > 0
    ensures var s := FixedRate(first, period, nows);
            && s.next == Grid(first, period, |nows| + s.missed)
            && s.overruns <= |nows| && s.overruns <= s.missed
  {
    if nows != [] {
      var init := nows[..|nows| - 1];
      FixedRateNeverDrifts(first, period, init);
      var s := FixedRate(first, period, init);
      var m := Missed(s.next, period, nows[|nows| - 1]);
      GridSum(first, period, |init| + s.missed, 1 + m);
    }
  }

  /** Nothing is missed exactly when every invocation ended before the release after its own. */
  lemma {:induction false} NothingMissedIffOnTime(first: int, period: nat, nows: seq<int>)
    requires period > 0
    ensures FixedRate(first, period, nows).missed == 0
            <==> (forall i :: 0 <= i < |nows| ==> nows[i] < Grid(first, period, i + 1))
  {
    if nows != [] {
      var n := |nows| - 1;
      var init := nows[..n];
      NothingMissedIffOnTime(first, period, init);
      FixedRateNeverDrifts(first, period, init);
      var s := FixedRate(first, period, init);
      GridSum(first, period, n + s.missed, 1);
      MissedIffLate(s.next, period, nows[n]);
    }
  }

  /** How many of the invocations ended at or after the release that followed their own. */
  function LateOnes(first: int, period: nat, nows: seq<int>): nat
    requires period > 0
  {
    if nows == [] then 0
    else
      var init := nows[..|nows| - 1];
      LateOnes(first, period, init)
        + if nows[|nows| - 1] >= FixedRate(first, period, init).next + period then 1 else 0
  }

  /** An overrun is counted for each late invocation and for no other, however many releases it misses. */
  lemma {:induction false} OverrunsAreLateOnes(first: int, period: nat, nows: seq<int>)
    requires period > 0
    ensures FixedRate(first, period, nows).overruns == LateOnes(first, period, nows)
  {
    if nows != [] {
      var init := nows[..|nows| - 1];
      OverrunsAreLateOnes(first, period, init);
      MissedIffLate(FixedRate(first, period, init).next, period, nows[|nows| - 1]);
    }
  }

  lemma MissedIffLate(release: int, period: nat, now: int)
    requires period > 0
    ensures Missed(release, period, now) == 0 <==> now < release + period
  {
    if now >= release + period {
      var q := (now - release) / period;
      assert now - release == period * q + (now - release) % period;
    }
  }

  /** No invocation ends before the release that started it. */
  ghost predicate Causal(first: int, period: nat, nows: seq<int>)
  {
    forall i :: 0 <= i < |nows| ==> FixedDelay(first, period, nows[..i]) <= nows[i]
  }

  lemma CausalPrefix(first: int, period: nat, nows: seq<int>, n: nat)
    requires Causal(first, period, nows) && n <= |nows|
    ensures Causal(first, period, nows[..n])
  {
    forall i | 0 <= i < n
      ensures FixedDelay(first, period, nows[..n][..i]) <= nows[..n][i]
    {
      assert nows[..n][..i] == nows[..i];
    }
  }

  /** The other cadence never runs ahead of the grid, and it stays on the grid exactly when every
      invocation takes no time at all: any time an invocation takes is never made up for. */
  lemma {:induction false} FixedDelayDrifts(first: int, period: nat, nows: seq<int>)
    requires Causal(first, period, nows)
    ensures FixedDelay(first, period, nows) >= Grid(first, period, |nows|)
    ensures FixedDelay(first, period, nows) == Grid(first, period, |nows|)
            <==> (forall i :: 0 <= i < |nows| ==> nows[i] == Grid(first, period, i))
  {
    if nows != [] {
      var n := |nows| - 1;
      var init := nows[..n];
      CausalPrefix(first, period, nows, n);
      FixedDelayDrifts(first, period, init);
      GridSum(first, period, n, 1);
      assert FixedDelay(first, period, nows[..n]) <= nows[n];
    }
  }

  // ---------------------------------------------------------------- the registration

  class Registration {
    const period: nat
    const fixedRate: bool
    var nextRelease: int
    var missedReleases: nat
    var overruns: nat
    ghost const first: int
    ghost var nows: seq<int>

    ghost predicate Valid()
      reads this
    {
      && period > 0
      && (fixedRate ==> FixedRate(first, period, nows) == Schedule(nextRelease, missedReleases, overruns))
      && (!fixedRate ==> FixedDelay(first, period, nows) == nextRelease && missedReleases == 0 == overruns)
    }

    /** activate_registration: the first release, and the delay until it. */
    constructor (nanoseconds: int, hertz: nat, fixedRate: bool, immediate: bool, now: int)
      requires nanoseconds > 0 && hertz > 0
      ensures Valid() && nows == [] && this.fixedRate == fixedRate
      ensures period == TicksCeil(nanoseconds, hertz)
      ensures first == nextRelease == if immediate then now else now + period
    {
      TicksCeilIsLeast(nanoseconds, hertz);
      var ticks := TicksCeil(nanoseconds, hertz);
      period := ticks;
      this.fixedRate := fixedRate;
      nextRelease := if immediate then now else now + ticks;
      missedReleases := 0;
      overruns := 0;
      first := if immediate then now else now + ticks;
      nows := [];
    }

    /** continue_registration: the catch-up loop computes the quotient of the closed form. */
    method Continue(now: int) returns (delay: int)
      requires Valid()
      modifies this
      ensures Valid() && nows == old(nows) + [now]
      ensures delay > 0 && nextRelease == now + delay
      ensures fixedRate ==> nextRelease == Next(old(nextRelease), period, now)
      ensures old(nextRelease) <= now ==> delay <= period
    {
      ghost var release := nextRelease;
      nows := nows + [now];
      assert nows[..|nows| - 1] == old(nows);
      if !fixedRate {
        nextRelease := now + period;
        return period;
      }
      var missed := 0;
      nextRelease := nextRelease + period;
      while nextRelease <= now
        modifies this`nextRelease
        invariant nextRelease == Grid(release, period, 1 + missed)
        invariant missed == 0 || Grid(release, period, missed) <= now
        decreases now - nextRelease
      {
        GridSum(release, period, 1 + missed, 1);
        nextRelease := nextRelease + period;
        missed := missed + 1;
      }
      CatchUpIsQuotient(release, period, now, missed);
      NextBounds(release, period, now);
      delay := nextRelease - now;
      if missed != 0 {
        missedReleases := missedReleases + missed;
        overruns := overruns + 1;
      }
    }
  }

  lemma CatchUpIsQuotient(release: int, period: nat, now: int, missed: nat)
    requires period > 0
    requires now < Grid(release, period, 1 + missed)
    requires missed == 0 || Grid(release, period, missed) <= now
    ensures missed == Missed(release, period, now)
  {
    var m := Missed(release, period, now);
    NextBounds(release, period, now);
    if missed < m {
      GridGap(release, period, missed, m);
      if missed + 1 < m { GridGap(release, period, missed + 1, m); }
    } else if m < missed {
      GridGap(release, period, m, missed);
      if m + 1 < missed { GridGap(release, period, m + 1, missed); }
    }
  }
}
