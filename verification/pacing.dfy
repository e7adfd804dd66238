/** The pacer (`SmartDelayAsync`) and the clock aligner that computes the
    pause up to the next whole minute. Durations are in ticks. */
module Pacing {
  import opened Wrappers
  import opened DateTimeExtensions

  /** The scheduler quantum below which the pacer blocks instead of yielding. */
  const SchedulerQuantum: int := 16 * TicksPerMillisecond

  /** How `SmartDelayAsync` waits for a requested duration. */
  datatype Strategy =
    | NoWait          // returns at once
    | AsyncDelay      // `Task.Delay`: yields the thread
    | BlockingSleep   // `Thread.Sleep`: blocks the thread

  /** `SmartDelayAsync`: nothing for non-positive durations, a blocking sleep
      up to the quantum, an asynchronous delay beyond it. */
  function SmartDelayStrategy(delay: int): (s: Strategy)
    ensures s == NoWait <==> delay <= 0
    ensures s == BlockingSleep <==> 0 < delay <= SchedulerQuantum
    ensures s == AsyncDelay <==> delay > SchedulerQuantum
  {
    if delay <= 0 then NoWait
    else if delay > SchedulerQuantum then AsyncDelay
    else BlockingSleep
  }

  /** `now.TruncateToMinute().AddMinutes(1)`, which raises in the last minute
      of the DateTime range. */
  function NextMinute(now: DateTime): (r: Option<DateTime>)
    ensures r.Some? <==> TruncateToMinute(now).ticks + TicksPerMinute <= MaxTicks
    ensures r.Some? ==>
      r.value.kind == now.kind && r.value.ticks % TicksPerMinute == 0 &&
      now.ticks < r.value.ticks <= now.ticks + TicksPerMinute
  {
    var r := AddTicks(TruncateToMinute(now), TicksPerMinute);
    if r.Some? then
      assert r.value.ticks == TruncateToMinute(now).ticks + 1 * TicksPerMinute;
      MultipleStep(TruncateToMinute(now).ticks, TicksPerMinute);
      r
    else r
  }

  lemma MultipleStep(x: int, n: int)
    requires n > 0 && x % n == 0
    ensures (x + n) % n == 0
  {
    DivModUnique(x, n, x / n, 0);
    DivModUnique(x + n, n, x / n + 1, 0);
  }

  /** The alignment pause: `(nextMinute - now) + 1 ms`, or `None` when
      computing the next minute raises. */
  function AlignmentDelay(now: DateTime): (d: Option<int>)
    ensures d.Some? <==> NextMinute(now).Some?
    ensures d.Some? ==> TicksPerMillisecond < d.value <= TicksPerMinute + TicksPerMillisecond
    ensures d.Some? ==> (now.ticks + d.value - TicksPerMillisecond) % TicksPerMinute == 0
  {
    match NextMinute(now)
    case None => None
    case Some(nextMinute) => Some(nextMinute.ticks - now.ticks + TicksPerMillisecond)
  }

  /** The pause ends one millisecond after the FIRST minute boundary strictly
      after `now`: no boundary lies between `now` and that one. */
  lemma AlignmentReachesNextBoundary(now: DateTime, boundary: int)
    requires AlignmentDelay(now).Some?
    requires boundary % TicksPerMinute == 0 && now.ticks < boundary
    ensures now.ticks + AlignmentDelay(now).value - TicksPerMillisecond <= boundary
  {
    var t := TruncateToMinute(now).ticks;
    DivModUnique(t, TicksPerMinute, t / TicksPerMinute, 0);
    DivModUnique(boundary, TicksPerMinute, boundary / TicksPerMinute, 0);
    assert t / TicksPerMinute < boundary / TicksPerMinute;
  }
}
