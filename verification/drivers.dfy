/** The two batch drivers, `SendOTLPTraceEvents` and `SendOTLPLogEvents`:
    nested loops over batches `j` and events `i` that record what they do.
    `now` is the clock reading each driver takes; `fault` says where (if
    anywhere) emission raises. */
module Drivers {
  import opened Wrappers
  import opened DateTimeExtensions
  import opened Pacing
  import opened Schedule

  /** `SendOTLPTraceEvents`: an exception escapes after the tracer provider's
      `using` scope releases it. */
  method SendOTLPTraceEvents(count: int, delayBetweenEvents: int, delayBetweenBatches: int,
                             iterations: int, wait: bool, endpoint: string,
                             now: DateTime, fault: Fault)
    returns (actions: seq<Action>, outcome: Outcome)
    ensures Run(actions, outcome) ==
      DriverRun(Trace, endpoint, count, delayBetweenEvents, delayBetweenBatches, iterations, wait, AlignmentDelay(now), fault)
    ensures outcome == Faulted <==>
      fault == SetupFault || AlignmentDelay(now).None? || Hits(Trace, fault, iterations, count)
  {
    if fault == SetupFault {
      return [], Faulted;
    }
    actions := [Acquire(endpoint)];
    var nextMinute := NextMinute(now);
    if nextMinute.None? {
      return actions + [Release], Faulted;
    }
    var delay := nextMinute.value.ticks - now.ticks + TicksPerMillisecond;
    assert AlignmentDelay(now) == Some(delay);
    if wait {
      actions := actions + [AlignPause(delay)];
    }
    ghost var head := actions;
    assert head == [Acquire(endpoint)] + Header(wait, delay);
    ghost var n, m := Nat(count), Nat(iterations);
    var j := 0;
    while j < iterations
      invariant 0 <= j <= m
      invariant actions == head + Batches(j, n, delayBetweenEvents, delayBetweenBatches)
      invariant !((fault.EmitFault? || fault.SpanEndFault?) && 0 <= fault.at.batch < j && 0 <= fault.at.index < count)
    {
      var i := 0;
      while i < count
        invariant 0 <= i <= n
        invariant actions == head + Batches(j, n, delayBetweenEvents, delayBetweenBatches) +
          BatchEvents(j, i, delayBetweenEvents)
        invariant !((fault.EmitFault? || fault.SpanEndFault?) && 0 <= fault.at.batch < j && 0 <= fault.at.index < count)
        invariant !((fault.EmitFault? || fault.SpanEndFault?) && fault.at.batch == j && 0 <= fault.at.index < i)
      {
        if fault == EmitFault(EventId(j, i)) {
          assert Hits(Trace, fault, iterations, count);
          ConcatAssoc([Acquire(endpoint)], Header(wait, delay), Batches(j, n, delayBetweenEvents, delayBetweenBatches));
          ConcatAssoc([Acquire(endpoint)], Header(wait, delay) + Batches(j, n, delayBetweenEvents, delayBetweenBatches),
                      BatchEvents(j, i, delayBetweenEvents));
          return actions + [Release], Faulted;
        }
        ConcatAssoc(head + Batches(j, n, delayBetweenEvents, delayBetweenBatches),
                    BatchEvents(j, i, delayBetweenEvents), [Emit(EventId(j, i)), Pause(delayBetweenEvents)]);
        actions := actions + [Emit(EventId(j, i)), Pause(delayBetweenEvents)];
        if fault == SpanEndFault(EventId(j, i)) {
          assert Hits(Trace, fault, iterations, count);
          ConcatAssoc([Acquire(endpoint)], Header(wait, delay), Batches(j, n, delayBetweenEvents, delayBetweenBatches));
          ConcatAssoc([Acquire(endpoint)], Header(wait, delay) + Batches(j, n, delayBetweenEvents, delayBetweenBatches),
                      BatchEvents(j, i + 1, delayBetweenEvents));
          return actions + [Release], Faulted;
        }
        i := i + 1;
      }
      ConcatAssoc(head, Batches(j, n, delayBetweenEvents, delayBetweenBatches), BatchEvents(j, n, delayBetweenEvents));
      ConcatAssoc(head, Batches(j, n, delayBetweenEvents, delayBetweenBatches) + BatchEvents(j, n, delayBetweenEvents),
                  [Pause(delayBetweenBatches)]);
      actions := actions + [Pause(delayBetweenBatches)];
      j := j + 1;
    }
    ConcatAssoc([Acquire(endpoint)], Header(wait, delay), Batches(m, n, delayBetweenEvents, delayBetweenBatches));
    ConcatNil(Header(wait, delay) + Batches(m, n, delayBetweenEvents, delayBetweenBatches));
    actions := actions + [Release];
    outcome := Completed;
  }

  /** `SendOTLPLogEvents`: any exception is caught after the logger factory's
      `using` scope releases it, so the driver always completes; a run that
      nothing interrupts drains for ten seconds before releasing. */
  method SendOTLPLogEvents(count: int, delayBetweenEvents: int, delayBetweenBatches: int,
                           iterations: int, wait: bool, endpoint: string,
                           now: DateTime, fault: Fault)
    returns (actions: seq<Action>, outcome: Outcome)
    ensures Run(actions, outcome) ==
      DriverRun(Log, endpoint, count, delayBetweenEvents, delayBetweenBatches, iterations, wait, AlignmentDelay(now), fault)
    ensures outcome == Completed
  {
    outcome := Completed;
    if fault == SetupFault {
      return [], outcome;
    }
    actions := [Acquire(endpoint)];
    var nextMinute := NextMinute(now);
    if nextMinute.None? {
      return actions + [Release], outcome;
    }
    var delay := nextMinute.value.ticks - now.ticks + TicksPerMillisecond;
    assert AlignmentDelay(now) == Some(delay);
    if wait {
      actions := actions + [AlignPause(delay)];
    }
    ghost var head := actions;
    assert head == [Acquire(endpoint)] + Header(wait, delay);
    ghost var n, m := Nat(count), Nat(iterations);
    var j := 0;
    while j < iterations
      invariant 0 <= j <= m
      invariant actions == head + Batches(j, n, delayBetweenEvents, delayBetweenBatches)
      invariant !(fault.EmitFault? && 0 <= fault.at.batch < j && 0 <= fault.at.index < count)
    {
      var i := 0;
      while i < count
        invariant 0 <= i <= n
        invariant actions == head + Batches(j, n, delayBetweenEvents, delayBetweenBatches) +
          BatchEvents(j, i, delayBetweenEvents)
        invariant !(fault.EmitFault? && 0 <= fault.at.batch < j && 0 <= fault.at.index < count)
        invariant !(fault.EmitFault? && fault.at.batch == j && 0 <= fault.at.index < i)
      {
        if fault == EmitFault(EventId(j, i)) {
          assert Hits(Log, fault, iterations, count);
          ConcatAssoc([Acquire(endpoint)], Header(wait, delay), Batches(j, n, delayBetweenEvents, delayBetweenBatches));
          ConcatAssoc([Acquire(endpoint)], Header(wait, delay) + Batches(j, n, delayBetweenEvents, delayBetweenBatches),
                      BatchEvents(j, i, delayBetweenEvents));
          return actions + [Release], outcome;
        }
        ConcatAssoc(head + Batches(j, n, delayBetweenEvents, delayBetweenBatches),
                    BatchEvents(j, i, delayBetweenEvents), [Emit(EventId(j, i)), Pause(delayBetweenEvents)]);
        actions := actions + [Emit(EventId(j, i)), Pause(delayBetweenEvents)];
        i := i + 1;
      }
      ConcatAssoc(head, Batches(j, n, delayBetweenEvents, delayBetweenBatches), BatchEvents(j, n, delayBetweenEvents));
      ConcatAssoc(head, Batches(j, n, delayBetweenEvents, delayBetweenBatches) + BatchEvents(j, n, delayBetweenEvents),
                  [Pause(delayBetweenBatches)]);
      actions := actions + [Pause(delayBetweenBatches)];
      j := j + 1;
    }
    actions := actions + [Drain(DrainDelay)];
    ConcatAssoc([Acquire(endpoint)], Header(wait, delay), Batches(m, n, delayBetweenEvents, delayBetweenBatches));
    ConcatAssoc([Acquire(endpoint)], Header(wait, delay) + Batches(m, n, delayBetweenEvents, delayBetweenBatches),
                [Drain(DrainDelay)]);
    actions := actions + [Release];
  }
}
