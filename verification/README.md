# OtlpEventGenerator: pacing and batch scheduling, in Dafny

OtlpEventGenerator is a load generator. It emits OpenTelemetry log records and
spans to a collector over OTLP. `Main` resolves the command-line options into
a run configuration. It then starts a log driver (`SendOTLPLogEvents`) and/or
a trace driver (`SendOTLPTraceEvents`) and joins them with `Task.WhenAll`.

Each driver works the same way:
- it builds its exporter for its endpoint;
- it optionally waits until just after the next whole minute;
- it emits `iterations` batches of `count` events, pausing after every event
  and after every batch, through the pacer `SmartDelayAsync`.

The two drivers differ in two ways:
- the log driver drains for ten seconds at the end;
- the log driver swallows any exception, while the trace driver lets it
  escape, after its `using` scope has released the provider.

The model works in integer ticks of 100 ns, as `DateTime` and `TimeSpan` do.
It has these modules:

- `DateTimeExtensions`: tick arithmetic on `DateTime`, and the five helpers of
  `DateTimeExtensions.cs`.
  - .NET raises `ArgumentOutOfRangeException` when a result leaves the
    `DateTime` range, and `DivideByZeroException` for a zero interval. Both
    are modelled as `None`.
  - C#'s truncating `%` is written out as `CsRemainder`.
- `Pacing`: the three-way choice `SmartDelayAsync` makes, the next minute
  boundary, and the alignment pause computed from `now`.
- `Configuration`: the positive-or-default option rules, and the endpoint
  split on `;` (with `String.Split` and its inverse `Join`).
- `Schedule`: the reference definition of a driver run. A run is the sequence of
  actions the driver performs and its outcome. The actions are:
  - `Acquire` and `Release` for the exporter;
  - `AlignPause`, `Pause` and `Drain` for the pacer calls;
  - `Emit` for one event.

  A `Fault` says where the driver's body raises: while building the exporter,
  at one chosen event's emission, or (traces only) when that event's span
  stops after its pause. The module's lemmas prove the layout, count, order
  and pacing of the emissions, the failure prefix, and the release on every
  path.
- `Drivers`: the two drivers as methods with the source's nested `j`/`i`
  loops. Each appends actions to a sequence and is proved equal to
  `Schedule.DriverRun`.
- `Orchestrator`: `Main`. It resolves the configuration, builds the task list
  (log first) and joins the outcomes.

## Model

| member | source | states |
|---|---|---|
| DateTimeExtensions.AddTicks | OtlpEventGenerator/DateTimeExtensions.cs:21 | moving a DateTime by a tick delta keeps its kind and moves it by exactly that delta; it fails iff the result leaves the DateTime range |
| DateTimeExtensions.FromUnixTimestamp | OtlpEventGenerator/DateTimeExtensions.cs:7-15 | the result is the UTC instant `epoch + seconds·10⁷ + milliseconds·10⁴` ticks; it fails iff the seconds step or the milliseconds step leaves the range |
| DateTimeExtensions.ToUniversalTime | OtlpEventGenerator/DateTimeExtensions.cs:21 | the result is always UTC; a UTC input is unchanged; any other input is shifted back by the local offset whenever that stays in range |
| DateTimeExtensions.ConvertToUnixTimestampSeconds | OtlpEventGenerator/DateTimeExtensions.cs:17-24 | defined iff the UTC instant is not before the epoch; the result is then the non-negative number of whole seconds since the epoch (floor of ticks over 10⁷) |
| DateTimeExtensions.CsRemainder | OtlpEventGenerator/DateTimeExtensions.cs:32 | C#'s `%`: carries the dividend's sign, is smaller in magnitude than the divisor and no larger than the dividend, and taking it away leaves a multiple of the divisor |
| DateTimeExtensions.UnixTimestampSecondsRoundDown | OtlpEventGenerator/DateTimeExtensions.cs:26-33 | defined iff the seconds are and the interval is non-zero; the result is the largest multiple of the interval's magnitude that is at most the seconds |
| DateTimeExtensions.TruncateToMinute | OtlpEventGenerator/DateTimeExtensions.cs:35-39 | keeps the kind; the result is a minute boundary at or below the input and less than one minute below it |
| DateTimeExtensions.FromMsgpackTimestamp | OtlpEventGenerator/DateTimeExtensions.cs:47-60 | a uint or int yields the UTC instant that many seconds after the epoch; a DateTime passes through unchanged; anything else yields the supplied current time |
| DateTimeExtensions.UnixTimestampRoundTrip | OtlpEventGenerator/DateTimeExtensions.cs:11-24 | converting `FromUnixTimestamp(s, ms)` back gives `s` for every `s ≥ 0`, every `0 ≤ ms < 1000` and every local offset |
| DateTimeExtensions.UnixSecondsRoundTrip | OtlpEventGenerator/DateTimeExtensions.cs:11-24 | the reverse direction: the seconds of an instant at or after the epoch lead back to that instant truncated to a whole second, as UTC |
| DateTimeExtensions.TruncateToMinuteUnique | OtlpEventGenerator/DateTimeExtensions.cs:35-39 | any minute boundary within one minute at or below the input is the truncation, so the contract determines the function |
| DateTimeExtensions.TruncateToMinuteIdentityOnBoundary | OtlpEventGenerator/DateTimeExtensions.cs:35-39 | a value already on a minute boundary is returned unchanged |
| DateTimeExtensions.TruncateToMinuteIdempotent | OtlpEventGenerator/DateTimeExtensions.cs:35-39 | truncating twice equals truncating once |
| DateTimeExtensions.MsgpackSecondsRoundTrip | OtlpEventGenerator/DateTimeExtensions.cs:47-52 | an unsigned 32-bit msgpack timestamp never leaves the DateTime range, and converts back to the same seconds |
| Pacing.SmartDelayStrategy | OtlpEventGenerator/Program.cs:231-247 | no wait iff the delay is ≤ 0; a blocking sleep iff 0 < delay ≤ 16 ms; an async delay iff delay > 16 ms (disjoint and exhaustive) |
| Pacing.NextMinute | OtlpEventGenerator/Program.cs:121-122 | defined iff the minute after the truncation is in range; it is then a minute boundary of the same kind, strictly after `now` and at most one minute after it |
| Pacing.AlignmentDelay | OtlpEventGenerator/Program.cs:121-124 | defined iff the next minute is; the pause lies in (1 ms, 60 001 ms] and ends exactly 1 ms after a minute boundary |
| Pacing.AlignmentReachesNextBoundary | OtlpEventGenerator/Program.cs:120-124 | the boundary the pause aims at is the first one strictly after `now`: no boundary lies between `now` and it |
| Configuration.Split | OtlpEventGenerator/Program.cs:77-78 | `String.Split(char)` always yields at least one part |
| Configuration.SplitJoin | OtlpEventGenerator/Program.cs:77-78 | joining the parts of a split with the separator gives back the string, and no part holds the separator |
| Configuration.ResolveEndpoints | OtlpEventGenerator/Program.cs:72-79 | a null endpoint gives the default to both streams; one without `;` (including `""`) serves both; otherwise the log endpoint is the text before the first `;` and the trace endpoint the next `;`-segment |
| Configuration.SplitEndpointsArePrefix | OtlpEventGenerator/Program.cs:75-79 | for an endpoint with `;`, neither resolved endpoint holds `;`, and log endpoint + `;` + trace endpoint is a prefix of the option: later segments are ignored |
| Configuration.ResolveConfiguration | OtlpEventGenerator/Program.cs:48-79 | each numeric option keeps its raw value when positive and otherwise takes its default (10 events, 0 ms, 1 s, 1 iteration), so the result is always valid; the endpoints are resolved as above |
| Schedule.BatchesLayout | OtlpEventGenerator/Program.cs:131-147 | `m` batches of `n` events take `m·(2n+1)` actions; event `i` of batch `j` sits at `j·(2n+1) + 2i`, followed by its inter-event pause, and the batch's pause closes it |
| Schedule.BatchesSize | OtlpEventGenerator/Program.cs:131-147 | the batches hold `m·(2n+1)` actions |
| Schedule.BatchesPaced | OtlpEventGenerator/Program.cs:131-147 | inside the batches every action is an emission or a pacer pause |
| Schedule.EmittedBatches | OtlpEventGenerator/Program.cs:131-147 | the batches emit, in order, exactly the events of the `m` by `n` grid, batch by batch |
| Schedule.LexOrderMembers | OtlpEventGenerator/Program.cs:131-144 | the emitted sequence holds an event iff its batch is in `[0, iterations)` and its index in `[0, count)` |
| Schedule.LexOrderSorted | OtlpEventGenerator/Program.cs:131-144 | the emitted sequence is strictly increasing in lexicographic `(j, i)` order, so no event repeats |
| Schedule.PlannedEmitsAllInOrder | OtlpEventGenerator/Program.cs:202-221 | an uninterrupted driver emits exactly `iterations × count` events, in that lexicographic order (non-positive loop bounds give none) |
| Schedule.PlannedActionAt | OtlpEventGenerator/Program.cs:196-223 | a planned run is the optional alignment pause, then only emissions and pacer pauses, then (for logs) the drain |
| Schedule.PausePlacement | OtlpEventGenerator/Program.cs:212-220 | every event, the last one included, is followed by one `delayBetweenEvents` pause; every batch is closed by one `delayBetweenBatches` pause |
| Schedule.AlignmentPausePlacement | OtlpEventGenerator/Program.cs:126-129 | when `wait` is set the alignment pause is the first action and occurs nowhere else; without `wait` there is none |
| Schedule.DrainPlacement | OtlpEventGenerator/Program.cs:223 | only the log driver drains, once, as its last planned action |
| Schedule.FailurePositionInPlan | OtlpEventGenerator/Program.cs:131-142 | a run failing at event `i` of batch `j` stops inside the plan: at that event's emission when the emission fails, or just after the event's emission and its `delayBetweenEvents` pause when the span fails to stop |
| Schedule.FailedRunIsPlannedPrefix | OtlpEventGenerator/Program.cs:100-149 | a run that fails inside the loops performs exactly the planned actions before its failure position, between acquire and release; the trace driver then faults and the log driver completes |
| Schedule.CompletedRunIsPlanned | OtlpEventGenerator/Program.cs:151-229 | a run that nothing interrupts performs the whole plan between acquire and release, and completes |
| Schedule.FailedRunEmitsEarlierEvents | OtlpEventGenerator/Program.cs:131-144 | a failing run emits exactly the events lexicographically before the failing one, plus the failing one itself when its span fails to stop after the pause |
| Schedule.CompletedRunEmitsPlan | OtlpEventGenerator/Program.cs:202-221 | a run that nothing interrupts emits the whole grid in lexicographic order |
| Schedule.ExporterReleasedOnEveryPath | OtlpEventGenerator/Program.cs:106-148 | a run holds no actions iff building the exporter fails; otherwise it starts with acquiring, ends with releasing and does neither in between, on every path |
| Schedule.ScopedActionAt | OtlpEventGenerator/Program.cs:118-148 | nothing inside the `using` scope acquires or releases the exporter |
| Drivers.SendOTLPTraceEvents | OtlpEventGenerator/Program.cs:100-149 | the nested loops perform exactly `DriverRun(Trace, …)`; the driver faults iff building the provider fails, the next minute is out of range, or an event the loops reach fails, either at its emission or when its span stops after the pause |
| Drivers.SendOTLPLogEvents | OtlpEventGenerator/Program.cs:151-229 | the nested loops perform exactly `DriverRun(Log, …)`, including the final 10 s drain; the driver always completes normally |
| Orchestrator.WhenAll | OtlpEventGenerator/Program.cs:97 | the joined task faults iff one of the joined tasks faults |
| Orchestrator.StartDriver | OtlpEventGenerator/Program.cs:84-94 | a started task is the run of its stream's driver with that stream's resolved endpoint; it faults iff it is a trace task and the trace driver faults |
| Orchestrator.RunGenerator | OtlpEventGenerator/Program.cs:48-97 | the log driver starts iff the selection is not 2 and the trace driver iff it is not 1, log first, each with its resolved endpoint; the run faults iff the trace driver started and faulted |

## Left out

- `CommandLineArgumentResolver.cs` is not part of this model. It wraps a parser library. The parsed options are an `Arguments` value whose numeric fields are 32-bit integers.
- `EventGeneratorJsonSerializerContext.cs` is not part of this model. It is generated code, used only for the JSON scope attributes.
- OpenTelemetry SDK calls are abstracted:
  - building the provider or logger factory, and exporter and batch-processor options, become `Acquire(endpoint)`;
  - `ActivitySource`, span start and tags, `LogInformation` and the per-batch logger scopes become `Emit(j, i)`;
  - disposal becomes `Release`.

  The SDK's own failures are covered only through `Fault`. A `SetupFault` is taken to raise before the exporter exists. An `EmitFault` raises before the event is emitted. A `SpanEndFault` raises when the trace driver stops and disposes the span after its pause (Program.cs:135-142), for instance `childSpan.Stop()` on a span that was never started. Where inside the SDK a malformed endpoint actually raises for the log driver is not modelled; that driver completes either way.
- A trace span covers its inter-event pause. The model records the emission before the pause and does not model span durations.
- The model allows at most one failing point per run. A failure can occur while building the exporter, at an emission, or when a trace span stops after its pause. The pacer is taken to be infallible. A second failure could never be reached, because the first one ends the run.
- Real time is left out: `Task.Delay`, `Thread.Sleep` and `DateTime.UtcNow`. Pauses are recorded as actions. The clock reading of each driver is a parameter.
- Concurrency in `Task.WhenAll` is left out. The drivers share no state, so the model runs them one after the other. It keeps each driver's run and the join rule, not any interleaving.
- Pacing.AlignmentDelay: the source computes `(nextMinute - now).TotalMilliseconds + 1` in floating point and converts it back with `TimeSpan.FromMilliseconds`. The model takes the exact tick difference plus 10 000 ticks. Any rounding of that double by the runtime (below one millisecond) is not modelled.
- DateTimeExtensions.ToUniversalTime: the local time zone is a single offset parameter. Daylight-saving transitions and ambiguous local times are not modelled.
- `long` and `int` parameters are unbounded integers. Their ranges are stated where they matter (32-bit options, 32-bit msgpack seconds). Any overflow in the tick arithmetic would only happen for results that leave the DateTime range, which raise first.
- Console output (`Console.WriteLine`) and `AppContext.SetSwitch` are left out.
- Configuration.ResolveEndpoints: the source's `String.Split` may return more than two parts. The model returns only the first two, exactly as the source indexes them.
- Configuration.ResolveEndpoints: an endpoint with several `;` keeps only its first two segments, and the rest are ignored (`Configuration.SplitEndpointsArePrefix`).
- Drivers.SendOTLPTraceEvents: the endpoint URI is built before the `using` statement (Program.cs:105). A malformed endpoint therefore raises before anything is acquired, and the run holds no actions (`Schedule.ExporterReleasedOnEveryPath`).
- Pacing.NextMinute: the next minute is computed before `wait` is tested (Program.cs:121-126). It can raise in the last minute of the `DateTime` range even when the driver does not wait.
