/** Resolution of the raw command-line options into the effective run
    configuration (`Main`, before any driver starts). */
module Configuration {
  import opened Wrappers
  import opened DateTimeExtensions

  const DefaultEventsPerBatch: int := 10
  const DefaultIterations: int := 1
  const DefaultDelayBetweenEvents: int := 0
  const DefaultDelayBetweenBatches: int := TicksPerSecond
  const DefaultEndpoint: string := "http://localhost:4321"
  const EndpointSeparator: char := ';'

  /** The parsed options, as the argument parser leaves them: 32-bit integers
      (delays in milliseconds), a flag and a possibly null endpoint. */
  datatype Arguments = Arguments(
    eventsPerBatch: int,
    delayBetweenEvents: int,
    delayBetweenBatches: int,
    iterations: int,
    wait: bool,
    endpoint: Option<string>,
    publishLogAndTrace: int)

  predicate IsInt32Arguments(args: Arguments) {
    IsInt32(args.eventsPerBatch) && IsInt32(args.delayBetweenEvents) &&
    IsInt32(args.delayBetweenBatches) && IsInt32(args.iterations) &&
    IsInt32(args.publishLogAndTrace)
  }

  /** The effective settings; delays are in ticks. */
  datatype RunConfiguration = RunConfiguration(
    eventsPerBatch: int,
    delayBetweenEvents: int,
    delayBetweenBatches: int,
    iterations: int,
    wait: bool,
    logEndpoint: string,
    traceEndpoint: string)
  {
    ghost predicate Valid() {
      eventsPerBatch >= 1 && iterations >= 1 &&
      delayBetweenEvents >= 0 && delayBetweenBatches > 0
    }
  }

  function PositiveOr(raw: int, default: int): int {
    if raw <= 0 then default else raw
  }

  /** `TimeSpan.FromMilliseconds` of a 32-bit integer, in ticks. */
  function MillisecondsToTicks(ms: int): int {
    ms * TicksPerMillisecond
  }

  /** Index of the first occurrence of `c` in `s`. */
  function IndexOf(s: string, c: char): (k: nat)
    requires c in s
    ensures k < |s| && s[k] == c && c !in s[..k]
  {
    if s[0] == c then 0
    else
      var k := 1 + IndexOf(s[1..], c);
      assert s[..k] == [s[0]] + s[1..][..k - 1];
      k
  }

  /** `String.Split(char)`: every occurrence of the separator cuts, and empty
      parts are kept. */
  function Split(s: string, sep: char): (parts: seq<string>)
    ensures |parts| >= 1
    decreases |s|
  {
    if sep !in s then [s]
    else
      var k := IndexOf(s, sep);
      [s[..k]] + Split(s[k + 1..], sep)
  }

  function Join(parts: seq<string>, sep: char): string
    requires |parts| >= 1
  {
    if |parts| == 1 then parts[0] else parts[0] + [sep] + Join(parts[1..], sep)
  }

  /** Joining the parts with the separator gives back the string, and no part
      holds the separator. */
  lemma {:induction false} SplitJoin(s: string, sep: char)
    ensures Join(Split(s, sep), sep) == s
    ensures forall k :: 0 <= k < |Split(s, sep)| ==> sep !in Split(s, sep)[k]
    decreases |s|
  {
    if sep in s {
      var k := IndexOf(s, sep);
      SplitJoin(s[k + 1..], sep);
      assert Split(s, sep)[1..] == Split(s[k + 1..], sep);
      assert s == s[..k] + [sep] + s[k + 1..];
    }
  }

  /** `Main`'s endpoint resolution: a null endpoint means the default for
      both streams; an endpoint with a separator splits into the log endpoint
      (first part) and the trace endpoint (second part); any other endpoint
      serves both. */
  function ResolveEndpoints(endpoint: Option<string>): (r: (string, string))
    ensures endpoint.None? ==> r == (DefaultEndpoint, DefaultEndpoint)
    ensures endpoint.Some? && EndpointSeparator !in endpoint.value ==> r == (endpoint.value, endpoint.value)
    ensures endpoint.Some? && EndpointSeparator in endpoint.value ==>
      var e := endpoint.value;
      var k := IndexOf(e, EndpointSeparator);
      var rest := e[k + 1..];
      r.0 == e[..k] &&
      r.1 == (if EndpointSeparator in rest then rest[..IndexOf(rest, EndpointSeparator)] else rest)
  {
    var logEndpoint := if endpoint.None? then DefaultEndpoint else endpoint.value;
    var traceEndpoint := if endpoint.None? then DefaultEndpoint else endpoint.value;
    if endpoint.Some? && endpoint.value != "" && EndpointSeparator in endpoint.value then
      var parts := Split(endpoint.value, EndpointSeparator);
      var rest := endpoint.value[IndexOf(endpoint.value, EndpointSeparator) + 1..];
      assert parts[1] == Split(rest, EndpointSeparator)[0];
      (parts[0], parts[1])
    else
      (logEndpoint, traceEndpoint)
  }

  /** A split endpoint is rebuilt by its two parts: the log endpoint, the
      separator, the trace endpoint, then whatever further parts the string
      holds, which are ignored. Neither endpoint holds the separator. */
  lemma SplitEndpointsArePrefix(endpoint: string)
    requires EndpointSeparator in endpoint
    ensures var (logEndpoint, traceEndpoint) := ResolveEndpoints(Some(endpoint));
      EndpointSeparator !in logEndpoint && EndpointSeparator !in traceEndpoint &&
      logEndpoint + [EndpointSeparator] + traceEndpoint <= endpoint
  {
    var k := IndexOf(endpoint, EndpointSeparator);
    var rest := endpoint[k + 1..];
    assert endpoint == endpoint[..k] + [EndpointSeparator] + rest;
    if EndpointSeparator in rest {
      var k2 := IndexOf(rest, EndpointSeparator);
      assert rest[..k2] <= rest;
    }
  }

  /** `Main`'s option defaults: each numeric option falls back to its
      default when it is not positive, which makes every resolved
      configuration valid. */
  function ResolveConfiguration(args: Arguments): (cfg: RunConfiguration)
    requires IsInt32Arguments(args)
    ensures cfg.Valid()
    ensures cfg.eventsPerBatch == (if args.eventsPerBatch > 0 then args.eventsPerBatch else DefaultEventsPerBatch)
    ensures cfg.delayBetweenEvents ==
      (if args.delayBetweenEvents > 0 then args.delayBetweenEvents * TicksPerMillisecond else DefaultDelayBetweenEvents)
    ensures cfg.delayBetweenBatches ==
      (if args.delayBetweenBatches > 0 then args.delayBetweenBatches * TicksPerMillisecond else DefaultDelayBetweenBatches)
    ensures cfg.iterations == (if args.iterations > 0 then args.iterations else DefaultIterations)
    ensures cfg.wait == args.wait
    ensures (cfg.logEndpoint, cfg.traceEndpoint) == ResolveEndpoints(args.endpoint)
  {
    var (logEndpoint, traceEndpoint) := ResolveEndpoints(args.endpoint);
    RunConfiguration(
      PositiveOr(args.eventsPerBatch, DefaultEventsPerBatch),
      PositiveOr(MillisecondsToTicks(args.delayBetweenEvents), DefaultDelayBetweenEvents),
      PositiveOr(MillisecondsToTicks(args.delayBetweenBatches), DefaultDelayBetweenBatches),
      PositiveOr(args.iterations, DefaultIterations),
      args.wait,
      logEndpoint,
      traceEndpoint)
  }
}
