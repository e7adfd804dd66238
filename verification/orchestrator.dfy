/** `Main`: resolves the options, starts the selected drivers and joins them
    with `Task.WhenAll`. The drivers share nothing, so running them one after
    the other yields the same per-stream runs as running them concurrently. */
module Orchestrator {
  import opened Wrappers
  import opened DateTimeExtensions
  import opened Pacing
  import opened Configuration
  import opened Schedule
  import opened Drivers

  /** A started driver: its stream, the endpoint it was given and its run. */
  datatype Task = Task(kind: StreamKind, endpoint: string, run: Run)

  function Outcomes(tasks: seq<Task>): seq<Outcome> {
    seq(|tasks|, k requires 0 <= k < |tasks| => tasks[k].run.outcome)
  }

  /** `Task.WhenAll`: the joined task faults iff one of the tasks faults. */
  function WhenAll(outcomes: seq<Outcome>): (r: Outcome)
    ensures r == Faulted <==> Faulted in outcomes
  {
    if outcomes == [] then Completed
    else if outcomes[0] == Faulted then Faulted
    else
      assert outcomes == [outcomes[0]] + outcomes[1..];
      WhenAll(outcomes[1..])
  }

  /** The run a driver of the given stream makes with the resolved settings. */
  function StreamRun(kind: StreamKind, cfg: RunConfiguration, now: DateTime, fault: Fault): Run {
    DriverRun(kind, if kind == Log then cfg.logEndpoint else cfg.traceEndpoint,
              cfg.eventsPerBatch, cfg.delayBetweenEvents, cfg.delayBetweenBatches,
              cfg.iterations, cfg.wait, AlignmentDelay(now), fault)
  }

  /** One `taskList.Add(...)` of `Main`: starts the driver of the given
      stream with its resolved endpoint. Only a trace driver can fault. */
  method StartDriver(kind: StreamKind, cfg: RunConfiguration, now: DateTime, fault: Fault)
    returns (task: Task)
    ensures task == Task(kind, if kind == Log then cfg.logEndpoint else cfg.traceEndpoint,
                         StreamRun(kind, cfg, now, fault))
    ensures task.run.outcome == Faulted <==>
      kind == Trace &&
      (fault == SetupFault || AlignmentDelay(now).None? || Hits(Trace, fault, cfg.iterations, cfg.eventsPerBatch))
  {
    if kind == Log {
      var actions, outcome := SendOTLPLogEvents(cfg.eventsPerBatch, cfg.delayBetweenEvents,
        cfg.delayBetweenBatches, cfg.iterations, cfg.wait, cfg.logEndpoint, now, fault);
      task := Task(Log, cfg.logEndpoint, Run(actions, outcome));
    } else {
      var actions, outcome := SendOTLPTraceEvents(cfg.eventsPerBatch, cfg.delayBetweenEvents,
        cfg.delayBetweenBatches, cfg.iterations, cfg.wait, cfg.traceEndpoint, now, fault);
      task := Task(Trace, cfg.traceEndpoint, Run(actions, outcome));
    }
  }

  /** The body of `Main`. The log driver is started unless the selection
      is 2 and the trace driver unless it is 1, the log driver first; the run
      fails iff the trace driver was started and failed. */
  method RunGenerator(args: Arguments, logNow: DateTime, traceNow: DateTime,
                      logFault: Fault, traceFault: Fault)
    returns (cfg: RunConfiguration, taskList: seq<Task>, result: Outcome)
    requires IsInt32Arguments(args)
    ensures cfg == ResolveConfiguration(args)
    ensures |taskList| == (if args.publishLogAndTrace == 2 then 0 else 1) + (if args.publishLogAndTrace == 1 then 0 else 1)
    ensures args.publishLogAndTrace != 2 ==>
      taskList[0] == Task(Log, cfg.logEndpoint, StreamRun(Log, cfg, logNow, logFault))
    ensures args.publishLogAndTrace != 1 ==>
      taskList[|taskList| - 1] == Task(Trace, cfg.traceEndpoint, StreamRun(Trace, cfg, traceNow, traceFault))
    ensures result == WhenAll(Outcomes(taskList))
    ensures result == Faulted <==>
      args.publishLogAndTrace != 1 &&
      (traceFault == SetupFault || AlignmentDelay(traceNow).None? ||
       Hits(Trace, traceFault, cfg.iterations, cfg.eventsPerBatch))
  {
    cfg := ResolveConfiguration(args);
    taskList := [];
    var outcomes: seq<Outcome> := [];
    if args.publishLogAndTrace != 2 {
      var task := StartDriver(Log, cfg, logNow, logFault);
      taskList := [task];
      outcomes := [task.run.outcome];
    }
    assert Faulted !in outcomes;
    if args.publishLogAndTrace != 1 {
      var task := StartDriver(Trace, cfg, traceNow, traceFault);
      taskList := taskList + [task];
      outcomes := outcomes + [task.run.outcome];
      assert Faulted in outcomes <==> task.run.outcome == Faulted;
    }
    assert Outcomes(taskList) == outcomes;
    result := WhenAll(outcomes);
  }
}
