/** What a batch driver (`SendOTLPTraceEvents`, `SendOTLPLogEvents`) does,
    as the sequence of actions it performs: acquiring and releasing its
    exporter, the alignment pause, each event emission and each pacer call. */
module Schedule {
  import opened Wrappers
  import opened DateTimeExtensions

  /** The log driver's final pause, letting the exporter queue drain. */
  const DrainDelay: int := 10 * TicksPerSecond

  datatype StreamKind = Log | Trace

  /** How a driver's task ends: normally or with an escaping exception. */
  datatype Outcome = Completed | Faulted

  /** Event `index` of batch `batch` (the loop variables `i` and `j`). */
  datatype EventId = EventId(batch: int, index: int)

  datatype Action =
    | Acquire(endpoint: string)   // exporter/provider built for the endpoint
    | AlignPause(delay: int)      // SmartDelayAsync of the alignment delay
    | Emit(id: EventId)           // one log record or one span
    | Pause(delay: int)           // SmartDelayAsync between events or batches
    | Drain(delay: int)           // the log driver's final SmartDelayAsync
    | Release                     // end of the `using` scope: exporter disposed

  /** Where the driver's body raises, if anywhere: while building the exporter
      (for instance on a malformed endpoint URI), when emitting one event, or
      when a span is stopped after its inter-event pause (`childSpan.Stop()`
      on a span that was never started). Logs have no span, so the last kind
      never fires in the log driver. */
  datatype Fault = NoFault | SetupFault | EmitFault(at: EventId) | SpanEndFault(at: EventId)

  datatype Run = Run(actions: seq<Action>, outcome: Outcome)

  /** Strict lexicographic order on event identifiers. */
  predicate Before(a: EventId, b: EventId) {
    a.batch < b.batch || (a.batch == b.batch && a.index < b.index)
  }

  function Nat(x: int): nat { if x < 0 then 0 else x }

  /** Position where batch `j` starts among the batches' actions, when every
      batch holds `n` events: `j` batches of `2 * n + 1` actions come first. */
  function BatchStart(j: nat, n: nat): nat {
    if j == 0 then 0 else BatchStart(j - 1, n) + 2 * n + 1
  }

  /** Position of event `i` of batch `j`; `EventSlot(j, n, n)` is the
      end-of-batch pause. */
  function EventSlot(j: nat, i: nat, n: nat): nat { BatchStart(j, n) + 2 * i }

  /** The first `n` events of batch `j`, each followed by its pause. */
  function BatchEvents(j: int, n: nat, delayBetweenEvents: int): seq<Action> {
    if n == 0 then []
    else BatchEvents(j, n - 1, delayBetweenEvents) + [Emit(EventId(j, n - 1)), Pause(delayBetweenEvents)]
  }

  /** The first `m` batches of `n` events, each batch followed by its pause. */
  function Batches(m: nat, n: nat, delayBetweenEvents: int, delayBetweenBatches: int): seq<Action> {
    if m == 0 then []
    else
      Batches(m - 1, n, delayBetweenEvents, delayBetweenBatches) +
      BatchEvents(m - 1, n, delayBetweenEvents) + [Pause(delayBetweenBatches)]
  }

  function Header(wait: bool, alignment: int): seq<Action> {
    if wait then [AlignPause(alignment)] else []
  }

  function Trailer(kind: StreamKind): seq<Action> {
    if kind == Log then [Drain(DrainDelay)] else []
  }

  /** Faults the loops reach: a fault outside the grid never fires, and the
      log driver has no span to stop. */
  predicate Hits(kind: StreamKind, fault: Fault, iterations: int, count: int) {
    (fault.EmitFault? || (fault.SpanEndFault? && kind == Trace)) &&
    0 <= fault.at.batch < iterations && 0 <= fault.at.index < count
  }

  /** How many events of the failing batch run their whole body, emission
      and pause, before the fault. */
  function Done(fault: Fault): int
    requires fault.EmitFault? || fault.SpanEndFault?
  {
    if fault.EmitFault? then fault.at.index else fault.at.index + 1
  }

  /** The log driver catches every exception; the trace driver lets it escape. */
  function FailureOutcome(kind: StreamKind): Outcome {
    if kind == Trace then Faulted else Completed
  }

  /** What a driver does with its exporter when nothing fails: the optional
      alignment pause, the batches and, for logs, the drain. */
  function Planned(kind: StreamKind, count: int, delayBetweenEvents: int, delayBetweenBatches: int,
                   iterations: int, wait: bool, alignment: int): seq<Action>
  {
    Header(wait, alignment) + Batches(Nat(iterations), Nat(count), delayBetweenEvents, delayBetweenBatches)
    + Trailer(kind)
  }

  /** What a driver does inside its exporter's `using` scope once the
      alignment delay is known: the plan, or, when an emission fails, the
      part of it before that emission. */
  function Scoped(kind: StreamKind, count: int, delayBetweenEvents: int, delayBetweenBatches: int,
                  iterations: int, wait: bool, alignment: int, fault: Fault): seq<Action>
  {
    if Hits(kind, fault, iterations, count) then
      Header(wait, alignment) +
      Batches(fault.at.batch, Nat(count), delayBetweenEvents, delayBetweenBatches) +
      BatchEvents(fault.at.batch, Done(fault), delayBetweenEvents)
    else
      Planned(kind, count, delayBetweenEvents, delayBetweenBatches, iterations, wait, alignment)
  }

  /** The run of one driver, given the alignment delay it computes: `None`
      when computing the next minute raises. That computation happens after
      the exporter is acquired, whether or not `wait` is set. Whatever
      happens once the exporter exists, the `using` scope releases it. */
  function DriverRun(kind: StreamKind, endpoint: string, count: int, delayBetweenEvents: int,
                     delayBetweenBatches: int, iterations: int, wait: bool, alignmentDelay: Option<int>,
                     fault: Fault): Run
  {
    if fault == SetupFault then Run([], FailureOutcome(kind))
    else
      match alignmentDelay
      case None => Run([Acquire(endpoint), Release], FailureOutcome(kind))
      case Some(alignment) =>
        Run([Acquire(endpoint)] +
            Scoped(kind, count, delayBetweenEvents, delayBetweenBatches, iterations, wait, alignment, fault) +
            [Release],
            if Hits(kind, fault, iterations, count) then FailureOutcome(kind) else Completed)
  }

  // ---------------------------------------------------------------------
  // Layout of the batches

  lemma IndexLeft<T>(a: seq<T>, b: seq<T>, k: nat)
    requires k < |a|
    ensures (a + b)[k] == a[k]
  {
  }

  lemma IndexRight<T>(a: seq<T>, b: seq<T>, k: nat)
    requires k < |b|
    ensures |a| + k < |a + b| && (a + b)[|a| + k] == b[k]
  {
  }

  lemma IndexMiddle<T>(a: seq<T>, b: seq<T>, c: seq<T>, k: nat)
    requires k < |b|
    ensures |a| + k < |a + b + c| && (a + b + c)[|a| + k] == b[k]
  {
  }

  lemma ConcatAssoc<T>(a: seq<T>, b: seq<T>, c: seq<T>)
    ensures a + (b + c) == a + b + c
  {
  }

  lemma ConcatNil<T>(a: seq<T>)
    ensures a + [] == a && [] + a == a
  {
  }

  lemma {:induction false} BatchEventsLength(j: int, n: nat, de: int)
    ensures |BatchEvents(j, n, de)| == 2 * n
  {
    if n > 0 {
      BatchEventsLength(j, n - 1, de);
    }
  }

  /** Event `i` of a batch sits at position `2 * i` of it, followed by its pause. */
  lemma {:induction false} BatchEventAt(j: int, n: nat, de: int, i: nat)
    requires i < n
    ensures 2 * i + 1 < |BatchEvents(j, n, de)|
    ensures BatchEvents(j, n, de)[2 * i] == Emit(EventId(j, i))
    ensures BatchEvents(j, n, de)[2 * i + 1] == Pause(de)
  {
    var prev, pair := BatchEvents(j, n - 1, de), [Emit(EventId(j, n - 1)), Pause(de)];
    BatchEventsLength(j, n - 1, de);
    assert BatchEvents(j, n, de) == prev + pair;
    if i < n - 1 {
      BatchEventAt(j, n - 1, de, i);
      IndexLeft(prev, pair, 2 * i);
      IndexLeft(prev, pair, 2 * i + 1);
    } else {
      IndexRight(prev, pair, 0);
      IndexRight(prev, pair, 1);
    }
  }

  lemma BatchesUnfold(m: nat, n: nat, de: int, db: int)
    requires m > 0
    ensures Batches(m, n, de, db) == Batches(m - 1, n, de, db) + BatchEvents(m - 1, n, de) + [Pause(db)]
  {
  }

  lemma {:induction false} BatchStartIsProduct(j: nat, n: nat)
    ensures BatchStart(j, n) == j * (2 * n + 1)
  {
    if j > 0 {
      BatchStartIsProduct(j - 1, n);
      assert (j - 1) * (2 * n + 1) + 2 * n + 1 == j * (2 * n + 1);
    }
  }

  lemma {:induction false} BatchesLength(m: nat, n: nat, de: int, db: int)
    ensures |Batches(m, n, de, db)| == BatchStart(m, n)
  {
    if m > 0 {
      BatchesLength(m - 1, n, de, db);
      BatchEventsLength(m - 1, n, de);
    }
  }

  /** Position `x` of the first `m - 1` batches keeps its action in `m`. */
  lemma BatchesExtend(m: nat, n: nat, de: int, db: int, x: nat)
    requires 0 < m && x < |Batches(m - 1, n, de, db)|
    ensures x < |Batches(m, n, de, db)| && Batches(m, n, de, db)[x] == Batches(m - 1, n, de, db)[x]
  {
    var prev, last := Batches(m - 1, n, de, db), BatchEvents(m - 1, n, de);
    BatchesUnfold(m, n, de, db);
    IndexLeft(prev + last, [Pause(db)], x);
    IndexLeft(prev, last, x);
  }

  /** Event `i` of the last of `m` batches, at position `x`, follows the
      earlier batches. */
  lemma EventInLastBatch(m: nat, n: nat, de: int, db: int, j: nat, i: nat, x: nat)
    requires j == m - 1 && i < n && x == |Batches(m - 1, n, de, db)| + 2 * i
    ensures x + 1 < |Batches(m, n, de, db)|
    ensures Batches(m, n, de, db)[x] == Emit(EventId(j, i))
    ensures Batches(m, n, de, db)[x + 1] == Pause(de)
  {
    var prev, last := Batches(m - 1, n, de, db), BatchEvents(m - 1, n, de);
    BatchEventAt(m - 1, n, de, i);
    BatchesUnfold(m, n, de, db);
    IndexMiddle(prev, last, [Pause(db)], 2 * i);
    IndexMiddle(prev, last, [Pause(db)], 2 * i + 1);
  }

  /** Event `i` of batch `j`, and the inter-event pause after it. */
  lemma {:induction false} EventAt(m: nat, n: nat, de: int, db: int, j: nat, i: nat)
    requires j < m && i < n
    ensures EventSlot(j, i, n) + 1 < |Batches(m, n, de, db)|
    ensures Batches(m, n, de, db)[EventSlot(j, i, n)] == Emit(EventId(j, i))
    ensures Batches(m, n, de, db)[EventSlot(j, i, n) + 1] == Pause(de)
  {
    if j < m - 1 {
      EventAt(m - 1, n, de, db, j, i);
      BatchesExtend(m, n, de, db, EventSlot(j, i, n));
      BatchesExtend(m, n, de, db, EventSlot(j, i, n) + 1);
    } else {
      BatchesLength(m - 1, n, de, db);
      EventInLastBatch(m, n, de, db, j, i, EventSlot(j, i, n));
    }
  }

  /** The pause closing the last of `m` batches. */
  lemma LastBatchEnd(m: nat, n: nat, de: int, db: int)
    requires 0 < m
    ensures EventSlot(m - 1, n, n) < |Batches(m, n, de, db)|
    ensures Batches(m, n, de, db)[EventSlot(m - 1, n, n)] == Pause(db)
  {
    var prev, last := Batches(m - 1, n, de, db), BatchEvents(m - 1, n, de);
    BatchesLength(m - 1, n, de, db);
    BatchEventsLength(m - 1, n, de);
    BatchesUnfold(m, n, de, db);
    IndexRight(prev + last, [Pause(db)], 0);
  }

  /** The inter-batch pause closing batch `j`. */
  lemma {:induction false} BatchEndAt(m: nat, n: nat, de: int, db: int, j: nat)
    requires j < m
    ensures EventSlot(j, n, n) < |Batches(m, n, de, db)|
    ensures Batches(m, n, de, db)[EventSlot(j, n, n)] == Pause(db)
  {
    if j < m - 1 {
      BatchEndAt(m - 1, n, de, db, j);
      BatchesExtend(m, n, de, db, EventSlot(j, n, n));
    } else {
      LastBatchEnd(m, n, de, db);
    }
  }

  /** Batch `j` occupies positions `EventSlot(j, 0, n)` to `EventSlot(j, n, n)`:
      event `i` is followed by the inter-event pause and the batch by the
      inter-batch pause; `m` batches take `m * (2 * n + 1)` actions. */
  lemma BatchesLayout(m: nat, n: nat, de: int, db: int)
    ensures |Batches(m, n, de, db)| == BatchStart(m, n)
    ensures forall j: nat, i: nat :: j < m && i < n ==>
      EventSlot(j, i, n) + 1 < |Batches(m, n, de, db)| &&
      Batches(m, n, de, db)[EventSlot(j, i, n)] == Emit(EventId(j, i)) &&
      Batches(m, n, de, db)[EventSlot(j, i, n) + 1] == Pause(de)
    ensures forall j: nat :: j < m ==>
      EventSlot(j, n, n) < |Batches(m, n, de, db)| &&
      Batches(m, n, de, db)[EventSlot(j, n, n)] == Pause(db)
  {
    BatchesLength(m, n, de, db);
    forall j: nat, i: nat | j < m && i < n
      ensures EventSlot(j, i, n) + 1 < |Batches(m, n, de, db)| &&
        Batches(m, n, de, db)[EventSlot(j, i, n)] == Emit(EventId(j, i)) &&
        Batches(m, n, de, db)[EventSlot(j, i, n) + 1] == Pause(de)
    {
      EventAt(m, n, de, db, j, i);
    }
    forall j: nat | j < m
      ensures EventSlot(j, n, n) < |Batches(m, n, de, db)| &&
        Batches(m, n, de, db)[EventSlot(j, n, n)] == Pause(db)
    {
      BatchEndAt(m, n, de, db, j);
    }
  }

  /** `m` batches of `n` events take `m * (2 * n + 1)` actions. */
  lemma BatchesSize(m: nat, n: nat, de: int, db: int)
    ensures |Batches(m, n, de, db)| == m * (2 * n + 1)
  {
    BatchesLength(m, n, de, db);
    BatchStartIsProduct(m, n);
  }

  // ---------------------------------------------------------------------
  // Which events are emitted, and in which order

  /** The events a sequence of actions emits, in order. */
  function Emitted(actions: seq<Action>): seq<EventId> {
    if actions == [] then []
    else (if actions[0].Emit? then [actions[0].id] else []) + Emitted(actions[1..])
  }

  /** Events `0 .. n - 1` of batch `j`. */
  function Row(j: int, n: nat): seq<EventId> {
    if n == 0 then [] else Row(j, n - 1) + [EventId(j, n - 1)]
  }

  /** Every event of `m` batches of `n`, batch by batch. */
  function LexOrder(m: nat, n: nat): seq<EventId> {
    if m == 0 then [] else LexOrder(m - 1, n) + Row(m - 1, n)
  }

  lemma EmittedSingle(a: Action)
    ensures Emitted([a]) == if a.Emit? then [a.id] else []
  {
    assert [a][1..] == [];
  }

  lemma {:induction false} EmittedConcat(a: seq<Action>, b: seq<Action>)
    ensures Emitted(a + b) == Emitted(a) + Emitted(b)
  {
    if a != [] {
      assert (a + b)[0] == a[0];
      assert (a + b)[1..] == a[1..] + b;
      EmittedConcat(a[1..], b);
    } else {
      assert a + b == b;
    }
  }

  lemma EmittedEventPair(e: EventId, delay: int)
    ensures Emitted([Emit(e), Pause(delay)]) == [e]
  {
    assert [Emit(e), Pause(delay)][1..] == [Pause(delay)];
    EmittedSingle(Pause(delay));
    ConcatNil([e]);
  }

  lemma {:induction false} EmittedBatchEvents(j: int, n: nat, de: int)
    ensures Emitted(BatchEvents(j, n, de)) == Row(j, n)
  {
    if n > 0 {
      EmittedBatchEvents(j, n - 1, de);
      EmittedConcat(BatchEvents(j, n - 1, de), [Emit(EventId(j, n - 1)), Pause(de)]);
      EmittedEventPair(EventId(j, n - 1), de);
    }
  }

  lemma EmittedWithPause(prev: seq<Action>, last: seq<Action>, delay: int, e: seq<EventId>, f: seq<EventId>)
    requires Emitted(prev) == e && Emitted(last) == f
    ensures Emitted(prev + last + [Pause(delay)]) == e + f
  {
    EmittedConcat(prev + last, [Pause(delay)]);
    EmittedSingle(Pause(delay));
    EmittedConcat(prev, last);
    ConcatNil(e + f);
  }

  /** The batches emit every event once, batch by batch. */
  lemma {:induction false} EmittedBatches(m: nat, n: nat, de: int, db: int)
    ensures Emitted(Batches(m, n, de, db)) == LexOrder(m, n)
  {
    if m > 0 {
      var prev, last := Batches(m - 1, n, de, db), BatchEvents(m - 1, n, de);
      EmittedBatches(m - 1, n, de, db);
      EmittedBatchEvents(m - 1, n, de);
      BatchesUnfold(m, n, de, db);
      EmittedWithPause(prev, last, db, LexOrder(m - 1, n), Row(m - 1, n));
    }
  }

  lemma {:induction false} RowAt(j: int, n: nat, k: nat)
    requires k < n
    ensures |Row(j, n)| == n && Row(j, n)[k] == EventId(j, k)
  {
    if k < n - 1 {
      RowAt(j, n - 1, k);
      IndexLeft(Row(j, n - 1), [EventId(j, n - 1)], k);
    } else {
      RowEnumerates(j, n - 1);
    }
  }

  lemma {:induction false} RowEnumerates(j: int, n: nat)
    ensures |Row(j, n)| == n
    ensures forall k :: 0 <= k < n ==> Row(j, n)[k] == EventId(j, k)
    ensures forall e :: e in Row(j, n) <==> e.batch == j && 0 <= e.index < n
  {
    if n > 0 {
      RowEnumerates(j, n - 1);
    }
  }

  lemma {:induction false} LexOrderLength(m: nat, n: nat)
    ensures |LexOrder(m, n)| == m * n
  {
    if m > 0 {
      LexOrderLength(m - 1, n);
      RowEnumerates(m - 1, n);
      assert (m - 1) * n + n == m * n;
    }
  }

  lemma {:induction false} LexOrderAt(m: nat, n: nat, k: nat)
    requires k < |LexOrder(m, n)|
    ensures 0 <= LexOrder(m, n)[k].batch < m && 0 <= LexOrder(m, n)[k].index < n
  {
    var prev, row := LexOrder(m - 1, n), Row(m - 1, n);
    assert LexOrder(m, n) == prev + row;
    RowLength(m - 1, n);
    if k < |prev| {
      LexOrderAt(m - 1, n, k);
      IndexLeft(prev, row, k);
    } else {
      IndexRight(prev, row, k - |prev|);
      RowAt(m - 1, n, k - |prev|);
    }
  }

  lemma LexOrderMember(m: nat, n: nat, e: EventId)
    requires e in LexOrder(m, n)
    ensures 0 <= e.batch < m && 0 <= e.index < n
  {
    var k :| 0 <= k < |LexOrder(m, n)| && LexOrder(m, n)[k] == e;
    LexOrderAt(m, n, k);
  }

  lemma {:induction false} LexOrderContains(m: nat, n: nat, e: EventId)
    requires 0 <= e.batch < m && 0 <= e.index < n
    ensures e in LexOrder(m, n)
  {
    if e.batch < m - 1 {
      LexOrderContains(m - 1, n, e);
    } else {
      RowEnumerates(m - 1, n);
    }
  }

  /** `LexOrder(m, n)` holds exactly the events of the `m` by `n` grid. */
  lemma LexOrderMembers(m: nat, n: nat)
    ensures forall e :: e in LexOrder(m, n) <==> 0 <= e.batch < m && 0 <= e.index < n
  {
    forall e
      ensures e in LexOrder(m, n) <==> 0 <= e.batch < m && 0 <= e.index < n
    {
      if e in LexOrder(m, n) {
        LexOrderMember(m, n, e);
      }
      if 0 <= e.batch < m && 0 <= e.index < n {
        LexOrderContains(m, n, e);
      }
    }
  }

  lemma {:induction false} RowLength(j: int, n: nat)
    ensures |Row(j, n)| == n
  {
    if n > 0 {
      RowLength(j, n - 1);
    }
  }

  /** Any two positions of `LexOrder(m, n)` hold events in lexicographic order. */
  lemma {:induction false} LexOrderPairOrdered(m: nat, n: nat, a: nat, b: nat)
    requires a < b < |LexOrder(m, n)|
    ensures Before(LexOrder(m, n)[a], LexOrder(m, n)[b])
  {
    var prev, row := LexOrder(m - 1, n), Row(m - 1, n);
    assert LexOrder(m, n) == prev + row;
    RowLength(m - 1, n);
    if b < |prev| {
      LexOrderPairOrdered(m - 1, n, a, b);
      IndexLeft(prev, row, a);
      IndexLeft(prev, row, b);
    } else if a < |prev| {
      IndexLeft(prev, row, a);
      LexOrderAt(m - 1, n, a);
      IndexRight(prev, row, b - |prev|);
      RowAt(m - 1, n, b - |prev|);
    } else {
      IndexRight(prev, row, a - |prev|);
      IndexRight(prev, row, b - |prev|);
      RowAt(m - 1, n, a - |prev|);
      RowAt(m - 1, n, b - |prev|);
    }
  }

  /** `LexOrder(m, n)` is strictly increasing in lexicographic order, so it
      lists every event of the grid exactly once. */
  lemma LexOrderSorted(m: nat, n: nat)
    ensures forall a, b :: 0 <= a < b < |LexOrder(m, n)| ==> Before(LexOrder(m, n)[a], LexOrder(m, n)[b])
  {
    forall a, b | 0 <= a < b < |LexOrder(m, n)|
      ensures Before(LexOrder(m, n)[a], LexOrder(m, n)[b])
    {
      LexOrderPairOrdered(m, n, a, b);
    }
  }

  // ---------------------------------------------------------------------
  // Properties of a driver's run

  lemma {:induction false} BatchEventsPrefix(j: int, i: nat, n: nat, de: int)
    requires i <= n
    ensures 2 * i <= |BatchEvents(j, n, de)|
    ensures BatchEvents(j, i, de) == BatchEvents(j, n, de)[..2 * i]
    decreases n
  {
    BatchEventsLength(j, n, de);
    if i < n {
      BatchEventsPrefix(j, i, n - 1, de);
      BatchEventsLength(j, n - 1, de);
      assert BatchEvents(j, n, de)[..2 * (n - 1)] == BatchEvents(j, n - 1, de);
    } else {
      assert BatchEvents(j, n, de)[..2 * n] == BatchEvents(j, n, de);
    }
  }

  lemma TakeConcatLeft<T>(a: seq<T>, b: seq<T>, k: nat)
    requires k <= |a|
    ensures (a + b)[..k] == a[..k]
  {
  }

  lemma TakeConcatRight<T>(a: seq<T>, b: seq<T>, k: nat)
    requires k <= |b|
    ensures (a + b)[..|a| + k] == a + b[..k]
  {
  }

  /** The actions up to event `i` of batch `j` are a prefix of the batches. */
  lemma {:induction false} BatchesPrefix(m: nat, n: nat, de: int, db: int, j: nat, i: nat)
    requires j < m && i <= n
    ensures EventSlot(j, i, n) <= |Batches(m, n, de, db)|
    ensures Batches(j, n, de, db) + BatchEvents(j, i, de) == Batches(m, n, de, db)[..EventSlot(j, i, n)]
  {
    var prev, rest := Batches(m - 1, n, de, db), BatchEvents(m - 1, n, de) + [Pause(db)];
    BatchesLength(m - 1, n, de, db);
    BatchEventsLength(m - 1, n, de);
    assert Batches(m, n, de, db) == prev + rest;
    if j < m - 1 {
      BatchesPrefix(m - 1, n, de, db, j, i);
      TakeConcatLeft(prev, rest, EventSlot(j, i, n));
    } else {
      BatchEventsPrefix(j, i, n, de);
      TakeConcatRight(prev, rest, 2 * i);
      TakeConcatLeft(BatchEvents(j, n, de), [Pause(db)], 2 * i);
    }
  }

  /** Planned actions before the batches: the optional alignment pause. */
  function Lead(wait: bool): nat { if wait then 1 else 0 }

  /** Where in the planned actions a run that fails inside the loops stops. */
  function FailurePosition(wait: bool, fault: Fault, count: int): int
    requires (fault.EmitFault? || fault.SpanEndFault?) && fault.at.batch >= 0 && fault.at.index >= 0
  {
    Lead(wait) + EventSlot(fault.at.batch, Done(fault), Nat(count))
  }

  /** Position `x` of the batches is position `Lead(wait) + x` of the plan. */
  lemma PlannedAt(kind: StreamKind, count: int, de: int, db: int, iterations: int, wait: bool, alignment: int,
                  x: nat)
    requires x < |Batches(Nat(iterations), Nat(count), de, db)|
    ensures Lead(wait) + x < |Planned(kind, count, de, db, iterations, wait, alignment)|
    ensures Planned(kind, count, de, db, iterations, wait, alignment)[Lead(wait) + x]
      == Batches(Nat(iterations), Nat(count), de, db)[x]
  {
    var h, b, t := Header(wait, alignment), Batches(Nat(iterations), Nat(count), de, db), Trailer(kind);
    IndexRight(h, b, x);
    IndexLeft(h + b, t, Lead(wait) + x);
  }

  /** What stands at position `p` of the plan: the alignment pause, then
      only emissions and pacer pauses, then the drain. */
  lemma PlannedActionAt(kind: StreamKind, count: int, de: int, db: int, iterations: int, wait: bool,
                        alignment: int, p: nat)
    requires p < |Planned(kind, count, de, db, iterations, wait, alignment)|
    ensures var a := Planned(kind, count, de, db, iterations, wait, alignment);
      (p < Lead(wait) ==> a[p] == AlignPause(alignment)) &&
      (Lead(wait) <= p < |a| - |Trailer(kind)| ==> a[p].Emit? || a[p].Pause?) &&
      (|a| - |Trailer(kind)| <= p ==> a[p] == Drain(DrainDelay))
  {
    var h, b, t := Header(wait, alignment), Batches(Nat(iterations), Nat(count), de, db), Trailer(kind);
    if p < |h| {
      IndexLeft(h, b, p);
      IndexLeft(h + b, t, p);
    } else if p < |h| + |b| {
      PlannedAt(kind, count, de, db, iterations, wait, alignment, p - |h|);
      BatchesPaced(Nat(iterations), Nat(count), de, db, p - |h|);
    } else {
      IndexRight(h + b, t, p - |h + b|);
    }
  }

  /** The plan up to position `x` of the batches. */
  lemma PlannedPrefix(kind: StreamKind, count: int, de: int, db: int,
                      iterations: int, wait: bool, alignment: int, x: nat)
    requires x <= |Batches(Nat(iterations), Nat(count), de, db)|
    ensures Lead(wait) + x <= |Planned(kind, count, de, db, iterations, wait, alignment)|
    ensures Planned(kind, count, de, db, iterations, wait, alignment)[..Lead(wait) + x]
      == Header(wait, alignment) + Batches(Nat(iterations), Nat(count), de, db)[..x]
  {
    var h, b := Header(wait, alignment), Batches(Nat(iterations), Nat(count), de, db);
    TakeConcatLeft(h + b, Trailer(kind), Lead(wait) + x);
    TakeConcatRight(h, b, x);
  }

  /** A run stops at `FailurePosition` of the plan: at the failing emission,
      or just after the pause of a span that fails to stop. */
  lemma FailurePositionInPlan(kind: StreamKind, count: int, de: int, db: int,
                              iterations: int, wait: bool, alignment: int, fault: Fault)
    requires Hits(kind, fault, iterations, count)
    ensures 0 <= FailurePosition(wait, fault, count) <= |Planned(kind, count, de, db, iterations, wait, alignment)|
    ensures fault.EmitFault? ==>
      var a, x := Planned(kind, count, de, db, iterations, wait, alignment), FailurePosition(wait, fault, count);
      x < |a| && a[x] == Emit(fault.at)
    ensures fault.SpanEndFault? ==>
      var a, x := Planned(kind, count, de, db, iterations, wait, alignment), FailurePosition(wait, fault, count);
      2 <= x && a[x - 2] == Emit(fault.at) && a[x - 1] == Pause(de)
  {
    var j, i, n, m := fault.at.batch, fault.at.index, Nat(count), Nat(iterations);
    EventAt(m, n, de, db, j, i);
    PlannedAt(kind, count, de, db, iterations, wait, alignment, EventSlot(j, i, n));
    PlannedAt(kind, count, de, db, iterations, wait, alignment, EventSlot(j, i, n) + 1);
  }

  /** A run that fails inside the loops performs exactly the planned actions
      before `FailurePosition`, between acquiring and releasing its exporter. */
  lemma FailedRunIsPlannedPrefix(kind: StreamKind, endpoint: string, count: int, de: int, db: int,
                                 iterations: int, wait: bool, alignment: int, fault: Fault)
    requires Hits(kind, fault, iterations, count)
    ensures FailurePosition(wait, fault, count) <= |Planned(kind, count, de, db, iterations, wait, alignment)|
    ensures DriverRun(kind, endpoint, count, de, db, iterations, wait, Some(alignment), fault)
      == Run([Acquire(endpoint)] +
             Planned(kind, count, de, db, iterations, wait, alignment)[..FailurePosition(wait, fault, count)] +
             [Release],
             FailureOutcome(kind))
  {
    var j, d, n, m := fault.at.batch, Done(fault), Nat(count), Nat(iterations);
    BatchesPrefix(m, n, de, db, j, d);
    PlannedPrefix(kind, count, de, db, iterations, wait, alignment, EventSlot(j, d, n));
    ConcatAssoc(Header(wait, alignment), Batches(j, n, de, db), BatchEvents(j, d, de));
  }

  /** A run that nothing interrupts completes, performing the planned actions
      between acquiring and releasing its exporter. */
  lemma CompletedRunIsPlanned(kind: StreamKind, endpoint: string, count: int, de: int, db: int,
                              iterations: int, wait: bool, alignment: int, fault: Fault)
    requires fault != SetupFault && !Hits(kind, fault, iterations, count)
    ensures DriverRun(kind, endpoint, count, de, db, iterations, wait, Some(alignment), fault) ==
      Run([Acquire(endpoint)] + Planned(kind, count, de, db, iterations, wait, alignment) + [Release], Completed)
  {
  }

  lemma NoEmitOutsideBatches(endpoint: string, wait: bool, alignment: int, kind: StreamKind)
    ensures Emitted([Acquire(endpoint)]) == [] && Emitted(Header(wait, alignment)) == []
    ensures Emitted(Trailer(kind)) == [] && Emitted([Release]) == []
  {
    EmittedSingle(Release);
    EmittedSingle(Acquire(endpoint));
    EmittedSingle(Drain(DrainDelay));
    EmittedSingle(AlignPause(alignment));
  }

  /** A failing run emits exactly the events that come before the failing
      one, and also that one when its span fails to stop. */
  lemma FailedRunEmitsEarlierEvents(kind: StreamKind, endpoint: string, count: int, de: int, db: int,
                                    iterations: int, wait: bool, alignment: int, fault: Fault)
    requires Hits(kind, fault, iterations, count)
    ensures forall e ::
      e in Emitted(DriverRun(kind, endpoint, count, de, db, iterations, wait, Some(alignment), fault).actions) <==>
      0 <= e.batch && 0 <= e.index < count && (Before(e, fault.at) || (fault.SpanEndFault? && e == fault.at))
  {
    var j, i, n := fault.at.batch, Done(fault), Nat(count);
    var h, done, current := Header(wait, alignment), Batches(j, n, de, db), BatchEvents(j, i, de);
    NoEmitOutsideBatches(endpoint, wait, alignment, kind);
    EmittedBatches(j, n, de, db);
    EmittedBatchEvents(j, i, de);
    EmittedConcat(h, done);
    EmittedConcat(h + done, current);
    EmittedConcat([Acquire(endpoint)], h + done + current);
    EmittedConcat([Acquire(endpoint)] + (h + done + current), [Release]);
    ConcatNil(LexOrder(j, n));
    ConcatNil(LexOrder(j, n) + Row(j, i));
    LexOrderMembers(j, n);
    RowEnumerates(j, i);
  }

  /** A planned run emits all `iterations * count` events, each once, in
      strictly increasing lexicographic order. */
  lemma PlannedEmitsAllInOrder(kind: StreamKind, count: int, de: int, db: int,
                               iterations: int, wait: bool, alignment: int)
    ensures Emitted(Planned(kind, count, de, db, iterations, wait, alignment)) == LexOrder(Nat(iterations), Nat(count))
    ensures |Emitted(Planned(kind, count, de, db, iterations, wait, alignment))| == Nat(iterations) * Nat(count)
  {
    var n, m := Nat(count), Nat(iterations);
    var h, b := Header(wait, alignment), Batches(m, n, de, db);
    NoEmitOutsideBatches([], wait, alignment, kind);
    EmittedBatches(m, n, de, db);
    EmittedConcat(h, b);
    EmittedConcat(h + b, Trailer(kind));
    ConcatNil(LexOrder(m, n));
    LexOrderLength(m, n);
  }

  /** A completed run emits the same events as its plan. */
  lemma CompletedRunEmitsPlan(kind: StreamKind, endpoint: string, count: int, de: int, db: int,
                              iterations: int, wait: bool, alignment: int, fault: Fault)
    requires fault != SetupFault && !Hits(kind, fault, iterations, count)
    ensures Emitted(DriverRun(kind, endpoint, count, de, db, iterations, wait, Some(alignment), fault).actions)
      == LexOrder(Nat(iterations), Nat(count))
  {
    var a := Planned(kind, count, de, db, iterations, wait, alignment);
    PlannedEmitsAllInOrder(kind, count, de, db, iterations, wait, alignment);
    NoEmitOutsideBatches(endpoint, wait, alignment, kind);
    EmittedConcat([Acquire(endpoint)], a);
    EmittedConcat([Acquire(endpoint)] + a, [Release]);
    ConcatNil(LexOrder(Nat(iterations), Nat(count)));
  }

  lemma {:induction false} BatchEventPaced(j: int, n: nat, de: int, k: nat)
    requires k < |BatchEvents(j, n, de)|
    ensures BatchEvents(j, n, de)[k].Emit? || BatchEvents(j, n, de)[k].Pause?
  {
    var prev, pair := BatchEvents(j, n - 1, de), [Emit(EventId(j, n - 1)), Pause(de)];
    assert BatchEvents(j, n, de) == prev + pair;
    if k < |prev| {
      BatchEventPaced(j, n - 1, de, k);
      IndexLeft(prev, pair, k);
    } else {
      IndexRight(prev, pair, k - |prev|);
    }
  }

  /** Inside the batches there are only emissions and pacer pauses. */
  lemma {:induction false} BatchesPaced(m: nat, n: nat, de: int, db: int, k: nat)
    requires k < |Batches(m, n, de, db)|
    ensures Batches(m, n, de, db)[k].Emit? || Batches(m, n, de, db)[k].Pause?
  {
    var prev, last := Batches(m - 1, n, de, db), BatchEvents(m - 1, n, de);
    BatchesUnfold(m, n, de, db);
    if k < |prev + last| {
      IndexLeft(prev + last, [Pause(db)], k);
      if k < |prev| {
        BatchesPaced(m - 1, n, de, db, k);
        IndexLeft(prev, last, k);
      } else {
        BatchEventPaced(m - 1, n, de, k - |prev|);
        IndexRight(prev, last, k - |prev|);
      }
    } else {
      IndexRight(prev + last, [Pause(db)], k - |prev + last|);
    }
  }

  /** The `using` scope: a run that builds its exporter acquires it first and
      releases it last, on every path, and does neither in between; a run that
      fails while building it holds nothing to release. */
  lemma ExporterReleasedOnEveryPath(kind: StreamKind, endpoint: string, count: int, de: int, db: int,
                                    iterations: int, wait: bool, alignmentDelay: Option<int>, fault: Fault)
    ensures var a := DriverRun(kind, endpoint, count, de, db, iterations, wait, alignmentDelay, fault).actions;
      (a == [] <==> fault == SetupFault) &&
      (a != [] ==>
        |a| >= 2 && a[0] == Acquire(endpoint) && a[|a| - 1] == Release &&
        forall p :: 0 < p < |a| - 1 ==> !a[p].Acquire? && !a[p].Release?)
  {
    if fault != SetupFault && alignmentDelay.Some? {
      var inner := Scoped(kind, count, de, db, iterations, wait, alignmentDelay.value, fault);
      var a := DriverRun(kind, endpoint, count, de, db, iterations, wait, alignmentDelay, fault).actions;
      IndexLeft([Acquire(endpoint)], inner, 0);
      IndexLeft([Acquire(endpoint)] + inner, [Release], 0);
      forall p | 0 < p < |a| - 1
        ensures !a[p].Acquire? && !a[p].Release?
      {
        IndexRight([Acquire(endpoint)], inner, p - 1);
        IndexLeft([Acquire(endpoint)] + inner, [Release], p);
        ScopedActionAt(kind, count, de, db, iterations, wait, alignmentDelay.value, fault, p - 1);
      }
    }
  }

  /** Inside the `using` scope the exporter is neither acquired nor released. */
  lemma ScopedActionAt(kind: StreamKind, count: int, de: int, db: int, iterations: int, wait: bool,
                       alignment: int, fault: Fault, p: nat)
    requires p < |Scoped(kind, count, de, db, iterations, wait, alignment, fault)|
    ensures !Scoped(kind, count, de, db, iterations, wait, alignment, fault)[p].Acquire?
    ensures !Scoped(kind, count, de, db, iterations, wait, alignment, fault)[p].Release?
  {
    if Hits(kind, fault, iterations, count) {
      var h, b, t := Header(wait, alignment), Batches(fault.at.batch, Nat(count), de, db),
        BatchEvents(fault.at.batch, Done(fault), de);
      if p < |h| {
        IndexLeft(h, b, p);
        IndexLeft(h + b, t, p);
      } else if p < |h| + |b| {
        BatchesPaced(fault.at.batch, Nat(count), de, db, p - |h|);
        IndexRight(h, b, p - |h|);
        IndexLeft(h + b, t, p);
      } else {
        BatchEventPaced(fault.at.batch, Done(fault), de, p - |h + b|);
        IndexRight(h + b, t, p - |h + b|);
      }
    } else {
      PlannedActionAt(kind, count, de, db, iterations, wait, alignment, p);
    }
  }

  /** The alignment pause is the first planned action when `wait` is set, and
      appears nowhere else. */
  lemma AlignmentPausePlacement(kind: StreamKind, count: int, de: int, db: int,
                                iterations: int, wait: bool, alignment: int)
    ensures var a := Planned(kind, count, de, db, iterations, wait, alignment);
      (wait ==> |a| > 0 && a[0] == AlignPause(alignment)) &&
      forall p :: 0 <= p < |a| ==> (a[p].AlignPause? <==> wait && p == 0)
  {
    forall p: nat | p < |Planned(kind, count, de, db, iterations, wait, alignment)|
      ensures var a := Planned(kind, count, de, db, iterations, wait, alignment);
        a[p].AlignPause? <==> wait && p == 0
    {
      PlannedActionAt(kind, count, de, db, iterations, wait, alignment, p);
    }
  }

  /** Only the log driver drains, once, as its last planned action. */
  lemma DrainPlacement(kind: StreamKind, count: int, de: int, db: int,
                       iterations: int, wait: bool, alignment: int)
    ensures var a := Planned(kind, count, de, db, iterations, wait, alignment);
      (kind == Log ==> |a| > 0 && a[|a| - 1] == Drain(DrainDelay)) &&
      forall p :: 0 <= p < |a| ==> (a[p].Drain? <==> kind == Log && p == |a| - 1)
  {
    forall p: nat | p < |Planned(kind, count, de, db, iterations, wait, alignment)|
      ensures var a := Planned(kind, count, de, db, iterations, wait, alignment);
        a[p].Drain? <==> kind == Log && p == |a| - 1
    {
      PlannedActionAt(kind, count, de, db, iterations, wait, alignment, p);
    }
  }

  /** Position `x` of `a` emits `e` and the next one pauses for `delay`. */
  predicate EmitThenPause(a: seq<Action>, x: nat, e: EventId, delay: int) {
    x + 1 < |a| && a[x] == Emit(e) && a[x + 1] == Pause(delay)
  }

  /** Position `x` of `a` pauses for `delay`. */
  predicate PauseAt(a: seq<Action>, x: nat, delay: int) {
    x < |a| && a[x] == Pause(delay)
  }

  lemma PlannedEventAt(kind: StreamKind, count: int, de: int, db: int,
                       iterations: int, wait: bool, alignment: int, j: nat, i: nat)
    requires j < Nat(iterations) && i < Nat(count)
    ensures EmitThenPause(Planned(kind, count, de, db, iterations, wait, alignment),
                          Lead(wait) + EventSlot(j, i, Nat(count)), EventId(j, i), de)
  {
    var n, m := Nat(count), Nat(iterations);
    EventAt(m, n, de, db, j, i);
    PlannedAt(kind, count, de, db, iterations, wait, alignment, EventSlot(j, i, n));
    PlannedAt(kind, count, de, db, iterations, wait, alignment, EventSlot(j, i, n) + 1);
  }

  lemma PlannedBatchEndAt(kind: StreamKind, count: int, de: int, db: int,
                          iterations: int, wait: bool, alignment: int, j: nat)
    requires j < Nat(iterations)
    ensures PauseAt(Planned(kind, count, de, db, iterations, wait, alignment),
                    Lead(wait) + EventSlot(j, Nat(count), Nat(count)), db)
  {
    var n, m := Nat(count), Nat(iterations);
    BatchEndAt(m, n, de, db, j);
    PlannedAt(kind, count, de, db, iterations, wait, alignment, EventSlot(j, n, n));
  }

  /** Every planned event is followed by exactly one inter-event pause, and
      every batch by one inter-batch pause. */
  lemma PausePlacement(kind: StreamKind, count: int, de: int, db: int,
                       iterations: int, wait: bool, alignment: int)
    ensures var a, n, m := Planned(kind, count, de, db, iterations, wait, alignment), Nat(count), Nat(iterations);
      (forall j: nat, i: nat :: j < m && i < n ==> EmitThenPause(a, Lead(wait) + EventSlot(j, i, n), EventId(j, i), de)) &&
      (forall j: nat :: j < m ==> PauseAt(a, Lead(wait) + EventSlot(j, n, n), db))
  {
    forall j: nat, i: nat | j < Nat(iterations) && i < Nat(count)
      ensures EmitThenPause(Planned(kind, count, de, db, iterations, wait, alignment),
                            Lead(wait) + EventSlot(j, i, Nat(count)), EventId(j, i), de)
    {
      PlannedEventAt(kind, count, de, db, iterations, wait, alignment, j, i);
    }
    forall j: nat | j < Nat(iterations)
      ensures PauseAt(Planned(kind, count, de, db, iterations, wait, alignment),
                      Lead(wait) + EventSlot(j, Nat(count), Nat(count)), db)
    {
      PlannedBatchEndAt(kind, count, de, db, iterations, wait, alignment, j);
    }
  }
}
