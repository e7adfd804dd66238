/** Integer tick arithmetic behind `DateTimeExtensions`. A .NET `DateTime` is
    a count of 100-nanosecond ticks since 0001-01-01 together with a `Kind`.
    Operations that raise `ArgumentOutOfRangeException` (or
    `DivideByZeroException`) return `None`. */
module DateTimeExtensions {
  import opened Wrappers

  const TicksPerMillisecond: int := 10_000
  const TicksPerSecond: int := 10_000_000
  const TicksPerMinute: int := 600_000_000
  /** `DateTime.MaxValue.Ticks`: 9999-12-31 23:59:59.9999999. */
  const MaxTicks: int := 3_155_378_975_999_999_999
  /** Ticks of 1970-01-01 00:00:00 UTC, the Unix epoch. */
  const EpochTicks: int := 621_355_968_000_000_000

  type TickCount = t: int | 0 <= t <= MaxTicks

  datatype DateTimeKind = Unspecified | Utc | Local

  datatype DateTime = DateTime(ticks: TickCount, kind: DateTimeKind)

  /** The value a msgpack decoder hands over as a timestamp. */
  datatype MsgpackValue =
    | UInt32(u: int)
    | Int32(n: int)
    | Date(dt: DateTime)
    | Other

  predicate IsUInt32(x: int) { 0 <= x < 0x1_0000_0000 }
  predicate IsInt32(x: int) { -0x8000_0000 <= x < 0x8000_0000 }

  predicate InRange(t: int) { 0 <= t <= MaxTicks }

  const Epoch: DateTime := DateTime(EpochTicks, Utc)

  /** `DateTime.AddTicks`, and the integral cases of `AddSeconds`,
      `AddMilliseconds` and `AddMinutes`: the kind is kept and a result outside
      the DateTime range raises. */
  function AddTicks(dt: DateTime, delta: int): (r: Option<DateTime>)
    ensures r.Some? <==> InRange(dt.ticks + delta)
    ensures r.Some? ==> r.value.ticks - dt.ticks == delta && r.value.kind == dt.kind
  {
    if InRange(dt.ticks + delta) then Some(DateTime(dt.ticks + delta, dt.kind)) else None
  }

  /** `FromUnixTimestamp(seconds, milliseconds)`: the epoch plus whole seconds,
      then plus milliseconds; either step may leave the DateTime range. */
  function FromUnixTimestamp(seconds: int, milliseconds: int := 0): (r: Option<DateTime>)
    ensures r.Some? <==>
      InRange(EpochTicks + seconds * TicksPerSecond) &&
      InRange(EpochTicks + seconds * TicksPerSecond + milliseconds * TicksPerMillisecond)
    ensures r.Some? ==> r.value.kind == Utc
    ensures r.Some? ==>
      r.value.ticks - EpochTicks == seconds * TicksPerSecond + milliseconds * TicksPerMillisecond
  {
    match AddTicks(Epoch, seconds * TicksPerSecond)
    case None => None
    case Some(afterSeconds) => AddTicks(afterSeconds, milliseconds * TicksPerMillisecond)
  }

  /** `DateTime.ToUniversalTime`. A `Utc` value is returned unchanged; a
      `Local` or `Unspecified` value is read as local time, shifted by the
      local zone's offset from UTC at that instant (`localOffset`, in ticks)
      and clamped to the DateTime range. */
  function ToUniversalTime(dt: DateTime, localOffset: int): (r: DateTime)
    ensures r.kind == Utc
    ensures dt.kind == Utc ==> r == dt
    ensures dt.kind != Utc && InRange(dt.ticks - localOffset) ==> r.ticks == dt.ticks - localOffset
  {
    if dt.kind == Utc then dt
    else
      var t := dt.ticks - localOffset;
      DateTime(if t < 0 then 0 else if t > MaxTicks then MaxTicks else t, Utc)
  }

  /** `ConvertToUnixTimestampSeconds`: whole seconds since the epoch. Moving
      the value back by the epoch's ticks raises for instants before 1970. */
  function ConvertToUnixTimestampSeconds(timestamp: DateTime, localOffset: int): (r: Option<int>)
    ensures var utc := ToUniversalTime(timestamp, localOffset);
      (r.Some? <==> utc.ticks >= EpochTicks) &&
      (r.Some? ==> r.value >= 0 &&
                   r.value * TicksPerSecond <= utc.ticks - EpochTicks < (r.value + 1) * TicksPerSecond)
  {
    match AddTicks(ToUniversalTime(timestamp, localOffset), -EpochTicks)
    case None => None
    case Some(unixTs) => Some(unixTs.ticks / TicksPerSecond)
  }

  /** C#'s `%` on integers: the remainder of division truncated toward zero,
      carrying the sign of the dividend. */
  function CsRemainder(a: int, b: int): (r: int)
    requires b != 0
    ensures a >= 0 ==> 0 <= r < Abs(b) && r <= a
    ensures a < 0 ==> 0 < r + Abs(b) && a <= r <= 0
    ensures (a - r) % Abs(b) == 0
  {
    var n := Abs(b);
    TruncatedRemainder(if a >= 0 then a else -a, n);
    RemainderAtMost(if a >= 0 then a else -a, n);
    if a >= 0 then a % n else -((-a) % n)
  }

  /** Taking away the remainder leaves a multiple of the divisor, whichever
      sign the dividend has. */
  lemma TruncatedRemainder(a: int, n: int)
    requires a >= 0 && n > 0
    ensures (a - a % n) % n == 0
    ensures (-a + a % n) % n == 0
  {
    var q := a / n;
    assert a - a % n == q * n;
    MultipleHasNoRemainder(q, n);
    assert -a + a % n == (-q) * n;
    MultipleHasNoRemainder(-q, n);
  }

  /** A remainder is never larger than a non-negative dividend. */
  lemma RemainderAtMost(a: int, n: int)
    requires a >= 0 && n > 0
    ensures a % n <= a
  {
    if a < n {
      DivModUnique(a, n, 0, a);
    }
  }

  /** Euclidean division is determined by its quotient-remainder equation. */
  lemma DivModUnique(x: int, n: int, q: int, r: int)
    requires n > 0 && x == q * n + r && 0 <= r < n
    ensures x / n == q && x % n == r
  {
    var q', r' := x / n, x % n;
    assert (q - q') * n == r' - r;
    if q - q' >= 1 {
    } else if q' - q >= 1 {
    }
  }

  lemma MultipleHasNoRemainder(q: int, n: int)
    requires n > 0
    ensures (q * n) % n == 0
  {
    DivModUnique(q * n, n, q, 0);
  }

  function Abs(x: int): (r: nat)
    ensures r == x || r == -x
  {
    if x < 0 then -x else x
  }

  /** `UnixTimestampSecondsRoundDown`: the Unix seconds of the timestamp,
      rounded down to a multiple of `interval`. A zero interval raises
      `DivideByZeroException`; a negative one rounds as its absolute value. */
  function UnixTimestampSecondsRoundDown(timestamp: DateTime, interval: int, localOffset: int): (r: Option<int>)
    ensures r.Some? <==> ConvertToUnixTimestampSeconds(timestamp, localOffset).Some? && interval != 0
    ensures r.Some? ==>
      var seconds := ConvertToUnixTimestampSeconds(timestamp, localOffset).value;
      0 <= r.value <= seconds < r.value + Abs(interval) && r.value % Abs(interval) == 0
  {
    match ConvertToUnixTimestampSeconds(timestamp, localOffset)
    case None => None
    case Some(seconds) =>
      if interval == 0 then None
      else
        Some(seconds - CsRemainder(seconds, interval))
  }

  /** `TruncateToMinute`: drops the sub-minute part and keeps the kind. */
  function TruncateToMinute(dateTime: DateTime): (r: DateTime)
    ensures r.kind == dateTime.kind
    ensures r.ticks % TicksPerMinute == 0
    ensures r.ticks <= dateTime.ticks < r.ticks + TicksPerMinute
  {
    DateTime((dateTime.ticks / TicksPerMinute) * TicksPerMinute, dateTime.kind)
  }

  /** `FromMsgpackTimestamp`: 32-bit seconds become a UTC instant, a DateTime
      passes through, and anything else yields the current time `now`. */
  function FromMsgpackTimestamp(tsObj: MsgpackValue, now: DateTime): (r: DateTime)
    requires tsObj.UInt32? ==> IsUInt32(tsObj.u)
    requires tsObj.Int32? ==> IsInt32(tsObj.n)
    ensures tsObj.UInt32? ==>
      r.kind == Utc && r.ticks == EpochTicks + tsObj.u * TicksPerSecond
    ensures tsObj.Int32? ==>
      r.kind == Utc && r.ticks == EpochTicks + tsObj.n * TicksPerSecond
    ensures tsObj.Date? ==> r == tsObj.dt
    ensures tsObj.Other? ==> r == now
  {
    match tsObj
    case UInt32(secs) => FromUnixTimestamp(secs).value
    case Int32(secs) => FromUnixTimestamp(secs).value
    case Date(dt) => dt
    case Other => now
  }

  /** Converting back recovers the whole seconds: the milliseconds part
      stays below one second and is dropped. */
  lemma UnixTimestampRoundTrip(seconds: int, milliseconds: int, localOffset: int)
    requires seconds >= 0 && 0 <= milliseconds < 1000
    requires FromUnixTimestamp(seconds, milliseconds).Some?
    ensures ConvertToUnixTimestampSeconds(FromUnixTimestamp(seconds, milliseconds).value, localOffset)
            == Some(seconds)
  {
    var dt := FromUnixTimestamp(seconds, milliseconds).value;
    DivModUnique(dt.ticks - EpochTicks, TicksPerSecond, seconds, milliseconds * TicksPerMillisecond);
  }

  /** The other way round: the seconds of an instant at or after the epoch
      lead back to that instant truncated to a whole second, as UTC. */
  lemma UnixSecondsRoundTrip(timestamp: DateTime, localOffset: int)
    requires ToUniversalTime(timestamp, localOffset).ticks >= EpochTicks
    ensures var utc := ToUniversalTime(timestamp, localOffset);
      var seconds := ConvertToUnixTimestampSeconds(timestamp, localOffset).value;
      FromUnixTimestamp(seconds).Some? &&
      FromUnixTimestamp(seconds).value.kind == Utc &&
      FromUnixTimestamp(seconds).value.ticks <= utc.ticks <
        FromUnixTimestamp(seconds).value.ticks + TicksPerSecond
  {
  }

  /** The minute boundary at or below an instant is unique, so
      `TruncateToMinute` is determined by its contract. */
  lemma TruncateToMinuteUnique(dateTime: DateTime, boundary: int)
    requires boundary % TicksPerMinute == 0
    requires boundary <= dateTime.ticks < boundary + TicksPerMinute
    ensures TruncateToMinute(dateTime).ticks == boundary
  {
    var r := TruncateToMinute(dateTime).ticks;
    DivModUnique(boundary, TicksPerMinute, boundary / TicksPerMinute, 0);
    DivModUnique(r, TicksPerMinute, r / TicksPerMinute, 0);
    DivModUnique(dateTime.ticks, TicksPerMinute, boundary / TicksPerMinute, dateTime.ticks - boundary);
    DivModUnique(dateTime.ticks, TicksPerMinute, r / TicksPerMinute, dateTime.ticks - r);
  }

  lemma TruncateToMinuteIdentityOnBoundary(dateTime: DateTime)
    requires dateTime.ticks % TicksPerMinute == 0
    ensures TruncateToMinute(dateTime) == dateTime
  {
    TruncateToMinuteUnique(dateTime, dateTime.ticks);
  }

  lemma TruncateToMinuteIdempotent(dateTime: DateTime)
    ensures TruncateToMinute(TruncateToMinute(dateTime)) == TruncateToMinute(dateTime)
  {
    TruncateToMinuteIdentityOnBoundary(TruncateToMinute(dateTime));
  }

  /** 32-bit msgpack seconds never leave the DateTime range, and unsigned
      ones convert back to the same number of seconds. */
  lemma MsgpackSecondsRoundTrip(u: int, now: DateTime, localOffset: int)
    requires IsUInt32(u)
    ensures ConvertToUnixTimestampSeconds(FromMsgpackTimestamp(UInt32(u), now), localOffset) == Some(u)
  {
    UnixTimestampRoundTrip(u, 0, localOffset);
  }
}
