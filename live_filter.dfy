/**
 * The live tracking filter as pure functions: what one GPS fix adds to the
 * walked distance, which instantaneous speed it feeds into the smoothing
 * buffer, the buffer's bounded FIFO behaviour, the readout shown while
 * walking, and the decision whether a finished session becomes a walk record.
 */
module LiveFilter {

  import opened Wrappers
  import opened Stats
  import opened Walks
  import opened SpeedModel
  import opened Sequences

  /** Fixes less accurate than this many metres are dropped. */
  const MaxAccuracy: real := 50.0
  /** Moves of at most this many km (1 m) are treated as noise. */
  const MinMove: real := 0.001
  /** Instantaneous speeds enter the buffer only strictly between these (km/h). */
  const MinInstantSpeed: real := 0.5
  const MaxInstantSpeed: real := 15.0
  /** The smoothing buffer keeps this many readings. */
  const BufferCapacity: nat := 10
  const MillisPerHour: real := 3600000.0

  datatype Coord = Coord(lat: real, lng: real)

  /** A raw fix from the geolocation provider. */
  datatype Fix = Fix(lat: real, lng: real, accuracy: real)

  /** An accepted fix, stamped with the clock reading when it was handled. */
  datatype Position = Position(lat: real, lng: real, timestamp: int, accuracy: real)

  function Coords(p: Position): Coord
  {
    Coord(p.lat, p.lng)
  }

  /**
   * The great-circle distance in km between two coordinates. Only what the
   * filter depends on is fixed: it is never negative, zero from a point to
   * itself, and symmetric.
   */
  type Metric = d: (Coord, Coord) -> real
    | (forall a, b :: d(a, b) >= 0.0)
      && (forall a :: d(a, a) == 0.0)
      && (forall a, b :: d(a, b) == d(b, a))
    witness (a: Coord, b: Coord) => 0.0

  /** `(to - from) / 1000 / 3600`: the hours between two millisecond clock readings. */
  function HoursBetween(from: int, to: int): (h: real)
    ensures h > 0.0 <==> to > from
    ensures h == 0.0 <==> to == from
  {
    (to - from) as real / MillisPerHour
  }

  predicate IsPlausibleSpeed(v: real)
  {
    MinInstantSpeed < v < MaxInstantSpeed
  }

  /** A segment counts as movement when it is longer than 1 m and time went forward. */
  predicate IsMove(distance: real, hours: real)
  {
    distance > MinMove && hours > 0.0
  }

  /** The distance a fix adds to the walked total, given the previous accepted fix. */
  function DistanceGain(last: Option<Position>, current: Position, d: Metric): (g: real)
    ensures g >= 0.0
    ensures g != 0.0 ==>
      && last.Some?
      && IsMove(d(Coords(last.value), Coords(current)), HoursBetween(last.value.timestamp, current.timestamp))
    ensures last.Some? && IsMove(d(Coords(last.value), Coords(current)),
                                 HoursBetween(last.value.timestamp, current.timestamp)) ==>
      g == d(Coords(last.value), Coords(current))
  {
    match last
    case None => 0.0
    case Some(p) =>
      var segment := d(Coords(p), Coords(current));
      if IsMove(segment, HoursBetween(p.timestamp, current.timestamp)) then segment else 0.0
  }

  /**
   * The instantaneous speed a fix contributes to the buffer, if any: distance
   * over elapsed hours of a real move, kept only when plausible for walking.
   */
  function SpeedReading(last: Option<Position>, current: Position, d: Metric): (r: Option<real>)
    ensures r.Some? ==> IsPlausibleSpeed(r.value)
    ensures r.Some? ==>
      && DistanceGain(last, current, d) > 0.0
      && r.value * HoursBetween(last.value.timestamp, current.timestamp) == DistanceGain(last, current, d)
    ensures last.Some? ==>
      var segment, hours := d(Coords(last.value), Coords(current)), HoursBetween(last.value.timestamp, current.timestamp);
      IsMove(segment, hours) && IsPlausibleSpeed(segment / hours) ==> r == Some(segment / hours)
  {
    match last
    case None => None
    case Some(p) =>
      var segment := d(Coords(p), Coords(current));
      var hours := HoursBetween(p.timestamp, current.timestamp);
      if IsMove(segment, hours) && IsPlausibleSpeed(segment / hours) then Some(segment / hours) else None
  }

  /** A fix at the same spot as the previous one adds no distance and no speed. */
  lemma StationaryFixIgnored(last: Position, current: Position, d: Metric)
    requires Coords(last) == Coords(current)
    ensures DistanceGain(Some(last), current, d) == 0.0
    ensures SpeedReading(Some(last), current, d) == None
  {
  }

  /** `push` then `shift` when the buffer grows past ten readings. */
  function Push(buffer: seq<real>, v: real): (r: seq<real>)
    ensures |buffer| <= BufferCapacity ==> r == LastN(buffer + [v], BufferCapacity)
  {
    var grown := buffer + [v];
    if |grown| > BufferCapacity then grown[1..] else grown
  }

  /** What the buffer always satisfies: at most ten readings, each plausible. */
  predicate IsSpeedBuffer(buffer: seq<real>)
  {
    |buffer| <= BufferCapacity && forall i :: 0 <= i < |buffer| ==> IsPlausibleSpeed(buffer[i])
  }

  /**
   * Pushing a plausible reading keeps the buffer a speed buffer, puts the
   * reading last, and drops exactly the oldest reading when the buffer was full.
   */
  lemma PushKeepsBuffer(buffer: seq<real>, v: real)
    requires IsSpeedBuffer(buffer) && IsPlausibleSpeed(v)
    ensures var r := Push(buffer, v);
      && IsSpeedBuffer(r)
      && r[|r| - 1] == v
      && (|buffer| < BufferCapacity ==> r == buffer + [v])
      && (|buffer| == BufferCapacity ==> r == buffer[1..] + [v])
  {
    var r := Push(buffer, v);
    if |buffer| == BufferCapacity {
      assert (buffer + [v])[1..] == buffer[1..] + [v];
    }
    forall i | 0 <= i < |r|
      ensures IsPlausibleSpeed(r[i])
    {
      if |buffer| == BufferCapacity {
        assert r[i] == (buffer + [v])[i + 1];
      } else {
        assert r[i] == (buffer + [v])[i];
      }
    }
  }

  /** The buffer after a run of pushes. */
  function Feed(buffer: seq<real>, readings: seq<real>): seq<real>
    decreases |readings|
  {
    if |readings| == 0 then buffer else Feed(Push(buffer, readings[0]), readings[1..])
  }

  /** However many readings arrive, the buffer holds exactly the last ten, oldest first. */
  lemma {:induction false} FeedKeepsLastTen(buffer: seq<real>, readings: seq<real>)
    requires |buffer| <= BufferCapacity
    ensures Feed(buffer, readings) == LastN(buffer + readings, BufferCapacity)
    decreases |readings|
  {
    if |readings| == 0 {
      assert buffer + readings == buffer;
    } else {
      var x, rest := readings[0], readings[1..];
      var pushed := Push(buffer, x);
      assert readings == [x] + rest;
      calc {
        Feed(buffer, readings);
        Feed(pushed, rest);
        { FeedKeepsLastTen(pushed, rest); }
        LastN(pushed + rest, BufferCapacity);
        { LastNOfSuffix(buffer + [x], rest, BufferCapacity); }
        LastN(buffer + [x] + rest, BufferCapacity);
        { assert buffer + [x] + rest == buffer + readings; }
        LastN(buffer + readings, BufferCapacity);
      }
    }
  }

  /** The smoothed speed of a non-empty buffer is itself a plausible walking speed. */
  lemma SmoothedSpeedPlausible(buffer: seq<real>)
    requires IsSpeedBuffer(buffer) && |buffer| > 0
    ensures IsPlausibleSpeed(Mean(buffer))
  {
    MeanStrictlyWithin(buffer, MinInstantSpeed, MaxInstantSpeed);
  }

  /** `Math.max(0, routeDistance - walked)`: the km left of the planned route. */
  function RemainingDistance(routeDistance: real, walked: real): (r: real)
    ensures r >= 0.0
    ensures r >= routeDistance - walked
    ensures walked >= 0.0 ==> r <= Max(0.0, routeDistance)
    ensures r == 0.0 || r == routeDistance - walked
  {
    Max(0.0, routeDistance - walked)
  }

  datatype Remaining = Remaining(distanceKm: real, minutes: real)

  /** What a fix that fed the buffer shows: the smoothed speed and, with a route, what is left. */
  datatype Readout = Readout(currentSpeed: real, remaining: Option<Remaining>)

  function ReadoutOf(buffer: seq<real>, routeDistance: real, walked: real): (r: Readout)
    requires IsSpeedBuffer(buffer) && |buffer| > 0
    ensures r.currentSpeed == Mean(buffer) && IsPlausibleSpeed(r.currentSpeed)
    ensures r.remaining.Some? <==> routeDistance > 0.0
    ensures r.remaining.Some? ==>
      && r.remaining.value.distanceKm == RemainingDistance(routeDistance, walked)
      && r.remaining.value.minutes >= 0.0
      && r.remaining.value.minutes * r.currentSpeed == r.remaining.value.distanceKm * 60.0
  {
    SmoothedSpeedPlausible(buffer);
    var smoothed := Mean(buffer);
    var remaining :=
      if routeDistance > 0.0 then
        var left := RemainingDistance(routeDistance, walked);
        Some(Remaining(left, ProjectedMinutes(left, smoothed)))
      else None;
    Readout(smoothed, remaining)
  }

  /**
   * The walk a stopped session yields, if any. `startTime` and `last` are the
   * session's start and last accepted fix, `walked` its distance, `now` the
   * clock when stopping; `route`, `date` and `time` label the record.
   */
  function Finalize(startTime: Option<int>, last: Option<Position>, walked: real, now: int,
                    terrain: real, route: string, date: string, time: string): (r: Option<WalkRecord>)
    ensures r.Some? <==>
      && startTime.Some? && last.Some? && walked > MinWalkDistance
      && HoursBetween(startTime.value, now) > 0.0
      && IsWalkingSpeed(walked / HoursBetween(startTime.value, now))
    ensures r.Some? ==>
      && IsPlausibleWalk(r.value)
      && r.value.distance == walked
      && r.value.speed == walked / HoursBetween(startTime.value, now)
      && r.value.duration == HoursBetween(startTime.value, now) * 60.0
      && r.value.speed * r.value.duration == r.value.distance * 60.0
      && r.value.id == now && r.value.terrain == terrain
      && r.value.route == route && r.value.date == date && r.value.time == time
  {
    if startTime.Some? && last.Some? && walked > MinWalkDistance then
      var hours := HoursBetween(startTime.value, now);
      // In the source `walked / 0` is +Infinity, which fails the upper bound.
      if hours != 0.0 && IsWalkingSpeed(walked / hours) then
        Some(WalkRecord(now, date, time, route, walked / hours, walked, hours * 60.0, terrain))
      else None
    else None
  }

  /** An average of exactly 1 km/h or exactly 15 km/h is rejected. */
  lemma BoundarySpeedsRejected(start: int, last: Position, walked: real, now: int,
                               terrain: real, route: string, date: string, time: string)
    requires now > start
    requires walked / HoursBetween(start, now) == MinWalkSpeed || walked / HoursBetween(start, now) == MaxWalkSpeed
    ensures Finalize(Some(start), Some(last), walked, now, terrain, route, date, time) == None
  {
  }

  /** A session of at most 100 m never yields a walk, however long it took. */
  lemma ShortSessionDiscarded(startTime: Option<int>, last: Option<Position>, walked: real, now: int,
                              terrain: real, route: string, date: string, time: string)
    requires walked <= MinWalkDistance
    ensures Finalize(startTime, last, walked, now, terrain, route, date, time) == None
  {
  }
}
