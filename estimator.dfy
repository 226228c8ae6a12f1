/**
 * The estimator object: the tracking session's fields, updated in place by
 * starting, feeding fixes to, and stopping a walk, and the walk history that
 * stopping appends to and clearing empties.
 */
module Estimator {

  import opened Wrappers
  import opened Stats
  import opened Walks
  import opened SpeedModel
  import opened Routes
  import opened LiveFilter

  class WalkingTimeEstimator {
    var tracking: bool
    /** Length in km of the planned route, 0 when there is none. */
    var routeDistance: real
    var startTime: Option<int>
    var lastPosition: Option<Position>
    var speedBuffer: seq<real>
    var totalDistanceWalked: real
    /** The walk history, oldest first. */
    var speedData: seq<WalkRecord>
    var userSettings: UserSettings

    ghost predicate Valid()
      reads this
    {
      && IsSpeedBuffer(speedBuffer)
      && totalDistanceWalked >= 0.0
      && (tracking ==> startTime.Some?)
      && (lastPosition.Some? ==> startTime.Some? && lastPosition.value.accuracy <= MaxAccuracy)
    }

    /** A new estimator over the history and settings loaded from storage. */
    constructor (savedData: seq<WalkRecord>, savedSettings: UserSettings)
      ensures Valid()
      ensures !tracking && routeDistance == 0.0 && startTime == None && lastPosition == None
      ensures speedBuffer == [] && totalDistanceWalked == 0.0
      ensures speedData == savedData && userSettings == savedSettings
    {
      tracking := false;
      routeDistance := 0.0;
      startTime := None;
      lastPosition := None;
      speedBuffer := [];
      totalDistanceWalked := 0.0;
      speedData := savedData;
      userSettings := savedSettings;
    }

    /** Begins a session at clock `now`, unless the browser has no geolocation. */
    method StartTracking(geolocationAvailable: bool, now: int)
      requires Valid()
      modifies this
      ensures Valid()
      ensures !geolocationAvailable ==> unchanged(this)
      ensures geolocationAvailable ==>
        && tracking && startTime == Some(now) && lastPosition == None
        && speedBuffer == [] && totalDistanceWalked == 0.0
      ensures routeDistance == old(routeDistance)
      ensures speedData == old(speedData) && userSettings == old(userSettings)
    {
      if !geolocationAvailable {
        return;
      }
      tracking := true;
      startTime := Some(now);
      lastPosition := None;
      speedBuffer := [];
      totalDistanceWalked := 0.0;
    }

    /**
     * Handles one fix delivered at clock `now`. Returns the readout shown when
     * the fix fed the speed buffer.
     */
    method UpdatePosition(fix: Fix, now: int, distance: Metric) returns (readout: Option<Readout>)
      requires Valid()
      modifies this
      ensures Valid()
      ensures !old(tracking) || fix.accuracy > MaxAccuracy ==> unchanged(this) && readout == None
      ensures old(tracking) && fix.accuracy <= MaxAccuracy ==>
        var current := Position(fix.lat, fix.lng, now, fix.accuracy);
        var reading := SpeedReading(old(lastPosition), current, distance);
        && lastPosition == Some(current)
        && totalDistanceWalked == old(totalDistanceWalked) + DistanceGain(old(lastPosition), current, distance)
        && speedBuffer == (if reading.Some? then Push(old(speedBuffer), reading.value) else old(speedBuffer))
        && readout == (if reading.Some? then Some(ReadoutOf(speedBuffer, routeDistance, totalDistanceWalked)) else None)
      ensures totalDistanceWalked >= old(totalDistanceWalked)
      ensures tracking == old(tracking) && startTime == old(startTime) && routeDistance == old(routeDistance)
      ensures speedData == old(speedData) && userSettings == old(userSettings)
    {
      readout := None;
      if !tracking {
        return;
      }
      var current := Position(fix.lat, fix.lng, now, fix.accuracy);
      if current.accuracy > MaxAccuracy {
        return;
      }
      ghost var gain := DistanceGain(lastPosition, current, distance);
      ghost var reading := SpeedReading(lastPosition, current, distance);
      if lastPosition.Some? {
        var segment := distance(Coords(lastPosition.value), Coords(current));
        var timeDiff := HoursBetween(lastPosition.value.timestamp, current.timestamp);
        if segment > MinMove && timeDiff > 0.0 {
          assert gain == segment;
          totalDistanceWalked := totalDistanceWalked + segment;
          var instantSpeed := segment / timeDiff;
          if instantSpeed > MinInstantSpeed && instantSpeed < MaxInstantSpeed {
            assert reading == Some(instantSpeed);
            PushReading(instantSpeed);
            readout := Some(ReadoutOf(speedBuffer, routeDistance, totalDistanceWalked));
          } else {
            assert reading == None;
          }
        } else {
          assert gain == 0.0 && reading == None;
        }
      }
      lastPosition := Some(current);
    }

    /** Appends a plausible reading to the smoothing buffer, dropping the oldest past ten. */
    method PushReading(v: real)
      requires Valid() && IsPlausibleSpeed(v)
      modifies this
      ensures Valid()
      ensures speedBuffer == Push(old(speedBuffer), v)
      ensures tracking == old(tracking) && startTime == old(startTime) && lastPosition == old(lastPosition)
      ensures totalDistanceWalked == old(totalDistanceWalked) && routeDistance == old(routeDistance)
      ensures speedData == old(speedData) && userSettings == old(userSettings)
    {
      PushKeepsBuffer(speedBuffer, v);
      var buffer := speedBuffer + [v];
      if |buffer| > BufferCapacity {
        buffer := buffer[1..];
      }
      speedBuffer := buffer;
    }

    /**
     * Ends the session at clock `now`. When the session passes the acceptance
     * thresholds, appends exactly one walk labelled from the `start` and `end`
     * fields and makes the recent average, rounded to a tenth by `roundTenth`
     * (`parseFloat(x.toFixed(1))`), the new baseline speed.
     */
    method StopTracking(now: int, terrain: real, start: string, end: string, date: string, time: string,
                        roundTenth: real -> real)
      returns (saved: Option<WalkRecord>)
      requires Valid()
      modifies this
      ensures Valid()
      ensures !tracking
      ensures saved == Finalize(old(startTime), old(lastPosition), old(totalDistanceWalked), now, terrain,
                                GenerateRouteDescription(start, end, |old(speedData)|), date, time)
      ensures speedData == old(speedData) + (if saved.Some? then [saved.value] else [])
      ensures forall i :: |old(speedData)| <= i < |speedData| ==> IsPlausibleWalk(speedData[i])
      ensures saved.Some? ==> userSettings == UserSettings(roundTenth(RecentAverageSpeed(speedData)), terrain)
      ensures saved.None? ==> userSettings == old(userSettings)
      ensures startTime == old(startTime) && lastPosition == old(lastPosition)
      ensures speedBuffer == old(speedBuffer) && totalDistanceWalked == old(totalDistanceWalked)
      ensures routeDistance == old(routeDistance)
    {
      ghost var expected := Finalize(startTime, lastPosition, totalDistanceWalked, now, terrain,
                                     GenerateRouteDescription(start, end, |speedData|), date, time);
      tracking := false;
      saved := None;
      if startTime.Some? && lastPosition.Some? && totalDistanceWalked > MinWalkDistance {
        var walkDuration := HoursBetween(startTime.value, now);
        // `totalDistanceWalked / 0` is +Infinity in the source, which fails `< 15`.
        if walkDuration != 0.0 {
          var averageSpeed := totalDistanceWalked / walkDuration;
          if averageSpeed > MinWalkSpeed && averageSpeed < MaxWalkSpeed {
            var newWalk := WalkRecord(now, date, time, GenerateRouteDescription(start, end, |speedData|),
                                      averageSpeed, totalDistanceWalked, walkDuration * 60.0, terrain);
            saved := Some(newWalk);
            assert saved == expected;
            RecordWalk(newWalk);
            var recentAvg := RecentAverageSpeed(speedData);
            UpdatePersonalSpeed(roundTenth(recentAvg), terrain);
          }
        }
      }
    }

    /** `speedData.push(w)`: appends a walk to the history. */
    method RecordWalk(w: WalkRecord)
      requires Valid()
      modifies this
      ensures Valid()
      ensures speedData == old(speedData) + [w]
      ensures tracking == old(tracking) && startTime == old(startTime) && lastPosition == old(lastPosition)
      ensures speedBuffer == old(speedBuffer) && totalDistanceWalked == old(totalDistanceWalked)
      ensures routeDistance == old(routeDistance) && userSettings == old(userSettings)
    {
      speedData := speedData + [w];
    }

    /** Stores the baseline speed and terrain factor entered as the user's settings. */
    method UpdatePersonalSpeed(speed: real, terrain: real)
      requires Valid()
      modifies this
      ensures Valid()
      ensures userSettings == UserSettings(speed, terrain)
      ensures tracking == old(tracking) && startTime == old(startTime) && lastPosition == old(lastPosition)
      ensures speedBuffer == old(speedBuffer) && totalDistanceWalked == old(totalDistanceWalked)
      ensures routeDistance == old(routeDistance) && speedData == old(speedData)
    {
      userSettings := UserSettings(speed, terrain);
    }

    /** Empties the walk history when the user confirms. */
    method ClearData(confirmed: bool)
      requires Valid()
      modifies this
      ensures Valid()
      ensures speedData == if confirmed then [] else old(speedData)
      ensures tracking == old(tracking) && routeDistance == old(routeDistance)
      ensures startTime == old(startTime) && lastPosition == old(lastPosition)
      ensures speedBuffer == old(speedBuffer) && totalDistanceWalked == old(totalDistanceWalked)
      ensures userSettings == old(userSettings)
    {
      if confirmed {
        speedData := [];
      }
    }

    /** A geolocation failure stops a running session just as the stop button does. */
    method HandleLocationError(now: int, terrain: real, start: string, end: string, date: string, time: string,
                               roundTenth: real -> real)
      returns (saved: Option<WalkRecord>)
      requires Valid()
      modifies this
      ensures Valid()
      ensures !tracking
      ensures !old(tracking) ==> unchanged(this) && saved == None
      ensures old(tracking) ==> saved == Finalize(old(startTime), old(lastPosition), old(totalDistanceWalked), now,
                                                  terrain, GenerateRouteDescription(start, end, |old(speedData)|), date, time)
      ensures speedData == old(speedData) + (if saved.Some? then [saved.value] else [])
      ensures saved.Some? ==> userSettings == UserSettings(roundTenth(RecentAverageSpeed(speedData)), terrain)
      ensures saved.None? ==> userSettings == old(userSettings)
      ensures startTime == old(startTime) && lastPosition == old(lastPosition)
      ensures speedBuffer == old(speedBuffer) && totalDistanceWalked == old(totalDistanceWalked)
      ensures routeDistance == old(routeDistance)
    {
      saved := None;
      if tracking {
        saved := StopTracking(now, terrain, start, end, date, time, roundTenth);
      }
    }
  }

  /** What a caller can conclude from the contracts for a short walk. */
  method ShortWalkScenario()
  {
    var app := new WalkingTimeEstimator([], DefaultSettings);
    app.StartTracking(true, 0);
    var metric: Metric := (a: Coord, b: Coord) => if a == b then 0.0 else 0.1;
    var r1 := app.UpdatePosition(Fix(24.8138, 120.9675, 10.0), 1000, metric);
    assert r1 == None && app.totalDistanceWalked == 0.0;
    // 100 m in 60 s is 6 km/h.
    var r2 := app.UpdatePosition(Fix(24.8147, 120.9675, 10.0), 61000, metric);
    assert app.totalDistanceWalked == 0.1;
    assert app.speedBuffer == [6.0];
    // Exactly 100 m is not more than 100 m: no walk is saved.
    var saved := app.StopTracking(120000, 1.0, "", "", "2024-01-01", "08:00:00", x => x);
    assert saved == None && app.speedData == [] && !app.tracking;
  }

  /** A fix less accurate than 50 m changes nothing. */
  method InaccurateFixScenario()
  {
    var app := new WalkingTimeEstimator([], DefaultSettings);
    app.StartTracking(true, 0);
    var metric: Metric := (a: Coord, b: Coord) => if a == b then 0.0 else 0.1;
    var r := app.UpdatePosition(Fix(25.0, 121.0, 51.0), 62000, metric);
    assert r == None && app.totalDistanceWalked == 0.0 && app.lastPosition == None;
  }
}
