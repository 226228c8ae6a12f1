/** The values the estimator keeps about completed walks and the user's baseline. */
module Walks {

  /** One completed walk, as stored in the history. */
  datatype WalkRecord = WalkRecord(
    id: int,          // creation time in milliseconds
    date: string,
    time: string,
    route: string,
    speed: real,      // km/h
    distance: real,   // km
    duration: real,   // minutes
    terrain: real)    // terrain factor in effect

  /** The user's manual baseline speed (km/h) and terrain factor. */
  datatype UserSettings = UserSettings(averageSpeed: real, terrainFactor: real)

  /** The settings used when nothing (or nothing readable) was saved. */
  const DefaultSettings := UserSettings(5.5, 1.0)

  /** A finished walk is kept only when its average lies strictly inside these bounds. */
  const MinWalkSpeed: real := 1.0
  const MaxWalkSpeed: real := 15.0

  /** A finished walk is kept only when it covered more than this many km. */
  const MinWalkDistance: real := 0.1

  predicate IsWalkingSpeed(v: real)
  {
    MinWalkSpeed < v < MaxWalkSpeed
  }

  /** What every walk the tracker records satisfies. */
  predicate IsPlausibleWalk(w: WalkRecord)
  {
    IsWalkingSpeed(w.speed) && w.distance > MinWalkDistance && w.duration > 0.0
  }
}
