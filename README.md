# Personal Walking Time Estimator — a Dafny model of its core

The estimator is a browser application. It predicts how long a planned route
will take on foot from a personalised walking speed, tracks a walk live from
GPS fixes, and records each completed walk so that later predictions adapt to
the user. This project models the logic behind those features and proves
properties of it:

- **Personalised speed** (`SpeedModel`). With at least three recorded walks,
  the estimate is a recency-weighted mean of their speeds: walk `i` weighs
  `1.1^i`. That mean is blended 80/20 with the user's baseline speed, scaled by
  the terrain factor, and floored at 1 km/h. With fewer walks only the scaled
  baseline is used. The *recent average* is the mean of the last five walks,
  or 5.5 km/h with no history.
- **Live tracking filter** (`LiveFilter`). A fix is used only when its accuracy
  is at most 50 m. A segment counts only when it is longer than 1 m and time
  went forward. Its speed feeds a ten-reading smoothing buffer only when it lies
  strictly between 0.5 and 15 km/h. The readout is the buffer's mean and, when a
  route is planned, the distance and minutes left. Stopping a session yields a
  walk only when it covered more than 100 m at an average strictly between 1
  and 15 km/h.
- **The estimator object** (`Estimator.WalkingTimeEstimator`). A class whose
  fields are the session state and the walk history. Its methods
  `StartTracking`, `UpdatePosition`, `StopTracking`, `ClearData`,
  `HandleLocationError` and `UpdatePersonalSpeed`, and the steps `PushReading`
  and `RecordWalk`, update those fields in place, as the source does,
  and each states the whole new state. `UpdatePosition`, `StopTracking` and
  `HandleLocationError` are proved against the functions of `LiveFilter`,
  `SpeedModel` and `Routes`.
- **Walk labels** (`Routes`). An address is shortened to its first
  comma-separated part, cut to 17 characters plus `...` when longer than 20. A
  walk is labelled `start → end`, or `Walk n` when a field is empty.
- **CSV export** (`Csv`). A header row and one row per walk, every field in
  double quotes, joined by commas and newlines. A small reader for that format
  is defined. The export is proved to read back row by row whenever no field
  holds a double quote or a line break.

The browser is replaced by parameters:

- **Form fields:** the base speed, the terrain factor, and the start and end
  fields.
- **Clock:** its readings are integer milliseconds `now`.
- **Confirmation and geolocation:** the answer to the confirmation dialog and
  whether geolocation is available.
- **Formatting:** the date and time strings of a saved walk, the `toFixed`
  conversions, and the number-to-text conversion of the terrain factor.

Great-circle distance is an abstract `Metric`: any function of two coordinates
that is never negative, is zero from a point to itself, and is symmetric. All
the filter's guarantees are proved for every such function, the haversine
formula included.

Numbers are Dafny `real`s. `/ 1000 / 3600` on millisecond differences is
`HoursBetween`. The source computes `distance / 0` when a session is stopped in
the same millisecond it started. In JavaScript that is `+Infinity`, which fails
the `< 15` test; the model spells that case out.

A geolocation error while tracking calls the same stop routine as the stop
button (app.js:421-425 via `toggleTracking`), so a session that meets the
thresholds is saved even when it ends in an error, and no partial session is
discarded on that path. `Estimator.WalkingTimeEstimator.HandleLocationError`
models exactly that.

## Model

| member | source | states |
|---|---|---|
| SpeedModel.PersonalizedSpeed | app.js:201-219 | The estimate is never below 1 km/h; with fewer than three walks it is `max(1, base × terrain)` |
| SpeedModel.LearnedSpeedSingle | app.js:207-211 | With a single recorded walk, whose weight is `1.1^0 = 1`, the learned speed is that walk's speed |
| SpeedModel.LearnedSpeedWithin | app.js:207-211 | The recency-weighted mean of the walk speeds lies between the slowest and the fastest walk |
| SpeedModel.LearnedSpeedMovesToward | app.js:207-211 | Recording one more walk moves the learned speed towards that walk's speed without overshooting it |
| SpeedModel.Weight | app.js:208 | `Math.pow(1.1, i)`: every walk weighs at least 1 |
| SpeedModel.TotalWeight | app.js:210 | The total weight of `n` walks is at least `n`, so the weighted mean never divides by zero |
| SpeedModel.WeightedSumAppend | app.js:209 | Recording a walk after `n` others adds its speed times `1.1^n` to the weighted sum |
| SpeedModel.LearnedSpeedStep | app.js:207-211 | One more walk: the new learned speed times the new total weight is the old learned speed times the old total weight plus the walk's speed times `1.1^n` |
| SpeedModel.NewerWalkPullsHarder | app.js:207-211 | Of two walks recorded in turn, the later one pulls harder: faster-then-slower gives a strictly lower learned speed than slower-then-faster |
| SpeedModel.WeightIncreasing | app.js:208 | A later walk weighs strictly more than an earlier one (`1.1^i < 1.1^j` for `i < j`) |
| SpeedModel.PersonalizedSpeedWithin | app.js:205-215 | With three or more walks and a non-negative terrain factor, the estimate lies between the blends computed from the slowest and from the fastest walk |
| SpeedModel.UniformHistory | app.js:205-215 | When every recorded walk has speed `v`, the estimate is `max(1, (0.8 v + 0.2 base) × terrain)` |
| SpeedModel.RecentWalks | app.js:432 | `slice(-5)`: the last `min(5, n)` walks, as a suffix of the history |
| SpeedModel.RecentWalksIsLastN | app.js:432 | The recent walks are the generic last-`n` of the history with `n = 5`, the same notion as the ten-reading buffer |
| Sequences.LastNOfSuffix | app.js:364-367 | Keeping only the last `n` entries before appending more leaves the last `n` after the append unchanged |
| SpeedModel.RecentAverageSpeed | app.js:429-434 | With no history the recent average is 5.5 km/h |
| SpeedModel.RecentAverageWithin | app.js:429-434 | The recent average lies between the slowest and fastest of the last five walks |
| SpeedModel.RecentAverageIgnoresOlder | app.js:432-433 | Walks older than the last five do not change the recent average |
| SpeedModel.ProjectedMinutes | app.js:160 | The minutes times the speed equal the distance times 60; they are non-negative for a non-negative distance and at most `60 × distance` at 1 km/h or faster |
| SpeedModel.ProjectionWellDefined | app.js:159-160 | The personalised estimate is always a positive divisor, so a route of `d` km is projected to between 0 and `60 d` minutes |
| LiveFilter.HoursBetween | app.js:355 | The elapsed hours are positive exactly when the clock went forward and zero exactly when it stood still |
| LiveFilter.DistanceGain | app.js:352-359 | A fix adds the metric's segment exactly when there is a previous fix and the segment is longer than 1 m forward in time, and nothing otherwise (GPS jitter adds nothing) |
| LiveFilter.SpeedReading | app.js:352-363 | A reading enters the buffer only for a real move, is strictly between 0.5 and 15 km/h, and times the elapsed hours equals the distance added; a real move whose `segment / hours` is in that range always yields that reading |
| LiveFilter.StationaryFixIgnored | app.js:354-358 | A fix at the same coordinates as the previous one adds no distance and no reading, for any metric |
| LiveFilter.Push | app.js:364-367 | Pushing onto a buffer of at most ten readings keeps the last ten of the buffer followed by the reading |
| LiveFilter.PushKeepsBuffer | app.js:363-367 | Pushing a plausible reading keeps at most ten plausible readings, puts the reading last and drops exactly the oldest when full |
| LiveFilter.FeedKeepsLastTen | app.js:364-367 | After any run of readings the buffer is exactly the last ten of everything pushed, oldest first |
| LiveFilter.SmoothedSpeedPlausible | app.js:370 | The smoothed speed of a non-empty buffer is itself strictly between 0.5 and 15 km/h |
| Stats.SumWithin | app.js:370 | The `reduce` sum of readings between `lo` and `hi` lies between `n lo` and `n hi` |
| Stats.MeanWithin | app.js:433 | A mean (sum over length) lies between any lower and upper bound of its entries |
| Stats.MeanStrictlyWithin | app.js:370 | A mean lies strictly inside any open interval holding all its entries |
| LiveFilter.RemainingDistance | app.js:375 | The km left are `max(0, route − walked)`: never negative, at least `route − walked` and equal to 0 or to it, never more than the route |
| LiveFilter.ReadoutOf | app.js:369-379 | The readout shows the buffer's mean, a plausible speed; a remaining part exists exactly when a route is planned, and its minutes times the speed equal its km times 60 |
| LiveFilter.Finalize | app.js:305-319 | A stopped session yields a walk exactly when it has a start, a fix, more than 100 m and an average strictly between 1 and 15 km/h; the walk's speed is distance over elapsed hours and its duration is hours × 60 |
| LiveFilter.BoundarySpeedsRejected | app.js:309 | An average of exactly 1 or exactly 15 km/h is not saved |
| LiveFilter.ShortSessionDiscarded | app.js:305 | A session of at most 100 m is never saved, however long it took |
| Estimator.WalkingTimeEstimator.constructor | app.js:3-17 | A new estimator is idle with no route, no session state, and the loaded history and settings |
| Estimator.WalkingTimeEstimator.StartTracking | app.js:271-282 | Without geolocation nothing changes; otherwise a session starts at `now` with empty buffer, no last fix and no distance |
| Estimator.WalkingTimeEstimator.UpdatePosition | app.js:336-385 | Ignored when idle or less accurate than 50 m; otherwise the distance grows by the fix's gain, the buffer by its reading, the fix becomes the last one, and the readout is that of the new buffer |
| Estimator.WalkingTimeEstimator.PushReading | app.js:363-367 | The buffer becomes `Push` of the old buffer and the reading (the last ten), stays a speed buffer, and no other field changes |
| Estimator.WalkingTimeEstimator.RecordWalk | app.js:321 | The history grows by exactly the given walk at its end; no other field changes |
| Estimator.WalkingTimeEstimator.UpdatePersonalSpeed | app.js:234-241 | The settings become the given baseline speed and terrain factor; no other field changes |
| Estimator.WalkingTimeEstimator.StopTracking | app.js:297-333 | Tracking ends; the history grows by exactly the finalised walk, if any; after a saved walk the baseline becomes the rounded recent average and the terrain factor the one entered |
| Estimator.WalkingTimeEstimator.ClearData | app.js:529-536 | The history is emptied exactly when the user confirms; nothing else changes |
| Estimator.WalkingTimeEstimator.HandleLocationError | app.js:405-426 | Idle: nothing changes. Tracking: the session is stopped, the walk saved and the baseline reset exactly as the stop button would, with the other session fields kept |
| Routes.ShortenAddress | app.js:448-451 | A shortened address has at most 20 characters and no comma |
| Routes.ShortenAddressFirstPart | app.js:448-451 | It is the first comma-separated part itself when that part is at most 20 long, otherwise its first 17 characters and `...` |
| Routes.GenerateRouteDescription | app.js:437-445 | With both endpoints the label is at most 43 characters; otherwise it starts with `Walk ` |
| Routes.FallbackNumbersWalk | app.js:444 | The fallback label `Walk n` reads back as one more than the number of saved walks |
| Routes.DescriptionJoinsEndpoints | app.js:441-442 | With both endpoints short, the label is `start → end` with each address cut at its first comma |
| Text.Split | app.js:449 | `split` gives at least one part, no part holds the separator, and joining the parts gives back the text |
| Text.SplitJoin | app.js:525 | Splitting what was joined from separator-free parts gives back the parts |
| Text.JoinEnds | app.js:525 | `join` output begins with the first part and ends with the last |
| Text.DecimalRoundTrip | app.js:444 | The decimal text of a number reads back as that number |
| Csv.Fields | app.js:515-523 | A walk exports as seven fields |
| Csv.Table | app.js:514-523 | `[headers, ...rows]`: one row per walk after the header row |
| Csv.LineIsQuoted | app.js:525 | A row of one or more fields is written opening and closing with a double quote |
| Csv.LineAvoidsNewline | app.js:525 | A row whose fields hold no line break is written without one |
| Csv.ExportStartsWithHeader | app.js:513-526 | The export opens with the header line, and is exactly that line when no walk is saved |
| Csv.ParseLineRoundTrip | app.js:525 | A line of quoted, comma-joined fields reads back as those fields when none holds a double quote |
| Csv.TableRoundTrip | app.js:525 | Cutting the export of a table at newlines gives one line per row, each reading back as its row, when no field holds a double quote or a line break |
| Csv.CsvRoundTrip | app.js:513-526 | The export has one line per walk after the header, and each line reads back as its row of the table |
| Csv.TableRows | app.js:514-525 | The table's first row is the header and row `i + 1` holds the fields of walk `i` |

## Left out

- The map, directions and autocomplete services, `updateRouteInfo`'s comparison with the directions service's own estimate, `getTerrainDescription`, `updateSpeedHistory`, `showMessage` and the rest of the page updates: display only.
- `routeDistance` is set by `updateRouteInfo` from the directions service. It is a plain field here, read by `UpdatePosition`.
- `watchPosition` and `clearWatch` and the `watchId` field: the model calls `UpdatePosition` and `HandleLocationError` directly, one fix or error at a time.
- `calculateDistance` (the haversine formula) and `toRadians`: trigonometry over reals. They are replaced by the abstract `Metric`, whose three properties the formula has.
- Local storage (`loadSpeedData`, `saveSpeedData`, `loadUserSettings`, `saveUserSettings`): the constructor takes the loaded history and settings as arguments, and saving is not modelled.
- `exportData`'s file download: the exported text itself is `Csv.ConvertToCsv`.
- Floating point: rounding, overflow and NaN are not modelled, so `parseFloat` of a malformed field is out of scope. Arithmetic is exact over reals.
- `toFixed`, `toLocaleTimeString`, `toISOString` and the number-to-text conversion of the terrain factor are parameters.
- Estimator.WalkingTimeEstimator.StopTracking: the rounding `parseFloat(recentAvg.toFixed(1))` is the parameter `roundTenth`. The model does not fix what it computes.
- Routes.ShortenAddress: `substring` counts UTF-16 code units, and the model counts characters. They agree on addresses without characters outside the Basic Multilingual Plane.
- Routes.GenerateRouteDescription: the arrow between the two endpoints is stored mis-encoded in app.js:442 (the three characters `â†’`, as are the other non-ASCII symbols in that file); the model uses the evidently intended `→` (U+2192).
- Csv.CsvRoundTrip: fields holding a double quote or a line break are not escaped by the source, so the round trip is stated only for fields without them.
