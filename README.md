# Waypoint navigation state machine

A Dafny model of the navigation logic of the Android waypoint manager's
`WaypointActivity`: the user marks the current location as a target
("Set"), starts and stops navigation toward it ("Nav", "NavStop"), or
forgets it ("Reset"). While navigating, every location fix updates a
distance readout and ends navigation when the target is less than one
metre away, and every sensor sample recomputes the angle an arrow must be
rotated to point at the target. The target survives restarts in a
preferences record whose missing values read as the sentinel 400.

Modules, leaf first:

- `Locations` — `Option` (a Java `null` is `None`) and `Coord`.
- `Angles` — the heading arithmetic of `onSensorChanged` and Java's
  float `% 360` from `rotateArrowImage`, over exact reals; `SameTurn`
  says two angles differ by whole turns.
- `TargetStore` — the preferences record as a map from the two keys to
  floats; restore with the sentinel test, save as clear-then-put-both,
  clear.
- `NavModel` — the activity's fields as one `State` value, one function
  per handler, the invariant `Inv`, and the properties of the handlers
  and of whole callback sequences (`Run`). Marker commands and arrival
  notices go to an append-only output log; each marker object gets the
  next number, so `ShownMarkers` says which markers are on the map.
- `Waypoint` — class `Navigator`, whose fields are the activity's fields.
  Each handler updates them in place as the source does and ensures
  `Snapshot() == NavModel.<handler>(old(Snapshot()), ...)`, so every
  lemma of `NavModel` applies to the class; the public handlers also keep
  `Valid()` (that is, `NavModel.Inv`).

Library results are parameters: `Location.distanceTo` is the `distance`
of a location sample, `Location.bearingTo` and
`GeomagneticField.getDeclination` are the `bearing` and `declination` of
a sensor sample, and `getLastLocation()` is the `last` argument of the
Set entry (it must be non-null there, as the source dereferences it).

The model follows the code where it differs from what its names and comments suggest:

- There is no separate Arrived state: after arrival the target is still
  present and `doingNavigation` is false (`LocationOutcomes`).
- NavStop only turns navigation off; it does not empty the distance text
  (`NavStopGuard`).
- Reset keeps the in-memory target and `haveTarget`, so Nav can start
  again right after it (`NavAfterReset`). It also keeps `mMarker`, so a
  second Reset or a later Set removes the already removed marker again:
  Reset is idempotent on every field and on the markers shown, while the
  log gains a redundant removal (`ResetIdempotent`). Because `haveTarget`
  is kept too, a resume after Reset in the same activity reconnects and
  brings the target and its marker back, although the record is cleared
  (`ReconnectAfterReset`).
- On an arrival fix, `rotateArrowImage` still runs after
  `performNavigation` returns and overwrites the neutral arrow
  (`LocationOutcomes`).
- The bearing and the direction each get one +360 correction, not a
  normalisation: the direction is guaranteed to lie in [0, 360) only when
  the true azimuth is in [0, 360) (`Angles.Direction`); outside that it
  can fall below 0 or reach 360 and more (`Angles.DirectionOutsideTurn`); the
  arrow angle is Java's truncated remainder, which keeps the sign
  (`Angles.JavaRemKeepsSign`).
- `onConnected` places a marker for a restored target without removing
  the one already shown, so a reconnect leaves two markers on the map
  (`NavModel.ReconnectDuplicatesMarker`); every other callback keeps at
  most the one marker `mMarker` refers to (`NavModel.StepKeepsMarkersTracked`).
- A failed `commit()` is ignored; no persistence error is surfaced.

## Model

| member | source | states |
|---|---|---|
| `Angles.PositiveBearing` | src/edu/mercer/waypointmanager/WaypointActivity.java:344-345 | the corrected bearing is the same direction as the raw one, is unchanged when non-negative, and lies in [0, 360) for a raw bearing in [-360, 360) |
| `Angles.Direction` | src/edu/mercer/waypointmanager/WaypointActivity.java:340-352 | the stored direction is bearing minus (azimuth minus declination) up to whole turns, and lies in [0, 360) when the bearing is in [-360, 360) and the true azimuth in [0, 360) |
| `Angles.JavaRem360` | src/edu/mercer/waypointmanager/WaypointActivity.java:275 | `rotate % 360` is the same direction as `rotate`, lies strictly within one turn either way and keeps the sign of `rotate` |
| `Angles.JavaRemWithinTurn` | src/edu/mercer/waypointmanager/WaypointActivity.java:275 | an angle strictly within one turn either way is left unchanged by `% 360` |
| `Angles.JavaRemKeepsSign` | src/edu/mercer/waypointmanager/WaypointActivity.java:275 | -90 % 360 is -90 (not 270) and 450 % 360 is 90 |
| `Angles.DirectionExample` | src/edu/mercer/waypointmanager/WaypointActivity.java:340-352 | azimuth 90, declination 5 and bearing 100 give direction 15 |
| `Angles.DirectionOutsideTurn` | src/edu/mercer/waypointmanager/WaypointActivity.java:344-352 | with the true azimuth outside [0, 360) the direction can be -4 or 365: the single correction does not normalise |
| `Angles.ArrowAngleSameTurn` | src/edu/mercer/waypointmanager/WaypointActivity.java:340-352 | for all inputs the arrow angle lies strictly within one turn either way and points the same way as bearing minus true azimuth |
| `TargetStore.Restore` | src/edu/mercer/waypointmanager/WaypointActivity.java:96-99 | a target is restored iff both stored floats (400 when missing) are strictly below 400, and then both keys are present and give the target |
| `TargetStore.Cleared` | src/edu/mercer/waypointmanager/WaypointActivity.java:263-266 | after clear and commit the record holds no key |
| `TargetStore.SaveRecord` | src/edu/mercer/waypointmanager/WaypointActivity.java:242-251 | after a save the record holds exactly the two keys, with the saved latitude and longitude |
| `TargetStore.SaveThenRestore` | src/edu/mercer/waypointmanager/WaypointActivity.java:242-251 | saving a pair below 400 and restoring gives the pair back, whatever the record held before |
| `TargetStore.SaveSentinelRestoresNothing` | src/edu/mercer/waypointmanager/WaypointActivity.java:96-99 | a saved pair with a coordinate at or above 400 restores as no target |
| `TargetStore.ClearThenRestore` | src/edu/mercer/waypointmanager/WaypointActivity.java:263-266 | after Reset's clear nothing is restored |
| `TargetStore.HalfRecordRestoresNothing` | src/edu/mercer/waypointmanager/WaypointActivity.java:96-99 | a record missing either key restores nothing |
| `NavModel.OnCreate` | src/edu/mercer/waypointmanager/WaypointActivity.java:96-107 | `haveTarget` is set iff both stored floats are below 400, and then `latTarget`/`longTarget` are the restored target; navigation is off, no target, no marker, empty log |
| `NavModel.CreateInv` | src/edu/mercer/waypointmanager/WaypointActivity.java:59-66 | the initial fields satisfy the invariant and show no marker |
| `NavModel.StepInv` | src/edu/mercer/waypointmanager/WaypointActivity.java:158-161 | every callback keeps the invariant: navigation is on only with a target, and marker numbers in use were handed out |
| `NavModel.NavGuard` | src/edu/mercer/waypointmanager/WaypointActivity.java:158-161 | Nav without a target or while navigating changes nothing; otherwise it only turns navigation on |
| `NavModel.NavStopGuard` | src/edu/mercer/waypointmanager/WaypointActivity.java:162-167 | NavStop changes nothing unless a target exists and navigation is on; otherwise it only turns navigation off |
| `NavModel.SetReplacesTarget` | src/edu/mercer/waypointmanager/WaypointActivity.java:153-155 | Set makes the current location the target, persists both coordinates, turns navigation off, and logs the removal of the old marker (if any) before the new marker at the target |
| `NavModel.SetShowsOneMarker` | src/edu/mercer/waypointmanager/WaypointActivity.java:211-217 | from a state where only `mMarker`'s marker is shown, after Set exactly the new marker is on the map, and the invariant holds |
| `NavModel.ResetClears` | src/edu/mercer/waypointmanager/WaypointActivity.java:253-267 | in every state Reset turns navigation off, empties the text, takes `mMarker`'s marker off the map, leaves a record that restores nothing, and keeps the in-memory target, `haveTarget` and `mMarker` |
| `NavModel.ResetHidesAllMarkers` | src/edu/mercer/waypointmanager/WaypointActivity.java:255-258 | from a state where only `mMarker`'s marker is shown, Reset leaves no marker on the map |
| `NavModel.ResetIdempotent` | src/edu/mercer/waypointmanager/WaypointActivity.java:168-171 | in every state, Reset twice leaves the same fields and the same markers shown as Reset once |
| `NavModel.NavAfterReset` | src/edu/mercer/waypointmanager/WaypointActivity.java:158-171 | Nav right after Reset starts navigation toward the kept target |
| `NavModel.ReconnectAfterReset` | src/edu/mercer/waypointmanager/WaypointActivity.java:303-314 | with `haveTarget`, a connect after Reset sets the target to (`latTarget`, `longTarget`) and shows a new marker at it, while the record still restores nothing |
| `NavModel.LocationOutcomes` | src/edu/mercer/waypointmanager/WaypointActivity.java:368-374 | a fix is ignored unless navigating toward a target; below 1 m navigation stops, the text empties and one arrival notice is logged; otherwise the text shows the distance; the arrow is then rotated by the stored direction |
| `NavModel.SensorOutcome` | src/edu/mercer/waypointmanager/WaypointActivity.java:321-355 | a sample is ignored unless from the accelerometer while navigating toward a target; then only the direction changes, to bearing minus true azimuth up to whole turns, within [0, 360) for a bearing in [-180, 180] and a true azimuth in [0, 360) |
| `NavModel.StepArrivals` | src/edu/mercer/waypointmanager/WaypointActivity.java:227-234 | a callback logs an arrival notice only by turning off navigation that was on, and only Nav turns it on |
| `NavModel.RunArrivals` | src/edu/mercer/waypointmanager/WaypointActivity.java:222-239 | over any callback sequence the arrival notices are at most the Nav selections, plus one if navigation was on at the start |
| `NavModel.NoNavAtMostOneArrival` | src/edu/mercer/waypointmanager/WaypointActivity.java:227-234 | without a Nav selection at most one arrival notice follows, and none when navigation is off |
| `NavModel.ConnectRestores` | src/edu/mercer/waypointmanager/WaypointActivity.java:303-314 | on connect a restored target becomes `targetLocation` and exactly one marker is placed at it; otherwise nothing changes |
| `NavModel.SetSurvivesRestart` | src/edu/mercer/waypointmanager/WaypointActivity.java:242-251 | a target set with Set (below 400) is the target again after a restart and connect, with one marker shown |
| `NavModel.ResetSurvivesRestart` | src/edu/mercer/waypointmanager/WaypointActivity.java:263-266 | after Reset, a restart and connect yield no target and no marker |
| `NavModel.MenuKeepsMarkersTracked` | src/edu/mercer/waypointmanager/WaypointActivity.java:151-175 | from a state where only `mMarker`'s marker is shown, no menu action leaves a marker shown other than the one `mMarker` then refers to |
| `NavModel.LocationKeepsMarkers` | src/edu/mercer/waypointmanager/WaypointActivity.java:368-374 | in every state a location fix changes neither the markers shown nor `mMarker` |
| `NavModel.StepKeepsMarkersTracked` | src/edu/mercer/waypointmanager/WaypointActivity.java:151-175 | from a state where only `mMarker`'s marker is shown, every callback but a connect keeps it so |
| `NavModel.ReconnectDuplicatesMarker` | src/edu/mercer/waypointmanager/WaypointActivity.java:303-314 | a connect with a restored target while a marker is shown leaves at least two markers on the map |
| `Waypoint.Navigator.constructor` | src/edu/mercer/waypointmanager/WaypointActivity.java:94-107 | the fields are those of `NavModel.OnCreate` for the stored record, and valid |
| `Waypoint.Navigator.AddMarker` | src/edu/mercer/waypointmanager/WaypointActivity.java:215-217 | a new numbered marker is logged and becomes `mMarker`; nothing else changes |
| `Waypoint.Navigator.RemoveMarkerIfAny` | src/edu/mercer/waypointmanager/WaypointActivity.java:212-213 | the marker `mMarker` refers to, if any, is logged as removed; `mMarker` is kept |
| `Waypoint.Navigator.OnConnected` | src/edu/mercer/waypointmanager/WaypointActivity.java:289-315 | the new fields are `NavModel.OnConnected` of the old ones, and valid |
| `Waypoint.Navigator.SaveLocationToPreferences` | src/edu/mercer/waypointmanager/WaypointActivity.java:242-251 | the record becomes the cleared record with both floats put; nothing else changes |
| `Waypoint.Navigator.SaveLocation` | src/edu/mercer/waypointmanager/WaypointActivity.java:203-220 | the new fields are `NavModel.SaveLocation` of the old ones and the current location |
| `Waypoint.Navigator.ClearLocationData` | src/edu/mercer/waypointmanager/WaypointActivity.java:253-267 | the new fields are `NavModel.ClearLocationData` of the old ones |
| `Waypoint.Navigator.OnOptionsItemSelected` | src/edu/mercer/waypointmanager/WaypointActivity.java:151-175 | the new fields are `NavModel.OnOptionsItemSelected` of the old ones, and valid |
| `Waypoint.Navigator.PerformNavigation` | src/edu/mercer/waypointmanager/WaypointActivity.java:222-239 | the new fields are `NavModel.PerformNavigation` of the old ones and the distance |
| `Waypoint.Navigator.RotateArrowImage` | src/edu/mercer/waypointmanager/WaypointActivity.java:269-280 | the arrow shows the rotation `rotate % 360`; nothing else changes |
| `Waypoint.Navigator.OnLocationChanged` | src/edu/mercer/waypointmanager/WaypointActivity.java:368-374 | the new fields are `NavModel.OnLocationChanged` of the old ones and the distance, and valid |
| `Waypoint.Navigator.OnSensorChanged` | src/edu/mercer/waypointmanager/WaypointActivity.java:321-355 | the new fields are `NavModel.OnSensorChanged` of the old ones and the sample, and valid |

## Left out

- Android lifecycle and connection plumbing (`onResume`, `onPause`, `setUpMapIfNeeded`, `setUpMap`, `setUpLocationClientIfNeeded`, `onConnectionFailed`, `onDisconnected`, `onAccuracyChanged`, `onCreateOptionsMenu`, `onMyLocationButtonClick`, the `REQUEST` rates and `requestLocationUpdates`): platform glue without navigation logic.
- The map camera moves in `onConnected` (zoom 15, centre on the last location): rendering only.
- Rendering of markers, bitmaps, the rotation matrix and toasts: only the marker add/remove commands, the arrival notice, the text and the arrow's rotation angle are kept; `targetLatLng` is not a separate field because it always equals (`latTarget`, `longTarget`) where it is read.
- Geodesy (`distanceTo`, `bearingTo`, `GeomagneticField` and its time argument): library code whose results are parameters; no haversine or declination is derived.
- Float precision: the `(float)` casts and `String.valueOf(distance)` are not modelled; angles and distances are exact reals and the text is the abstract `ShowsDistance(d)`.
- Asynchronous delivery: each callback is one atomic method call.
- Null dereferences of `getLastLocation()`: at the Set entry non-null is a precondition; in `onConnected` the model assumes it is non-null (it is dereferenced unconditionally) and, as the object becomes `targetLocation` only after its latitude and longitude are overwritten with `latTarget` and `longTarget`, only those coordinates reach the target, so it is not a parameter; in `onSensorChanged` it only feeds `bearingTo` and the declination, which are parameters.
- The boolean returned by `onOptionsItemSelected` and the call to the superclass: they do not affect the fields.
- The initial distance text and arrow come from the layout, which is not part of this model; they are taken as empty and neutral.
- `onSensorChanged` reads the first value of an accelerometer sample as the azimuth; the model takes that value as given and does not model sensor physics.
