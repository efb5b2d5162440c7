/** The navigation state machine of the waypoint activity as values: the
    activity's fields gathered in one `State`, one function per handler
    giving the state after it, and the properties the handlers keep.
    The class `Waypoint.Navigator` is proved against these functions.

    Results of library calls (`distanceTo`, `bearingTo`, the geomagnetic
    declination, `getLastLocation`) are parameters. Marker commands and
    arrival notices go to an append-only output log. */
module NavModel {
  import opened Locations
  import opened Angles
  import TargetStore

  /** The four menu entries the activity handles, and any other item. */
  datatype MenuItem = SetItem | NavItem | NavStopItem | ResetItem | OtherItem

  /** The type of the sensor that delivered a sample. */
  datatype SensorType = Accelerometer | OtherSensor

  /** What the distance text view shows: empty, or a rendering of a
      distance in metres. */
  datatype Text = Blank | ShowsDistance(metres: real)

  /** What the arrow image view shows: the plain arrow drawable, or the
      arrow bitmap rotated by an angle. */
  datatype Arrow = Neutral | Rotated(degrees: real)

  /** Commands to the map and the toast, in the order they were issued.
      Each marker object added to the map gets the next number. */
  datatype Output = PlaceMarker(id: nat, at: Coord) | RemoveMarker(id: nat) | ArrivalNotice

  /** The activity's fields. `marker` is `mMarker`, the marker object last
      added (its number), and `markersPlaced` counts the markers added. */
  datatype State = State(
    doingNavigation: bool,
    targetLocation: Option<Coord>,
    haveTarget: bool,
    latTarget: real,
    longTarget: real,
    marker: Option<nat>,
    markersPlaced: nat,
    prefs: TargetStore.Prefs,
    text: Text,
    arrow: Arrow,
    directionForRotation: real,
    log: seq<Output>)

  /** A distance below this many metres ends navigation. */
  const ArrivalRadius: real := 1.0

  // ---------------------------------------------------------------------
  // Output log

  /** Markers on the map after command `o`, given those before it. */
  function Shown(before: set<nat>, o: Output): set<nat>
  {
    match o
    case PlaceMarker(id, _) => before + {id}
    case RemoveMarker(id) => before - {id}
    case ArrivalNotice => before
  }

  /** Markers on the map after the commands of `log`. */
  function ShownMarkers(log: seq<Output>): set<nat>
    decreases |log|
  {
    if log == [] then {} else Shown(ShownMarkers(log[..|log| - 1]), log[|log| - 1])
  }

  /** Arrival notices among the commands of `log`. */
  function Arrivals(log: seq<Output>): nat
    decreases |log|
  {
    if log == [] then 0
    else Arrivals(log[..|log| - 1]) + (if log[|log| - 1].ArrivalNotice? then 1 else 0)
  }

  lemma ShownAppend(log: seq<Output>, o: Output)
    ensures ShownMarkers(log + [o]) == Shown(ShownMarkers(log), o)
    ensures Arrivals(log + [o]) == Arrivals(log) + if o.ArrivalNotice? then 1 else 0
  {
    assert (log + [o])[..|log|] == log;
  }

  // ---------------------------------------------------------------------
  // Handlers

  /** The restore part of `onCreate`: every field at its initial value,
      and `haveTarget`, `latTarget`, `longTarget` taken from the stored
      record when it holds a target. */
  function OnCreate(stored: TargetStore.Prefs): (s: State)
    ensures s.haveTarget <==> TargetStore.GetFloat(stored, TargetStore.LatKey, TargetStore.Sentinel) < TargetStore.Sentinel
                              && TargetStore.GetFloat(stored, TargetStore.LongKey, TargetStore.Sentinel) < TargetStore.Sentinel
    ensures s.haveTarget ==> Some(Coord(s.latTarget, s.longTarget)) == TargetStore.Restore(stored)
    ensures !s.doingNavigation && s.targetLocation.None? && s.marker.None? && s.log == []
  {
    var r := TargetStore.Restore(stored);
    State(false, None, r.Some?,
          if r.Some? then r.value.lat else 0.0,
          if r.Some? then r.value.long else 0.0,
          None, 0, stored, Blank, Neutral, 0.0, [])
  }

  /** `mMap.addMarker` at `at`, stored in `mMarker`. */
  function AddMarker(s: State, at: Coord): State
  {
    s.(marker := Some(s.markersPlaced), markersPlaced := s.markersPlaced + 1,
       log := s.log + [PlaceMarker(s.markersPlaced, at)])
  }

  /** `if (mMarker != null) mMarker.remove()`; `mMarker` keeps its value. */
  function RemoveMarkerIfAny(s: State): State
  {
    if s.marker.Some? then s.(log := s.log + [RemoveMarker(s.marker.value)]) else s
  }

  /** The target and marker part of `onConnected`: a restored target
      becomes `targetLocation` and gets a marker. */
  function OnConnected(s: State): State
  {
    if s.haveTarget then
      var at := Coord(s.latTarget, s.longTarget);
      AddMarker(s.(targetLocation := Some(at)), at)
    else s
  }

  /** `saveLocation`: the current location becomes the target, replaces
      the marker and is persisted. */
  function SaveLocation(s: State, here: Coord): State
  {
    var s1 := s.(targetLocation := Some(here), latTarget := here.lat, longTarget := here.long);
    var s2 := AddMarker(RemoveMarkerIfAny(s1), here);
    s2.(prefs := TargetStore.SaveRecord(s2.prefs, here.lat, here.long))
  }

  /** `clearLocationData`: the marker is removed (but `mMarker` is not
      reset), navigation stops, the text is emptied and the record is
      cleared. The in-memory target is kept. */
  function ClearLocationData(s: State): State
  {
    RemoveMarkerIfAny(s).(doingNavigation := false, text := Blank,
                          prefs := TargetStore.Cleared(s.prefs))
  }

  /** `onOptionsItemSelected`. `last` is `getLastLocation()`, read only
      by the Set entry, which needs it to be non-null. */
  function OnOptionsItemSelected(s: State, item: MenuItem, last: Option<Coord>): State
    requires item.SetItem? ==> last.Some?
  {
    match item
    case SetItem => SaveLocation(s, last.value).(doingNavigation := false)
    case NavItem =>
      if s.targetLocation.None? || s.doingNavigation then s else s.(doingNavigation := true)
    case NavStopItem =>
      if s.targetLocation.None? || !s.doingNavigation then s else s.(doingNavigation := false)
    case ResetItem => ClearLocationData(s).(doingNavigation := false)
    case OtherItem => s
  }

  /** `performNavigation`, given `loca.distanceTo(targetLocation)`. */
  function PerformNavigation(s: State, distance: real): State
  {
    if distance < ArrivalRadius then
      s.(doingNavigation := false, log := s.log + [ArrivalNotice], text := Blank, arrow := Neutral)
    else
      s.(text := ShowsDistance(distance))
  }

  /** `rotateArrowImage(rotate)`: the arrow is drawn rotated by
      `rotate % 360`. */
  function RotateArrowImage(s: State, rotate: real): State
  {
    s.(arrow := Rotated(JavaRem360(rotate)))
  }

  /** `onLocationChanged`, given the distance from the new location to
      the target. */
  function OnLocationChanged(s: State, distance: real): State
  {
    if s.doingNavigation && s.targetLocation.Some? then
      var s1 := PerformNavigation(s, distance);
      RotateArrowImage(s1, s1.directionForRotation)
    else s
  }

  /** `onSensorChanged`, given the sample's sensor type and first value,
      the declination at the last location and the bearing from the last
      location to the target. */
  function OnSensorChanged(s: State, sensor: SensorType, azimuth: real, declination: real, bearing: real): State
  {
    if sensor != Accelerometer then s
    else if !s.doingNavigation || s.targetLocation.None? then s
    else s.(directionForRotation := Direction(bearing, azimuth, declination))
  }

  // ---------------------------------------------------------------------
  // Event sequences

  /** One callback into the activity. */
  datatype Event =
    | Selected(item: MenuItem, last: Option<Coord>)
    | Connected
    | LocationChanged(distance: real)
    | SensorChanged(sensor: SensorType, azimuth: real, declination: real, bearing: real)

  /** The callback can be delivered without a null dereference. */
  predicate Deliverable(e: Event)
  {
    e.Selected? && e.item.SetItem? ==> e.last.Some?
  }

  function Step(s: State, e: Event): State
    requires Deliverable(e)
  {
    match e
    case Selected(item, last) => OnOptionsItemSelected(s, item, last)
    case Connected => OnConnected(s)
    case LocationChanged(distance) => OnLocationChanged(s, distance)
    case SensorChanged(sensor, azimuth, declination, bearing) =>
      OnSensorChanged(s, sensor, azimuth, declination, bearing)
  }

  function Run(s: State, es: seq<Event>): State
    requires forall i :: 0 <= i < |es| ==> Deliverable(es[i])
    decreases |es|
  {
    if es == [] then s else Run(Step(s, es[0]), es[1..])
  }

  /** The callback is a Nav selection. */
  predicate IsNav(e: Event)
  {
    e.Selected? && e.item == NavItem
  }

  /** Nav selections in `es`. */
  function NavCount(es: seq<Event>): nat
    decreases |es|
  {
    if es == [] then 0 else (if IsNav(es[0]) then 1 else 0) + NavCount(es[1..])
  }

  // ---------------------------------------------------------------------
  // Invariant

  /** What every reachable state satisfies: navigation runs only toward a
      target, and every marker number in use has been handed out. */
  ghost predicate Inv(s: State)
  {
    (s.doingNavigation ==> s.targetLocation.Some?)
    && (s.marker.Some? ==> s.marker.value < s.markersPlaced)
    && (forall id :: id in ShownMarkers(s.log) ==> id < s.markersPlaced)
  }

  /** At most one marker is on the map, and it is the one `mMarker`
      refers to. */
  ghost predicate MarkersTracked(s: State)
  {
    ShownMarkers(s.log) <= (if s.marker.Some? then {s.marker.value} else {})
  }

  lemma AddMarkerShows(s: State, at: Coord)
    requires Inv(s)
    ensures var t := AddMarker(s, at);
      ShownMarkers(t.log) == ShownMarkers(s.log) + {s.markersPlaced}
      && s.markersPlaced !in ShownMarkers(s.log)
      && (forall id :: id in ShownMarkers(t.log) ==> id < t.markersPlaced)
  {
    ShownAppend(s.log, PlaceMarker(s.markersPlaced, at));
  }

  lemma RemoveMarkerHides(s: State)
    ensures var t := RemoveMarkerIfAny(s);
      ShownMarkers(t.log) == ShownMarkers(s.log) - (if s.marker.Some? then {s.marker.value} else {})
      && Arrivals(t.log) == Arrivals(s.log)
  {
    if s.marker.Some? {
      ShownAppend(s.log, RemoveMarker(s.marker.value));
    }
  }

  /** The initial state satisfies the invariant. */
  lemma CreateInv(stored: TargetStore.Prefs)
    ensures Inv(OnCreate(stored)) && MarkersTracked(OnCreate(stored))
  {
  }

  /** Every callback keeps the invariant; in particular the
      `targetLocation == null` tests of the sample handlers never fire
      while navigating. */
  lemma StepInv(s: State, e: Event)
    requires Deliverable(e) && Inv(s)
    ensures Inv(Step(s, e))
  {
    match e
    case Selected(item, last) =>
      match item {
        case SetItem =>
          var s1 := s.(targetLocation := Some(last.value), latTarget := last.value.lat, longTarget := last.value.long);
          RemoveMarkerHides(s1);
          AddMarkerShows(RemoveMarkerIfAny(s1), last.value);
        case ResetItem => RemoveMarkerHides(s);
        case _ =>
      }
    case Connected =>
      if s.haveTarget {
        AddMarkerShows(s.(targetLocation := Some(Coord(s.latTarget, s.longTarget))), Coord(s.latTarget, s.longTarget));
      }
    case LocationChanged(distance) =>
      if s.doingNavigation && distance < ArrivalRadius {
        ShownAppend(s.log, ArrivalNotice);
      }
    case SensorChanged(_, _, _, _) =>
  }

  // ---------------------------------------------------------------------
  // Menu actions

  /** Nav does nothing without a target or when navigation is already on;
      otherwise it only turns navigation on. */
  lemma NavGuard(s: State, last: Option<Coord>)
    ensures var t := OnOptionsItemSelected(s, NavItem, last);
      if s.targetLocation.None? || s.doingNavigation then t == s
      else t == s.(doingNavigation := true)
  {
  }

  /** NavStop does nothing unless a target exists and navigation is on;
      otherwise it only turns navigation off, leaving the text as it is. */
  lemma NavStopGuard(s: State, last: Option<Coord>)
    ensures var t := OnOptionsItemSelected(s, NavStopItem, last);
      if s.targetLocation.None? || !s.doingNavigation then t == s
      else t == s.(doingNavigation := false)
  {
  }

  /** Set makes the current location the target, persists it and turns
      navigation off; the old marker (if any) is removed before the new
      one is added at the target. */
  lemma SetReplacesTarget(s: State, here: Coord)
    ensures var t := OnOptionsItemSelected(s, SetItem, Some(here));
      && t.targetLocation == Some(here)
      && !t.doingNavigation
      && t.prefs == TargetStore.SaveRecord(s.prefs, here.lat, here.long)
      && t.marker == Some(s.markersPlaced) && t.markersPlaced == s.markersPlaced + 1
      && t.log == s.log + (if s.marker.Some? then [RemoveMarker(s.marker.value)] else [])
                        + [PlaceMarker(s.markersPlaced, here)]
      && t.haveTarget == s.haveTarget && t.text == s.text && t.arrow == s.arrow
  {
  }

  /** After Set exactly one marker is on the map: the new one. */
  lemma SetShowsOneMarker(s: State, here: Coord)
    requires Inv(s) && MarkersTracked(s)
    ensures var t := OnOptionsItemSelected(s, SetItem, Some(here));
      ShownMarkers(t.log) == {s.markersPlaced} && Inv(t) && MarkersTracked(t)
  {
    var t := OnOptionsItemSelected(s, SetItem, Some(here));
    SetReplacesTarget(s, here);
    var removed := s.log + (if s.marker.Some? then [RemoveMarker(s.marker.value)] else []);
    if s.marker.Some? {
      ShownAppend(s.log, RemoveMarker(s.marker.value));
      assert ShownMarkers(removed) == ShownMarkers(s.log) - {s.marker.value};
    } else {
      assert removed == s.log;
    }
    assert ShownMarkers(removed) == {};
    ShownAppend(removed, PlaceMarker(s.markersPlaced, here));
    assert t.log == removed + [PlaceMarker(s.markersPlaced, here)];
  }

  /** Reset stops navigation, empties the text, takes the marker
      `mMarker` refers to off the map and clears the record, but keeps
      the in-memory target, `haveTarget` and `mMarker` itself. */
  lemma ResetClears(s: State, last: Option<Coord>)
    ensures var t := OnOptionsItemSelected(s, ResetItem, last);
      && !t.doingNavigation && t.text == Blank
      && ShownMarkers(t.log) == ShownMarkers(s.log) - (if s.marker.Some? then {s.marker.value} else {})
      && TargetStore.Restore(t.prefs).None?
      && t.targetLocation == s.targetLocation && t.haveTarget == s.haveTarget
      && t.marker == s.marker && Arrivals(t.log) == Arrivals(s.log)
  {
    RemoveMarkerHides(s);
  }

  /** From a state where only `mMarker`'s marker is shown, Reset leaves
      the map without markers. */
  lemma ResetHidesAllMarkers(s: State)
    requires MarkersTracked(s)
    ensures ShownMarkers(OnOptionsItemSelected(s, ResetItem, None).log) == {}
  {
    ResetClears(s, None);
  }

  /** The state minus the output log. */
  function Fields(s: State): State
  {
    s.(log := [])
  }

  /** Reset twice leaves the same state as Reset once; the second only
      repeats the removal of an already removed marker. */
  lemma ResetIdempotent(s: State)
    ensures var once := OnOptionsItemSelected(s, ResetItem, None);
      var twice := OnOptionsItemSelected(once, ResetItem, None);
      Fields(twice) == Fields(once) && ShownMarkers(twice.log) == ShownMarkers(once.log)
  {
    var once := OnOptionsItemSelected(s, ResetItem, None);
    var twice := OnOptionsItemSelected(once, ResetItem, None);
    ResetClears(s, None);
    ResetClears(once, None);
    assert once.marker == s.marker;
  }

  /** Reset keeps `haveTarget`, so a reconnect after it (the activity
      resuming) brings the target and a marker back although the record
      is cleared. */
  lemma ReconnectAfterReset(s: State)
    requires s.haveTarget
    ensures var r := OnOptionsItemSelected(s, ResetItem, None);
      var t := OnConnected(r);
      && TargetStore.Restore(t.prefs).None?
      && t.targetLocation == Some(Coord(s.latTarget, s.longTarget))
      && t.log == r.log + [PlaceMarker(r.markersPlaced, Coord(s.latTarget, s.longTarget))]
      && r.markersPlaced in ShownMarkers(t.log)
  {
    var r := OnOptionsItemSelected(s, ResetItem, None);
    ShownAppend(r.log, PlaceMarker(r.markersPlaced, Coord(s.latTarget, s.longTarget)));
  }

  /** Reset does not forget the in-memory target, so Nav can start again
      right after it. */
  lemma NavAfterReset(s: State)
    requires s.targetLocation.Some?
    ensures var t := OnOptionsItemSelected(OnOptionsItemSelected(s, ResetItem, None), NavItem, None);
      t.doingNavigation && t.targetLocation == s.targetLocation
  {
  }

  // ---------------------------------------------------------------------
  // Samples

  /** A location sample is ignored unless navigating toward a target. If
      the distance is below one metre navigation stops, the text is
      emptied and one arrival notice is issued; otherwise the text shows
      the distance. Either way the arrow ends up rotated by the stored
      direction, overwriting the neutral arrow of the arrival path. */
  lemma LocationOutcomes(s: State, distance: real)
    ensures var t := OnLocationChanged(s, distance);
      && (!s.doingNavigation || s.targetLocation.None? ==> t == s)
      && (s.doingNavigation && s.targetLocation.Some? && distance < ArrivalRadius ==>
            !t.doingNavigation && t.text == Blank && t.log == s.log + [ArrivalNotice]
            && Arrivals(t.log) == Arrivals(s.log) + 1)
      && (s.doingNavigation && s.targetLocation.Some? && distance >= ArrivalRadius ==>
            t.doingNavigation && t.text == ShowsDistance(distance) && t.log == s.log)
      && (s.doingNavigation && s.targetLocation.Some? ==>
            t.arrow == Rotated(JavaRem360(s.directionForRotation))
            && t.targetLocation == s.targetLocation && t.prefs == s.prefs && t.marker == s.marker)
  {
    ShownAppend(s.log, ArrivalNotice);
  }

  /** A sensor sample is ignored unless it comes from the accelerometer
      while navigating toward a target; then it only replaces the stored
      direction, which points the same way as bearing minus true azimuth
      and lies in [0, 360) when the bearing is in [-180, 180] and the true
      azimuth in [0, 360). */
  lemma SensorOutcome(s: State, sensor: SensorType, azimuth: real, declination: real, bearing: real)
    ensures var t := OnSensorChanged(s, sensor, azimuth, declination, bearing);
      && (sensor != Accelerometer || !s.doingNavigation || s.targetLocation.None? ==> t == s)
      && (sensor == Accelerometer && s.doingNavigation && s.targetLocation.Some? ==>
            t == s.(directionForRotation := t.directionForRotation)
            && SameTurn(t.directionForRotation, bearing - TrueAzimuth(azimuth, declination))
            && (-180.0 <= bearing <= 180.0 && 0.0 <= TrueAzimuth(azimuth, declination) < 360.0
                ==> 0.0 <= t.directionForRotation < 360.0))
  {
  }

  // ---------------------------------------------------------------------
  // Arrival notices

  /** One navigation turned on, `1`, or not, `0`. */
  function Credit(s: State): nat
  {
    if s.doingNavigation then 1 else 0
  }

  /** A callback issues an arrival notice only by spending the navigation
      that was on; only Nav turns navigation on. */
  lemma StepArrivals(s: State, e: Event)
    requires Deliverable(e) && Inv(s)
    ensures var t := Step(s, e);
      Arrivals(t.log) + Credit(t) <= Arrivals(s.log) + Credit(s) + (if IsNav(e) then 1 else 0)
  {
    match e
    case Selected(item, last) =>
      match item {
        case SetItem =>
          var s1 := s.(targetLocation := Some(last.value), latTarget := last.value.lat, longTarget := last.value.long);
          RemoveMarkerHides(s1);
          var s2 := RemoveMarkerIfAny(s1);
          ShownAppend(s2.log, PlaceMarker(s2.markersPlaced, last.value));
        case ResetItem => RemoveMarkerHides(s);
        case _ =>
      }
    case Connected =>
      if s.haveTarget {
        ShownAppend(s.log, PlaceMarker(s.markersPlaced, Coord(s.latTarget, s.longTarget)));
      }
    case LocationChanged(distance) =>
      ShownAppend(s.log, ArrivalNotice);
    case SensorChanged(_, _, _, _) =>
  }

  /** Over any sequence of callbacks, arrival notices are bounded by the
      Nav selections (plus one if navigation was already on): each Nav
      yields at most one notice. */
  lemma {:induction false} RunArrivals(s: State, es: seq<Event>)
    requires forall i :: 0 <= i < |es| ==> Deliverable(es[i])
    requires Inv(s)
    ensures Arrivals(Run(s, es).log) + Credit(Run(s, es)) <= Arrivals(s.log) + Credit(s) + NavCount(es)
    decreases |es|
  {
    if es != [] {
      StepArrivals(s, es[0]);
      StepInv(s, es[0]);
      RunArrivals(Step(s, es[0]), es[1..]);
    }
  }

  /** Without a Nav selection, at most one arrival notice follows, and
      none when navigation is off to begin with. */
  lemma NoNavAtMostOneArrival(s: State, es: seq<Event>)
    requires forall i :: 0 <= i < |es| ==> Deliverable(es[i])
    requires Inv(s) && NavCount(es) == 0
    ensures Arrivals(Run(s, es).log) <= Arrivals(s.log) + Credit(s)
  {
    RunArrivals(s, es);
  }

  // ---------------------------------------------------------------------
  // Restart and reconnect

  /** On connect a restored target becomes the target and exactly one
      marker is placed, at it; without one nothing changes. */
  lemma ConnectRestores(s: State)
    ensures var t := OnConnected(s);
      if s.haveTarget then
        t.targetLocation == Some(Coord(s.latTarget, s.longTarget))
        && t.log == s.log + [PlaceMarker(s.markersPlaced, Coord(s.latTarget, s.longTarget))]
        && t.doingNavigation == s.doingNavigation && t.prefs == s.prefs
      else t == s
  {
  }

  /** A target set with Set survives a restart: a new activity created
      from the saved record and then connected navigates toward it, with
      one marker on the map. */
  lemma SetSurvivesRestart(s: State, here: Coord)
    requires here.lat < TargetStore.Sentinel && here.long < TargetStore.Sentinel
    ensures var saved := OnOptionsItemSelected(s, SetItem, Some(here)).prefs;
      var t := OnConnected(OnCreate(saved));
      t.targetLocation == Some(here) && ShownMarkers(t.log) == {0} && MarkersTracked(t)
  {
    var saved := OnOptionsItemSelected(s, SetItem, Some(here)).prefs;
    TargetStore.SaveThenRestore(RemoveMarkerIfAny(s).prefs, here.lat, here.long);
    ShownAppend([], PlaceMarker(0, here));
  }

  /** After Reset a restart restores no target and places no marker. */
  lemma ResetSurvivesRestart(s: State)
    ensures var cleared := OnOptionsItemSelected(s, ResetItem, None).prefs;
      var t := OnConnected(OnCreate(cleared));
      t.targetLocation.None? && t.log == []
  {
  }

  /** A menu selection keeps the map to the single marker `mMarker`
      refers to. */
  lemma MenuKeepsMarkersTracked(s: State, item: MenuItem, last: Option<Coord>)
    requires item.SetItem? ==> last.Some?
    requires Inv(s) && MarkersTracked(s)
    ensures MarkersTracked(OnOptionsItemSelected(s, item, last))
  {
    match item
    case SetItem => SetShowsOneMarker(s, last.value);
    case ResetItem => ResetHidesAllMarkers(s);
    case _ =>
  }

  /** A location sample changes neither the markers shown nor `mMarker`. */
  lemma LocationKeepsMarkers(s: State, distance: real)
    ensures var t := OnLocationChanged(s, distance);
      ShownMarkers(t.log) == ShownMarkers(s.log) && t.marker == s.marker
  {
    ShownAppend(s.log, ArrivalNotice);
  }

  /** Every callback but a connect keeps the map to the single marker
      `mMarker` refers to. */
  lemma StepKeepsMarkersTracked(s: State, e: Event)
    requires Deliverable(e) && Inv(s) && MarkersTracked(s)
    requires e != Connected
    ensures MarkersTracked(Step(s, e))
  {
    match e
    case Selected(item, last) => MenuKeepsMarkersTracked(s, item, last);
    case LocationChanged(distance) => LocationKeepsMarkers(s, distance);
    case SensorChanged(_, _, _, _) =>
  }

  /** `onConnected` never removes the marker already on the map: a
      reconnect with a restored target leaves two markers shown, and the
      older one is no longer referenced by `mMarker`. */
  lemma ReconnectDuplicatesMarker(s: State)
    requires Inv(s) && s.haveTarget && ShownMarkers(s.log) != {}
    ensures var t := OnConnected(s);
      |ShownMarkers(t.log)| >= 2 && !MarkersTracked(t)
  {
    var old_id :| old_id in ShownMarkers(s.log);
    var t := OnConnected(s);
    AddMarkerShows(s.(targetLocation := Some(Coord(s.latTarget, s.longTarget))), Coord(s.latTarget, s.longTarget));
    assert {old_id, s.markersPlaced} <= ShownMarkers(t.log);
    assert |{old_id, s.markersPlaced}| == 2;
    SubsetCard({old_id, s.markersPlaced}, ShownMarkers(t.log));
  }

  lemma SubsetCard(a: set<nat>, b: set<nat>)
    requires a <= b
    ensures |a| <= |b|
  {
    assert b == a + (b - a);
  }
}
