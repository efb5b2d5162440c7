/** The waypoint activity's navigation state as a class whose fields are
    the activity's fields. Each handler updates them in place, as the
    source does, and is proved to leave exactly the state the matching
    function of `NavModel` describes, so every property proved there
    holds of the class. */
module Waypoint {
  import opened Locations
  import opened Angles
  import TargetStore
  import NavModel

  class Navigator {
    var doingNavigation: bool
    var targetLocation: Option<Coord>
    var haveTarget: bool
    var latTarget: real
    var longTarget: real
    /** `mMarker`: the number of the marker object last added, if any. */
    var marker: Option<nat>
    var markersPlaced: nat
    /** The committed preferences record. */
    var prefs: TargetStore.Prefs
    var distanceText: NavModel.Text
    var arrowImage: NavModel.Arrow
    var directionForRotation: real
    /** Marker commands and arrival notices issued so far. */
    var outputs: seq<NavModel.Output>

    /** The fields as one value. */
    function Snapshot(): NavModel.State
      reads this
    {
      NavModel.State(doingNavigation, targetLocation, haveTarget, latTarget, longTarget,
                     marker, markersPlaced, prefs, distanceText, arrowImage,
                     directionForRotation, outputs)
    }

    ghost predicate Valid()
      reads this
    {
      NavModel.Inv(Snapshot())
    }

    /** The restore part of `onCreate`, reading the record `stored`. */
    constructor (stored: TargetStore.Prefs)
      ensures Snapshot() == NavModel.OnCreate(stored)
      ensures Valid() && NavModel.MarkersTracked(Snapshot())
    {
      doingNavigation := false;
      targetLocation := None;
      haveTarget := false;
      latTarget := 0.0;
      longTarget := 0.0;
      marker := None;
      markersPlaced := 0;
      prefs := stored;
      distanceText := NavModel.Blank;
      arrowImage := NavModel.Neutral;
      directionForRotation := 0.0;
      outputs := [];
      var storedLat := TargetStore.GetFloat(stored, TargetStore.LatKey, TargetStore.Sentinel);
      var storedLong := TargetStore.GetFloat(stored, TargetStore.LongKey, TargetStore.Sentinel);
      if storedLat < TargetStore.Sentinel && storedLong < TargetStore.Sentinel {
        haveTarget := true;
        latTarget := storedLat;
        longTarget := storedLong;
      }
      NavModel.CreateInv(stored);
    }

    /** `mMap.addMarker(...)`, remembered in `mMarker`. */
    method AddMarker(at: Coord)
      modifies this
      ensures Snapshot() == NavModel.AddMarker(old(Snapshot()), at)
    {
      outputs := outputs + [NavModel.PlaceMarker(markersPlaced, at)];
      marker := Some(markersPlaced);
      markersPlaced := markersPlaced + 1;
    }

    /** `if (mMarker != null) mMarker.remove()`. */
    method RemoveMarkerIfAny()
      modifies this
      ensures Snapshot() == NavModel.RemoveMarkerIfAny(old(Snapshot()))
    {
      if marker.Some? {
        outputs := outputs + [NavModel.RemoveMarker(marker.value)];
      }
    }

    /** The target and marker part of `onConnected`. */
    method OnConnected()
      requires Valid()
      modifies this
      ensures Valid()
      ensures Snapshot() == NavModel.OnConnected(old(Snapshot()))
    {
      if haveTarget {
        targetLocation := Some(Coord(latTarget, longTarget));
        AddMarker(Coord(latTarget, longTarget));
      }
      NavModel.StepInv(old(Snapshot()), NavModel.Connected);
    }

    /** `saveLocationToPreferences`: an editor clears the record, puts
        both floats, and commits. */
    method SaveLocationToPreferences(latitude: real, longitude: real)
      modifies this
      ensures Snapshot() == old(Snapshot()).(prefs := TargetStore.SaveRecord(old(prefs), latitude, longitude))
    {
      var editor := prefs;
      editor := TargetStore.Cleared(editor);
      editor := editor[TargetStore.LatKey := latitude];
      editor := editor[TargetStore.LongKey := longitude];
      prefs := editor;
    }

    /** `saveLocation`, with `here` the non-null `getLastLocation()`. */
    method SaveLocation(here: Coord)
      modifies this
      ensures Snapshot() == NavModel.SaveLocation(old(Snapshot()), here)
    {
      targetLocation := Some(here);
      latTarget := here.lat;
      longTarget := here.long;
      RemoveMarkerIfAny();
      AddMarker(here);
      SaveLocationToPreferences(latTarget, longTarget);
    }

    /** `clearLocationData`. */
    method ClearLocationData()
      modifies this
      ensures Snapshot() == NavModel.ClearLocationData(old(Snapshot()))
    {
      RemoveMarkerIfAny();
      doingNavigation := false;
      distanceText := NavModel.Blank;
      var editor := prefs;
      editor := TargetStore.Cleared(editor);
      prefs := editor;
    }

    /** `onOptionsItemSelected`; `last` is `getLastLocation()`, which the
        Set entry dereferences. */
    method OnOptionsItemSelected(item: NavModel.MenuItem, last: Option<Coord>)
      requires item.SetItem? ==> last.Some?
      requires Valid()
      modifies this
      ensures Valid()
      ensures Snapshot() == NavModel.OnOptionsItemSelected(old(Snapshot()), item, last)
    {
      match item {
        case SetItem =>
          SaveLocation(last.value);
          doingNavigation := false;
        case NavItem =>
          if targetLocation.None? || doingNavigation {
            return;
          }
          doingNavigation := true;
        case NavStopItem =>
          if targetLocation.None? || !doingNavigation {
            return;
          }
          doingNavigation := false;
        case ResetItem =>
          ClearLocationData();
          doingNavigation := false;
        case OtherItem =>
      }
      NavModel.StepInv(old(Snapshot()), NavModel.Selected(item, last));
    }

    /** `performNavigation`, given `loca.distanceTo(targetLocation)`. */
    method PerformNavigation(distance: real)
      modifies this
      ensures Snapshot() == NavModel.PerformNavigation(old(Snapshot()), distance)
    {
      if distance < NavModel.ArrivalRadius {
        doingNavigation := false;
        outputs := outputs + [NavModel.ArrivalNotice];
        distanceText := NavModel.Blank;
        arrowImage := NavModel.Neutral;
        return;
      }
      distanceText := NavModel.ShowsDistance(distance);
    }

    /** `rotateArrowImage`. */
    method RotateArrowImage(rotate: real)
      modifies this
      ensures Snapshot() == NavModel.RotateArrowImage(old(Snapshot()), rotate)
    {
      var r := JavaRem360(rotate);
      arrowImage := NavModel.Rotated(r);
    }

    /** `onLocationChanged`, given the distance from the new location to
        the target. */
    method OnLocationChanged(distance: real)
      requires Valid()
      modifies this
      ensures Valid()
      ensures Snapshot() == NavModel.OnLocationChanged(old(Snapshot()), distance)
    {
      if doingNavigation && targetLocation.Some? {
        PerformNavigation(distance);
        RotateArrowImage(directionForRotation);
      }
      NavModel.StepInv(old(Snapshot()), NavModel.LocationChanged(distance));
    }

    /** `onSensorChanged`, given the sensor type, the sample's azimuth, the
        declination at the last location and the bearing from it to the
        target. */
    method OnSensorChanged(sensor: NavModel.SensorType, azimuth: real, declination: real, bearing: real)
      requires Valid()
      modifies this
      ensures Valid()
      ensures Snapshot() == NavModel.OnSensorChanged(old(Snapshot()), sensor, azimuth, declination, bearing)
    {
      if sensor != NavModel.Accelerometer {
        return;
      }
      if !doingNavigation || targetLocation.None? {
        return;
      }
      directionForRotation := Direction(bearing, azimuth, declination);
    }
  }
}
