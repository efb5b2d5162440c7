/** The persisted target: a preferences record holding two floats under
    the latitude and longitude keys. A missing key reads as the sentinel
    400, which lies outside every valid coordinate and means "no target". */
module TargetStore {
  import opened Locations

  /** The default `getFloat` returns for a missing key. */
  const Sentinel: real := 400.0

  /** The two keys the activity reads from its resources. */
  datatype PrefKey = LatKey | LongKey

  /** The committed contents of the preferences record. */
  type Prefs = map<PrefKey, real>

  /** `prefs.getFloat(key, default)`. */
  function GetFloat(p: Prefs, key: PrefKey, default: real): real
  {
    if key in p then p[key] else default
  }

  /** The stored target as `onCreate` reads it: present exactly when
      both stored floats are strictly below the sentinel, which can only
      happen when both keys are present. */
  function Restore(p: Prefs): (r: Option<Coord>)
    ensures r.Some? <==> GetFloat(p, LatKey, Sentinel) < Sentinel && GetFloat(p, LongKey, Sentinel) < Sentinel
    ensures r.Some? ==> LatKey in p && LongKey in p && r.value == Coord(p[LatKey], p[LongKey])
  {
    var lat := GetFloat(p, LatKey, Sentinel);
    var long := GetFloat(p, LongKey, Sentinel);
    if lat < Sentinel && long < Sentinel then Some(Coord(lat, long)) else None
  }

  /** `editor.clear(); editor.commit()`: every key is removed. */
  function Cleared(p: Prefs): (r: Prefs)
    ensures forall key :: key !in r
  {
    map[]
  }

  /** `saveLocationToPreferences`: the record is cleared and then both
      keys are written, so nothing of the old record survives. */
  function SaveRecord(p: Prefs, latitude: real, longitude: real): (r: Prefs)
    ensures r.Keys == {LatKey, LongKey}
    ensures r[LatKey] == latitude && r[LongKey] == longitude
  {
    Cleared(p)[LatKey := latitude][LongKey := longitude]
  }

  /** Saving a pair below the sentinel and reading it back gives the same
      pair, whatever the record held before. */
  lemma SaveThenRestore(p: Prefs, latitude: real, longitude: real)
    requires latitude < Sentinel && longitude < Sentinel
    ensures Restore(SaveRecord(p, latitude, longitude)) == Some(Coord(latitude, longitude))
  {
  }

  /** A saved pair with either coordinate at or above the sentinel reads
      back as no target. */
  lemma SaveSentinelRestoresNothing(p: Prefs, latitude: real, longitude: real)
    requires latitude >= Sentinel || longitude >= Sentinel
    ensures Restore(SaveRecord(p, latitude, longitude)).None?
  {
  }

  /** After a clear nothing is restored. */
  lemma ClearThenRestore(p: Prefs)
    ensures Restore(Cleared(p)).None?
  {
  }

  /** A record holding only one of the two keys restores nothing: the
      missing key reads as the sentinel. */
  lemma HalfRecordRestoresNothing(p: Prefs)
    requires LatKey !in p || LongKey !in p
    ensures Restore(p).None?
  {
  }
}
