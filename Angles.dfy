/** The heading arithmetic of the waypoint activity: the bearing and
    azimuth corrections of `onSensorChanged` and the `% 360` applied by
    `rotateArrowImage`. Angles are exact reals; the `float` rounding of
    the source is not modelled. */
module Angles {

  /** `a` and `b` denote the same direction: they differ by a whole
      number of full turns. */
  ghost predicate SameTurn(a: real, b: real)
  {
    a - b == 360.0 * ((a - b) / 360.0).Floor as real
  }

  /** Turns counted by an integer make the same direction. */
  lemma SameTurnBy(a: real, b: real, n: int)
    requires a - b == 360.0 * n as real
    ensures SameTurn(a, b)
  {
    assert (a - b) / 360.0 == n as real;
  }

  lemma SameTurnTrans(a: real, b: real, c: real)
    requires SameTurn(a, b) && SameTurn(b, c)
    ensures SameTurn(a, c)
  {
    var m, n := ((a - b) / 360.0).Floor, ((b - c) / 360.0).Floor;
    SameTurnBy(a, c, m + n);
  }

  lemma SameTurnSym(a: real, b: real)
    requires SameTurn(a, b)
    ensures SameTurn(b, a)
  {
    SameTurnBy(b, a, -((a - b) / 360.0).Floor);
  }

  /** The bearing to the target after its single correction: a negative
      bearing gets one full turn added. */
  function PositiveBearing(bearing: real): (r: real)
    ensures SameTurn(r, bearing)
    ensures 0.0 <= bearing ==> r == bearing
    ensures -360.0 <= bearing < 360.0 ==> 0.0 <= r < 360.0
  {
    SameTurnBy(if bearing < 0.0 then bearing + 360.0 else bearing, bearing,
               if bearing < 0.0 then 1 else 0);
    if bearing < 0.0 then bearing + 360.0 else bearing
  }

  /** The raw azimuth corrected by the magnetic declination. */
  function TrueAzimuth(azimuth: real, declination: real): real
  {
    azimuth - declination
  }

  /** The angle stored in `directionForRotation`: the corrected bearing
      minus the true azimuth, with one full turn added when negative. */
  function Direction(bearing: real, azimuth: real, declination: real): (r: real)
    ensures SameTurn(r, bearing - TrueAzimuth(azimuth, declination))
    ensures -360.0 <= bearing < 360.0 && 0.0 <= TrueAzimuth(azimuth, declination) < 360.0
            ==> 0.0 <= r < 360.0
  {
    var b := PositiveBearing(bearing);
    var d := b - TrueAzimuth(azimuth, declination);
    var r := if d < 0.0 then d + 360.0 else d;
    SameTurnBy(r, d, if d < 0.0 then 1 else 0);
    SameTurnTrans(r, d, bearing - TrueAzimuth(azimuth, declination));
    r
  }

  /** Rounding toward zero, as Java's `%` on floats uses it. */
  function Truncate(x: real): (n: int)
    ensures 0.0 <= x ==> 0 <= n && n as real <= x < n as real + 1.0
    ensures x < 0.0 ==> n <= 0 && n as real - 1.0 < x <= n as real
  {
    if x >= 0.0 then x.Floor else -((-x).Floor)
  }

  /** Java's `rotate % 360` on a float: the remainder takes the sign of
      the dividend, unlike Dafny's Euclidean `%`. */
  function JavaRem360(x: real): (r: real)
    ensures SameTurn(x, r)
    ensures -360.0 < r < 360.0
    ensures 0.0 <= x ==> 0.0 <= r
    ensures x <= 0.0 ==> r <= 0.0
  {
    var n := Truncate(x / 360.0);
    SameTurnBy(x, x - 360.0 * n as real, n);
    x - 360.0 * n as real
  }

  /** A direction already within one turn either way is left as it is. */
  lemma JavaRemWithinTurn(x: real)
    requires -360.0 < x < 360.0
    ensures JavaRem360(x) == x
  {
  }

  /** The truncated remainder differs from a floor modulus: -90 stays -90
      instead of becoming 270. */
  lemma JavaRemKeepsSign()
    ensures JavaRem360(-90.0) == -90.0
    ensures JavaRem360(450.0) == 90.0
  {
  }

  /** Example: azimuth 90, declination 5, bearing 100 gives a
      direction of 15 degrees. */
  lemma DirectionExample()
    ensures Direction(100.0, 90.0, 5.0) == 15.0
  {
  }

  /** A single correction is not a normalisation: when the true azimuth
      lies outside [0, 360) the direction can leave [0, 360) too. */
  lemma DirectionOutsideTurn()
    ensures Direction(0.0, 359.0, -5.0) == -4.0
    ensures Direction(-5.0, 0.0, 10.0) == 365.0
  {
  }

  /** The angle the arrow is rotated by always lies strictly within one
      turn either way and points the same way as bearing minus true
      azimuth, whatever the inputs. */
  lemma ArrowAngleSameTurn(bearing: real, azimuth: real, declination: real)
    ensures var r := JavaRem360(Direction(bearing, azimuth, declination));
      -360.0 < r < 360.0 && SameTurn(r, bearing - TrueAzimuth(azimuth, declination))
  {
    var d := Direction(bearing, azimuth, declination);
    SameTurnSym(d, JavaRem360(d));
    SameTurnTrans(JavaRem360(d), d, bearing - TrueAzimuth(azimuth, declination));
  }
}
