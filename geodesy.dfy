/**
 * Great-circle geometry of the map controller: the haversine distance and
 * the initial bearing between two GeoJSON positions.
 *
 * The handlers compute with `Math.sin`, `Math.cos`, `Math.atan2` and
 * `Math.sqrt`. Those are not part of this model: a `MathLib` value stands
 * for them, and `Lawful` lists the few facts about them that the proofs use.
 * Every property below holds for each library that obeys those facts.
 */
module Geodesy {
  import opened JsNumbers

  /** A GeoJSON position: longitude first, then latitude, in degrees. */
  datatype Point = Point(lng: real, lat: real)

  /** The floating-point library the formulas call. */
  datatype MathLib = MathLib(
    sin: real -> real,
    cos: real -> real,
    atan2: (real, real) -> real,
    sqrt: real -> real)

  /** `Math.PI`: the double nearest to pi, written out exactly. */
  const PI: real := 3.141592653589793115997963468544185161590576171875

  /** The Earth radius the haversine formula uses, in metres. */
  const EarthRadius: real := 6371000.0

  /**
   * The facts about the library that the proofs rely on: sine is odd and
   * vanishes at 0, cosine is 1 at 0, square roots are non-negative with
   * `sqrt(0) = 0` and `sqrt(1) = 1`, and `atan2` lies in `[-PI, PI]`, is
   * non-negative for a non-negative first argument, at most `PI / 2` for a
   * non-negative second argument, and 0 at `(0, 1)` and `(0, 0)`.
   */
  ghost predicate Lawful(m: MathLib) {
    && m.sin(0.0) == 0.0
    && m.cos(0.0) == 1.0
    && (forall x: real, y: real {:trigger m.sin(x), m.sin(y)} :: x + y == 0.0 ==> m.sin(y) == -m.sin(x))
    && (forall x: real :: m.sqrt(x) >= 0.0)
    && m.sqrt(0.0) == 0.0
    && m.sqrt(1.0) == 1.0
    && (forall y: real, x: real :: -PI <= m.atan2(y, x) <= PI)
    && (forall y: real, x: real :: y >= 0.0 ==> m.atan2(y, x) >= 0.0)
    && (forall y: real, x: real :: x >= 0.0 ==> m.atan2(y, x) <= PI / 2.0)
    && m.atan2(0.0, 1.0) == 0.0
    && m.atan2(0.0, 0.0) == 0.0
  }

  /** A library that obeys `Lawful` (so the hypothesis is never vacuous). */
  function Flat(): MathLib {
    MathLib(x => 0.0, x => 1.0, (y, x) => 0.0, x => if x == 1.0 then 1.0 else 0.0)
  }

  lemma FlatIsLawful()
    ensures Lawful(Flat())
  {
  }

  /** Degrees to radians, as the handlers write it: `deg * Math.PI / 180`. */
  function Radians(deg: real): real {
    deg * PI / 180.0
  }

  /** The haversine term `a` of `calculateDistance`. */
  function Haversine(m: MathLib, p1: Point, p2: Point): real {
    var phi1 := Radians(p1.lat);
    var phi2 := Radians(p2.lat);
    var dPhi := (p2.lat - p1.lat) * PI / 180.0;
    var dLambda := (p2.lng - p1.lng) * PI / 180.0;
    m.sin(dPhi / 2.0) * m.sin(dPhi / 2.0)
      + m.cos(phi1) * m.cos(phi2) * m.sin(dLambda / 2.0) * m.sin(dLambda / 2.0)
  }

  /** `calculateDistance`: the haversine great-circle distance in metres. */
  function Distance(m: MathLib, p1: Point, p2: Point): real {
    var a := Haversine(m, p1, p2);
    var c := 2.0 * m.atan2(m.sqrt(a), m.sqrt(1.0 - a));
    EarthRadius * c
  }

  /** A point is at distance 0 from itself. */
  lemma DistanceToSelf(m: MathLib, p: Point)
    requires Lawful(m)
    ensures Distance(m, p, p) == 0.0
  {
    assert (p.lat - p.lat) * PI / 180.0 / 2.0 == 0.0;
    assert (p.lng - p.lng) * PI / 180.0 / 2.0 == 0.0;
    assert Haversine(m, p, p) == 0.0;
  }

  /** Swapping the endpoints negates both differences, which the squares of an odd sine hide. */
  lemma HaversineSymmetric(m: MathLib, p1: Point, p2: Point)
    requires Lawful(m)
    ensures Haversine(m, p1, p2) == Haversine(m, p2, p1)
  {
    var u := (p2.lat - p1.lat) * PI / 180.0 / 2.0;
    var v := (p1.lat - p2.lat) * PI / 180.0 / 2.0;
    var w := (p2.lng - p1.lng) * PI / 180.0 / 2.0;
    var z := (p1.lng - p2.lng) * PI / 180.0 / 2.0;
    assert u + v == 0.0 && w + z == 0.0;
    assert m.sin(v) == -m.sin(u);
    assert m.sin(z) == -m.sin(w);
    assert m.sin(v) * m.sin(v) == m.sin(u) * m.sin(u);
    assert m.sin(z) * m.sin(z) == m.sin(w) * m.sin(w);
    var c1 := m.cos(Radians(p1.lat));
    var c2 := m.cos(Radians(p2.lat));
    assert c1 * c2 * m.sin(w) * m.sin(w) == c2 * c1 * m.sin(z) * m.sin(z);
  }

  /** The distance from `a` to `b` is the distance from `b` to `a`. */
  lemma DistanceSymmetric(m: MathLib, p1: Point, p2: Point)
    requires Lawful(m)
    ensures Distance(m, p1, p2) == Distance(m, p2, p1)
  {
    HaversineSymmetric(m, p1, p2);
  }

  /** A distance is never negative and never more than half a great circle. */
  lemma DistanceBounds(m: MathLib, p1: Point, p2: Point)
    requires Lawful(m)
    ensures 0.0 <= Distance(m, p1, p2) <= EarthRadius * PI
  {
    var a := Haversine(m, p1, p2);
    var c := m.atan2(m.sqrt(a), m.sqrt(1.0 - a));
    assert 0.0 <= c <= PI / 2.0;
  }

  /**
   * `calculateBearing`: the initial bearing from `start` to `end`, turned
   * from `atan2`'s radians into degrees and brought into `[0, 360)` by
   * `(deg + 360) % 360`.
   */
  function Bearing(m: MathLib, start: Point, end: Point): real {
    var startLat := Radians(start.lat);
    var startLng := Radians(start.lng);
    var endLat := Radians(end.lat);
    var endLng := Radians(end.lng);
    var y := m.sin(endLng - startLng) * m.cos(endLat);
    var x := m.cos(startLat) * m.sin(endLat) - m.sin(startLat) * m.cos(endLat) * m.cos(endLng - startLng);
    var theta := m.atan2(y, x);
    RealRem(theta * 180.0 / PI + 360.0, 360.0)
  }

  /** Every bearing is a compass angle in `[0, 360)`. */
  lemma BearingRange(m: MathLib, start: Point, end: Point)
    requires Lawful(m)
    ensures 0.0 <= Bearing(m, start, end) < 360.0
  {
    var y := m.sin(Radians(end.lng) - Radians(start.lng)) * m.cos(Radians(end.lat));
    var x := m.cos(Radians(start.lat)) * m.sin(Radians(end.lat))
      - m.sin(Radians(start.lat)) * m.cos(Radians(end.lat)) * m.cos(Radians(end.lng) - Radians(start.lng));
    var theta := m.atan2(y, x);
    assert -PI <= theta <= PI;
    assert theta * 180.0 / PI + 360.0 >= 180.0;
  }

  /** The bearing from a point to itself is 0 (north), never undefined. */
  lemma BearingToSelf(m: MathLib, p: Point)
    requires Lawful(m)
    ensures Bearing(m, p, p) == 0.0
  {
    var lat := Radians(p.lat);
    var lng := Radians(p.lng);
    assert lng - lng == 0.0;
    assert m.sin(lng - lng) == 0.0;
    assert m.cos(lng - lng) == 1.0;
    var y := m.sin(lng - lng) * m.cos(lat);
    assert y == 0.0;
    var x := m.cos(lat) * m.sin(lat) - m.sin(lat) * m.cos(lat) * m.cos(lng - lng);
    assert m.sin(lat) * m.cos(lat) * m.cos(lng - lng) == m.sin(lat) * m.cos(lat);
    assert x == 0.0;
    var theta := m.atan2(y, x);
    assert theta == 0.0;
    assert Bearing(m, p, p) == RealRem(theta * 180.0 / PI + 360.0, 360.0);
    assert theta * 180.0 / PI + 360.0 == 360.0;
    assert RealRem(360.0, 360.0) == 0.0 by {
      assert (360.0 / 360.0).Floor == 1;
    }
  }
}
