/**
 * Turn-by-turn directions of the map controller: compass names for
 * bearings, the printed form of a distance, one step per leg of a route's
 * path, and the (synthetic) elevation profile.
 */
module Directions {
  import opened JsNumbers
  import opened Geodesy

  /** The names `getBearingDirection` indexes, clockwise from north in 45-degree sectors. */
  const CompassNames: seq<string> :=
    ["north", "northeast", "east", "southeast", "south", "southwest", "west", "northwest"]

  /**
   * `getBearingDirection`: `directions[Math.round(bearing / 45) % 8]`. A
   * negative index reads `undefined`, which the instruction's template
   * literal prints as the word "undefined".
   */
  function BearingDirection(bearing: real): (name: string)
    ensures bearing >= -22.5 ==> name in CompassNames
  {
    var k := Rem(Round(bearing / 45.0), 8);
    if k >= 0 then CompassNames[k] else "undefined"
  }

  /**
   * The compass name of a bearing is the name of the 45-degree sector
   * centred on `45 * k` that holds it; the sector of 360 wraps to north.
   */
  lemma CompassSector(bearing: real, k: nat)
    requires k <= 8
    requires 45.0 * k as real - 22.5 <= bearing < 45.0 * k as real + 22.5
    ensures BearingDirection(bearing) == CompassNames[k % 8]
  {
    assert k as real - 0.5 <= bearing / 45.0 < k as real + 0.5;
    assert Round(bearing / 45.0) == k;
  }

  /** Bearings from 337.5 degrees up to a full turn are reported as north. */
  lemma NorthWraps(bearing: real)
    requires 337.5 <= bearing < 360.0
    ensures BearingDirection(bearing) == "north"
  {
    CompassSector(bearing, 8);
  }

  /**
   * `formatDistance`: below 1000 the distance rounded to whole metres,
   * otherwise kilometres printed with one decimal by `toFixed(1)`.
   */
  function FormatDistance(distance: real): (text: string) {
    if distance < 1000.0 then IntToString(Round(distance)) + " meters"
    else FixedOne(distance / 1000.0) + " kilometers"
  }

  /**
   * Below 1000, a non-negative distance prints as the decimal digits of the
   * whole number of metres nearest to it (at most 1000).
   */
  lemma FormatDistanceMeters(distance: real)
    requires 0.0 <= distance < 1000.0
    ensures var n := Round(distance);
            && 0 <= n <= 1000
            && -0.5 < n as real - distance <= 0.5
            && FormatDistance(distance) == NatToString(n) + " meters"
            && DigitsValue(NatToString(n)) == n
  {
    NatToStringRoundTrip(Round(distance));
  }

  /**
   * From 1000 on, a distance prints as kilometres with one decimal: a whole
   * part of at least 1 and a tenth digit, together within 0.05 km of the distance.
   */
  lemma FormatDistanceKilometers(distance: real)
    requires distance >= 1000.0
    ensures var n := Round(distance / 1000.0 * 10.0);
            && n >= 10
            && FormatDistance(distance)
               == NatToString(n / 10) + "." + [DigitChar(n % 10)] + " kilometers"
            && DigitsValue(NatToString(n / 10)) == n / 10
            && -0.05 < (10 * (n / 10) + n % 10) as real / 10.0 - distance / 1000.0 <= 0.05
  {
    FixedOneAccurate(distance / 1000.0);
  }

  /** The threshold cases of the formatting rule. */
  lemma FormatDistanceExamples()
    ensures FormatDistance(999.0) == "999 meters"
    ensures FormatDistance(1000.0) == "1.0 kilometers"
    ensures FormatDistance(1500.0) == "1.5 kilometers"
  {
    assert Round(999.0) == 999;
    assert NatToString(99) == "99";
    assert NatToString(999) == "999";
    assert Round(1000.0 / 1000.0 * 10.0) == 10;
    assert NatToString(1) == "1";
    assert Round(1500.0 / 1000.0 * 10.0) == 15;
  }

  /** Just below the threshold, rounding reaches it: 999.5 metres print as "1000 meters". */
  lemma RoundsUpToThousandMeters()
    ensures FormatDistance(999.5) == "1000 meters"
  {
    assert Round(999.5) == 1000;
    assert NatToString(1) == "1";
    assert NatToString(10) == "10";
    assert NatToString(100) == "100";
    assert NatToString(1000) == "1000";
  }

  /** `generateInstruction`: "Head {direction} for {distance}". */
  function Instruction(bearing: real, distance: real): string {
    "Head " + BearingDirection(bearing) + " for " + FormatDistance(distance)
  }

  /** One navigation step, as `generateSteps` pushes it. */
  datatype Step = Step(instruction: string, distance: real, bearing: real)

  /** The step for the leg from `from` to `to`. */
  function StepBetween(m: MathLib, from: Point, to: Point): Step {
    var bearing := Bearing(m, from, to);
    var distance := Distance(m, from, to);
    Step(Instruction(bearing, distance), distance, bearing)
  }

  /** The steps of a path: one per pair of consecutive coordinates, in order. */
  function StepsOf(m: MathLib, coordinates: seq<Point>): (steps: seq<Step>)
    ensures |steps| == if coordinates == [] then 0 else |coordinates| - 1
  {
    if |coordinates| < 2 then []
    else
      var n := |coordinates|;
      StepsOf(m, coordinates[..n - 1]) + [StepBetween(m, coordinates[n - 2], coordinates[n - 1])]
  }

  /** Step `i` of a path is the leg from coordinate `i` to coordinate `i + 1`. */
  lemma {:induction false} StepsOfAt(m: MathLib, coordinates: seq<Point>, i: nat)
    requires i + 1 < |coordinates|
    ensures StepsOf(m, coordinates)[i] == StepBetween(m, coordinates[i], coordinates[i + 1])
  {
    var n := |coordinates|;
    var prefix := coordinates[..n - 1];
    if i + 2 < n {
      StepsOfAt(m, prefix, i);
      assert prefix[i] == coordinates[i] && prefix[i + 1] == coordinates[i + 1];
      assert StepsOf(m, coordinates)[i] == StepsOf(m, prefix)[i];
    }
  }

  /** `generateSteps`: walks the coordinates from the second on, pushing the step of each leg. */
  method GenerateSteps(m: MathLib, coordinates: seq<Point>) returns (steps: seq<Step>)
    ensures steps == StepsOf(m, coordinates)
  {
    steps := [];
    var i := 1;
    while i < |coordinates|
      invariant coordinates == [] || 1 <= i <= |coordinates|
      invariant coordinates == [] ==> steps == []
      invariant coordinates != [] ==> steps == StepsOf(m, coordinates[..i])
    {
      var bearing := Bearing(m, coordinates[i - 1], coordinates[i]);
      var distance := Distance(m, coordinates[i - 1], coordinates[i]);
      steps := steps + [Step(Instruction(bearing, distance), distance, bearing)];
      assert coordinates[..i + 1][..i] == coordinates[..i];
      i := i + 1;
    }
    assert coordinates != [] ==> coordinates[..i] == coordinates;
  }

  /**
   * Every step heads along one of the eight compass names, with a bearing
   * in `[0, 360)` and a non-negative distance, and its instruction reads
   * "Head {name} for {formatted distance}".
   */
  lemma StepsWellFormed(m: MathLib, coordinates: seq<Point>, i: nat)
    requires Lawful(m)
    requires i < |StepsOf(m, coordinates)|
    ensures var step := StepsOf(m, coordinates)[i];
            && 0.0 <= step.bearing < 360.0
            && step.distance >= 0.0
            && step.distance == Distance(m, coordinates[i], coordinates[i + 1])
            && exists name :: name in CompassNames
                 && step.instruction == "Head " + name + " for " + FormatDistance(step.distance)
  {
    StepsOfAt(m, coordinates, i);
    BearingRange(m, coordinates[i], coordinates[i + 1]);
    DistanceBounds(m, coordinates[i], coordinates[i + 1]);
    var step := StepsOf(m, coordinates)[i];
    assert BearingDirection(step.bearing) in CompassNames;
  }

  /** A placeholder elevation sample: a coordinate of the path and a made-up height. */
  datatype ElevationSample = ElevationSample(coordinates: Point, elevation: real)

  /**
   * `calculateElevationProfile`: one sample per coordinate, each with
   * `Math.random() * 1000` as its elevation; `random(k)` is the draw for the
   * `k`-th coordinate.
   */
  function ElevationProfile(coordinates: seq<Point>, random: nat -> real): (profile: seq<ElevationSample>)
    ensures |profile| == |coordinates|
    ensures forall k :: 0 <= k < |profile| ==> profile[k].coordinates == coordinates[k]
    ensures (forall k: nat :: 0.0 <= random(k) < 1.0) ==>
              forall k :: 0 <= k < |profile| ==> 0.0 <= profile[k].elevation < 1000.0
  {
    seq(|coordinates|, k requires 0 <= k < |coordinates| => ElevationSample(coordinates[k], random(k) * 1000.0))
  }
}
