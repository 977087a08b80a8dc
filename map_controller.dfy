/**
 * The route handlers of the map controller: `findRoute` (a cached lookup
 * that synthesizes and stores a straight route on a miss) and
 * `getDirections` (turn-by-turn steps for every stored route joining two
 * points).
 */
module MapController {
  import opened Common
  import opened Geodesy
  import opened Directions
  import opened Routes

  /**
   * Mongoose's cast of a value to a Boolean path: `true`, `"1"` and `"yes"`
   * read as true, `"false"`, `"0"` and `"no"` as false, and anything else
   * fails validation. An absent query parameter is the handler's default
   * `false`, already a boolean.
   */
  function CastBoolean(p: Option<string>): (b: Option<bool>)
    ensures b == Some(true) <==> p == Some("true") || p == Some("1") || p == Some("yes")
    ensures b == Some(false) <==> p.None? || p == Some("false") || p == Some("0") || p == Some("no")
    ensures b == Some(true) ==> Truthy(p)
  {
    match p
    case None => Some(false)
    case Some(s) =>
      if s == "true" || s == "1" || s == "yes" then Some(true)
      else if s == "false" || s == "0" || s == "no" then Some(false)
      else None
  }

  /**
   * The lookup `findRoute` runs: both endpoints on the path, the requested
   * mode (`"walking"` when absent) and, when the `accessibility` parameter
   * is truthy, wheelchair access.
   */
  function RouteQuery(start: Point, end: Point, mode: Option<string>, accessibility: Option<string>): Query {
    Query(start, end, mode.GetOr("walking"), Truthy(accessibility))
  }

  /**
   * The route `findRoute` builds on a miss: the straight segment from start
   * to end, its haversine length, and the time it takes at the mode's
   * average speed.
   */
  function Synthesized(m: MathLib, id: nat, start: Point, end: Point, mode: string, accessible: bool): Route
    requires mode in Modes
  {
    var distance := Distance(m, start, end);
    Route(id, mode, [start, end], distance, distance / AverageSpeed(mode).value, accessible)
  }

  /**
   * A synthesized route covers its own endpoints and mode; its length and
   * duration are non-negative, the duration is the length over the mode's
   * speed, and a route from a point to itself has length and duration 0.
   */
  lemma SynthesizedMeasures(m: MathLib, id: nat, start: Point, end: Point, mode: string, accessible: bool)
    requires Lawful(m) && mode in Modes
    ensures var r := Synthesized(m, id, start, end, mode, accessible);
            && r.coordinates == [start, end]
            && r.mode == mode
            && 0.0 <= r.distance <= EarthRadius * PI
            && r.duration >= 0.0
            && r.duration * AverageSpeed(mode).value == r.distance
            && (start == end ==> r.distance == 0.0 && r.duration == 0.0)
  {
    DistanceBounds(m, start, end);
    if start == end {
      DistanceToSelf(m, start);
    }
  }

  /**
   * A synthesized route answers its own request exactly when the request
   * does not ask for wheelchair access or the stored flag is true.
   */
  lemma SynthesizedAnswersItself(m: MathLib, id: nat, start: Point, end: Point, mode: Option<string>, accessibility: Option<string>)
    requires mode.GetOr("walking") in Modes && CastBoolean(accessibility).Some?
    ensures var r := Synthesized(m, id, start, end, mode.GetOr("walking"), CastBoolean(accessibility).value);
            (Matches(r, RouteQuery(start, end, mode, accessibility))
             <==> (Truthy(accessibility) ==> CastBoolean(accessibility) == Some(true)))
  {
    var r := Synthesized(m, id, start, end, mode.GetOr("walking"), CastBoolean(accessibility).value);
    assert r.coordinates[0] == start && r.coordinates[1] == end;
  }

  /**
   * `findRoute`: the first stored route that answers the query; on a miss,
   * a synthesized route saved under a fresh id. An unknown mode, or an
   * `accessibility` value the Boolean path cannot cast, makes the save fail
   * (a 500 response) and nothing is stored.
   */
  method FindRoute(store: RouteStore, m: MathLib, start: Point, end: Point, mode: Option<string>, accessibility: Option<string>)
    returns (res: Result<Route>)
    requires store.Valid()
    modifies store
    ensures store.Valid()
    ensures var hit := FindOne(old(store.routes), RouteQuery(start, end, mode, accessibility));
            hit.Some? ==> res == Ok(hit.value) && store.routes == old(store.routes) && store.nextId == old(store.nextId)
    ensures var hit := FindOne(old(store.routes), RouteQuery(start, end, mode, accessibility));
            var modeName := mode.GetOr("walking");
            var flag := CastBoolean(accessibility);
            hit.None? && modeName in Modes && flag.Some? ==>
              && res == Ok(Synthesized(m, old(store.nextId), start, end, modeName, flag.value))
              && store.routes == old(store.routes) + [res.value]
    ensures var hit := FindOne(old(store.routes), RouteQuery(start, end, mode, accessibility));
            hit.None? && (mode.GetOr("walking") !in Modes || CastBoolean(accessibility).None?) ==>
              res.Err? && store.routes == old(store.routes) && store.nextId == old(store.nextId)
  {
    var modeName := mode.GetOr("walking");
    var q := Query(start, end, modeName, Truthy(accessibility));
    assert q == RouteQuery(start, end, mode, accessibility);
    var hit := FindOne(store.routes, q);
    if hit.Some? {
      return Ok(hit.value);
    }
    var flag := CastBoolean(accessibility);
    if flag.None? {
      return Err("Route validation failed: accessibility.isWheelchairAccessible: Cast to Boolean failed");
    }
    res := SaveSynthesized(store, m, start, end, modeName, flag.value);
  }

  /** The miss branch of `findRoute`: builds the route and saves it, or fails on an unknown mode. */
  method SaveSynthesized(store: RouteStore, m: MathLib, start: Point, end: Point, mode: string, accessible: bool)
    returns (res: Result<Route>)
    requires store.Valid()
    modifies store
    ensures store.Valid()
    ensures mode in Modes ==>
              && res == Ok(Synthesized(m, old(store.nextId), start, end, mode, accessible))
              && store.routes == old(store.routes) + [res.value]
    ensures mode !in Modes ==> res.Err? && store.routes == old(store.routes) && store.nextId == old(store.nextId)
  {
    var distance := Distance(m, start, end);
    var speed := AverageSpeed(mode);
    if speed.None? {
      return Err("Route validation failed: type is not a valid enum value");
    }
    ghost var route := Route(store.nextId, mode, [start, end], distance, distance / speed.value, accessible);
    assert route == Synthesized(m, store.nextId, start, end, mode, accessible);
    res := store.Save(mode, [start, end], distance, distance / speed.value, accessible);
    assert res == Ok(route);
  }

  /**
   * Asking twice: when the first answer answers its own query, the second
   * request is served from the store and returns the same route; otherwise
   * (a route stored with a false flag for a request asking for wheelchair
   * access) the second request stores yet another route.
   */
  method FindRouteTwice(store: RouteStore, m: MathLib, start: Point, end: Point, mode: Option<string>, accessibility: Option<string>)
    returns (first: Result<Route>, second: Result<Route>)
    requires store.Valid()
    modifies store
    ensures store.Valid()
    ensures first.Ok? && Matches(first.value, RouteQuery(start, end, mode, accessibility)) ==> second == first
    ensures first.Ok? && !Matches(first.value, RouteQuery(start, end, mode, accessibility)) ==>
              second.Ok? && second.value.id != first.value.id && |store.routes| == |old(store.routes)| + 2
    ensures first.Err? ==> second.Err? && store.routes == old(store.routes)
  {
    var q := RouteQuery(start, end, mode, accessibility);
    ghost var before := store.routes;
    first := FindRoute(store, m, start, end, mode, accessibility);
    ghost var between := store.routes;
    if first.Ok? && FindOne(before, q).None? {
      if Matches(first.value, q) {
        FindOneAfterAppend(before, first.value, q);
      } else {
        MatchingAfterAppend(before, first.value, q);
      }
    }
    second := FindRoute(store, m, start, end, mode, accessibility);
    if first.Ok? && !Matches(first.value, q) {
      assert first.value in between;
    }
  }

  /** A request with `accessibility=false` is truthy yet stores a false flag: it never finds its own route. */
  lemma FalseFlagNeverAnswersItself(m: MathLib, id: nat, start: Point, end: Point, mode: Option<string>)
    requires mode.GetOr("walking") in Modes
    ensures CastBoolean(Some("false")) == Some(false)
    ensures !Matches(Synthesized(m, id, start, end, mode.GetOr("walking"), false), RouteQuery(start, end, mode, Some("false")))
  {
    SynthesizedAnswersItself(m, id, start, end, mode, Some("false"));
  }

  /** The directions for one route: its id, measures, steps and elevation profile. */
  datatype Direction = Direction(
    routeId: nat,
    distance: real,
    duration: real,
    steps: seq<Step>,
    elevationProfile: seq<ElevationSample>)

  /** What `getDirections` reports for route `r`; `random` supplies its elevation draws. */
  function DirectionOf(m: MathLib, r: Route, random: nat -> real): Direction {
    Direction(r.id, r.distance, r.duration, StepsOf(m, r.coordinates), ElevationProfile(r.coordinates, random))
  }

  /** `routes.map(...)`: the directions of each route, in order; route `j` draws its elevations from `random(j)`. */
  function DirectionsOf(m: MathLib, found: seq<Route>, random: nat -> nat -> real): (ds: seq<Direction>)
    ensures |ds| == |found|
    ensures forall j :: 0 <= j < |found| ==> ds[j] == DirectionOf(m, found[j], random(j))
  {
    seq(|found|, j requires 0 <= j < |found| => DirectionOf(m, found[j], random(j)))
  }

  /**
   * The directions for a route carry its id, length and duration, one step
   * per leg of its path, and one elevation sample per coordinate, at that
   * coordinate and, for draws in `[0, 1)`, between 0 and 1000.
   */
  lemma DirectionShape(m: MathLib, r: Route, random: nat -> real)
    ensures var d := DirectionOf(m, r, random);
            && d.routeId == r.id && d.distance == r.distance && d.duration == r.duration
            && d.steps == StepsOf(m, r.coordinates)
            && |d.steps| == (if r.coordinates == [] then 0 else |r.coordinates| - 1)
            && |d.elevationProfile| == |r.coordinates|
            && (forall k :: 0 <= k < |r.coordinates| ==> d.elevationProfile[k].coordinates == r.coordinates[k])
            && ((forall k: nat :: 0.0 <= random(k) < 1.0) ==>
                  forall k :: 0 <= k < |r.coordinates| ==> 0.0 <= d.elevationProfile[k].elevation < 1000.0)
  {
  }

  /** The lookup of `getDirections`: the mode (`"walking"` when absent) and both endpoints, with no access filter. */
  function DirectionsQuery(origin: Point, destination: Point, mode: Option<string>): Query {
    Query(origin, destination, mode.GetOr("walking"), false)
  }

  /**
   * `getDirections`: the directions of every stored route that joins the
   * two points in the requested mode, in the collection's order. With
   * `alternatives` all of them are reported; otherwise only the first, or
   * `None` (JSON `null`) when there is none.
   */
  method GetDirections(store: RouteStore, m: MathLib, origin: Point, destination: Point, mode: Option<string>,
                       alternatives: bool, random: nat -> nat -> real)
    returns (routes: seq<Option<Direction>>)
    ensures var found := Matching(store.routes, DirectionsQuery(origin, destination, mode));
            alternatives ==>
              && |routes| == |found|
              && forall j :: 0 <= j < |found| ==> routes[j] == Some(DirectionOf(m, found[j], random(j)))
    ensures var found := Matching(store.routes, DirectionsQuery(origin, destination, mode));
            !alternatives ==>
              && |routes| == 1
              && routes[0] == if found == [] then None else Some(DirectionOf(m, found[0], random(0)))
  {
    var found := Matching(store.routes, Query(origin, destination, mode.GetOr("walking"), false));
    var directions := DirectionsOf(m, found, random);
    if alternatives {
      routes := seq(|directions|, i requires 0 <= i < |directions| => Some(directions[i]));
    } else {
      routes := [if directions == [] then None else Some(directions[0])];
    }
  }
}
