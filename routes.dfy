/**
 * The Route collection: stored routes, the query the map controller runs
 * against them (`$all` containment of both endpoints, mode, optional
 * wheelchair flag), and the store that appends saved routes.
 */
module Routes {
  import opened Common
  import opened Geodesy

  /** A stored route. `mode` is the schema's `type` field. */
  datatype Route = Route(
    id: nat,
    mode: string,
    coordinates: seq<Point>,
    distance: real,
    duration: real,
    isWheelchairAccessible: bool)

  /** The modes the schema's enum admits. */
  const Modes: set<string> := {"walking", "wheelchair", "bicycle", "shuttle"}

  /** `averageSpeed[mode]` in metres per second; `None` where the table has no entry. */
  function AverageSpeed(mode: string): (speed: Option<real>)
    ensures speed.Some? <==> mode in Modes
    ensures speed.Some? ==> speed.value > 0.0
  {
    match mode
    case "walking" => Some(1.4)
    case "wheelchair" => Some(1.2)
    case "bicycle" => Some(4.17)
    case "shuttle" => Some(8.33)
    case _ => None
  }

  /** A cache lookup: both endpoints, a mode, and whether only accessible routes qualify. */
  datatype Query = Query(start: Point, end: Point, mode: string, accessibleOnly: bool)

  /**
   * The filter of `findOne`/`find`: the path holds both endpoint pairs
   * (anywhere and in any order), the mode is equal, and, when asked, the
   * route is wheelchair accessible.
   */
  predicate Matches(r: Route, q: Query) {
    && q.start in r.coordinates
    && q.end in r.coordinates
    && r.mode == q.mode
    && (q.accessibleOnly ==> r.isWheelchairAccessible)
  }

  /** The routes a `find` returns, in the collection's natural order. */
  function Matching(routes: seq<Route>, q: Query): (found: seq<Route>)
    ensures |found| <= |routes|
    ensures forall r :: r in found <==> r in routes && Matches(r, q)
    ensures forall r :: multiset(found)[r] == if Matches(r, q) then multiset(routes)[r] else 0
  {
    if routes == [] then []
    else
      var rest := Matching(routes[..|routes| - 1], q);
      var last := routes[|routes| - 1];
      assert routes == routes[..|routes| - 1] + [last];
      if Matches(last, q) then rest + [last] else rest
  }

  /**
   * The route a `findOne` returns. The body takes the first match in the
   * stored order, but the contract promises only some stored match: MongoDB
   * does not fix which one a query without a sort returns.
   */
  function FindOne(routes: seq<Route>, q: Query): (hit: Option<Route>)
    ensures hit.None? <==> forall r :: r in routes ==> !Matches(r, q)
    ensures hit.Some? ==> hit.value in routes && Matches(hit.value, q)
  {
    var found := Matching(routes, q);
    if found == [] then None
    else
      assert found[0] in found;
      Some(found[0])
  }

  /** Appending a route that matches to a collection with no match makes it the `findOne` hit. */
  lemma {:induction false} FindOneAfterAppend(routes: seq<Route>, r: Route, q: Query)
    requires FindOne(routes, q).None?
    requires Matches(r, q)
    ensures FindOne(routes + [r], q) == Some(r)
  {
    var all := routes + [r];
    assert all[..|all| - 1] == routes;
    assert Matching(routes, q) == [];
    assert Matching(all, q) == [r];
  }

  /** Appending a route that does not match leaves every lookup's answer alone. */
  lemma {:induction false} MatchingAfterAppend(routes: seq<Route>, r: Route, q: Query)
    requires !Matches(r, q)
    ensures Matching(routes + [r], q) == Matching(routes, q)
  {
    var all := routes + [r];
    assert all[..|all| - 1] == routes;
  }

  /**
   * The Route collection. Saved routes get fresh ids and are appended;
   * nothing is ever updated or removed.
   */
  class RouteStore {
    var routes: seq<Route>
    var nextId: nat

    /** Ids are distinct and below `nextId`; the schema's enum holds for every mode. */
    ghost predicate Valid()
      reads this
    {
      && (forall i :: 0 <= i < |routes| ==> routes[i].id < nextId && routes[i].mode in Modes)
      && (forall i, j :: 0 <= i < j < |routes| ==> routes[i].id != routes[j].id)
    }

    constructor ()
      ensures Valid() && routes == []
    {
      routes := [];
      nextId := 0;
    }

    /**
     * `route.save()`: validates the mode against the schema's enum and
     * appends the route under a fresh id; a route that fails validation is
     * rejected and nothing is stored.
     */
    method Save(mode: string, coordinates: seq<Point>, distance: real, duration: real, accessible: bool)
      returns (res: Result<Route>)
      requires Valid()
      modifies this
      ensures Valid()
      ensures mode in Modes ==>
                && res == Ok(Route(old(nextId), mode, coordinates, distance, duration, accessible))
                && routes == old(routes) + [res.value]
      ensures mode !in Modes ==> res.Err? && routes == old(routes) && nextId == old(nextId)
      ensures res.Ok? ==> forall r :: r in old(routes) ==> r.id != res.value.id
    {
      if mode !in Modes {
        return Err("Route validation failed: type is not a valid enum value");
      }
      var r := Route(nextId, mode, coordinates, distance, duration, accessible);
      routes := routes + [r];
      nextId := nextId + 1;
      res := Ok(r);
    }
  }
}
