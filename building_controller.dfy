/**
 * The building controller: create, update and cascading delete of
 * buildings, and the filter `getAll` builds from its query string.
 *
 * Each handler is specified by a function from the old tables to its
 * outcome and the new tables; the method performs the handler's steps in
 * the source's order and is proved to reach exactly that result.
 */
module BuildingController {
  import opened Common
  import opened Geodesy
  import opened Campus

  /** The fields a request body may carry; `None` is an absent field. */
  datatype BuildingBody = BuildingBody(
    name: Option<string>,
    code: Option<string>,
    location: Option<Point>,
    totalFloors: Option<int>,
    category: Option<string>,
    isAccessible: Option<bool>,
    status: Option<string>)

  /** `!name || !code || !location || !totalFloors || !category`: absent, empty, or a zero floor count. */
  predicate MissingRequired(body: BuildingBody) {
    || !Truthy(body.name)
    || !Truthy(body.code)
    || body.location.None?
    || body.totalFloors.None?
    || body.totalFloors.value == 0
    || !Truthy(body.category)
  }

  /** Some building other than `except` already has `code`. */
  predicate CodeTaken(buildings: map<Id, Building>, code: string, except: Option<Id>) {
    exists other :: other in buildings && Some(other) != except && buildings[other].code == code
  }

  /** `new Building(req.body)`: the body's fields, with the schema's defaults for the rest. */
  function NewBuilding(body: BuildingBody): (b: Building)
    requires !MissingRequired(body)
    ensures b.isAccessible == (body.isAccessible != Some(false))
    ensures body.status.None? ==> b.status == "active"
  {
    Building(body.name.value, body.code.value, body.location.value, body.totalFloors.value,
             body.category.value, body.isAccessible.GetOr(true), body.status.GetOr("active"))
  }

  /**
   * `create`: rejects a body missing a required field, then a code some
   * building already has, then a building the schema's validators refuse,
   * then a location the geo index cannot hold; otherwise stores the new
   * building under a fresh id.
   */
  function CreateSpec(t: Tables, body: BuildingBody): (Outcome, Tables)
  {
    if MissingRequired(body) then (Rejected("Missing required fields"), t)
    else if CodeTaken(t.buildings, body.code.value, None) then (Rejected("Building code must be unique"), t)
    else if !BuildingOk(NewBuilding(body)) then (Rejected("Building validation failed"), t)
    else if !GeoIndexable(body.location.value) then (Rejected("Can't extract geo keys"), t)
    else (Created(t.nextId), t.(buildings := t.buildings[t.nextId := NewBuilding(body)], nextId := t.nextId + 1))
  }

  /**
   * `create` rejects a body missing a required field, then a code another
   * building has, then a building the schema refuses, then a point outside
   * the geo index's ranges, changing nothing; a created building gets a
   * fresh id and nothing else changes.
   */
  lemma CreateRules(t: Tables, body: BuildingBody)
    requires ValidTables(t)
    ensures var r := CreateSpec(t, body);
            !r.0.Created? ==> r.0.Rejected? && r.1 == t
    ensures var r := CreateSpec(t, body);
            MissingRequired(body) ==> r.0 == Rejected("Missing required fields")
    ensures var r := CreateSpec(t, body);
            !MissingRequired(body) && CodeTaken(t.buildings, body.code.value, None) ==>
              r.0 == Rejected("Building code must be unique")
    ensures var r := CreateSpec(t, body);
            !MissingRequired(body) && !CodeTaken(t.buildings, body.code.value, None) && BuildingOk(NewBuilding(body))
            && !GeoIndexable(body.location.value) ==>
              r.0 == Rejected("Can't extract geo keys")
    ensures var r := CreateSpec(t, body);
            r.0.Created? <==>
              && !MissingRequired(body) && !CodeTaken(t.buildings, body.code.value, None) && BuildingOk(NewBuilding(body))
              && GeoIndexable(body.location.value)
    ensures var r := CreateSpec(t, body);
            r.0.Created? ==>
              && r.0.id !in t.buildings
              && r.1.buildings == t.buildings[r.0.id := NewBuilding(body)]
              && r.1.floors == t.floors && r.1.rooms == t.rooms
              && r.1.nextId > r.0.id
  {
  }

  /** A created building keeps every invariant; in particular codes stay unique. */
  lemma CreateKeepsValid(t: Tables, body: BuildingBody)
    requires ValidTables(t)
    ensures ValidTables(CreateSpec(t, body).1)
  {
    var r := CreateSpec(t, body);
    if r.0.Created? {
      var b := NewBuilding(body);
      forall x, y | x in r.1.buildings && y in r.1.buildings && x != y
        ensures r.1.buildings[x].code != r.1.buildings[y].code
      {
        if x == t.nextId {
          assert y in t.buildings;
        } else if y == t.nextId {
          assert x in t.buildings;
        }
      }
    }
  }

  method Create(db: Db, body: BuildingBody) returns (outcome: Outcome)
    requires db.Valid()
    modifies db
    ensures db.Valid()
    ensures (outcome, db.State()) == CreateSpec(old(db.State()), body)
  {
    ghost var before := db.State();
    if !Truthy(body.name) || !Truthy(body.code) || body.location.None? || body.totalFloors.None?
       || body.totalFloors.value == 0 || !Truthy(body.category)
    {
      return Rejected("Missing required fields");
    }
    var existing := exists other :: other in db.buildings && db.buildings[other].code == body.code.value;
    if existing {
      return Rejected("Building code must be unique");
    }
    var building := NewBuilding(body);
    if !BuildingOk(building) {
      return Rejected("Building validation failed");
    }
    if !GeoIndexable(building.location) {
      return Rejected("Can't extract geo keys");
    }
    var id := db.nextId;
    db.buildings := db.buildings[id := building];
    db.nextId := db.nextId + 1;
    CreateKeepsValid(before, body);
    outcome := Created(id);
  }

  /** The update validators, which run on the paths the body sets. */
  predicate PassesValidators(body: BuildingBody) {
    && (body.name.Some? ==> body.name.value != "")
    && (body.code.Some? ==> body.code.value != "")
    && (body.totalFloors.Some? ==> body.totalFloors.value >= 1)
    && (body.category.Some? ==> body.category.value in Categories)
    && (body.status.Some? ==> body.status.value in BuildingStatuses)
  }

  /** `$set: req.body`: the supplied fields replace the stored ones. */
  function Overwrite(b: Building, body: BuildingBody): Building {
    Building(body.name.GetOr(b.name), body.code.GetOr(b.code), body.location.GetOr(b.location),
             body.totalFloors.GetOr(b.totalFloors), body.category.GetOr(b.category),
             body.isAccessible.GetOr(b.isAccessible), body.status.GetOr(b.status))
  }

  /** A valid building overwritten by a body that passes the validators is valid. */
  lemma OverwriteKeepsOk(b: Building, body: BuildingBody)
    requires BuildingOk(b) && PassesValidators(body)
    ensures BuildingOk(Overwrite(b, body))
    ensures body.code.None? ==> Overwrite(b, body).code == b.code
  {
  }

  /**
   * `update`: a non-empty code that another building has is rejected first;
   * then the validators; then an unknown id is not found; then a new point
   * the geo index cannot hold is refused by the server; otherwise the
   * supplied fields are overwritten and nothing else changes.
   */
  function UpdateSpec(t: Tables, id: Id, body: BuildingBody): (Outcome, Tables)
  {
    if Truthy(body.code) && CodeTaken(t.buildings, body.code.value, Some(id)) then
      (Rejected("Building code must be unique"), t)
    else if !PassesValidators(body) then (Rejected("Validation failed"), t)
    else if id !in t.buildings then (NotFound("Building not found"), t)
    else if body.location.Some? && !GeoIndexable(body.location.value) then (Rejected("Can't extract geo keys"), t)
    else (Done, t.(buildings := t.buildings[id := Overwrite(t.buildings[id], body)]))
  }

  /**
   * `update` rejects a code another building has before anything else; it
   * is done exactly when the building exists, the validators pass, the code
   * is free and a new point is in the geo index's ranges, and then only the
   * supplied fields of that building change; an unknown building that gets
   * past the code check and the validators is not found.
   */
  lemma UpdateRules(t: Tables, id: Id, body: BuildingBody)
    ensures var r := UpdateSpec(t, id, body);
            !r.0.Done? ==> r.1 == t
    ensures var r := UpdateSpec(t, id, body);
            Truthy(body.code) && CodeTaken(t.buildings, body.code.value, Some(id)) ==>
              r.0 == Rejected("Building code must be unique")
    ensures var r := UpdateSpec(t, id, body);
            r.0.Done? <==>
              && id in t.buildings
              && PassesValidators(body)
              && !(Truthy(body.code) && CodeTaken(t.buildings, body.code.value, Some(id)))
              && (body.location.Some? ==> GeoIndexable(body.location.value))
    ensures var r := UpdateSpec(t, id, body);
            id in t.buildings && body.location.Some? && !GeoIndexable(body.location.value) ==>
              r.0.Rejected?
    ensures var r := UpdateSpec(t, id, body);
            id !in t.buildings && PassesValidators(body) && !(Truthy(body.code) && CodeTaken(t.buildings, body.code.value, Some(id))) ==>
              r.0 == NotFound("Building not found")
    ensures var r := UpdateSpec(t, id, body);
            r.0.Done? ==>
              && r.1.floors == t.floors && r.1.rooms == t.rooms && r.1.nextId == t.nextId
              && r.1.buildings.Keys == t.buildings.Keys
              && (forall other :: other in t.buildings && other != id ==> r.1.buildings[other] == t.buildings[other])
              && var old_, new_ := t.buildings[id], r.1.buildings[id];
                 && new_.name == (if body.name.Some? then body.name.value else old_.name)
                 && new_.code == (if body.code.Some? then body.code.value else old_.code)
                 && new_.totalFloors == (if body.totalFloors.Some? then body.totalFloors.value else old_.totalFloors)
                 && new_.category == (if body.category.Some? then body.category.value else old_.category)
                 && new_.status == (if body.status.Some? then body.status.value else old_.status)
                 && new_.isAccessible == (if body.isAccessible.Some? then body.isAccessible.value else old_.isAccessible)
                 && new_.location == (if body.location.Some? then body.location.value else old_.location)
  {
  }

  /** An update keeps every invariant; in particular codes stay unique. */
  lemma UpdateKeepsValid(t: Tables, id: Id, body: BuildingBody)
    requires ValidTables(t)
    ensures ValidTables(UpdateSpec(t, id, body).1)
  {
    var r := UpdateSpec(t, id, body);
    if r.0.Done? {
      OverwriteKeepsOk(t.buildings[id], body);
      forall x, y | x in r.1.buildings && y in r.1.buildings && x != y
        ensures r.1.buildings[x].code != r.1.buildings[y].code
      {
        if x == id && body.code.Some? {
          assert y in t.buildings && Some(y) != Some(id);
        } else if y == id && body.code.Some? {
          assert x in t.buildings && Some(x) != Some(id);
        }
      }
    }
  }

  method Update(db: Db, id: Id, body: BuildingBody) returns (outcome: Outcome)
    requires db.Valid()
    modifies db
    ensures db.Valid()
    ensures (outcome, db.State()) == UpdateSpec(old(db.State()), id, body)
  {
    ghost var before := db.State();
    if Truthy(body.code) {
      var existing := exists other :: other in db.buildings && other != id && db.buildings[other].code == body.code.value;
      if existing {
        assert CodeTaken(db.buildings, body.code.value, Some(id));
        return Rejected("Building code must be unique");
      }
    }
    if !PassesValidators(body) {
      return Rejected("Validation failed");
    }
    if id !in db.buildings {
      return NotFound("Building not found");
    }
    if body.location.Some? && !GeoIndexable(body.location.value) {
      return Rejected("Can't extract geo keys");
    }
    db.buildings := db.buildings[id := Overwrite(db.buildings[id], body)];
    UpdateKeepsValid(before, id, body);
    outcome := Done;
  }

  /**
   * `delete`: an unknown id is not found and nothing is removed; otherwise,
   * in one transaction, every floor and every room of the building and then
   * the building itself are removed, and nothing else.
   */
  function DeleteSpec(t: Tables, id: Id): (Outcome, Tables)
  {
    if id !in t.buildings then (NotFound("Building not found"), t)
    else
      var floors := map f | f in t.floors && t.floors[f].buildingId != id :: t.floors[f];
      var rooms := map x | x in t.rooms && t.rooms[x].buildingId != id :: t.rooms[x];
      (Done, Tables(t.buildings - {id}, floors, rooms, t.nextId))
  }

  /**
   * `delete` of an unknown building is not found; otherwise the building
   * goes, and with it exactly the floors and rooms that name it.
   */
  lemma DeleteRules(t: Tables, id: Id)
    ensures var r := DeleteSpec(t, id);
            id !in t.buildings ==> r == (NotFound("Building not found"), t)
    ensures var r := DeleteSpec(t, id);
            id in t.buildings ==>
              && r.0 == Done
              && r.1.buildings == t.buildings - {id}
              && (forall f :: f in r.1.floors <==> f in t.floors && t.floors[f].buildingId != id)
              && (forall f :: f in r.1.floors ==> r.1.floors[f] == t.floors[f])
              && (forall x :: x in r.1.rooms <==> x in t.rooms && t.rooms[x].buildingId != id)
              && (forall x :: x in r.1.rooms ==> r.1.rooms[x] == t.rooms[x])
              && r.1.nextId == t.nextId
  {
  }

  /** Removing documents keeps every invariant. */
  lemma DeleteKeepsValid(t: Tables, id: Id)
    requires ValidTables(t)
    ensures ValidTables(DeleteSpec(t, id).1)
  {
  }

  method Delete(db: Db, id: Id) returns (outcome: Outcome)
    requires db.Valid()
    modifies db
    ensures db.Valid()
    ensures (outcome, db.State()) == DeleteSpec(old(db.State()), id)
  {
    ghost var before := db.State();
    if id !in db.buildings {
      return NotFound("Building not found");
    }
    db.floors := map f | f in db.floors && db.floors[f].buildingId != id :: db.floors[f];
    db.rooms := map x | x in db.rooms && db.rooms[x].buildingId != id :: db.rooms[x];
    db.buildings := db.buildings - {id};
    DeleteKeepsValid(before, id);
    outcome := Done;
  }

  /** The filter `getAll` passes to `find`; `None` places no constraint. */
  datatype BuildingFilter = BuildingFilter(category: Option<string>, isAccessible: Option<bool>, status: Option<string>)

  /**
   * The filter built from the query string: `category` and `status` only
   * when non-empty, and `isAccessible`, when given at all, true exactly
   * for the text "true".
   */
  function GetAllFilter(category: Option<string>, isAccessible: Option<string>, status: Option<string>): (f: BuildingFilter)
    ensures f.category.Some? <==> Truthy(category)
    ensures f.category.Some? ==> f.category == category
    ensures f.isAccessible.Some? <==> isAccessible.Some?
    ensures f.isAccessible == Some(true) <==> isAccessible == Some("true")
    ensures f.status.Some? <==> Truthy(status)
    ensures f.status.Some? ==> f.status == status
  {
    BuildingFilter(
      if Truthy(category) then category else None,
      if isAccessible.Some? then Some(isAccessible.value == "true") else None,
      if Truthy(status) then status else None)
  }

  predicate FilterMatches(b: Building, f: BuildingFilter) {
    && (f.category.Some? ==> b.category == f.category.value)
    && (f.isAccessible.Some? ==> b.isAccessible == f.isAccessible.value)
    && (f.status.Some? ==> b.status == f.status.value)
  }

  /** The ids of the buildings `find(filter)` returns (the sort by name is not modelled). */
  function GetAll(buildings: map<Id, Building>, f: BuildingFilter): (ids: set<Id>)
    ensures ids <= buildings.Keys
    ensures forall id :: id in ids <==> id in buildings && FilterMatches(buildings[id], f)
  {
    set id | id in buildings && FilterMatches(buildings[id], f)
  }

  /** With no query parameters every building is listed. */
  lemma GetAllUnfiltered(buildings: map<Id, Building>)
    ensures GetAll(buildings, GetAllFilter(None, None, None)) == buildings.Keys
  {
  }

  /**
   * Any `isAccessible` text other than "true" (such as "yes", "1" or "TRUE")
   * lists exactly the buildings that are not accessible.
   */
  lemma IsAccessibleOtherThanTrue(buildings: map<Id, Building>, text: string)
    requires text != "true"
    ensures forall id :: id in GetAll(buildings, GetAllFilter(None, Some(text), None))
                         <==> id in buildings && !buildings[id].isAccessible
  {
  }
}
