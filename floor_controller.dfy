/**
 * The floor controller: create (raising the building's floor count),
 * update, and delete with its cascade over the floor's rooms.
 *
 * Create and delete run inside a transaction: on any failure the tables
 * are left as they were.
 */
module FloorController {
  import opened Common
  import opened Campus

  /** The fields a request body may carry; `None` is an absent field. */
  datatype FloorBody = FloorBody(
    buildingId: Option<Id>,
    floorNumber: Option<int>,
    isAccessible: Option<bool>,
    restrictedAccess: Option<bool>)

  /** Some floor other than `except` has the pair `(buildingId, floorNumber)`. */
  predicate FloorNumberTaken(floors: map<Id, Floor>, buildingId: Id, floorNumber: int, except: Option<Id>) {
    exists other :: other in floors && Some(other) != except
                    && floors[other].buildingId == buildingId && floors[other].floorNumber == floorNumber
  }

  /** `new Floor(req.body)`: the body's fields, the schema's defaults, no rooms. */
  function NewFloor(buildingId: Id, floorNumber: int, body: FloorBody): Floor {
    Floor(buildingId, floorNumber, body.isAccessible.GetOr(true), body.restrictedAccess.GetOr(false), [])
  }

  /** `floorNumber > building.totalFloors`: the floor count rises to a floor number above it. */
  function RaiseFloors(b: Building, floorNumber: int): (b': Building)
    ensures b'.totalFloors >= b.totalFloors && b'.totalFloors >= floorNumber
    ensures b'.totalFloors == b.totalFloors || b'.totalFloors == floorNumber
    ensures b'.(totalFloors := b.totalFloors) == b
  {
    if floorNumber > b.totalFloors then b.(totalFloors := floorNumber) else b
  }

  /**
   * `create`: an absent or unknown building is rejected with "Building not
   * found", a missing floor number by the schema, and a pair
   * `(buildingId, floorNumber)` already present with "Floor number already
   * exists in this building"; otherwise the floor is stored under a fresh
   * id and the building's `totalFloors` becomes the larger of itself and
   * the floor number.
   */
  function CreateSpec(t: Tables, body: FloorBody): (Outcome, Tables)
  {
    if body.buildingId.None? || body.buildingId.value !in t.buildings then (Rejected("Building not found"), t)
    else if body.floorNumber.None? then (Rejected("Floor validation failed: floorNumber is required"), t)
    else
      var b, n := body.buildingId.value, body.floorNumber.value;
      if FloorNumberTaken(t.floors, b, n, None) then (Rejected("Floor number already exists in this building"), t)
      else
        var id := t.nextId;
        (Created(id), Tables(t.buildings[b := RaiseFloors(t.buildings[b], n)],
                             t.floors[id := NewFloor(b, n, body)], t.rooms, t.nextId + 1))
  }

  /**
   * `create` rejects an unknown building, then a floor number the building
   * already has, changing nothing; a created floor gets a fresh id, and its
   * building's `totalFloors` rises to the new floor number when below it.
   */
  lemma CreateRules(t: Tables, body: FloorBody)
    requires ValidTables(t)
    ensures var r := CreateSpec(t, body);
            !r.0.Created? ==> r.0.Rejected? && r.1 == t
    ensures var r := CreateSpec(t, body);
            body.buildingId.None? || body.buildingId.value !in t.buildings ==> r.0 == Rejected("Building not found")
    ensures var r := CreateSpec(t, body);
            body.buildingId.Some? && body.buildingId.value in t.buildings && body.floorNumber.Some?
            && FloorNumberTaken(t.floors, body.buildingId.value, body.floorNumber.value, None)
            ==> r.0 == Rejected("Floor number already exists in this building")
    ensures var r := CreateSpec(t, body);
            r.0.Created? <==>
              && body.buildingId.Some? && body.buildingId.value in t.buildings
              && body.floorNumber.Some?
              && !FloorNumberTaken(t.floors, body.buildingId.value, body.floorNumber.value, None)
    ensures var r := CreateSpec(t, body);
            r.0.Created? ==>
              var b, n := body.buildingId.value, body.floorNumber.value;
              && r.0.id !in t.floors
              && r.1.floors == t.floors[r.0.id := NewFloor(b, n, body)]
              && r.1.rooms == t.rooms
              && r.1.buildings.Keys == t.buildings.Keys
              && (forall other :: other in t.buildings && other != b ==> r.1.buildings[other] == t.buildings[other])
              && r.1.buildings[b].totalFloors == (if n > t.buildings[b].totalFloors then n else t.buildings[b].totalFloors)
              && r.1.buildings[b].(totalFloors := t.buildings[b].totalFloors) == t.buildings[b]
              && r.1.nextId > r.0.id
  {
  }

  /** A created floor keeps every invariant; in particular the pairs stay unique. */
  lemma CreateKeepsValid(t: Tables, body: FloorBody)
    requires ValidTables(t)
    ensures ValidTables(CreateSpec(t, body).1)
  {
    var r := CreateSpec(t, body);
    if r.0.Created? {
      var b, n := body.buildingId.value, body.floorNumber.value;
      forall x, y | x in r.1.floors && y in r.1.floors && x != y
        ensures r.1.floors[x].buildingId != r.1.floors[y].buildingId || r.1.floors[x].floorNumber != r.1.floors[y].floorNumber
      {
        if x == t.nextId {
          assert y in t.floors;
        } else if y == t.nextId {
          assert x in t.floors;
        }
      }
      forall x, y | x in r.1.buildings && y in r.1.buildings && x != y
        ensures r.1.buildings[x].code != r.1.buildings[y].code
      {
        assert r.1.buildings[x].code == t.buildings[x].code;
        assert r.1.buildings[y].code == t.buildings[y].code;
      }
    }
  }

  method Create(db: Db, body: FloorBody) returns (outcome: Outcome)
    requires db.Valid()
    modifies db
    ensures db.Valid()
    ensures (outcome, db.State()) == CreateSpec(old(db.State()), body)
  {
    ghost var before := db.State();
    if body.buildingId.None? || body.buildingId.value !in db.buildings {
      return Rejected("Building not found");
    }
    var buildingId := body.buildingId.value;
    var building := db.buildings[buildingId];
    if body.floorNumber.None? {
      return Rejected("Floor validation failed: floorNumber is required");
    }
    var floorNumber := body.floorNumber.value;
    var existing := exists other :: other in db.floors
                      && db.floors[other].buildingId == buildingId && db.floors[other].floorNumber == floorNumber;
    if existing {
      return Rejected("Floor number already exists in this building");
    }
    var id := db.nextId;
    db.floors := db.floors[id := NewFloor(buildingId, floorNumber, body)];
    db.nextId := db.nextId + 1;
    if floorNumber > building.totalFloors {
      db.buildings := db.buildings[buildingId := building.(totalFloors := floorNumber)];
    } else {
      assert db.buildings[buildingId := RaiseFloors(building, floorNumber)] == db.buildings;
    }
    CreateKeepsValid(before, body);
    outcome := Created(id);
  }

  /** `$set: req.body`: the supplied fields replace the stored ones; the rooms list is kept. */
  function Overwrite(f: Floor, body: FloorBody): Floor {
    Floor(body.buildingId.GetOr(f.buildingId), body.floorNumber.GetOr(f.floorNumber),
          body.isAccessible.GetOr(f.isAccessible), body.restrictedAccess.GetOr(f.restrictedAccess), f.rooms)
  }

  /**
   * `update`: an unknown id is not found; an update that would give the
   * floor the pair of another floor breaks the unique index and is
   * rejected; otherwise the supplied fields are overwritten. The floor
   * count of the building is not touched, and the building a floor is
   * moved to is not looked up.
   */
  function UpdateSpec(t: Tables, id: Id, body: FloorBody): (Outcome, Tables)
  {
    if id !in t.floors then (NotFound("Floor not found"), t)
    else
      var updated := Overwrite(t.floors[id], body);
      if FloorNumberTaken(t.floors, updated.buildingId, updated.floorNumber, Some(id)) then
        (Rejected("E11000 duplicate key error: buildingId_1_floorNumber_1"), t)
      else (Done, t.(floors := t.floors[id := updated]))
  }

  /**
   * `update` of an unknown floor is not found; it is done exactly when the
   * floor exists and its new `(buildingId, floorNumber)` is free, and then
   * only the supplied fields of that floor change.
   */
  lemma UpdateRules(t: Tables, id: Id, body: FloorBody)
    ensures var r := UpdateSpec(t, id, body);
            !r.0.Done? ==> r.1 == t
    ensures var r := UpdateSpec(t, id, body);
            id !in t.floors ==> r.0 == NotFound("Floor not found")
    ensures var r := UpdateSpec(t, id, body);
            r.0.Done? <==>
              id in t.floors
              && !FloorNumberTaken(t.floors, Overwrite(t.floors[id], body).buildingId,
                                   Overwrite(t.floors[id], body).floorNumber, Some(id))
    ensures var r := UpdateSpec(t, id, body);
            r.0.Done? ==>
              && r.1.buildings == t.buildings && r.1.rooms == t.rooms && r.1.nextId == t.nextId
              && r.1.floors.Keys == t.floors.Keys
              && (forall other :: other in t.floors && other != id ==> r.1.floors[other] == t.floors[other])
              && var old_, new_ := t.floors[id], r.1.floors[id];
                 && new_.buildingId == (if body.buildingId.Some? then body.buildingId.value else old_.buildingId)
                 && new_.floorNumber == (if body.floorNumber.Some? then body.floorNumber.value else old_.floorNumber)
                 && new_.isAccessible == (if body.isAccessible.Some? then body.isAccessible.value else old_.isAccessible)
                 && new_.restrictedAccess == (if body.restrictedAccess.Some? then body.restrictedAccess.value else old_.restrictedAccess)
                 && new_.rooms == old_.rooms
  {
  }

  /** An update keeps every invariant; in particular the pairs stay unique. */
  lemma UpdateKeepsValid(t: Tables, id: Id, body: FloorBody)
    requires ValidTables(t)
    ensures ValidTables(UpdateSpec(t, id, body).1)
  {
    var r := UpdateSpec(t, id, body);
    if r.0.Done? {
      var updated := Overwrite(t.floors[id], body);
      forall x, y | x in r.1.floors && y in r.1.floors && x != y
        ensures r.1.floors[x].buildingId != r.1.floors[y].buildingId || r.1.floors[x].floorNumber != r.1.floors[y].floorNumber
      {
        if x == id {
          assert y in t.floors && Some(y) != Some(id);
        } else if y == id {
          assert x in t.floors && Some(x) != Some(id);
        }
      }
    }
  }

  method Update(db: Db, id: Id, body: FloorBody) returns (outcome: Outcome)
    requires db.Valid()
    modifies db
    ensures db.Valid()
    ensures (outcome, db.State()) == UpdateSpec(old(db.State()), id, body)
  {
    ghost var before := db.State();
    if id !in db.floors {
      return NotFound("Floor not found");
    }
    var updated := Overwrite(db.floors[id], body);
    var clash := exists other :: other in db.floors && other != id
                   && db.floors[other].buildingId == updated.buildingId && db.floors[other].floorNumber == updated.floorNumber;
    if clash {
      assert FloorNumberTaken(db.floors, updated.buildingId, updated.floorNumber, Some(id));
      return Rejected("E11000 duplicate key error: buildingId_1_floorNumber_1");
    }
    db.floors := db.floors[id := updated];
    UpdateKeepsValid(before, id, body);
    outcome := Done;
  }

  /**
   * `delete` as written: the handler refers to `Room`, which the file never
   * imports, so the cascade step throws a ReferenceError once the floor is
   * found and the transaction is aborted. An unknown id is not found; an
   * existing floor is never deleted.
   */
  function DeleteAsWrittenSpec(t: Tables, id: Id): (Outcome, Tables)
  {
    if id !in t.floors then (NotFound("Floor not found"), t)
    else (Rejected("Room is not defined"), t)
  }

  /**
   * As written, `delete` never commits: an unknown floor is not found, and
   * any other request fails on the undefined `Room` with the floor kept.
   */
  lemma DeleteAsWrittenRules(t: Tables, id: Id)
    ensures var r := DeleteAsWrittenSpec(t, id);
            r.1 == t
    ensures var r := DeleteAsWrittenSpec(t, id);
            id !in t.floors ==> r.0 == NotFound("Floor not found")
    ensures var r := DeleteAsWrittenSpec(t, id);
            id in t.floors ==> r.0 == Rejected("Room is not defined") && id in r.1.floors
  {
  }

  method DeleteAsWritten(db: Db, id: Id) returns (outcome: Outcome)
    ensures (outcome, db.State()) == DeleteAsWrittenSpec(old(db.State()), id)
  {
    if id !in db.floors {
      return NotFound("Floor not found");
    }
    outcome := Rejected("Room is not defined");
  }

  /**
   * `delete` as intended: an unknown id is not found and nothing changes;
   * otherwise every room on the floor and then the floor are removed, and
   * nothing else.
   */
  function DeleteSpec(t: Tables, id: Id): (Outcome, Tables)
  {
    if id !in t.floors then (NotFound("Floor not found"), t)
    else
      var rooms := map x | x in t.rooms && t.rooms[x].floorId != id :: t.rooms[x];
      (Done, t.(floors := t.floors - {id}, rooms := rooms))
  }

  /**
   * The intended `delete`: an unknown floor is not found; otherwise the
   * floor goes, and with it exactly the rooms on it.
   */
  lemma DeleteRules(t: Tables, id: Id)
    ensures var r := DeleteSpec(t, id);
            id !in t.floors ==> r == (NotFound("Floor not found"), t)
    ensures var r := DeleteSpec(t, id);
            id in t.floors ==>
              && r.0 == Done
              && r.1.floors == t.floors - {id}
              && (forall x :: x in r.1.rooms <==> x in t.rooms && t.rooms[x].floorId != id)
              && (forall x :: x in r.1.rooms ==> r.1.rooms[x] == t.rooms[x])
              && r.1.buildings == t.buildings && r.1.nextId == t.nextId
  {
  }

  /** For every existing floor the handler as written and the intended one disagree. */
  lemma DeleteAsWrittenKeepsFloor(t: Tables, id: Id)
    requires id in t.floors
    ensures id in DeleteAsWrittenSpec(t, id).1.floors
    ensures id !in DeleteSpec(t, id).1.floors
    ensures DeleteAsWrittenSpec(t, id).0 != DeleteSpec(t, id).0
  {
  }

  /** Removing documents keeps every invariant. */
  lemma DeleteKeepsValid(t: Tables, id: Id)
    requires ValidTables(t)
    ensures ValidTables(DeleteSpec(t, id).1)
  {
  }

  method Delete(db: Db, id: Id) returns (outcome: Outcome)
    requires db.Valid()
    modifies db
    ensures db.Valid()
    ensures (outcome, db.State()) == DeleteSpec(old(db.State()), id)
  {
    ghost var before := db.State();
    if id !in db.floors {
      return NotFound("Floor not found");
    }
    db.rooms := map x | x in db.rooms && db.rooms[x].floorId != id :: db.rooms[x];
    db.floors := db.floors - {id};
    DeleteKeepsValid(before, id);
    outcome := Done;
  }
}
