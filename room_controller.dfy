/**
 * The room controller: create (registering the room on its floor),
 * update, delete, the status and facility updates, and the filters of
 * `search` and `getAllInFloor`.
 */
module RoomController {
  import opened Common
  import opened JsNumbers
  import opened Campus

  /** The fields a request body may carry; `None` is an absent field. */
  datatype RoomBody = RoomBody(
    buildingId: Option<Id>,
    floorId: Option<Id>,
    roomNumber: Option<string>,
    roomType: Option<string>,
    capacity: Option<int>,
    facilities: Option<seq<Facility>>,
    isAccessible: Option<bool>,
    status: Option<string>,
    departmentAssigned: Option<string>)

  /** Some room other than `except` on floor `floorId` has the number `roomNumber`. */
  predicate RoomNumberTaken(rooms: map<Id, Room>, floorId: Id, roomNumber: string, except: Option<Id>) {
    exists other :: other in rooms && Some(other) != except
                    && rooms[other].floorId == floorId && rooms[other].roomNumber == roomNumber
  }

  /** The floor exists and belongs to the building: `Floor.findOne({ _id: floorId, buildingId })`. */
  predicate FloorOfBuilding(t: Tables, buildingId: Id, floorId: Id) {
    floorId in t.floors && t.floors[floorId].buildingId == buildingId
  }

  /** What `room.save()` validates: a room number, a known type, a capacity, the enums. */
  predicate CanSave(body: RoomBody) {
    && body.roomNumber.Some? && body.roomNumber.value != ""
    && body.roomType.Some? && body.roomType.value in RoomTypes
    && body.capacity.Some?
    && FacilitiesOk(body.facilities.GetOr([]))
    && body.status.GetOr("available") in RoomStatuses
  }

  /** `new Room(req.body)`: the body's fields with the schema's defaults. */
  function NewRoom(buildingId: Id, floorId: Id, body: RoomBody): (r: Room)
    requires CanSave(body)
    ensures RoomOk(r)
  {
    Room(buildingId, floorId, body.roomNumber.value, body.roomType.value, body.capacity.value,
         body.facilities.GetOr([]), body.isAccessible.GetOr(true), body.status.GetOr("available"),
         body.departmentAssigned)
  }

  /**
   * `create`, in one transaction: an absent or unknown building, then a
   * floor that is absent or belongs to another building, then a room
   * number already used on that floor, then a room the schema refuses, is
   * rejected with nothing changed; otherwise the room is stored under a
   * fresh id and that id is appended to its floor's `rooms` list.
   */
  function CreateSpec(t: Tables, body: RoomBody): (Outcome, Tables)
  {
    if body.buildingId.None? || body.buildingId.value !in t.buildings then (Rejected("Building not found"), t)
    else if body.floorId.None? || !FloorOfBuilding(t, body.buildingId.value, body.floorId.value) then
      (Rejected("Floor not found or does not belong to this building"), t)
    else if body.roomNumber.Some? && RoomNumberTaken(t.rooms, body.floorId.value, body.roomNumber.value, None) then
      (Rejected("Room number already exists on this floor"), t)
    else if !CanSave(body) then (Rejected("Room validation failed"), t)
    else
      var id, b, f := t.nextId, body.buildingId.value, body.floorId.value;
      var floor := t.floors[f];
      (Created(id), Tables(t.buildings, t.floors[f := floor.(rooms := floor.rooms + [id])],
                           t.rooms[id := NewRoom(b, f, body)], t.nextId + 1))
  }

  /**
   * The rejections of `create`, in the order the handler checks them; a
   * rejected request changes nothing.
   */
  lemma CreateRejections(t: Tables, body: RoomBody)
    ensures var r := CreateSpec(t, body);
            !r.0.Created? ==> r.0.Rejected? && r.1 == t
    ensures var r := CreateSpec(t, body);
            body.buildingId.None? || body.buildingId.value !in t.buildings ==> r.0 == Rejected("Building not found")
    ensures var r := CreateSpec(t, body);
            body.buildingId.Some? && body.buildingId.value in t.buildings
            && (body.floorId.None? || !FloorOfBuilding(t, body.buildingId.value, body.floorId.value))
            ==> r.0 == Rejected("Floor not found or does not belong to this building")
    ensures var r := CreateSpec(t, body);
            body.buildingId.Some? && body.buildingId.value in t.buildings
            && body.floorId.Some? && FloorOfBuilding(t, body.buildingId.value, body.floorId.value)
            && body.roomNumber.Some? && RoomNumberTaken(t.rooms, body.floorId.value, body.roomNumber.value, None)
            ==> r.0 == Rejected("Room number already exists on this floor")
  {
  }

  /**
   * A room is created exactly when its building and floor exist and match,
   * the schema accepts it and its number is free on the floor; it gets a
   * fresh id, is stored, and its id is appended to its floor's `rooms`.
   */
  lemma CreateRules(t: Tables, body: RoomBody)
    requires ValidTables(t)
    ensures var r := CreateSpec(t, body);
            r.0.Created? <==>
              && body.buildingId.Some? && body.buildingId.value in t.buildings
              && body.floorId.Some? && FloorOfBuilding(t, body.buildingId.value, body.floorId.value)
              && CanSave(body)
              && !RoomNumberTaken(t.rooms, body.floorId.value, body.roomNumber.value, None)
    ensures var r := CreateSpec(t, body);
            r.0.Created? ==>
              var id, f := r.0.id, body.floorId.value;
              && id !in t.rooms
              && r.1.rooms == t.rooms[id := NewRoom(body.buildingId.value, f, body)]
              && r.1.buildings == t.buildings
              && r.1.floors.Keys == t.floors.Keys
              && r.1.floors[f].rooms == t.floors[f].rooms + [id]
              && r.1.floors[f].(rooms := t.floors[f].rooms) == t.floors[f]
              && (forall other :: other in t.floors && other != f ==> r.1.floors[other] == t.floors[other])
              && r.1.nextId > id
  {
  }

  /** A created room keeps every invariant; in particular room numbers stay unique. */
  lemma CreateKeepsValid(t: Tables, body: RoomBody)
    requires ValidTables(t)
    ensures ValidTables(CreateSpec(t, body).1)
  {
    var r := CreateSpec(t, body);
    if r.0.Created? {
      var f := body.floorId.value;
      forall x, y | x in r.1.rooms && y in r.1.rooms && x != y
        ensures || r.1.rooms[x].buildingId != r.1.rooms[y].buildingId
                || r.1.rooms[x].floorId != r.1.rooms[y].floorId
                || r.1.rooms[x].roomNumber != r.1.rooms[y].roomNumber
      {
        if x == t.nextId {
          assert y in t.rooms;
        } else if y == t.nextId {
          assert x in t.rooms;
        }
      }
      forall x, y | x in r.1.floors && y in r.1.floors && x != y
        ensures r.1.floors[x].buildingId != r.1.floors[y].buildingId || r.1.floors[x].floorNumber != r.1.floors[y].floorNumber
      {
        assert r.1.floors[x].buildingId == t.floors[x].buildingId && r.1.floors[x].floorNumber == t.floors[x].floorNumber;
        assert r.1.floors[y].buildingId == t.floors[y].buildingId && r.1.floors[y].floorNumber == t.floors[y].floorNumber;
      }
    }
  }

  method Create(db: Db, body: RoomBody) returns (outcome: Outcome)
    requires db.Valid()
    modifies db
    ensures db.Valid()
    ensures (outcome, db.State()) == CreateSpec(old(db.State()), body)
  {
    ghost var before := db.State();
    if body.buildingId.None? || body.buildingId.value !in db.buildings {
      return Rejected("Building not found");
    }
    var buildingId := body.buildingId.value;
    if body.floorId.None? || !FloorOfBuilding(db.State(), buildingId, body.floorId.value) {
      return Rejected("Floor not found or does not belong to this building");
    }
    var floorId := body.floorId.value;
    if body.roomNumber.Some? && RoomNumberTaken(db.rooms, floorId, body.roomNumber.value, None) {
      return Rejected("Room number already exists on this floor");
    }
    if !CanSave(body) {
      return Rejected("Room validation failed");
    }
    var id := db.nextId;
    db.rooms := db.rooms[id := NewRoom(buildingId, floorId, body)];
    db.nextId := db.nextId + 1;
    var floor := db.floors[floorId];
    db.floors := db.floors[floorId := floor.(rooms := floor.rooms + [id])];
    CreateKeepsValid(before, body);
    outcome := Created(id);
  }

  /**
   * The floor `update` checks a new room number against:
   * `req.body.floorId || (await Room.findById(id)).floorId`. `None` is the
   * TypeError of reading `floorId` from the `null` an unknown id gives.
   */
  function TargetFloor(t: Tables, id: Id, body: RoomBody): (f: Option<Id>)
    ensures body.floorId.Some? ==> f == body.floorId
    ensures body.floorId.None? && id in t.rooms ==> f == Some(t.rooms[id].floorId)
    ensures f.None? <==> body.floorId.None? && id !in t.rooms
  {
    if body.floorId.Some? then body.floorId
    else if id in t.rooms then Some(t.rooms[id].floorId)
    else None
  }

  /** The update validators, which run on the paths the body sets. */
  predicate PassesValidators(body: RoomBody) {
    && (body.roomNumber.Some? ==> body.roomNumber.value != "")
    && (body.roomType.Some? ==> body.roomType.value in RoomTypes)
    && (body.status.Some? ==> body.status.value in RoomStatuses)
    && (body.facilities.Some? ==> FacilitiesOk(body.facilities.value))
  }

  /** `$set: req.body`: the supplied fields replace the stored ones. */
  function Overwrite(r: Room, body: RoomBody): Room {
    Room(body.buildingId.GetOr(r.buildingId), body.floorId.GetOr(r.floorId), body.roomNumber.GetOr(r.roomNumber),
         body.roomType.GetOr(r.roomType), body.capacity.GetOr(r.capacity), body.facilities.GetOr(r.facilities),
         body.isAccessible.GetOr(r.isAccessible), body.status.GetOr(r.status),
         if body.departmentAssigned.Some? then body.departmentAssigned else r.departmentAssigned)
  }

  /** Some room other than `id` has the key `(buildingId, floorId, roomNumber)` of `r`. */
  predicate KeyTaken(rooms: map<Id, Room>, r: Room, id: Id) {
    exists other :: other in rooms && other != id
                    && rooms[other].buildingId == r.buildingId && rooms[other].floorId == r.floorId
                    && rooms[other].roomNumber == r.roomNumber
  }

  /**
   * `update`: a non-empty room number is checked first against the other
   * rooms of the target floor (reading the target from an unknown id
   * throws, so that request is rejected rather than not found); then the
   * validators run; then an unknown id is not found; then the unique index
   * refuses an update that collides with another room; otherwise the
   * supplied fields are overwritten.
   */
  function UpdateSpec(t: Tables, id: Id, body: RoomBody): (Outcome, Tables)
  {
    if Truthy(body.roomNumber) && TargetFloor(t, id, body).None? then
      (Rejected("Cannot read properties of null (reading 'floorId')"), t)
    else if Truthy(body.roomNumber) && RoomNumberTaken(t.rooms, TargetFloor(t, id, body).value, body.roomNumber.value, Some(id)) then
      (Rejected("Room number already exists on this floor"), t)
    else if !PassesValidators(body) then (Rejected("Validation failed"), t)
    else if id !in t.rooms then (NotFound("Room not found"), t)
    else
      var updated := Overwrite(t.rooms[id], body);
      if KeyTaken(t.rooms, updated, id) then
        (Rejected("E11000 duplicate key error: buildingId_1_floorId_1_roomNumber_1"), t)
      else (Done, t.(rooms := t.rooms[id := updated]))
  }

  /**
   * The rejections of `update`, in the order the handler meets them; a
   * request that is not done changes nothing.
   */
  lemma UpdateRejections(t: Tables, id: Id, body: RoomBody)
    ensures var r := UpdateSpec(t, id, body);
            !r.0.Done? ==> r.1 == t
    ensures var r := UpdateSpec(t, id, body);
            Truthy(body.roomNumber) && body.floorId.None? && id !in t.rooms ==>
              r.0 == Rejected("Cannot read properties of null (reading 'floorId')")
    ensures var r := UpdateSpec(t, id, body);
            Truthy(body.roomNumber) && TargetFloor(t, id, body).Some?
            && RoomNumberTaken(t.rooms, TargetFloor(t, id, body).value, body.roomNumber.value, Some(id)) ==>
              r.0 == Rejected("Room number already exists on this floor")
    ensures var r := UpdateSpec(t, id, body);
            (Truthy(body.roomNumber) ==> body.floorId.Some? && !RoomNumberTaken(t.rooms, body.floorId.value, body.roomNumber.value, Some(id)))
            && PassesValidators(body) && id !in t.rooms
            ==> r.0 == NotFound("Room not found")
  {
  }

  /**
   * An update is done exactly when the room exists, the body passes the
   * validators, a given room number is free on the target floor and the new
   * key is free. A done update leaves the other tables and rooms alone,
   * keeps the new key unique and replaces exactly the fields the body
   * supplies.
   */
  lemma UpdateRules(t: Tables, id: Id, body: RoomBody)
    ensures var r := UpdateSpec(t, id, body);
            r.0.Done? <==>
              && id in t.rooms && PassesValidators(body)
              && (Truthy(body.roomNumber) ==> !RoomNumberTaken(t.rooms, TargetFloor(t, id, body).value, body.roomNumber.value, Some(id)))
              && !KeyTaken(t.rooms, Overwrite(t.rooms[id], body), id)
    ensures var r := UpdateSpec(t, id, body);
            r.0.Done? ==>
              && id in t.rooms && PassesValidators(body)
              && r.1.buildings == t.buildings && r.1.floors == t.floors && r.1.nextId == t.nextId
              && r.1.rooms.Keys == t.rooms.Keys
              && !KeyTaken(t.rooms, r.1.rooms[id], id)
              && (forall other :: other in t.rooms && other != id ==> r.1.rooms[other] == t.rooms[other])
              && var old_, new_ := t.rooms[id], r.1.rooms[id];
                 && new_.buildingId == (if body.buildingId.Some? then body.buildingId.value else old_.buildingId)
                 && new_.floorId == (if body.floorId.Some? then body.floorId.value else old_.floorId)
                 && new_.roomNumber == (if body.roomNumber.Some? then body.roomNumber.value else old_.roomNumber)
                 && new_.roomType == (if body.roomType.Some? then body.roomType.value else old_.roomType)
                 && new_.capacity == (if body.capacity.Some? then body.capacity.value else old_.capacity)
                 && new_.facilities == (if body.facilities.Some? then body.facilities.value else old_.facilities)
                 && new_.isAccessible == (if body.isAccessible.Some? then body.isAccessible.value else old_.isAccessible)
                 && new_.status == (if body.status.Some? then body.status.value else old_.status)
                 && new_.departmentAssigned == (if body.departmentAssigned.Some? then body.departmentAssigned else old_.departmentAssigned)
  {
  }

  /** A valid room overwritten by a body that passes the validators is valid. */
  lemma OverwriteKeepsOk(r: Room, body: RoomBody)
    requires RoomOk(r) && PassesValidators(body)
    ensures RoomOk(Overwrite(r, body))
  {
  }

  /** Replacing one room by a room whose key no other room has keeps the room keys unique. */
  lemma ReplaceKeepsUnique(rooms: map<Id, Room>, id: Id, updated: Room)
    requires UniqueRoomNumbers(rooms)
    requires !KeyTaken(rooms, updated, id)
    ensures UniqueRoomNumbers(rooms[id := updated])
  {
    var rooms' := rooms[id := updated];
    forall x, y | x in rooms' && y in rooms' && x != y
      ensures || rooms'[x].buildingId != rooms'[y].buildingId
              || rooms'[x].floorId != rooms'[y].floorId
              || rooms'[x].roomNumber != rooms'[y].roomNumber
    {
      if x == id {
        assert y in rooms && y != id;
      } else if y == id {
        assert x in rooms && x != id;
      }
    }
  }

  /** An update keeps every invariant; in particular room numbers stay unique. */
  lemma UpdateKeepsValid(t: Tables, id: Id, body: RoomBody)
    requires ValidTables(t)
    ensures ValidTables(UpdateSpec(t, id, body).1)
  {
    var r := UpdateSpec(t, id, body);
    if r.0.Done? {
      var updated := Overwrite(t.rooms[id], body);
      assert r.1 == t.(rooms := t.rooms[id := updated]);
      OverwriteKeepsOk(t.rooms[id], body);
      ReplaceKeepsUnique(t.rooms, id, updated);
    }
  }

  method Update(db: Db, id: Id, body: RoomBody) returns (outcome: Outcome)
    requires db.Valid()
    modifies db
    ensures db.Valid()
    ensures (outcome, db.State()) == UpdateSpec(old(db.State()), id, body)
  {
    ghost var before := db.State();
    if Truthy(body.roomNumber) {
      var floorId: Id;
      if body.floorId.Some? {
        floorId := body.floorId.value;
      } else if id in db.rooms {
        floorId := db.rooms[id].floorId;
      } else {
        return Rejected("Cannot read properties of null (reading 'floorId')");
      }
      assert TargetFloor(before, id, body) == Some(floorId);
      if RoomNumberTaken(db.rooms, floorId, body.roomNumber.value, Some(id)) {
        return Rejected("Room number already exists on this floor");
      }
    }
    if !PassesValidators(body) {
      return Rejected("Validation failed");
    }
    if id !in db.rooms {
      return NotFound("Room not found");
    }
    var updated := Overwrite(db.rooms[id], body);
    if KeyTaken(db.rooms, updated, id) {
      return Rejected("E11000 duplicate key error: buildingId_1_floorId_1_roomNumber_1");
    }
    db.rooms := db.rooms[id := updated];
    UpdateKeepsValid(before, id, body);
    outcome := Done;
  }

  /**
   * `delete`: an unknown id is not found; otherwise the room is removed and
   * nothing else changes (its id stays in its floor's `rooms` list).
   */
  function DeleteSpec(t: Tables, id: Id): (Outcome, Tables)
  {
    if id !in t.rooms then (NotFound("Room not found"), t)
    else (Done, t.(rooms := t.rooms - {id}))
  }

  /**
   * `delete` of an unknown room is not found; otherwise exactly that room
   * goes and the other tables are untouched.
   */
  lemma DeleteRules(t: Tables, id: Id)
    ensures var r := DeleteSpec(t, id);
            id !in t.rooms ==> r == (NotFound("Room not found"), t)
    ensures var r := DeleteSpec(t, id);
            id in t.rooms ==>
              && r.0 == Done
              && r.1.rooms == t.rooms - {id}
              && r.1.buildings == t.buildings && r.1.floors == t.floors && r.1.nextId == t.nextId
  {
  }

  /** Removing a room keeps every invariant. */
  lemma DeleteKeepsValid(t: Tables, id: Id)
    requires ValidTables(t)
    ensures ValidTables(DeleteSpec(t, id).1)
  {
  }

  method Delete(db: Db, id: Id) returns (outcome: Outcome)
    requires db.Valid()
    modifies db
    ensures db.Valid()
    ensures (outcome, db.State()) == DeleteSpec(old(db.State()), id)
  {
    ghost var before := db.State();
    if id !in db.rooms {
      return NotFound("Room not found");
    }
    db.rooms := db.rooms - {id};
    DeleteKeepsValid(before, id);
    outcome := Done;
  }

  /**
   * `updateStatus`: a status outside available, occupied, maintenance and
   * reserved (or none at all) is rejected; an unknown id is not found;
   * otherwise only the room's status changes.
   */
  function UpdateStatusSpec(t: Tables, id: Id, status: Option<string>): (Outcome, Tables)
  {
    if status.None? || status.value !in RoomStatuses then (Rejected("Invalid status value"), t)
    else if id !in t.rooms then (NotFound("Room not found"), t)
    else (Done, t.(rooms := t.rooms[id := t.rooms[id].(status := status.value)]))
  }

  /**
   * `updateStatus` is done exactly when the status is one of the four and
   * the room exists; then only that room's status changes.
   */
  lemma UpdateStatusRules(t: Tables, id: Id, status: Option<string>)
    ensures var r := UpdateStatusSpec(t, id, status);
            !r.0.Done? ==> r.1 == t
    ensures var r := UpdateStatusSpec(t, id, status);
            status.None? || status.value !in RoomStatuses ==> r.0 == Rejected("Invalid status value")
    ensures var r := UpdateStatusSpec(t, id, status);
            r.0.Done? <==> status.Some? && status.value in RoomStatuses && id in t.rooms
    ensures var r := UpdateStatusSpec(t, id, status);
            r.0.Done? ==>
              && r.1.rooms == t.rooms[id := t.rooms[id].(status := status.value)]
              && r.1.buildings == t.buildings && r.1.floors == t.floors && r.1.nextId == t.nextId
  {
  }

  /** A status update keeps every invariant. */
  lemma UpdateStatusKeepsValid(t: Tables, id: Id, status: Option<string>)
    requires ValidTables(t)
    ensures ValidTables(UpdateStatusSpec(t, id, status).1)
  {
    var r := UpdateStatusSpec(t, id, status);
    if r.0.Done? {
      forall x, y | x in r.1.rooms && y in r.1.rooms && x != y
        ensures || r.1.rooms[x].buildingId != r.1.rooms[y].buildingId
                || r.1.rooms[x].floorId != r.1.rooms[y].floorId
                || r.1.rooms[x].roomNumber != r.1.rooms[y].roomNumber
      {
        assert r.1.rooms[x].roomNumber == t.rooms[x].roomNumber && r.1.rooms[x].floorId == t.rooms[x].floorId;
        assert r.1.rooms[y].roomNumber == t.rooms[y].roomNumber && r.1.rooms[y].floorId == t.rooms[y].floorId;
      }
    }
  }

  method UpdateStatus(db: Db, id: Id, status: Option<string>) returns (outcome: Outcome)
    requires db.Valid()
    modifies db
    ensures db.Valid()
    ensures (outcome, db.State()) == UpdateStatusSpec(old(db.State()), id, status)
  {
    ghost var before := db.State();
    if status.None? || status.value !in RoomStatuses {
      return Rejected("Invalid status value");
    }
    if id !in db.rooms {
      return NotFound("Room not found");
    }
    db.rooms := db.rooms[id := db.rooms[id].(status := status.value)];
    UpdateStatusKeepsValid(before, id, status);
    outcome := Done;
  }

  /**
   * `updateFacilities`: a value that is not an array (`None`) is rejected,
   * then a facility type outside the enum; an unknown id is not found;
   * otherwise the room's facility list is replaced and nothing else changes.
   */
  function UpdateFacilitiesSpec(t: Tables, id: Id, facilities: Option<seq<Facility>>): (Outcome, Tables)
  {
    if facilities.None? then (Rejected("Facilities must be an array"), t)
    else if !FacilitiesOk(facilities.value) then (Rejected("Validation failed"), t)
    else if id !in t.rooms then (NotFound("Room not found"), t)
    else (Done, t.(rooms := t.rooms[id := t.rooms[id].(facilities := facilities.value)]))
  }

  /**
   * `updateFacilities` is done exactly when an array of well-typed
   * facilities is given for an existing room; then only that room's
   * facility list changes.
   */
  lemma UpdateFacilitiesRules(t: Tables, id: Id, facilities: Option<seq<Facility>>)
    ensures var r := UpdateFacilitiesSpec(t, id, facilities);
            !r.0.Done? ==> r.1 == t
    ensures var r := UpdateFacilitiesSpec(t, id, facilities);
            facilities.None? ==> r.0 == Rejected("Facilities must be an array")
    ensures var r := UpdateFacilitiesSpec(t, id, facilities);
            r.0.Done? <==> facilities.Some? && FacilitiesOk(facilities.value) && id in t.rooms
    ensures var r := UpdateFacilitiesSpec(t, id, facilities);
            r.0.Done? ==>
              && r.1.rooms == t.rooms[id := t.rooms[id].(facilities := facilities.value)]
              && r.1.buildings == t.buildings && r.1.floors == t.floors && r.1.nextId == t.nextId
  {
  }

  /** A facility update keeps every invariant. */
  lemma UpdateFacilitiesKeepsValid(t: Tables, id: Id, facilities: Option<seq<Facility>>)
    requires ValidTables(t)
    ensures ValidTables(UpdateFacilitiesSpec(t, id, facilities).1)
  {
    var r := UpdateFacilitiesSpec(t, id, facilities);
    if r.0.Done? {
      forall x, y | x in r.1.rooms && y in r.1.rooms && x != y
        ensures || r.1.rooms[x].buildingId != r.1.rooms[y].buildingId
                || r.1.rooms[x].floorId != r.1.rooms[y].floorId
                || r.1.rooms[x].roomNumber != r.1.rooms[y].roomNumber
      {
        assert r.1.rooms[x].roomNumber == t.rooms[x].roomNumber && r.1.rooms[x].floorId == t.rooms[x].floorId;
        assert r.1.rooms[y].roomNumber == t.rooms[y].roomNumber && r.1.rooms[y].floorId == t.rooms[y].floorId;
      }
    }
  }

  method UpdateFacilities(db: Db, id: Id, facilities: Option<seq<Facility>>) returns (outcome: Outcome)
    requires db.Valid()
    modifies db
    ensures db.Valid()
    ensures (outcome, db.State()) == UpdateFacilitiesSpec(old(db.State()), id, facilities)
  {
    ghost var before := db.State();
    if facilities.None? {
      return Rejected("Facilities must be an array");
    }
    if !FacilitiesOk(facilities.value) {
      return Rejected("Validation failed");
    }
    if id !in db.rooms {
      return NotFound("Room not found");
    }
    db.rooms := db.rooms[id := db.rooms[id].(facilities := facilities.value)];
    UpdateFacilitiesKeepsValid(before, id, facilities);
    outcome := Done;
  }

  /**
   * The filter `search` and `getAllInFloor` pass to `find`; `None` places no
   * constraint. Capacity bounds hold what `parseInt` made of the query text.
   */
  datatype RoomFilter = RoomFilter(
    buildingId: Option<Id>,
    floorId: Option<Id>,
    roomType: Option<string>,
    isAccessible: Option<bool>,
    status: Option<string>,
    minCapacity: Option<ParsedInt>,
    maxCapacity: Option<ParsedInt>)

  /** `Some(s)` when the query text is non-empty, `None` otherwise. */
  function NonEmpty(p: Option<string>): (q: Option<string>)
    ensures q.Some? <==> Truthy(p)
    ensures q.Some? ==> q == p
  {
    if Truthy(p) then p else None
  }

  /**
   * The filter `search` builds: each non-empty parameter adds its
   * constraint, `isAccessible`, when given at all, is true exactly for the
   * text "true", and a non-empty capacity bound is read with `parseInt`.
   */
  function SearchFilter(buildingId: Option<Id>, floorId: Option<Id>, roomType: Option<string>,
                        minCapacity: Option<string>, maxCapacity: Option<string>,
                        isAccessible: Option<string>, status: Option<string>): (f: RoomFilter)
    ensures f.buildingId == buildingId && f.floorId == floorId
    ensures f.roomType.Some? <==> Truthy(roomType)
    ensures f.status.Some? <==> Truthy(status)
    ensures f.roomType.Some? ==> f.roomType == roomType
    ensures f.status.Some? ==> f.status == status
    ensures f.isAccessible.Some? <==> isAccessible.Some?
    ensures f.isAccessible == Some(true) <==> isAccessible == Some("true")
    ensures f.minCapacity.Some? <==> Truthy(minCapacity)
    ensures f.maxCapacity.Some? <==> Truthy(maxCapacity)
    ensures f.minCapacity.Some? ==> f.minCapacity.value == ParseInt(minCapacity.value)
    ensures f.maxCapacity.Some? ==> f.maxCapacity.value == ParseInt(maxCapacity.value)
  {
    RoomFilter(
      buildingId,
      floorId,
      NonEmpty(roomType),
      if isAccessible.Some? then Some(isAccessible.value == "true") else None,
      NonEmpty(status),
      if Truthy(minCapacity) then Some(ParseInt(minCapacity.value)) else None,
      if Truthy(maxCapacity) then Some(ParseInt(maxCapacity.value)) else None)
  }

  /**
   * The filter `getAllInFloor` builds: the floor from the path, then the
   * `type`, `status` and `isAccessible` query parameters as in `search`.
   */
  function FloorRoomsFilter(floorId: Id, roomType: Option<string>, status: Option<string>, isAccessible: Option<string>): (f: RoomFilter)
    ensures f.floorId == Some(floorId) && f.buildingId.None?
    ensures f.minCapacity.None? && f.maxCapacity.None?
    ensures f == SearchFilter(None, Some(floorId), roomType, None, None, isAccessible, status)
  {
    RoomFilter(
      None,
      Some(floorId),
      NonEmpty(roomType),
      if isAccessible.Some? then Some(isAccessible.value == "true") else None,
      NonEmpty(status),
      None,
      None)
  }

  /** A room satisfies every constraint the filter places; a capacity bound is an integer here. */
  predicate RoomMatches(r: Room, f: RoomFilter)
    requires f.minCapacity != Some(NaN) && f.maxCapacity != Some(NaN)
  {
    && (f.buildingId.Some? ==> r.buildingId == f.buildingId.value)
    && (f.floorId.Some? ==> r.floorId == f.floorId.value)
    && (f.roomType.Some? ==> r.roomType == f.roomType.value)
    && (f.isAccessible.Some? ==> r.isAccessible == f.isAccessible.value)
    && (f.status.Some? ==> r.status == f.status.value)
    && (f.minCapacity.Some? ==> r.capacity >= f.minCapacity.value.n)
    && (f.maxCapacity.Some? ==> r.capacity <= f.maxCapacity.value.n)
  }

  /**
   * `Room.find(filter)`: the ids of the matching rooms (the sort by number
   * is not modelled). A capacity bound of NaN fails Mongoose's cast to
   * Number, so the query errs (a 500 response).
   */
  function Find(rooms: map<Id, Room>, f: RoomFilter): (res: Result<set<Id>>)
    ensures res.Err? <==> f.minCapacity == Some(NaN) || f.maxCapacity == Some(NaN)
    ensures res.Ok? ==> forall id :: id in res.value <==> id in rooms && RoomMatches(rooms[id], f)
  {
    if f.minCapacity == Some(NaN) || f.maxCapacity == Some(NaN) then Err("Cast to Number failed for value \"NaN\"")
    else Ok(set id | id in rooms && RoomMatches(rooms[id], f))
  }

  /** With no query parameters `search` lists every room. */
  lemma SearchUnfiltered(rooms: map<Id, Room>)
    ensures Find(rooms, SearchFilter(None, None, None, None, None, None, None)) == Ok(rooms.Keys)
  {
    var f := SearchFilter(None, None, None, None, None, None, None);
    assert f == RoomFilter(None, None, None, None, None, None, None);
    assert forall id :: id in rooms ==> RoomMatches(rooms[id], f);
    assert Find(rooms, f).value == rooms.Keys;
  }

  /**
   * Capacity bounds written as integers are read back exactly: `search`
   * with `minCapacity=String(lo)` and `maxCapacity=String(hi)` lists the
   * rooms whose capacity lies between `lo` and `hi`.
   */
  lemma SearchCapacityRange(rooms: map<Id, Room>, lo: int, hi: int)
    ensures var f := SearchFilter(None, None, None, Some(IntToString(lo)), Some(IntToString(hi)), None, None);
            && Find(rooms, f).Ok?
            && forall id :: id in Find(rooms, f).value <==> id in rooms && lo <= rooms[id].capacity <= hi
  {
    ParseIntRoundTrip(lo);
    ParseIntRoundTrip(hi);
    var f := SearchFilter(None, None, None, Some(IntToString(lo)), Some(IntToString(hi)), None, None);
    assert f == RoomFilter(None, None, None, None, None, Some(Int(lo)), Some(Int(hi)));
  }

  /**
   * A capacity bound that is not a number (`minCapacity=abc`, or only white
   * space) makes `search` fail, whichever bound it is and whatever the other one is.
   */
  lemma SearchRejectsNonNumericCapacity(rooms: map<Id, Room>, text: string, other: Option<string>)
    requires text != "" && NotNumeric(text)
    ensures Find(rooms, SearchFilter(None, None, None, Some(text), other, None, None)).Err?
    ensures Find(rooms, SearchFilter(None, None, None, other, Some(text), None, None)).Err?
  {
    ParseNotNumeric(text);
  }

  /** `getAllInFloor` lists only rooms on the requested floor, and all of them when no other parameter is given. */
  lemma FloorRoomsOnFloor(rooms: map<Id, Room>, floorId: Id, roomType: Option<string>, status: Option<string>, isAccessible: Option<string>)
    ensures var res := Find(rooms, FloorRoomsFilter(floorId, roomType, status, isAccessible));
            && res.Ok?
            && (forall id :: id in res.value ==> id in rooms && rooms[id].floorId == floorId)
            && (roomType.None? && status.None? && isAccessible.None? ==>
                  forall id :: id in rooms && rooms[id].floorId == floorId ==> id in res.value)
  {
  }
}
