/**
 * The campus tables the building, floor and room controllers work on:
 * the record shapes, the schemas' enums and validators, and the unique
 * indexes MongoDB enforces on every write.
 *
 * Document ids are `nat`s drawn from one counter, so every insert gets an
 * id no table has used (as a fresh ObjectId would be).
 */
module Campus {
  import opened Common
  import opened Geodesy

  type Id = nat

  /** The `category` enum of a building. */
  const Categories: set<string> := {"academic", "administrative", "residential", "recreational", "other"}

  /** The `status` enum of a building. */
  const BuildingStatuses: set<string> := {"active", "maintenance", "closed"}

  /** The `roomType` enum of a room. */
  const RoomTypes: set<string> :=
    {"classroom", "laboratory", "office", "conference", "lecture_hall", "study_room", "storage", "utility", "other"}

  /** The `status` enum of a room, and the values `updateStatus` accepts. */
  const RoomStatuses: set<string> := {"available", "occupied", "maintenance", "reserved"}

  /** The `type` enum of a room facility. */
  const FacilityTypes: set<string> := {"projector", "whiteboard", "computer", "printer", "ac", "other"}

  datatype Building = Building(
    name: string,
    code: string,
    location: Point,
    totalFloors: int,
    category: string,
    isAccessible: bool,
    status: string)

  /** A floor; `rooms` lists the ids room creation pushes onto it. */
  datatype Floor = Floor(
    buildingId: Id,
    floorNumber: int,
    isAccessible: bool,
    restrictedAccess: bool,
    rooms: seq<Id>)

  /** A facility entry of a room; every part of it is optional in the schema. */
  datatype Facility = Facility(kind: Option<string>, count: Option<int>, details: Option<string>)

  datatype Room = Room(
    buildingId: Id,
    floorId: Id,
    roomNumber: string,
    roomType: string,
    capacity: int,
    facilities: seq<Facility>,
    isAccessible: bool,
    status: string,
    departmentAssigned: Option<string>)

  /** What the building schema's validators demand: required names, `min: 1` floors, the enums. */
  predicate BuildingOk(b: Building) {
    && b.name != ""
    && b.code != ""
    && b.totalFloors >= 1
    && b.category in Categories
    && b.status in BuildingStatuses
  }

  /** Every facility type that is given is one of the enum's. */
  predicate FacilitiesOk(facilities: seq<Facility>) {
    forall i :: 0 <= i < |facilities| ==> facilities[i].kind.None? || facilities[i].kind.value in FacilityTypes
  }

  /** What the room schema's validators demand: a room number, the enums. */
  predicate RoomOk(r: Room) {
    && r.roomNumber != ""
    && r.roomType in RoomTypes
    && r.status in RoomStatuses
    && FacilitiesOk(r.facilities)
  }

  /**
   * The `2dsphere` index on `location`: MongoDB indexes a point only when
   * its longitude is in `[-180, 180]` and its latitude in `[-90, 90]`, and
   * refuses to store a document whose point it cannot index.
   */
  predicate GeoIndexable(p: Point) {
    -180.0 <= p.lng <= 180.0 && -90.0 <= p.lat <= 90.0
  }

  /** The unique index on `code`. */
  predicate UniqueCodes(buildings: map<Id, Building>) {
    forall a, b :: a in buildings && b in buildings && a != b ==> buildings[a].code != buildings[b].code
  }

  /** The unique index on `(buildingId, floorNumber)`. */
  predicate UniqueFloorNumbers(floors: map<Id, Floor>) {
    forall a, b :: a in floors && b in floors && a != b ==>
      floors[a].buildingId != floors[b].buildingId || floors[a].floorNumber != floors[b].floorNumber
  }

  /** The unique index on `(buildingId, floorId, roomNumber)`. */
  predicate UniqueRoomNumbers(rooms: map<Id, Room>) {
    forall a, b :: a in rooms && b in rooms && a != b ==>
      || rooms[a].buildingId != rooms[b].buildingId
      || rooms[a].floorId != rooms[b].floorId
      || rooms[a].roomNumber != rooms[b].roomNumber
  }

  /** A snapshot of the three collections and the id counter. */
  datatype Tables = Tables(
    buildings: map<Id, Building>,
    floors: map<Id, Floor>,
    rooms: map<Id, Room>,
    nextId: nat)

  /**
   * What every committed state satisfies: ids are below the counter, every
   * stored building and room passed its validators, every building's point
   * is in the geo index, and the three unique indexes hold.
   */
  predicate ValidTables(t: Tables) {
    && (forall id :: id in t.buildings ==> id < t.nextId && BuildingOk(t.buildings[id]) && GeoIndexable(t.buildings[id].location))
    && (forall id :: id in t.floors ==> id < t.nextId)
    && (forall id :: id in t.rooms ==> id < t.nextId && RoomOk(t.rooms[id]))
    && UniqueCodes(t.buildings)
    && UniqueFloorNumbers(t.floors)
    && UniqueRoomNumbers(t.rooms)
  }

  /** The outcome of a handler: created (201), done (200), not found (404) or rejected (400). */
  datatype Outcome = Created(id: Id) | Done | NotFound(message: string) | Rejected(message: string)

  /** The database the controllers read and write. */
  class Db {
    var buildings: map<Id, Building>
    var floors: map<Id, Floor>
    var rooms: map<Id, Room>
    var nextId: nat

    function State(): Tables
      reads this
    {
      Tables(buildings, floors, rooms, nextId)
    }

    ghost predicate Valid()
      reads this
    {
      ValidTables(State())
    }

    constructor ()
      ensures Valid()
      ensures buildings == map[] && floors == map[] && rooms == map[]
    {
      buildings := map[];
      floors := map[];
      rooms := map[];
      nextId := 0;
    }
  }
}
