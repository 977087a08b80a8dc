# Campus Navigator backend: a Dafny model of the map, building, floor and room controllers

This project models the request handlers at the heart of the Campus
Navigator backend, an Express/Mongoose service that stores the buildings,
floors and rooms of a campus and answers route and direction queries
between map points.

- **Map controller** (`map.controller.js`):
  - `findRoute` is a cached lookup of a stored route. On a miss it
    synthesizes a straight route, measures it with the haversine formula and
    saves it.
  - `getDirections` turns every stored route joining two points into
    turn-by-turn steps, each with a compass heading and a printed distance,
    plus an elevation profile.
  - Modules `Geodesy`, `Directions`, `Routes` and `MapController`.
- **Building, floor and room controllers**: create, update and delete
  documents under the schemas' validators and unique indexes, with cascades
  on delete, plus the filters that the listing and search handlers build
  from a query string. Modules `Campus`, `BuildingController`,
  `FloorController` and `RoomController`.
- **JavaScript semantics** the handlers rely on are written out in
  `JsNumbers`: `Math.round`, the truncating `%`, `String(n)`, `toFixed(1)`
  and `parseInt`.

The database is a class `Campus.Db` with one map per collection and a
counter for fresh ids. Each handler is modelled in three parts:

- a method on `Db` that follows the handler's steps in the source's order;
- a function `…Spec` from the old tables to the outcome (created, done,
  not found, rejected) and the new tables;
- lemmas that state what that function guarantees (`…Rules`,
  `…Rejections`) and prove that it keeps the schema validators and unique
  indexes (`…KeepsValid`).

The method's postcondition says it reaches exactly the `…Spec` result.

`Math.sin`, `Math.cos`, `Math.atan2` and `Math.sqrt` are a parameter of
type `Geodesy.MathLib`. The few facts about them that the proofs need are
hypotheses, collected in `Geodesy.Lawful`. `Math.random` is a parameter too.

Three behaviours of the code worth noting:
- A room update that gives a room number, no floor and an unknown id fails
  with a `TypeError` (400), not a 404.
- Floor delete never completes for an existing floor (see Findings).
- Room creation `$push`es the new room's id onto its floor's `rooms`, but
  the floor schema has no `rooms` path, so Mongoose's strict mode drops that
  update when the program runs. Here the model follows the controller's
  text, not the running program: it appends the id to the floor's `rooms`
  list.

## Model

| member | source | states |
|---|---|---|
| JsNumbers.Round | controllers/map.controller.js:211-216 | `Math.round` gives the integer within half a unit of its argument, ties rounding up |
| JsNumbers.Rem | controllers/map.controller.js:211 | the integer `%` differs from the dividend by a whole multiple of `n` and has the dividend's sign: in `[0, n)` for a non-negative dividend, in `(-n, 0]` for a negative one (which fixes its value) |
| JsNumbers.RealRem | controllers/map.controller.js:199 | the floating `%` differs from the dividend by a whole multiple of `n`; it is in `[0, n)` for a non-negative dividend and in `(-n, 0]` for a negative one |
| JsNumbers.NatToString | controllers/map.controller.js:216 | `String(n)` is a non-empty run of decimal digits with no leading zero, one digit exactly for `n < 10` |
| JsNumbers.IntToString | controllers/map.controller.js:216 | `String(i)` starts with a minus sign exactly for negative `i`, with a digit otherwise |
| JsNumbers.NatToStringRoundTrip | controllers/map.controller.js:216 | reading back the digits `String(n)` prints gives `n` |
| JsNumbers.FixedOneAccurate | controllers/map.controller.js:218 | `toFixed(1)` prints a whole part, a point and one digit, denoting a number within 0.05 of its argument |
| JsNumbers.TrimStart | controllers/room.controller.js:212-213 | `parseInt` skips a prefix made only of white space, and what remains does not start with white space |
| JsNumbers.DigitRun | controllers/room.controller.js:212-213 | `parseInt` reads the longest prefix of digits: every character in it is a digit and the next is not |
| JsNumbers.ParseNotNumeric | controllers/room.controller.js:212-213 | text that, after its white space, starts with neither a sign nor a digit reads as NaN |
| JsNumbers.ParseIntRoundTrip | controllers/room.controller.js:212-213 | `parseInt(String(i)) == i` for every integer `i` |
| Geodesy.FlatIsLawful | controllers/map.controller.js:6-19 | the hypotheses about the math library can all hold at once |
| Geodesy.DistanceToSelf | controllers/map.controller.js:6-19 | the haversine distance from a point to itself is 0 |
| Geodesy.DistanceSymmetric | controllers/map.controller.js:6-19 | the haversine distance is symmetric in its two points |
| Geodesy.HaversineSymmetric | controllers/map.controller.js:10-15 | the haversine term `a` is symmetric, because the odd sine is squared |
| Geodesy.DistanceBounds | controllers/map.controller.js:6-19 | a distance lies between 0 and half a great circle (`R * Math.PI`, with `Math.PI` written out exactly), for any library whose `atan2` stays within `Math.atan2`'s ranges |
| Geodesy.BearingRange | controllers/map.controller.js:189-201 | `calculateBearing` returns an angle in `[0, 360)` |
| Geodesy.BearingToSelf | controllers/map.controller.js:189-201 | the bearing from a point to itself is 0 (north) |
| Directions.BearingDirection | controllers/map.controller.js:209-212 | every bearing from -22.5 degrees up is named by one of the eight compass names |
| Directions.CompassSector | controllers/map.controller.js:209-212 | a bearing within 22.5 degrees of `45 * k` is named by the `k`-th compass name, with sector 8 wrapping to north |
| Directions.NorthWraps | controllers/map.controller.js:209-212 | bearings in `[337.5, 360)` are reported as north |
| Directions.FormatDistanceMeters | controllers/map.controller.js:214-217 | below 1000, a distance prints as the digits of the nearest whole number of metres (at most 1000) followed by " meters" |
| Directions.FormatDistanceKilometers | controllers/map.controller.js:214-219 | from 1000 on, a distance prints as kilometres with one decimal, within 0.05 km of it, with a whole part of at least 1 |
| Directions.FormatDistanceExamples | controllers/map.controller.js:214-219 | 999 m prints as "999 meters", 1000 m as "1.0 kilometers" and 1500 m as "1.5 kilometers" |
| Directions.RoundsUpToThousandMeters | controllers/map.controller.js:215-216 | 999.5 m falls below the threshold yet prints as "1000 meters" |
| Directions.StepsOf | controllers/map.controller.js:171-187 | a path of `n >= 1` points has `n - 1` steps, and the empty path none |
| Directions.StepsOfAt | controllers/map.controller.js:173-184 | step `i` is the leg from coordinate `i` to coordinate `i + 1` |
| Directions.GenerateSteps | controllers/map.controller.js:171-187 | the loop builds exactly the steps of the path, one per leg, in order |
| Directions.StepsWellFormed | controllers/map.controller.js:173-184 | each step has a bearing in `[0, 360)`, the non-negative haversine length of its leg, and the instruction "Head {compass name} for {formatted distance}" |
| Directions.ElevationProfile | controllers/map.controller.js:142-151 | one sample per coordinate, at that coordinate; for draws in `[0, 1)` the elevation is in `[0, 1000)` |
| Routes.AverageSpeed | controllers/map.controller.js:92-97 | the speed table has an entry, always positive, exactly for the four modes of the route schema's enum |
| Routes.Matching | controllers/map.controller.js:132-140 | `find` returns exactly the stored routes that match, each as often as it is stored, and no more than are stored |
| Routes.FindOne | controllers/map.controller.js:78-87 | `findOne` returns nothing exactly when no stored route matches, and otherwise a stored route that matches |
| Routes.FindOneAfterAppend | controllers/map.controller.js:78-112 | after a miss, saving a matching route makes it the next `findOne` hit |
| Routes.MatchingAfterAppend | controllers/map.controller.js:112 | saving a route that does not match leaves every lookup unchanged |
| Routes.RouteStore.constructor | models/route.model.js:15-56 | an empty collection satisfies the store invariant |
| Routes.RouteStore.Save | models/route.model.js:17-20 | a route with a mode outside the enum is refused and nothing is stored; otherwise it is appended under an id no stored route has |
| MapController.CastBoolean | controllers/map.controller.js:64-108 | the Boolean cast of the stored flag: true exactly for "true", "1" and "yes"; false exactly for an absent parameter (the default `false`), "false", "0" and "no"; a failed cast for anything else |
| MapController.SynthesizedMeasures | controllers/map.controller.js:89-110 | a synthesized route spans the two endpoints in the requested mode; its distance is in `[0, R * Math.PI]`; its duration is non-negative and equals the distance over the mode's speed; both are 0 from a point to itself |
| MapController.SynthesizedAnswersItself | controllers/map.controller.js:78-110 | a synthesized route answers its own request exactly when the request does not ask for access or the stored flag casts to true |
| MapController.SaveSynthesized | controllers/map.controller.js:89-112 | on a miss with a known mode, the synthesized route under the next id is returned and appended, keeping ids distinct; with an unknown mode the save fails and the store is unchanged |
| MapController.FindRoute | controllers/map.controller.js:56-119 | a hit is returned with the store unchanged; on a miss with a known mode and a castable flag, the synthesized route is returned and appended; otherwise the save fails and nothing is stored |
| MapController.FindRouteTwice | controllers/map.controller.js:56-119 | asking twice returns the same route when the first answer matches its own query; otherwise the second request stores another route under a new id |
| MapController.FalseFlagNeverAnswersItself | controllers/map.controller.js:64-108 | `accessibility=false` is truthy for the lookup but stores a false flag, so the route it saves never answers it |
| MapController.DirectionsOf | controllers/map.controller.js:155-161 | one direction per found route, in order: entry `j` is the direction of route `j`, drawing its elevations from `random(j)` |
| MapController.DirectionShape | controllers/map.controller.js:155-161 | each direction carries the route's id, distance and duration, one step per leg, and one elevation sample per coordinate, in `[0, 1000)` |
| MapController.GetDirections | controllers/map.controller.js:121-169 | with `alternatives`, the directions of all matching routes in stored order; without, a one-element list holding the first one or `null` |
| Campus.Db.constructor | models/building.model.js:77-78 | the empty database satisfies every validator, the geo index and every unique index |
| BuildingController.NewBuilding | models/building.model.js:64-72 | a new building is accessible unless the body says false, and is "active" unless a status is given |
| BuildingController.CreateRules | controllers/building.controller.js:7-41 | rejects missing or falsy required fields, then a code already used, then a building the schema refuses, then a location outside the `2dsphere` index's longitude and latitude ranges, changing nothing; otherwise the building is stored under a fresh id and nothing else changes |
| BuildingController.CreateKeepsValid | models/building.model.js:78 | a created building keeps codes unique and every stored building valid |
| BuildingController.Create | controllers/building.controller.js:7-41 | the handler's steps reach exactly the specified outcome and tables, and keep the invariant |
| BuildingController.OverwriteKeepsOk | controllers/building.controller.js:126-130 | overwriting a valid building with a body that passes the update validators gives a valid building |
| BuildingController.UpdateRules | controllers/building.controller.js:108-149 | a code used by another building is rejected first; the update is done exactly when the building exists, the validators pass, the code is free and a new location is in the `2dsphere` index's ranges; an unknown building with a free code and a body that passes the validators is not found; an existing building given an out-of-range location is rejected; then only the supplied fields change |
| BuildingController.UpdateKeepsValid | controllers/building.controller.js:113-130 | an update keeps codes unique and every building valid |
| BuildingController.Update | controllers/building.controller.js:108-149 | the handler's steps reach exactly the specified outcome and tables, and keep the invariant |
| BuildingController.DeleteRules | controllers/building.controller.js:152-187 | an unknown id is not found; otherwise the building, and exactly the floors and rooms that name it, are removed |
| BuildingController.DeleteKeepsValid | controllers/building.controller.js:167-170 | the cascading delete keeps every invariant |
| BuildingController.Delete | controllers/building.controller.js:152-187 | the handler's steps reach exactly the specified outcome and tables, and keep the invariant |
| BuildingController.GetAllFilter | controllers/building.controller.js:46-51 | category and status filter only when non-empty; `isAccessible`, when given, filters on true exactly for the text "true" |
| BuildingController.GetAllUnfiltered | controllers/building.controller.js:44-55 | with no query parameters every building is listed |
| BuildingController.IsAccessibleOtherThanTrue | controllers/building.controller.js:50 | any `isAccessible` text but "true" lists exactly the inaccessible buildings |
| FloorController.RaiseFloors | controllers/floor.controller.js:31-34 | the building's floor count becomes the larger of itself and the new floor number, and nothing else about the building changes |
| FloorController.CreateRules | controllers/floor.controller.js:7-51 | rejects an unknown building, then a floor number the building already has, changing nothing; otherwise the floor is stored under a fresh id and the building's count is raised |
| FloorController.CreateKeepsValid | models/floor.models.js:63 | a created floor keeps `(buildingId, floorNumber)` unique and buildings valid |
| FloorController.Create | controllers/floor.controller.js:7-51 | the handler's steps, in one transaction, reach exactly the specified outcome and tables, and keep the invariant |
| FloorController.UpdateRules | controllers/floor.controller.js:105-132 | an unknown floor is not found; the update is done exactly when the new `(buildingId, floorNumber)` is free; then only the supplied fields change |
| FloorController.UpdateKeepsValid | models/floor.models.js:63 | an update keeps `(buildingId, floorNumber)` unique |
| FloorController.Update | controllers/floor.controller.js:105-132 | the handler's steps reach exactly the specified outcome and tables, and keep the invariant |
| FloorController.DeleteAsWrittenRules | controllers/floor.controller.js:135-172 | as written: an unknown floor is not found; an existing one fails on the undefined `Room`, and the tables are never changed |
| FloorController.DeleteAsWritten | controllers/floor.controller.js:135-172 | the handler as written reaches exactly that outcome and changes nothing |
| FloorController.DeleteAsWrittenKeepsFloor | controllers/floor.controller.js:152 | for every existing floor, the handler as written keeps it while the intended one removes it |
| FloorController.DeleteRules | controllers/floor.controller.js:135-172 | intended: an unknown floor is not found; otherwise the floor and exactly the rooms on it are removed |
| FloorController.DeleteKeepsValid | controllers/floor.controller.js:152-155 | the cascading delete keeps every invariant |
| FloorController.Delete | controllers/floor.controller.js:135-172 | the intended handler reaches exactly the specified outcome and tables, and keeps the invariant |
| RoomController.NewRoom | models/room.model.js:3-51 | a room built from a body that the schema accepts passes the room validators |
| RoomController.CreateRejections | controllers/room.controller.js:11-30 | rejects an unknown building, then a floor that is missing or belongs to another building, then a number already used on the floor, changing nothing |
| RoomController.CreateRules | controllers/room.controller.js:7-63 | a room is created exactly when building and floor match, the number is free and the schema accepts it; it gets a fresh id and its id is appended to its floor's `rooms` |
| RoomController.CreateKeepsValid | models/room.model.js:54 | a created room keeps the room key unique and every room valid |
| RoomController.Create | controllers/room.controller.js:7-63 | the handler's steps, in one transaction, reach exactly the specified outcome and tables, and keep the invariant |
| RoomController.TargetFloor | controllers/room.controller.js:129 | the floor the number check uses is the body's `floorId` when given, otherwise the stored room's floor; it is missing exactly when the body gives none and the room does not exist |
| RoomController.UpdateRejections | controllers/room.controller.js:126-151 | a new number with no floor and an unknown room fails on `null`, then a number used on the target floor is rejected, then an unknown room is not found (with or without a new number, when that number is free on the given floor); nothing changes |
| RoomController.UpdateRules | controllers/room.controller.js:126-151 | the update is done exactly when the room exists, the validators pass, a new number is free on the target floor and the new key is free; then only the supplied fields of that room change, and its new key is unique |
| RoomController.OverwriteKeepsOk | controllers/room.controller.js:140-144 | overwriting a valid room with a body that passes the validators gives a valid room |
| RoomController.UpdateKeepsValid | models/room.model.js:54 | an update keeps the room key unique and every room valid |
| RoomController.Update | controllers/room.controller.js:121-163 | the handler's steps reach exactly the specified outcome and tables, and keep the invariant |
| RoomController.DeleteRules | controllers/room.controller.js:164-186 | an unknown room is not found; otherwise exactly that room is removed |
| RoomController.DeleteKeepsValid | controllers/room.controller.js:166 | removing a room keeps every invariant |
| RoomController.Delete | controllers/room.controller.js:164-186 | the handler reaches exactly the specified outcome and tables, and keeps the invariant |
| RoomController.UpdateStatusRules | controllers/room.controller.js:235-270 | a status outside the four is rejected; the update is done exactly for one of the four on an existing room; then only its status changes |
| RoomController.UpdateStatusKeepsValid | controllers/room.controller.js:240-251 | a status update keeps every invariant |
| RoomController.UpdateStatus | controllers/room.controller.js:235-270 | the handler reaches exactly the specified outcome and tables, and keeps the invariant |
| RoomController.UpdateFacilitiesRules | controllers/room.controller.js:273-308 | a non-array is rejected; the update is done exactly for well-typed facilities on an existing room; then only its facility list changes |
| RoomController.UpdateFacilitiesKeepsValid | controllers/room.controller.js:278-289 | a facility update keeps every invariant |
| RoomController.UpdateFacilities | controllers/room.controller.js:273-308 | the handler reaches exactly the specified outcome and tables, and keeps the invariant |
| RoomController.SearchFilter | controllers/room.controller.js:201-214 | each text parameter filters exactly when truthy, and then on the given text; `isAccessible` filters when given, on true exactly for "true"; the capacity bounds are the `parseInt` of their text |
| RoomController.FloorRoomsFilter | controllers/room.controller.js:66-74 | the floor listing's filter is the search filter for that floor with the same type, status and access parameters |
| RoomController.SearchUnfiltered | controllers/room.controller.js:189-219 | with no query parameters every room is listed |
| RoomController.SearchCapacityRange | controllers/room.controller.js:210-214 | bounds written as integers `lo` and `hi` list exactly the rooms with `lo <= capacity <= hi` |
| RoomController.SearchRejectsNonNumericCapacity | controllers/room.controller.js:210-216 | a non-empty capacity bound that does not start with a sign or a digit (after white space) makes the search fail, whichever bound it is |
| RoomController.FloorRoomsOnFloor | controllers/room.controller.js:66-78 | the floor listing succeeds, lists only rooms on that floor, and lists all of them when no other parameter is given |

## Left out

- `searchNearby` (map controller) and `searchByLocation` (building controller) are not modelled. Both are MongoDB `$near` geospatial queries whose ordering and distance metric live in the database server.
- `getById`, `getAllInBuilding` and `getByDepartment` are not modelled. They are plain lookups with no logic of their own.
- Route coordinates are not parsed: points are real pairs. A missing or non-numeric `startLat` etc. (NaN from `parseFloat`) is not modelled, nor is a missing `origin` or `destination` in `getDirections` (a 500), nor the ignored `waypoints`.
- Floating point is modelled by exact reals. The binary rounding of `toFixed(1)` and of the haversine terms, and numbers of 1e21 or more (which print in exponent form), are not modelled.
- Trigonometry: only the facts the proofs need are assumed of `Math.sin`, `Math.cos`, `Math.atan2` and `Math.sqrt`; the formulas' exact values are not.
- `Math.random` is a parameter (`random`) of `getDirections`.
- Document ids are natural numbers from one counter. ObjectId casting, and the CastError a malformed id raises, are not modelled.
- String `trim` setters, `populate`, `select` and `sort` are not modelled; listings return the set of matching ids.
- Concurrency and transaction isolation are not modelled: each handler runs alone, and a transaction's abort restores the old tables.
- RoomController.Create: the floor schema has no `rooms` path, so Mongoose's strict mode drops room creation's `$push` when the program runs; the model follows the controller's text and appends the id instead.
- Deleting a room does not touch its floor: the room's id stays in its floor's `rooms` list, as in the source.
- Validation messages are reduced to their first words ("Building validation failed", "Validation failed"). A body without a floor or room number is rejected, but the exact message Mongoose gives for it is not modelled.
- The update validators check the enums, `min` and non-empty required strings of the paths a body sets. A `null` field in an update body is not modelled (absent fields are `None`).
- MapController.GetDirections: `alternatives` is taken as a boolean, its truthiness in the request body.
- Mode and flag values given as arrays in the query string are not modelled.
- JsNumbers.TrimStart: skips the ASCII white space, the no-break space, the byte-order mark and the line and paragraph separators, but not the other Unicode space separators that `parseInt` also skips.
- Building totals: `totalFloors` is an integer; a fractional count is not modelled.
- FloorController.Create, FloorController.RaiseFloors: floor numbers are integers (`FloorBody.floorNumber` and `Floor.floorNumber` are `int`), although the schema's `floorNumber` is a Number. A fractional floor number, and the fractional `totalFloors` that floor creation would then store on its building, are not modelled.
- RoomController.Create, RoomController.Update, RoomController.UpdateFacilities: a facility's `count` is an integer, although the schema's `count` is a Number, and every facility entry is an object. Fractional counts, and the cast failure (400) of a facility entry that is not an object or whose `count` is not numeric, are not modelled.
- Room capacities are integers (`RoomBody.capacity` is an `int`), although the schema's `capacity` is a Number. Fractional capacities, and how the `parseInt` bounds of `search` compare with them, are not modelled.
- Floor bodies carry only `buildingId`, `floorNumber`, `isAccessible` and `restrictedAccess`. The `facilities`, `floorPlan` and `emergencyFeatures` paths are not modelled, so neither is the rejection (400) of a floor facility `type` outside restroom, elevator, stairs, vending and other by floor create and update.
- A building's `location` is a point; its `type` field and that field's enum (only "Point") are not modelled, so neither is the rejection of another `location.type`.
- The building body's other schema paths (`description`, `departments`, `facilities`, `emergencyExits`, `operatingHours`, `imageUrl`, `galleryImages`) have no enum, `min` or `required` validators and are not modelled, nor is the cast failure of, say, a non-numeric `emergencyExits.count`.

## Findings

| source | as written | input that shows it | evidently intended | confidence | as-written member | corrected member |
|---|---|---|---|---|---|---|
| controllers/floor.controller.js:152 | `Room.deleteMany` is called, but `Room` is never imported (lines 1-2 import only `Floor` and `Building`); the `ReferenceError` aborts the transaction with a 400 "Room is not defined" | `DELETE /floors/:id` for any existing floor | delete the floor's rooms, then the floor, and report success | high (not executed) | FloorController.DeleteAsWrittenKeepsFloor | FloorController.DeleteRules |
