# Meeting-room booking backend in Dafny

This project models the server side of a small meeting-room booking application. The backend keeps two tables in a hosted document store:

- **rooms**: name, capacity, description, image and contact person;
- **bookings**: room id, owner id, start and end time in integer milliseconds, title and an optional description.

The handlers that read and change the two tables are:

- `create` books a room. The caller must be signed in. The booking is refused with "Time slot already booked" when some booking of the same room starts inside the proposed interval padded by 30 minutes (1 800 000 ms) on each side, both ends included. Otherwise the new booking is inserted with the caller as owner.
- `cancel` deletes a booking. It checks, in this order, that the caller is signed in, that the booking exists and that the caller owns it.
- `listByUser` returns the caller's bookings, newest first, each joined with its room. An anonymous caller gets an empty list.
- `listByRoom` returns the bookings of a room whose start lies in a given range.
- `list` returns all rooms.
- `updateContactPerson` patches the contact person of one room. It does no authentication or ownership check.
- `initialize` inserts six fixed rooms. It is not idempotent.

Layout:

- `schema.dfy` (module `Schema`) holds the record shapes, `Option`, `Result` and the error cases.
- `store.dfy` (module `Store`) models the document store. Each table is a sequence of `Doc(id, value)` in creation order. A `Database` object holds both tables and a counter for fresh identifiers. Its `Valid()` invariant says that identifiers strictly increase along each table and stay below the counter. `Get` and `Delete` model the store's `get` and `delete`.
- `bookings.dfy` (module `Bookings`): `Create` and `Cancel` are methods that change the `Database`. `ListByUser` and `ListByRoom` are functions over the tables.
- `rooms.dfy` (module `Rooms`): `Initialize` and `UpdateContactPerson` are methods. `List` is a function.
- `booking_properties.dfy` and `room_properties.dfy` hold the lemmas and scenario methods about the handlers.

The signed-in user is an explicit `caller: Option<UserId>` parameter; `None` means nobody is signed in. Each handler is one atomic step on the `Database`.

Two details of the code decide the model's shape:

- `listByUser` orders by the `by_user` index in descending order. Within one user that is reverse creation order, so bookings come newest-created first, not by start time.
- The conflict window is built from the proposed booking's interval, padded by half an hour on each side, and only the existing bookings' start times are tested against it (`BookingProperties.ConflictScenario`).

The conflict rule is reproduced exactly as written. It looks only at the start of existing bookings. `BookingProperties.ReportedConflictIsNear` proves that every conflict it reports with a booking whose start does not exceed its end is within half an hour of the proposed interval. Nothing stops an inverted booking from being stored, and such a booking can be reported without being near. `BookingProperties.EnclosingBookingIsMissed` shows that the converse fails.

Two error paths come from the store and the runtime, not from the handlers:

- `updateContactPerson` on a missing room fails because the store refuses to patch a document that does not exist (`NonexistentDocument`).
- `listByUser` builds its room map with `r!._id`. `create` never checks that the room exists, so a booking can name a missing room. When one of the caller's bookings does, the dereference throws and the whole query fails (`RoomMissing`).

## Model

| member | source | states |
|---|---|---|
| `Store.Get` | meeting_room_booking_system_y5ik9z/convex/bookings.ts:72 | the lookup finds a document exactly when its id is stored, and what it returns is a stored document with that id |
| `Store.GetFinds` | meeting_room_booking_system_y5ik9z/convex/bookings.ts:72 | when identifiers are distinct, looking up a stored document's id returns that very document |
| `Store.Delete` | meeting_room_booking_system_y5ik9z/convex/bookings.ts:76 | delete keeps exactly the documents whose id differs from the deleted one, and no others |
| `Store.DeleteKeepsOrder` | meeting_room_booking_system_y5ik9z/convex/bookings.ts:76 | deleting keeps identifiers strictly increasing (the table stays well formed) |
| `Store.DeleteRemovesOne` | meeting_room_booking_system_y5ik9z/convex/bookings.ts:76 | deleting a present id from a well-formed table removes exactly one document |
| `Store.DeleteAbsent` | meeting_room_booking_system_y5ik9z/convex/bookings.ts:76 | deleting an id that is not stored leaves the table as it was |
| `Store.InsertKeepsIds` | meeting_room_booking_system_y5ik9z/convex/bookings.ts:32-35 | an insert takes a fresh id, keeps the table well formed, and the new document can be looked up under that id |
| `Store.Database.InsertRoom` | meeting_room_booking_system_y5ik9z/convex/rooms.ts:71 | an insert into rooms appends one document under a fresh id and changes nothing else |
| `Store.Database.InsertBooking` | meeting_room_booking_system_y5ik9z/convex/bookings.ts:32-35 | an insert into bookings appends one document under a fresh id and changes nothing else |
| `Store.Database.DeleteBooking` | meeting_room_booking_system_y5ik9z/convex/bookings.ts:76 | a delete removes the named booking (exactly one when present) and changes nothing else |
| `Bookings.InRange` | meeting_room_booking_system_y5ik9z/convex/bookings.ts:20-25 | the index range query returns exactly the bookings of the room whose start lies in [lo, hi], both ends included; in a well-formed table each appears once, in creation order |
| `Bookings.InConflictWindow` | meeting_room_booking_system_y5ik9z/convex/bookings.ts:20-25 | an existing booking blocks the proposed one exactly when it is in the same room and its start lies in [start − 1 800 000, end + 1 800 000]; its end is not consulted |
| `Bookings.IsFree` | meeting_room_booking_system_y5ik9z/convex/bookings.ts:18-30 | the slot is free exactly when no booking of the same room starts in [start − 1 800 000, end + 1 800 000] |
| `Bookings.NewBooking` | meeting_room_booking_system_y5ik9z/convex/bookings.ts:32-35 | the inserted row carries every argument of `create` unchanged, plus the caller as owner |
| `Bookings.Create` | meeting_room_booking_system_y5ik9z/convex/bookings.ts:13-35 | no caller gives "Not authenticated"; a non-empty conflict window gives "Time slot already booked"; both leave the table unchanged; otherwise exactly one booking with the arguments and the caller as owner is appended under a fresh id and nothing else changes |
| `Bookings.Cancel` | meeting_room_booking_system_y5ik9z/convex/bookings.ts:68-76 | the three checks in order (not authenticated, booking not found, not authorized) each leave the table unchanged; on success exactly the named booking is removed and every other booking stays |
| `Bookings.ListByRoom` | meeting_room_booking_system_y5ik9z/convex/bookings.ts:86-95 | returns exactly the bookings of the room with startTime ≤ start ≤ endTime; in a well-formed table each appears once, in creation order |
| `Bookings.OwnedNewestFirst` | meeting_room_booking_system_y5ik9z/convex/bookings.ts:45-49 | the by-user query returns exactly the bookings whose owner is the user |
| `Bookings.OwnedNewestFirstIsDecreasing` | meeting_room_booking_system_y5ik9z/convex/bookings.ts:48 | the descending order puts the newest booking first: identifiers strictly decrease |
| `Bookings.JoinRooms` | meeting_room_booking_system_y5ik9z/convex/bookings.ts:51-60 | the join succeeds exactly when every booking's room exists; it then pairs each booking, in order, with the room document its roomId names; otherwise the query fails |
| `Bookings.ListByUser` | meeting_room_booking_system_y5ik9z/convex/bookings.ts:41-61 | an anonymous caller gets an empty list; otherwise the listed bookings are exactly the caller's, newest first, each with its room, and the query fails exactly when one of them names a missing room |
| `BookingProperties.OtherRoomsIrrelevant` | meeting_room_booking_system_y5ik9z/convex/bookings.ts:20-28 | bookings of other rooms never change whether a slot is free |
| `BookingProperties.EmptyRoomIsFree` | meeting_room_booking_system_y5ik9z/convex/bookings.ts:20-28 | a room with no bookings is free for any interval, so create by a signed-in caller succeeds |
| `BookingProperties.EarlierStartNeverBlocks` | meeting_room_booking_system_y5ik9z/convex/bookings.ts:23-24 | a booking starting before start − 1 800 000 never blocks, whatever its end |
| `BookingProperties.InvertedIntervalIsFree` | meeting_room_booking_system_y5ik9z/convex/bookings.ts:5-30 | no check rejects start ≥ end; when end + 3 600 000 < start the conflict window is empty, so the booking is accepted whatever the table holds |
| `BookingProperties.ReportedConflictIsNear` | meeting_room_booking_system_y5ik9z/convex/bookings.ts:18-30 | every reported conflict with a well-ordered booking is near the proposed interval: the two intervals are at most half an hour apart |
| `BookingProperties.EnclosingBookingIsMissed` | meeting_room_booking_system_y5ik9z/convex/bookings.ts:23-24 | a booking 8:00–12:00 encloses a proposed 10:00–11:00 in the same room, yet the slot counts as free (the rule is start-only) |
| `BookingProperties.ConflictScenario` | meeting_room_booking_system_y5ik9z/convex/bookings.ts:18-35 | with A = 10:00–11:00 booked, B = 10:15–10:45 is refused and C = 8:00–9:15 is accepted |
| `BookingProperties.ForeignCancelScenario` | meeting_room_booking_system_y5ik9z/convex/bookings.ts:74 | a user who does not own a booking gets "Not authorized" and the booking remains |
| `BookingProperties.CancelledBookingIsUnlisted` | meeting_room_booking_system_y5ik9z/convex/bookings.ts:76 | after a delete the booking appears in neither listByRoom nor listByUser |
| `BookingProperties.CreatedBookingIsListed` | meeting_room_booking_system_y5ik9z/convex/bookings.ts:32-35 | a freshly inserted booking appears in listByRoom for any range holding its start, and first in its owner's listByUser |
| `Rooms.SeedRoomsInOrder` | meeting_room_booking_system_y5ik9z/convex/rooms.ts:25-68 | the seed rooms (the constant `Rooms.SeedRooms`) are Everest, Kilimanjaro, Alps, Andes, Rockies and Himalayas, with capacities 12, 8, 6, 10, 4 and 15, and with the source's descriptions and contact persons in the same order |
| `Rooms.SeedCapacitiesPositive` | meeting_room_booking_system_y5ik9z/convex/rooms.ts:25-68 | every seed room has a capacity above zero |
| `Rooms.List` | meeting_room_booking_system_y5ik9z/convex/rooms.ts:8 | returns every room document in creation order; as a function it cannot change the store |
| `Rooms.Inserted` | meeting_room_booking_system_y5ik9z/convex/rooms.ts:70-72 | inserting rooms one by one creates, in order, one document per room with consecutive fresh ids |
| `Rooms.InsertedStep` | meeting_room_booking_system_y5ik9z/convex/rooms.ts:70-72 | one more insert extends the inserted documents by exactly one |
| `Rooms.Initialize` | meeting_room_booking_system_y5ik9z/convex/rooms.ts:22-73 | appends exactly the six seed rooms, in order and under fresh ids, after the existing rooms, which stay untouched; bookings are unchanged; every room's capacity stays positive; the room count grows by six on every call |
| `Rooms.WithContactPerson` | meeting_room_booking_system_y5ik9z/convex/rooms.ts:18 | the patch sets contactPerson on the target room, keeps its name, capacity, description and image, and leaves every other room and every id as it was |
| `Rooms.UpdateContactPerson` | meeting_room_booking_system_y5ik9z/convex/rooms.ts:12-19 | takes no caller, so anyone may change a contact person; an existing room is patched and nothing else changes; a missing room is refused by the store and the table is unchanged |
| `RoomProperties.PatchedRoomReadsBack` | meeting_room_booking_system_y5ik9z/convex/rooms.ts:18 | after the patch, the target room reads back as before except that its contact person is the new one |
| `RoomProperties.OtherRoomsReadUnchanged` | meeting_room_booking_system_y5ik9z/convex/rooms.ts:18 | after the patch, every other id reads back exactly as before |
| `RoomProperties.InitializeTwice` | meeting_room_booking_system_y5ik9z/convex/rooms.ts:70-72 | two calls from an empty store give 12 rooms, the second six duplicating the first under new ids |

## Left out

- Authentication is a foreign library. The signed-in user is the `caller` parameter, and the user and session tables are not modelled.
- Timestamps and capacities are unbounded integers. The store's numbers are doubles; fractional values, values beyond 2^53, NaN and ±Infinity (which the number validator accepts) are not modelled.
- `Bookings.ListByRoom`: returns the matching bookings in creation order. The index returns them ordered by startTime. The bookings returned are exactly the matching ones, each once, but the startTime order is not modelled.
- `Bookings.InRange`: the same ordering gap; `create` only tests whether the result is empty, so its order does not matter there.
- Identifiers are naturals from one counter. The store's identifier format, `_creationTime` and the other system fields are not modelled.
- `listByUser` fetches rooms through a de-duplicated id set and `Promise.all`. The model looks each room up directly, which gives the same result.
- Argument validators (`v.id`, `v.number`, `v.string`) are replaced by Dafny types. A `get` with an id of the wrong table is not modelled.
- `Store.Database.DeleteBooking`: the store's `delete` refuses an identifier that is not stored, while the model's delete leaves the table unchanged. `cancel` checks that the booking exists before deleting it, so no handler reaches that case.
- Concurrency and the store's transaction guarantee are not modelled. Each handler is one atomic step.
- Image URLs and descriptions are carried as strings, and nothing is proved about them.
- The React front end and its conversion of date and time strings into milliseconds are not part of this model.
