/** The rooms handlers: `list` reads the rooms table, `updateContactPerson`
    patches one field of one room, and `initialize` appends the six seed
    rooms. None of them consults the signed-in user. */
module Rooms {
  import opened Schema
  import opened Store

  /** The six rooms `initialize` inserts, in insertion order. */
  const SeedRooms: seq<Room> := [
    Room("Everest", 12, "Large conference room",
      "https://images.unsplash.com/photo-1431440869543-efaf3388c585?auto=format&fit=crop&w=1000&q=80",
      "Sarah Johnson"),
    Room("Kilimanjaro", 8, "Medium meeting room",
      "https://images.unsplash.com/photo-1497366216548-37526070297c?auto=format&fit=crop&w=1000&q=80",
      "Michael Chen"),
    Room("Alps", 6, "Cozy meeting space",
      "https://images.unsplash.com/photo-1497366811353-6870744d04b2?auto=format&fit=crop&w=1000&q=80",
      "Emma Davis"),
    Room("Andes", 10, "Presentation room",
      "https://images.unsplash.com/photo-1497366754035-f200968a6e72?auto=format&fit=crop&w=1000&q=80",
      "Alex Martinez"),
    Room("Rockies", 4, "Small meeting room",
      "https://images.unsplash.com/photo-1497366412874-3415097a27e7?auto=format&fit=crop&w=1000&q=80",
      "Lisa Wong"),
    Room("Himalayas", 15, "Board room",
      "https://images.unsplash.com/photo-1497366858526-0766cadbe8fa?auto=format&fit=crop&w=1000&q=80",
      "David Smith")
  ]

  /** Every room has a positive capacity: true of the seed rooms, and no
      handler changes a capacity. */
  predicate PositiveCapacities(rooms: seq<Doc<Room>>)
  {
    forall d :: d in rooms ==> d.value.capacity > 0
  }

  /** The seed rooms, in order, are Everest, Kilimanjaro, Alps, Andes,
      Rockies and Himalayas, seating 12, 8, 6, 10, 4 and 15, each with its
      own description and contact person. */
  lemma SeedRoomsInOrder()
    ensures |SeedRooms| == 6
    ensures seq(6, i requires 0 <= i < 6 => SeedRooms[i].name)
      == ["Everest", "Kilimanjaro", "Alps", "Andes", "Rockies", "Himalayas"]
    ensures seq(6, i requires 0 <= i < 6 => SeedRooms[i].capacity) == [12, 8, 6, 10, 4, 15]
    ensures seq(6, i requires 0 <= i < 6 => SeedRooms[i].description)
      == ["Large conference room", "Medium meeting room", "Cozy meeting space",
          "Presentation room", "Small meeting room", "Board room"]
    ensures seq(6, i requires 0 <= i < 6 => SeedRooms[i].contactPerson)
      == ["Sarah Johnson", "Michael Chen", "Emma Davis", "Alex Martinez", "Lisa Wong", "David Smith"]
  {
  }

  /** Every seed room has a positive capacity. */
  lemma SeedCapacitiesPositive()
    ensures forall r :: r in SeedRooms ==> r.capacity > 0
  {
  }

  /** `list`: every room document, in creation order. */
  function List(db: Database): (r: seq<Doc<Room>>)
    reads db
    ensures r == db.rooms
  {
    db.rooms
  }

  /** The documents that inserting `rooms` one by one creates when the
      counter stands at `first`. */
  function Inserted(first: Id, rooms: seq<Room>): (r: seq<Doc<Room>>)
    ensures |r| == |rooms|
    ensures forall i :: 0 <= i < |rooms| ==> r[i] == Doc(first + i, rooms[i])
  {
    if rooms == [] then []
    else Inserted(first, rooms[..|rooms| - 1]) + [Doc(first + |rooms| - 1, rooms[|rooms| - 1])]
  }

  /** `initialize`: inserts each seed room in turn. Existing rooms stay, so
      calling it again adds six more. */
  method Initialize(db: Database)
    requires db.Valid()
    modifies db
    ensures db.Valid()
    ensures db.rooms == old(db.rooms) + Inserted(old(db.nextId), SeedRooms)
    ensures db.nextId == old(db.nextId) + |SeedRooms|
    ensures db.bookings == old(db.bookings)
    ensures PositiveCapacities(old(db.rooms)) ==> PositiveCapacities(db.rooms)
  {
    var seed := SeedRooms;
    ghost var initial, first := db.rooms, db.nextId;
    for i := 0 to |seed|
      invariant db.Valid()
      invariant db.rooms == initial + Inserted(first, seed[..i])
      invariant db.nextId == first + i
      invariant db.bookings == old(db.bookings)
    {
      InsertedStep(initial, first, seed, i);
      var _ := db.InsertRoom(seed[i]);
    }
    assert seed[..|seed|] == seed;
    SeedCapacitiesPositive();
    forall d | d in Inserted(old(db.nextId), SeedRooms) ensures d.value.capacity > 0 {
      var k :| 0 <= k < |SeedRooms| && Inserted(old(db.nextId), SeedRooms)[k] == d;
      assert SeedRooms[k] in SeedRooms;
    }
  }

  /** Inserting one more room extends the table by exactly its document. */
  lemma InsertedStep(initial: seq<Doc<Room>>, first: Id, rooms: seq<Room>, i: nat)
    requires i < |rooms|
    ensures initial + Inserted(first, rooms[..i + 1])
      == initial + Inserted(first, rooms[..i]) + [Doc(first + i, rooms[i])]
  {
  }

  /** The store's patch of `contactPerson` on document `id`. */
  function WithContactPerson(docs: seq<Doc<Room>>, id: Id, contactPerson: string): (r: seq<Doc<Room>>)
    ensures |r| == |docs|
    ensures forall i :: 0 <= i < |docs| ==> r[i].id == docs[i].id
    ensures forall i :: 0 <= i < |docs| && docs[i].id != id ==> r[i] == docs[i]
    ensures forall i :: 0 <= i < |docs| && docs[i].id == id ==>
      && r[i].value.contactPerson == contactPerson
      && r[i].value.name == docs[i].value.name
      && r[i].value.capacity == docs[i].value.capacity
      && r[i].value.description == docs[i].value.description
      && r[i].value.image == docs[i].value.image
  {
    if docs == [] then []
    else
      var head := if docs[0].id == id then Doc(id, docs[0].value.(contactPerson := contactPerson)) else docs[0];
      [head] + WithContactPerson(docs[1..], id, contactPerson)
  }

  /** `updateContactPerson`: no authentication or ownership check; the
      store refuses to patch a room that does not exist. */
  method UpdateContactPerson(db: Database, roomId: Id, contactPerson: string) returns (r: Result<()>)
    requires db.Valid()
    modifies db
    ensures db.Valid()
    ensures db.bookings == old(db.bookings) && db.nextId == old(db.nextId)
    ensures roomId !in Ids(old(db.rooms)) ==> r == Err(NonexistentDocument) && db.rooms == old(db.rooms)
    ensures roomId in Ids(old(db.rooms)) ==>
      r == Ok(()) && db.rooms == WithContactPerson(old(db.rooms), roomId, contactPerson)
    ensures PositiveCapacities(old(db.rooms)) ==> PositiveCapacities(db.rooms)
  {
    if Get(db.rooms, roomId).None? {
      return Err(NonexistentDocument);
    }
    var patched := WithContactPerson(db.rooms, roomId, contactPerson);
    forall d | d in patched ensures d.id < db.nextId && (PositiveCapacities(db.rooms) ==> d.value.capacity > 0) {
      var k :| 0 <= k < |patched| && patched[k] == d;
      assert db.rooms[k] in db.rooms;
    }
    db.rooms := patched;
    r := Ok(());
  }
}
