/** What the rooms handlers guarantee: a contact-person patch touches one
    field of one room, and seeding appends rather than upserts. */
module RoomProperties {
  import opened Schema
  import opened Store
  import opened Rooms

  /** After the patch, the patched room reads back as before except for
      its new contact person. */
  lemma {:induction false} PatchedRoomReadsBack(docs: seq<Doc<Room>>, id: Id, contactPerson: string)
    requires id in Ids(docs)
    ensures Get(WithContactPerson(docs, id, contactPerson), id)
      == Some(Get(docs, id).value.(contactPerson := contactPerson))
  {
    if docs[0].id != id {
      assert id in Ids(docs[1..]) by {
        var d :| d in docs && d.id == id;
        assert d in docs[1..];
      }
      PatchedRoomReadsBack(docs[1..], id, contactPerson);
      assert WithContactPerson(docs, id, contactPerson)[1..] == WithContactPerson(docs[1..], id, contactPerson);
    }
  }

  /** After the patch, every other identifier reads back as before. */
  lemma {:induction false} OtherRoomsReadUnchanged(docs: seq<Doc<Room>>, id: Id, contactPerson: string, k: Id)
    requires k != id
    ensures Get(WithContactPerson(docs, id, contactPerson), k) == Get(docs, k)
  {
    if docs != [] {
      OtherRoomsReadUnchanged(docs[1..], id, contactPerson, k);
      assert WithContactPerson(docs, id, contactPerson)[1..] == WithContactPerson(docs[1..], id, contactPerson);
    }
  }

  /** Seeding an empty deployment twice gives twelve rooms: the second call
      inserts the same six rooms again under new identifiers. */
  method InitializeTwice() returns (rooms: seq<Doc<Room>>)
    ensures |rooms| == 12
    ensures forall i :: 0 <= i < 6 ==> rooms[i].value == rooms[i + 6].value && rooms[i].id != rooms[i + 6].id
    ensures rooms[0].value.name == "Everest" && rooms[6].value.name == "Everest"
  {
    var db := new Database();
    Initialize(db);
    Initialize(db);
    rooms := List(db);
    SeedRoomsInOrder();
  }
}
