/** The document store the handlers run against: each table is the sequence
    of its documents in creation order, and a single counter hands out fresh
    identifiers. The functions here are the store's read, insert and delete
    primitives on one table. */
module Store {
  import opened Schema

  /** Identifiers strictly increase along the table (creation order). */
  predicate Increasing<T(==)>(docs: seq<Doc<T>>)
  {
    forall i, j :: 0 <= i < j < |docs| ==> docs[i].id < docs[j].id
  }

  /** Every identifier in the table is below `bound`. */
  predicate Below<T(==)>(docs: seq<Doc<T>>, bound: Id)
  {
    forall d :: d in docs ==> d.id < bound
  }

  function Ids<T(==)>(docs: seq<Doc<T>>): set<Id>
  {
    set d | d in docs :: d.id
  }

  /** Looks a document up by identifier (the store's `get`). */
  function Get<T(==)>(docs: seq<Doc<T>>, id: Id): (r: Option<T>)
    ensures r.Some? <==> id in Ids(docs)
    ensures r.Some? ==> Doc(id, r.value) in docs
  {
    if docs == [] then None
    else if docs[0].id == id then Some(docs[0].value)
    else
      assert Ids(docs) == {docs[0].id} + Ids(docs[1..]) by {
        assert docs == [docs[0]] + docs[1..];
      }
      Get(docs[1..], id)
  }

  /** In a table with distinct identifiers, `get` finds exactly the stored document. */
  lemma GetFinds<T>(docs: seq<Doc<T>>, d: Doc<T>)
    requires Increasing(docs) && d in docs
    ensures Get(docs, d.id) == Some(d.value)
  {
  }

  /** In a well-formed table the first document has the smallest identifier. */
  lemma HeadIsOldest<T>(docs: seq<Doc<T>>, d: Doc<T>)
    requires Increasing(docs) && docs != [] && d in docs[1..]
    ensures docs[0].id < d.id
  {
  }

  /** The store's `delete`: removes the document with identifier `id`. */
  function Delete<T(==)>(docs: seq<Doc<T>>, id: Id): (r: seq<Doc<T>>)
    ensures forall d :: d in r ==> d in docs && d.id != id
    ensures forall d :: d in docs && d.id != id ==> d in r
    ensures |r| <= |docs|
  {
    if docs == [] then []
    else if docs[0].id == id then Delete(docs[1..], id)
    else [docs[0]] + Delete(docs[1..], id)
  }

  /** Deleting keeps the identifiers in creation order. */
  lemma {:induction false} DeleteKeepsOrder<T>(docs: seq<Doc<T>>, id: Id)
    requires Increasing(docs)
    ensures Increasing(Delete(docs, id))
  {
    if docs != [] {
      DeleteKeepsOrder(docs[1..], id);
      var rest := Delete(docs[1..], id);
      forall d | d in rest ensures docs[0].id < d.id {
        HeadIsOldest(docs, d);
      }
    }
  }

  /** Deleting an identifier that is present removes exactly one document. */
  lemma {:induction false} DeleteRemovesOne<T>(docs: seq<Doc<T>>, id: Id)
    requires Increasing(docs) && id in Ids(docs)
    ensures |Delete(docs, id)| == |docs| - 1
  {
    var d :| d in docs && d.id == id;
    if docs[0].id == id {
      forall e | e in docs[1..] ensures e.id != id {
        HeadIsOldest(docs, e);
      }
      DeleteAbsent(docs[1..], id);
    } else {
      assert d in docs[1..];
      DeleteRemovesOne(docs[1..], id);
    }
  }

  /** Deleting an identifier that is absent changes nothing. */
  lemma {:induction false} DeleteAbsent<T>(docs: seq<Doc<T>>, id: Id)
    requires forall d :: d in docs ==> d.id != id
    ensures Delete(docs, id) == docs
  {
    if docs != [] {
      assert forall d :: d in docs[1..] ==> d in docs;
      DeleteAbsent(docs[1..], id);
    }
  }

  /** Appending a document with a fresh, larger identifier keeps the table well formed. */
  lemma InsertKeepsIds<T>(docs: seq<Doc<T>>, next: Id, v: T)
    requires Increasing(docs) && Below(docs, next)
    ensures Increasing(docs + [Doc(next, v)]) && Below(docs + [Doc(next, v)], next + 1)
    ensures next !in Ids(docs)
    ensures Get(docs + [Doc(next, v)], next) == Some(v)
  {
  }

  /** Both tables and the identifier counter of one deployment. */
  class Database {
    var rooms: seq<Doc<Room>>
    var bookings: seq<Doc<Booking>>
    var nextId: Id

    /** Identifiers in each table are distinct, in creation order and below the counter. */
    ghost predicate Valid()
      reads this
    {
      && Increasing(rooms) && Below(rooms, nextId)
      && Increasing(bookings) && Below(bookings, nextId)
    }

    /** An empty deployment. */
    constructor ()
      ensures Valid()
      ensures rooms == [] && bookings == [] && nextId == 0
    {
      rooms, bookings, nextId := [], [], 0;
    }

    /** The store's `insert` into the rooms table. */
    method InsertRoom(room: Room) returns (id: Id)
      requires Valid()
      modifies this
      ensures Valid()
      ensures id == old(nextId) && id !in Ids(old(rooms))
      ensures rooms == old(rooms) + [Doc(id, room)]
      ensures nextId == old(nextId) + 1 && bookings == old(bookings)
    {
      InsertKeepsIds(rooms, nextId, room);
      id := nextId;
      rooms, nextId := rooms + [Doc(id, room)], nextId + 1;
    }

    /** The store's `insert` into the bookings table. */
    method InsertBooking(booking: Booking) returns (id: Id)
      requires Valid()
      modifies this
      ensures Valid()
      ensures id == old(nextId) && id !in Ids(old(bookings))
      ensures bookings == old(bookings) + [Doc(id, booking)]
      ensures nextId == old(nextId) + 1 && rooms == old(rooms)
    {
      InsertKeepsIds(bookings, nextId, booking);
      id := nextId;
      bookings, nextId := bookings + [Doc(id, booking)], nextId + 1;
    }

    /** The store's `delete` on the bookings table. */
    method DeleteBooking(id: Id)
      requires Valid()
      modifies this
      ensures Valid()
      ensures bookings == Delete(old(bookings), id)
      ensures id in Ids(old(bookings)) ==> |bookings| == |old(bookings)| - 1
      ensures nextId == old(nextId) && rooms == old(rooms)
    {
      DeleteKeepsOrder(bookings, id);
      if id in Ids(bookings) {
        DeleteRemovesOne(bookings, id);
      }
      bookings := Delete(bookings, id);
    }
  }
}
