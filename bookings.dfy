/** The bookings handlers: `create` and `cancel` change the bookings table;
    `listByUser` and `listByRoom` read it. The signed-in user, which the
    handlers obtain from the authentication library, is the explicit
    `caller` parameter (None when nobody is signed in). */
module Bookings {
  import opened Schema
  import opened Store

  /** The padding around a proposed booking, 1000 * 60 * 30 milliseconds. */
  const HalfHourMs: int := 1000 * 60 * 30

  /** The arguments of `create`. */
  datatype CreateArgs = CreateArgs(
    roomId: Id,
    startTime: int,
    endTime: int,
    title: string,
    description: Option<string>)

  /** The row `create` inserts: every argument, plus the caller as owner. */
  function NewBooking(args: CreateArgs, userId: UserId): Booking
  {
    Booking(args.roomId, userId, args.startTime, args.endTime, args.title, args.description)
  }

  /** The range query on the (roomId, startTime) index: the bookings of
      `roomId` whose start lies in [lo, hi], both ends included, kept in
      creation order. */
  function InRange(docs: seq<Doc<Booking>>, roomId: Id, lo: int, hi: int): (r: seq<Doc<Booking>>)
    ensures forall d :: d in r ==> d in docs && d.value.roomId == roomId && lo <= d.value.startTime <= hi
    ensures forall d :: d in docs && d.value.roomId == roomId && lo <= d.value.startTime <= hi ==> d in r
    ensures |r| <= |docs|
    ensures Increasing(docs) ==> Increasing(r)
  {
    if docs == [] then []
    else
      var rest := InRange(docs[1..], roomId, lo, hi);
      assert forall d :: d in docs ==> d == docs[0] || d in docs[1..];
      var b := docs[0].value;
      if b.roomId == roomId && lo <= b.startTime <= hi then [docs[0]] + rest else rest
  }

  /** The conflict rule of `create`: an existing booking blocks the proposed
      one when it is in the same room and its START lies in the proposed
      interval padded by half an hour on each side. Its end is not consulted. */
  predicate InConflictWindow(b: Booking, args: CreateArgs)
  {
    && b.roomId == args.roomId
    && args.startTime - HalfHourMs <= b.startTime <= args.endTime + HalfHourMs
  }

  /** Whether `create` finds the slot free: no stored booking is in the conflict window. */
  function IsFree(docs: seq<Doc<Booking>>, args: CreateArgs): (free: bool)
    ensures free <==> forall d :: d in docs ==> !InConflictWindow(d.value, args)
  {
    var hits := InRange(docs, args.roomId, args.startTime - HalfHourMs, args.endTime + HalfHourMs);
    assert hits != [] ==> hits[0] in hits;
    hits == []
  }

  /** `create`: authenticate, run the conflict query, then insert. */
  method Create(db: Database, caller: Option<UserId>, args: CreateArgs) returns (r: Result<Id>)
    requires db.Valid()
    modifies db
    ensures db.Valid() && db.rooms == old(db.rooms)
    ensures caller.None? ==> r == Err(NotAuthenticated)
    ensures caller.Some? && !IsFree(old(db.bookings), args) ==> r == Err(TimeSlotAlreadyBooked)
    ensures r.Err? ==> db.bookings == old(db.bookings) && db.nextId == old(db.nextId)
    ensures caller.Some? && IsFree(old(db.bookings), args) ==>
      && r == Ok(old(db.nextId))
      && r.value !in Ids(old(db.bookings))
      && db.bookings == old(db.bookings) + [Doc(r.value, NewBooking(args, caller.value))]
      && db.nextId == old(db.nextId) + 1
  {
    if caller.None? {
      return Err(NotAuthenticated);
    }
    var userId := caller.value;
    var conflicts := InRange(db.bookings, args.roomId, args.startTime - HalfHourMs, args.endTime + HalfHourMs);
    if |conflicts| > 0 {
      return Err(TimeSlotAlreadyBooked);
    }
    var id := db.InsertBooking(NewBooking(args, userId));
    r := Ok(id);
  }

  /** `cancel`: authenticate, look the booking up, check the owner, then delete. */
  method Cancel(db: Database, caller: Option<UserId>, bookingId: Id) returns (r: Result<()>)
    requires db.Valid()
    modifies db
    ensures db.Valid() && db.rooms == old(db.rooms) && db.nextId == old(db.nextId)
    ensures caller.None? ==> r == Err(NotAuthenticated)
    ensures caller.Some? && bookingId !in Ids(old(db.bookings)) ==> r == Err(BookingNotFound)
    ensures (caller.Some? && Get(old(db.bookings), bookingId).Some?
             && Get(old(db.bookings), bookingId).value.userId != caller.value) ==> r == Err(NotAuthorized)
    ensures r.Err? ==> db.bookings == old(db.bookings)
    ensures (caller.Some? && Get(old(db.bookings), bookingId).Some?
             && Get(old(db.bookings), bookingId).value.userId == caller.value) ==>
      && r == Ok(())
      && db.bookings == Delete(old(db.bookings), bookingId)
      && |db.bookings| == |old(db.bookings)| - 1
  {
    if caller.None? {
      return Err(NotAuthenticated);
    }
    var booking := Get(db.bookings, bookingId);
    if booking.None? {
      return Err(BookingNotFound);
    }
    if booking.value.userId != caller.value {
      return Err(NotAuthorized);
    }
    db.DeleteBooking(bookingId);
    r := Ok(());
  }

  /** `listByRoom`: the bookings of `roomId` whose start lies in [startTime, endTime]. */
  function ListByRoom(docs: seq<Doc<Booking>>, roomId: Id, startTime: int, endTime: int): (r: seq<Doc<Booking>>)
    ensures forall d :: d in r ==> d in docs && d.value.roomId == roomId
    ensures forall d :: d in r ==> startTime <= d.value.startTime <= endTime
    ensures forall d :: d in docs && d.value.roomId == roomId && startTime <= d.value.startTime <= endTime ==> d in r
    ensures Increasing(docs) ==> Increasing(r)
  {
    InRange(docs, roomId, startTime, endTime)
  }

  /** Identifiers strictly decrease along the list (newest first). */
  predicate Decreasing(docs: seq<Doc<Booking>>)
  {
    forall i, j :: 0 <= i < j < |docs| ==> docs[i].id > docs[j].id
  }

  /** The index query of `listByUser` in descending order: the bookings of
      `userId`, newest first. */
  function OwnedNewestFirst(docs: seq<Doc<Booking>>, userId: UserId): (r: seq<Doc<Booking>>)
    ensures forall d :: d in r ==> d in docs && d.value.userId == userId
    ensures forall d :: d in docs && d.value.userId == userId ==> d in r
  {
    if docs == [] then []
    else
      var last := docs[|docs| - 1];
      var rest := OwnedNewestFirst(docs[..|docs| - 1], userId);
      assert forall d :: d in docs ==> d == last || d in docs[..|docs| - 1];
      if last.value.userId == userId then [last] + rest else rest
  }

  /** In a well-formed table every earlier document is older than the last one. */
  lemma LastIsNewest(docs: seq<Doc<Booking>>, d: Doc<Booking>)
    requires Increasing(docs) && docs != [] && d in docs[..|docs| - 1]
    ensures d.id < docs[|docs| - 1].id
  {
  }

  /** The caller's bookings come newest first. */
  lemma {:induction false} OwnedNewestFirstIsDecreasing(docs: seq<Doc<Booking>>, userId: UserId)
    ensures Increasing(docs) ==> Decreasing(OwnedNewestFirst(docs, userId))
  {
    if docs != [] && Increasing(docs) {
      var prefix := docs[..|docs| - 1];
      OwnedNewestFirstIsDecreasing(prefix, userId);
      forall d | d in OwnedNewestFirst(prefix, userId) ensures d.id < docs[|docs| - 1].id {
        LastIsNewest(docs, d);
      }
    }
  }

  /** A booking of the caller joined with the room document it names. */
  datatype BookingWithRoom = BookingWithRoom(booking: Doc<Booking>, room: Doc<Room>)

  /** The bookings of a joined list, in order. */
  function BookingsOf(xs: seq<BookingWithRoom>): (r: seq<Doc<Booking>>)
    ensures |r| == |xs| && forall i :: 0 <= i < |xs| ==> r[i] == xs[i].booking
  {
    seq(|xs|, i requires 0 <= i < |xs| => xs[i].booking)
  }

  /** `x` pairs a booking with the room document its roomId names. */
  predicate Joined(x: BookingWithRoom, rooms: seq<Doc<Room>>)
  {
    x.room.id == x.booking.value.roomId && Get(rooms, x.room.id) == Some(x.room.value)
  }

  /** The room join of `listByUser`: each booking with the room its roomId
      names. The lookup map is built by dereferencing every fetched room, so
      one missing room makes the whole query throw. */
  function JoinRooms(mine: seq<Doc<Booking>>, rooms: seq<Doc<Room>>): (r: Result<seq<BookingWithRoom>>)
    ensures r.Ok? <==> forall d :: d in mine ==> d.value.roomId in Ids(rooms)
    ensures r.Err? ==> r.error == RoomMissing
    ensures r.Ok? ==> |r.value| == |mine|
    ensures r.Ok? ==> forall i :: 0 <= i < |mine| ==> r.value[i].booking == mine[i] && Joined(r.value[i], rooms)
  {
    if mine == [] then Ok([])
    else
      var roomId := mine[0].value.roomId;
      match Get(rooms, roomId)
      case None => Err(RoomMissing)
      case Some(room) =>
        match JoinRooms(mine[1..], rooms)
        case Err(e) =>
          assert forall d :: d in mine[1..] ==> d in mine;
          Err(e)
        case Ok(rest) =>
          assert forall d :: d in mine ==> d == mine[0] || d in mine[1..];
          Ok([BookingWithRoom(mine[0], Doc(roomId, room))] + rest)
  }

  /** `listByUser`: nothing for an anonymous caller; otherwise the caller's
      bookings, newest first, each joined with its room. */
  function ListByUser(caller: Option<UserId>, bookings: seq<Doc<Booking>>, rooms: seq<Doc<Room>>)
    : (r: Result<seq<BookingWithRoom>>)
    ensures caller.None? ==> r == Ok([])
    ensures caller.Some? ==>
      (r.Ok? <==> forall d :: d in bookings && d.value.userId == caller.value ==> d.value.roomId in Ids(rooms))
    ensures r.Err? ==> r.error == RoomMissing
    ensures caller.Some? && r.Ok? ==>
      && (forall d :: d in BookingsOf(r.value) ==> d in bookings && d.value.userId == caller.value)
      && (forall d :: d in bookings && d.value.userId == caller.value ==> d in BookingsOf(r.value))
    ensures r.Ok? && Increasing(bookings) ==> Decreasing(BookingsOf(r.value))
    ensures r.Ok? ==> forall x :: x in r.value ==> Joined(x, rooms)
  {
    match caller
    case None => Ok([])
    case Some(userId) =>
      OwnedNewestFirstIsDecreasing(bookings, userId);
      JoinRooms(OwnedNewestFirst(bookings, userId), rooms)
  }
}
