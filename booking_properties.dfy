/** What the bookings handlers guarantee, and what they do not: the conflict
    rule looks only at the start of existing bookings, and a cancelled booking
    drops out of both listings. */
module BookingProperties {
  import opened Schema
  import opened Store
  import opened Bookings

  /** Clock units in milliseconds; times below are counted from midnight. */
  const Hour: int := 60 * 60 * 1000
  const Minute: int := 60 * 1000

  /** Bookings of other rooms never make a slot busy: adding any number of
      them to the table does not change the verdict. */
  lemma OtherRoomsIrrelevant(docs: seq<Doc<Booking>>, others: seq<Doc<Booking>>, args: CreateArgs)
    requires forall d :: d in others ==> d.value.roomId != args.roomId
    ensures IsFree(docs + others, args) == IsFree(docs, args)
  {
  }

  /** A room without bookings is always free, whatever the interval. */
  lemma EmptyRoomIsFree(docs: seq<Doc<Booking>>, args: CreateArgs)
    requires forall d :: d in docs ==> d.value.roomId != args.roomId
    ensures IsFree(docs, args)
  {
  }

  /** The rule ignores end times: a booking of the same room that starts more
      than half an hour before the proposed start never blocks, however late
      it ends. */
  lemma EarlierStartNeverBlocks(docs: seq<Doc<Booking>>, args: CreateArgs)
    requires forall d :: d in docs && d.value.roomId == args.roomId ==>
      d.value.startTime < args.startTime - HalfHourMs
    ensures IsFree(docs, args)
  {
  }

  /** Nothing checks that start precedes end: an interval whose end lies more
      than an hour before its start gives an empty window, so it is free in
      every table. */
  lemma InvertedIntervalIsFree(docs: seq<Doc<Booking>>, args: CreateArgs)
    requires args.endTime + 2 * HalfHourMs < args.startTime
    ensures IsFree(docs, args)
  {
  }

  /** Two intervals of one room are at most half an hour apart: the gap
      between them, if any, is 30 minutes or less. */
  predicate Near(b: Booking, args: CreateArgs)
  {
    && b.roomId == args.roomId
    && b.startTime <= args.endTime + HalfHourMs
    && args.startTime <= b.endTime + HalfHourMs
  }

  /** Every conflict the rule reports is real: an existing, well-ordered
      booking in the conflict window is near the proposed interval. */
  lemma ReportedConflictIsNear(b: Booking, args: CreateArgs)
    requires b.startTime <= b.endTime
    requires InConflictWindow(b, args)
    ensures Near(b, args)
  {
  }

  /** The converse fails: a booking from 8:00 to 12:00 encloses a proposed
      10:00 to 11:00 in the same room, yet the slot is reported free. */
  lemma EnclosingBookingIsMissed()
    ensures
      var existing := Booking(1, 7, 8 * Hour, 12 * Hour, "all morning", None);
      var proposed := CreateArgs(1, 10 * Hour, 11 * Hour, "stand-up", None);
      && existing.startTime <= proposed.startTime && proposed.endTime <= existing.endTime
      && Near(existing, proposed)
      && IsFree([Doc(0, existing)], proposed)
  {
  }

  /** Room R holds A = [10:00, 11:00]. B = [10:15, 10:45] is refused because
      A starts inside [9:45, 11:15]; C = [8:00, 9:15] is accepted because
      A's start is outside [7:30, 9:45]. */
  method ConflictScenario() returns (a: Result<Id>, b: Result<Id>, c: Result<Id>)
    ensures a == Ok(0)
    ensures b == Err(TimeSlotAlreadyBooked)
    ensures c == Ok(1)
  {
    var db := new Database();
    var alice, bob := 1, 2;
    a := Create(db, Some(alice), CreateArgs(5, 10 * Hour, 11 * Hour, "A", None));
    assert db.bookings == [Doc(0, Booking(5, alice, 10 * Hour, 11 * Hour, "A", None))];
    b := Create(db, Some(bob), CreateArgs(5, 10 * Hour + 15 * Minute, 10 * Hour + 45 * Minute, "B", None));
    assert !InConflictWindow(db.bookings[0].value, CreateArgs(5, 8 * Hour, 9 * Hour + 15 * Minute, "C", None));
    c := Create(db, Some(bob), CreateArgs(5, 8 * Hour, 9 * Hour + 15 * Minute, "C", None));
  }

  /** Only the owner may cancel: another user's attempt fails and the booking stays. */
  method ForeignCancelScenario() returns (r: Result<()>, left: seq<Doc<Booking>>)
    ensures r == Err(NotAuthorized)
    ensures |left| == 1 && left[0].value.userId == 1
  {
    var db := new Database();
    var created := Create(db, Some(1), CreateArgs(5, 10 * Hour, 11 * Hour, "A", None));
    assert db.bookings == [Doc(0, Booking(5, 1, 10 * Hour, 11 * Hour, "A", None))];
    r := Cancel(db, Some(2), 0);
    left := db.bookings;
  }

  /** A cancelled booking appears in no listing of the remaining table. */
  lemma CancelledBookingIsUnlisted(
    bookings: seq<Doc<Booking>>, rooms: seq<Doc<Room>>, id: Id,
    caller: Option<UserId>, roomId: Id, startTime: int, endTime: int)
    ensures forall d :: d in ListByRoom(Delete(bookings, id), roomId, startTime, endTime) ==> d.id != id
    ensures var r := ListByUser(caller, Delete(bookings, id), rooms);
      r.Ok? ==> forall x :: x in r.value ==> x.booking.id != id
  {
  }

  /** A booking just inserted by `create` is listed: by `listByRoom` for any
      range holding its start, and first (newest) in its owner's
      `listByUser` whenever that query succeeds. */
  lemma CreatedBookingIsListed(
    bookings: seq<Doc<Booking>>, rooms: seq<Doc<Room>>, id: Id, b: Booking, startTime: int, endTime: int)
    requires startTime <= b.startTime <= endTime
    ensures Doc(id, b) in ListByRoom(bookings + [Doc(id, b)], b.roomId, startTime, endTime)
    ensures var r := ListByUser(Some(b.userId), bookings + [Doc(id, b)], rooms);
      r.Ok? ==> |r.value| > 0 && r.value[0].booking == Doc(id, b)
  {
  }
}
