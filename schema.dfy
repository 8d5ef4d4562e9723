/** Record shapes of the two tables, the stored-document wrapper and the
    errors the handlers raise. Timestamps are integer milliseconds. */
module Schema {

  /** Identifiers the store assigns to documents (rooms and bookings). */
  type Id = nat

  /** Identifiers of authenticated users. */
  type UserId = nat

  datatype Option<+T> = None | Some(value: T)

  /** The result of a handler: a value, or the error it throws. */
  datatype Result<+T> = Ok(value: T) | Err(error: Error)

  /** A row of the rooms table. */
  datatype Room = Room(
    name: string,
    capacity: int,
    description: string,
    image: string,
    contactPerson: string)

  /** A row of the bookings table. */
  datatype Booking = Booking(
    roomId: Id,
    userId: UserId,
    startTime: int,
    endTime: int,
    title: string,
    description: Option<string>)

  /** A stored document: the identifier the store gave it and its fields. */
  datatype Doc<+T> = Doc(id: Id, value: T)

  datatype Error =
    /** "Not authenticated": a write handler was called without a signed-in user. */
    | NotAuthenticated
    /** "Time slot already booked": the conflict window of create is not empty. */
    | TimeSlotAlreadyBooked
    /** "Booking not found": cancel named an id with no booking. */
    | BookingNotFound
    /** "Not authorized": cancel was called by someone other than the owner. */
    | NotAuthorized
    /** The store refuses to patch a document that does not exist. */
    | NonexistentDocument
    /** The join in listByUser dereferences a room lookup that came back empty. */
    | RoomMissing
}
