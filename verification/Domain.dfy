/** Failure-compatible result types shared by every component. */
module Wrappers {
  datatype Option<+T> = None | Some(value: T)

  datatype Result<+T, +E> = Success(value: T) | Failure(error: E) {
    predicate IsFailure() {
      Failure?
    }

    function PropagateFailure<U>(): Result<U, E>
      requires Failure?
    {
      Failure(error)
    }

    function Extract(): T
      requires Success?
    {
      value
    }
  }
}

/** The rows of the booking tables, the error codes and the published events. */
module Domain {
  import opened Wrappers

  type UserId = nat
  type RoomId = nat
  type SlotId = nat

  // Nanoseconds since 1 January 1970 00:00 UTC, or a difference of two such instants.
  type Time = int

  const MINUTE: Time := 60_000_000_000
  const DAY: Time := 1440 * MINUTE

  // Used when the configured time to live is not positive.
  const DEFAULT_RESERVATION_TTL: Time := 5 * MINUTE
  const DEFAULT_EXPIRATION_BATCH: nat := 100

  datatype Role = RoleAdmin | RoleUser

  datatype User = User(id: UserId, role: Role)

  datatype Slot = Slot(roomID: RoomId, start: Time, end: Time)

  datatype BookingStatus = Active | Cancelled

  datatype Booking = Booking(userID: UserId, slotID: SlotId, status: BookingStatus, createdAt: Time)

  datatype WaitlistStatus = Active | Notified | Cancelled | Expired

  datatype WaitlistEntry = WaitlistEntry(
    slotID: SlotId,
    userID: UserId,
    status: WaitlistStatus,
    position: nat,
    createdAt: Time,
    notifiedAt: Option<Time>)

  datatype ReservationStatus = Active | Confirmed | Expired | Cancelled

  datatype SlotReservation = SlotReservation(
    slotID: SlotId,
    userID: UserId,
    waitlistEntryID: Option<nat>,
    status: ReservationStatus,
    expiresAt: Time,
    createdAt: Time,
    confirmedAt: Option<Time>,
    expiredAt: Option<Time>)

  // A row together with its primary key.
  datatype Keyed<+T> = Keyed(id: nat, row: T)

  datatype ErrorCode =
    | InvalidRequest
    | Forbidden
    | RoomNotFound
    | ScheduleExists
    | SlotNotFound
    | SlotAlreadyBooked
    | SlotIsReserved
    | SlotNotBooked
    | BookingNotFound
    | ReservationNotFound
    | WaitlistNotFound
    | WaitlistJoined
    | InternalError

  datatype Event =
    | SlotBooked(roomID: RoomId, slotID: SlotId, bookingID: nat)
    | SlotReleased(roomID: RoomId, slotID: SlotId, bookingID: nat)
    | SlotAvailable(roomID: RoomId, slotID: SlotId)
    | SlotReserved(roomID: RoomId, slotID: SlotId, reservationID: nat)
    | SlotReservationExpired(roomID: RoomId, slotID: SlotId, reservationID: nat)
    | WaitlistSlotReserved(room: Option<RoomId>, slotID: SlotId, userID: UserId, reservationID: nat,
                           entryID: nat, expiresAt: Time)
    | ReservationExpired(room: Option<RoomId>, slotID: SlotId, userID: UserId, reservationID: nat)

  // The time to live a service uses: the configured one when positive, the default otherwise.
  function EffectiveTTL(configured: Time): (ttl: Time)
    ensures ttl > 0
    ensures configured > 0 ==> ttl == configured
    ensures configured <= 0 ==> ttl == DEFAULT_RESERVATION_TTL
  {
    if configured > 0 then configured else DEFAULT_RESERVATION_TTL
  }
}
