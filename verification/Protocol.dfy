/** Each transactional operation as a function from the tables before it to the tables, result and events after it. */
module Protocol {
  import opened Wrappers
  import opened Domain
  import opened Tables

  datatype Outcome<T> = Outcome(db: Db, result: Result<T, ErrorCode>, events: seq<Event>)

  function Reject<T>(db: Db, error: ErrorCode): Outcome<T> {
    Outcome(db, Failure(error), [])
  }

  function RoomOf(db: Db, s: SlotId): Option<RoomId> {
    if s in db.slots then Some(db.slots[s].roomID) else None
  }

  // Events to a room are published only when the room of the slot is known.
  function ReservedNotice(room: Option<RoomId>, s: SlotId, id: nat): seq<Event> {
    if room.Some? then [SlotReserved(room.value, s, id)] else []
  }

  function AvailableNotice(room: Option<RoomId>, s: SlotId): seq<Event> {
    if room.Some? then [SlotAvailable(room.value, s)] else []
  }

  // ---- Row changes ----

  function CancelBookingRow(rows: seq<Booking>, id: nat): seq<Booking>
    requires id < |rows|
  {
    rows[id := rows[id].(status := BookingStatus.Cancelled)]
  }

  function EndReservationRow(rows: seq<SlotReservation>, id: nat, ended: SlotReservation): seq<SlotReservation>
    requires id < |rows|
  {
    rows[id := ended]
  }

  function CancelledReservation(r: SlotReservation): SlotReservation {
    r.(status := ReservationStatus.Cancelled)
  }

  function ExpiredReservation(r: SlotReservation, now: Time): SlotReservation {
    r.(status := ReservationStatus.Expired, expiredAt := Some(now))
  }

  function ConfirmedReservation(r: SlotReservation, now: Time): SlotReservation {
    r.(status := ReservationStatus.Confirmed, confirmedAt := Some(now))
  }

  function ClaimRow(rows: seq<WaitlistEntry>, e: nat, dbNow: Time): seq<WaitlistEntry>
    requires e < |rows|
  {
    rows[e := rows[e].(status := WaitlistStatus.Notified, notifiedAt := Some(dbNow))]
  }

  function LeaveRow(rows: seq<WaitlistEntry>, e: nat): seq<WaitlistEntry>
    requires e < |rows|
  {
    rows[e := rows[e].(status := WaitlistStatus.Cancelled)]
  }

  function NewReservation(s: SlotId, u: UserId, e: nat, now: Time, ttl: Time): SlotReservation {
    SlotReservation(s, u, Some(e), ReservationStatus.Active, now + ttl, now, None, None)
  }

  // ---- Promotion: claim the next waiter and reserve the slot for them ----

  datatype Promoted = Promoted(db: Db, entry: Option<nat>)

  function Claim(db: Db, s: SlotId, e: nat, now: Time, dbNow: Time, ttl: Time): Db
    requires e < |db.waitlist|
  {
    db.(waitlist := ClaimRow(db.waitlist, e, dbNow),
        reservations := db.reservations + [NewReservation(s, db.waitlist[e].userID, e, now, ttl)])
  }

  function Promote(db: Db, s: SlotId, now: Time, dbNow: Time, ttl: Time): Result<Promoted, ErrorCode> {
    match NextWaiting(db.waitlist, s)
    case None => Success(Promoted(db, None))
    case Some(e) =>
      if FindActiveReservation(db.reservations, s).Some? then Failure(InternalError)
      else Success(Promoted(Claim(db, s, e, now, dbNow, ttl), Some(e)))
  }

  // What is published for a promotion out of db.
  function PromotionEvents(db: Db, s: SlotId, e: nat, now: Time, ttl: Time): seq<Event>
    requires e < |db.waitlist|
  {
    var id := |db.reservations|;
    ReservedNotice(RoomOf(db, s), s, id)
    + [WaitlistSlotReserved(RoomOf(db, s), s, db.waitlist[e].userID, id, e, now + ttl)]
  }

  // ---- Operations ----

  function CreateBooking(db: Db, user: User, s: SlotId, now: Time): Outcome<Keyed<Booking>> {
    if user.role != RoleUser then Reject(db, Forbidden)
    else if s !in db.slots then Reject(db, SlotNotFound)
    else if db.slots[s].start < now then Reject(db, InvalidRequest)
    else if FindActiveReservation(db.reservations, s).Some? then Reject(db, SlotIsReserved)
    else if FindActiveBooking(db.bookings, s).Some? then Reject(db, SlotAlreadyBooked)
    else
      var b := Booking(user.id, s, BookingStatus.Active, now);
      var id := |db.bookings|;
      Outcome(db.(bookings := db.bookings + [b]), Success(Keyed(id, b)), [SlotBooked(db.slots[s].roomID, s, id)])
  }

  function CancelBooking(db: Db, user: User, id: nat, now: Time, dbNow: Time, ttl: Time): Outcome<Keyed<Booking>> {
    if user.role != RoleUser then Reject(db, Forbidden)
    else if id >= |db.bookings| then Reject(db, BookingNotFound)
    else if db.bookings[id].userID != user.id then Reject(db, Forbidden)
    else if !db.bookings[id].status.Active? then Outcome(db, Success(Keyed(id, db.bookings[id])), [])
    else
      var s := db.bookings[id].slotID;
      var freed := db.(bookings := CancelBookingRow(db.bookings, id));
      match Promote(freed, s, now, dbNow, ttl)
      case Failure(error) => Reject(db, error)
      case Success(p) =>
        var room := RoomOf(db, s);
        var events :=
          if room.None? then []
          else if p.entry.Some? then PromotionEvents(freed, s, p.entry.value, now, ttl)
          else [SlotReleased(room.value, s, id)];
        Outcome(p.db, Success(Keyed(id, freed.bookings[id])), events)
  }

  function JoinWaitlist(db: Db, user: User, s: SlotId, now: Time, createdAt: Time): Outcome<Keyed<WaitlistEntry>> {
    if user.role != RoleUser then Reject(db, Forbidden)
    else if s !in db.slots then Reject(db, SlotNotFound)
    else if db.slots[s].start < now then Reject(db, InvalidRequest)
    else
      match FindActiveBooking(db.bookings, s)
      case None => Reject(db, SlotNotBooked)
      case Some(b) =>
        if db.bookings[b].userID == user.id then Reject(db, InvalidRequest)
        // The sequence has advanced by the time the unique index refuses the row, and is not rolled back.
        else if FindPending(db.waitlist, s, user.id).Some? then
          Reject(db.(nextPosition := db.nextPosition + 1), WaitlistJoined)
        else
          var e := WaitlistEntry(s, user.id, WaitlistStatus.Active, db.nextPosition, createdAt, None);
          Outcome(db.(waitlist := db.waitlist + [e], nextPosition := db.nextPosition + 1),
                  Success(Keyed(|db.waitlist|, e)), [])
  }

  function LeaveWaitlist(db: Db, user: User, id: nat): Outcome<Keyed<WaitlistEntry>> {
    if user.role != RoleUser then Reject(db, Forbidden)
    else if id >= |db.waitlist| || db.waitlist[id].userID != user.id then Reject(db, WaitlistNotFound)
    else if db.waitlist[id].status.Active? || db.waitlist[id].status.Notified? then
      var rows := LeaveRow(db.waitlist, id);
      Outcome(db.(waitlist := rows), Success(Keyed(id, rows[id])), [])
    else Outcome(db, Success(Keyed(id, db.waitlist[id])), [])
  }

  datatype Confirmation = Confirmation(booking: Keyed<Booking>, reservation: Keyed<SlotReservation>)

  function ConfirmReservation(db: Db, user: User, id: nat, now: Time): Outcome<Confirmation> {
    if user.role != RoleUser then Reject(db, Forbidden)
    else if id >= |db.reservations| then Reject(db, ReservationNotFound)
    else
      var r := db.reservations[id];
      if r.userID != user.id then Reject(db, Forbidden)
      else if !r.status.Active? then Reject(db, InvalidRequest)
      else if r.expiresAt <= now then Reject(db, InvalidRequest)
      else if FindActiveBooking(db.bookings, r.slotID).Some? then Reject(db, SlotAlreadyBooked)
      else if r.slotID !in db.slots then Reject(db, SlotNotFound)
      else if db.slots[r.slotID].start < now then Reject(db, InvalidRequest)
      else
        var b := Booking(user.id, r.slotID, BookingStatus.Active, now);
        var confirmed := ConfirmedReservation(r, now);
        Outcome(
          db.(bookings := db.bookings + [b], reservations := EndReservationRow(db.reservations, id, confirmed)),
          Success(Confirmation(Keyed(|db.bookings|, b), Keyed(id, confirmed))),
          [SlotBooked(db.slots[r.slotID].roomID, r.slotID, |db.bookings|)])
  }

  function CancelReservation(db: Db, user: User, id: nat, now: Time, dbNow: Time, ttl: Time)
    : Outcome<Keyed<SlotReservation>>
  {
    if user.role != RoleUser then Reject(db, Forbidden)
    else if id >= |db.reservations| then Reject(db, ReservationNotFound)
    else
      var r := db.reservations[id];
      if r.userID != user.id then Reject(db, Forbidden)
      else if !r.status.Active? then Outcome(db, Success(Keyed(id, r)), [])
      else
        var s := r.slotID;
        var cancelled := CancelledReservation(r);
        var freed := db.(reservations := EndReservationRow(db.reservations, id, cancelled));
        match Promote(freed, s, now, dbNow, ttl)
        case Failure(error) => Reject(db, error)
        case Success(p) =>
          var events :=
            if p.entry.Some? then PromotionEvents(freed, s, p.entry.value, now, ttl)
            else AvailableNotice(RoomOf(db, s), s);
          Outcome(p.db, Success(Keyed(id, cancelled)), events)
  }

  // ---- Expiry: one batch update, then one promotion for each expired row ----

  // UPDATE slot_reservations SET status = 'expired', expired_at = now WHERE id IN picked
  function ExpireRows(rows: seq<SlotReservation>, picked: seq<nat>, now: Time): seq<SlotReservation> {
    seq(|rows|, i requires 0 <= i < |rows| => if i in picked then ExpiredReservation(rows[i], now) else rows[i])
  }

  datatype Replacement = Replacement(slotID: SlotId, userID: UserId, entryID: nat, reservationID: nat, expiresAt: Time)

  datatype Batch = Batch(db: Db, replacements: seq<Replacement>)

  function PromoteOne(batch: Batch, s: SlotId, now: Time, dbNow: Time, ttl: Time): Result<Batch, ErrorCode> {
    var p :- Promote(batch.db, s, now, dbNow, ttl);
    Success(Batch(
              p.db,
              if p.entry.None? then batch.replacements
              else batch.replacements
                   + [Replacement(s, batch.db.waitlist[p.entry.value].userID, p.entry.value,
                                  |batch.db.reservations|, now + ttl)]))
  }

  function PromoteAll(batch: Batch, slots: seq<SlotId>, now: Time, dbNow: Time, ttl: Time): Result<Batch, ErrorCode>
    decreases |slots|
  {
    if slots == [] then Success(batch)
    else
      var next :- PromoteOne(batch, slots[0], now, dbNow, ttl);
      PromoteAll(next, slots[1..], now, dbNow, ttl)
  }

  function SlotsOf(rows: seq<SlotReservation>, picked: seq<nat>): seq<SlotId>
    requires forall k | 0 <= k < |picked| :: picked[k] < |rows|
  {
    seq(|picked|, k requires 0 <= k < |picked| => rows[picked[k]].slotID)
  }

  predicate Replaced(replacements: seq<Replacement>, s: SlotId) {
    exists i | 0 <= i < |replacements| :: replacements[i].slotID == s
  }

  function ExpiryNotice(db: Db, id: nat, replaced: bool): seq<Event>
    requires id < |db.reservations|
  {
    var r := db.reservations[id];
    var room := RoomOf(db, r.slotID);
    [ReservationExpired(room, r.slotID, r.userID, id)]
    + (if room.None? then []
       else [SlotReservationExpired(room.value, r.slotID, id)]
            + if replaced then [] else [SlotAvailable(room.value, r.slotID)])
  }

  function ExpiryNotices(db: Db, picked: seq<nat>, replacements: seq<Replacement>): seq<Event>
    requires forall k | 0 <= k < |picked| :: picked[k] < |db.reservations|
  {
    if picked == [] then []
    else
      ExpiryNotice(db, picked[0], Replaced(replacements, db.reservations[picked[0]].slotID))
      + ExpiryNotices(db, picked[1..], replacements)
  }

  function ReplacementNotice(db: Db, r: Replacement): seq<Event> {
    ReservedNotice(RoomOf(db, r.slotID), r.slotID, r.reservationID)
    + [WaitlistSlotReserved(RoomOf(db, r.slotID), r.slotID, r.userID, r.reservationID, r.entryID, r.expiresAt)]
  }

  function ReplacementNotices(db: Db, replacements: seq<Replacement>): seq<Event> {
    if replacements == [] then []
    else ReplacementNotice(db, replacements[0]) + ReplacementNotices(db, replacements[1..])
  }

  // The tables after an expiry; picked is the answer of the expiry query.
  function AfterExpiry(db: Db, picked: seq<nat>, now: Time, dbNow: Time, ttl: Time): Db
    requires forall k | 0 <= k < |picked| :: picked[k] < |db.reservations|
  {
    var expired := db.(reservations := ExpireRows(db.reservations, picked, now));
    match PromoteAll(Batch(expired, []), SlotsOf(db.reservations, picked), now, dbNow, ttl)
    case Failure(_) => db
    case Success(batch) => batch.db
  }

  function ExpireDue(db: Db, picked: seq<nat>, now: Time, dbNow: Time, ttl: Time): Outcome<()>
    requires forall k | 0 <= k < |picked| :: picked[k] < |db.reservations|
  {
    var expired := db.(reservations := ExpireRows(db.reservations, picked, now));
    match PromoteAll(Batch(expired, []), SlotsOf(db.reservations, picked), now, dbNow, ttl)
    case Failure(error) => Reject(db, error)
    case Success(batch) =>
      Outcome(batch.db, Success(()),
              ExpiryNotices(db, picked, batch.replacements) + ReplacementNotices(db, batch.replacements))
  }

  // The most rows a batch takes: as configured when that is positive, the default otherwise.
  function BatchLimit(configured: int): (limit: nat)
    ensures limit > 0
    ensures configured > 0 ==> limit == configured
    ensures configured <= 0 ==> limit == DEFAULT_EXPIRATION_BATCH
  {
    if configured <= 0 then DEFAULT_EXPIRATION_BATCH else configured
  }

  // ---- Runs ----

  // One committed or aborted transaction. AddSlots is the slot generator storing new slots; Abort is any
  // transaction rolled back for an infrastructure failure: only the position sequence may have moved.
  datatype Op =
    | OpCreateBooking(user: User, slotID: SlotId, now: Time)
    | OpCancelBooking(user: User, id: nat, now: Time, dbNow: Time)
    | OpJoinWaitlist(user: User, slotID: SlotId, now: Time, createdAt: Time)
    | OpLeaveWaitlist(user: User, id: nat)
    | OpConfirmReservation(user: User, id: nat, now: Time)
    | OpCancelReservation(user: User, id: nat, now: Time, dbNow: Time)
    | OpExpireDue(picked: seq<nat>, now: Time, dbNow: Time, limit: nat)
    | OpAddSlots(added: map<SlotId, Slot>)
    | OpAbort(burned: nat)

  // The expiry query's answer must be one it can give; every other operation may be attempted in any state.
  ghost predicate Possible(db: Db, op: Op) {
    op.OpExpireDue? ==> ExpiryAnswer(db.reservations, op.now, op.limit, op.picked)
  }

  // What each kind of operation does.

  function CreateOf(db: Db, op: Op): Outcome<Keyed<Booking>>
    requires op.OpCreateBooking?
  {
    CreateBooking(db, op.user, op.slotID, op.now)
  }

  function CancelOf(db: Db, op: Op, ttl: Time): Outcome<Keyed<Booking>>
    requires op.OpCancelBooking?
  {
    CancelBooking(db, op.user, op.id, op.now, op.dbNow, ttl)
  }

  function JoinOf(db: Db, op: Op): Outcome<Keyed<WaitlistEntry>>
    requires op.OpJoinWaitlist?
  {
    JoinWaitlist(db, op.user, op.slotID, op.now, op.createdAt)
  }

  function LeaveOf(db: Db, op: Op): Outcome<Keyed<WaitlistEntry>>
    requires op.OpLeaveWaitlist?
  {
    LeaveWaitlist(db, op.user, op.id)
  }

  function ConfirmOf(db: Db, op: Op): Outcome<Confirmation>
    requires op.OpConfirmReservation?
  {
    ConfirmReservation(db, op.user, op.id, op.now)
  }

  function DeclineOf(db: Db, op: Op, ttl: Time): Outcome<Keyed<SlotReservation>>
    requires op.OpCancelReservation?
  {
    CancelReservation(db, op.user, op.id, op.now, op.dbNow, ttl)
  }

  ghost function ExpiryOf(db: Db, op: Op, ttl: Time): Outcome<()>
    requires op.OpExpireDue? && Possible(db, op)
  {
    ExpireDue(db, op.picked, op.now, op.dbNow, ttl)
  }

  ghost function ExpiredBy(db: Db, op: Op, ttl: Time): Db
    requires op.OpExpireDue? && Possible(db, op)
  {
    AfterExpiry(db, op.picked, op.now, op.dbNow, ttl)
  }

  ghost function Apply(db: Db, op: Op, ttl: Time): Db
    requires Possible(db, op)
  {
    match op
    case OpCreateBooking(_, _, _) => CreateOf(db, op).db
    case OpCancelBooking(_, _, _, _) => CancelOf(db, op, ttl).db
    case OpJoinWaitlist(_, _, _, _) => JoinOf(db, op).db
    case OpLeaveWaitlist(_, _) => LeaveOf(db, op).db
    case OpConfirmReservation(_, _, _) => ConfirmOf(db, op).db
    case OpCancelReservation(_, _, _, _) => DeclineOf(db, op, ttl).db
    case OpExpireDue(_, _, _, _) => ExpiredBy(db, op, ttl)
    case OpAddSlots(added) => db.(slots := added + db.slots)
    case OpAbort(burned) => db.(nextPosition := db.nextPosition + burned)
  }

  ghost function Published(db: Db, op: Op, ttl: Time): seq<Event>
    requires Possible(db, op)
  {
    match op
    case OpCreateBooking(_, _, _) => CreateOf(db, op).events
    case OpCancelBooking(_, _, _, _) => CancelOf(db, op, ttl).events
    case OpJoinWaitlist(_, _, _, _) => JoinOf(db, op).events
    case OpLeaveWaitlist(_, _) => LeaveOf(db, op).events
    case OpConfirmReservation(_, _, _) => ConfirmOf(db, op).events
    case OpCancelReservation(_, _, _, _) => DeclineOf(db, op, ttl).events
    case OpExpireDue(_, _, _, _) => ExpiryOf(db, op, ttl).events
    case OpAddSlots(_) => []
    case OpAbort(_) => []
  }

  // run[k] is the state before ops[k]; run[|ops|] the state at the end.
  ghost predicate IsRun(run: seq<Db>, ops: seq<Op>, ttl: Time) {
    && |run| == |ops| + 1
    && forall k | 0 <= k < |ops| :: Possible(run[k], ops[k]) && run[k + 1] == Apply(run[k], ops[k], ttl)
  }

  ghost predicate Initial(db: Db) {
    db.bookings == [] && db.waitlist == [] && db.reservations == []
  }
}
