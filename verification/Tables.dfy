/** The three tables as values, and the meaning of the queries the repositories send to them. */
module Tables {
  import opened Wrappers
  import opened Domain

  // Row i of a table is the row whose primary key is i; rows are never deleted.
  // nextPosition is the BIGSERIAL behind waitlist_entries.position.
  datatype Db = Db(
    slots: map<SlotId, Slot>,
    bookings: seq<Booking>,
    waitlist: seq<WaitlistEntry>,
    reservations: seq<SlotReservation>,
    nextPosition: nat)

  predicate Books(b: Booking, s: SlotId) {
    b.status.Active? && b.slotID == s
  }

  predicate Reserves(r: SlotReservation, s: SlotId) {
    r.status.Active? && r.slotID == s
  }

  predicate Waits(e: WaitlistEntry, s: SlotId) {
    e.status.Active? && e.slotID == s
  }

  // The rows covered by uq_waitlist_slot_user_active_or_notified.
  predicate Pending(e: WaitlistEntry, s: SlotId, u: UserId) {
    (e.status.Active? || e.status.Notified?) && e.slotID == s && e.userID == u
  }

  predicate Due(r: SlotReservation, now: Time) {
    r.status.Active? && r.expiresAt <= now
  }

  function FindActiveBooking(rows: seq<Booking>, s: SlotId): (r: Option<nat>)
    ensures r.Some? ==> r.value < |rows| && Books(rows[r.value], s)
    ensures r.None? ==> forall i | 0 <= i < |rows| :: !Books(rows[i], s)
  {
    if |rows| == 0 then None
    else if Books(rows[|rows| - 1], s) then Some(|rows| - 1)
    else FindActiveBooking(rows[..|rows| - 1], s)
  }

  function FindActiveReservation(rows: seq<SlotReservation>, s: SlotId): (r: Option<nat>)
    ensures r.Some? ==> r.value < |rows| && Reserves(rows[r.value], s)
    ensures r.None? ==> forall i | 0 <= i < |rows| :: !Reserves(rows[i], s)
  {
    if |rows| == 0 then None
    else if Reserves(rows[|rows| - 1], s) then Some(|rows| - 1)
    else FindActiveReservation(rows[..|rows| - 1], s)
  }

  function FindPending(rows: seq<WaitlistEntry>, s: SlotId, u: UserId): (r: Option<nat>)
    ensures r.Some? ==> r.value < |rows| && Pending(rows[r.value], s, u)
    ensures r.None? ==> forall i | 0 <= i < |rows| :: !Pending(rows[i], s, u)
  {
    if |rows| == 0 then None
    else if Pending(rows[|rows| - 1], s, u) then Some(|rows| - 1)
    else FindPending(rows[..|rows| - 1], s, u)
  }

  // WHERE slot_id = s AND status = 'active' ORDER BY position LIMIT 1
  function NextWaiting(rows: seq<WaitlistEntry>, s: SlotId): (r: Option<nat>)
    ensures r.Some? ==> r.value < |rows| && Waits(rows[r.value], s)
    ensures r.Some? ==> forall i | 0 <= i < |rows| && Waits(rows[i], s) :: rows[r.value].position <= rows[i].position
    ensures r.None? ==> forall i | 0 <= i < |rows| :: !Waits(rows[i], s)
  {
    if |rows| == 0 then None
    else
      var last := rows[|rows| - 1];
      var best := NextWaiting(rows[..|rows| - 1], s);
      if Waits(last, s) && (best.None? || last.position < rows[best.value].position) then Some(|rows| - 1) else best
  }

  // The reservation that was created for a waitlist entry.
  function FindReservationFor(rows: seq<SlotReservation>, e: nat): (r: Option<nat>)
    ensures r.Some? ==> r.value < |rows| && rows[r.value].waitlistEntryID == Some(e)
    ensures r.None? ==> forall i | 0 <= i < |rows| :: rows[i].waitlistEntryID != Some(e)
  {
    if |rows| == 0 then None
    else if rows[|rows| - 1].waitlistEntryID == Some(e) then Some(|rows| - 1)
    else FindReservationFor(rows[..|rows| - 1], e)
  }

  predicate Held(db: Db, s: SlotId) {
    FindActiveBooking(db.bookings, s).Some? || FindActiveReservation(db.reservations, s).Some?
  }

  // A due row that is not among the picked ones.
  predicate LeftOut(rows: seq<SlotReservation>, now: Time, picked: seq<nat>, i: nat) {
    i < |rows| && Due(rows[i], now) && i !in picked
  }

  // What the expiry query may return: distinct due rows, at most limit of them, earliest deadlines
  // first, all of them when there is room; ties and the order of the answer are the database's choice.
  ghost predicate ExpiryAnswer(rows: seq<SlotReservation>, now: Time, limit: nat, picked: seq<nat>) {
    && |picked| <= limit
    && (forall k | 0 <= k < |picked| :: picked[k] < |rows| && Due(rows[picked[k]], now))
    && (forall j, k | 0 <= j < k < |picked| :: picked[j] != picked[k])
    && (|picked| < limit ==> forall i: nat {:trigger LeftOut(rows, now, picked, i)} :: !LeftOut(rows, now, picked, i))
    && (forall k, i: nat {:trigger picked[k], LeftOut(rows, now, picked, i)}
          | 0 <= k < |picked| && LeftOut(rows, now, picked, i) :: rows[picked[k]].expiresAt <= rows[i].expiresAt)
  }
}
