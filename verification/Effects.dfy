/** Exactly which rows an operation adds and changes, field by field. */
module Effects {
  import opened Wrappers
  import opened Domain
  import opened Tables
  import opened Protocol
  import opened Invariants
  import opened Expiry
  import opened Atomicity

  // ---- What an operation is expected to do, read off the rows before it ----

  // The operation takes slot s from its holder, so that it goes to the first in line.
  ghost predicate GivesUp(db: Db, op: Op, s: SlotId) {
    match op
    case OpCancelBooking(user, id, _, _) =>
      user.role.RoleUser? && id < |db.bookings| && db.bookings[id].userID == user.id && Books(db.bookings[id], s)
    case OpCancelReservation(user, id, _, _) =>
      user.role.RoleUser? && id < |db.reservations| && db.reservations[id].userID == user.id
      && Reserves(db.reservations[id], s)
    case OpExpireDue(picked, _, _, _) => PickedFor(db.reservations, picked, s)
    case _ => false
  }

  // Entry e is the first in line for a slot the operation gives up.
  ghost predicate Promotes(db: Db, op: Op, e: nat) {
    && e < |db.waitlist|
    && GivesUp(db, op, db.waitlist[e].slotID) && NextWaiting(db.waitlist, db.waitlist[e].slotID) == Some(e)
  }

  // The instants of an operation that gives up slots: the service's, and the database's own.
  predicate HandsOn(op: Op) {
    op.OpCancelBooking? || op.OpCancelReservation? || op.OpExpireDue?
  }

  // The operation takes a slot for its caller: directly, or by confirming a reservation.
  ghost predicate Takes(db: Db, op: Op, ttl: Time)
    requires Possible(db, op)
  {
    (op.OpCreateBooking? || op.OpConfirmReservation?) && Refusal(db, op, ttl).None?
  }

  ghost predicate Joins(db: Db, op: Op, ttl: Time)
    requires Possible(db, op)
  {
    op.OpJoinWaitlist? && Refusal(db, op, ttl).None?
  }

  // ---- Bookings ----

  // A cancelled booking of the caller changes its status and nothing else; a slot that was taken is one new row.
  lemma BookingsExact(db: Db, op: Op, ttl: Time, i: nat)
    requires Exclusive(db) && Possible(db, op)
    ensures
      var after := Apply(db, op, ttl).bookings;
      && |after| == |db.bookings| + (if Takes(db, op, ttl) then 1 else 0)
      && (i < |db.bookings| ==>
            var b := db.bookings[i];
            after[i] == if op.OpCancelBooking? && op.id == i && GivesUp(db, op, b.slotID)
                        then Booking(b.userID, b.slotID, BookingStatus.Cancelled, b.createdAt) else b)
      && (Takes(db, op, ttl) ==>
            (op.OpConfirmReservation? ==> op.id < |db.reservations|) &&
            var s := if op.OpCreateBooking? then op.slotID else db.reservations[op.id].slotID;
            after[|db.bookings|] == Booking(op.user.id, s, BookingStatus.Active, op.now))
  {
    match op
    case OpCancelBooking(_, _, _, _) => CancelNeverRefused(db, op, ttl);
    case OpExpireDue(_, _, _, _) => ExpiryLeavesBookings(db, op, ttl);
    case _ =>
  }

  lemma ExpiryLeavesBookings(db: Db, op: Op, ttl: Time)
    requires op.OpExpireDue? && Exclusive(db) && Possible(db, op)
    ensures
      var after := Apply(db, op, ttl);
      after.bookings == db.bookings && after.slots == db.slots && after.nextPosition == db.nextPosition
  {
    ApplyExpiry(db, op, ttl);
    BatchIsSequence(Batch(db, []), op.picked, op.now, op.dbNow, ttl);
    BatchKeepsRest(Batch(db, []), op.picked, op.now, op.dbNow, ttl);
  }

  lemma {:induction false} BatchKeepsRest(batch: Batch, picked: seq<nat>, now: Time, dbNow: Time, ttl: Time)
    requires Exclusive(batch.db) && AllDue(batch.db.reservations, picked, now)
    ensures
      var b, out := batch.db, ExpireEach(batch, picked, now, dbNow, ttl);
      && out.Success?
      && out.value.db.bookings == b.bookings && out.value.db.slots == b.slots
      && out.value.db.nextPosition == b.nextPosition
      && |out.value.db.waitlist| == |b.waitlist| && |out.value.db.reservations| >= |b.reservations|
    decreases |picked|
  {
    if picked != [] {
      FirstOfBatch(batch, picked, now, dbNow, ttl);
      var next := FirstExpired(batch, picked, now, dbNow, ttl).value;
      RestStaysDue(batch.db.reservations, next.db.reservations, picked, now);
      BatchKeepsRest(next, picked[1..], now, dbNow, ttl);
    }
  }

  // ---- The first row of a batch ----

  // What FirstExpired does to the rows, in full.
  ghost predicate FirstDone(b: Db, id: nat, next: Db, now: Time, dbNow: Time, ttl: Time)
    requires id < |b.reservations|
  {
    var s := b.reservations[id].slotID;
    && |next.waitlist| == |b.waitlist|
    && match NextWaiting(b.waitlist, s)
       case None => next.waitlist == b.waitlist && |next.reservations| == |b.reservations|
       case Some(e) =>
         && next.waitlist == b.waitlist[e := Notified(b.waitlist[e], dbNow)]
         && |next.reservations| == |b.reservations| + 1
         && next.reservations[|b.reservations|] == Granted(b.waitlist[e], e, now, ttl)
  }

  // The entry of somebody who has just been notified.
  function Notified(e: WaitlistEntry, dbNow: Time): WaitlistEntry {
    WaitlistEntry(e.slotID, e.userID, WaitlistStatus.Notified, e.position, e.createdAt, Some(dbNow))
  }

  // The reservation made for entry number id at an instant: good for ttl from then on.
  function Granted(e: WaitlistEntry, id: nat, now: Time, ttl: Time): SlotReservation {
    SlotReservation(e.slotID, e.userID, Some(id), ReservationStatus.Active, now + ttl, now, None, None)
  }

  lemma PromotionExact(db: Db, s: SlotId, now: Time, dbNow: Time, ttl: Time)
    requires Vacant(db, s)
    ensures
      var p := Promote(db, s, now, dbNow, ttl);
      && p.Success? && p.value.entry == NextWaiting(db.waitlist, s)
      && match NextWaiting(db.waitlist, s)
         case None => p.value.db == db
         case Some(e) => p.value.db == db.(waitlist := db.waitlist[e := Notified(db.waitlist[e], dbNow)],
                                           reservations := db.reservations + [Granted(db.waitlist[e], e, now, ttl)])
  {
    PromoteExclusive(db, s, now, dbNow, ttl);
  }

  lemma FirstIsDone(batch: Batch, picked: seq<nat>, now: Time, dbNow: Time, ttl: Time)
    requires Exclusive(batch.db) && AllDue(batch.db.reservations, picked, now) && picked != []
    ensures
      var first := FirstExpired(batch, picked, now, dbNow, ttl);
      && first.Success? && FirstDone(batch.db, picked[0], first.value.db, now, dbNow, ttl)
      && picked[0] < |first.value.db.reservations|
      && first.value.db.reservations[picked[0]] == ExpiredAt(batch.db.reservations[picked[0]], now)
  {
    ExpireRowVacates(batch.db, picked[0], now);
    PromotionExact(ExpireRow(batch.db, picked[0], now), batch.db.reservations[picked[0]].slotID, now, dbNow, ttl);
  }

  function ExpiredAt(r: SlotReservation, now: Time): SlotReservation {
    SlotReservation(r.slotID, r.userID, r.waitlistEntryID, ReservationStatus.Expired, r.expiresAt, r.createdAt,
                    r.confirmedAt, Some(now))
  }

  // Whoever is first in line for a slot stays so while entries of other slots change.
  lemma {:induction false} NextElsewhere(rows: seq<WaitlistEntry>, e: nat, x: WaitlistEntry, t: SlotId)
    requires e < |rows| && !Waits(rows[e], t) && !Waits(x, t)
    ensures NextWaiting(rows[e := x], t) == NextWaiting(rows, t)
  {
    var n := |rows| - 1;
    if e == n {
      assert rows[e := x][..n] == rows[..n];
    } else {
      NextElsewhere(rows[..n], e, x, t);
      assert rows[e := x][..n] == rows[..n][e := x];
    }
  }

  lemma FirstLeavesLine(b: Db, id: nat, next: Db, now: Time, dbNow: Time, ttl: Time, t: SlotId)
    requires id < |b.reservations| && FirstDone(b, id, next, now, dbNow, ttl) && t != b.reservations[id].slotID
    ensures NextWaiting(next.waitlist, t) == NextWaiting(b.waitlist, t)
  {
    var e := NextWaiting(b.waitlist, b.reservations[id].slotID);
    if e.Some? {
      NextElsewhere(b.waitlist, e.value, Notified(b.waitlist[e.value], dbNow), t);
    }
  }

  // ---- Entries ----

  // A batch notifies the first in line of every slot of its rows, and touches no other entry.
  lemma {:induction false} BatchEntry(batch: Batch, picked: seq<nat>, now: Time, dbNow: Time, ttl: Time, i: nat)
    requires Exclusive(batch.db) && AllDue(batch.db.reservations, picked, now) && i < |batch.db.waitlist|
    ensures
      var b, out := batch.db, ExpireEach(batch, picked, now, dbNow, ttl);
      var s := b.waitlist[i].slotID;
      && out.Success? && |out.value.db.waitlist| == |b.waitlist|
      && out.value.db.waitlist[i]
         == if PickedFor(b.reservations, picked, s) && NextWaiting(b.waitlist, s) == Some(i)
            then Notified(b.waitlist[i], dbNow) else b.waitlist[i]
    decreases |picked|
  {
    if picked != [] {
      var b, s := batch.db, batch.db.waitlist[i].slotID;
      FirstOfBatch(batch, picked, now, dbNow, ttl);
      FirstIsDone(batch, picked, now, dbNow, ttl);
      var next := FirstExpired(batch, picked, now, dbNow, ttl).value;
      RestStaysDue(b.reservations, next.db.reservations, picked, now);
      PickedOnce(b.reservations, next.db.reservations, picked, now, s);
      BatchEntry(next, picked[1..], now, dbNow, ttl, i);
      if s != b.reservations[picked[0]].slotID {
        FirstLeavesLine(b, picked[0], next.db, now, dbNow, ttl, s);
      }
    }
  }

  ghost function EntryAfter(db: Db, op: Op, i: nat): WaitlistEntry
    requires i < |db.waitlist|
  {
    var e := db.waitlist[i];
    if op.OpLeaveWaitlist? && op.user.role.RoleUser? && op.id == i && e.userID == op.user.id
       && (e.status.Active? || e.status.Notified?)
    then WaitlistEntry(e.slotID, e.userID, WaitlistStatus.Cancelled, e.position, e.createdAt, e.notifiedAt)
    else if HandsOn(op) && Promotes(db, op, i) then Notified(e, op.dbNow)
    else e
  }

  // The tables after a slot of the caller has been given up: its own row ended, its first in line promoted.
  lemma CancelPromotes(db: Db, op: Op, ttl: Time)
    requires op.OpCancelBooking? && Exclusive(db)
    ensures
      op.id < |db.bookings| && GivesUp(db, op, db.bookings[op.id].slotID) ==>
        PromotedFrom(db, Apply(db, op, ttl), db.bookings[op.id].slotID, db.reservations, op.now, op.dbNow, ttl)
    ensures
      !(op.id < |db.bookings| && GivesUp(db, op, db.bookings[op.id].slotID)) ==> Apply(db, op, ttl) == db
  {
    if op.id < |db.bookings| && GivesUp(db, op, db.bookings[op.id].slotID) {
      CancelVacates(db, op.id);
      PromotionExact(db.(bookings := CancelBookingRow(db.bookings, op.id)), db.bookings[op.id].slotID,
                     op.now, op.dbNow, ttl);
    }
  }

  lemma DeclinePromotes(db: Db, op: Op, ttl: Time)
    requires op.OpCancelReservation? && Exclusive(db)
    ensures
      op.id < |db.reservations| && GivesUp(db, op, db.reservations[op.id].slotID) ==>
        PromotedFrom(db, Apply(db, op, ttl), db.reservations[op.id].slotID,
                     db.reservations[op.id := CancelledAs(db.reservations[op.id])], op.now, op.dbNow, ttl)
    ensures
      !(op.id < |db.reservations| && GivesUp(db, op, db.reservations[op.id].slotID)) ==> Apply(db, op, ttl) == db
  {
    if op.id < |db.reservations| && GivesUp(db, op, db.reservations[op.id].slotID) {
      var ended := CancelledReservation(db.reservations[op.id]);
      EndVacates(db, op.id, ended);
      PromotionExact(EndReservation(db, op.id, ended), db.reservations[op.id].slotID, op.now, op.dbNow, ttl);
    }
  }

  function CancelledAs(r: SlotReservation): SlotReservation {
    SlotReservation(r.slotID, r.userID, r.waitlistEntryID, ReservationStatus.Cancelled, r.expiresAt, r.createdAt,
                    r.confirmedAt, r.expiredAt)
  }

  ghost predicate PromotedFrom(db: Db, after: Db, s: SlotId, rows: seq<SlotReservation>,
                               now: Time, dbNow: Time, ttl: Time)
  {
    && after.slots == db.slots && after.nextPosition == db.nextPosition
    && match NextWaiting(db.waitlist, s)
       case None => after.waitlist == db.waitlist && after.reservations == rows
       case Some(e) =>
         && after.waitlist == db.waitlist[e := Notified(db.waitlist[e], dbNow)]
         && after.reservations == rows + [Granted(db.waitlist[e], e, now, ttl)]
  }

  ghost predicate EntryDone(db: Db, op: Op, ttl: Time, i: nat)
    requires Possible(db, op)
  {
    var after := Apply(db, op, ttl).waitlist;
    && |after| == |db.waitlist| + (if Joins(db, op, ttl) then 1 else 0)
    && (i < |db.waitlist| ==> after[i] == EntryAfter(db, op, i))
    && (Joins(db, op, ttl) ==>
          after[|db.waitlist|]
          == WaitlistEntry(op.slotID, op.user.id, WaitlistStatus.Active, db.nextPosition, op.createdAt, None))
  }

  lemma CancelEntry(db: Db, op: Op, ttl: Time, i: nat)
    requires op.OpCancelBooking? && Exclusive(db)
    ensures EntryDone(db, op, ttl, i)
  {
    CancelPromotes(db, op, ttl);
  }

  lemma DeclineEntry(db: Db, op: Op, ttl: Time, i: nat)
    requires op.OpCancelReservation? && Exclusive(db)
    ensures EntryDone(db, op, ttl, i)
  {
    DeclinePromotes(db, op, ttl);
  }

  lemma ExpiryEntry(db: Db, op: Op, ttl: Time, i: nat)
    requires op.OpExpireDue? && Exclusive(db) && Possible(db, op)
    ensures EntryDone(db, op, ttl, i)
  {
    ApplyExpiry(db, op, ttl);
    BatchIsSequence(Batch(db, []), op.picked, op.now, op.dbNow, ttl);
    BatchKeepsRest(Batch(db, []), op.picked, op.now, op.dbNow, ttl);
    if i < |db.waitlist| {
      BatchEntry(Batch(db, []), op.picked, op.now, op.dbNow, ttl, i);
    }
  }

  lemma QueueEntry(db: Db, op: Op, ttl: Time, i: nat)
    requires op.OpJoinWaitlist? || op.OpLeaveWaitlist?
    ensures EntryDone(db, op, ttl, i)
  {}

  lemma OtherEntry(db: Db, op: Op, ttl: Time, i: nat)
    requires op.OpCreateBooking? || op.OpConfirmReservation? || op.OpAddSlots? || op.OpAbort?
    ensures EntryDone(db, op, ttl, i)
  {}

  // An entry changes when the caller leaves it, to the status of those who gave up, or when it is the first in line
  // for a slot given up, to notified at the database's instant. A join is one new row at the next position.
  lemma EntriesExact(db: Db, op: Op, ttl: Time, i: nat)
    requires Exclusive(db) && Possible(db, op)
    ensures EntryDone(db, op, ttl, i)
  {
    match op
    case OpCancelBooking(_, _, _, _) => CancelEntry(db, op, ttl, i);
    case OpCancelReservation(_, _, _, _) => DeclineEntry(db, op, ttl, i);
    case OpExpireDue(_, _, _, _) => ExpiryEntry(db, op, ttl, i);
    case OpJoinWaitlist(_, _, _, _) => QueueEntry(db, op, ttl, i);
    case OpLeaveWaitlist(_, _) => QueueEntry(db, op, ttl, i);
    case _ => OtherEntry(db, op, ttl, i);
  }

  // ---- Reservations ----

  ghost function ReservationAfter(db: Db, op: Op, ttl: Time, i: nat): SlotReservation
    requires Possible(db, op) && i < |db.reservations|
  {
    var r := db.reservations[i];
    if op.OpConfirmReservation? && op.id == i && Takes(db, op, ttl) then
      SlotReservation(r.slotID, r.userID, r.waitlistEntryID, ReservationStatus.Confirmed, r.expiresAt, r.createdAt,
                      Some(op.now), r.expiredAt)
    else if op.OpCancelReservation? && op.id == i && GivesUp(db, op, r.slotID) then CancelledAs(r)
    else if op.OpExpireDue? && i in op.picked then ExpiredAt(r, op.now)
    else r
  }

  lemma {:induction false} BatchReservation(batch: Batch, picked: seq<nat>, now: Time, dbNow: Time, ttl: Time, i: nat)
    requires Exclusive(batch.db) && AllDue(batch.db.reservations, picked, now) && i < |batch.db.reservations|
    ensures
      var b, out := batch.db, ExpireEach(batch, picked, now, dbNow, ttl);
      && out.Success? && i < |out.value.db.reservations|
      && out.value.db.reservations[i] == if i in picked then ExpiredAt(b.reservations[i], now) else b.reservations[i]
    decreases |picked|
  {
    if picked != [] {
      FirstOfBatch(batch, picked, now, dbNow, ttl);
      FirstIsDone(batch, picked, now, dbNow, ttl);
      FirstDue(batch.db.reservations, picked, now);
      var next := FirstExpired(batch, picked, now, dbNow, ttl).value;
      RestStaysDue(batch.db.reservations, next.db.reservations, picked, now);
      BatchReservation(next, picked[1..], now, dbNow, ttl, i);
    }
  }

  // The reservations a batch adds are for the first in line of the slots of its rows, in the order of the rows.
  lemma {:induction false} BatchGrants(batch: Batch, picked: seq<nat>, now: Time, dbNow: Time, ttl: Time, id: nat)
    requires Exclusive(batch.db) && AllDue(batch.db.reservations, picked, now)
    ensures
      var b, out := batch.db, ExpireEach(batch, picked, now, dbNow, ttl);
      && out.Success? && |out.value.db.reservations| >= |b.reservations|
      && (|b.reservations| <= id < |out.value.db.reservations| ==>
            BatchGranted(b, picked, now, ttl, out.value.db.reservations[id]))
    decreases |picked|
  {
    if picked != [] {
      var b := batch.db;
      FirstOfBatch(batch, picked, now, dbNow, ttl);
      FirstIsDone(batch, picked, now, dbNow, ttl);
      var next := FirstExpired(batch, picked, now, dbNow, ttl).value;
      var s := b.reservations[picked[0]].slotID;
      RestStaysDue(b.reservations, next.db.reservations, picked, now);
      PickedOnce(b.reservations, next.db.reservations, picked, now, s);
      BatchGrants(next, picked[1..], now, dbNow, ttl, id);
      var out := ExpireEach(batch, picked, now, dbNow, ttl).value.db;
      if |b.reservations| == id < |next.db.reservations| {
        BatchReservation(next, picked[1..], now, dbNow, ttl, id);
        assert id !in picked[1..];
      } else if |next.db.reservations| <= id < |out.reservations| {
        GrantedBefore(b, next.db, picked, now, dbNow, ttl, out.reservations[id]);
      }
    }
  }

  ghost predicate BatchGranted(b: Db, picked: seq<nat>, now: Time, ttl: Time, r: SlotReservation) {
    && r.waitlistEntryID.Some? && r.waitlistEntryID.value < |b.waitlist|
    && PickedFor(b.reservations, picked, r.slotID) && NextWaiting(b.waitlist, r.slotID) == r.waitlistEntryID
    && r == Granted(b.waitlist[r.waitlistEntryID.value], r.waitlistEntryID.value, now, ttl)
  }

  lemma GrantedBefore(b: Db, next: Db, picked: seq<nat>, now: Time, dbNow: Time, ttl: Time, r: SlotReservation)
    requires OneReservation(b.reservations) && AllDue(b.reservations, picked, now) && picked != []
    requires |b.reservations| <= |next.reservations|
    requires forall i | i in picked[1..] :: i < |b.reservations| && next.reservations[i] == b.reservations[i]
    requires FirstDone(b, picked[0], next, now, dbNow, ttl)
    requires BatchGranted(next, picked[1..], now, ttl, r)
    ensures BatchGranted(b, picked, now, ttl, r)
  {
    PickedOnce(b.reservations, next.reservations, picked, now, r.slotID);
    FirstLeavesLine(b, picked[0], next, now, dbNow, ttl, r.slotID);
  }

  // Whoever is first in line for a slot of the batch gets a reservation.
  lemma {:induction false} BatchServes(batch: Batch, picked: seq<nat>, now: Time, dbNow: Time, ttl: Time, e: nat)
    returns (id: nat)
    requires Exclusive(batch.db) && AllDue(batch.db.reservations, picked, now) && e < |batch.db.waitlist|
    requires PickedFor(batch.db.reservations, picked, batch.db.waitlist[e].slotID)
    requires NextWaiting(batch.db.waitlist, batch.db.waitlist[e].slotID) == Some(e)
    ensures
      var b, out := batch.db, ExpireEach(batch, picked, now, dbNow, ttl);
      && out.Success? && |b.reservations| <= id < |out.value.db.reservations|
      && out.value.db.reservations[id] == Granted(b.waitlist[e], e, now, ttl)
    decreases |picked|
  {
    var b, s := batch.db, batch.db.waitlist[e].slotID;
    FirstOfBatch(batch, picked, now, dbNow, ttl);
    FirstIsDone(batch, picked, now, dbNow, ttl);
    var next := FirstExpired(batch, picked, now, dbNow, ttl).value;
    RestStaysDue(b.reservations, next.db.reservations, picked, now);
    PickedOnce(b.reservations, next.db.reservations, picked, now, s);
    if s == b.reservations[picked[0]].slotID {
      id := |b.reservations|;
      BatchReservation(next, picked[1..], now, dbNow, ttl, id);
      assert id !in picked[1..];
    } else {
      FirstLeavesLine(b, picked[0], next.db, now, dbNow, ttl, s);
      id := BatchServes(next, picked[1..], now, dbNow, ttl, e);
    }
  }

  ghost predicate ReservationDone(db: Db, op: Op, ttl: Time, i: nat)
    requires Possible(db, op)
  {
    var after := Apply(db, op, ttl).reservations;
    && |db.reservations| <= |after|
    && (i < |db.reservations| ==> after[i] == ReservationAfter(db, op, ttl, i))
    && (|db.reservations| <= i < |after| ==>
          && HandsOn(op) && after[i].waitlistEntryID.Some? && Promotes(db, op, after[i].waitlistEntryID.value)
          && after[i] == Granted(db.waitlist[after[i].waitlistEntryID.value], after[i].waitlistEntryID.value,
                                 op.now, ttl))
  }

  lemma CancelReserves(db: Db, op: Op, ttl: Time, i: nat)
    requires op.OpCancelBooking? && Exclusive(db)
    ensures ReservationDone(db, op, ttl, i)
  {
    CancelPromotes(db, op, ttl);
  }

  lemma DeclineReserves(db: Db, op: Op, ttl: Time, i: nat)
    requires op.OpCancelReservation? && Exclusive(db)
    ensures ReservationDone(db, op, ttl, i)
  {
    DeclinePromotes(db, op, ttl);
  }

  lemma ExpiryReserves(db: Db, op: Op, ttl: Time, i: nat)
    requires op.OpExpireDue? && Exclusive(db) && Possible(db, op)
    ensures ReservationDone(db, op, ttl, i)
  {
    ApplyExpiry(db, op, ttl);
    BatchIsSequence(Batch(db, []), op.picked, op.now, op.dbNow, ttl);
    BatchGrants(Batch(db, []), op.picked, op.now, op.dbNow, ttl, i);
    if i < |db.reservations| {
      BatchReservation(Batch(db, []), op.picked, op.now, op.dbNow, ttl, i);
    }
  }

  lemma OtherReserves(db: Db, op: Op, ttl: Time, i: nat)
    requires !HandsOn(op) && Possible(db, op)
    ensures ReservationDone(db, op, ttl, i)
  {}

  // A reservation changes when it is confirmed, cancelled by its user or expired, and then only in its status and the
  // instant that goes with it. Every reservation added is for the first in line of a slot given up;
  lemma ReservationsExact(db: Db, op: Op, ttl: Time, i: nat)
    requires Exclusive(db) && Possible(db, op)
    ensures ReservationDone(db, op, ttl, i)
  {
    match op
    case OpCancelBooking(_, _, _, _) => CancelReserves(db, op, ttl, i);
    case OpCancelReservation(_, _, _, _) => DeclineReserves(db, op, ttl, i);
    case OpExpireDue(_, _, _, _) => ExpiryReserves(db, op, ttl, i);
    case _ => OtherReserves(db, op, ttl, i);
  }

  // and whoever is first in line for a slot given up gets one.
  lemma PromotedIsReserved(db: Db, op: Op, ttl: Time, e: nat) returns (id: nat)
    requires Exclusive(db) && Possible(db, op) && HandsOn(op) && Promotes(db, op, e)
    ensures
      var after := Apply(db, op, ttl).reservations;
      |db.reservations| <= id < |after| && after[id] == Granted(db.waitlist[e], e, op.now, ttl)
  {
    id := |db.reservations|;
    match op
    case OpCancelBooking(_, _, _, _) => CancelPromotes(db, op, ttl);
    case OpCancelReservation(_, _, _, _) => DeclinePromotes(db, op, ttl);
    case OpExpireDue(_, _, _, _) =>
      ApplyExpiry(db, op, ttl);
      BatchIsSequence(Batch(db, []), op.picked, op.now, op.dbNow, ttl);
      id := BatchServes(Batch(db, []), op.picked, op.now, op.dbNow, ttl, e);
  }

  // ---- The instants ----

  // Which clock an operation writes where: the service's for bookings, confirmations, expiries and reservations,
  // which run out a time to live later; the database's for claims.
  lemma InstantsExact(db: Db, op: Op, ttl: Time, i: nat)
    requires Exclusive(db) && Possible(db, op)
    ensures
      var after := Apply(db, op, ttl);
      && |db.bookings| <= |after.bookings| && |db.waitlist| <= |after.waitlist|
      && |db.reservations| <= |after.reservations|
      && (|db.bookings| <= i < |after.bookings| ==>
            (op.OpCreateBooking? || op.OpConfirmReservation?) && after.bookings[i].createdAt == op.now)
      && (|db.waitlist| <= i < |after.waitlist| ==>
            op.OpJoinWaitlist? && after.waitlist[i].createdAt == op.createdAt && after.waitlist[i].notifiedAt.None?)
      && (|db.reservations| <= i < |after.reservations| ==>
            (op.OpCancelBooking? || op.OpCancelReservation? || op.OpExpireDue?) &&
            var r := after.reservations[i];
            r.createdAt == op.now && r.expiresAt == op.now + ttl && r.confirmedAt.None? && r.expiredAt.None?)
      && (i < |db.waitlist| && after.waitlist[i].notifiedAt != db.waitlist[i].notifiedAt ==>
            (op.OpCancelBooking? || op.OpCancelReservation? || op.OpExpireDue?)
            && after.waitlist[i].notifiedAt == Some(op.dbNow) && after.waitlist[i].status.Notified?)
      && (i < |db.reservations| && after.reservations[i].confirmedAt != db.reservations[i].confirmedAt ==>
            op.OpConfirmReservation? && after.reservations[i].confirmedAt == Some(op.now)
            && after.reservations[i].status.Confirmed?)
      && (i < |db.reservations| && after.reservations[i].expiredAt != db.reservations[i].expiredAt ==>
            op.OpExpireDue? && after.reservations[i].expiredAt == Some(op.now)
            && after.reservations[i].status.Expired?)
  {
    BookingsExact(db, op, ttl, i);
    EntriesExact(db, op, ttl, i);
    ReservationsExact(db, op, ttl, i);
  }

  // ---- Slots and positions ----

  // Slots are only added, by the generator; a position is used up by a join that came to its insert.
  lemma RestExact(db: Db, op: Op, ttl: Time, s: SlotId)
    requires Exclusive(db) && Possible(db, op)
    ensures
      var after := Apply(db, op, ttl);
      && (s in after.slots <==> s in db.slots || (op.OpAddSlots? && s in op.added))
      && (s in after.slots ==> after.slots[s] == if s in db.slots then db.slots[s] else op.added[s])
      && after.nextPosition == db.nextPosition
                               + (if Joins(db, op, ttl) || LosesPosition(db, op) then 1
                                  else if op.OpAbort? then op.burned else 0)
  {
    match op
    case OpCancelBooking(_, _, _, _) => CancelPromotes(db, op, ttl);
    case OpCancelReservation(_, _, _, _) => DeclinePromotes(db, op, ttl);
    case OpExpireDue(_, _, _, _) => ExpiryLeavesBookings(db, op, ttl);
    case _ =>
  }
}
