/** What no operation ever undoes: rows keep their identity, and a row that has ended stays as it ended. */
module Evolution {
  import opened Domain
  import opened Tables
  import opened Protocol
  import opened Invariants
  import opened Expiry
  import opened Refinement

  ghost predicate BookingEvolves(b: Booking, later: Booking) {
    later == b || (b.status.Active? && later == b.(status := BookingStatus.Cancelled))
  }

  // An entry never becomes active again, is claimed at most once, and a cancelled entry does not change.
  ghost predicate EntryEvolves(e: WaitlistEntry, later: WaitlistEntry) {
    && later.slotID == e.slotID && later.userID == e.userID && later.position == e.position
    && later.createdAt == e.createdAt
    && (later.status.Active? ==> later == e)
    && (!e.status.Active? ==> later.notifiedAt == e.notifiedAt)
    && (e.status.Cancelled? ==> later == e)
  }

  // A reservation leaves 'active' at most once and does not change afterwards.
  ghost predicate ReservationEvolves(r: SlotReservation, later: SlotReservation) {
    && later.slotID == r.slotID && later.userID == r.userID && later.waitlistEntryID == r.waitlistEntryID
    && later.expiresAt == r.expiresAt && later.createdAt == r.createdAt
    && (!r.status.Active? || later.status.Active? ==> later == r)
  }

  ghost predicate Evolves(db: Db, later: Db) {
    && |db.bookings| <= |later.bookings|
    && |db.waitlist| <= |later.waitlist|
    && |db.reservations| <= |later.reservations|
    && db.nextPosition <= later.nextPosition
    && (forall s | s in db.slots :: s in later.slots && later.slots[s] == db.slots[s])
    && (forall i | 0 <= i < |db.bookings| :: BookingEvolves(db.bookings[i], later.bookings[i]))
    && (forall i | 0 <= i < |db.waitlist| :: EntryEvolves(db.waitlist[i], later.waitlist[i]))
    && (forall i | 0 <= i < |db.reservations| :: ReservationEvolves(db.reservations[i], later.reservations[i]))
  }

  lemma EvolvesTransitive(a: Db, b: Db, c: Db)
    requires Evolves(a, b) && Evolves(b, c)
    ensures Evolves(a, c)
  {
    forall i | 0 <= i < |a.bookings| ensures BookingEvolves(a.bookings[i], c.bookings[i]) {
      assert BookingEvolves(a.bookings[i], b.bookings[i]) && BookingEvolves(b.bookings[i], c.bookings[i]);
    }
    forall i | 0 <= i < |a.waitlist| ensures EntryEvolves(a.waitlist[i], c.waitlist[i]) {
      assert EntryEvolves(a.waitlist[i], b.waitlist[i]) && EntryEvolves(b.waitlist[i], c.waitlist[i]);
    }
    forall i | 0 <= i < |a.reservations| ensures ReservationEvolves(a.reservations[i], c.reservations[i]) {
      assert ReservationEvolves(a.reservations[i], b.reservations[i]);
      assert ReservationEvolves(b.reservations[i], c.reservations[i]);
    }
  }

  lemma PromoteEvolves(db: Db, s: SlotId, now: Time, dbNow: Time, ttl: Time)
    requires Promote(db, s, now, dbNow, ttl).Success?
    ensures Evolves(db, Promote(db, s, now, dbNow, ttl).value.db)
  {
  }

  lemma {:induction false} PromoteAllEvolves(batch: Batch, slots: seq<SlotId>, now: Time, dbNow: Time, ttl: Time)
    requires PromoteAll(batch, slots, now, dbNow, ttl).Success?
    ensures Evolves(batch.db, PromoteAll(batch, slots, now, dbNow, ttl).value.db)
    decreases |slots|
  {
    if slots != [] {
      PromoteEvolves(batch.db, slots[0], now, dbNow, ttl);
      var next := PromoteOne(batch, slots[0], now, dbNow, ttl).value;
      PromoteAllEvolves(next, slots[1..], now, dbNow, ttl);
      EvolvesTransitive(batch.db, next.db, PromoteAll(batch, slots, now, dbNow, ttl).value.db);
    }
  }

  lemma ExpireDueEvolves(db: Db, picked: seq<nat>, now: Time, dbNow: Time, ttl: Time)
    requires AllDue(db.reservations, picked, now)
    ensures Evolves(db, AfterExpiry(db, picked, now, dbNow, ttl))
  {
    var marked := Marked(Batch(db, []), picked, now);
    var slots := SlotsOf(db.reservations, picked);
    assert Evolves(db, marked.db);
    if PromoteAll(marked, slots, now, dbNow, ttl).Success? {
      PromoteAllEvolves(marked, slots, now, dbNow, ttl);
      EvolvesTransitive(db, marked.db, PromoteAll(marked, slots, now, dbNow, ttl).value.db);
    }
  }

  lemma CancelBookingEvolves(db: Db, user: User, id: nat, now: Time, dbNow: Time, ttl: Time)
    ensures Evolves(db, CancelBooking(db, user, id, now, dbNow, ttl).db)
  {
    if id < |db.bookings| && db.bookings[id].status.Active? {
      var freed := db.(bookings := CancelBookingRow(db.bookings, id));
      var p := Promote(freed, db.bookings[id].slotID, now, dbNow, ttl);
      if p.Success? {
        PromoteEvolves(freed, db.bookings[id].slotID, now, dbNow, ttl);
        EvolvesTransitive(db, freed, p.value.db);
      }
    }
  }

  lemma CancelReservationEvolves(db: Db, user: User, id: nat, now: Time, dbNow: Time, ttl: Time)
    ensures Evolves(db, CancelReservation(db, user, id, now, dbNow, ttl).db)
  {
    if id < |db.reservations| && db.reservations[id].status.Active? {
      var freed := EndReservation(db, id, CancelledReservation(db.reservations[id]));
      var p := Promote(freed, db.reservations[id].slotID, now, dbNow, ttl);
      if p.Success? {
        PromoteEvolves(freed, db.reservations[id].slotID, now, dbNow, ttl);
        EvolvesTransitive(db, freed, p.value.db);
      }
    }
  }

  lemma ConfirmReservationEvolves(db: Db, user: User, id: nat, now: Time)
    ensures Evolves(db, ConfirmReservation(db, user, id, now).db)
  {}

  lemma LeaveWaitlistEvolves(db: Db, user: User, id: nat)
    ensures Evolves(db, LeaveWaitlist(db, user, id).db)
  {}

  // ---- Every kind of operation ----

  lemma OpCancelEvolves(db: Db, op: Op, ttl: Time)
    requires op.OpCancelBooking?
    ensures Evolves(db, Apply(db, op, ttl))
  {
    CancelBookingEvolves(db, op.user, op.id, op.now, op.dbNow, ttl);
  }

  lemma OpDeclineEvolves(db: Db, op: Op, ttl: Time)
    requires op.OpCancelReservation?
    ensures Evolves(db, Apply(db, op, ttl))
  {
    CancelReservationEvolves(db, op.user, op.id, op.now, op.dbNow, ttl);
  }

  lemma OpExpireEvolves(db: Db, op: Op, ttl: Time)
    requires op.OpExpireDue? && Possible(db, op)
    ensures Evolves(db, Apply(db, op, ttl))
  {
    ApplyExpiry(db, op, ttl);
    ExpireDueEvolves(db, op.picked, op.now, op.dbNow, ttl);
  }

  lemma OpBookEvolves(db: Db, op: Op, ttl: Time)
    requires op.OpCreateBooking? || op.OpConfirmReservation?
    ensures Evolves(db, Apply(db, op, ttl))
  {
    if op.OpConfirmReservation? {
      ConfirmReservationEvolves(db, op.user, op.id, op.now);
    }
  }

  lemma OpQueueEvolves(db: Db, op: Op, ttl: Time)
    requires op.OpJoinWaitlist? || op.OpLeaveWaitlist?
    ensures Evolves(db, Apply(db, op, ttl))
  {
    if op.OpLeaveWaitlist? {
      LeaveWaitlistEvolves(db, op.user, op.id);
    }
  }

  lemma OpOtherEvolves(db: Db, op: Op, ttl: Time)
    requires op.OpAddSlots? || op.OpAbort?
    ensures Evolves(db, Apply(db, op, ttl))
  {}

  lemma OperationEvolves(db: Db, op: Op, ttl: Time)
    requires Possible(db, op)
    ensures Evolves(db, Apply(db, op, ttl))
  {
    match op
    case OpCreateBooking(_, _, _) => OpBookEvolves(db, op, ttl);
    case OpCancelBooking(_, _, _, _) => OpCancelEvolves(db, op, ttl);
    case OpJoinWaitlist(_, _, _, _) => OpQueueEvolves(db, op, ttl);
    case OpLeaveWaitlist(_, _) => OpQueueEvolves(db, op, ttl);
    case OpConfirmReservation(_, _, _) => OpBookEvolves(db, op, ttl);
    case OpCancelReservation(_, _, _, _) => OpDeclineEvolves(db, op, ttl);
    case OpExpireDue(_, _, _, _) => OpExpireEvolves(db, op, ttl);
    case _ => OpOtherEvolves(db, op, ttl);
  }

  // Over any stretch of a run, nothing that has ended starts again and nothing that has been decided changes.
  lemma {:induction false} RunEvolves(run: seq<Db>, ops: seq<Op>, ttl: Time, i: nat, j: nat)
    requires IsRun(run, ops, ttl) && i <= j <= |ops|
    ensures Evolves(run[i], run[j])
    decreases j - i
  {
    if i < j {
      OperationEvolves(run[i], ops[i], ttl);
      RunEvolves(run, ops, ttl, i + 1, j);
      EvolvesTransitive(run[i], run[i + 1], run[j]);
    }
  }

  // A reservation has at most one outcome, and the outcome it is seen with is the one it keeps: in every state of
  // a run it is still active, or was confirmed before its deadline into a booking made at that instant, or expired
  // at or after its deadline, or was cancelled - and if it is not active it stays exactly as it is.
  lemma OneOutcome(run: seq<Db>, ops: seq<Op>, ttl: Time, i: nat, j: nat, r: nat)
    requires IsRun(run, ops, ttl) && Initial(run[0]) && i <= j <= |ops| && r < |run[i].reservations|
    ensures r < |run[j].reservations| && Ended(run[j].bookings, run[j].reservations[r])
    ensures !run[i].reservations[r].status.Active? ==> run[j].reservations[r] == run[i].reservations[r]
    ensures run[j].reservations[r].expiresAt == run[i].reservations[r].expiresAt
  {
    RunEvolves(run, ops, ttl, i, j);
    ReachableInv(run, ops, ttl, j);
    assert ReservationEvolves(run[i].reservations[r], run[j].reservations[r]);
  }

  // At any instant an active reservation is due for expiry, or its user can confirm it provided that its slot has
  // not started; never both.
  lemma ConfirmableOrDue(db: Db, id: nat, now: Time)
    requires Inv(db) && id < |db.reservations| && db.reservations[id].status.Active?
    ensures
      var r := db.reservations[id];
      ConfirmReservation(db, User(r.userID, RoleUser), id, now).result.Success?
      <==> !Due(r, now) && now <= db.slots[r.slotID].start
  {
    assert NeverBoth(db.bookings, db.reservations);
    var b := FindActiveBooking(db.bookings, db.reservations[id].slotID);
    assert b.None?;
  }
}
