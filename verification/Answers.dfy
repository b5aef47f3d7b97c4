/** What every operation answers, for every input: one table of answers for each, and what a success shows. */
module Answers {
  import opened Wrappers
  import opened Domain
  import opened Tables
  import opened Protocol
  import opened Invariants
  import opened SlotLock
  import opened Simulation
  import opened Atomicity

  // ---- What the tables are read from: rows ----

  ghost predicate Booked(db: Db, s: SlotId) {
    exists i | 0 <= i < |db.bookings| :: Books(db.bookings[i], s)
  }

  ghost predicate BookedFor(db: Db, s: SlotId, u: UserId) {
    exists i | 0 <= i < |db.bookings| :: Books(db.bookings[i], s) && db.bookings[i].userID == u
  }

  ghost predicate Reserved(db: Db, s: SlotId) {
    exists i | 0 <= i < |db.reservations| :: Reserves(db.reservations[i], s)
  }

  // Reserved by another row than id.
  ghost predicate ReservedBesides(db: Db, s: SlotId, id: nat) {
    exists i | 0 <= i < |db.reservations| && i != id :: Reserves(db.reservations[i], s)
  }

  ghost predicate WaitedFor(db: Db, s: SlotId) {
    exists i | 0 <= i < |db.waitlist| :: Waits(db.waitlist[i], s)
  }

  ghost predicate Queued(db: Db, s: SlotId, u: UserId) {
    exists i | 0 <= i < |db.waitlist| :: Pending(db.waitlist[i], s, u)
  }

  predicate Upcoming(db: Db, s: SlotId, now: Time) {
    s in db.slots && now <= db.slots[s].start
  }

  predicate Started(db: Db, s: SlotId, now: Time) {
    s in db.slots && db.slots[s].start < now
  }

  // In a state where every slot has one holder, the rows tell the same as the lock of the slot.
  lemma HolderTells(db: Db, s: SlotId)
    requires Exclusive(db)
    ensures Booked(db, s) <==> HolderOf(db, s).BookedBy?
    ensures Reserved(db, s) <==> HolderOf(db, s).ReservedFor?
    ensures forall u :: BookedFor(db, s, u) <==> HolderOf(db, s) == BookedBy(u)
    ensures HolderOf(db, s).ReservedFor? ==> !ReservedBesides(db, s, FindActiveReservation(db.reservations, s).value)
  {
    var b, r := FindActiveBooking(db.bookings, s), FindActiveReservation(db.reservations, s);
    if b.Some? && r.Some? {
      assert false;
    }
    if b.Some? {
      assert forall i | 0 <= i < |db.bookings| && Books(db.bookings[i], s) :: i == b.value;
    }
    if r.Some? {
      assert forall i | 0 <= i < |db.reservations| && Reserves(db.reservations[i], s) :: i == r.value;
    }
  }

  // ---- The tables: None stands for a success ----

  ghost predicate CreateAnswer(db: Db, op: Op, answer: Option<ErrorCode>)
    requires op.OpCreateBooking?
  {
    var s, isUser := op.slotID, op.user.role.RoleUser?;
    match answer
    case Some(Forbidden) => op.user.role.RoleAdmin?
    case Some(SlotNotFound) => isUser && s !in db.slots
    case Some(InvalidRequest) => isUser && Started(db, s, op.now)
    case Some(SlotIsReserved) => isUser && Upcoming(db, s, op.now) && Reserved(db, s)
    case Some(SlotAlreadyBooked) => isUser && Upcoming(db, s, op.now) && !Reserved(db, s) && Booked(db, s)
    case None => isUser && Upcoming(db, s, op.now) && !Reserved(db, s) && !Booked(db, s)
    case _ => false
  }

  // The caller's own booking can be cancelled, active or not. Only where a booked slot were reserved too could the
  // insert of the promotion fail.
  ghost predicate CancelAnswer(db: Db, op: Op, answer: Option<ErrorCode>)
    requires op.OpCancelBooking?
  {
    var isUser, known := op.user.role.RoleUser?, op.id < |db.bookings|;
    var own := known && db.bookings[op.id].userID == op.user.id;
    var stuck := own && db.bookings[op.id].status.Active?
                 && WaitedFor(db, db.bookings[op.id].slotID) && Reserved(db, db.bookings[op.id].slotID);
    match answer
    case Some(Forbidden) => op.user.role.RoleAdmin? || (known && !own)
    case Some(BookingNotFound) => isUser && !known
    case Some(InternalError) => isUser && stuck
    case None => isUser && own && !stuck
    case _ => false
  }

  ghost predicate JoinAnswer(db: Db, op: Op, answer: Option<ErrorCode>)
    requires op.OpJoinWaitlist?
  {
    var s, u, isUser := op.slotID, op.user.id, op.user.role.RoleUser?;
    var open := isUser && Upcoming(db, s, op.now);
    match answer
    case Some(Forbidden) => op.user.role.RoleAdmin?
    case Some(SlotNotFound) => isUser && s !in db.slots
    case Some(InvalidRequest) => isUser && (Started(db, s, op.now) || (open && BookedFor(db, s, u)))
    case Some(SlotNotBooked) => open && !Booked(db, s)
    case Some(WaitlistJoined) => open && Booked(db, s) && !BookedFor(db, s, u) && Queued(db, s, u)
    case None => open && Booked(db, s) && !BookedFor(db, s, u) && !Queued(db, s, u)
    case _ => false
  }

  // The caller's own entry can be left, pending or not.
  ghost predicate LeaveAnswer(db: Db, op: Op, answer: Option<ErrorCode>)
    requires op.OpLeaveWaitlist?
  {
    var isUser, own := op.user.role.RoleUser?, op.id < |db.waitlist| && db.waitlist[op.id].userID == op.user.id;
    match answer
    case Some(Forbidden) => op.user.role.RoleAdmin?
    case Some(WaitlistNotFound) => isUser && !own
    case None => isUser && own
    case _ => false
  }

  ghost predicate ConfirmAnswer(db: Db, op: Op, answer: Option<ErrorCode>)
    requires op.OpConfirmReservation?
  {
    var isUser, known := op.user.role.RoleUser?, op.id < |db.reservations|;
    var own := isUser && known && db.reservations[op.id].userID == op.user.id;
    var inTime := own && db.reservations[op.id].status.Active? && op.now < db.reservations[op.id].expiresAt;
    var s := if known then db.reservations[op.id].slotID else 0;
    match answer
    case Some(Forbidden) => op.user.role.RoleAdmin? || (known && db.reservations[op.id].userID != op.user.id)
    case Some(ReservationNotFound) => isUser && !known
    case Some(InvalidRequest) => own && (!inTime || (!Booked(db, s) && Started(db, s, op.now)))
    case Some(SlotAlreadyBooked) => inTime && Booked(db, s)
    case Some(SlotNotFound) => inTime && !Booked(db, s) && s !in db.slots
    case None => inTime && !Booked(db, s) && Upcoming(db, s, op.now)
    case _ => false
  }

  // The caller's own reservation can be cancelled, active or not.
  ghost predicate DeclineAnswer(db: Db, op: Op, answer: Option<ErrorCode>)
    requires op.OpCancelReservation?
  {
    var isUser, known := op.user.role.RoleUser?, op.id < |db.reservations|;
    var own := known && db.reservations[op.id].userID == op.user.id;
    var stuck := own && db.reservations[op.id].status.Active?
                 && WaitedFor(db, db.reservations[op.id].slotID)
                 && ReservedBesides(db, db.reservations[op.id].slotID, op.id);
    match answer
    case Some(Forbidden) => op.user.role.RoleAdmin? || (known && !own)
    case Some(ReservationNotFound) => isUser && !known
    case Some(InternalError) => isUser && stuck
    case None => isUser && own && !stuck
    case _ => false
  }

  ghost predicate AnswerIs(db: Db, op: Op, answer: Option<ErrorCode>) {
    match op
    case OpCreateBooking(_, _, _) => CreateAnswer(db, op, answer)
    case OpCancelBooking(_, _, _, _) => CancelAnswer(db, op, answer)
    case OpJoinWaitlist(_, _, _, _) => JoinAnswer(db, op, answer)
    case OpLeaveWaitlist(_, _) => LeaveAnswer(db, op, answer)
    case OpConfirmReservation(_, _, _) => ConfirmAnswer(db, op, answer)
    case OpCancelReservation(_, _, _, _) => DeclineAnswer(db, op, answer)
    case OpExpireDue(_, _, _, _) => answer.None?
    case OpAddSlots(_) => answer.None?
    case OpAbort(_) => answer == Some(InternalError)
  }

  // ---- The operations answer by them ----

  lemma CreateAnswers(db: Db, op: Op, ttl: Time, answer: Option<ErrorCode>)
    requires op.OpCreateBooking?
    ensures Refusal(db, op, ttl) == answer <==> CreateAnswer(db, op, answer)
  {}

  lemma CancelAnswers(db: Db, op: Op, ttl: Time, answer: Option<ErrorCode>)
    requires op.OpCancelBooking?
    ensures Refusal(db, op, ttl) == answer <==> CancelAnswer(db, op, answer)
  {}

  lemma JoinAnswers(db: Db, op: Op, ttl: Time, answer: Option<ErrorCode>)
    requires op.OpJoinWaitlist? && OneBooking(db.bookings)
    ensures Refusal(db, op, ttl) == answer <==> JoinAnswer(db, op, answer)
  {
    var b := FindActiveBooking(db.bookings, op.slotID);
    if b.Some? {
      assert forall i | 0 <= i < |db.bookings| && Books(db.bookings[i], op.slotID) :: i == b.value;
    }
  }

  lemma LeaveAnswers(db: Db, op: Op, ttl: Time, answer: Option<ErrorCode>)
    requires op.OpLeaveWaitlist?
    ensures Refusal(db, op, ttl) == answer <==> LeaveAnswer(db, op, answer)
  {}

  lemma ConfirmAnswers(db: Db, op: Op, ttl: Time, answer: Option<ErrorCode>)
    requires op.OpConfirmReservation?
    ensures Refusal(db, op, ttl) == answer <==> ConfirmAnswer(db, op, answer)
  {}

  lemma DeclineAnswers(db: Db, op: Op, ttl: Time, answer: Option<ErrorCode>)
    requires op.OpCancelReservation?
    ensures Refusal(db, op, ttl) == answer <==> DeclineAnswer(db, op, answer)
  {
    if op.id < |db.reservations| {
      var r := db.reservations[op.id];
      var freed := EndReservation(db, op.id, CancelledReservation(r));
      assert Reserved(freed, r.slotID) <==> ReservedBesides(db, r.slotID, op.id) by {
        assert forall i | 0 <= i < |db.reservations| && i != op.id :: freed.reservations[i] == db.reservations[i];
        assert !Reserves(freed.reservations[op.id], r.slotID);
      }
    }
  }

  // Every operation answers with the error of its table and with no other, and succeeds exactly when it has none.
  lemma EveryAnswer(db: Db, op: Op, ttl: Time, answer: Option<ErrorCode>)
    requires Exclusive(db) && Possible(db, op)
    ensures Refusal(db, op, ttl) == answer <==> AnswerIs(db, op, answer)
  {
    match op
    case OpCreateBooking(_, _, _) => CreateAnswers(db, op, ttl, answer);
    case OpCancelBooking(_, _, _, _) => CancelAnswers(db, op, ttl, answer);
    case OpJoinWaitlist(_, _, _, _) => JoinAnswers(db, op, ttl, answer);
    case OpLeaveWaitlist(_, _) => LeaveAnswers(db, op, ttl, answer);
    case OpConfirmReservation(_, _, _) => ConfirmAnswers(db, op, ttl, answer);
    case OpCancelReservation(_, _, _, _) => DeclineAnswers(db, op, ttl, answer);
    case OpExpireDue(_, _, _, _) => ExpireNeverRefused(db, op, ttl);
    case _ =>
  }

  // ---- What a success shows ----

  // Cancelling one's booking succeeds whatever its state; the answer is the stored row, and a booking that has been
  // cancelled already is returned as it is, with nothing changed and nothing published.
  lemma CancelShowsRow(db: Db, user: User, id: nat, now: Time, dbNow: Time, ttl: Time)
    requires Exclusive(db)
    ensures
      var o := CancelBooking(db, user, id, now, dbNow, ttl);
      var own := user.role.RoleUser? && id < |db.bookings| && db.bookings[id].userID == user.id;
      && (o.result.Success? <==> own)
      && (own ==> id < |o.db.bookings| && o.result.value == Keyed(id, o.db.bookings[id]))
      && (own && db.bookings[id].status.Cancelled? ==> o == Outcome(db, Success(Keyed(id, db.bookings[id])), []))
  {
    if id < |db.bookings| && db.bookings[id].status.Active? {
      CancelVacates(db, id);
      PromoteExclusive(db.(bookings := CancelBookingRow(db.bookings, id)), db.bookings[id].slotID, now, dbNow, ttl);
    }
  }

  lemma LeaveShowsRow(db: Db, user: User, id: nat)
    ensures
      var o := LeaveWaitlist(db, user, id);
      var own := user.role.RoleUser? && id < |db.waitlist| && db.waitlist[id].userID == user.id;
      && (o.result.Success? <==> own)
      && (own ==> id < |o.db.waitlist| && o.result.value == Keyed(id, o.db.waitlist[id]))
      && (own && (db.waitlist[id].status.Cancelled? || db.waitlist[id].status.Expired?) ==>
            o == Outcome(db, Success(Keyed(id, db.waitlist[id])), []))
  {}

  lemma DeclineShowsRow(db: Db, user: User, id: nat, now: Time, dbNow: Time, ttl: Time)
    requires Exclusive(db)
    ensures
      var o := CancelReservation(db, user, id, now, dbNow, ttl);
      var own := user.role.RoleUser? && id < |db.reservations| && db.reservations[id].userID == user.id;
      && (o.result.Success? <==> own)
      && (own ==> id < |o.db.reservations| && o.result.value == Keyed(id, o.db.reservations[id]))
      && (own && !db.reservations[id].status.Active? ==>
            o == Outcome(db, Success(Keyed(id, db.reservations[id])), []))
  {
    if id < |db.reservations| && db.reservations[id].status.Active? {
      var ended := CancelledReservation(db.reservations[id]);
      EndVacates(db, id, ended);
      PromoteExclusive(EndReservation(db, id, ended), db.reservations[id].slotID, now, dbNow, ttl);
    }
  }

  // The others answer with the rows they have stored.
  lemma TakenShowsRow(db: Db, user: User, s: SlotId, id: nat, now: Time, createdAt: Time)
    ensures
      var o := CreateBooking(db, user, s, now);
      o.result.Success? ==>
        |o.db.bookings| == |db.bookings| + 1 && o.result.value == Keyed(|db.bookings|, o.db.bookings[|db.bookings|])
    ensures
      var o := JoinWaitlist(db, user, s, now, createdAt);
      o.result.Success? ==>
        |o.db.waitlist| == |db.waitlist| + 1 && o.result.value == Keyed(|db.waitlist|, o.db.waitlist[|db.waitlist|])
    ensures
      var o := ConfirmReservation(db, user, id, now);
      o.result.Success? ==>
        && id < |o.db.reservations| && o.result.value.reservation == Keyed(id, o.db.reservations[id])
        && |o.db.bookings| == |db.bookings| + 1
        && o.result.value.booking == Keyed(|db.bookings|, o.db.bookings[|db.bookings|])
  {}

  // ---- Twice is once ----

  // The same cancellation or departure again, at another instant.
  predicate Repeats(op: Op, again: Op) {
    match op
    case OpCancelBooking(user, id, _, _) => again.OpCancelBooking? && again.user == user && again.id == id
    case OpLeaveWaitlist(user, id) => again == op
    case OpCancelReservation(user, id, _, _) => again.OpCancelReservation? && again.user == user && again.id == id
    case _ => false
  }

  // Whoever cancels or leaves a second time gets the same success and changes nothing.
  lemma TwiceIsOnce(db: Db, op: Op, again: Op, ttl: Time)
    requires Exclusive(db) && Repeats(op, again) && Refusal(db, op, ttl).None?
    ensures
      var after := Apply(db, op, ttl);
      Refusal(after, again, ttl).None? && Apply(after, again, ttl) == after && Published(after, again, ttl) == []
  {
    match op
    case OpCancelBooking(user, id, now, dbNow) =>
      CancelShowsRow(db, user, id, now, dbNow, ttl);
      CancelledStays(db, op, ttl);
    case OpLeaveWaitlist(_, _) =>
    case OpCancelReservation(user, id, now, dbNow) =>
      DeclineShowsRow(db, user, id, now, dbNow, ttl);
      DeclinedStays(db, op, ttl);
  }

  lemma CancelledStays(db: Db, op: Op, ttl: Time)
    requires op.OpCancelBooking? && CancelOf(db, op, ttl).result.Success?
    ensures
      var rows := CancelOf(db, op, ttl).db.bookings;
      op.id < |rows| && rows[op.id].userID == op.user.id && rows[op.id].status.Cancelled?
  {}

  lemma DeclinedStays(db: Db, op: Op, ttl: Time)
    requires op.OpCancelReservation? && DeclineOf(db, op, ttl).result.Success?
    ensures
      var rows := DeclineOf(db, op, ttl).db.reservations;
      op.id < |rows| && rows[op.id].userID == op.user.id && !rows[op.id].status.Active?
  {}
}
