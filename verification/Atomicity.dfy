/** All or nothing: what a refused or interrupted operation leaves behind, and when promotion can be refused. */
module Atomicity {
  import opened Wrappers
  import opened Domain
  import opened Tables
  import opened Protocol
  import opened Invariants
  import opened Expiry
  import opened Services

  // The error the operation answers with, if any.
  ghost function Refusal(db: Db, op: Op, ttl: Time): Option<ErrorCode>
    requires Possible(db, op)
  {
    match op
    case OpCreateBooking(_, _, _) => ErrorOf(CreateOf(db, op).result)
    case OpCancelBooking(_, _, _, _) => ErrorOf(CancelOf(db, op, ttl).result)
    case OpJoinWaitlist(_, _, _, _) => ErrorOf(JoinOf(db, op).result)
    case OpLeaveWaitlist(_, _) => ErrorOf(LeaveOf(db, op).result)
    case OpConfirmReservation(_, _, _) => ErrorOf(ConfirmOf(db, op).result)
    case OpCancelReservation(_, _, _, _) => ErrorOf(DeclineOf(db, op, ttl).result)
    case OpExpireDue(_, _, _, _) => ErrorOf(ExpiryOf(db, op, ttl).result)
    case OpAddSlots(_) => None
    case OpAbort(_) => Some(InternalError)
  }

  function ErrorOf<T>(r: Result<T, ErrorCode>): Option<ErrorCode> {
    if r.Failure? then Some(r.error) else None
  }

  // An operation that answers with an error leaves every row as it was and publishes nothing.
  lemma RefusalChangesNothing(db: Db, op: Op, ttl: Time)
    requires Possible(db, op) && Refusal(db, op, ttl).Some?
    ensures RolledBack(db, Apply(db, op, ttl)) && Published(db, op, ttl) == []
  {}

  // A join that is refused by the unique index on pending entries, when its position has been taken already.
  predicate LosesPosition(db: Db, op: Op) {
    && op.OpJoinWaitlist? && op.user.role.RoleUser?
    && op.slotID in db.slots && op.now <= db.slots[op.slotID].start
    && FindActiveBooking(db.bookings, op.slotID).Some?
    && db.bookings[FindActiveBooking(db.bookings, op.slotID).value].userID != op.user.id
    && FindPending(db.waitlist, op.slotID, op.user.id).Some?
  }

  // An operation that answers with an error leaves the position sequence alone too, if and only if it is no such join
  // and no transaction that was interrupted after it had taken positions.
  lemma RefusalLeavesPositions(db: Db, op: Op, ttl: Time)
    requires Possible(db, op) && Refusal(db, op, ttl).Some?
    ensures Apply(db, op, ttl) == db <==> !LosesPosition(db, op) && !(op.OpAbort? && op.burned > 0)
    ensures LosesPosition(db, op) ==> Refusal(db, op, ttl) == Some(WaitlistJoined)
                                      && Apply(db, op, ttl).nextPosition == db.nextPosition + 1
  {}

  // Joining a queue twice: the second join is refused, and the next waiter's position is one further on.
  lemma RefusedJoinMovesOn(ttl: Time) returns (run: seq<Db>, ops: seq<Op>)
    ensures IsRun(run, ops, ttl) && Initial(run[0]) && |ops| == 3
    ensures Refusal(run[2], ops[2], ttl) == Some(WaitlistJoined)
    ensures run[3] != run[2]
  {
    var holder, waiter := User(1, RoleUser), User(2, RoleUser);
    var start := Db(map[3 := Slot(7, 100, 200)], [], [], [], 0);
    ops := [OpCreateBooking(holder, 3, 0), OpJoinWaitlist(waiter, 3, 1, 1), OpJoinWaitlist(waiter, 3, 2, 2)];
    var booked := Apply(start, ops[0], ttl);
    assert Books(booked.bookings[0], 3);
    var joined := Apply(booked, ops[1], ttl);
    assert Pending(joined.waitlist[0], 3, 2);
    run := [start, booked, joined, Apply(joined, ops[2], ttl)];
  }

  lemma CancelNeverRefused(db: Db, op: Op, ttl: Time)
    requires Exclusive(db) && op.OpCancelBooking?
    ensures Refusal(db, op, ttl) != Some(InternalError)
  {
    if op.id < |db.bookings| && db.bookings[op.id].status.Active? {
      CancelVacates(db, op.id);
      PromoteExclusive(db.(bookings := CancelBookingRow(db.bookings, op.id)), db.bookings[op.id].slotID,
                       op.now, op.dbNow, ttl);
    }
  }

  lemma DeclineNeverRefused(db: Db, op: Op, ttl: Time)
    requires Exclusive(db) && op.OpCancelReservation?
    ensures Refusal(db, op, ttl) != Some(InternalError)
  {
    if op.id < |db.reservations| && db.reservations[op.id].status.Active? {
      var ended := CancelledReservation(db.reservations[op.id]);
      EndVacates(db, op.id, ended);
      PromoteExclusive(EndReservation(db, op.id, ended), db.reservations[op.id].slotID, op.now, op.dbNow, ttl);
    }
  }

  lemma ExpireNeverRefused(db: Db, op: Op, ttl: Time)
    requires Exclusive(db) && op.OpExpireDue? && Possible(db, op)
    ensures Refusal(db, op, ttl) == None
  {
    AnswerIsDue(db.reservations, op.now, op.limit, op.picked);
    ExpiryNeverRefused(db, op.picked, op.now, op.dbNow, ttl);
  }

  lemma OtherErrors(db: Db, op: Op, ttl: Time)
    requires Possible(db, op) && !op.OpCancelBooking? && !op.OpCancelReservation? && !op.OpExpireDue?
    ensures Refusal(db, op, ttl) == Some(InternalError) <==> op.OpAbort?
  {}

  // In a state where every slot has one holder, the insert of a promotion's reservation is never refused: an
  // internal error comes from the infrastructure only.
  lemma PromotionNeverRefused(db: Db, op: Op, ttl: Time)
    requires Exclusive(db) && Possible(db, op)
    ensures Refusal(db, op, ttl) == Some(InternalError) <==> op.OpAbort?
  {
    match op
    case OpCancelBooking(_, _, _, _) => CancelNeverRefused(db, op, ttl);
    case OpCancelReservation(_, _, _, _) => DeclineNeverRefused(db, op, ttl);
    case OpExpireDue(_, _, _, _) => ExpireNeverRefused(db, op, ttl);
    case _ => OtherErrors(db, op, ttl);
  }

  lemma ExpiryNeverRefused(db: Db, picked: seq<nat>, now: Time, dbNow: Time, ttl: Time)
    requires Exclusive(db) && AllDue(db.reservations, picked, now)
    ensures ExpireDue(db, picked, now, dbNow, ttl).result.Success?
  {
    BatchIsSequence(Batch(db, []), picked, now, dbNow, ttl);
    ExpireEachReleases(Batch(db, []), picked, now, dbNow, ttl, 0);
  }
}
