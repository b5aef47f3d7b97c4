/** Every operation keeps the invariant and is one step, or no step, of each slot's lock; so is every run. */
module Refinement {
  import opened Wrappers
  import opened Domain
  import opened Tables
  import opened Protocol
  import opened Invariants
  import opened SlotLock
  import opened Simulation
  import opened Expiry

  // ---- The row changes behind the operations, on one lock ----

  lemma BookAcquires(db: Db, b: Booking, s: SlotId)
    requires OneBooking(db.bookings) && OneReservation(db.reservations)
    requires b.status.Active? && !Held(db, b.slotID)
    ensures
      var after := db.(bookings := db.bookings + [b]);
      && LockOf(db, b.slotID).holder.Free?
      && LockOf(after, s) == if s == b.slotID then LockOf(db, s).(holder := BookedBy(b.userID)) else LockOf(db, s)
  {
    var after := db.(bookings := db.bookings + [b]);
    assert OneBooking(after.bookings) by {
      assert forall i | 0 <= i < |db.bookings| :: !Books(db.bookings[i], b.slotID);
    }
    if s == b.slotID {
      BookedIs(after, |db.bookings|);
    } else {
      HolderSame(db, after, s);
    }
  }

  // The lock of `slot` was held and has been handed on; the lock of s is the same unless s is that slot.
  ghost predicate Released(db: Db, slot: SlotId, deadline: Time, after: Db, s: SlotId) {
    && !LockOf(db, slot).holder.Free?
    && LockOf(after, s) == if s == slot then Grant(LockOf(db, s).queue, deadline) else LockOf(db, s)
  }

  lemma CancelReleases(db: Db, id: nat, now: Time, dbNow: Time, ttl: Time, s: SlotId)
    requires Exclusive(db) && id < |db.bookings| && db.bookings[id].status.Active?
    ensures
      var slot := db.bookings[id].slotID;
      var p := Promote(db.(bookings := CancelBookingRow(db.bookings, id)), slot, now, dbNow, ttl);
      p.Success? && Released(db, slot, now + ttl, p.value.db, s)
  {
    var slot := db.bookings[id].slotID;
    var freed := db.(bookings := CancelBookingRow(db.bookings, id));
    CancelVacates(db, id);
    PromoteGrants(freed, slot, now, dbNow, ttl, s);
    BookedIs(db, id);
    if s != slot {
      HolderSame(db, freed, s);
    }
  }

  lemma EndReleases(db: Db, id: nat, ended: SlotReservation, now: Time, dbNow: Time, ttl: Time, s: SlotId)
    requires Exclusive(db) && id < |db.reservations| && db.reservations[id].status.Active?
    requires Ends(db.reservations[id], ended)
    ensures
      var slot := db.reservations[id].slotID;
      var p := Promote(EndReservation(db, id, ended), slot, now, dbNow, ttl);
      p.Success? && Released(db, slot, now + ttl, p.value.db, s)
  {
    var slot := db.reservations[id].slotID;
    var freed := EndReservation(db, id, ended);
    EndVacates(db, id, ended);
    PromoteGrants(freed, slot, now, dbNow, ttl, s);
    ReservedIs(db, id);
    if s != slot {
      HolderSame(db, freed, s);
    }
  }

  lemma ConfirmSettles(db: Db, id: nat, now: Time, s: SlotId)
    requires Exclusive(db)
    requires id < |db.reservations| && db.reservations[id].status.Active?
    ensures
      var r, after := db.reservations[id], Confirm(db, id, now);
      && LockOf(db, r.slotID).holder == ReservedFor(r.userID, r.expiresAt)
      && LockOf(after, s) == if s == r.slotID then LockOf(db, s).(holder := BookedBy(r.userID)) else LockOf(db, s)
  {
    var after := Confirm(db, id, now);
    ReservedIs(db, id);
    assert OneBooking(after.bookings) by {
      assert forall i | 0 <= i < |db.bookings| :: !Books(db.bookings[i], db.reservations[id].slotID);
    }
    if s == db.reservations[id].slotID {
      BookedIs(after, |db.bookings|);
    } else {
      HolderSame(db, after, s);
    }
  }

  lemma JoinEnqueues(db: Db, e: WaitlistEntry, next: nat, s: SlotId)
    requires e.status.Active? && FindPending(db.waitlist, e.slotID, e.userID).None?
    ensures e.userID !in Queue(db.waitlist, e.slotID)
    ensures
      LockOf(db.(waitlist := db.waitlist + [e], nextPosition := next), s)
      == if s == e.slotID then LockOf(db, s).(queue := LockOf(db, s).queue + [e.userID]) else LockOf(db, s)
  {
    QueueAppend(db.waitlist, [e], s);
    assert [e][..0] == [];
    assert Queue([e], s) == if s == e.slotID then [e.userID] else [];
    QueueMember(db.waitlist, e.slotID, e.userID);
  }

  // ---- The operations keep the invariant ----

  lemma CreateBookingKeepsInv(db: Db, user: User, slot: SlotId, now: Time)
    requires Inv(db)
    ensures Inv(CreateBooking(db, user, slot, now).db)
  {
    if slot in db.slots && !Held(db, slot) {
      BookKeepsInv(db, Booking(user.id, slot, BookingStatus.Active, now));
    }
  }

  lemma CancelBookingKeepsInv(db: Db, user: User, id: nat, now: Time, dbNow: Time, ttl: Time)
    requires Inv(db)
    ensures Inv(CancelBooking(db, user, id, now, dbNow, ttl).db)
  {
    if id < |db.bookings| && db.bookings[id].status.Active? {
      CancelFrees(db, id);
      PromoteKeepsInv(db.(bookings := CancelBookingRow(db.bookings, id)), db.bookings[id].slotID, now, dbNow, ttl);
    }
  }

  lemma JoinWaitlistKeepsInv(db: Db, user: User, slot: SlotId, now: Time, createdAt: Time)
    requires Inv(db)
    ensures Inv(JoinWaitlist(db, user, slot, now, createdAt).db)
  {
    PositionsBurned(db, 1);
    if JoinWaitlist(db, user, slot, now, createdAt).result.Success? {
      JoinKeepsInv(db, WaitlistEntry(slot, user.id, WaitlistStatus.Active, db.nextPosition, createdAt, None));
    }
  }

  lemma LeaveWaitlistKeepsInv(db: Db, user: User, id: nat)
    requires Inv(db)
    ensures Inv(LeaveWaitlist(db, user, id).db)
  {
    if id < |db.waitlist| && (db.waitlist[id].status.Active? || db.waitlist[id].status.Notified?) {
      LeaveKeepsInv(db, id);
    }
  }

  lemma ConfirmReservationKeepsInv(db: Db, user: User, id: nat, now: Time)
    requires Inv(db)
    ensures Inv(ConfirmReservation(db, user, id, now).db)
  {
    if id < |db.reservations| && db.reservations[id].status.Active? && now < db.reservations[id].expiresAt {
      ConfirmKeepsInv(db, id, now);
    }
  }

  lemma CancelReservationKeepsInv(db: Db, user: User, id: nat, now: Time, dbNow: Time, ttl: Time)
    requires Inv(db)
    ensures Inv(CancelReservation(db, user, id, now, dbNow, ttl).db)
  {
    if id < |db.reservations| && db.reservations[id].status.Active? {
      var ended := CancelledReservation(db.reservations[id]);
      assert Ended(db.bookings, db.reservations[id]);
      EndFrees(db, id, ended);
      PromoteKeepsInv(EndReservation(db, id, ended), db.reservations[id].slotID, now, dbNow, ttl);
    }
  }

  lemma OpCreateKeepsInv(db: Db, op: Op, ttl: Time)
    requires Inv(db) && op.OpCreateBooking?
    ensures Inv(Apply(db, op, ttl))
  {
    CreateBookingKeepsInv(db, op.user, op.slotID, op.now);
  }

  lemma OpCancelKeepsInv(db: Db, op: Op, ttl: Time)
    requires Inv(db) && op.OpCancelBooking?
    ensures Inv(Apply(db, op, ttl))
  {
    CancelBookingKeepsInv(db, op.user, op.id, op.now, op.dbNow, ttl);
  }

  lemma OpJoinKeepsInv(db: Db, op: Op, ttl: Time)
    requires Inv(db) && op.OpJoinWaitlist?
    ensures Inv(Apply(db, op, ttl))
  {
    JoinWaitlistKeepsInv(db, op.user, op.slotID, op.now, op.createdAt);
  }

  lemma OpLeaveKeepsInv(db: Db, op: Op, ttl: Time)
    requires Inv(db) && op.OpLeaveWaitlist?
    ensures Inv(Apply(db, op, ttl))
  {
    LeaveWaitlistKeepsInv(db, op.user, op.id);
  }

  lemma OpConfirmKeepsInv(db: Db, op: Op, ttl: Time)
    requires Inv(db) && op.OpConfirmReservation?
    ensures Inv(Apply(db, op, ttl))
  {
    ConfirmReservationKeepsInv(db, op.user, op.id, op.now);
  }

  lemma OpDeclineKeepsInv(db: Db, op: Op, ttl: Time)
    requires Inv(db) && op.OpCancelReservation?
    ensures Inv(Apply(db, op, ttl))
  {
    CancelReservationKeepsInv(db, op.user, op.id, op.now, op.dbNow, ttl);
  }

  lemma OpExpireKeepsInv(db: Db, op: Op, ttl: Time)
    requires Inv(db) && op.OpExpireDue? && Possible(db, op)
    ensures Inv(Apply(db, op, ttl))
  {
    ApplyExpiry(db, op, ttl);
    ExpireDueKeepsInv(db, op.picked, op.now, op.dbNow, ttl);
  }

  lemma OpOtherKeepsInv(db: Db, op: Op, ttl: Time)
    requires Inv(db) && (op.OpAddSlots? || op.OpAbort?)
    ensures Inv(Apply(db, op, ttl))
  {
    if op.OpAddSlots? {
      SlotsAdded(db, op.added);
    } else {
      PositionsBurned(db, op.burned);
    }
  }

  lemma OperationKeepsInv(db: Db, op: Op, ttl: Time)
    requires Inv(db) && Possible(db, op)
    ensures Inv(Apply(db, op, ttl))
  {
    match op
    case OpCreateBooking(_, _, _) => OpCreateKeepsInv(db, op, ttl);
    case OpCancelBooking(_, _, _, _) => OpCancelKeepsInv(db, op, ttl);
    case OpJoinWaitlist(_, _, _, _) => OpJoinKeepsInv(db, op, ttl);
    case OpLeaveWaitlist(_, _) => OpLeaveKeepsInv(db, op, ttl);
    case OpConfirmReservation(_, _, _) => OpConfirmKeepsInv(db, op, ttl);
    case OpCancelReservation(_, _, _, _) => OpDeclineKeepsInv(db, op, ttl);
    case OpExpireDue(_, _, _, _) => OpExpireKeepsInv(db, op, ttl);
    case _ => OpOtherKeepsInv(db, op, ttl);
  }

  // ---- Operations: what they do to the lock of slot s ----
  // Stay when the guards refuse the operation or it concerns another slot.

  ghost predicate Steps(a: Lock, action: Action, b: Lock) {
    Enabled(a, action) && b == Step(a, action)
  }

  function CreateAction(db: Db, op: Op, s: SlotId): Action
    requires op.OpCreateBooking?
  {
    if op.slotID == s && op.user.role.RoleUser? && s in db.slots && op.now <= db.slots[s].start && HolderOf(db, s).Free?
    then Acquire(op.user.id) else Stay
  }

  function CancelAction(db: Db, op: Op, ttl: Time, s: SlotId): Action
    requires op.OpCancelBooking?
  {
    if op.user.role.RoleUser? && op.id < |db.bookings|
       && db.bookings[op.id].userID == op.user.id && Books(db.bookings[op.id], s)
    then Release(op.now + ttl) else Stay
  }

  function JoinAction(db: Db, op: Op, s: SlotId): Action
    requires op.OpJoinWaitlist?
  {
    if op.slotID == s && op.user.role.RoleUser? && s in db.slots && op.now <= db.slots[s].start
       && HolderOf(db, s).BookedBy? && HolderOf(db, s).user != op.user.id
       && FindPending(db.waitlist, s, op.user.id).None?
    then Enqueue(op.user.id) else Stay
  }

  function LeaveAction(db: Db, op: Op, s: SlotId): Action
    requires op.OpLeaveWaitlist?
  {
    if op.user.role.RoleUser? && op.id < |db.waitlist|
       && db.waitlist[op.id].userID == op.user.id && Waits(db.waitlist[op.id], s)
    then Abandon(op.user.id) else Stay
  }

  function ConfirmAction(db: Db, op: Op, s: SlotId): Action
    requires op.OpConfirmReservation?
  {
    if op.user.role.RoleUser? && op.id < |db.reservations| && db.reservations[op.id].userID == op.user.id
       && Reserves(db.reservations[op.id], s) && op.now < db.reservations[op.id].expiresAt
       && s in db.slots && op.now <= db.slots[s].start
    then Settle else Stay
  }

  function CancelReservationAction(db: Db, op: Op, ttl: Time, s: SlotId): Action
    requires op.OpCancelReservation?
  {
    if op.user.role.RoleUser? && op.id < |db.reservations|
       && db.reservations[op.id].userID == op.user.id && Reserves(db.reservations[op.id], s)
    then Release(op.now + ttl) else Stay
  }

  ghost function ExpireAction(db: Db, op: Op, ttl: Time, s: SlotId): Action
    requires op.OpExpireDue?
  {
    if PickedFor(db.reservations, op.picked, s) then Release(op.now + ttl) else Stay
  }

  ghost function ActionOn(db: Db, op: Op, ttl: Time, s: SlotId): Action {
    match op
    case OpCreateBooking(_, _, _) => CreateAction(db, op, s)
    case OpCancelBooking(_, _, _, _) => CancelAction(db, op, ttl, s)
    case OpJoinWaitlist(_, _, _, _) => JoinAction(db, op, s)
    case OpLeaveWaitlist(_, _) => LeaveAction(db, op, s)
    case OpConfirmReservation(_, _, _) => ConfirmAction(db, op, s)
    case OpCancelReservation(_, _, _, _) => CancelReservationAction(db, op, ttl, s)
    case OpExpireDue(_, _, _, _) => ExpireAction(db, op, ttl, s)
    case OpAddSlots(_) => Stay
    case OpAbort(_) => Stay
  }

  // Operation op is one step of the lock of slot s.
  ghost predicate OpSteps(db: Db, op: Op, ttl: Time, s: SlotId)
    requires Possible(db, op)
  {
    Steps(LockOf(db, s), ActionOn(db, op, ttl, s), LockOf(Apply(db, op, ttl), s))
  }

  lemma CreateBookingSteps(db: Db, op: Op, ttl: Time, s: SlotId)
    requires op.OpCreateBooking? && OneBooking(db.bookings) && OneReservation(db.reservations)
    ensures OpSteps(db, op, ttl, s)
  {
    if !Held(db, op.slotID) {
      BookAcquires(db, Booking(op.user.id, op.slotID, BookingStatus.Active, op.now), s);
    }
  }

  lemma CancelBookingSteps(db: Db, op: Op, ttl: Time, s: SlotId)
    requires op.OpCancelBooking? && Exclusive(db)
    ensures OpSteps(db, op, ttl, s)
  {
    if op.id < |db.bookings| && db.bookings[op.id].status.Active? {
      CancelReleases(db, op.id, op.now, op.dbNow, ttl, s);
    }
  }

  lemma JoinWaitlistSteps(db: Db, op: Op, ttl: Time, s: SlotId)
    requires op.OpJoinWaitlist?
    ensures OpSteps(db, op, ttl, s)
  {
    var o := JoinOf(db, op);
    if o.result.Success? {
      JoinEnqueues(db, o.result.value.row, db.nextPosition + 1, s);
      JoinedIsQueued(db, op);
    } else {
      RefusedStays(db, op, s);
    }
  }

  lemma JoinedIsQueued(db: Db, op: Op)
    requires op.OpJoinWaitlist? && JoinOf(db, op).result.Success?
    ensures JoinAction(db, op, op.slotID) == Enqueue(op.user.id)
    ensures forall s | s != op.slotID :: JoinAction(db, op, s) == Stay
    ensures HolderOf(db, op.slotID).BookedBy? && HolderOf(db, op.slotID).user != op.user.id
  {}

  lemma RefusedStays(db: Db, op: Op, s: SlotId)
    requires op.OpJoinWaitlist? && JoinOf(db, op).result.Failure?
    ensures JoinAction(db, op, s) == Stay && LockOf(JoinOf(db, op).db, s) == LockOf(db, s)
  {}

  lemma LeaveWaitlistSteps(db: Db, op: Op, ttl: Time, s: SlotId)
    requires op.OpLeaveWaitlist? && OneEntry(db.waitlist)
    ensures OpSteps(db, op, ttl, s)
  {
    LeaveDequeues(db, op, s);
  }

  lemma LeaveDequeues(db: Db, op: Op, s: SlotId)
    requires op.OpLeaveWaitlist? && OneEntry(db.waitlist)
    ensures Steps(LockOf(db, s), LeaveAction(db, op, s), LockOf(LeaveOf(db, op).db, s))
  {
    if op.id < |db.waitlist| {
      LeaveAbandons(db.waitlist, op.id, s);
    }
  }

  lemma ConfirmReservationSteps(db: Db, op: Op, ttl: Time, s: SlotId)
    requires op.OpConfirmReservation? && Exclusive(db)
    ensures OpSteps(db, op, ttl, s)
  {
    if op.id < |db.reservations| && db.reservations[op.id].status.Active? {
      ConfirmSettles(db, op.id, op.now, s);
      ReservedIs(db, op.id);
    }
  }

  lemma CancelReservationSteps(db: Db, op: Op, ttl: Time, s: SlotId)
    requires op.OpCancelReservation? && Exclusive(db)
    ensures OpSteps(db, op, ttl, s)
  {
    if op.id < |db.reservations| && db.reservations[op.id].status.Active? {
      EndReleases(db, op.id, CancelledReservation(db.reservations[op.id]), op.now, op.dbNow, ttl, s);
    }
  }

  lemma ExpireDueSteps(db: Db, op: Op, ttl: Time, s: SlotId)
    requires op.OpExpireDue? && Exclusive(db) && Possible(db, op)
    ensures OpSteps(db, op, ttl, s)
  {
    ApplyExpiry(db, op, ttl);
    var after := AfterExpiry(db, op.picked, op.now, op.dbNow, ttl);
    ExpireDueReleases(db, op.picked, op.now, op.dbNow, ttl, s);
    ReleasesOrStays(db, op, ttl, s, after);
  }

  lemma ReleasesOrStays(db: Db, op: Op, ttl: Time, s: SlotId, after: Db)
    requires op.OpExpireDue?
    requires LockOf(after, s) == if PickedFor(db.reservations, op.picked, s)
                                 then Grant(Queue(db.waitlist, s), op.now + ttl) else LockOf(db, s)
    ensures Steps(LockOf(db, s), ActionOn(db, op, ttl, s), LockOf(after, s))
  {
    if PickedFor(db.reservations, op.picked, s) {
      PickedIsHeld(db, op.picked, s);
    }
  }

  lemma PickedIsHeld(db: Db, picked: seq<nat>, s: SlotId)
    requires PickedFor(db.reservations, picked, s)
    ensures !HolderOf(db, s).Free?
  {
    assert exists i | 0 <= i < |db.reservations| :: Reserves(db.reservations[i], s);
  }

  lemma IdleSteps(db: Db, op: Op, ttl: Time, s: SlotId)
    requires op.OpAddSlots? || op.OpAbort?
    ensures OpSteps(db, op, ttl, s)
  {}

  // The main step theorem: any operation, any slot.
  lemma OperationSteps(db: Db, op: Op, ttl: Time, s: SlotId)
    requires Exclusive(db) && Possible(db, op)
    ensures OpSteps(db, op, ttl, s)
  {
    match op
    case OpCreateBooking(_, _, _) => CreateBookingSteps(db, op, ttl, s);
    case OpCancelBooking(_, _, _, _) => CancelBookingSteps(db, op, ttl, s);
    case OpJoinWaitlist(_, _, _, _) => JoinWaitlistSteps(db, op, ttl, s);
    case OpLeaveWaitlist(_, _) => LeaveWaitlistSteps(db, op, ttl, s);
    case OpConfirmReservation(_, _, _) => ConfirmReservationSteps(db, op, ttl, s);
    case OpCancelReservation(_, _, _, _) => CancelReservationSteps(db, op, ttl, s);
    case OpExpireDue(_, _, _, _) => ExpireDueSteps(db, op, ttl, s);
    case _ => IdleSteps(db, op, ttl, s);
  }

  lemma {:induction false} RunKeepsInv(run: seq<Db>, ops: seq<Op>, ttl: Time, k: nat)
    requires IsRun(run, ops, ttl) && Inv(run[0]) && k <= |ops|
    ensures Inv(run[k])
  {
    if k > 0 {
      RunKeepsInv(run, ops, ttl, k - 1);
      OperationKeepsInv(run[k - 1], ops[k - 1], ttl);
    }
  }

  // Every state a run reaches from empty tables satisfies the invariant.
  lemma ReachableInv(run: seq<Db>, ops: seq<Op>, ttl: Time, k: nat)
    requires IsRun(run, ops, ttl) && Initial(run[0]) && k <= |ops|
    ensures Inv(run[k])
  {
    InitialInv(run[0]);
    RunKeepsInv(run, ops, ttl, k);
  }

  // Every run of the service is, slot by slot, a run of the lock.
  lemma RunRefinesLock(run: seq<Db>, ops: seq<Op>, ttl: Time, s: SlotId, k: nat)
    requires IsRun(run, ops, ttl) && Initial(run[0]) && k <= |ops|
    ensures LockOf(run[0], s) == Lock(Free, [])
    ensures Sound(LockOf(run[k], s))
    ensures k < |ops| ==> OpSteps(run[k], ops[k], ttl, s)
  {
    ReachableInv(run, ops, ttl, k);
    LockIsSound(run[k], s);
    if k < |ops| {
      OperationSteps(run[k], ops[k], ttl, s);
    }
  }
}
