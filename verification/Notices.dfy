/** Who is told what: reservations are announced to the people they concern, and nobody's rows are touched by others. */
module Notices {
  import opened Wrappers
  import opened Domain
  import opened Tables
  import opened Protocol
  import opened Invariants
  import opened Expiry

  // ---- Announcements ----

  // The notice that tells r's user of the reservation in row id.
  function NoticeOf(db: Db, r: SlotReservation, id: nat): Event
    requires r.waitlistEntryID.Some?
  {
    WaitlistSlotReserved(RoomOf(db, r.slotID), r.slotID, r.userID, id, r.waitlistEntryID.value, r.expiresAt)
  }

  // The notices among the events are those of the reservations made between before and after.
  ghost predicate Announced(db: Db, before: seq<SlotReservation>, after: seq<SlotReservation>, events: seq<Event>) {
    && |before| <= |after|
    && (forall id | |before| <= id < |after| ::
          after[id].waitlistEntryID.Some? && NoticeOf(db, after[id], id) in events)
    && (forall e | e in events && e.WaitlistSlotReserved? ::
          |before| <= e.reservationID < |after| && after[e.reservationID].waitlistEntryID.Some?
          && e == NoticeOf(db, after[e.reservationID], e.reservationID))
  }

  predicate Describes(x: Replacement, r: SlotReservation, id: nat) {
    && x.slotID == r.slotID && x.userID == r.userID && r.waitlistEntryID == Some(x.entryID)
    && x.reservationID == id && x.expiresAt == r.expiresAt
  }

  // The replacements of a batch are the reservations added to the n that were there.
  ghost predicate Lists(batch: Batch, n: nat) {
    && |batch.db.reservations| == n + |batch.replacements|
    && forall k | 0 <= k < |batch.replacements| :: Describes(batch.replacements[k], batch.db.reservations[n + k], n + k)
  }

  lemma {:induction false} PromoteAllLists(batch: Batch, slots: seq<SlotId>, now: Time, dbNow: Time, ttl: Time, n: nat)
    requires Lists(batch, n) && PromoteAll(batch, slots, now, dbNow, ttl).Success?
    ensures Lists(PromoteAll(batch, slots, now, dbNow, ttl).value, n)
    decreases |slots|
  {
    if slots != [] {
      PromoteOneLists(batch, slots[0], now, dbNow, ttl, n);
      PromoteAllLists(PromoteOne(batch, slots[0], now, dbNow, ttl).value, slots[1..], now, dbNow, ttl, n);
    }
  }

  lemma PromoteOneLists(batch: Batch, s: SlotId, now: Time, dbNow: Time, ttl: Time, n: nat)
    requires Lists(batch, n) && PromoteOne(batch, s, now, dbNow, ttl).Success?
    ensures Lists(PromoteOne(batch, s, now, dbNow, ttl).value, n)
  {}

  lemma {:induction false} ReplacementNoticesExact(db: Db, replacements: seq<Replacement>, e: Event)
    requires e.WaitlistSlotReserved?
    ensures e in ReplacementNotices(db, replacements) <==>
            exists k | 0 <= k < |replacements| :: e == ReplacementEvent(db, replacements[k])
  {
    if replacements != [] {
      var rest := replacements[1..];
      ReplacementNoticesExact(db, rest, e);
      assert e in ReplacementNotice(db, replacements[0]) <==> e == ReplacementEvent(db, replacements[0]);
      if k :| 0 <= k < |rest| && e == ReplacementEvent(db, rest[k]) {
        assert e == ReplacementEvent(db, replacements[k + 1]);
      }
      if k :| 0 < k < |replacements| && e == ReplacementEvent(db, replacements[k]) {
        assert e == ReplacementEvent(db, rest[k - 1]);
      }
    }
  }

  function ReplacementEvent(db: Db, r: Replacement): Event {
    WaitlistSlotReserved(RoomOf(db, r.slotID), r.slotID, r.userID, r.reservationID, r.entryID, r.expiresAt)
  }

  lemma {:induction false} ExpiryNoticesExact(db: Db, picked: seq<nat>, replacements: seq<Replacement>, e: Event)
    requires forall k | 0 <= k < |picked| :: picked[k] < |db.reservations|
    ensures e.WaitlistSlotReserved? ==> e !in ExpiryNotices(db, picked, replacements)
    ensures e.ReservationExpired? ==>
      (e in ExpiryNotices(db, picked, replacements) <==>
       e.reservationID in picked && e == ExpiredEvent(db, e.reservationID))
  {
    if picked != [] {
      ExpiryNoticesExact(db, picked[1..], replacements, e);
    }
  }

  // Tells the holder of row id that it ran out.
  function ExpiredEvent(db: Db, id: nat): Event {
    if id < |db.reservations| then
      var r := db.reservations[id];
      ReservationExpired(RoomOf(db, r.slotID), r.slotID, r.userID, id)
    else ReservationExpired(None, 0, 0, id)
  }

  lemma ExpireDueAnnounces(db: Db, picked: seq<nat>, now: Time, dbNow: Time, ttl: Time)
    requires Inv(db) && AllDue(db.reservations, picked, now)
    ensures
      var o := ExpireDue(db, picked, now, dbNow, ttl);
      Announced(db, db.reservations, o.db.reservations, o.events)
  {
    ExpireDueKeepsInv(db, picked, now, dbNow, ttl);
    var o := ExpireDue(db, picked, now, dbNow, ttl);
    var marked := Batch(db.(reservations := ExpireRows(db.reservations, picked, now)), []);
    var batch := PromoteAll(marked, SlotsOf(db.reservations, picked), now, dbNow, ttl).value;
    PromoteAllLists(marked, SlotsOf(db.reservations, picked), now, dbNow, ttl, |db.reservations|);
    BatchAnnounces(db, picked, batch, o.events);
  }

  lemma BatchAnnounces(db: Db, picked: seq<nat>, batch: Batch, events: seq<Event>)
    requires forall k | 0 <= k < |picked| :: picked[k] < |db.reservations|
    requires Lists(batch, |db.reservations|)
    requires events == ExpiryNotices(db, picked, batch.replacements) + ReplacementNotices(db, batch.replacements)
    ensures Announced(db, db.reservations, batch.db.reservations, events)
  {
    var n, after := |db.reservations|, batch.db.reservations;
    forall id | n <= id < |after| ensures after[id].waitlistEntryID.Some? && NoticeOf(db, after[id], id) in events {
      ReplacementAnnounced(db, batch, n, id);
    }
    forall e | e in events && e.WaitlistSlotReserved?
      ensures n <= e.reservationID < |after| && after[e.reservationID].waitlistEntryID.Some?
              && e == NoticeOf(db, after[e.reservationID], e.reservationID)
    {
      ExpiryNoticesExact(db, picked, batch.replacements, e);
      AnnouncementIsTrue(db, batch, n, e);
    }
  }

  lemma ReplacementAnnounced(db: Db, batch: Batch, n: nat, id: nat)
    requires Lists(batch, n) && n <= id < |batch.db.reservations|
    ensures
      var r := batch.db.reservations[id];
      r.waitlistEntryID.Some? && NoticeOf(db, r, id) in ReplacementNotices(db, batch.replacements)
  {
    var r := batch.db.reservations[id];
    assert Describes(batch.replacements[id - n], batch.db.reservations[n + (id - n)], n + (id - n));
    ReplacementNoticesExact(db, batch.replacements, NoticeOf(db, r, id));
    assert NoticeOf(db, r, id) == ReplacementEvent(db, batch.replacements[id - n]);
  }

  lemma AnnouncementIsTrue(db: Db, batch: Batch, n: nat, e: Event)
    requires Lists(batch, n) && e.WaitlistSlotReserved? && e in ReplacementNotices(db, batch.replacements)
    ensures
      var after := batch.db.reservations;
      && n <= e.reservationID < |after| && after[e.reservationID].waitlistEntryID.Some?
      && e == NoticeOf(db, after[e.reservationID], e.reservationID)
  {
    ReplacementNoticesExact(db, batch.replacements, e);
    var k :| 0 <= k < |batch.replacements| && e == ReplacementEvent(db, batch.replacements[k]);
    assert Describes(batch.replacements[k], batch.db.reservations[n + k], n + k);
  }

  lemma PromotionAnnounces(db: Db, freed: Db, s: SlotId, now: Time, dbNow: Time, ttl: Time)
    requires freed.slots == db.slots && s in db.slots && |freed.reservations| == |db.reservations|
    requires Promote(freed, s, now, dbNow, ttl).Success?
    ensures
      var p := Promote(freed, s, now, dbNow, ttl).value;
      Announced(db, db.reservations, p.db.reservations,
                if p.entry.Some? then PromotionEvents(freed, s, p.entry.value, now, ttl) else [])
  {}

  lemma CancelBookingAnnounces(db: Db, user: User, id: nat, now: Time, dbNow: Time, ttl: Time)
    requires References(db)
    ensures
      var o := CancelBooking(db, user, id, now, dbNow, ttl);
      Announced(db, db.reservations, o.db.reservations, o.events)
  {
    if id < |db.bookings| && db.bookings[id].status.Active? {
      var freed, s := db.(bookings := CancelBookingRow(db.bookings, id)), db.bookings[id].slotID;
      if Promote(freed, s, now, dbNow, ttl).Success? {
        PromotionAnnounces(db, freed, s, now, dbNow, ttl);
      }
    }
  }

  lemma CancelReservationAnnounces(db: Db, user: User, id: nat, now: Time, dbNow: Time, ttl: Time)
    requires References(db)
    ensures
      var o := CancelReservation(db, user, id, now, dbNow, ttl);
      Announced(db, db.reservations, o.db.reservations, o.events)
  {
    if id < |db.reservations| && db.reservations[id].status.Active? {
      var freed, s := EndReservation(db, id, CancelledReservation(db.reservations[id])), db.reservations[id].slotID;
      if Promote(freed, s, now, dbNow, ttl).Success? {
        PromotionAnnounces(db, freed, s, now, dbNow, ttl);
      }
    }
  }

  ghost predicate OpAnnounces(db: Db, op: Op, ttl: Time)
    requires Possible(db, op)
  {
    Announced(db, db.reservations, Apply(db, op, ttl).reservations, Published(db, op, ttl))
  }

  lemma OpCancelAnnounces(db: Db, op: Op, ttl: Time)
    requires References(db) && op.OpCancelBooking?
    ensures OpAnnounces(db, op, ttl)
  {
    CancelBookingAnnounces(db, op.user, op.id, op.now, op.dbNow, ttl);
  }

  lemma OpDeclineAnnounces(db: Db, op: Op, ttl: Time)
    requires References(db) && op.OpCancelReservation?
    ensures OpAnnounces(db, op, ttl)
  {
    CancelReservationAnnounces(db, op.user, op.id, op.now, op.dbNow, ttl);
  }

  lemma PublishedExpiry(db: Db, op: Op, ttl: Time)
    requires op.OpExpireDue? && Possible(db, op)
    ensures AllDue(db.reservations, op.picked, op.now)
    ensures Published(db, op, ttl) == ExpireDue(db, op.picked, op.now, op.dbNow, ttl).events
  {
    AnswerIsDue(db.reservations, op.now, op.limit, op.picked);
  }

  lemma OpExpireAnnounces(db: Db, op: Op, ttl: Time)
    requires Inv(db) && op.OpExpireDue? && Possible(db, op)
    ensures OpAnnounces(db, op, ttl)
  {
    ApplyExpiry(db, op, ttl);
    PublishedExpiry(db, op, ttl);
    ExpireDueAnnounces(db, op.picked, op.now, op.dbNow, ttl);
    ExpireDueLeaves(db, op.picked, op.now, op.dbNow, ttl);
  }

  lemma OpOtherAnnounces(db: Db, op: Op, ttl: Time)
    requires Possible(db, op) && !op.OpCancelBooking? && !op.OpCancelReservation? && !op.OpExpireDue?
    ensures OpAnnounces(db, op, ttl)
  {}

  // Every reservation an operation makes is announced to its user, with its slot, its entry and its deadline, and
  // no announcement is made of anything else.
  lemma EveryReservationAnnounced(db: Db, op: Op, ttl: Time)
    requires Inv(db) && Possible(db, op)
    ensures Announced(db, db.reservations, Apply(db, op, ttl).reservations, Published(db, op, ttl))
  {
    match op
    case OpCancelBooking(_, _, _, _) => OpCancelAnnounces(db, op, ttl);
    case OpCancelReservation(_, _, _, _) => OpDeclineAnnounces(db, op, ttl);
    case OpExpireDue(_, _, _, _) => OpExpireAnnounces(db, op, ttl);
    case _ => OpOtherAnnounces(db, op, ttl);
  }

  // The holders of the rows a batch expires, and nobody else, are told so.
  lemma ExpiredAreTold(db: Db, picked: seq<nat>, now: Time, dbNow: Time, ttl: Time, e: Event)
    requires Inv(db) && AllDue(db.reservations, picked, now) && e.ReservationExpired?
    ensures e in ExpireDue(db, picked, now, dbNow, ttl).events
       <==> e.reservationID in picked && e == ExpiredEvent(db, e.reservationID)
  {
    ExpireDueKeepsInv(db, picked, now, dbNow, ttl);
    var marked := Batch(db.(reservations := ExpireRows(db.reservations, picked, now)), []);
    var batch := PromoteAll(marked, SlotsOf(db.reservations, picked), now, dbNow, ttl).value;
    ExpiryNoticesExact(db, picked, batch.replacements, e);
    NoExpiryAmongReplacements(db, batch.replacements, e);
  }

  lemma {:induction false} NoExpiryAmongReplacements(db: Db, replacements: seq<Replacement>, e: Event)
    requires e.ReservationExpired?
    ensures e !in ReplacementNotices(db, replacements)
  {
    if replacements != [] {
      NoExpiryAmongReplacements(db, replacements[1..], e);
    }
  }

  // ---- Releases ----

  // A cancelled booking is published as a release of its slot if and only if nobody waits for the slot.
  lemma ReleasedWhenNobodyWaits(
    db: Db, user: User, id: nat, now: Time, dbNow: Time, ttl: Time, e: Event)
    requires Inv(db) && e.SlotReleased?
    ensures e in CancelBooking(db, user, id, now, dbNow, ttl).events <==>
            && user.role.RoleUser? && id < |db.bookings|
            && db.bookings[id].userID == user.id && db.bookings[id].status.Active?
            && NextWaiting(db.waitlist, db.bookings[id].slotID).None?
            && e == SlotReleased(db.slots[db.bookings[id].slotID].roomID, db.bookings[id].slotID, id)
  {
    if id < |db.bookings| && db.bookings[id].status.Active? {
      CancelVacates(db, id);
      PromoteExclusive(db.(bookings := CancelBookingRow(db.bookings, id)), db.bookings[id].slotID, now, dbNow, ttl);
    }
  }

  // With somebody waiting, the cancelled booking's slot is published as reserved and not as released.
  lemma ReservedWhenSomebodyWaits(ttl: Time) returns (run: seq<Db>, ops: seq<Op>)
    ensures IsRun(run, ops, ttl) && Initial(run[0]) && |ops| == 3 && ops[2].OpCancelBooking?
    ensures SlotReserved(7, 3, 0) in Published(run[2], ops[2], ttl)
    ensures forall e | e in Published(run[2], ops[2], ttl) :: !e.SlotReleased?
  {
    var slots := map[3 := Slot(7, 100, 200)];
    var start := Db(slots, [], [], [], 0);
    ops := [OpCreateBooking(User(1, RoleUser), 3, 0), OpJoinWaitlist(User(2, RoleUser), 3, 1, 1),
            OpCancelBooking(User(1, RoleUser), 0, 2, 2)];
    var booked := start.(bookings := [Booking(1, 3, BookingStatus.Active, 0)]);
    var joined := booked.(waitlist := [WaitlistEntry(3, 2, WaitlistStatus.Active, 0, 1, None)], nextPosition := 1);
    BookedFirst(start, ops[0], booked, ttl);
    JoinedNext(booked, ops[1], joined, ttl);
    WaiterIsReserved(joined, ops[2], ttl);
    run := [start, booked, joined, Apply(joined, ops[2], ttl)];
  }

  lemma BookedFirst(db: Db, op: Op, after: Db, ttl: Time)
    requires db == Db(map[3 := Slot(7, 100, 200)], [], [], [], 0)
    requires op == OpCreateBooking(User(1, RoleUser), 3, 0)
    requires after == db.(bookings := [Booking(1, 3, BookingStatus.Active, 0)])
    ensures Apply(db, op, ttl) == after
  {}

  lemma JoinedNext(db: Db, op: Op, after: Db, ttl: Time)
    requires db == Db(map[3 := Slot(7, 100, 200)], [Booking(1, 3, BookingStatus.Active, 0)], [], [], 0)
    requires op == OpJoinWaitlist(User(2, RoleUser), 3, 1, 1)
    requires after == db.(waitlist := [WaitlistEntry(3, 2, WaitlistStatus.Active, 0, 1, None)], nextPosition := 1)
    ensures Apply(db, op, ttl) == after
  {
    assert Books(db.bookings[0], 3);
  }

  lemma WaiterIsReserved(db: Db, op: Op, ttl: Time)
    requires op == OpCancelBooking(User(1, RoleUser), 0, 2, 2) && db.slots == map[3 := Slot(7, 100, 200)]
    requires db.bookings == [Booking(1, 3, BookingStatus.Active, 0)] && db.reservations == []
    requires db.waitlist == [WaitlistEntry(3, 2, WaitlistStatus.Active, 0, 1, None)]
    ensures SlotReserved(7, 3, 0) in Published(db, op, ttl)
    ensures forall e | e in Published(db, op, ttl) :: !e.SlotReleased?
  {
    assert Waits(db.waitlist[0], 3);
  }

  // ---- Ownership ----

  // The user an operation is made for; the expiry batch, the generator and a rollback have none.
  function Caller(op: Op): Option<User> {
    match op
    case OpCreateBooking(user, _, _) => Some(user)
    case OpCancelBooking(user, _, _, _) => Some(user)
    case OpJoinWaitlist(user, _, _, _) => Some(user)
    case OpLeaveWaitlist(user, _) => Some(user)
    case OpConfirmReservation(user, _, _) => Some(user)
    case OpCancelReservation(user, _, _, _) => Some(user)
    case _ => None
  }

  // A user's operation leaves every booking and reservation of others as it was, and touches an entry of others
  // only to notify the first in line; an administrator's changes no row at all.
  lemma OnlyOwnRowsChange(db: Db, op: Op, ttl: Time, user: User)
    requires Possible(db, op) && Caller(op) == Some(user)
    ensures
      var after := Apply(db, op, ttl);
      && (forall i | 0 <= i < |db.bookings| && db.bookings[i].userID != user.id :: after.bookings[i] == db.bookings[i])
      && (forall i | 0 <= i < |db.reservations| && db.reservations[i].userID != user.id ::
            after.reservations[i] == db.reservations[i])
      && (forall i | 0 <= i < |db.waitlist| && db.waitlist[i].userID != user.id
                     && after.waitlist[i] != db.waitlist[i] ::
            after.waitlist[i].status.Notified? && NextWaiting(db.waitlist, db.waitlist[i].slotID) == Some(i))
      && (user.role.RoleAdmin? ==> after == db)
  {}
}
