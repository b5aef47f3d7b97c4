/** The booking, waitlist and reservation services: each operation, step by step, against its meaning on the tables. */
module Services {
  import opened Wrappers
  import opened Domain
  import opened Tables
  import opened Protocol
  import opened Repositories

  // A transaction that was rolled back: every table is as it was, positions may have been used up.
  ghost predicate RolledBack(before: Db, after: Db) {
    after == before.(nextPosition := after.nextPosition) && before.nextPosition <= after.nextPosition
  }

  // The operation did exactly what o says; or an injected failure made it do nothing, publish nothing and say so.
  ghost predicate Realises<T>(
    o: Outcome<T>, r: Result<T, ErrorCode>, before: Db, after: Db, log: seq<Event>, logAfter: seq<Event>, faulty: bool)
  {
    || (r == o.result && after == o.db && logAfter == log + o.events)
    || (faulty && r == Failure(InternalError) && RolledBack(before, after) && logAfter == log)
  }

  predicate StoredAs<T(==)>(rows: seq<T>, k: Keyed<T>) {
    k.id < |rows| && rows[k.id] == k.row
  }

  // What the body of a transaction hands to the code after the commit: its result and the room of its slot.
  datatype Located<+T> = Located(room: Option<RoomId>, value: T)

  // A promotion made inside a transaction, still to be announced.
  datatype Handover = Handover(entry: Keyed<WaitlistEntry>, reservation: Keyed<SlotReservation>)

  class BookingService {
    const store: Store
    const publisher: Publisher
    const ttl: Time

    constructor (store: Store, publisher: Publisher, reservationTTL: Time)
      ensures this.store == store && this.publisher == publisher && ttl == EffectiveTTL(reservationTTL)
    {
      this.store, this.publisher, ttl := store, publisher, EffectiveTTL(reservationTTL);
    }

    method CreateBooking(user: User, slotID: SlotId, now: Time) returns (r: Result<Keyed<Booking>, ErrorCode>)
      modifies store, publisher
      ensures Realises(Protocol.CreateBooking(old(store.View()), user, slotID, now), r, old(store.View()), store.View(),
                       old(publisher.log), publisher.log, old(store.Faulty()))
      ensures store.Faulty() ==> old(store.Faulty())
      ensures r.Success? ==> StoredAs(store.bookings, r.value) && r.value.id == |old(store.bookings)|
                             && r.value.row == Booking(user.id, slotID, BookingStatus.Active, now)
      ensures r.Success? ==>
        && slotID in store.slots
        && publisher.log == old(publisher.log) + [SlotBooked(store.slots[slotID].roomID, slotID, r.value.id)]
    {
      if user.role != RoleUser {
        return Failure(Forbidden);
      }
      var snapshot :- store.Begin();
      var done := CreateBookingTx(user, slotID, now);
      if done.Failure? {
        store.Rollback(snapshot);
        return Failure(done.error);
      }
      var ok := store.Commit(snapshot);
      if !ok {
        return Failure(InternalError);
      }
      var roomID, b := done.value.0, done.value.1;
      publisher.Publish(SlotBooked(roomID, b.row.slotID, b.id));
      return Success(b);
    }

    method CreateBookingTx(user: User, slotID: SlotId, now: Time)
      returns (r: Result<(RoomId, Keyed<Booking>), ErrorCode>)
      requires user.role.RoleUser?
      modifies store`bookings, store`faults
      ensures
        var o := Protocol.CreateBooking(old(store.View()), user, slotID, now);
        match r
        case Success(done) => store.View() == o.db && o.result == Success(done.1)
                              && RoomOf(o.db, slotID) == Some(done.0)
        case Failure(error) => (o.result == Failure(error) && store.nextPosition == o.db.nextPosition)
                               || (error == InternalError && old(store.Faulty()))
      ensures store.Faulty() ==> old(store.Faulty())
    {
      var slot :- store.GetSlot(slotID);
      if slot.None? {
        return Failure(SlotNotFound);
      }
      if slot.value.start < now {
        return Failure(InvalidRequest);
      }
      var reservation :- store.GetActiveReservationBySlot(slotID);
      if reservation.Some? {
        return Failure(SlotIsReserved);
      }
      var created := Booking(user.id, slotID, BookingStatus.Active, now);
      var id :- store.CreateBooking(created);
      return Success((slot.value.roomID, Keyed(id, created)));
    }

    method CancelBooking(user: User, id: nat, now: Time, dbNow: Time) returns (r: Result<Keyed<Booking>, ErrorCode>)
      modifies store, publisher
      ensures Realises(Protocol.CancelBooking(old(store.View()), user, id, now, dbNow, ttl), r,
                       old(store.View()), store.View(), old(publisher.log), publisher.log, old(store.Faulty()))
      ensures store.Faulty() ==> old(store.Faulty())
      ensures r.Success? ==> StoredAs(store.bookings, r.value) && r.value.id == id && r.value.row.status.Cancelled?
    {
      if user.role != RoleUser {
        return Failure(Forbidden);
      }
      var snapshot :- store.Begin();
      var done, released, handover := CancelBookingTx(user, id, now, dbNow);
      if done.Failure? {
        store.Rollback(snapshot);
        return Failure(done.error);
      }
      var ok := store.Commit(snapshot);
      if !ok {
        return Failure(InternalError);
      }
      var b, room := done.value.value, done.value.room;
      if released && room.Some? {
        if handover.Some? {
          var entry, next := handover.value.entry, handover.value.reservation;
          publisher.Publish(SlotReserved(room.value, b.row.slotID, next.id));
          publisher.Publish(
            WaitlistSlotReserved(room, b.row.slotID, entry.row.userID, next.id, entry.id, next.row.expiresAt));
        } else {
          publisher.Publish(SlotReleased(room.value, b.row.slotID, b.id));
        }
      }
      return Success(b);
    }

    method CancelBookingTx(user: User, id: nat, now: Time, dbNow: Time)
      returns (r: Result<Located<Keyed<Booking>>, ErrorCode>, released: bool, handover: Option<Handover>)
      requires user.role.RoleUser?
      modifies store`bookings, store`waitlist, store`reservations, store`faults
      ensures
        var before := old(store.View());
        var o := Protocol.CancelBooking(before, user, id, now, dbNow, ttl);
        match r
        case Success(done) =>
          && store.View() == o.db && o.result == Success(done.value) && id < |before.bookings|
          && done.room == RoomOf(before, before.bookings[id].slotID)
          && done.value.row.slotID == before.bookings[id].slotID
          && (released <==> before.bookings[id].status.Active?)
          && (released ==> HandedOver(before.(bookings := CancelBookingRow(before.bookings, id)),
                                      before.bookings[id].slotID, now, dbNow, ttl, handover))
        case Failure(error) => (o.result == Failure(error) && store.nextPosition == o.db.nextPosition)
                               || (error == InternalError && old(store.Faulty()))
      ensures store.Faulty() ==> old(store.Faulty())
    {
      released, handover := false, None;
      var found := store.GetBooking(id);
      if found.Failure? {
        return Failure(found.error), false, None;
      }
      if found.value.None? {
        return Failure(BookingNotFound), false, None;
      }
      var existing := found.value.value.row;
      if existing.userID != user.id {
        return Failure(Forbidden), false, None;
      }
      var updated := store.SetBookingCancelled(id);
      if updated.Failure? {
        return Failure(updated.error), false, None;
      }
      if updated.value.None? {
        return Failure(BookingNotFound), false, None;
      }
      var cancelled := updated.value.value;
      var slot := store.GetSlot(cancelled.row.slotID);
      if slot.Failure? {
        return Failure(slot.error), false, None;
      }
      var room := if slot.value.None? then None else Some(slot.value.value.roomID);
      if existing.status.Active? {
        released := true;
        var promoted := PromoteNext(store, cancelled.row.slotID, now, dbNow, ttl);
        if promoted.Failure? {
          return Failure(promoted.error), false, None;
        }
        handover := promoted.value;
      }
      r := Success(Located(room, cancelled));
    }
  }

  // What a promotion out of `freed` hands over: the first waiter's entry, notified at the database's instant, and a
  // reservation for them made at the service's, good for ttl from then on.
  ghost predicate HandedOver(
    freed: Db, s: SlotId, now: Time, dbNow: Time, ttl: Time, handover: Option<Handover>)
  {
    var next := NextWaiting(freed.waitlist, s);
    && (next.None? ==> handover.None?)
    && (next.Some? ==>
          && var e := freed.waitlist[next.value];
             handover == Some(Handover(
               Keyed(next.value, e.(status := WaitlistStatus.Notified, notifiedAt := Some(dbNow))),
               Keyed(|freed.reservations|,
                     SlotReservation(s, e.userID, next, ReservationStatus.Active, now + ttl, now, None, None)))))
  }

  // Claim the first waiter of the slot and reserve the slot for them: the same calls in all three places.
  method PromoteNext(store: Store, s: SlotId, now: Time, dbNow: Time, ttl: Time)
    returns (r: Result<Option<Handover>, ErrorCode>)
    modifies store`waitlist, store`reservations, store`faults
    ensures
      var freed := old(store.View());
      var p := Promote(freed, s, now, dbNow, ttl);
      match r
      case Success(handover) =>
        p.Success? && store.View() == p.value.db && HandedOver(freed, s, now, dbNow, ttl, handover)
      case Failure(error) => error == InternalError && (p.Failure? || old(store.Faulty()))
    ensures r.Success? ==>
      match r.value
      case None => store.waitlist == old(store.waitlist) && store.reservations == old(store.reservations)
      case Some(h) =>
        && h.entry.id < |old(store.waitlist)| && store.waitlist == old(store.waitlist)[h.entry.id := h.entry.row]
        && store.reservations == old(store.reservations) + [h.reservation.row]
    ensures store.Faulty() ==> old(store.Faulty())
  {
    var claimed :- store.ClaimNextForNotify(s, dbNow);
    if claimed.None? {
      return Success(None);
    }
    var entry := claimed.value;
    var row :=
      SlotReservation(s, entry.row.userID, Some(entry.id), ReservationStatus.Active, now + ttl, now, None, None);
    var created := store.CreateReservation(row);
    if created.Failure? {
      // Whatever the repository says, the service wraps it as an internal error.
      return Failure(InternalError);
    }
    return Success(Some(Handover(entry, created.value)));
  }

  class WaitlistService {
    const store: Store

    constructor (store: Store)
      ensures this.store == store
    {
      this.store := store;
    }

    method JoinWaitlist(user: User, slotID: SlotId, now: Time, createdAt: Time)
      returns (r: Result<Keyed<WaitlistEntry>, ErrorCode>)
      modifies store
      ensures Realises(Protocol.JoinWaitlist(old(store.View()), user, slotID, now, createdAt), r,
                       old(store.View()), store.View(), [], [], old(store.Faulty()))
      ensures store.Faulty() ==> old(store.Faulty())
      ensures r.Success? ==> StoredAs(store.waitlist, r.value) && r.value.id == |old(store.waitlist)|
                             && r.value.row.userID == user.id && r.value.row.slotID == slotID
                             && r.value.row.status.Active?
    {
      if user.role != RoleUser {
        return Failure(Forbidden);
      }
      var snapshot :- store.Begin();
      var joined := JoinWaitlistTx(user, slotID, now, createdAt);
      if joined.Failure? {
        store.Rollback(snapshot);
        return joined;
      }
      var ok := store.Commit(snapshot);
      if !ok {
        return Failure(InternalError);
      }
      return joined;
    }

    method JoinWaitlistTx(user: User, slotID: SlotId, now: Time, createdAt: Time)
      returns (r: Result<Keyed<WaitlistEntry>, ErrorCode>)
      requires user.role.RoleUser?
      modifies store`waitlist, store`nextPosition, store`faults
      ensures old(store.nextPosition) <= store.nextPosition
      ensures
        var o := Protocol.JoinWaitlist(old(store.View()), user, slotID, now, createdAt);
        match r
        case Success(_) => store.View() == o.db && o.result == r
        case Failure(error) => (o.result == r && store.nextPosition == o.db.nextPosition)
                               || (error == InternalError && old(store.Faulty()))
      ensures store.Faulty() ==> old(store.Faulty())
    {
      var slot :- store.GetSlot(slotID);
      if slot.None? {
        return Failure(SlotNotFound);
      }
      if slot.value.start < now {
        return Failure(InvalidRequest);
      }
      var booking :- store.GetActiveBookingBySlot(slotID);
      if booking.None? {
        return Failure(SlotNotBooked);
      }
      if booking.value.row.userID == user.id {
        return Failure(InvalidRequest);
      }
      r := store.Join(slotID, user.id, createdAt);
    }

    method LeaveWaitlist(user: User, id: nat) returns (r: Result<Keyed<WaitlistEntry>, ErrorCode>)
      modifies store
      ensures Realises(Protocol.LeaveWaitlist(old(store.View()), user, id), r,
                       old(store.View()), store.View(), [], [], old(store.Faulty()))
      ensures store.Faulty() ==> old(store.Faulty())
      ensures r.Success? ==> StoredAs(store.waitlist, r.value) && r.value.id == id
                             && (r.value.row.status.Cancelled? || r.value.row.status.Expired?)
    {
      if user.role != RoleUser {
        return Failure(Forbidden);
      }
      var snapshot :- store.Begin();
      var left := store.Leave(id, user.id);
      if left.Failure? {
        store.Rollback(snapshot);
        return Failure(left.error);
      }
      if left.value.None? {
        store.Rollback(snapshot);
        return Failure(WaitlistNotFound);
      }
      var ok := store.Commit(snapshot);
      if !ok {
        return Failure(InternalError);
      }
      return Success(left.value.value);
    }
  }

  class ReservationService {
    const store: Store
    const publisher: Publisher
    const ttl: Time

    constructor (store: Store, publisher: Publisher, reservationTTL: Time)
      ensures this.store == store && this.publisher == publisher && ttl == EffectiveTTL(reservationTTL)
    {
      this.store, this.publisher, ttl := store, publisher, EffectiveTTL(reservationTTL);
    }

    method ConfirmReservation(user: User, id: nat, now: Time) returns (r: Result<Confirmation, ErrorCode>)
      modifies store, publisher
      ensures Realises(Protocol.ConfirmReservation(old(store.View()), user, id, now), r,
                       old(store.View()), store.View(), old(publisher.log), publisher.log, old(store.Faulty()))
      ensures store.Faulty() ==> old(store.Faulty())
      ensures r.Success? ==>
        && StoredAs(store.reservations, r.value.reservation) && r.value.reservation.id == id
        && r.value.reservation.row.status.Confirmed?
        && StoredAs(store.bookings, r.value.booking) && r.value.booking.id == |old(store.bookings)|
        && r.value.booking.row == Booking(user.id, r.value.reservation.row.slotID, BookingStatus.Active, now)
      ensures r.Success? ==>
        var s := r.value.booking.row.slotID;
        && s in store.slots
        && publisher.log == old(publisher.log) + [SlotBooked(store.slots[s].roomID, s, r.value.booking.id)]
    {
      if user.role != RoleUser {
        return Failure(Forbidden);
      }
      var snapshot :- store.Begin();
      var done := ConfirmReservationTx(user, id, now);
      if done.Failure? {
        store.Rollback(snapshot);
        return Failure(done.error);
      }
      var ok := store.Commit(snapshot);
      if !ok {
        return Failure(InternalError);
      }
      var b := done.value.value.booking;
      if done.value.room.Some? {
        publisher.Publish(SlotBooked(done.value.room.value, b.row.slotID, b.id));
      }
      return Success(done.value.value);
    }

    method ConfirmReservationTx(user: User, id: nat, now: Time) returns (r: Result<Located<Confirmation>, ErrorCode>)
      requires user.role.RoleUser?
      modifies store`bookings, store`reservations, store`faults
      ensures
        var o := Protocol.ConfirmReservation(old(store.View()), user, id, now);
        match r
        case Success(done) => store.View() == o.db && o.result == Success(done.value)
                              && done.room == RoomOf(o.db, done.value.booking.row.slotID)
        case Failure(error) => (o.result == Failure(error) && store.nextPosition == o.db.nextPosition)
                               || (error == InternalError && old(store.Faulty()))
      ensures store.Faulty() ==> old(store.Faulty())
    {
      var found :- store.GetReservation(id);
      if found.None? {
        return Failure(ReservationNotFound);
      }
      var existing := found.value.row;
      if existing.userID != user.id {
        return Failure(Forbidden);
      }
      if !existing.status.Active? {
        return Failure(InvalidRequest);
      }
      if !(existing.expiresAt > now) {
        return Failure(InvalidRequest);
      }
      var active :- store.GetActiveBookingBySlot(existing.slotID);
      if active.Some? {
        return Failure(SlotAlreadyBooked);
      }
      var slot :- store.GetSlot(existing.slotID);
      if slot.None? {
        return Failure(SlotNotFound);
      }
      if slot.value.start < now {
        return Failure(InvalidRequest);
      }
      var created := Booking(user.id, existing.slotID, BookingStatus.Active, now);
      var bookingID :- store.CreateBooking(created);
      var updated :- store.SetConfirmed(id, now);
      if updated.None? {
        return Failure(ReservationNotFound);
      }
      return Success(Located(Some(slot.value.roomID), Confirmation(Keyed(bookingID, created), updated.value)));
    }

    method CancelReservation(user: User, id: nat, now: Time, dbNow: Time)
      returns (r: Result<Keyed<SlotReservation>, ErrorCode>)
      modifies store, publisher
      ensures Realises(Protocol.CancelReservation(old(store.View()), user, id, now, dbNow, ttl), r,
                       old(store.View()), store.View(), old(publisher.log), publisher.log, old(store.Faulty()))
      ensures store.Faulty() ==> old(store.Faulty())
      ensures r.Success? ==> StoredAs(store.reservations, r.value) && r.value.id == id
                             && !r.value.row.status.Active?
    {
      if user.role != RoleUser {
        return Failure(Forbidden);
      }
      var snapshot :- store.Begin();
      var done, changed, handover := CancelReservationTx(user, id, now, dbNow);
      if done.Failure? {
        store.Rollback(snapshot);
        return Failure(done.error);
      }
      var ok := store.Commit(snapshot);
      if !ok {
        return Failure(InternalError);
      }
      var cancelled, room := done.value.value, done.value.room;
      if !changed {
        return Success(cancelled);
      }
      var slotID := cancelled.row.slotID;
      if handover.Some? {
        var entry, next := handover.value.entry, handover.value.reservation;
        if room.Some? {
          publisher.Publish(SlotReserved(room.value, slotID, next.id));
        }
        publisher.Publish(WaitlistSlotReserved(room, slotID, entry.row.userID, next.id, entry.id, next.row.expiresAt));
      } else if room.Some? {
        publisher.Publish(SlotAvailable(room.value, slotID));
      }
      return Success(cancelled);
    }

    method CancelReservationTx(user: User, id: nat, now: Time, dbNow: Time)
      returns (r: Result<Located<Keyed<SlotReservation>>, ErrorCode>, changed: bool, handover: Option<Handover>)
      requires user.role.RoleUser?
      modifies store`waitlist, store`reservations, store`faults
      ensures
        var before := old(store.View());
        var o := Protocol.CancelReservation(before, user, id, now, dbNow, ttl);
        match r
        case Success(done) =>
          && store.View() == o.db && o.result == Success(done.value) && id < |before.reservations|
          && done.room == RoomOf(before, before.reservations[id].slotID)
          && done.value.row.slotID == before.reservations[id].slotID
          && (changed <==> before.reservations[id].status.Active?)
          && (changed ==>
                HandedOver(before.(reservations := EndReservationRow(before.reservations, id,
                                                                     CancelledReservation(before.reservations[id]))),
                           before.reservations[id].slotID, now, dbNow, ttl, handover))
        case Failure(error) => (o.result == Failure(error) && store.nextPosition == o.db.nextPosition)
                               || (error == InternalError && old(store.Faulty()))
      ensures store.Faulty() ==> old(store.Faulty())
    {
      changed, handover := false, None;
      var found := store.GetReservation(id);
      if found.Failure? {
        return Failure(found.error), false, None;
      }
      if found.value.None? {
        return Failure(ReservationNotFound), false, None;
      }
      var existing := found.value.value;
      if existing.row.userID != user.id {
        return Failure(Forbidden), false, None;
      }
      var slot := store.GetSlot(existing.row.slotID);
      if slot.Failure? {
        return Failure(slot.error), false, None;
      }
      var room := if slot.value.None? then None else Some(slot.value.value.roomID);
      if !existing.row.status.Active? {
        return Success(Located(room, existing)), false, None;
      }
      var updated := store.SetReservationCancelled(id);
      if updated.Failure? {
        return Failure(updated.error), false, None;
      }
      if updated.value.None? {
        return Failure(ReservationNotFound), false, None;
      }
      changed := true;
      var promoted := PromoteNext(store, existing.row.slotID, now, dbNow, ttl);
      if promoted.Failure? {
        return Failure(promoted.error), true, None;
      }
      handover := promoted.value;
      r := Success(Located(room, updated.value.value));
    }

    // `answer` is what the expiry query returns when it is run, in the database's order.
    method ExpireDue(limit: int, now: Time, dbNow: Time, answer: seq<nat>) returns (r: Result<(), ErrorCode>)
      requires ExpiryAnswer(store.reservations, now, BatchLimit(limit), answer)
      modifies store, publisher
      ensures Realises(Protocol.ExpireDue(old(store.View()), answer, now, dbNow, ttl), r,
                       old(store.View()), store.View(), old(publisher.log), publisher.log, old(store.Faulty()))
      ensures store.Faulty() ==> old(store.Faulty())
    {
      ghost var before := store.View();
      var batchLimit := if limit <= 0 then DEFAULT_EXPIRATION_BATCH else limit;
      var snapshot :- store.Begin();
      var expired, slotRooms, replacements := ExpireDueTx(batchLimit, now, dbNow, answer);
      if expired.Failure? {
        store.Rollback(snapshot);
        return Failure(expired.error);
      }
      var ok := store.Commit(snapshot);
      if !ok {
        return Failure(InternalError);
      }
      Announce(before, answer, expired.value, slotRooms, replacements);
      return Success(());
    }

    method ExpireDueTx(limit: nat, now: Time, dbNow: Time, answer: seq<nat>)
      returns (r: Result<seq<Keyed<SlotReservation>>, ErrorCode>, slotRooms: map<SlotId, RoomId>,
               replacements: seq<Replacement>)
      requires ExpiryAnswer(store.reservations, now, limit, answer)
      modifies store`waitlist, store`reservations, store`faults
      ensures
        var before := old(store.View());
        var o := Protocol.ExpireDue(before, answer, now, dbNow, ttl);
        match r
        case Success(items) =>
          && o.result == Success(()) && store.View() == o.db
          && o.events == ExpiryNotices(before, answer, replacements) + ReplacementNotices(before, replacements)
          && ItemsOf(before, answer, items) && RoomsKnown(before.slots, items, replacements, slotRooms)
        case Failure(error) => error == InternalError && (o.result == Failure(error) || old(store.Faulty()))
      ensures store.Faulty() ==> old(store.Faulty())
    {
      ghost var before := store.View();
      r := store.ExpireBatch(now, limit, answer);
      if r.Failure? {
        return r, map[], [];
      }
      ghost var slots := SlotsOf(before.reservations, answer);
      assert forall k | 0 <= k < |answer| :: r.value[k].row.slotID == slots[k];
      var failed;
      failed, slotRooms, replacements := PromoteExpired(r.value, slots, now, dbNow);
      if failed {
        r := Failure(InternalError);
      }
    }

    // One slot after the other: look up its room, claim its next waiter, reserve the slot for them.
    method PromoteExpired(expired: seq<Keyed<SlotReservation>>, ghost slots: seq<SlotId>, now: Time, dbNow: Time)
      returns (failed: bool, slotRooms: map<SlotId, RoomId>, replacements: seq<Replacement>)
      requires |slots| == |expired| && forall k | 0 <= k < |expired| :: expired[k].row.slotID == slots[k]
      modifies store`waitlist, store`reservations, store`faults
      ensures
        var whole := PromoteAll(Batch(old(store.View()), []), slots, now, dbNow, ttl);
        if failed then whole == Failure(InternalError) || old(store.Faulty())
        else whole == Success(Batch(store.View(), replacements))
             && RoomsKnown(store.slots, expired, replacements, slotRooms)
      ensures store.Faulty() ==> old(store.Faulty())
    {
      ghost var whole := PromoteAll(Batch(store.View(), []), slots, now, dbNow, ttl);
      failed, slotRooms, replacements := false, map[], [];
      assert slots[0..] == slots;
      for k := 0 to |expired|
        invariant !failed
        invariant PromoteAll(Batch(store.View(), replacements), slots[k..], now, dbNow, ttl) == whole
        invariant RoomsKnown(store.slots, expired[..k], replacements, slotRooms)
        invariant store.Faulty() ==> old(store.Faulty())
      {
        assert slots[k..][1..] == slots[k + 1..];
        assert expired[..k + 1] == expired[..k] + [expired[k]];
        failed, slotRooms, replacements :=
          PromoteOneExpired(expired[..k], expired[k], slotRooms, replacements, now, dbNow);
        if failed {
          return;
        }
      }
      assert slots[|expired|..] == [] && expired[..|expired|] == expired;
    }

    // The body of the loop above.
    method PromoteOneExpired(ghost earlier: seq<Keyed<SlotReservation>>, item: Keyed<SlotReservation>,
                             rooms: map<SlotId, RoomId>, sofar: seq<Replacement>, now: Time, dbNow: Time)
      returns (failed: bool, slotRooms: map<SlotId, RoomId>, replacements: seq<Replacement>)
      requires RoomsKnown(store.slots, earlier, sofar, rooms)
      modifies store`waitlist, store`reservations, store`faults
      ensures
        var one := PromoteOne(Batch(old(store.View()), sofar), item.row.slotID, now, dbNow, ttl);
        if failed then one == Failure(InternalError) || old(store.Faulty())
        else one == Success(Batch(store.View(), replacements))
             && RoomsKnown(store.slots, earlier + [item], replacements, slotRooms)
      ensures store.Faulty() ==> old(store.Faulty())
    {
      slotRooms, replacements := rooms, sofar;
      var slot := store.GetSlot(item.row.slotID);
      if slot.Failure? {
        return true, rooms, sofar;
      }
      if slot.value.Some? {
        slotRooms := slotRooms[item.row.slotID := slot.value.value.roomID];
      }
      var promoted := PromoteNext(store, item.row.slotID, now, dbNow, ttl);
      if promoted.Failure? {
        return true, slotRooms, sofar;
      }
      if promoted.value.Some? {
        var entry, next := promoted.value.value.entry, promoted.value.value.reservation;
        replacements := replacements
          + [Replacement(item.row.slotID, entry.row.userID, entry.id, next.id, next.row.expiresAt)];
      }
      failed := false;
    }

    // The expired rows, in the order of the answer.
    ghost predicate ItemsOf(before: Db, answer: seq<nat>, items: seq<Keyed<SlotReservation>>) {
      && |items| == |answer|
      && forall k | 0 <= k < |answer| ::
        && answer[k] < |before.reservations|
        && items[k].id == answer[k]
        && items[k].row.slotID == before.reservations[answer[k]].slotID
        && items[k].row.userID == before.reservations[answer[k]].userID
    }

    function RoomIn(slotRooms: map<SlotId, RoomId>, s: SlotId): Option<RoomId> {
      if s in slotRooms then Some(slotRooms[s]) else None
    }

    // slotRooms is right about every slot in it, and has every known slot of the items and replacements.
    ghost predicate RoomsKnown(slots: map<SlotId, Slot>, items: seq<Keyed<SlotReservation>>,
                               replacements: seq<Replacement>, slotRooms: map<SlotId, RoomId>)
    {
      && (forall s | s in slotRooms :: s in slots && slotRooms[s] == slots[s].roomID)
      && (forall k | 0 <= k < |items| :: items[k].row.slotID in slots ==> items[k].row.slotID in slotRooms)
      && (forall k | 0 <= k < |replacements| ::
            replacements[k].slotID in slots ==> replacements[k].slotID in slotRooms)
    }

    method Announce(ghost before: Db, ghost answer: seq<nat>, items: seq<Keyed<SlotReservation>>,
                    slotRooms: map<SlotId, RoomId>, replacements: seq<Replacement>)
      requires ItemsOf(before, answer, items) && RoomsKnown(before.slots, items, replacements, slotRooms)
      modifies publisher
      ensures publisher.log == old(publisher.log)
                               + (ExpiryNotices(before, answer, replacements)
                                  + ReplacementNotices(before, replacements))
    {
      PublishExpired(before, answer, items, slotRooms, replacements);
      PublishReplacements(before, slotRooms, replacements);
    }

    method PublishExpired(ghost before: Db, ghost answer: seq<nat>, items: seq<Keyed<SlotReservation>>,
                          slotRooms: map<SlotId, RoomId>, replacements: seq<Replacement>)
      requires ItemsOf(before, answer, items) && RoomsKnown(before.slots, items, replacements, slotRooms)
      modifies publisher
      ensures publisher.log == old(publisher.log) + ExpiryNotices(before, answer, replacements)
    {
      var slotHasReplacement := set i | 0 <= i < |replacements| :: replacements[i].slotID;
      ghost var done := publisher.log + ExpiryNotices(before, answer, replacements);
      assert answer[0..] == answer;
      for k := 0 to |items|
        invariant publisher.log + ExpiryNotices(before, answer[k..], replacements) == done
      {
        assert answer[k..][1..] == answer[k + 1..];
        PublishOneExpired(before, items[k], RoomIn(slotRooms, items[k].row.slotID),
                          items[k].row.slotID in slotHasReplacement);
      }
      assert answer[|items|..] == [];
    }

    method PublishOneExpired(ghost before: Db, item: Keyed<SlotReservation>, room: Option<RoomId>, replaced: bool)
      requires item.id < |before.reservations|
      requires item.row.slotID == before.reservations[item.id].slotID
      requires item.row.userID == before.reservations[item.id].userID && room == RoomOf(before, item.row.slotID)
      modifies publisher
      ensures publisher.log == old(publisher.log) + ExpiryNotice(before, item.id, replaced)
    {
      publisher.Publish(ReservationExpired(room, item.row.slotID, item.row.userID, item.id));
      if room.Some? {
        publisher.Publish(SlotReservationExpired(room.value, item.row.slotID, item.id));
        if !replaced {
          publisher.Publish(SlotAvailable(room.value, item.row.slotID));
        }
      }
    }

    method PublishReplacements(ghost before: Db, slotRooms: map<SlotId, RoomId>, replacements: seq<Replacement>)
      requires forall i | 0 <= i < |replacements| ::
        RoomIn(slotRooms, replacements[i].slotID) == RoomOf(before, replacements[i].slotID)
      modifies publisher
      ensures publisher.log == old(publisher.log) + ReplacementNotices(before, replacements)
    {
      ghost var done := publisher.log + ReplacementNotices(before, replacements);
      assert replacements[0..] == replacements;
      for k := 0 to |replacements|
        invariant publisher.log + ReplacementNotices(before, replacements[k..]) == done
      {
        assert replacements[k..][1..] == replacements[k + 1..];
        PublishReplacement(before, RoomIn(slotRooms, replacements[k].slotID), replacements[k]);
      }
      assert replacements[|replacements|..] == [];
    }

    method PublishReplacement(ghost before: Db, room: Option<RoomId>, item: Replacement)
      requires room == RoomOf(before, item.slotID)
      modifies publisher
      ensures publisher.log == old(publisher.log) + ReplacementNotice(before, item)
    {
      if room.Some? {
        publisher.Publish(SlotReserved(room.value, item.slotID, item.reservationID));
      }
      publisher.Publish(
        WaitlistSlotReserved(room, item.slotID, item.userID, item.reservationID, item.entryID, item.expiresAt));
    }
  }
}
