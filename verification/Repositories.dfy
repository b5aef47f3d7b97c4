/** The repositories over one database, its transactions, and the event publisher. */
module Repositories {
  import opened Wrappers
  import opened Domain
  import opened Tables
  import opened Protocol

  class Store {
    var slots: map<SlotId, Slot>
    var bookings: seq<Booking>
    var waitlist: seq<WaitlistEntry>
    var reservations: seq<SlotReservation>
    var nextPosition: nat
    // Which of the calls to come fail for an infrastructure reason; beyond the script none does.
    var faults: seq<bool>

    constructor (slots: map<SlotId, Slot>, faults: seq<bool>)
      ensures Initial(View()) && this.slots == slots && this.faults == faults
    {
      this.slots := slots;
      bookings, waitlist, reservations := [], [], [];
      nextPosition := 0;
      this.faults := faults;
    }

    ghost function View(): Db
      reads this
    {
      Db(slots, bookings, waitlist, reservations, nextPosition)
    }

    predicate Faulty()
      reads `faults
    {
      true in faults
    }

    // The next call fails.
    predicate NextFails()
      reads `faults
    {
      faults != [] && faults[0]
    }

    method Fails() returns (failed: bool)
      modifies `faults
      ensures failed == old(NextFails()) && faults == if old(faults) == [] then [] else old(faults)[1..]
      ensures failed || Faulty() ==> old(Faulty())
    {
      if faults == [] {
        return false;
      }
      failed := faults[0];
      faults := faults[1..];
    }

    // ---- Transactions ----

    method Begin() returns (r: Result<Db, ErrorCode>)
      modifies `faults
      ensures r.Success? ==> r.value == View()
      ensures r.Failure? ==> r.error == InternalError && old(Faulty())
      ensures old(NextFails()) ==> r.Failure?
      ensures Faulty() ==> old(Faulty())
    {
      var failed := Fails();
      if failed {
        return Failure(InternalError);
      }
      return Success(Db(slots, bookings, waitlist, reservations, nextPosition));
    }

    // The tables go back; the position sequence does not.
    method Rollback(snapshot: Db)
      modifies `bookings, `waitlist, `reservations
      ensures View() == snapshot.(slots := slots, nextPosition := nextPosition)
    {
      bookings, waitlist, reservations := snapshot.bookings, snapshot.waitlist, snapshot.reservations;
    }

    method Commit(snapshot: Db) returns (ok: bool)
      modifies `bookings, `waitlist, `reservations, `faults
      ensures ok ==> View() == old(View())
      ensures !ok ==> View() == snapshot.(slots := slots, nextPosition := nextPosition) && old(Faulty())
      ensures ok <==> !old(NextFails())
      ensures Faulty() ==> old(Faulty())
    {
      var failed := Fails();
      if failed {
        Rollback(snapshot);
      }
      return !failed;
    }

    // ---- Slots ----

    // The generator's inserts: stored slots stay as they are.
    method AddSlots(added: map<SlotId, Slot>)
      modifies `slots
      ensures slots == added + old(slots)
    {
      slots := added + slots;
    }

    method GetSlot(s: SlotId) returns (r: Result<Option<Slot>, ErrorCode>)
      modifies `faults
      ensures r.Success? ==> r.value == if s in slots then Some(slots[s]) else None
      ensures r.Failure? ==> r.error == InternalError && old(Faulty())
      ensures old(NextFails()) ==> r.Failure?
      ensures Faulty() ==> old(Faulty())
    {
      var failed := Fails();
      if failed {
        return Failure(InternalError);
      }
      return Success(if s in slots then Some(slots[s]) else None);
    }

    // ---- Bookings ----

    method GetBooking(id: nat) returns (r: Result<Option<Keyed<Booking>>, ErrorCode>)
      modifies `faults
      ensures r.Success? ==> r.value == if id < |bookings| then Some(Keyed(id, bookings[id])) else None
      ensures r.Failure? ==> r.error == InternalError && old(Faulty())
      ensures old(NextFails()) ==> r.Failure?
      ensures Faulty() ==> old(Faulty())
    {
      var failed := Fails();
      if failed {
        return Failure(InternalError);
      }
      return Success(if id < |bookings| then Some(Keyed(id, bookings[id])) else None);
    }

    method GetActiveBookingBySlot(s: SlotId) returns (r: Result<Option<Keyed<Booking>>, ErrorCode>)
      modifies `faults
      ensures r.Success? ==>
        match FindActiveBooking(bookings, s)
        case None => r.value == None
        case Some(id) => r.value == Some(Keyed(id, bookings[id]))
      ensures r.Failure? ==> r.error == InternalError && old(Faulty())
      ensures old(NextFails()) ==> r.Failure?
      ensures Faulty() ==> old(Faulty())
    {
      var failed := Fails();
      if failed {
        return Failure(InternalError);
      }
      var id := FindActiveBooking(bookings, s);
      return Success(if id.None? then None else Some(Keyed(id.value, bookings[id.value])));
    }

    // INSERT ... ON CONFLICT (slot_id) WHERE (status = 'active') DO NOTHING
    method CreateBooking(b: Booking) returns (r: Result<nat, ErrorCode>)
      requires b.status.Active?
      modifies `bookings, `faults
      ensures r.Success? ==> FindActiveBooking(old(bookings), b.slotID).None?
                             && bookings == old(bookings) + [b] && r.value == |old(bookings)|
      ensures r.Failure? ==> bookings == old(bookings)
      ensures r.Failure? ==> || (r.error == InternalError && old(Faulty()))
                             || (r.error == SlotAlreadyBooked && FindActiveBooking(bookings, b.slotID).Some?)
      ensures old(NextFails()) ==> r.Failure?
      ensures Faulty() ==> old(Faulty())
    {
      var failed := Fails();
      if failed {
        return Failure(InternalError);
      }
      if FindActiveBooking(bookings, b.slotID).Some? {
        return Failure(SlotAlreadyBooked);
      }
      r := Success(|bookings|);
      bookings := bookings + [b];
    }

    // UPDATE ... WHERE id = id AND status = 'active'; when no row matches, the row as it is.
    method SetBookingCancelled(id: nat) returns (r: Result<Option<Keyed<Booking>>, ErrorCode>)
      modifies `bookings, `faults
      ensures r.Success? && id < |old(bookings)| && old(bookings)[id].status.Active? ==>
        bookings == CancelBookingRow(old(bookings), id) && r.value == Some(Keyed(id, bookings[id]))
      ensures r.Success? && id < |old(bookings)| && !old(bookings)[id].status.Active? ==>
        bookings == old(bookings) && r.value == Some(Keyed(id, bookings[id]))
      ensures r.Success? && id >= |old(bookings)| ==> bookings == old(bookings) && r.value == None
      ensures r.Failure? ==> r.error == InternalError && old(Faulty()) && bookings == old(bookings)
      ensures old(NextFails()) ==> r.Failure?
      ensures Faulty() ==> old(Faulty())
    {
      var failed := Fails();
      if failed {
        return Failure(InternalError);
      }
      if id >= |bookings| {
        return Success(None);
      }
      if bookings[id].status.Active? {
        bookings := bookings[id := bookings[id].(status := BookingStatus.Cancelled)];
      }
      return Success(Some(Keyed(id, bookings[id])));
    }

    // ---- Waitlist ----

    // The sequence is advanced before the unique index on active and notified entries is looked at.
    method Join(s: SlotId, u: UserId, createdAt: Time) returns (r: Result<Keyed<WaitlistEntry>, ErrorCode>)
      modifies `waitlist, `nextPosition, `faults
      ensures
        var e := WaitlistEntry(s, u, WaitlistStatus.Active, old(nextPosition), createdAt, None);
        r.Success? ==> FindPending(old(waitlist), s, u).None? && waitlist == old(waitlist) + [e]
                       && nextPosition == old(nextPosition) + 1 && r.value == Keyed(|old(waitlist)|, e)
      ensures r.Failure? ==> waitlist == old(waitlist)
      ensures r.Failure? ==>
        || (r.error == InternalError && old(Faulty()) && old(nextPosition) <= nextPosition)
        || (r.error == WaitlistJoined && FindPending(waitlist, s, u).Some? && nextPosition == old(nextPosition) + 1)
      ensures old(NextFails()) ==> r.Failure?
      ensures Faulty() ==> old(Faulty())
    {
      var failed := Fails();
      if failed {
        return Failure(InternalError);
      }
      var e := WaitlistEntry(s, u, WaitlistStatus.Active, nextPosition, createdAt, None);
      nextPosition := nextPosition + 1;
      var lost := Fails();
      if lost {
        return Failure(InternalError);
      }
      if FindPending(waitlist, s, u).Some? {
        return Failure(WaitlistJoined);
      }
      r := Success(Keyed(|waitlist|, e));
      waitlist := waitlist + [e];
    }

    method Leave(id: nat, u: UserId) returns (r: Result<Option<Keyed<WaitlistEntry>>, ErrorCode>)
      modifies `waitlist, `faults
      ensures
        var rows := old(waitlist);
        var found := id < |rows| && rows[id].userID == u;
        r.Success? ==>
          && (!found ==> waitlist == rows && r.value == None)
          && (found ==> |waitlist| == |rows| && r.value == Some(Keyed(id, waitlist[id]))
                        && waitlist == if rows[id].status.Active? || rows[id].status.Notified? then LeaveRow(rows, id)
                                       else rows)
      ensures r.Failure? ==> r.error == InternalError && old(Faulty())
      ensures old(NextFails()) ==> r.Failure?
      ensures Faulty() ==> old(Faulty())
    {
      var failed := Fails();
      if failed {
        return Failure(InternalError);
      }
      if id >= |waitlist| || waitlist[id].userID != u {
        return Success(None);
      }
      if waitlist[id].status.Active? || waitlist[id].status.Notified? {
        waitlist := waitlist[id := waitlist[id].(status := WaitlistStatus.Cancelled)];
      }
      return Success(Some(Keyed(id, waitlist[id])));
    }

    // The active entry of the slot with the smallest position, now notified.
    method ClaimNextForNotify(s: SlotId, dbNow: Time) returns (r: Result<Option<Keyed<WaitlistEntry>>, ErrorCode>)
      modifies `waitlist, `faults
      ensures
        var next := NextWaiting(old(waitlist), s);
        r.Success? ==>
          && (next.None? ==> waitlist == old(waitlist) && r.value == None)
          && (next.Some? ==> waitlist == ClaimRow(old(waitlist), next.value, dbNow)
                             && r.value == Some(Keyed(next.value, waitlist[next.value])))
      ensures r.Failure? ==> r.error == InternalError && old(Faulty())
      ensures old(NextFails()) ==> r.Failure?
      ensures Faulty() ==> old(Faulty())
    {
      var failed := Fails();
      if failed {
        return Failure(InternalError);
      }
      var next := NextWaiting(waitlist, s);
      if next.None? {
        return Success(None);
      }
      var e := waitlist[next.value].(status := WaitlistStatus.Notified, notifiedAt := Some(dbNow));
      waitlist := waitlist[next.value := e];
      return Success(Some(Keyed(next.value, e)));
    }

    // ---- Reservations ----

    method GetReservation(id: nat) returns (r: Result<Option<Keyed<SlotReservation>>, ErrorCode>)
      modifies `faults
      ensures r.Success? ==> r.value == if id < |reservations| then Some(Keyed(id, reservations[id])) else None
      ensures r.Failure? ==> r.error == InternalError && old(Faulty())
      ensures old(NextFails()) ==> r.Failure?
      ensures Faulty() ==> old(Faulty())
    {
      var failed := Fails();
      if failed {
        return Failure(InternalError);
      }
      return Success(if id < |reservations| then Some(Keyed(id, reservations[id])) else None);
    }

    method GetActiveReservationBySlot(s: SlotId) returns (r: Result<Option<Keyed<SlotReservation>>, ErrorCode>)
      modifies `faults
      ensures r.Success? ==>
        match FindActiveReservation(reservations, s)
        case None => r.value == None
        case Some(id) => r.value == Some(Keyed(id, reservations[id]))
      ensures r.Failure? ==> r.error == InternalError && old(Faulty())
      ensures old(NextFails()) ==> r.Failure?
      ensures Faulty() ==> old(Faulty())
    {
      var failed := Fails();
      if failed {
        return Failure(InternalError);
      }
      var id := FindActiveReservation(reservations, s);
      return Success(if id.None? then None else Some(Keyed(id.value, reservations[id.value])));
    }

    // The unique index allows one active reservation for a slot.
    method CreateReservation(row: SlotReservation) returns (r: Result<Keyed<SlotReservation>, ErrorCode>)
      requires row.status.Active?
      modifies `reservations, `faults
      ensures r.Success? ==> FindActiveReservation(old(reservations), row.slotID).None?
                             && reservations == old(reservations) + [row] && r.value == Keyed(|old(reservations)|, row)
      ensures r.Failure? ==> || (r.error == InternalError && old(Faulty()))
                             || (r.error == SlotIsReserved
                                 && FindActiveReservation(old(reservations), row.slotID).Some?)
      ensures old(NextFails()) ==> r.Failure?
      ensures Faulty() ==> old(Faulty())
    {
      var failed := Fails();
      if failed {
        return Failure(InternalError);
      }
      if FindActiveReservation(reservations, row.slotID).Some? {
        return Failure(SlotIsReserved);
      }
      r := Success(Keyed(|reservations|, row));
      reservations := reservations + [row];
    }

    method SetConfirmed(id: nat, now: Time) returns (r: Result<Option<Keyed<SlotReservation>>, ErrorCode>)
      modifies `reservations, `faults
      ensures
        var rows := old(reservations);
        r.Success? ==>
          && (id >= |rows| ==> r.value == None && reservations == rows)
          && (id < |rows| ==> |reservations| == |rows| && r.value == Some(Keyed(id, reservations[id]))
                              && reservations == if !rows[id].status.Active? then rows
                                                 else EndReservationRow(rows, id, ConfirmedReservation(rows[id], now)))
      ensures r.Failure? ==> r.error == InternalError && old(Faulty())
      ensures old(NextFails()) ==> r.Failure?
      ensures Faulty() ==> old(Faulty())
    {
      var failed := Fails();
      if failed {
        return Failure(InternalError);
      }
      if id >= |reservations| {
        return Success(None);
      }
      if reservations[id].status.Active? {
        var row := reservations[id].(status := ReservationStatus.Confirmed, confirmedAt := Some(now));
        reservations := reservations[id := row];
      }
      return Success(Some(Keyed(id, reservations[id])));
    }

    method SetReservationCancelled(id: nat) returns (r: Result<Option<Keyed<SlotReservation>>, ErrorCode>)
      modifies `reservations, `faults
      ensures
        var rows := old(reservations);
        r.Success? ==>
          && (id >= |rows| ==> r.value == None && reservations == rows)
          && (id < |rows| ==> |reservations| == |rows| && r.value == Some(Keyed(id, reservations[id]))
                              && reservations == if !rows[id].status.Active? then rows
                                                 else EndReservationRow(rows, id, CancelledReservation(rows[id])))
      ensures r.Failure? ==> r.error == InternalError && old(Faulty())
      ensures old(NextFails()) ==> r.Failure?
      ensures Faulty() ==> old(Faulty())
    {
      var failed := Fails();
      if failed {
        return Failure(InternalError);
      }
      if id >= |reservations| {
        return Success(None);
      }
      if reservations[id].status.Active? {
        reservations := reservations[id := reservations[id].(status := ReservationStatus.Cancelled)];
      }
      return Success(Some(Keyed(id, reservations[id])));
    }

    // answer stands for the rows the database picks, in the order it returns them.
    method ExpireBatch(now: Time, limit: nat, answer: seq<nat>)
      returns (r: Result<seq<Keyed<SlotReservation>>, ErrorCode>)
      requires ExpiryAnswer(reservations, now, limit, answer)
      modifies `reservations, `faults
      ensures r.Success? ==>
        && reservations == ExpireRows(old(reservations), answer, now)
        && |r.value| == |answer|
        && forall k | 0 <= k < |answer| :: r.value[k] == Keyed(answer[k], reservations[answer[k]])
      ensures r.Failure? ==> r.error == InternalError && old(Faulty()) && reservations == old(reservations)
      ensures old(NextFails()) ==> r.Failure?
      ensures Faulty() ==> old(Faulty())
    {
      var failed := Fails();
      if failed {
        return Failure(InternalError);
      }
      var rows := reservations;
      var expired := ExpireRows(rows, answer, now);
      reservations := expired;
      return Success(seq(|answer|, k requires 0 <= k < |answer| => Keyed(answer[k], expired[answer[k]])));
    }
  }

  // Published events, oldest first.
  class Publisher {
    var log: seq<Event>

    constructor ()
      ensures log == []
    {
      log := [];
    }

    method Publish(event: Event)
      modifies this
      ensures log == old(log) + [event]
    {
      log := log + [event];
    }
  }
}
