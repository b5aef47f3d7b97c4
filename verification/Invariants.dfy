/** What every transaction keeps. */
module Invariants {
  import opened Wrappers
  import opened Domain
  import opened Tables
  import opened Protocol

  // ---- The invariant ----

  ghost predicate References(db: Db) {
    && (forall i | 0 <= i < |db.bookings| :: db.bookings[i].slotID in db.slots)
    && (forall i | 0 <= i < |db.waitlist| :: db.waitlist[i].slotID in db.slots)
    && (forall i | 0 <= i < |db.reservations| :: db.reservations[i].slotID in db.slots)
  }

  // A slot has at most one active booking.
  ghost predicate OneBooking(rows: seq<Booking>) {
    forall i, j {:trigger Books(rows[i], rows[j].slotID)}
      | 0 <= i < |rows| && 0 <= j < |rows| && Books(rows[i], rows[j].slotID) && rows[j].status.Active? :: i == j
  }

  // A slot has at most one active reservation.
  ghost predicate OneReservation(rows: seq<SlotReservation>) {
    forall i, j {:trigger Reserves(rows[i], rows[j].slotID)}
      | 0 <= i < |rows| && 0 <= j < |rows| && Reserves(rows[i], rows[j].slotID) && rows[j].status.Active? :: i == j
  }

  // No slot is booked and reserved at once.
  ghost predicate NeverBoth(bookings: seq<Booking>, reservations: seq<SlotReservation>) {
    forall i, j {:trigger Books(bookings[i], reservations[j].slotID)}
      {:trigger Reserves(reservations[j], bookings[i].slotID)}
      | 0 <= i < |bookings| && 0 <= j < |reservations|
        && Books(bookings[i], reservations[j].slotID) && reservations[j].status.Active? ::
      !Reserves(reservations[j], bookings[i].slotID)
  }

  // Positions are handed out in row order and the sequence is ahead of all of them.
  ghost predicate Positions(rows: seq<WaitlistEntry>, next: nat) {
    && (forall i | 0 <= i < |rows| :: rows[i].position < next)
    && (forall i, j {:trigger rows[i].position, rows[j].position} | 0 <= i < j < |rows| ::
          rows[i].position < rows[j].position)
  }

  // The unique index on active and notified entries.
  ghost predicate OneEntry(rows: seq<WaitlistEntry>) {
    forall i, j {:trigger Pending(rows[i], rows[j].slotID, rows[j].userID)}
      | 0 <= i < |rows| && 0 <= j < |rows| && Pending(rows[i], rows[j].slotID, rows[j].userID)
        && Pending(rows[j], rows[j].slotID, rows[j].userID) :: i == j
  }

  // An entry is stamped exactly when it has been claimed; status 'expired' is never written.
  ghost predicate Stamped(rows: seq<WaitlistEntry>) {
    forall i | 0 <= i < |rows| ::
      && (rows[i].status.Active? ==> rows[i].notifiedAt.None?)
      && (rows[i].status.Notified? ==> rows[i].notifiedAt.Some?)
      && !rows[i].status.Expired?
  }

  // Whoever has been claimed for a slot stood before everyone who still waits for it.
  ghost predicate NoOvertaking(rows: seq<WaitlistEntry>) {
    forall i, j {:trigger rows[i].notifiedAt.Some?, rows[j].status.Active?}
      | 0 <= i < |rows| && 0 <= j < |rows| && rows[i].notifiedAt.Some? && rows[j].status.Active?
        && rows[i].slotID == rows[j].slotID :: rows[i].position < rows[j].position
  }

  ghost predicate ClaimedBy(e: WaitlistEntry, r: SlotReservation) {
    e.notifiedAt.Some? && e.slotID == r.slotID && e.userID == r.userID
  }

  // Claimed entries and reservations correspond one to one, for the same slot and user.
  ghost predicate ClaimsMatch(waitlist: seq<WaitlistEntry>, reservations: seq<SlotReservation>) {
    && (forall i | 0 <= i < |reservations| ::
          && reservations[i].waitlistEntryID.Some?
          && reservations[i].waitlistEntryID.value < |waitlist|
          && ClaimedBy(waitlist[reservations[i].waitlistEntryID.value], reservations[i]))
    && (forall i, j {:trigger reservations[i].waitlistEntryID, reservations[j].waitlistEntryID}
          | 0 <= i < |reservations| && 0 <= j < |reservations|
            && reservations[i].waitlistEntryID == reservations[j].waitlistEntryID :: i == j)
    && (forall e | 0 <= e < |waitlist| && waitlist[e].notifiedAt.Some? :: FindReservationFor(reservations, e).Some?)
  }

  // The holder of a slot does not wait for it.
  ghost predicate HolderNotWaiting(db: Db) {
    && (forall i, j {:trigger Waits(db.waitlist[j], db.bookings[i].slotID)}
          | 0 <= i < |db.bookings| && 0 <= j < |db.waitlist|
            && db.bookings[i].status.Active? && Waits(db.waitlist[j], db.bookings[i].slotID) ::
          db.bookings[i].userID != db.waitlist[j].userID)
    && (forall i, j {:trigger Waits(db.waitlist[j], db.reservations[i].slotID)}
          | 0 <= i < |db.reservations| && 0 <= j < |db.waitlist|
            && db.reservations[i].status.Active? && Waits(db.waitlist[j], db.reservations[i].slotID) ::
          db.reservations[i].userID != db.waitlist[j].userID)
  }

  predicate BookedAs(b: Booking, r: SlotReservation) {
    b.userID == r.userID && b.slotID == r.slotID && r.confirmedAt == Some(b.createdAt)
  }

  // How a reservation has ended, if it has: confirmed before its deadline, into a booking made at that instant;
  // expired at or after its deadline; or cancelled.
  ghost predicate Ended(bookings: seq<Booking>, r: SlotReservation) {
    match r.status
    case Active => r.confirmedAt.None? && r.expiredAt.None?
    case Confirmed =>
      && r.confirmedAt.Some? && r.confirmedAt.value < r.expiresAt && r.expiredAt.None?
      && exists b | 0 <= b < |bookings| :: BookedAs(bookings[b], r)
    case Expired => r.expiredAt.Some? && r.expiresAt <= r.expiredAt.value && r.confirmedAt.None?
    case Cancelled => r.confirmedAt.None? && r.expiredAt.None?
  }

  ghost predicate Outcomes(bookings: seq<Booking>, reservations: seq<SlotReservation>) {
    forall i | 0 <= i < |reservations| :: Ended(bookings, reservations[i])
  }

  // Whoever waits, waits for a slot somebody holds; `gap` is a slot in the middle of being handed over.
  ghost predicate WaitersHeld(db: Db, gap: Option<SlotId>) {
    forall i | 0 <= i < |db.waitlist| && db.waitlist[i].status.Active? && Some(db.waitlist[i].slotID) != gap ::
      Held(db, db.waitlist[i].slotID)
  }

  // What makes the tables a lock per slot.
  ghost predicate Exclusive(db: Db) {
    && OneBooking(db.bookings)
    && OneReservation(db.reservations)
    && NeverBoth(db.bookings, db.reservations)
    && Positions(db.waitlist, db.nextPosition)
    && OneEntry(db.waitlist)
  }

  // What the rows remember.
  ghost predicate Records(db: Db, gap: Option<SlotId>) {
    && References(db)
    && Stamped(db.waitlist)
    && NoOvertaking(db.waitlist)
    && ClaimsMatch(db.waitlist, db.reservations)
    && HolderNotWaiting(db)
    && Outcomes(db.bookings, db.reservations)
    && WaitersHeld(db, gap)
  }

  ghost predicate Inv(db: Db) {
    Exclusive(db) && Records(db, None)
  }

  // Inside a transaction, between giving slot s up and handing it to the next waiter.
  ghost predicate Vacant(db: Db, s: SlotId) {
    Exclusive(db) && !Held(db, s)
  }

  ghost predicate Freed(db: Db, s: SlotId) {
    Vacant(db, s) && Records(db, Some(s))
  }

  // ---- Giving a slot up ----

  lemma CancelVacates(db: Db, id: nat)
    requires Exclusive(db) && id < |db.bookings| && db.bookings[id].status.Active?
    ensures Vacant(db.(bookings := CancelBookingRow(db.bookings, id)), db.bookings[id].slotID)
  {
  }

  lemma CancelFrees(db: Db, id: nat)
    requires Inv(db) && id < |db.bookings| && db.bookings[id].status.Active?
    ensures Freed(db.(bookings := CancelBookingRow(db.bookings, id)), db.bookings[id].slotID)
  {
    var after := db.(bookings := CancelBookingRow(db.bookings, id));
    CancelVacates(db, id);
    OutcomesKept(db.bookings, after.bookings, db.reservations);
    CancelKeepsHolder(db, id);
    WaitersStillHeld(db, after, db.bookings[id].slotID);
  }

  lemma CancelKeepsHolder(db: Db, id: nat)
    requires HolderNotWaiting(db) && id < |db.bookings|
    ensures HolderNotWaiting(db.(bookings := CancelBookingRow(db.bookings, id)))
  {
  }

  // A change to the rows of slot s leaves the waiters of every other slot with a holder.
  lemma WaitersStillHeld(db: Db, after: Db, s: SlotId)
    requires WaitersHeld(db, None) && after.waitlist == db.waitlist
    requires |db.bookings| <= |after.bookings| && |db.reservations| <= |after.reservations|
    requires forall i | 0 <= i < |db.bookings| && db.bookings[i].slotID != s :: after.bookings[i] == db.bookings[i]
    requires forall i | 0 <= i < |db.reservations| && db.reservations[i].slotID != s ::
      after.reservations[i] == db.reservations[i]
    ensures WaitersHeld(after, Some(s))
  {
    forall i | 0 <= i < |after.waitlist| && after.waitlist[i].status.Active? && after.waitlist[i].slotID != s
      ensures Held(after, after.waitlist[i].slotID)
    {
      var t := after.waitlist[i].slotID;
      assert Held(db, t);
      var b, r := FindActiveBooking(db.bookings, t), FindActiveReservation(db.reservations, t);
      if b.Some? {
        assert Books(after.bookings[b.value], t);
      } else {
        assert Reserves(after.reservations[r.value], t);
      }
    }
  }

  // Bookings keep their user, slot and instant, so confirmed reservations keep their booking.
  lemma OutcomesKept(before: seq<Booking>, after: seq<Booking>, reservations: seq<SlotReservation>)
    requires Outcomes(before, reservations)
    requires |before| <= |after|
    requires forall i | 0 <= i < |before| ::
      before[i].userID == after[i].userID && before[i].slotID == after[i].slotID
      && before[i].createdAt == after[i].createdAt
    ensures Outcomes(after, reservations)
  {
    forall i | 0 <= i < |reservations| && reservations[i].status.Confirmed?
      ensures Ended(after, reservations[i])
    {
      assert Ended(before, reservations[i]);
      var b :| 0 <= b < |before| && BookedAs(before[b], reservations[i]);
      assert BookedAs(after[b], reservations[i]);
    }
  }

  // An ended reservation keeps its slot, user, entry and deadline.
  ghost predicate Ends(r: SlotReservation, ended: SlotReservation) {
    && !ended.status.Active?
    && ended.slotID == r.slotID && ended.userID == r.userID && ended.waitlistEntryID == r.waitlistEntryID
    && ended.expiresAt == r.expiresAt
  }

  function EndReservation(db: Db, id: nat, ended: SlotReservation): Db
    requires id < |db.reservations|
  {
    db.(reservations := EndReservationRow(db.reservations, id, ended))
  }

  lemma EndVacates(db: Db, id: nat, ended: SlotReservation)
    requires Exclusive(db) && id < |db.reservations| && db.reservations[id].status.Active?
    requires Ends(db.reservations[id], ended)
    ensures Vacant(EndReservation(db, id, ended), db.reservations[id].slotID)
  {
  }

  lemma EndFrees(db: Db, id: nat, ended: SlotReservation)
    requires Inv(db) && id < |db.reservations| && db.reservations[id].status.Active?
    requires Ends(db.reservations[id], ended) && Ended(db.bookings, ended)
    ensures Freed(EndReservation(db, id, ended), db.reservations[id].slotID)
  {
    EndVacates(db, id, ended);
    EndKeepsMatch(db.waitlist, db.reservations, id, ended);
    EndKeepsOutcomes(db.bookings, db.reservations, id, ended);
    EndKeepsHolder(db, id, ended);
    WaitersStillHeld(db, EndReservation(db, id, ended), db.reservations[id].slotID);
  }

  lemma EndKeepsMatch(waitlist: seq<WaitlistEntry>, rows: seq<SlotReservation>, id: nat, ended: SlotReservation)
    requires ClaimsMatch(waitlist, rows) && id < |rows| && Ends(rows[id], ended)
    ensures ClaimsMatch(waitlist, EndReservationRow(rows, id, ended))
  {
    var after := EndReservationRow(rows, id, ended);
    forall e | 0 <= e < |waitlist| && waitlist[e].notifiedAt.Some?
      ensures FindReservationFor(after, e).Some?
    {
      assert after[FindReservationFor(rows, e).value].waitlistEntryID == Some(e);
    }
  }

  lemma EndKeepsOutcomes(bookings: seq<Booking>, rows: seq<SlotReservation>, id: nat, ended: SlotReservation)
    requires Outcomes(bookings, rows) && id < |rows| && Ended(bookings, ended)
    ensures Outcomes(bookings, EndReservationRow(rows, id, ended))
  {
  }

  lemma EndKeepsHolder(db: Db, id: nat, ended: SlotReservation)
    requires HolderNotWaiting(db) && id < |db.reservations| && Ends(db.reservations[id], ended)
    ensures HolderNotWaiting(EndReservation(db, id, ended))
  {
  }

  // ---- Handing a slot over ----

  // The reservation insert of a promotion never meets the unique index.
  lemma PromoteExclusive(db: Db, s: SlotId, now: Time, dbNow: Time, ttl: Time)
    requires Vacant(db, s)
    ensures Promote(db, s, now, dbNow, ttl).Success? && Exclusive(Promote(db, s, now, dbNow, ttl).value.db)
  {
    if NextWaiting(db.waitlist, s).Some? {
      ClaimExclusive(db, s, NextWaiting(db.waitlist, s).value, now, dbNow, ttl);
    }
  }

  lemma ClaimExclusive(db: Db, s: SlotId, e: nat, now: Time, dbNow: Time, ttl: Time)
    requires Vacant(db, s) && NextWaiting(db.waitlist, s) == Some(e)
    ensures Exclusive(Claim(db, s, e, now, dbNow, ttl))
  {
    assert forall i | 0 <= i < |db.reservations| :: !Reserves(db.reservations[i], s);
    assert forall i | 0 <= i < |db.bookings| :: !Books(db.bookings[i], s);
  }

  lemma PromoteKeepsInv(db: Db, s: SlotId, now: Time, dbNow: Time, ttl: Time)
    requires Freed(db, s)
    ensures Promote(db, s, now, dbNow, ttl).Success? && Inv(Promote(db, s, now, dbNow, ttl).value.db)
  {
    if NextWaiting(db.waitlist, s).Some? {
      ClaimKeepsInv(db, s, NextWaiting(db.waitlist, s).value, now, dbNow, ttl);
    } else {
      forall i | 0 <= i < |db.waitlist| && db.waitlist[i].status.Active? ensures Held(db, db.waitlist[i].slotID) {
        assert !Waits(db.waitlist[i], s);
      }
    }
  }

  lemma ClaimKeepsInv(db: Db, s: SlotId, e: nat, now: Time, dbNow: Time, ttl: Time)
    requires Freed(db, s) && NextWaiting(db.waitlist, s) == Some(e)
    ensures Inv(Claim(db, s, e, now, dbNow, ttl))
  {
    ClaimExclusive(db, s, e, now, dbNow, ttl);
    ClaimKeepsStamps(db.waitlist, db.nextPosition, s, e, dbNow);
    ClaimKeepsMatch(db, s, e, now, dbNow, ttl);
    ClaimKeepsHolder(db, s, e, now, dbNow, ttl);
    ClaimKeepsHeld(db, s, e, now, dbNow, ttl);
  }

  lemma ClaimKeepsStamps(rows: seq<WaitlistEntry>, next: nat, s: SlotId, e: nat, dbNow: Time)
    requires Positions(rows, next) && Stamped(rows) && NoOvertaking(rows) && NextWaiting(rows, s) == Some(e)
    ensures Stamped(ClaimRow(rows, e, dbNow)) && NoOvertaking(ClaimRow(rows, e, dbNow))
  {
  }

  lemma ClaimKeepsMatch(db: Db, s: SlotId, e: nat, now: Time, dbNow: Time, ttl: Time)
    requires ClaimsMatch(db.waitlist, db.reservations) && Stamped(db.waitlist)
    requires NextWaiting(db.waitlist, s) == Some(e)
    ensures
      var after := Claim(db, s, e, now, dbNow, ttl);
      ClaimsMatch(after.waitlist, after.reservations)
  {
    var after := Claim(db, s, e, now, dbNow, ttl);
    var last := |db.reservations|;
    forall i | 0 <= i < last
      ensures after.reservations[i] == db.reservations[i] && db.reservations[i].waitlistEntryID != Some(e)
    {
    }
    forall k | 0 <= k < |after.waitlist| && after.waitlist[k].notifiedAt.Some?
      ensures FindReservationFor(after.reservations, k).Some?
    {
      if k == e {
        assert after.reservations[last].waitlistEntryID == Some(k);
      } else {
        assert after.reservations[FindReservationFor(db.reservations, k).value].waitlistEntryID == Some(k);
      }
    }
  }

  lemma ClaimKeepsHolder(db: Db, s: SlotId, e: nat, now: Time, dbNow: Time, ttl: Time)
    requires HolderNotWaiting(db) && OneEntry(db.waitlist) && NextWaiting(db.waitlist, s) == Some(e)
    ensures HolderNotWaiting(Claim(db, s, e, now, dbNow, ttl))
  {
    var after := Claim(db, s, e, now, dbNow, ttl);
    forall j | 0 <= j < |after.waitlist| && Waits(after.waitlist[j], s)
      ensures after.waitlist[j].userID != db.waitlist[e].userID
    {
      assert Pending(db.waitlist[j], s, db.waitlist[j].userID);
      assert Pending(db.waitlist[e], s, db.waitlist[e].userID);
    }
  }

  lemma ClaimKeepsHeld(db: Db, s: SlotId, e: nat, now: Time, dbNow: Time, ttl: Time)
    requires WaitersHeld(db, Some(s)) && NextWaiting(db.waitlist, s) == Some(e)
    ensures WaitersHeld(Claim(db, s, e, now, dbNow, ttl), None)
  {
    var after := Claim(db, s, e, now, dbNow, ttl);
    assert Reserves(after.reservations[|db.reservations|], s);
    forall i | 0 <= i < |after.waitlist| && after.waitlist[i].status.Active?
      ensures Held(after, after.waitlist[i].slotID)
    {
      var t := after.waitlist[i].slotID;
      if t != s {
        assert Held(db, t);
        if FindActiveReservation(db.reservations, t).Some? {
          assert Reserves(after.reservations[FindActiveReservation(db.reservations, t).value], t);
        }
      }
    }
  }

  // ---- Taking a slot ----

  lemma BookExclusive(db: Db, b: Booking)
    requires Vacant(db, b.slotID) && b.status.Active?
    ensures Exclusive(db.(bookings := db.bookings + [b]))
  {
    assert forall i | 0 <= i < |db.reservations| :: !Reserves(db.reservations[i], b.slotID);
    assert forall i | 0 <= i < |db.bookings| :: !Books(db.bookings[i], b.slotID);
  }

  lemma BookKeepsInv(db: Db, b: Booking)
    requires Inv(db) && b.status.Active? && b.slotID in db.slots && !Held(db, b.slotID)
    ensures Inv(db.(bookings := db.bookings + [b]))
  {
    var after := db.(bookings := db.bookings + [b]);
    BookExclusive(db, b);
    OutcomesKept(db.bookings, after.bookings, db.reservations);
    BookKeepsHolder(db, b);
    WaitersStillHeld(db, after, b.slotID);
    assert Books(after.bookings[|db.bookings|], b.slotID);
  }

  lemma BookKeepsHolder(db: Db, b: Booking)
    requires HolderNotWaiting(db) && WaitersHeld(db, None) && !Held(db, b.slotID)
    ensures HolderNotWaiting(db.(bookings := db.bookings + [b]))
  {
  }

  // The tables after reservation id has become a booking.
  function Confirm(db: Db, id: nat, now: Time): Db
    requires id < |db.reservations|
  {
    var r := db.reservations[id];
    db.(bookings := db.bookings + [Booking(r.userID, r.slotID, BookingStatus.Active, now)],
        reservations := EndReservationRow(db.reservations, id, ConfirmedReservation(r, now)))
  }

  lemma ConfirmExclusive(db: Db, id: nat, now: Time)
    requires Exclusive(db) && id < |db.reservations| && db.reservations[id].status.Active?
    ensures Exclusive(Confirm(db, id, now))
  {
    var s := db.reservations[id].slotID;
    forall i | 0 <= i < |db.bookings| ensures !Books(db.bookings[i], s) {
      assert Reserves(db.reservations[id], s);
    }
  }

  lemma ConfirmKeepsInv(db: Db, id: nat, now: Time)
    requires Inv(db) && id < |db.reservations| && db.reservations[id].status.Active?
    requires now < db.reservations[id].expiresAt
    ensures Inv(Confirm(db, id, now))
  {
    ConfirmExclusive(db, id, now);
    ConfirmKeepsHolder(db, id, now);
    ConfirmKeepsOutcomes(db, id, now);
    ConfirmKeepsHeld(db, id, now);
    EndKeepsMatch(db.waitlist, db.reservations, id, ConfirmedReservation(db.reservations[id], now));
  }

  lemma ConfirmKeepsHolder(db: Db, id: nat, now: Time)
    requires HolderNotWaiting(db) && id < |db.reservations| && db.reservations[id].status.Active?
    ensures HolderNotWaiting(Confirm(db, id, now))
  {
  }

  lemma ConfirmKeepsOutcomes(db: Db, id: nat, now: Time)
    requires Outcomes(db.bookings, db.reservations) && id < |db.reservations| && db.reservations[id].status.Active?
    requires now < db.reservations[id].expiresAt
    ensures Outcomes(Confirm(db, id, now).bookings, Confirm(db, id, now).reservations)
  {
    var after := Confirm(db, id, now);
    OutcomesKept(db.bookings, after.bookings, db.reservations);
    assert BookedAs(after.bookings[|db.bookings|], after.reservations[id]);
    EndKeepsOutcomes(after.bookings, db.reservations, id, after.reservations[id]);
  }

  lemma ConfirmKeepsHeld(db: Db, id: nat, now: Time)
    requires WaitersHeld(db, None) && id < |db.reservations| && db.reservations[id].status.Active?
    ensures WaitersHeld(Confirm(db, id, now), None)
  {
    var after := Confirm(db, id, now);
    WaitersStillHeld(db, after, db.reservations[id].slotID);
    assert Books(after.bookings[|db.bookings|], db.reservations[id].slotID);
  }

  // ---- Joining and leaving the queue ----

  // Entries keep their slot, user and stamp; new ones are not stamped.
  lemma MatchKept(before: seq<WaitlistEntry>, after: seq<WaitlistEntry>, reservations: seq<SlotReservation>)
    requires ClaimsMatch(before, reservations) && |before| <= |after|
    requires forall i | 0 <= i < |before| ::
      before[i].slotID == after[i].slotID && before[i].userID == after[i].userID
      && before[i].notifiedAt == after[i].notifiedAt
    requires forall i | |before| <= i < |after| :: after[i].notifiedAt.None?
    ensures ClaimsMatch(after, reservations)
  {
  }

  // Nobody starts to wait but for slots that are held, and nobody is let go.
  lemma WaitersKept(db: Db, waitlist: seq<WaitlistEntry>, next: nat)
    requires WaitersHeld(db, None)
    requires forall i | 0 <= i < |waitlist| && waitlist[i].status.Active? ::
      || Held(db, waitlist[i].slotID)
      || (i < |db.waitlist| && db.waitlist[i].status.Active? && db.waitlist[i].slotID == waitlist[i].slotID)
    ensures WaitersHeld(db.(waitlist := waitlist, nextPosition := next), None)
  {
    var after := db.(waitlist := waitlist, nextPosition := next);
    forall i | 0 <= i < |after.waitlist| && after.waitlist[i].status.Active?
      ensures Held(after, after.waitlist[i].slotID)
    {
      assert Held(db, waitlist[i].slotID);
    }
  }

  function Joined(db: Db, e: WaitlistEntry): Db {
    db.(waitlist := db.waitlist + [e], nextPosition := db.nextPosition + 1)
  }

  lemma JoinExclusive(db: Db, e: WaitlistEntry)
    requires Exclusive(db) && e.status.Active? && e.position == db.nextPosition
    requires FindPending(db.waitlist, e.slotID, e.userID).None?
    ensures Exclusive(Joined(db, e))
  {
  }

  lemma JoinKeepsInv(db: Db, e: WaitlistEntry)
    requires Inv(db) && e.status.Active? && e.position == db.nextPosition && e.notifiedAt.None?
    requires FindPending(db.waitlist, e.slotID, e.userID).None?
    requires e.slotID in db.slots && FindActiveBooking(db.bookings, e.slotID).Some?
    requires db.bookings[FindActiveBooking(db.bookings, e.slotID).value].userID != e.userID
    ensures Inv(Joined(db, e))
  {
    JoinExclusive(db, e);
    JoinKeepsStamps(db.waitlist, db.nextPosition, e);
    MatchKept(db.waitlist, db.waitlist + [e], db.reservations);
    JoinKeepsHolder(db, e);
    WaitersKept(db, db.waitlist + [e], db.nextPosition + 1);
  }

  lemma JoinKeepsHolder(db: Db, e: WaitlistEntry)
    requires OneBooking(db.bookings) && NeverBoth(db.bookings, db.reservations) && HolderNotWaiting(db)
    requires FindActiveBooking(db.bookings, e.slotID).Some?
    requires db.bookings[FindActiveBooking(db.bookings, e.slotID).value].userID != e.userID
    ensures HolderNotWaiting(Joined(db, e))
  {
  }

  lemma JoinKeepsStamps(rows: seq<WaitlistEntry>, next: nat, e: WaitlistEntry)
    requires Positions(rows, next) && Stamped(rows) && NoOvertaking(rows)
    requires e.status.Active? && e.notifiedAt.None? && e.position == next
    ensures Stamped(rows + [e]) && NoOvertaking(rows + [e])
  {
  }

  lemma LeaveExclusive(db: Db, id: nat)
    requires Exclusive(db) && id < |db.waitlist|
    ensures Exclusive(db.(waitlist := LeaveRow(db.waitlist, id)))
  {
  }

  lemma LeaveKeepsInv(db: Db, id: nat)
    requires Inv(db) && id < |db.waitlist| && (db.waitlist[id].status.Active? || db.waitlist[id].status.Notified?)
    ensures Inv(db.(waitlist := LeaveRow(db.waitlist, id)))
  {
    var after := db.(waitlist := LeaveRow(db.waitlist, id));
    LeaveExclusive(db, id);
    LeaveKeepsStamps(db.waitlist, id);
    MatchKept(db.waitlist, after.waitlist, db.reservations);
    LeaveKeepsHolder(db, id);
    assert WaitersHeld(after, None) by {
      WaitersKept(db, after.waitlist, db.nextPosition);
    }
  }

  lemma LeaveKeepsHolder(db: Db, id: nat)
    requires HolderNotWaiting(db) && id < |db.waitlist|
    ensures HolderNotWaiting(db.(waitlist := LeaveRow(db.waitlist, id)))
  {
  }

  lemma LeaveKeepsStamps(rows: seq<WaitlistEntry>, id: nat)
    requires Stamped(rows) && NoOvertaking(rows) && id < |rows|
    ensures Stamped(LeaveRow(rows, id)) && NoOvertaking(LeaveRow(rows, id))
  {
  }

  // ---- Storing slots, and positions lost to transactions that were rolled back ----

  lemma SlotsAdded(db: Db, added: map<SlotId, Slot>)
    requires Inv(db)
    ensures Inv(db.(slots := added + db.slots))
  {
    var after := db.(slots := added + db.slots);
    assert forall s :: Held(after, s) <==> Held(db, s);
  }

  lemma PositionsBurned(db: Db, burned: nat)
    requires Inv(db)
    ensures Inv(db.(nextPosition := db.nextPosition + burned))
  {
    WaitersKept(db, db.waitlist, db.nextPosition + burned);
  }

  lemma InitialInv(db: Db)
    requires Initial(db)
    ensures Inv(db)
  {
  }
}
