/** The two slot listings against what the operations accept. */
module Availability {
  import opened Wrappers
  import opened Domain
  import opened Tables
  import opened Protocol
  import opened Invariants
  import opened Simulation
  import opened Subscriptions

  datatype SlotStatus = Available | Booked | Reserved | Past

  datatype SlotView = SlotView(slotID: SlotId, status: SlotStatus, bookingID: Option<nat>,
                               reservationID: Option<nat>, waitlistEntryID: Option<nat>)

  // Each slot once, by start time; the database may put slots that start together in any order.
  ghost predicate OnceInOrder(db: Db, listed: seq<SlotId>) {
    forall j, k | 0 <= j < k < |listed| ::
      && listed[j] != listed[k] && listed[j] in db.slots && listed[k] in db.slots
      && db.slots[listed[j]].start <= db.slots[listed[k]].start
  }

  // The WHERE and ORDER BY of both listings: the slots of a room that start within a day, each once, by start time.
  ghost predicate SlotsOfDay(db: Db, room: RoomId, date: Time, listed: seq<SlotId>) {
    && (forall s :: s in listed <==>
          s in db.slots && db.slots[s].roomID == room && date <= db.slots[s].start < date + DAY)
    && OnceInOrder(db, listed)
  }

  // Every table has such a listing for every room and day.
  lemma SlotsOfDayExist(db: Db, room: RoomId, date: Time) returns (listed: seq<SlotId>)
    ensures SlotsOfDay(db, room, date, listed)
  {
    var ids := set s | s in db.slots && db.slots[s].roomID == room && date <= db.slots[s].start < date + DAY;
    listed := Arranged(db, ids);
  }

  lemma {:induction false} Arranged(db: Db, ids: set<SlotId>) returns (listed: seq<SlotId>)
    requires ids <= db.slots.Keys
    ensures OnceInOrder(db, listed) && forall s :: s in listed <==> s in ids
    decreases |ids|
  {
    if ids == {} {
      listed := [];
    } else {
      var last := LatestOf(db, ids);
      var earlier := Arranged(db, ids - {last});
      listed := earlier + [last];
      forall j | 0 <= j < |earlier|
        ensures earlier[j] in ids && earlier[j] != last && db.slots[earlier[j]].start <= db.slots[last].start
      {
        assert earlier[j] in earlier;
      }
    }
  }

  lemma {:induction false} LatestOf(db: Db, ids: set<SlotId>) returns (last: SlotId)
    requires ids <= db.slots.Keys && ids != {}
    ensures last in ids && forall s | s in ids :: db.slots[s].start <= db.slots[last].start
    decreases |ids|
  {
    EmptyOrNot(ids);
    last :| last in ids;
    if ids != {last} {
      EmptyOrNot(ids - {last});
      var other := LatestOf(db, ids - {last});
      if db.slots[last].start < db.slots[other].start {
        last := other;
      }
    }
  }

  // ---- LEFT JOIN on the active rows of a slot ----

  function ActiveBookings(rows: seq<Booking>, s: SlotId): seq<nat> {
    if rows == [] then []
    else ActiveBookings(rows[..|rows| - 1], s) + if Books(rows[|rows| - 1], s) then [|rows| - 1] else []
  }

  function ActiveReservations(rows: seq<SlotReservation>, s: SlotId): seq<nat> {
    if rows == [] then []
    else ActiveReservations(rows[..|rows| - 1], s) + if Reserves(rows[|rows| - 1], s) then [|rows| - 1] else []
  }

  // The partners of a row in a left join: its matches, or one row of nulls.
  function OrNull(matches: seq<nat>): seq<Option<nat>> {
    if matches == [] then [None] else seq(|matches|, k requires 0 <= k < |matches| => Some(matches[k]))
  }

  function StatusOf(start: Time, booking: Option<nat>, reservation: Option<nat>, now: Time): SlotStatus {
    if start < now then Past
    else if booking.Some? then Booked
    else if reservation.Some? then Reserved
    else Available
  }

  function ViewOf(db: Db, s: SlotId, booking: Option<nat>, reservation: Option<nat>, now: Time): SlotView
    requires s in db.slots && (reservation.Some? ==> reservation.value < |db.reservations|)
  {
    SlotView(s, StatusOf(db.slots[s].start, booking, reservation, now), booking, reservation,
             if reservation.None? then None else db.reservations[reservation.value].waitlistEntryID)
  }

  // A slot with one partner from each of the two joined tables, or null.
  datatype JoinRow = JoinRow(slotID: SlotId, booking: Option<nat>, reservation: Option<nat>)

  function JoinOne(s: SlotId, booking: Option<nat>, reservations: seq<Option<nat>>): seq<JoinRow> {
    seq(|reservations|, k requires 0 <= k < |reservations| => JoinRow(s, booking, reservations[k]))
  }

  function JoinSlot(s: SlotId, bookings: seq<Option<nat>>, reservations: seq<Option<nat>>): seq<JoinRow> {
    if bookings == [] then []
    else JoinOne(s, bookings[0], reservations) + JoinSlot(s, bookings[1..], reservations)
  }

  // FROM slots s LEFT JOIN bookings b ... LEFT JOIN slot_reservations r ... ORDER BY s.start_time
  function Join(db: Db, listed: seq<SlotId>): seq<JoinRow> {
    if listed == [] then []
    else
      JoinSlot(listed[0], OrNull(ActiveBookings(db.bookings, listed[0])),
               OrNull(ActiveReservations(db.reservations, listed[0])))
      + Join(db, listed[1..])
  }

  predicate RowOf(db: Db, row: JoinRow) {
    row.slotID in db.slots && (row.reservation.Some? ==> row.reservation.value < |db.reservations|)
  }

  // SELECT s.id, CASE ... END, b.id, r.id, r.waitlist_entry_id
  function ListAll(db: Db, listed: seq<SlotId>, now: Time): seq<SlotView>
    requires forall k | 0 <= k < |Join(db, listed)| :: RowOf(db, Join(db, listed)[k])
  {
    Views(db, Join(db, listed), now)
  }

  function Views(db: Db, rows: seq<JoinRow>, now: Time): seq<SlotView>
    requires forall k | 0 <= k < |rows| :: RowOf(db, rows[k])
  {
    seq(|rows|, k requires 0 <= k < |rows| =>
      assert RowOf(db, rows[k]);
      ViewOf(db, rows[k].slotID, rows[k].booking, rows[k].reservation, now))
  }

  // WHERE b.id IS NULL AND r.id IS NULL
  function Unheld(rows: seq<JoinRow>): seq<SlotId> {
    if rows == [] then []
    else (if rows[0].booking.None? && rows[0].reservation.None? then [rows[0].slotID] else []) + Unheld(rows[1..])
  }

  function ListAvailable(db: Db, listed: seq<SlotId>): seq<SlotId> {
    Unheld(Join(db, listed))
  }

  // ---- Each slot has at most one partner of each kind ----

  lemma {:induction false} BookingPartner(rows: seq<Booking>, s: SlotId)
    requires OneBooking(rows)
    ensures ActiveBookings(rows, s)
         == if FindActiveBooking(rows, s).Some? then [FindActiveBooking(rows, s).value] else []
  {
    if rows != [] {
      var n := |rows| - 1;
      assert forall i | 0 <= i < n :: rows[..n][i] == rows[i];
      BookingPartner(rows[..n], s);
      if Books(rows[n], s) {
        assert forall i | 0 <= i < n :: !Books(rows[..n][i], s);
      }
    }
  }

  lemma {:induction false} ReservationPartner(rows: seq<SlotReservation>, s: SlotId)
    requires OneReservation(rows)
    ensures ActiveReservations(rows, s)
         == if FindActiveReservation(rows, s).Some? then [FindActiveReservation(rows, s).value] else []
  {
    if rows != [] {
      var n := |rows| - 1;
      assert forall i | 0 <= i < n :: rows[..n][i] == rows[i];
      ReservationPartner(rows[..n], s);
      if Reserves(rows[n], s) {
        assert forall i | 0 <= i < n :: !Reserves(rows[..n][i], s);
      }
    }
  }

  // The status of a slot, seen from its lock.
  function LockStatus(db: Db, s: SlotId, now: Time): SlotStatus
    requires s in db.slots
  {
    if db.slots[s].start < now then Past
    else
      match HolderOf(db, s)
      case BookedBy(_) => Booked
      case ReservedFor(_, _) => Reserved
      case Free => Available
  }

  // The one row a slot should have.
  function TheRow(db: Db, s: SlotId): JoinRow {
    JoinRow(s, FindActiveBooking(db.bookings, s), FindActiveReservation(db.reservations, s))
  }

  lemma JoinOfSlot(db: Db, s: SlotId)
    requires Exclusive(db)
    ensures JoinSlot(s, OrNull(ActiveBookings(db.bookings, s)), OrNull(ActiveReservations(db.reservations, s)))
         == [TheRow(db, s)]
  {
    BookingPartner(db.bookings, s);
    ReservationPartner(db.reservations, s);
    var b, r := FindActiveBooking(db.bookings, s), FindActiveReservation(db.reservations, s);
    assert OrNull(ActiveBookings(db.bookings, s)) == [b];
    assert OrNull(ActiveReservations(db.reservations, s)) == [r];
    assert JoinOne(s, b, [r]) == [TheRow(db, s)];
    var single := [b];
    assert single[1..] == [];
  }

  lemma JoinOfFirst(db: Db, listed: seq<SlotId>)
    requires Exclusive(db) && listed != []
    ensures Join(db, listed) == [TheRow(db, listed[0])] + Join(db, listed[1..])
  {
    JoinOfSlot(db, listed[0]);
  }

  // The joins neither drop nor repeat a slot.
  lemma {:induction false} JoinIsExact(db: Db, listed: seq<SlotId>)
    requires Exclusive(db)
    ensures |Join(db, listed)| == |listed|
    ensures forall k | 0 <= k < |listed| :: Join(db, listed)[k] == TheRow(db, listed[k])
  {
    if listed != [] {
      var rest := listed[1..];
      JoinOfFirst(db, listed);
      JoinIsExact(db, rest);
      assert forall k | 0 < k < |listed| :: listed[k] == rest[k - 1];
    }
  }

  // Every slot of the day is listed once, and the status shown is the status of its lock.
  lemma ListAllIsExact(db: Db, room: RoomId, date: Time, listed: seq<SlotId>, now: Time, k: nat)
    requires Exclusive(db) && SlotsOfDay(db, room, date, listed) && k < |listed|
    ensures forall i | 0 <= i < |Join(db, listed)| :: RowOf(db, Join(db, listed)[i])
    ensures |ListAll(db, listed, now)| == |listed|
    ensures ListAll(db, listed, now)[k].slotID == listed[k]
    ensures ListAll(db, listed, now)[k].status == LockStatus(db, listed[k], now)
    ensures ListAll(db, listed, now)[k].bookingID == FindActiveBooking(db.bookings, listed[k])
    ensures ListAll(db, listed, now)[k].reservationID == FindActiveReservation(db.reservations, listed[k])
    ensures
      var entry, r := ListAll(db, listed, now)[k].waitlistEntryID, FindActiveReservation(db.reservations, listed[k]);
      if HolderOf(db, listed[k]).ReservedFor? then r.Some? && entry == db.reservations[r.value].waitlistEntryID
      else entry == None
  {
    assert forall i | 0 <= i < |listed| :: listed[i] in listed;
    JoinIsExact(db, listed);
  }

  // The slots of a listing that nobody holds, in its order.
  function Free(db: Db, listed: seq<SlotId>): seq<SlotId> {
    if listed == [] then []
    else (if Held(db, listed[0]) then [] else [listed[0]]) + Free(db, listed[1..])
  }

  lemma {:induction false} UnheldIsFree(db: Db, listed: seq<SlotId>)
    requires Exclusive(db)
    ensures ListAvailable(db, listed) == Free(db, listed)
  {
    if listed != [] {
      JoinOfFirst(db, listed);
      UnheldIsFree(db, listed[1..]);
      var first := [TheRow(db, listed[0])];
      assert (first + Join(db, listed[1..]))[1..] == Join(db, listed[1..]);
    }
  }

  lemma {:induction false} FreeMember(db: Db, listed: seq<SlotId>, s: SlotId)
    ensures s in Free(db, listed) <==> s in listed && !Held(db, s)
  {
    if listed != [] {
      FreeMember(db, listed[1..], s);
    }
  }

  lemma {:induction false} FreeInOrder(db: Db, listed: seq<SlotId>)
    requires OnceInOrder(db, listed) && forall k | 0 <= k < |listed| :: listed[k] in db.slots
    ensures OnceInOrder(db, Free(db, listed))
  {
    if listed != [] {
      var rest := Free(db, listed[1..]);
      FreeInOrder(db, listed[1..]);
      forall k | 0 <= k < |rest|
        ensures listed[0] != rest[k] && rest[k] in db.slots
                && db.slots[listed[0]].start <= db.slots[rest[k]].start
      {
        FreeMember(db, listed[1..], rest[k]);
        var i :| 0 <= i < |listed[1..]| && listed[1..][i] == rest[k];
        assert listed[i + 1] == rest[k];
      }
    }
  }

  // The listing of available slots has each slot of the day that nobody holds once, by start time, and no other.
  lemma ListAvailableIsExact(db: Db, room: RoomId, date: Time, listed: seq<SlotId>, s: SlotId)
    requires Exclusive(db) && SlotsOfDay(db, room, date, listed)
    ensures s in ListAvailable(db, listed) <==>
            s in db.slots && db.slots[s].roomID == room && date <= db.slots[s].start < date + DAY && !Held(db, s)
    ensures OnceInOrder(db, ListAvailable(db, listed))
  {
    UnheldIsFree(db, listed);
    FreeMember(db, listed, s);
    assert forall k | 0 <= k < |listed| :: listed[k] in listed;
    FreeInOrder(db, listed);
  }

  // ---- Offered means bookable ----

  // A slot is shown as available exactly when a user who asks for it at that instant gets it.
  lemma AvailableIsBookable(db: Db, user: User, s: SlotId, now: Time)
    requires Exclusive(db) && s in db.slots && user.role.RoleUser?
    ensures CreateBooking(db, user, s, now).result.Success? <==> LockStatus(db, s, now).Available?
  {
  }

  // A queue can be joined exactly when the slot is shown as booked, by somebody else, and the user has no entry
  // in it that is waiting or has been notified.
  lemma BookedIsJoinable(db: Db, user: User, s: SlotId, now: Time, createdAt: Time)
    requires Exclusive(db) && s in db.slots && user.role.RoleUser?
    ensures JoinWaitlist(db, user, s, now, createdAt).result.Success?
       <==> LockStatus(db, s, now).Booked? && HolderOf(db, s).user != user.id
            && forall i | 0 <= i < |db.waitlist| :: !Pending(db.waitlist[i], s, user.id)
  {
  }

  // The listing of available slots does not look at the clock: a slot of the day is bookable exactly when it is
  // listed and has not started.
  lemma ListedIsBookable(db: Db, room: RoomId, date: Time, listed: seq<SlotId>, user: User, s: SlotId, now: Time)
    requires Exclusive(db) && SlotsOfDay(db, room, date, listed) && s in listed && user.role.RoleUser?
    ensures CreateBooking(db, user, s, now).result.Success?
       <==> s in ListAvailable(db, listed) && now <= db.slots[s].start
  {
    ListAvailableIsExact(db, room, date, listed, s);
  }

  // A slot that has just started is still listed as available, and cannot be booked.
  lemma ListedButPast() returns (db: Db, listed: seq<SlotId>)
    ensures Initial(db) && Inv(db) && SlotsOfDay(db, 7, 0, listed) && 3 in ListAvailable(db, listed)
    ensures CreateBooking(db, User(1, RoleUser), 3, 1).result == Failure(InvalidRequest)
  {
    db := Db(map[3 := Slot(7, 0, 30 * MINUTE)], [], [], [], 0);
    listed := [3];
    InitialInv(db);
    ListAvailableIsExact(db, 7, 0, listed, 3);
  }
}
