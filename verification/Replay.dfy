/** The published room events, folded in order, reconstruct who has each slot. */
module Replay {
  import opened Wrappers
  import opened Domain
  import opened Tables
  import opened Protocol
  import opened Invariants
  import opened Simulation
  import opened Expiry
  import opened Refinement
  import opened Evolution
  import opened EventLog

  // What a subscriber of a room can know about a slot.
  datatype Occupancy = Open | BookedUnder(bookingID: nat) | ReservedUnder(reservationID: nat)

  function OccupancyOf(db: Db, s: SlotId): Occupancy {
    var b := FindActiveBooking(db.bookings, s);
    var r := FindActiveReservation(db.reservations, s);
    if b.Some? then BookedUnder(b.value) else if r.Some? then ReservedUnder(r.value) else Open
  }

  // What one event tells about slot s; personal notices tell nothing.
  function Observe(o: Occupancy, event: Event, s: SlotId): Occupancy {
    match event
    case SlotBooked(_, slot, id) => if slot == s then BookedUnder(id) else o
    case SlotReleased(_, slot, _) => if slot == s then Open else o
    case SlotAvailable(_, slot) => if slot == s then Open else o
    case SlotReserved(_, slot, id) => if slot == s then ReservedUnder(id) else o
    case SlotReservationExpired(_, slot, _) => if slot == s then Open else o
    case WaitlistSlotReserved(_, _, _, _, _, _) => o
    case ReservationExpired(_, _, _, _) => o
  }

  function Fold(o: Occupancy, events: seq<Event>, s: SlotId): Occupancy {
    if events == [] then o else Observe(Fold(o, events[..|events| - 1], s), events[|events| - 1], s)
  }

  lemma {:induction false} FoldAppend(o: Occupancy, p: seq<Event>, q: seq<Event>, s: SlotId)
    ensures Fold(o, p + q, s) == Fold(Fold(o, p, s), q, s)
  {
    if q == [] {
      assert p + q == p;
    } else {
      FoldAppend(o, p, q[..|q| - 1], s);
      assert (p + q)[..|p + q| - 1] == p + q[..|q| - 1];
    }
  }

  lemma FoldOne(o: Occupancy, event: Event, s: SlotId)
    ensures Fold(o, [event], s) == Observe(o, event, s)
  {
    assert [event][..0] == [];
  }

  lemma FoldTwo(o: Occupancy, first: Event, second: Event, s: SlotId)
    ensures Fold(o, [first] + [second], s) == Observe(Observe(o, first, s), second, s)
  {
    FoldAppend(o, [first], [second], s);
    FoldOne(o, first, s);
    FoldOne(Observe(o, first, s), second, s);
  }

  lemma OccupancySame(db: Db, after: Db, s: SlotId)
    requires OneBooking(after.bookings) && OneReservation(after.reservations)
    requires |db.bookings| <= |after.bookings| && |db.reservations| <= |after.reservations|
    requires forall i | 0 <= i < |after.bookings| ::
      Books(after.bookings[i], s) <==> i < |db.bookings| && Books(db.bookings[i], s)
    requires forall i | 0 <= i < |after.reservations| ::
      Reserves(after.reservations[i], s) <==> i < |db.reservations| && Reserves(db.reservations[i], s)
    ensures OccupancyOf(after, s) == OccupancyOf(db, s)
  {
  }

  // ---- Promotions ----

  // After a promotion out of a vacant slot: reserved under the new reservation, or open; other slots as before.
  lemma PromoteOccupancy(db: Db, s: SlotId, now: Time, dbNow: Time, ttl: Time, t: SlotId)
    requires Vacant(db, s)
    ensures
      var p := Promote(db, s, now, dbNow, ttl);
      && p.Success?
      && OccupancyOf(p.value.db, t) == if t != s then OccupancyOf(db, t)
                                       else if p.value.entry.Some? then ReservedUnder(|db.reservations|) else Open
  {
    PromoteExclusive(db, s, now, dbNow, ttl);
    var after := Promote(db, s, now, dbNow, ttl).value.db;
    if t != s {
      OccupancySame(db, after, t);
    } else if NextWaiting(db.waitlist, s).Some? {
      ReservedIs(after, |db.reservations|);
    }
  }

  lemma PromotionFold(o: Occupancy, db: Db, s: SlotId, e: nat, now: Time, ttl: Time, t: SlotId)
    requires e < |db.waitlist| && s in db.slots
    ensures Fold(o, PromotionEvents(db, s, e, now, ttl), t) == if t == s then ReservedUnder(|db.reservations|) else o
  {
    var id := |db.reservations|;
    FoldTwo(o, SlotReserved(db.slots[s].roomID, s, id),
            WaitlistSlotReserved(RoomOf(db, s), s, db.waitlist[e].userID, id, e, now + ttl), t);
  }

  // ---- The single-slot operations ----

  lemma CreateBookingReplays(db: Db, user: User, slot: SlotId, now: Time, s: SlotId)
    requires Exclusive(db)
    ensures
      var out := CreateBooking(db, user, slot, now);
      Fold(OccupancyOf(db, s), out.events, s) == OccupancyOf(out.db, s)
  {
    var out := CreateBooking(db, user, slot, now);
    if out.result.Success? {
      FoldOne(OccupancyOf(db, s), out.events[0], s);
      BookExclusive(db, out.result.value.row);
      if s == slot {
        BookedIs(out.db, |db.bookings|);
      } else {
        OccupancySame(db, out.db, s);
      }
    }
  }

  lemma ConfirmReplays(db: Db, user: User, id: nat, now: Time, s: SlotId)
    requires Exclusive(db)
    ensures
      var out := ConfirmReservation(db, user, id, now);
      Fold(OccupancyOf(db, s), out.events, s) == OccupancyOf(out.db, s)
  {
    var out := ConfirmReservation(db, user, id, now);
    if out.result.Success? {
      FoldOne(OccupancyOf(db, s), out.events[0], s);
      ConfirmExclusive(db, id, now);
      assert out.db == Confirm(db, id, now);
      if s == db.reservations[id].slotID {
        BookedIs(out.db, |db.bookings|);
      } else {
        OccupancySame(db, out.db, s);
      }
    }
  }

  lemma CancelBookingReplays(db: Db, user: User, id: nat, now: Time, dbNow: Time, ttl: Time, s: SlotId)
    requires Exclusive(db) && References(db)
    ensures
      var out := CancelBooking(db, user, id, now, dbNow, ttl);
      Fold(OccupancyOf(db, s), out.events, s) == OccupancyOf(out.db, s)
  {
    if user.role.RoleUser? && id < |db.bookings| && db.bookings[id].userID == user.id
       && db.bookings[id].status.Active?
    {
      var slot := db.bookings[id].slotID;
      var freed := db.(bookings := CancelBookingRow(db.bookings, id));
      var o := OccupancyOf(db, s);
      CancelVacates(db, id);
      PromoteOccupancy(freed, slot, now, dbNow, ttl, s);
      FoldOne(o, SlotReleased(db.slots[slot].roomID, slot, id), s);
      if NextWaiting(db.waitlist, slot).Some? {
        PromotionFold(o, freed, slot, NextWaiting(db.waitlist, slot).value, now, ttl, s);
      }
      if s != slot {
        OccupancySame(db, freed, s);
      }
    }
  }

  lemma CancelReservationReplays(db: Db, user: User, id: nat, now: Time, dbNow: Time, ttl: Time, s: SlotId)
    requires Exclusive(db) && References(db)
    ensures
      var out := CancelReservation(db, user, id, now, dbNow, ttl);
      Fold(OccupancyOf(db, s), out.events, s) == OccupancyOf(out.db, s)
  {
    if user.role.RoleUser? && id < |db.reservations| && db.reservations[id].userID == user.id
       && db.reservations[id].status.Active?
    {
      var slot, ended := db.reservations[id].slotID, CancelledReservation(db.reservations[id]);
      var freed := EndReservation(db, id, ended);
      var o := OccupancyOf(db, s);
      EndVacates(db, id, ended);
      PromoteOccupancy(freed, slot, now, dbNow, ttl, s);
      FoldOne(o, SlotAvailable(db.slots[slot].roomID, slot), s);
      if NextWaiting(db.waitlist, slot).Some? {
        PromotionFold(o, freed, slot, NextWaiting(db.waitlist, slot).value, now, ttl, s);
      }
      if s != slot {
        OccupancySame(db, freed, s);
      }
    }
  }

  // ---- The expiry batch: all expiry notices first, then all replacements ----

  lemma {:induction false} ExpiryNoticesFold(
    o: Occupancy, db: Db, picked: seq<nat>, replacements: seq<Replacement>, s: SlotId)
    requires References(db) && forall k | 0 <= k < |picked| :: picked[k] < |db.reservations|
    ensures Fold(o, ExpiryNotices(db, picked, replacements), s)
         == if exists k | 0 <= k < |picked| :: db.reservations[picked[k]].slotID == s then Open else o
    decreases |picked|
  {
    if picked != [] {
      var slot := db.reservations[picked[0]].slotID;
      var replaced := Replaced(replacements, slot);
      ExpiryNoticeFold(o, db, picked[0], replaced, s);
      var next := Fold(o, ExpiryNotice(db, picked[0], replaced), s);
      FoldAppend(o, ExpiryNotice(db, picked[0], replaced), ExpiryNotices(db, picked[1..], replacements), s);
      ExpiryNoticesFold(next, db, picked[1..], replacements, s);
      assert forall k | 0 < k < |picked| :: picked[k] == picked[1..][k - 1];
    }
  }

  lemma ExpiryNoticeFold(o: Occupancy, db: Db, id: nat, replaced: bool, s: SlotId)
    requires id < |db.reservations| && db.reservations[id].slotID in db.slots
    ensures Fold(o, ExpiryNotice(db, id, replaced), s) == if db.reservations[id].slotID == s then Open else o
  {
    var r := db.reservations[id];
    var room := db.slots[r.slotID].roomID;
    var mine := ReservationExpired(Some(room), r.slotID, r.userID, id);
    var expired := SlotReservationExpired(room, r.slotID, id);
    FoldTwo(o, mine, expired, s);
    if replaced {
      assert ExpiryNotice(db, id, replaced) == [mine] + [expired];
    } else {
      var free := SlotAvailable(room, r.slotID);
      FoldAppend(o, [mine] + [expired], [free], s);
      FoldOne(Fold(o, [mine] + [expired], s), free, s);
      assert ExpiryNotice(db, id, replaced) == [mine] + [expired] + [free];
    }
  }

  lemma {:induction false} ReplacementNoticesAppend(db: Db, p: seq<Replacement>, r: Replacement)
    ensures ReplacementNotices(db, p + [r]) == ReplacementNotices(db, p) + ReplacementNotice(db, r)
  {
    if p == [] {
      assert p + [r] == [r] && [r][1..] == [];
    } else {
      ReplacementNoticesAppend(db, p[1..], r);
      assert (p + [r])[1..] == p[1..] + [r];
    }
  }

  lemma ReplacementFold(o: Occupancy, db: Db, p: seq<Replacement>, r: Replacement, s: SlotId)
    requires r.slotID in db.slots
    ensures Fold(o, ReplacementNotices(db, p + [r]), s)
         == if s == r.slotID then ReservedUnder(r.reservationID) else Fold(o, ReplacementNotices(db, p), s)
    ensures Replaced(p + [r], s) <==> s == r.slotID || Replaced(p, s)
  {
    ReplacementNoticesAppend(db, p, r);
    FoldAppend(o, ReplacementNotices(db, p), ReplacementNotice(db, r), s);
    FoldTwo(Fold(o, ReplacementNotices(db, p), s),
            SlotReserved(db.slots[r.slotID].roomID, r.slotID, r.reservationID),
            WaitlistSlotReserved(RoomOf(db, r.slotID), r.slotID, r.userID, r.reservationID, r.entryID, r.expiresAt), s);
    assert (p + [r])[|p|] == r;
    assert forall i | 0 <= i < |p| :: (p + [r])[i] == p[i];
  }

  // The replacement notices so far tell exactly about the slots that have been replaced.
  ghost predicate Told(db: Db, o: Occupancy, batch: Batch, s: SlotId) {
    Fold(o, ReplacementNotices(db, batch.replacements), s)
    == if Replaced(batch.replacements, s) then OccupancyOf(batch.db, s) else o
  }

  // What the first row of a batch does to the occupancy of slot t.
  lemma FirstOccupancy(batch: Batch, picked: seq<nat>, now: Time, dbNow: Time, ttl: Time, t: SlotId)
    requires Exclusive(batch.db) && AllDue(batch.db.reservations, picked, now) && picked != []
    ensures
      var s := batch.db.reservations[picked[0]].slotID;
      var first := FirstExpired(batch, picked, now, dbNow, ttl);
      && first.Success?
      && (t != s ==> OccupancyOf(first.value.db, t) == OccupancyOf(batch.db, t))
      && (t == s ==> OccupancyOf(first.value.db, t)
                     == if first.value.replacements == batch.replacements then Open
                        else ReservedUnder(|batch.db.reservations|))
  {
    var s, freed := batch.db.reservations[picked[0]].slotID, ExpireRow(batch.db, picked[0], now);
    ExpireRowVacates(batch.db, picked[0], now);
    PromoteOccupancy(freed, s, now, dbNow, ttl, t);
    if t != s {
      OccupancySame(batch.db, freed, t);
    }
  }

  lemma FirstTold(
    db: Db, o: Occupancy, batch: Batch, picked: seq<nat>, now: Time, dbNow: Time, ttl: Time, t: SlotId)
    requires Exclusive(batch.db) && AllDue(batch.db.reservations, picked, now) && picked != []
    requires batch.db.reservations[picked[0]].slotID in db.slots && Told(db, o, batch, t)
    requires !Replaced(batch.replacements, batch.db.reservations[picked[0]].slotID)
    ensures
      var s := batch.db.reservations[picked[0]].slotID;
      var first := FirstExpired(batch, picked, now, dbNow, ttl);
      && first.Success? && Told(db, o, first.value, t)
      && (t != s ==> (Replaced(first.value.replacements, t) <==> Replaced(batch.replacements, t)))
      && (t == s && !Replaced(first.value.replacements, t) ==> OccupancyOf(first.value.db, t) == Open)
  {
    FirstOccupancy(batch, picked, now, dbNow, ttl, t);
    var next := FirstExpired(batch, picked, now, dbNow, ttl).value;
    if next.replacements != batch.replacements {
      var r := next.replacements[|batch.replacements|];
      assert next.replacements == batch.replacements + [r];
      ReplacementFold(o, db, batch.replacements, r, t);
    }
  }

  lemma {:induction false} BatchTold(
    db: Db, o: Occupancy, batch: Batch, picked: seq<nat>, now: Time, dbNow: Time, ttl: Time, t: SlotId)
    requires Exclusive(batch.db) && AllDue(batch.db.reservations, picked, now) && Told(db, o, batch, t)
    requires forall k | 0 <= k < |picked| ::
      && batch.db.reservations[picked[k]].slotID in db.slots
      && !Replaced(batch.replacements, batch.db.reservations[picked[k]].slotID)
    ensures
      var out := ExpireEach(batch, picked, now, dbNow, ttl);
      && out.Success? && Told(db, o, out.value, t)
      && (PickedFor(batch.db.reservations, picked, t) && !Replaced(out.value.replacements, t) ==>
            OccupancyOf(out.value.db, t) == Open)
      && (!PickedFor(batch.db.reservations, picked, t) ==>
            OccupancyOf(out.value.db, t) == OccupancyOf(batch.db, t)
            && (Replaced(out.value.replacements, t) <==> Replaced(batch.replacements, t)))
    decreases |picked|
  {
    if picked != [] {
      var rows, rest := batch.db.reservations, picked[1..];
      FirstOfBatch(batch, picked, now, dbNow, ttl);
      FirstOccupancy(batch, picked, now, dbNow, ttl, t);
      FirstTold(db, o, batch, picked, now, dbNow, ttl, t);
      var next := FirstExpired(batch, picked, now, dbNow, ttl).value;
      RestStaysDue(rows, next.db.reservations, picked, now);
      PickedOnce(rows, next.db.reservations, picked, now, t);
      RestNotReplaced(db, o, batch, picked, now, dbNow, ttl);
      BatchTold(db, o, next, rest, now, dbNow, ttl, t);
    }
  }

  // Each row of the batch has a slot of its own, so the later ones have not been replaced yet.
  lemma RestNotReplaced(db: Db, o: Occupancy, batch: Batch, picked: seq<nat>, now: Time, dbNow: Time, ttl: Time)
    requires Exclusive(batch.db) && AllDue(batch.db.reservations, picked, now) && picked != []
    requires forall k | 0 <= k < |picked| ::
      && batch.db.reservations[picked[k]].slotID in db.slots
      && !Replaced(batch.replacements, batch.db.reservations[picked[k]].slotID)
    ensures
      var first := FirstExpired(batch, picked, now, dbNow, ttl);
      && first.Success? && |batch.db.reservations| <= |first.value.db.reservations|
      && forall k | 0 <= k < |picked| - 1 ::
        && picked[1..][k] < |batch.db.reservations|
        && first.value.db.reservations[picked[1..][k]].slotID in db.slots
        && !Replaced(first.value.replacements, first.value.db.reservations[picked[1..][k]].slotID)
  {
    var rows := batch.db.reservations;
    FirstOfBatch(batch, picked, now, dbNow, ttl);
    var next := FirstExpired(batch, picked, now, dbNow, ttl).value;
    var rest := picked[1..];
    forall k | 0 <= k < |rest|
      ensures rest[k] < |rows| && !Replaced(next.replacements, rows[rest[k]].slotID)
    {
      assert rest[k] == picked[k + 1];
      PickedApart(rows, picked, now, k + 1);
      if next.replacements != batch.replacements {
        assert forall i | 0 <= i < |batch.replacements| :: next.replacements[i] == batch.replacements[i];
      }
    }
  }

  lemma ExpireDueReplays(db: Db, picked: seq<nat>, now: Time, dbNow: Time, ttl: Time, s: SlotId)
    requires Exclusive(db) && References(db) && AllDue(db.reservations, picked, now)
    ensures
      var out := ExpireDue(db, picked, now, dbNow, ttl);
      Fold(OccupancyOf(db, s), out.events, s) == OccupancyOf(out.db, s)
  {
    var o := OccupancyOf(db, s);
    var p := PickedFor(db.reservations, picked, s);
    BatchIsSequence(Batch(db, []), picked, now, dbNow, ttl);
    var mid := if p then Open else o;
    BatchTold(db, mid, Batch(db, []), picked, now, dbNow, ttl, s);
    var out := ExpireEach(Batch(db, []), picked, now, dbNow, ttl).value;
    ExpiryNoticesFold(o, db, picked, out.replacements, s);
    assert p <==> exists k | 0 <= k < |picked| :: db.reservations[picked[k]].slotID == s by {
      assert forall k | 0 <= k < |picked| :: picked[k] in picked;
    }
    FoldAppend(o, ExpiryNotices(db, picked, out.replacements), ReplacementNotices(db, out.replacements), s);
  }

  // ---- Any operation, any run ----

  // Folding what an operation publishes turns the occupancy before it into the occupancy after it.
  lemma OperationReplays(db: Db, op: Op, ttl: Time, s: SlotId)
    requires Exclusive(db) && References(db) && Possible(db, op)
    ensures Fold(OccupancyOf(db, s), Published(db, op, ttl), s) == OccupancyOf(Apply(db, op, ttl), s)
  {
    if op.OpExpireDue? {
      ExpireDueReplays(db, op.picked, op.now, op.dbNow, ttl, s);
    } else {
      SlotOperationReplays(db, op, ttl, s);
    }
  }

  lemma SlotOperationReplays(db: Db, op: Op, ttl: Time, s: SlotId)
    requires Exclusive(db) && References(db) && !op.OpExpireDue?
    ensures Fold(OccupancyOf(db, s), Published(db, op, ttl), s) == OccupancyOf(Apply(db, op, ttl), s)
  {
    match op
    case OpCreateBooking(user, slot, now) => CreateBookingReplays(db, user, slot, now, s);
    case OpCancelBooking(user, id, now, dbNow) => CancelBookingReplays(db, user, id, now, dbNow, ttl, s);
    case OpConfirmReservation(user, id, now) => ConfirmReplays(db, user, id, now, s);
    case OpCancelReservation(user, id, now, dbNow) => CancelReservationReplays(db, user, id, now, dbNow, ttl, s);
    case _ =>
  }

  // An operation that leaves the bookings and reservations as they were publishes nothing.
  lemma QuietWhenUnchanged(db: Db, op: Op, ttl: Time)
    requires Possible(db, op) && Apply(db, op, ttl).bookings == db.bookings
    requires Apply(db, op, ttl).reservations == db.reservations
    requires op.OpExpireDue? ==> Exclusive(db)
    ensures Published(db, op, ttl) == []
  {
    if op.OpExpireDue? {
      ExpiredRowsChange(db, op.picked, op.now, op.dbNow, ttl);
    }
  }

  lemma ExpiredRowsChange(db: Db, picked: seq<nat>, now: Time, dbNow: Time, ttl: Time)
    requires Exclusive(db) && AllDue(db.reservations, picked, now)
    ensures picked == [] ==> ExpireDue(db, picked, now, dbNow, ttl).events == []
    ensures picked != [] ==> ExpireDue(db, picked, now, dbNow, ttl).db.reservations != db.reservations
  {
    var marked, slots := Marked(Batch(db, []), picked, now), SlotsOf(db.reservations, picked);
    BatchIsSequence(Batch(db, []), picked, now, dbNow, ttl);
    ExpireEachReleases(Batch(db, []), picked, now, dbNow, ttl, 0);
    if picked != [] {
      var out := PromoteAll(marked, slots, now, dbNow, ttl).value;
      PromoteAllEvolves(marked, slots, now, dbNow, ttl);
      assert ReservationEvolves(marked.db.reservations[picked[0]], out.db.reservations[picked[0]]);
    }
  }

  // The events of one operation after the other.
  function Flat(published: seq<seq<Event>>): seq<Event> {
    if published == [] then [] else Flat(published[..|published| - 1]) + published[|published| - 1]
  }

  lemma FlatLast(published: seq<seq<Event>>, k: nat, last: seq<Event>)
    requires 0 < k <= |published| && published[k - 1] == last
    ensures Flat(published[..k]) == Flat(published[..k - 1]) + last
  {
    assert published[..k][..k - 1] == published[..k - 1];
  }

  ghost function PublishedEach(run: seq<Db>, ops: seq<Op>, ttl: Time): (published: seq<seq<Event>>)
    requires IsRun(run, ops, ttl)
    ensures |published| == |ops|
  {
    seq(|ops|, k requires 0 <= k < |ops| && Possible(run[k], ops[k]) => Published(run[k], ops[k], ttl))
  }

  // Everything a run has published before its operation k.
  ghost function PublishedUpTo(run: seq<Db>, ops: seq<Op>, ttl: Time, k: nat): seq<Event>
    requires IsRun(run, ops, ttl) && k <= |ops|
  {
    Flat(PublishedEach(run, ops, ttl)[..k])
  }

  // Of all events, in order, what they tell of a slot is who has it, at every point of every run.
  lemma {:induction false} FeedReplays(run: seq<Db>, ops: seq<Op>, ttl: Time, s: SlotId, k: nat)
    requires IsRun(run, ops, ttl) && Initial(run[0]) && k <= |ops|
    ensures Fold(Open, PublishedUpTo(run, ops, ttl, k), s) == OccupancyOf(run[k], s)
  {
    if k > 0 {
      var last := Published(run[k - 1], ops[k - 1], ttl);
      FeedReplays(run, ops, ttl, s, k - 1);
      ReachableInv(run, ops, ttl, k - 1);
      OperationReplays(run[k - 1], ops[k - 1], ttl, s);
      FlatLast(PublishedEach(run, ops, ttl), k, last);
      FoldAppend(Open, PublishedUpTo(run, ops, ttl, k - 1), last, s);
    }
  }

  // ---- A subscriber of one room ----

  predicate Personal(e: Event) {
    e.WaitlistSlotReserved? || e.ReservationExpired?
  }

  predicate SentTo(e: Event, room: RoomId) {
    !Personal(e) && RoomNamed(e) == Some(room)
  }

  // What a subscriber of the room receives.
  function Heard(events: seq<Event>, room: RoomId): seq<Event> {
    if events == [] then []
    else
      var last := events[|events| - 1];
      Heard(events[..|events| - 1], room) + if SentTo(last, room) then [last] else []
  }

  lemma {:induction false} HeardFold(o: Occupancy, events: seq<Event>, s: SlotId, room: RoomId)
    requires forall e | e in events && e.slotID == s :: RoomNamed(e) == Some(room)
    ensures Fold(o, Heard(events, room), s) == Fold(o, events, s)
  {
    if events != [] {
      var front, last := events[..|events| - 1], events[|events| - 1];
      HeardFold(o, front, s, room);
      if SentTo(last, room) {
        assert (Heard(front, room) + [last])[..|Heard(front, room)|] == Heard(front, room);
      } else {
        assert Heard(front, room) + [] == Heard(front, room);
      }
    }
  }

  // Every event of the log names the room of its slot, which never changes.
  lemma {:induction false} LogNamesTheRoom(run: seq<Db>, ops: seq<Op>, ttl: Time, k: nat)
    requires IsRun(run, ops, ttl) && Initial(run[0]) && k <= |ops|
    ensures Addressed(run[k], PublishedUpTo(run, ops, ttl, k))
  {
    if k > 0 {
      var before, op := run[k - 1], ops[k - 1];
      LogNamesTheRoom(run, ops, ttl, k - 1);
      ReachableInv(run, ops, ttl, k - 1);
      EventsNameTheRoom(before, op, ttl);
      OperationEvolves(before, op, ttl);
      FlatLast(PublishedEach(run, ops, ttl), k, Published(before, op, ttl));
      StillAddressed(before, run[k], PublishedUpTo(run, ops, ttl, k - 1), Published(before, op, ttl));
    }
  }

  lemma StillAddressed(db: Db, later: Db, earlier: seq<Event>, events: seq<Event>)
    requires Evolves(db, later) && Addressed(db, earlier) && Addressed(db, events)
    ensures Addressed(later, earlier + events)
  {
    forall e | e in earlier + events ensures RightRoom(later, e) {
      assert RightRoom(db, e);
    }
  }

  // A subscriber who receives the events of one room, in order, knows who has each of its slots, at every point of
  // every run.
  lemma RunReplays(run: seq<Db>, ops: seq<Op>, ttl: Time, s: SlotId, k: nat)
    requires IsRun(run, ops, ttl) && Initial(run[0]) && k <= |ops| && s in run[k].slots
    ensures Fold(Open, Heard(PublishedUpTo(run, ops, ttl, k), run[k].slots[s].roomID), s) == OccupancyOf(run[k], s)
  {
    var log := PublishedUpTo(run, ops, ttl, k);
    FeedReplays(run, ops, ttl, s, k);
    LogNamesTheRoom(run, ops, ttl, k);
    assert forall e | e in log :: RightRoom(run[k], e);
    HeardFold(Open, log, s, run[k].slots[s].roomID);
  }
}
