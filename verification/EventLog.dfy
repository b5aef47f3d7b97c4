/** Exactly which events an operation publishes: what has changed in the tables, each piece once, to the right room. */
module EventLog {
  import opened Wrappers
  import opened Domain
  import opened Tables
  import opened Protocol
  import opened Invariants
  import opened Expiry
  import opened Effects
  import opened Notices

  // ---- To the right room ----

  // The room an event names: the one it is sent to, or, in a personal notice, the one told to the user.
  function RoomNamed(e: Event): Option<RoomId> {
    match e
    case SlotBooked(room, _, _) => Some(room)
    case SlotReleased(room, _, _) => Some(room)
    case SlotAvailable(room, _) => Some(room)
    case SlotReserved(room, _, _) => Some(room)
    case SlotReservationExpired(room, _, _) => Some(room)
    case WaitlistSlotReserved(room, _, _, _, _, _) => room
    case ReservationExpired(room, _, _, _) => room
  }

  predicate RightRoom(db: Db, e: Event) {
    e.slotID in db.slots && RoomNamed(e) == Some(db.slots[e.slotID].roomID)
  }

  ghost predicate Addressed(db: Db, events: seq<Event>) {
    forall e | e in events :: RightRoom(db, e)
  }

  lemma {:induction false} ExpiryAddressed(db: Db, picked: seq<nat>, replacements: seq<Replacement>)
    requires References(db) && forall k | 0 <= k < |picked| :: picked[k] < |db.reservations|
    ensures Addressed(db, ExpiryNotices(db, picked, replacements))
  {
    if picked != [] {
      ExpiryAddressed(db, picked[1..], replacements);
    }
  }

  lemma {:induction false} ReplacementsAddressed(db: Db, replacements: seq<Replacement>)
    requires forall k | 0 <= k < |replacements| :: replacements[k].slotID in db.slots
    ensures Addressed(db, ReplacementNotices(db, replacements))
  {
    if replacements != [] {
      ReplacementsAddressed(db, replacements[1..]);
    }
  }

  // The slots replaced by a batch are slots it went through.
  lemma {:induction false} ReplacedKnown(
    batch: Batch, slots: seq<SlotId>, now: Time, dbNow: Time, ttl: Time, known: set<SlotId>)
    requires PromoteAll(batch, slots, now, dbNow, ttl).Success?
    requires forall k | 0 <= k < |slots| :: slots[k] in known
    requires forall k | 0 <= k < |batch.replacements| :: batch.replacements[k].slotID in known
    ensures
      var out := PromoteAll(batch, slots, now, dbNow, ttl).value;
      forall k | 0 <= k < |out.replacements| :: out.replacements[k].slotID in known
    decreases |slots|
  {
    if slots != [] {
      ReplacedKnown(PromoteOne(batch, slots[0], now, dbNow, ttl).value, slots[1..], now, dbNow, ttl, known);
    }
  }

  lemma ExpireDueAddressed(db: Db, picked: seq<nat>, now: Time, dbNow: Time, ttl: Time)
    requires References(db) && forall k | 0 <= k < |picked| :: picked[k] < |db.reservations|
    ensures Addressed(db, ExpireDue(db, picked, now, dbNow, ttl).events)
  {
    var marked := Batch(db.(reservations := ExpireRows(db.reservations, picked, now)), []);
    var slots := SlotsOf(db.reservations, picked);
    if PromoteAll(marked, slots, now, dbNow, ttl).Success? {
      var batch := PromoteAll(marked, slots, now, dbNow, ttl).value;
      ReplacedKnown(marked, slots, now, dbNow, ttl, db.slots.Keys);
      ExpiryAddressed(db, picked, batch.replacements);
      ReplacementsAddressed(db, batch.replacements);
    }
  }

  lemma SlotOperationAddressed(db: Db, op: Op, ttl: Time)
    requires References(db) && !op.OpExpireDue?
    ensures Addressed(db, Published(db, op, ttl))
  {}

  // Every event names a known slot and that slot's room.
  lemma EventsNameTheRoom(db: Db, op: Op, ttl: Time)
    requires References(db) && Possible(db, op)
    ensures forall e | e in Published(db, op, ttl) ::
      e.slotID in db.slots && RoomNamed(e) == Some(db.slots[e.slotID].roomID)
  {
    if op.OpExpireDue? {
      AnswerIsDue(db.reservations, op.now, op.limit, op.picked);
      ExpireDueAddressed(db, op.picked, op.now, op.dbNow, ttl);
    } else {
      SlotOperationAddressed(db, op, ttl);
    }
    assert Addressed(db, Published(db, op, ttl));
  }

  // ---- What there is to tell, read off the tables before and after ----

  predicate EndedAs(db: Db, after: Db, id: nat, s: SlotId, expired: bool) {
    && id < |db.reservations| && id < |after.reservations| && Reserves(db.reservations[id], s)
    && (after.reservations[id].status.Expired? || (!expired && after.reservations[id].status.Cancelled?))
  }

  ghost predicate Warranted(db: Db, after: Db, e: Event) {
    RightRoom(db, e) &&
    match e
    case SlotBooked(_, s, id) => |db.bookings| <= id < |after.bookings| && after.bookings[id].slotID == s
    case SlotReleased(_, s, id) =>
      && id < |db.bookings| && id < |after.bookings| && Books(db.bookings[id], s)
      && after.bookings[id].status.Cancelled? && NextWaiting(db.waitlist, s).None?
    case SlotAvailable(_, s) =>
      NextWaiting(db.waitlist, s).None? && exists id :: EndedAs(db, after, id, s, false)
    case SlotReserved(_, s, id) =>
      |db.reservations| <= id < |after.reservations| && after.reservations[id].slotID == s
    case SlotReservationExpired(_, s, id) => EndedAs(db, after, id, s, true)
    case WaitlistSlotReserved(_, s, user, id, entry, deadline) =>
      && |db.reservations| <= id < |after.reservations| && after.reservations[id].slotID == s
      && after.reservations[id].userID == user && after.reservations[id].waitlistEntryID == Some(entry)
      && after.reservations[id].expiresAt == deadline
    case ReservationExpired(_, s, user, id) =>
      EndedAs(db, after, id, s, true) && db.reservations[id].userID == user
  }

  // Each event occurs as often as it is warranted: once or never.
  ghost predicate ToldOnce(db: Db, after: Db, events: seq<Event>, e: Event) {
    multiset(events)[e] == if Warranted(db, after, e) then 1 else 0
  }

  // ---- The expiry notices of a batch ----

  // Row id of a batch is told to its holder and to the room; the slot is offered when it has not been handed on.
  predicate ExpiryTold(db: Db, id: nat, replaced: bool, e: Event) {
    && id < |db.reservations| && RightRoom(db, e) && e.slotID == db.reservations[id].slotID
    && match e
       case ReservationExpired(_, _, user, i) => user == db.reservations[id].userID && i == id
       case SlotReservationExpired(_, _, i) => i == id
       case SlotAvailable(_, _) => !replaced
       case _ => false
  }

  lemma ExpiryNoticeCount(db: Db, id: nat, replaced: bool, e: Event)
    requires References(db) && id < |db.reservations|
    ensures multiset(ExpiryNotice(db, id, replaced))[e] == if ExpiryTold(db, id, replaced, e) then 1 else 0
  {}

  ghost predicate SomeExpiryTold(db: Db, picked: seq<nat>, replacements: seq<Replacement>, e: Event) {
    exists k | 0 <= k < |picked| && picked[k] < |db.reservations| ::
      ExpiryTold(db, picked[k], Replaced(replacements, db.reservations[picked[k]].slotID), e)
  }

  lemma SomeExpiryFirst(db: Db, picked: seq<nat>, replacements: seq<Replacement>, e: Event)
    requires picked != [] && picked[0] < |db.reservations|
    ensures SomeExpiryTold(db, picked, replacements, e) <==>
            || ExpiryTold(db, picked[0], Replaced(replacements, db.reservations[picked[0]].slotID), e)
            || SomeExpiryTold(db, picked[1..], replacements, e)
  {
    var rest := picked[1..];
    if k :| 0 < k < |picked| && picked[k] < |db.reservations|
            && ExpiryTold(db, picked[k], Replaced(replacements, db.reservations[picked[k]].slotID), e) {
      assert rest[k - 1] == picked[k];
    }
    if k :| 0 <= k < |rest| && rest[k] < |db.reservations|
            && ExpiryTold(db, rest[k], Replaced(replacements, db.reservations[rest[k]].slotID), e) {
      assert picked[k + 1] == rest[k];
    }
  }

  lemma {:induction false} ExpiryNoticesCount(
    db: Db, picked: seq<nat>, now: Time, replacements: seq<Replacement>, e: Event)
    requires References(db) && OneReservation(db.reservations) && AllDue(db.reservations, picked, now)
    ensures multiset(ExpiryNotices(db, picked, replacements))[e]
         == if SomeExpiryTold(db, picked, replacements, e) then 1 else 0
  {
    if picked != [] {
      var id, rest := picked[0], picked[1..];
      var replaced := Replaced(replacements, db.reservations[id].slotID);
      FirstDue(db.reservations, picked, now);
      ExpiryNoticeCount(db, id, replaced, e);
      ExpiryNoticesCount(db, rest, now, replacements, e);
      SomeExpiryFirst(db, picked, replacements, e);
      if ExpiryTold(db, id, replaced, e) {
        forall k | 0 <= k < |rest| ensures db.reservations[rest[k]].slotID != e.slotID {
          PickedApart(db.reservations, picked, now, k + 1);
        }
      }
    }
  }

  // ---- The replacement notices of a batch ----

  predicate ReplacementTold(db: Db, r: Replacement, e: Event) {
    && RightRoom(db, e) && e.slotID == r.slotID
    && match e
       case SlotReserved(_, _, id) => id == r.reservationID
       case WaitlistSlotReserved(_, _, user, id, entry, deadline) =>
         user == r.userID && id == r.reservationID && entry == r.entryID && deadline == r.expiresAt
       case _ => false
  }

  lemma ReplacementNoticeCount(db: Db, r: Replacement, e: Event)
    requires r.slotID in db.slots
    ensures multiset(ReplacementNotice(db, r))[e] == if ReplacementTold(db, r, e) then 1 else 0
  {}

  ghost predicate SomeReplacementTold(db: Db, replacements: seq<Replacement>, e: Event) {
    exists k | 0 <= k < |replacements| :: ReplacementTold(db, replacements[k], e)
  }

  // The replacements are numbered from n on.
  predicate Numbered(replacements: seq<Replacement>, n: nat) {
    forall k | 0 <= k < |replacements| :: replacements[k].reservationID == n + k
  }

  lemma SomeReplacementFirst(db: Db, replacements: seq<Replacement>, e: Event)
    requires replacements != []
    ensures SomeReplacementTold(db, replacements, e) <==>
            ReplacementTold(db, replacements[0], e) || SomeReplacementTold(db, replacements[1..], e)
  {
    var rest := replacements[1..];
    if k :| 0 < k < |replacements| && ReplacementTold(db, replacements[k], e) {
      assert rest[k - 1] == replacements[k];
    }
    if k :| 0 <= k < |rest| && ReplacementTold(db, rest[k], e) {
      assert replacements[k + 1] == rest[k];
    }
  }

  lemma NumberedRest(replacements: seq<Replacement>, n: nat)
    requires Numbered(replacements, n) && replacements != []
    ensures replacements[0].reservationID == n && Numbered(replacements[1..], n + 1)
  {
    forall k | 0 <= k < |replacements| - 1 ensures replacements[1..][k].reservationID == n + 1 + k {
      assert replacements[1..][k] == replacements[k + 1];
    }
  }

  lemma {:induction false} ReplacementNoticesCount(db: Db, replacements: seq<Replacement>, n: nat, e: Event)
    requires Numbered(replacements, n)
    requires forall k | 0 <= k < |replacements| :: replacements[k].slotID in db.slots
    ensures multiset(ReplacementNotices(db, replacements))[e]
         == if SomeReplacementTold(db, replacements, e) then 1 else 0
  {
    if replacements != [] {
      var first, rest := replacements[0], replacements[1..];
      NumberedRest(replacements, n);
      ReplacementNoticeCount(db, first, e);
      ReplacementNoticesCount(db, rest, n + 1, e);
      SomeReplacementFirst(db, replacements, e);
      if ReplacementTold(db, first, e) {
        assert forall k | 0 <= k < |rest| :: !ReplacementTold(db, rest[k], e);
      }
    }
  }

  // ---- A batch: what it tells is what it has done ----

  // The batch after its rows have been dealt with one by one.
  ghost function Dealt(db: Db, picked: seq<nat>, now: Time, dbNow: Time, ttl: Time): Result<Batch, ErrorCode> {
    ExpireEach(Batch(db, []), picked, now, dbNow, ttl)
  }

  lemma BatchPublishes(db: Db, picked: seq<nat>, now: Time, dbNow: Time, ttl: Time)
    requires Exclusive(db) && References(db) && AllDue(db.reservations, picked, now)
    ensures
      var batch := Dealt(db, picked, now, dbNow, ttl);
      && batch.Success? && Lists(batch.value, |db.reservations|)
      && ExpireDue(db, picked, now, dbNow, ttl).events
         == ExpiryNotices(db, picked, batch.value.replacements) + ReplacementNotices(db, batch.value.replacements)
      && (forall k | 0 <= k < |batch.value.replacements| :: batch.value.replacements[k].slotID in db.slots)
      && AfterExpiry(db, picked, now, dbNow, ttl) == batch.value.db
  {
    var slots := SlotsOf(db.reservations, picked);
    var marked := Batch(db.(reservations := ExpireRows(db.reservations, picked, now)), []);
    assert marked == Marked(Batch(db, []), picked, now);
    BatchIsSequence(Batch(db, []), picked, now, dbNow, ttl);
    BatchKeepsRest(Batch(db, []), picked, now, dbNow, ttl);
    PromoteAllLists(marked, slots, now, dbNow, ttl, |db.reservations|);
    ReplacedKnown(marked, slots, now, dbNow, ttl, db.slots.Keys);
  }

  lemma ReplacedIsWaitedFor(
    db: Db, picked: seq<nat>, now: Time, dbNow: Time, ttl: Time, batch: Batch, s: SlotId)
    requires Exclusive(db) && AllDue(db.reservations, picked, now) && Lists(batch, |db.reservations|)
    requires Dealt(db, picked, now, dbNow, ttl) == Success(batch) && Replaced(batch.replacements, s)
    ensures NextWaiting(db.waitlist, s).Some?
  {
    var n := |db.reservations|;
    var i :| 0 <= i < |batch.replacements| && batch.replacements[i].slotID == s;
    assert Describes(batch.replacements[i], batch.db.reservations[n + i], n + i);
    BatchGrants(Batch(db, []), picked, now, dbNow, ttl, n + i);
  }

  lemma NewIsReplacement(batch: Batch, n: nat, id: nat)
    requires Lists(batch, n) && n <= id < |batch.db.reservations|
    ensures Replaced(batch.replacements, batch.db.reservations[id].slotID)
  {
    assert Describes(batch.replacements[id - n], batch.db.reservations[n + (id - n)], n + (id - n));
  }

  // A slot of a batch has been handed on exactly when somebody waited for it.
  lemma ReplacedWhenWaitedFor(db: Db, picked: seq<nat>, now: Time, dbNow: Time, ttl: Time, batch: Batch, k: nat)
    requires Exclusive(db) && AllDue(db.reservations, picked, now) && k < |picked|
    requires Dealt(db, picked, now, dbNow, ttl) == Success(batch) && Lists(batch, |db.reservations|)
    ensures
      var s := db.reservations[picked[k]].slotID;
      Replaced(batch.replacements, s) <==> NextWaiting(db.waitlist, s).Some?
  {
    var s := db.reservations[picked[k]].slotID;
    if Replaced(batch.replacements, s) {
      ReplacedIsWaitedFor(db, picked, now, dbNow, ttl, batch, s);
    }
    if NextWaiting(db.waitlist, s).Some? {
      assert Reserves(db.reservations[picked[k]], s);
      var id := BatchServes(Batch(db, []), picked, now, dbNow, ttl, NextWaiting(db.waitlist, s).value);
      NewIsReplacement(batch, |db.reservations|, id);
    }
  }

  // An expired row is offered to the room if and only if nobody waits for its slot; its room and its holder are
  // told in any case. Each of these is told once.
  lemma ExpiryEventsExact(db: Db, picked: seq<nat>, now: Time, dbNow: Time, ttl: Time, e: Event)
    requires Exclusive(db) && References(db) && AllDue(db.reservations, picked, now)
    ensures
      var told := multiset(ExpireDue(db, picked, now, dbNow, ttl).events)[e];
      && (e.SlotAvailable? ==>
            told == if exists k | 0 <= k < |picked| :: OfferedFor(db, picked[k], e) then 1 else 0)
      && (e.SlotReservationExpired? ==>
            told == if e.reservationID in picked && e == RoomExpiry(db, e.reservationID) then 1 else 0)
      && (e.ReservationExpired? ==>
            told == if e.reservationID in picked && e == ExpiredEvent(db, e.reservationID) then 1 else 0)
      && (e.SlotBooked? || e.SlotReleased? ==> told == 0)
  {
    BatchPublishes(db, picked, now, dbNow, ttl);
    var batch := Dealt(db, picked, now, dbNow, ttl).value;
    ExpiryNoticesCount(db, picked, now, batch.replacements, e);
    NumberedFrom(batch, |db.reservations|);
    ReplacementNoticesCount(db, batch.replacements, |db.reservations|, e);
    forall k | 0 <= k < |picked|
      ensures Replaced(batch.replacements, db.reservations[picked[k]].slotID)
              <==> NextWaiting(db.waitlist, db.reservations[picked[k]].slotID).Some?
    {
      ReplacedWhenWaitedFor(db, picked, now, dbNow, ttl, batch, k);
    }
    ExpiryToldMeans(db, picked, now, batch.replacements, e);
  }

  // The offer of the slot of row id, for which nobody waits.
  ghost predicate OfferedFor(db: Db, id: nat, e: Event) {
    && id < |db.reservations| && db.reservations[id].slotID in db.slots
    && NextWaiting(db.waitlist, db.reservations[id].slotID).None?
    && e == SlotAvailable(db.slots[db.reservations[id].slotID].roomID, db.reservations[id].slotID)
  }

  function RoomExpiry(db: Db, id: nat): Event {
    if id < |db.reservations| && db.reservations[id].slotID in db.slots then
      SlotReservationExpired(db.slots[db.reservations[id].slotID].roomID, db.reservations[id].slotID, id)
    else SlotReservationExpired(0, 0, id)
  }

  lemma NumberedFrom(batch: Batch, n: nat)
    requires Lists(batch, n)
    ensures Numbered(batch.replacements, n)
  {
    forall k | 0 <= k < |batch.replacements| ensures batch.replacements[k].reservationID == n + k {
      assert Describes(batch.replacements[k], batch.db.reservations[n + k], n + k);
    }
  }

  lemma ExpiryToldMeans(db: Db, picked: seq<nat>, now: Time, replacements: seq<Replacement>, e: Event)
    requires References(db) && AllDue(db.reservations, picked, now)
    requires forall k | 0 <= k < |picked| :: Replaced(replacements, db.reservations[picked[k]].slotID)
                                             <==> NextWaiting(db.waitlist, db.reservations[picked[k]].slotID).Some?
    ensures e.SlotAvailable? ==>
      (SomeExpiryTold(db, picked, replacements, e) <==>
       exists k | 0 <= k < |picked| :: OfferedFor(db, picked[k], e))
    ensures e.SlotReservationExpired? ==>
      (SomeExpiryTold(db, picked, replacements, e) <==>
       e.reservationID in picked && e == RoomExpiry(db, e.reservationID))
    ensures e.ReservationExpired? ==>
      (SomeExpiryTold(db, picked, replacements, e) <==>
       e.reservationID in picked && e == ExpiredEvent(db, e.reservationID))
  {
    forall k | 0 <= k < |picked|
      ensures ExpiryTold(db, picked[k], Replaced(replacements, db.reservations[picked[k]].slotID), e) <==>
              || OfferedFor(db, picked[k], e)
              || e == RoomExpiry(db, picked[k])
              || e == ExpiredEvent(db, picked[k])
    {
    }
  }

  // ---- The operations on one slot: what they publish, in order ----

  // A slot that is taken is announced as booked under the new booking.
  lemma TakingPublishes(db: Db, op: Op, ttl: Time)
    requires Possible(db, op) && (op.OpCreateBooking? || op.OpConfirmReservation?)
    ensures Takes(db, op, ttl) ==>
      && (op.OpConfirmReservation? ==> op.id < |db.reservations|)
      && var s := if op.OpCreateBooking? then op.slotID else db.reservations[op.id].slotID;
         s in db.slots && Published(db, op, ttl) == [SlotBooked(db.slots[s].roomID, s, |db.bookings|)]
    ensures !Takes(db, op, ttl) ==> Published(db, op, ttl) == []
  {}

  // What is told when slot s has been given up: the room hears of the new reservation before its user does; with
  // nobody waiting, only `released` is told.
  ghost predicate HandsOnTold(db: Db, s: SlotId, now: Time, ttl: Time, released: Event, events: seq<Event>)
    requires s in db.slots
  {
    var room, id := db.slots[s].roomID, |db.reservations|;
    match NextWaiting(db.waitlist, s)
    case None => events == [released]
    case Some(e) => events == [SlotReserved(room, s, id),
                               WaitlistSlotReserved(Some(room), s, db.waitlist[e].userID, id, e, now + ttl)]
  }

  lemma CancelPublishes(db: Db, op: Op, ttl: Time)
    requires op.OpCancelBooking? && Exclusive(db) && References(db)
    ensures op.id < |db.bookings| && GivesUp(db, op, db.bookings[op.id].slotID) ==>
      var s := db.bookings[op.id].slotID;
      HandsOnTold(db, s, op.now, ttl, SlotReleased(db.slots[s].roomID, s, op.id), Published(db, op, ttl))
    ensures !(op.id < |db.bookings| && GivesUp(db, op, db.bookings[op.id].slotID)) ==> Published(db, op, ttl) == []
  {
    if op.id < |db.bookings| && db.bookings[op.id].status.Active? {
      CancelVacates(db, op.id);
      PromotionExact(db.(bookings := CancelBookingRow(db.bookings, op.id)), db.bookings[op.id].slotID,
                     op.now, op.dbNow, ttl);
    }
  }

  lemma DeclinePublishes(db: Db, op: Op, ttl: Time)
    requires op.OpCancelReservation? && Exclusive(db) && References(db)
    ensures op.id < |db.reservations| && GivesUp(db, op, db.reservations[op.id].slotID) ==>
      var s := db.reservations[op.id].slotID;
      HandsOnTold(db, s, op.now, ttl, SlotAvailable(db.slots[s].roomID, s), Published(db, op, ttl))
    ensures
      !(op.id < |db.reservations| && GivesUp(db, op, db.reservations[op.id].slotID)) ==> Published(db, op, ttl) == []
  {
    if op.id < |db.reservations| && db.reservations[op.id].status.Active? {
      var ended := CancelledReservation(db.reservations[op.id]);
      EndVacates(db, op.id, ended);
      PromotionExact(EndReservation(db, op.id, ended), db.reservations[op.id].slotID, op.now, op.dbNow, ttl);
    }
  }

  // A cancelled reservation offers its slot to the room if and only if nobody waits for it.
  lemma OfferedWhenNobodyWaits(db: Db, user: User, id: nat, now: Time, dbNow: Time, ttl: Time, e: Event)
    requires Exclusive(db) && References(db) && e.SlotAvailable?
    ensures
      var own := user.role.RoleUser? && id < |db.reservations| && db.reservations[id].userID == user.id
                 && db.reservations[id].status.Active?;
      multiset(CancelReservation(db, user, id, now, dbNow, ttl).events)[e]
      == if own && OfferedFor(db, id, e) then 1 else 0
  {
    var op := OpCancelReservation(user, id, now, dbNow);
    DeclinePublishes(db, op, ttl);
    assert CancelReservation(db, user, id, now, dbNow, ttl).events == Published(db, op, ttl);
    if id < |db.reservations| && GivesUp(db, op, db.reservations[id].slotID) {
      assert NextWaiting(db.waitlist, db.reservations[id].slotID).None? ==>
             Published(db, op, ttl) == [SlotAvailable(db.slots[db.reservations[id].slotID].roomID,
                                                      db.reservations[id].slotID)];
    }
  }

  // ---- Every operation: the events are the difference of the tables ----

  lemma TakingTold(db: Db, op: Op, ttl: Time, e: Event)
    requires Exclusive(db) && Possible(db, op) && (op.OpCreateBooking? || op.OpConfirmReservation?)
    ensures ToldOnce(db, Apply(db, op, ttl), Published(db, op, ttl), e)
  {
    TakingPublishes(db, op, ttl);
    BookingsExact(db, op, ttl, |db.bookings|);
    TakingEndsNothing(db, op, ttl);
  }

  lemma TakingEndsNothing(db: Db, op: Op, ttl: Time)
    requires Exclusive(db) && Possible(db, op) && (op.OpCreateBooking? || op.OpConfirmReservation?)
    ensures
      var after := Apply(db, op, ttl);
      && |after.reservations| == |db.reservations|
      && (forall id, s, expired :: !EndedAs(db, after, id, s, expired))
      && (forall i | 0 <= i < |db.bookings| :: i < |after.bookings| && after.bookings[i] == db.bookings[i])
  {}

  predicate TellsGrant(e: Event) {
    e.SlotReserved? || e.WaitlistSlotReserved?
  }

  // The reservation of a promotion is told as it has been stored.
  lemma GrantTold(db: Db, after: Db, s: SlotId, rows: seq<SlotReservation>, now: Time, dbNow: Time, ttl: Time,
                  released: Event, events: seq<Event>, e: Event)
    requires s in db.slots && References(db) && |rows| == |db.reservations| && !TellsGrant(released)
    requires PromotedFrom(db, after, s, rows, now, dbNow, ttl) && HandsOnTold(db, s, now, ttl, released, events)
    requires TellsGrant(e)
    ensures ToldOnce(db, after, events, e)
  {}

  // Anything else is told exactly when nobody waits.
  lemma ReleaseTold(db: Db, after: Db, s: SlotId, now: Time, ttl: Time, released: Event, events: seq<Event>, e: Event)
    requires s in db.slots && HandsOnTold(db, s, now, ttl, released, events) && !TellsGrant(released)
    requires !TellsGrant(e) && (Warranted(db, after, e) <==> e == released && NextWaiting(db.waitlist, s).None?)
    ensures ToldOnce(db, after, events, e)
  {}

  lemma CancelTold(db: Db, op: Op, ttl: Time, e: Event)
    requires Exclusive(db) && References(db) && op.OpCancelBooking?
    ensures ToldOnce(db, Apply(db, op, ttl), Published(db, op, ttl), e)
  {
    var after, events := Apply(db, op, ttl), Published(db, op, ttl);
    CancelPublishes(db, op, ttl);
    CancelPromotes(db, op, ttl);
    if op.id < |db.bookings| && GivesUp(db, op, db.bookings[op.id].slotID) {
      var s := db.bookings[op.id].slotID;
      var released := SlotReleased(db.slots[s].roomID, s, op.id);
      if TellsGrant(e) {
        GrantTold(db, after, s, db.reservations, op.now, op.dbNow, ttl, released, events, e);
      } else {
        CancelWarrants(db, op, ttl, e);
        ReleaseTold(db, after, s, op.now, ttl, released, events, e);
      }
    } else {
      NothingWarranted(db, e);
    }
  }

  lemma CancelWarrants(db: Db, op: Op, ttl: Time, e: Event)
    requires Exclusive(db) && References(db) && op.OpCancelBooking? && !TellsGrant(e)
    requires op.id < |db.bookings| && GivesUp(db, op, db.bookings[op.id].slotID)
    ensures
      var s := db.bookings[op.id].slotID;
      Warranted(db, Apply(db, op, ttl), e) <==>
      e == SlotReleased(db.slots[s].roomID, s, op.id) && NextWaiting(db.waitlist, s).None?
  {
    CancelPromotes(db, op, ttl);
    BookingsExact(db, op, ttl, op.id);
    if e.SlotReleased? {
      BookingsExact(db, op, ttl, e.bookingID);
    }
  }

  lemma NothingWarranted(db: Db, e: Event)
    ensures !Warranted(db, db, e)
  {}

  lemma DeclineTold(db: Db, op: Op, ttl: Time, e: Event)
    requires Exclusive(db) && References(db) && op.OpCancelReservation?
    ensures ToldOnce(db, Apply(db, op, ttl), Published(db, op, ttl), e)
  {
    var after, events := Apply(db, op, ttl), Published(db, op, ttl);
    DeclinePublishes(db, op, ttl);
    DeclinePromotes(db, op, ttl);
    if op.id < |db.reservations| && GivesUp(db, op, db.reservations[op.id].slotID) {
      var r := db.reservations[op.id];
      var released := SlotAvailable(db.slots[r.slotID].roomID, r.slotID);
      if TellsGrant(e) {
        GrantTold(db, after, r.slotID, db.reservations[op.id := CancelledAs(r)], op.now, op.dbNow, ttl, released,
                  events, e);
      } else {
        DeclineWarrants(db, op, ttl, e);
        ReleaseTold(db, after, r.slotID, op.now, ttl, released, events, e);
      }
    } else {
      NothingWarranted(db, e);
    }
  }

  lemma DeclineWarrants(db: Db, op: Op, ttl: Time, e: Event)
    requires Exclusive(db) && References(db) && op.OpCancelReservation? && !TellsGrant(e)
    requires op.id < |db.reservations| && GivesUp(db, op, db.reservations[op.id].slotID)
    ensures
      var s := db.reservations[op.id].slotID;
      Warranted(db, Apply(db, op, ttl), e) <==>
      e == SlotAvailable(db.slots[s].roomID, s) && NextWaiting(db.waitlist, s).None?
  {
    DeclinePromotes(db, op, ttl);
    BookingsExact(db, op, ttl, 0);
    if e.SlotReleased? {
      BookingsExact(db, op, ttl, e.bookingID);
    }
    assert EndedAs(db, Apply(db, op, ttl), op.id, db.reservations[op.id].slotID, false);
  }

  lemma QuietTold(db: Db, op: Op, ttl: Time, e: Event)
    requires op.OpJoinWaitlist? || op.OpLeaveWaitlist? || op.OpAddSlots? || op.OpAbort?
    ensures ToldOnce(db, Apply(db, op, ttl), Published(db, op, ttl), e)
  {}

  lemma BatchGrantsTold(db: Db, batch: Batch, e: Event)
    requires Lists(batch, |db.reservations|) && TellsGrant(e)
    ensures SomeReplacementTold(db, batch.replacements, e) <==> Warranted(db, batch.db, e)
  {
    var n, id := |db.reservations|, e.reservationID;
    if n <= id < |batch.db.reservations| {
      assert Describes(batch.replacements[id - n], batch.db.reservations[n + (id - n)], n + (id - n));
    }
    if k :| 0 <= k < |batch.replacements| && ReplacementTold(db, batch.replacements[k], e) {
      assert Describes(batch.replacements[k], batch.db.reservations[n + k], n + k);
    }
  }

  lemma BatchEnds(db: Db, picked: seq<nat>, now: Time, dbNow: Time, ttl: Time, id: nat, s: SlotId, expired: bool)
    requires Exclusive(db) && AllDue(db.reservations, picked, now)
    ensures
      var batch := Dealt(db, picked, now, dbNow, ttl);
      && batch.Success?
      && (EndedAs(db, batch.value.db, id, s, expired) <==>
          id in picked && id < |db.reservations| && db.reservations[id].slotID == s)
  {
    BatchKeepsRest(Batch(db, []), picked, now, dbNow, ttl);
    if id < |db.reservations| {
      BatchReservation(Batch(db, []), picked, now, dbNow, ttl, id);
    }
  }

  lemma ExpiryTells(db: Db, picked: seq<nat>, now: Time, dbNow: Time, ttl: Time, e: Event)
    requires Exclusive(db) && References(db) && AllDue(db.reservations, picked, now)
    ensures ToldOnce(db, AfterExpiry(db, picked, now, dbNow, ttl), ExpireDue(db, picked, now, dbNow, ttl).events, e)
  {
    if TellsGrant(e) {
      BatchPublishes(db, picked, now, dbNow, ttl);
      var batch := Dealt(db, picked, now, dbNow, ttl).value;
      GrantsTold(db, picked, now, batch, ExpireDue(db, picked, now, dbNow, ttl).events, e);
    } else {
      ExpiryEventsExact(db, picked, now, dbNow, ttl, e);
      ExpiryWarrants(db, picked, now, dbNow, ttl, e);
    }
  }

  lemma GrantsTold(db: Db, picked: seq<nat>, now: Time, batch: Batch, events: seq<Event>, e: Event)
    requires Exclusive(db) && References(db) && AllDue(db.reservations, picked, now) && TellsGrant(e)
    requires Lists(batch, |db.reservations|)
    requires forall k | 0 <= k < |batch.replacements| :: batch.replacements[k].slotID in db.slots
    requires events == ExpiryNotices(db, picked, batch.replacements) + ReplacementNotices(db, batch.replacements)
    ensures ToldOnce(db, batch.db, events, e)
  {
    ExpiryNoticesCount(db, picked, now, batch.replacements, e);
    NumberedFrom(batch, |db.reservations|);
    ReplacementNoticesCount(db, batch.replacements, |db.reservations|, e);
    BatchGrantsTold(db, batch, e);
  }

  lemma ExpiryWarrants(db: Db, picked: seq<nat>, now: Time, dbNow: Time, ttl: Time, e: Event)
    requires Exclusive(db) && References(db) && AllDue(db.reservations, picked, now) && !TellsGrant(e)
    ensures Warranted(db, AfterExpiry(db, picked, now, dbNow, ttl), e) <==> ExpiryWarranted(db, picked, e)
  {
    BatchPublishes(db, picked, now, dbNow, ttl);
    BatchKeepsRest(Batch(db, []), picked, now, dbNow, ttl);
    var after := AfterExpiry(db, picked, now, dbNow, ttl);
    forall id: nat, s, expired ensures EndedAs(db, after, id, s, expired) <==> EndsIn(db, picked, id, s) {
      BatchEnds(db, picked, now, dbNow, ttl, id, s, expired);
    }
    EndsWarranted(db, after, picked, now, e);
  }

  ghost predicate ExpiryWarranted(db: Db, picked: seq<nat>, e: Event) {
    || (e.SlotAvailable? && exists k | 0 <= k < |picked| :: OfferedFor(db, picked[k], e))
    || (e.SlotReservationExpired? && e.reservationID in picked && e == RoomExpiry(db, e.reservationID))
    || (e.ReservationExpired? && e.reservationID in picked && e == ExpiredEvent(db, e.reservationID))
  }

  predicate EndsIn(db: Db, picked: seq<nat>, id: nat, s: SlotId) {
    id in picked && id < |db.reservations| && db.reservations[id].slotID == s
  }

  lemma EndsWarranted(db: Db, after: Db, picked: seq<nat>, now: Time, e: Event)
    requires References(db) && AllDue(db.reservations, picked, now) && !TellsGrant(e)
    requires after.bookings == db.bookings
    requires forall id: nat, s, expired :: EndedAs(db, after, id, s, expired) <==> EndsIn(db, picked, id, s)
    ensures Warranted(db, after, e) <==> ExpiryWarranted(db, picked, e)
  {
    if e.SlotAvailable? {
      OffersWarranted(db, after, picked, now, e);
    }
  }

  lemma OffersWarranted(db: Db, after: Db, picked: seq<nat>, now: Time, e: Event)
    requires References(db) && AllDue(db.reservations, picked, now) && e.SlotAvailable?
    requires forall id: nat, s :: EndedAs(db, after, id, s, false) <==> EndsIn(db, picked, id, s)
    ensures Warranted(db, after, e) <==> exists k | 0 <= k < |picked| :: OfferedFor(db, picked[k], e)
  {
    if Warranted(db, after, e) {
      var id: nat :| EndedAs(db, after, id, e.slotID, false);
      var k :| 0 <= k < |picked| && picked[k] == id;
      assert OfferedFor(db, picked[k], e);
    }
    if k :| 0 <= k < |picked| && OfferedFor(db, picked[k], e) {
      assert picked[k] in picked;
      assert EndedAs(db, after, picked[k], e.slotID, false);
    }
  }

  lemma ExpireTold(db: Db, op: Op, ttl: Time, e: Event)
    requires op.OpExpireDue? && Exclusive(db) && References(db) && Possible(db, op)
    ensures ToldOnce(db, Apply(db, op, ttl), Published(db, op, ttl), e)
  {
    ApplyExpiry(db, op, ttl);
    PublishedExpiry(db, op, ttl);
    ExpiryTells(db, op.picked, op.now, op.dbNow, ttl, e);
  }

  // For every operation and every event: it is published once if the tables before and after say so, and not at all
  // otherwise.
  lemma EventsExact(db: Db, op: Op, ttl: Time, e: Event)
    requires Exclusive(db) && References(db) && Possible(db, op)
    ensures multiset(Published(db, op, ttl))[e] == if Warranted(db, Apply(db, op, ttl), e) then 1 else 0
  {
    match op
    case OpCreateBooking(_, _, _) => TakingTold(db, op, ttl, e);
    case OpCancelBooking(_, _, _, _) => CancelTold(db, op, ttl, e);
    case OpConfirmReservation(_, _, _) => TakingTold(db, op, ttl, e);
    case OpCancelReservation(_, _, _, _) => DeclineTold(db, op, ttl, e);
    case OpExpireDue(_, _, _, _) => ExpireTold(db, op, ttl, e);
    case _ => QuietTold(db, op, ttl, e);
    assert ToldOnce(db, Apply(db, op, ttl), Published(db, op, ttl), e);
  }
}
