/** In which order a batch publishes what it has done. */
module EventOrder {
  import opened Wrappers
  import opened Domain
  import opened Tables
  import opened Protocol
  import opened Invariants
  import opened Expiry
  import opened Notices
  import opened EventLog

  // The rows whose expiry is told to their holders, in order.
  function ExpiriesIn(events: seq<Event>): seq<nat> {
    if events == [] then []
    else (if events[0].ReservationExpired? then [events[0].reservationID] else []) + ExpiriesIn(events[1..])
  }

  // The new reservations told to the room, in order.
  function GrantsIn(events: seq<Event>): seq<nat> {
    if events == [] then []
    else (if events[0].SlotReserved? then [events[0].reservationID] else []) + GrantsIn(events[1..])
  }

  // The holder is told first, then the room, then the room of the free slot; the room hears of a reservation before
  // its user.
  predicate InStep(events: seq<Event>) {
    && (forall i | 0 <= i < |events| && events[i].ReservationExpired? ::
          i + 1 < |events| && events[i + 1].SlotReservationExpired?
          && events[i + 1].reservationID == events[i].reservationID)
    && (forall i | 0 <= i < |events| && events[i].SlotAvailable? ::
          0 < i && events[i - 1].SlotReservationExpired? && events[i - 1].slotID == events[i].slotID)
    && (forall i | 0 <= i < |events| && events[i].SlotReserved? ::
          i + 1 < |events| && events[i + 1].WaitlistSlotReserved?
          && events[i + 1].reservationID == events[i].reservationID)
  }

  lemma InStepAppend(p: seq<Event>, q: seq<Event>)
    requires InStep(p) && InStep(q)
    ensures InStep(p + q)
  {
    forall i | 0 <= i < |p + q| ensures (p + q)[i] == if i < |p| then p[i] else q[i - |p|] {}
  }

  lemma {:induction false} ExpiriesInAppend(p: seq<Event>, q: seq<Event>)
    ensures ExpiriesIn(p + q) == ExpiriesIn(p) + ExpiriesIn(q)
  {
    if p == [] {
      assert p + q == q;
    } else {
      ExpiriesInAppend(p[1..], q);
      assert (p + q)[1..] == p[1..] + q;
      Regroup(if p[0].ReservationExpired? then [p[0].reservationID] else [], ExpiriesIn(p[1..]), ExpiriesIn(q));
    }
  }

  lemma {:induction false} GrantsInAppend(p: seq<Event>, q: seq<Event>)
    ensures GrantsIn(p + q) == GrantsIn(p) + GrantsIn(q)
  {
    if p == [] {
      assert p + q == q;
    } else {
      GrantsInAppend(p[1..], q);
      assert (p + q)[1..] == p[1..] + q;
      Regroup(if p[0].SlotReserved? then [p[0].reservationID] else [], GrantsIn(p[1..]), GrantsIn(q));
    }
  }

  lemma Regroup(a: seq<nat>, b: seq<nat>, c: seq<nat>)
    ensures (a + b) + c == a + (b + c)
  {}

  lemma Appended(p: seq<Event>, q: seq<Event>)
    requires InStep(p) && InStep(q)
    ensures InStep(p + q)
    ensures ExpiriesIn(p + q) == ExpiriesIn(p) + ExpiriesIn(q) && GrantsIn(p + q) == GrantsIn(p) + GrantsIn(q)
  {
    InStepAppend(p, q);
    ExpiriesInAppend(p, q);
    GrantsInAppend(p, q);
  }

  lemma OneEvent(e: Event)
    ensures ExpiriesIn([e]) == (if e.ReservationExpired? then [e.reservationID] else [])
    ensures GrantsIn([e]) == (if e.SlotReserved? then [e.reservationID] else [])
  {
    assert [e][1..] == [];
  }

  lemma TwoEvents(a: Event, b: Event)
    ensures ExpiriesIn([a] + [b]) == ExpiriesIn([a]) + ExpiriesIn([b])
    ensures GrantsIn([a] + [b]) == GrantsIn([a]) + GrantsIn([b])
  {
    ExpiriesInAppend([a], [b]);
    GrantsInAppend([a], [b]);
  }

  lemma HolderThenRoom(mine: Event, expired: Event)
    requires mine.ReservationExpired? && expired.SlotReservationExpired? && mine.reservationID == expired.reservationID
    ensures InStep([mine] + [expired])
    ensures ExpiriesIn([mine] + [expired]) == [mine.reservationID] && GrantsIn([mine] + [expired]) == []
  {
    OneEvent(mine);
    OneEvent(expired);
    TwoEvents(mine, expired);
  }

  lemma ThenOffered(mine: Event, expired: Event, free: Event)
    requires mine.ReservationExpired? && expired.SlotReservationExpired? && mine.reservationID == expired.reservationID
    requires free.SlotAvailable? && free.slotID == expired.slotID
    ensures
      var notice := [mine] + [expired] + [free];
      InStep(notice) && ExpiriesIn(notice) == [mine.reservationID] && GrantsIn(notice) == []
  {
    HolderThenRoom(mine, expired);
    OneEvent(free);
    ExpiriesInAppend([mine] + [expired], [free]);
    GrantsInAppend([mine] + [expired], [free]);
  }

  lemma ExpiryNoticeOrder(db: Db, id: nat, replaced: bool)
    requires References(db) && id < |db.reservations|
    ensures InStep(ExpiryNotice(db, id, replaced))
    ensures ExpiriesIn(ExpiryNotice(db, id, replaced)) == [id] && GrantsIn(ExpiryNotice(db, id, replaced)) == []
  {
    var r := db.reservations[id];
    var room := db.slots[r.slotID].roomID;
    var mine := ReservationExpired(Some(room), r.slotID, r.userID, id);
    var expired, free := SlotReservationExpired(room, r.slotID, id), SlotAvailable(room, r.slotID);
    if replaced {
      HolderThenRoom(mine, expired);
      assert ExpiryNotice(db, id, replaced) == [mine] + [expired];
    } else {
      ThenOffered(mine, expired, free);
      assert ExpiryNotice(db, id, replaced) == [mine] + [expired] + [free];
    }
  }

  lemma {:induction false} ExpiryOrder(db: Db, picked: seq<nat>, replacements: seq<Replacement>)
    requires References(db) && forall k | 0 <= k < |picked| :: picked[k] < |db.reservations|
    ensures InStep(ExpiryNotices(db, picked, replacements))
    ensures ExpiriesIn(ExpiryNotices(db, picked, replacements)) == picked
    ensures GrantsIn(ExpiryNotices(db, picked, replacements)) == []
  {
    if picked != [] {
      var replaced := Replaced(replacements, db.reservations[picked[0]].slotID);
      var first, rest := ExpiryNotice(db, picked[0], replaced), ExpiryNotices(db, picked[1..], replacements);
      ExpiryNoticeOrder(db, picked[0], replaced);
      ExpiryOrder(db, picked[1..], replacements);
      Appended(first, rest);
      assert picked == [picked[0]] + picked[1..];
    }
  }

  lemma ReplacementNoticeOrder(db: Db, r: Replacement)
    requires r.slotID in db.slots
    ensures InStep(ReplacementNotice(db, r))
    ensures ExpiriesIn(ReplacementNotice(db, r)) == [] && GrantsIn(ReplacementNotice(db, r)) == [r.reservationID]
  {
    var notice := ReplacementNotice(db, r);
    assert notice == [notice[0]] + [notice[1]];
    OneEvent(notice[0]);
    OneEvent(notice[1]);
    TwoEvents(notice[0], notice[1]);
  }

  // The count numbers from n on.
  function From(n: nat, count: nat): seq<nat> {
    seq(count, k requires 0 <= k < count => n + k)
  }

  lemma FromFirst(n: nat, count: nat)
    requires count > 0
    ensures From(n, count) == [n] + From(n + 1, count - 1)
  {}

  lemma {:induction false} ReplacementOrder(db: Db, replacements: seq<Replacement>, n: nat)
    requires Numbered(replacements, n)
    requires forall k | 0 <= k < |replacements| :: replacements[k].slotID in db.slots
    ensures InStep(ReplacementNotices(db, replacements))
    ensures ExpiriesIn(ReplacementNotices(db, replacements)) == []
    ensures GrantsIn(ReplacementNotices(db, replacements)) == From(n, |replacements|)
  {
    if replacements != [] {
      var first, rest := ReplacementNotice(db, replacements[0]), ReplacementNotices(db, replacements[1..]);
      NumberedRest(replacements, n);
      ReplacementNoticeOrder(db, replacements[0]);
      ReplacementOrder(db, replacements[1..], n + 1);
      Appended(first, rest);
      FromFirst(n, |replacements|);
    }
  }

  lemma BatchInStep(db: Db, picked: seq<nat>, batch: Batch) returns (expiries: seq<Event>, grants: seq<Event>)
    requires References(db) && forall k | 0 <= k < |picked| :: picked[k] < |db.reservations|
    requires Lists(batch, |db.reservations|)
    requires forall k | 0 <= k < |batch.replacements| :: batch.replacements[k].slotID in db.slots
    ensures expiries == ExpiryNotices(db, picked, batch.replacements)
    ensures grants == ReplacementNotices(db, batch.replacements)
    ensures InStep(expiries + grants)
    ensures ExpiriesIn(expiries) == picked && GrantsIn(expiries) == []
    ensures ExpiriesIn(grants) == [] && GrantsIn(grants) == From(|db.reservations|, |batch.replacements|)
  {
    NumberedFrom(batch, |db.reservations|);
    expiries := ExpiryNotices(db, picked, batch.replacements);
    grants := ReplacementNotices(db, batch.replacements);
    ExpiryOrder(db, picked, batch.replacements);
    ReplacementOrder(db, batch.replacements, |db.reservations|);
    InStepAppend(expiries, grants);
  }

  // A batch tells of all its expired rows first, in the order of the query's answer, and of the new reservations
  // afterwards, in the order in which they were made.
  lemma BatchTellsInOrder(db: Db, op: Op, ttl: Time) returns (expiries: seq<Event>, grants: seq<Event>)
    requires op.OpExpireDue? && Exclusive(db) && References(db) && Possible(db, op)
    ensures Published(db, op, ttl) == expiries + grants && InStep(Published(db, op, ttl))
    ensures ExpiriesIn(expiries) == op.picked && GrantsIn(expiries) == []
    ensures ExpiriesIn(grants) == [] && |db.reservations| <= |Apply(db, op, ttl).reservations|
    ensures GrantsIn(grants)
         == From(|db.reservations|, |Apply(db, op, ttl).reservations| - |db.reservations|)
  {
    ApplyExpiry(db, op, ttl);
    PublishedExpiry(db, op, ttl);
    BatchPublishes(db, op.picked, op.now, op.dbNow, ttl);
    expiries, grants := BatchInStep(db, op.picked, Dealt(db, op.picked, op.now, op.dbNow, ttl).value);
  }

  // ---- The reservations of a batch follow its rows ----

  lemma {:induction false} ReplacementsGrow(batch: Batch, slots: seq<SlotId>, now: Time, dbNow: Time, ttl: Time)
    requires PromoteAll(batch, slots, now, dbNow, ttl).Success?
    ensures
      var all := PromoteAll(batch, slots, now, dbNow, ttl).value.replacements;
      && batch.replacements <= all
      && forall i | |batch.replacements| <= i < |all| :: all[i].slotID in slots
    decreases |slots|
  {
    if slots != [] {
      ReplacementsGrow(PromoteOne(batch, slots[0], now, dbNow, ttl).value, slots[1..], now, dbNow, ttl);
    }
  }

  predicate Different(slots: seq<SlotId>) {
    forall k, l | 0 <= k < l < |slots| :: slots[k] != slots[l]
  }

  lemma {:induction false} ReplacementsInOrder(
    batch: Batch, slots: seq<SlotId>, now: Time, dbNow: Time, ttl: Time, i: nat, j: nat, k: nat, l: nat)
    requires PromoteAll(batch, slots, now, dbNow, ttl).Success? && Different(slots) && k < |slots| && l < |slots|
    requires
      var all := PromoteAll(batch, slots, now, dbNow, ttl).value.replacements;
      |batch.replacements| <= i < j < |all| && all[i].slotID == slots[k] && all[j].slotID == slots[l]
    ensures k < l
    decreases |slots|
  {
    var next, rest := PromoteOne(batch, slots[0], now, dbNow, ttl).value, slots[1..];
    ReplacementsGrow(next, rest, now, dbNow, ttl);
    assert slots[0] !in rest;
    if i >= |next.replacements| {
      assert slots[k] == rest[k - 1] && slots[l] == rest[l - 1];
      ReplacementsInOrder(next, rest, now, dbNow, ttl, i, j, k - 1, l - 1);
    } else {
      assert slots[k] == slots[0] && slots[l] in rest;
    }
  }

  lemma SlotsDiffer(rows: seq<SlotReservation>, picked: seq<nat>, now: Time)
    requires OneReservation(rows) && AllDue(rows, picked, now)
    ensures Different(SlotsOf(rows, picked))
  {
    forall k, l | 0 <= k < l < |picked| ensures rows[picked[k]].slotID != rows[picked[l]].slotID {
      assert Due(rows[picked[k]], now) && Due(rows[picked[l]], now);
      assert Reserves(rows[picked[k]], rows[picked[k]].slotID);
    }
  }

  // Of two reservations made by a batch, the one for the earlier row is made first.
  lemma GrantsFollowRows(db: Db, op: Op, ttl: Time, i: nat, j: nat, k: nat, l: nat)
    requires op.OpExpireDue? && Exclusive(db) && References(db) && Possible(db, op)
    requires k < |op.picked| && l < |op.picked|
    requires op.picked[k] < |db.reservations| && op.picked[l] < |db.reservations|
    requires |db.reservations| <= i < j < |Apply(db, op, ttl).reservations|
    requires Apply(db, op, ttl).reservations[i].slotID == db.reservations[op.picked[k]].slotID
    requires Apply(db, op, ttl).reservations[j].slotID == db.reservations[op.picked[l]].slotID
    ensures k < l
  {
    ApplyExpiry(db, op, ttl);
    BatchPublishes(db, op.picked, op.now, op.dbNow, ttl);
    BatchGrantsInOrder(db, op.picked, op.now, op.dbNow, ttl, Dealt(db, op.picked, op.now, op.dbNow, ttl).value,
                       i, j, k, l);
  }

  lemma BatchGrantsInOrder(db: Db, picked: seq<nat>, now: Time, dbNow: Time, ttl: Time, batch: Batch,
                           i: nat, j: nat, k: nat, l: nat)
    requires Exclusive(db) && AllDue(db.reservations, picked, now) && k < |picked| && l < |picked|
    requires Dealt(db, picked, now, dbNow, ttl) == Success(batch) && Lists(batch, |db.reservations|)
    requires |db.reservations| <= i < j < |batch.db.reservations|
    requires batch.db.reservations[i].slotID == db.reservations[picked[k]].slotID
    requires batch.db.reservations[j].slotID == db.reservations[picked[l]].slotID
    ensures k < l
  {
    var n := |db.reservations|;
    DescribedBy(batch, n, i);
    DescribedBy(batch, n, j);
    DealtInOrder(db, picked, now, dbNow, ttl, batch, i - n, j - n, k, l);
  }

  lemma DealtInOrder(db: Db, picked: seq<nat>, now: Time, dbNow: Time, ttl: Time, batch: Batch,
                     i: nat, j: nat, k: nat, l: nat)
    requires Exclusive(db) && AllDue(db.reservations, picked, now) && k < |picked| && l < |picked|
    requires Dealt(db, picked, now, dbNow, ttl) == Success(batch) && i < j < |batch.replacements|
    requires batch.replacements[i].slotID == db.reservations[picked[k]].slotID
    requires batch.replacements[j].slotID == db.reservations[picked[l]].slotID
    ensures k < l
  {
    BatchIsSequence(Batch(db, []), picked, now, dbNow, ttl);
    SlotsDiffer(db.reservations, picked, now);
    ReplacementsInOrder(Marked(Batch(db, []), picked, now), SlotsOf(db.reservations, picked), now, dbNow, ttl,
                        i, j, k, l);
  }

  lemma DescribedBy(batch: Batch, n: nat, id: nat)
    requires Lists(batch, n) && n <= id < |batch.db.reservations|
    ensures batch.replacements[id - n].slotID == batch.db.reservations[id].slotID
  {
    assert Describes(batch.replacements[id - n], batch.db.reservations[n + (id - n)], n + (id - n));
  }
}
