/** The expiry batch: one update of all picked rows followed by promotions, against expiring them one at a time. */
module Expiry {
  import opened Wrappers
  import opened Domain
  import opened Tables
  import opened Protocol
  import opened Invariants
  import opened SlotLock
  import opened Simulation

  // Row id expired, and nothing else.
  function ExpireRow(db: Db, id: nat, now: Time): Db
    requires id < |db.reservations|
  {
    db.(reservations := EndReservationRow(db.reservations, id, ExpiredReservation(db.reservations[id], now)))
  }

  // The rows of a batch: distinct, active and past their deadline.
  ghost predicate AllDue(rows: seq<SlotReservation>, picked: seq<nat>, now: Time) {
    && (forall k | 0 <= k < |picked| :: picked[k] < |rows| && Due(rows[picked[k]], now))
    && (forall j, k | 0 <= j < k < |picked| :: picked[j] != picked[k])
  }

  lemma AnswerIsDue(rows: seq<SlotReservation>, now: Time, limit: nat, picked: seq<nat>)
    requires ExpiryAnswer(rows, now, limit, picked)
    ensures AllDue(rows, picked, now)
  {}

  lemma ApplyExpiry(db: Db, op: Op, ttl: Time)
    requires op.OpExpireDue? && Possible(db, op)
    ensures AllDue(db.reservations, op.picked, op.now)
    ensures Apply(db, op, ttl) == AfterExpiry(db, op.picked, op.now, op.dbNow, ttl)
  {
    AnswerIsDue(db.reservations, op.now, op.limit, op.picked);
  }

  lemma FirstDue(rows: seq<SlotReservation>, picked: seq<nat>, now: Time)
    requires AllDue(rows, picked, now) && picked != []
    ensures picked == [picked[0]] + picked[1..] && picked[0] !in picked[1..]
    ensures picked[0] < |rows| && Due(rows[picked[0]], now)
    ensures AllDue(rows, picked[1..], now)
    ensures forall i :: i in picked <==> i == picked[0] || i in picked[1..]
  {
  }

  // The reference: expire one row, promote its slot, then go on with the next row.
  ghost function ExpireEach(batch: Batch, picked: seq<nat>, now: Time, dbNow: Time, ttl: Time): Result<Batch, ErrorCode>
    decreases |picked|
  {
    if picked == [] then Success(batch)
    else if picked[0] >= |batch.db.reservations| then Failure(InternalError)
    else
      var s := batch.db.reservations[picked[0]].slotID;
      var next :- PromoteOne(batch.(db := ExpireRow(batch.db, picked[0], now)), s, now, dbNow, ttl);
      ExpireEach(next, picked[1..], now, dbNow, ttl)
  }

  ghost function Marked(batch: Batch, picked: seq<nat>, now: Time): Batch {
    batch.(db := batch.db.(reservations := ExpireRows(batch.db.reservations, picked, now)))
  }

  lemma ExpireRowVacates(db: Db, id: nat, now: Time)
    requires Exclusive(db) && id < |db.reservations| && Due(db.reservations[id], now)
    ensures Vacant(ExpireRow(db, id, now), db.reservations[id].slotID)
  {
    EndVacates(db, id, ExpiredReservation(db.reservations[id], now));
  }

  // The tables, and the replacements so far, after the first row of a batch has been dealt with on its own.
  ghost function FirstExpired(batch: Batch, picked: seq<nat>, now: Time, dbNow: Time, ttl: Time)
    : Result<Batch, ErrorCode>
    requires picked != [] && picked[0] < |batch.db.reservations|
  {
    PromoteOne(batch.(db := ExpireRow(batch.db, picked[0], now)), batch.db.reservations[picked[0]].slotID,
               now, dbNow, ttl)
  }

  // One iteration keeps exclusion and touches no row still to be expired.
  lemma FirstOfBatch(batch: Batch, picked: seq<nat>, now: Time, dbNow: Time, ttl: Time)
    requires Exclusive(batch.db) && AllDue(batch.db.reservations, picked, now) && picked != []
    ensures
      var first := FirstExpired(batch, picked, now, dbNow, ttl);
      && first.Success? && Exclusive(first.value.db)
      && |batch.db.reservations| <= |first.value.db.reservations|
      && (forall i | 0 <= i < |batch.db.reservations| && i != picked[0] ::
            first.value.db.reservations[i] == batch.db.reservations[i])
  {
    ExpireRowVacates(batch.db, picked[0], now);
    PromoteExclusive(ExpireRow(batch.db, picked[0], now), batch.db.reservations[picked[0]].slotID, now, dbNow, ttl);
  }

  lemma FirstKeepsInv(batch: Batch, picked: seq<nat>, now: Time, dbNow: Time, ttl: Time)
    requires Inv(batch.db) && AllDue(batch.db.reservations, picked, now) && picked != []
    ensures
      var first := FirstExpired(batch, picked, now, dbNow, ttl);
      first.Success? && Inv(first.value.db)
  {
    var r := batch.db.reservations[picked[0]];
    EndFrees(batch.db, picked[0], ExpiredReservation(r, now));
    PromoteKeepsInv(ExpireRow(batch.db, picked[0], now), r.slotID, now, dbNow, ttl);
  }

  lemma MarkFirst(rows: seq<SlotReservation>, picked: seq<nat>, now: Time)
    requires AllDue(rows, picked, now) && picked != []
    ensures ExpireRows(rows, picked, now)
         == ExpireRows(EndReservationRow(rows, picked[0], ExpiredReservation(rows[picked[0]], now)), picked[1..], now)
  {
    FirstDue(rows, picked, now);
  }

  // A promotion does not see whether rows of other slots have been marked yet.
  lemma PromoteIgnoresMarks(
    single: Batch, rest: seq<nat>, s: SlotId, now: Time, dbNow: Time, ttl: Time)
    requires FindActiveReservation(single.db.reservations, s).None?
    requires forall i | i in rest :: i < |single.db.reservations|
    ensures
      var alone := PromoteOne(single, s, now, dbNow, ttl);
      alone.Success? && PromoteOne(Marked(single, rest, now), s, now, dbNow, ttl)
                     == Success(Marked(alone.value, rest, now))
  {
    var rows := single.db.reservations;
    assert FindActiveReservation(ExpireRows(rows, rest, now), s).None? by {
      assert forall i | 0 <= i < |rows| :: !Reserves(rows[i], s);
    }
    if NextWaiting(single.db.waitlist, s).Some? {
      var e := NextWaiting(single.db.waitlist, s).value;
      var r := NewReservation(s, single.db.waitlist[e].userID, e, now, ttl);
      assert ExpireRows(rows + [r], rest, now) == ExpireRows(rows, rest, now) + [r];
    }
  }

  lemma RestStaysDue(rows: seq<SlotReservation>, after: seq<SlotReservation>, picked: seq<nat>, now: Time)
    requires AllDue(rows, picked, now) && picked != [] && |rows| <= |after|
    requires forall i | 0 <= i < |rows| && i != picked[0] :: after[i] == rows[i]
    ensures AllDue(after, picked[1..], now)
    ensures forall i | i in picked[1..] :: i < |rows| && after[i] == rows[i]
  {
    FirstDue(rows, picked, now);
  }

  lemma SlotsOfRest(rows: seq<SlotReservation>, after: seq<SlotReservation>, picked: seq<nat>, now: Time)
    requires AllDue(rows, picked, now) && picked != [] && AllDue(after, picked[1..], now)
    requires forall i | i in picked[1..] :: i < |rows| && after[i] == rows[i]
    ensures SlotsOf(rows, picked)[1..] == SlotsOf(after, picked[1..])
  {
    forall k | 0 <= k < |picked| - 1
      ensures SlotsOf(rows, picked)[1..][k] == SlotsOf(after, picked[1..])[k]
    {
      assert picked[1..][k] == picked[k + 1] && picked[k + 1] in picked[1..];
    }
  }

  lemma FirstOfMarked(batch: Batch, picked: seq<nat>, now: Time, dbNow: Time, ttl: Time)
    requires Exclusive(batch.db) && AllDue(batch.db.reservations, picked, now) && picked != []
    ensures
      var first := FirstExpired(batch, picked, now, dbNow, ttl);
      first.Success? &&
      PromoteOne(Marked(batch, picked, now), batch.db.reservations[picked[0]].slotID, now, dbNow, ttl)
        == Success(Marked(first.value, picked[1..], now))
  {
    var single := batch.(db := ExpireRow(batch.db, picked[0], now));
    FirstDue(batch.db.reservations, picked, now);
    MarkFirst(batch.db.reservations, picked, now);
    ExpireRowVacates(batch.db, picked[0], now);
    PromoteIgnoresMarks(single, picked[1..], batch.db.reservations[picked[0]].slotID, now, dbNow, ttl);
  }

  // Expiring the whole batch at once and promoting afterwards is expiring its rows one at a time.
  lemma {:induction false} BatchIsSequence(batch: Batch, picked: seq<nat>, now: Time, dbNow: Time, ttl: Time)
    requires Exclusive(batch.db) && AllDue(batch.db.reservations, picked, now)
    ensures PromoteAll(Marked(batch, picked, now), SlotsOf(batch.db.reservations, picked), now, dbNow, ttl)
         == ExpireEach(batch, picked, now, dbNow, ttl)
    decreases |picked|
  {
    var rows := batch.db.reservations;
    if picked == [] {
      assert Marked(batch, picked, now).db.reservations == rows;
    } else {
      FirstOfBatch(batch, picked, now, dbNow, ttl);
      FirstOfMarked(batch, picked, now, dbNow, ttl);
      var next := FirstExpired(batch, picked, now, dbNow, ttl).value;
      RestStaysDue(rows, next.db.reservations, picked, now);
      SlotsOfRest(rows, next.db.reservations, picked, now);
      BatchIsSequence(next, picked[1..], now, dbNow, ttl);
    }
  }

  ghost predicate PickedFor(rows: seq<SlotReservation>, picked: seq<nat>, s: SlotId) {
    exists k | 0 <= k < |picked| :: picked[k] < |rows| && Reserves(rows[picked[k]], s)
  }

  // The rest of a batch concerns other slots than its first row.
  lemma PickedOnce(rows: seq<SlotReservation>, after: seq<SlotReservation>, picked: seq<nat>, now: Time, t: SlotId)
    requires OneReservation(rows) && AllDue(rows, picked, now) && picked != [] && |rows| <= |after|
    requires forall i | i in picked[1..] :: i < |rows| && after[i] == rows[i]
    ensures picked[0] < |rows|
    ensures PickedFor(rows, picked, t) <==> t == rows[picked[0]].slotID || PickedFor(after, picked[1..], t)
    ensures !PickedFor(after, picked[1..], rows[picked[0]].slotID)
  {
    FirstDue(rows, picked, now);
    assert Reserves(rows[picked[0]], rows[picked[0]].slotID);
    assert forall i | i in picked[1..] :: i in picked;
  }

  lemma PickedApart(rows: seq<SlotReservation>, picked: seq<nat>, now: Time, k: nat)
    requires OneReservation(rows) && AllDue(rows, picked, now) && 0 < k < |picked|
    ensures rows[picked[k]].slotID != rows[picked[0]].slotID
  {
    assert Due(rows[picked[0]], now) && Due(rows[picked[k]], now);
    assert Reserves(rows[picked[0]], rows[picked[0]].slotID);
  }

  // One iteration releases the lock of one slot.
  lemma FirstReleases(batch: Batch, picked: seq<nat>, now: Time, dbNow: Time, ttl: Time, t: SlotId)
    requires Exclusive(batch.db) && AllDue(batch.db.reservations, picked, now) && picked != []
    ensures
      var s := batch.db.reservations[picked[0]].slotID;
      var first := FirstExpired(batch, picked, now, dbNow, ttl);
      && first.Success?
      && LockOf(first.value.db, t)
         == if t == s then Grant(Queue(batch.db.waitlist, s), now + ttl) else LockOf(batch.db, t)
  {
    var freed := ExpireRow(batch.db, picked[0], now);
    ExpireRowVacates(batch.db, picked[0], now);
    PromoteGrants(freed, batch.db.reservations[picked[0]].slotID, now, dbNow, ttl, t);
    if t != batch.db.reservations[picked[0]].slotID {
      HolderSame(batch.db, freed, t);
    }
  }

  // The batch never fails and releases exactly the locks of the picked rows.
  lemma {:induction false} ExpireEachReleases(
    batch: Batch, picked: seq<nat>, now: Time, dbNow: Time, ttl: Time, t: SlotId)
    requires Exclusive(batch.db) && AllDue(batch.db.reservations, picked, now)
    ensures
      var out := ExpireEach(batch, picked, now, dbNow, ttl);
      && out.Success?
      && LockOf(out.value.db, t) == if PickedFor(batch.db.reservations, picked, t)
                                    then Grant(Queue(batch.db.waitlist, t), now + ttl)
                                    else LockOf(batch.db, t)
    decreases |picked|
  {
    if picked != [] {
      FirstOfBatch(batch, picked, now, dbNow, ttl);
      FirstReleases(batch, picked, now, dbNow, ttl, t);
      var next := FirstExpired(batch, picked, now, dbNow, ttl).value;
      RestStaysDue(batch.db.reservations, next.db.reservations, picked, now);
      PickedOnce(batch.db.reservations, next.db.reservations, picked, now, t);
      ExpireEachReleases(next, picked[1..], now, dbNow, ttl, t);
    }
  }

  lemma {:induction false} ExpireEachKeepsInv(batch: Batch, picked: seq<nat>, now: Time, dbNow: Time, ttl: Time)
    requires Inv(batch.db) && AllDue(batch.db.reservations, picked, now)
    ensures
      var out := ExpireEach(batch, picked, now, dbNow, ttl);
      out.Success? && Inv(out.value.db)
    decreases |picked|
  {
    if picked != [] {
      FirstOfBatch(batch, picked, now, dbNow, ttl);
      FirstKeepsInv(batch, picked, now, dbNow, ttl);
      var next := FirstExpired(batch, picked, now, dbNow, ttl).value;
      RestStaysDue(batch.db.reservations, next.db.reservations, picked, now);
      ExpireEachKeepsInv(next, picked[1..], now, dbNow, ttl);
    }
  }

  // The operation leaves the tables as AfterExpiry says.
  lemma ExpireDueLeaves(db: Db, picked: seq<nat>, now: Time, dbNow: Time, ttl: Time)
    requires AllDue(db.reservations, picked, now)
    ensures ExpireDue(db, picked, now, dbNow, ttl).db == AfterExpiry(db, picked, now, dbNow, ttl)
  {}

  // ExpireDue itself, for any answer of the expiry query: it succeeds and keeps the invariant,
  lemma ExpireDueKeepsInv(db: Db, picked: seq<nat>, now: Time, dbNow: Time, ttl: Time)
    requires Inv(db) && AllDue(db.reservations, picked, now)
    ensures ExpireDue(db, picked, now, dbNow, ttl).result.Success? && Inv(AfterExpiry(db, picked, now, dbNow, ttl))
  {
    BatchIsSequence(Batch(db, []), picked, now, dbNow, ttl);
    ExpireEachKeepsInv(Batch(db, []), picked, now, dbNow, ttl);
  }

  // and releases the locks of the picked rows, whatever their order, and no other.
  lemma ExpireDueReleases(db: Db, picked: seq<nat>, now: Time, dbNow: Time, ttl: Time, t: SlotId)
    requires Exclusive(db) && AllDue(db.reservations, picked, now)
    ensures LockOf(AfterExpiry(db, picked, now, dbNow, ttl), t)
         == if PickedFor(db.reservations, picked, t) then Grant(Queue(db.waitlist, t), now + ttl) else LockOf(db, t)
  {
    BatchIsSequence(Batch(db, []), picked, now, dbNow, ttl);
    ExpireEachReleases(Batch(db, []), picked, now, dbNow, ttl, t);
  }

  // The order in which the database returns the rows makes no difference to any slot.
  lemma OrderDoesNotMatter(db: Db, p: seq<nat>, q: seq<nat>, now: Time, dbNow: Time, ttl: Time, t: SlotId)
    requires Exclusive(db) && AllDue(db.reservations, p, now) && AllDue(db.reservations, q, now)
    requires forall i :: i in p <==> i in q
    ensures LockOf(AfterExpiry(db, p, now, dbNow, ttl), t) == LockOf(AfterExpiry(db, q, now, dbNow, ttl), t)
  {
    ExpireDueReleases(db, p, now, dbNow, ttl, t);
    ExpireDueReleases(db, q, now, dbNow, ttl, t);
    if PickedFor(db.reservations, p, t) {
      PickedAlike(db.reservations, p, q, t);
    }
    if PickedFor(db.reservations, q, t) {
      PickedAlike(db.reservations, q, p, t);
    }
  }

  lemma PickedAlike(rows: seq<SlotReservation>, p: seq<nat>, q: seq<nat>, s: SlotId)
    requires forall i | i in p :: i in q
    requires PickedFor(rows, p, s)
    ensures PickedFor(rows, q, s)
  {
    var k :| 0 <= k < |p| && p[k] < |rows| && Reserves(rows[p[k]], s);
    assert p[k] in q;
    var j :| 0 <= j < |q| && q[j] == p[k];
  }
}
