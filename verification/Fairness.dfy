/** First come, first served, over whole runs. */
module Fairness {
  import opened Wrappers
  import opened Domain
  import opened Tables
  import opened Protocol
  import opened Invariants
  import opened Expiry
  import opened Counting
  import opened Evolution
  import opened Refinement

  // ---- Counting the entries of e's slot that were queued before e ----

  // Those that still wait.
  ghost function AheadMarks(rows: seq<WaitlistEntry>, e: nat): seq<nat>
    requires e < |rows|
  {
    seq(e, i requires 0 <= i < e => if Waits(rows[i], rows[e].slotID) then 1 else 0)
  }

  // Those that gave up before their turn.
  ghost function LeftMarks(rows: seq<WaitlistEntry>, e: nat): seq<nat>
    requires e < |rows|
  {
    seq(e, i requires 0 <= i < e =>
      if rows[i].slotID == rows[e].slotID && !rows[i].status.Active? && rows[i].notifiedAt.None? then 1 else 0)
  }

  // All of them.
  ghost function BeforeMarks(rows: seq<WaitlistEntry>, e: nat): seq<nat>
    requires e < |rows|
  {
    seq(e, i requires 0 <= i < e => if rows[i].slotID == rows[e].slotID then 1 else 0)
  }

  // Every entry ever claimed for slot s.
  ghost function ClaimMarks(rows: seq<WaitlistEntry>, s: SlotId): seq<nat> {
    seq(|rows|, i requires 0 <= i < |rows| => if rows[i].slotID == s && rows[i].notifiedAt.Some? then 1 else 0)
  }

  ghost function Ahead(db: Db, e: nat): nat
    requires e < |db.waitlist|
  {
    Sum(AheadMarks(db.waitlist, e))
  }

  ghost function LeftAhead(db: Db, e: nat): nat
    requires e < |db.waitlist|
  {
    Sum(LeftMarks(db.waitlist, e))
  }

  ghost function Claims(db: Db, s: SlotId): nat {
    Sum(ClaimMarks(db.waitlist, s))
  }

  // While e waits, everyone queued before it waits, has been claimed, or has left; and nobody else has been claimed.
  lemma Conservation(db: Db, e: nat)
    requires Inv(db) && e < |db.waitlist| && db.waitlist[e].status.Active?
    ensures Ahead(db, e) + Claims(db, db.waitlist[e].slotID) + LeftAhead(db, e) == Sum(BeforeMarks(db.waitlist, e))
  {
    var rows, s := db.waitlist, db.waitlist[e].slotID;
    var claims := ClaimMarks(rows, s);
    forall i | e <= i < |rows| ensures claims[i] == 0 {
      assert rows[i].position >= rows[e].position;
    }
    SumZeroTail(claims, e);
    SumPointwise(AheadMarks(rows, e), claims[..e], LeftMarks(rows, e), BeforeMarks(rows, e));
  }

  // Those queued before an entry that still waits are the same later on.
  lemma SameBefore(db: Db, later: Db, e: nat)
    requires Evolves(db, later) && e < |db.waitlist| && later.waitlist[e].status.Active?
    ensures db.waitlist[e] == later.waitlist[e]
    ensures BeforeMarks(db.waitlist, e) == BeforeMarks(later.waitlist, e)
  {
    assert EntryEvolves(db.waitlist[e], later.waitlist[e]);
    forall k | 0 <= k < e ensures db.waitlist[k].slotID == later.waitlist[k].slotID {
      assert EntryEvolves(db.waitlist[k], later.waitlist[k]);
    }
  }

  // No overtaking: between two states in which e waits, the entries ahead of e have become fewer by exactly the
  // claims made for its slot and the entries ahead that left - whatever else happened.
  lemma QueueAdvances(run: seq<Db>, ops: seq<Op>, ttl: Time, i: nat, j: nat, e: nat)
    requires IsRun(run, ops, ttl) && Initial(run[0]) && i <= j <= |ops| && e < |run[i].waitlist|
    requires e < |run[j].waitlist| && run[j].waitlist[e].status.Active?
    ensures run[i].waitlist[e] == run[j].waitlist[e]
    ensures
      var s := run[i].waitlist[e].slotID;
      Ahead(run[i], e) - Ahead(run[j], e)
      == (Claims(run[j], s) - Claims(run[i], s)) + (LeftAhead(run[j], e) - LeftAhead(run[i], e))
  {
    ReachableInv(run, ops, ttl, i);
    ReachableInv(run, ops, ttl, j);
    RunEvolves(run, ops, ttl, i, j);
    SameBefore(run[i], run[j], e);
    Conservation(run[i], e);
    Conservation(run[j], e);
  }

  lemma {:induction false} SumIsZero(ws: seq<nat>)
    ensures Sum(ws) == 0 <==> forall i | 0 <= i < |ws| :: ws[i] == 0
  {
    if ws != [] {
      var n := |ws| - 1;
      SumIsZero(ws[..n]);
      assert forall i | 0 <= i < n :: ws[..n][i] == ws[i];
    }
  }

  // The next entry to be claimed is the waiting one with nobody ahead of it.
  lemma NextHasNobodyAhead(db: Db, e: nat)
    requires Inv(db) && e < |db.waitlist| && db.waitlist[e].status.Active?
    ensures NextWaiting(db.waitlist, db.waitlist[e].slotID) == Some(e) <==> Ahead(db, e) == 0
  {
    var rows, s := db.waitlist, db.waitlist[e].slotID;
    var marks, next := AheadMarks(rows, e), NextWaiting(rows, s);
    SumIsZero(marks);
    assert Waits(rows[e], s);
    if next == Some(e) {
      forall k | 0 <= k < e ensures marks[k] == 0 {
        assert rows[k].position < rows[e].position;
      }
    } else {
      assert next.value < e;
      assert marks[next.value] == 1;
    }
  }

  // A waiting entry that had k waiters ahead of it is the next to be claimed if and only if, since then, as many
  // entries have been claimed for its slot or have left ahead of it.
  lemma ClaimedInTurn(run: seq<Db>, ops: seq<Op>, ttl: Time, i: nat, j: nat, e: nat)
    requires IsRun(run, ops, ttl) && Initial(run[0]) && i <= j <= |ops| && e < |run[i].waitlist|
    requires e < |run[j].waitlist| && run[j].waitlist[e].status.Active?
    ensures
      var s := run[i].waitlist[e].slotID;
      NextWaiting(run[j].waitlist, s) == Some(e) <==>
      Ahead(run[i], e) == (Claims(run[j], s) - Claims(run[i], s)) + (LeftAhead(run[j], e) - LeftAhead(run[i], e))
  {
    QueueAdvances(run, ops, ttl, i, j, e);
    ReachableInv(run, ops, ttl, j);
    NextHasNobodyAhead(run[j], e);
  }

  // ---- Claims over a run ----

  // Entry e is claimed between two waitlists.
  predicate ClaimedBetween(rows: seq<WaitlistEntry>, after: seq<WaitlistEntry>, e: nat) {
    && e < |rows| && e < |after|
    && rows[e].notifiedAt.None? && after[e].notifiedAt.Some? && rows[e].slotID == after[e].slotID
  }

  lemma PromoteClaims(db: Db, s: SlotId, now: Time, dbNow: Time, ttl: Time, e: nat)
    requires Promote(db, s, now, dbNow, ttl).Success?
    ensures
      var after := Promote(db, s, now, dbNow, ttl).value.db.waitlist;
      && |after| == |db.waitlist|
      && (e < |after| && after[e] != db.waitlist[e] ==>
            NextWaiting(db.waitlist, s) == Some(e) && db.waitlist[e].slotID == s && after[e].slotID == s)
  {}

  // A batch claims for the slots of its rows only, one entry for each.
  lemma {:induction false} ExpireEachClaims(
    batch: Batch, picked: seq<nat>, now: Time, dbNow: Time, ttl: Time, e: nat, f: nat)
    requires Exclusive(batch.db) && AllDue(batch.db.reservations, picked, now)
    requires e < |batch.db.waitlist| && f < |batch.db.waitlist|
    requires batch.db.waitlist[e].slotID == batch.db.waitlist[f].slotID
    ensures
      var rows, out := batch.db.waitlist, ExpireEach(batch, picked, now, dbNow, ttl);
      && out.Success? && |out.value.db.waitlist| == |rows|
      && out.value.db.waitlist[e].slotID == rows[e].slotID
      && (out.value.db.waitlist[e] != rows[e] ==> PickedFor(batch.db.reservations, picked, rows[e].slotID))
      && (out.value.db.waitlist[e] != rows[e] && out.value.db.waitlist[f] != rows[f] ==> e == f)
    decreases |picked|
  {
    if picked != [] {
      var s := batch.db.reservations[picked[0]].slotID;
      FirstOfBatch(batch, picked, now, dbNow, ttl);
      PromoteClaims(ExpireRow(batch.db, picked[0], now), s, now, dbNow, ttl, e);
      PromoteClaims(ExpireRow(batch.db, picked[0], now), s, now, dbNow, ttl, f);
      var next := FirstExpired(batch, picked, now, dbNow, ttl).value;
      RestStaysDue(batch.db.reservations, next.db.reservations, picked, now);
      PickedOnce(batch.db.reservations, next.db.reservations, picked, now, s);
      PickedOnce(batch.db.reservations, next.db.reservations, picked, now, batch.db.waitlist[e].slotID);
      ExpireEachClaims(next, picked[1..], now, dbNow, ttl, e, f);
      ExpireEachClaims(next, picked[1..], now, dbNow, ttl, f, e);
    }
  }

  // One operation claims at most one entry of a slot.
  lemma OneClaimPerSlot(db: Db, op: Op, ttl: Time, e: nat, f: nat)
    requires Exclusive(db) && Possible(db, op)
    requires ClaimedBetween(db.waitlist, Apply(db, op, ttl).waitlist, e)
    requires ClaimedBetween(db.waitlist, Apply(db, op, ttl).waitlist, f)
    requires db.waitlist[e].slotID == db.waitlist[f].slotID
    ensures e == f
  {
    if op.OpExpireDue? {
      OneClaimPerBatch(db, op, ttl, e, f);
    } else {
      OneClaimAtMost(db, op, ttl, e);
      OneClaimAtMost(db, op, ttl, f);
    }
  }

  lemma OneClaimPerBatch(db: Db, op: Op, ttl: Time, e: nat, f: nat)
    requires op.OpExpireDue? && Exclusive(db) && Possible(db, op)
    requires ClaimedBetween(db.waitlist, Apply(db, op, ttl).waitlist, e)
    requires ClaimedBetween(db.waitlist, Apply(db, op, ttl).waitlist, f)
    requires db.waitlist[e].slotID == db.waitlist[f].slotID
    ensures e == f
  {
    ApplyExpiry(db, op, ttl);
    BatchIsSequence(Batch(db, []), op.picked, op.now, op.dbNow, ttl);
    ExpireEachClaims(Batch(db, []), op.picked, op.now, op.dbNow, ttl, e, f);
  }

  // Outside a batch, a claimed entry is the next one of its slot.
  lemma OneClaimAtMost(db: Db, op: Op, ttl: Time, e: nat)
    requires !op.OpExpireDue? && Possible(db, op)
    requires ClaimedBetween(db.waitlist, Apply(db, op, ttl).waitlist, e)
    ensures NextWaiting(db.waitlist, db.waitlist[e].slotID) == Some(e)
  {
    match op
    case OpCancelBooking(_, _, _, _) =>
    case OpCancelReservation(_, _, _, _) =>
    case _ =>
  }

  // Along a run the positions claimed for a slot are strictly increasing.
  lemma ClaimsInOrder(run: seq<Db>, ops: seq<Op>, ttl: Time, i: nat, j: nat, e: nat, f: nat)
    requires IsRun(run, ops, ttl) && Initial(run[0]) && i <= j < |ops|
    requires ClaimedBetween(run[i].waitlist, run[i + 1].waitlist, e)
    requires ClaimedBetween(run[j].waitlist, run[j + 1].waitlist, f)
    requires run[i].waitlist[e].slotID == run[j].waitlist[f].slotID
    ensures if i == j then e == f else run[i].waitlist[e].position < run[j].waitlist[f].position
  {
    ReachableInv(run, ops, ttl, j);
    if i == j {
      OneClaimPerSlot(run[i], ops[i], ttl, e, f);
    } else {
      ReachableInv(run, ops, ttl, i + 1);
      OperationEvolves(run[i], ops[i], ttl);
      RunEvolves(run, ops, ttl, i + 1, j);
      OperationEvolves(run[j], ops[j], ttl);
      StampStays(run[i].waitlist[e], run[i + 1].waitlist[e], run[j].waitlist[e]);
      assert EntryEvolves(run[j].waitlist[f], run[j + 1].waitlist[f]);
      InOrderNow(run[j], e, f);
    }
  }

  lemma StampStays(e: WaitlistEntry, claimed: WaitlistEntry, later: WaitlistEntry)
    requires EntryEvolves(e, claimed) && EntryEvolves(claimed, later)
    requires claimed.notifiedAt.Some? && (claimed.status.Active? ==> claimed.notifiedAt.None?)
    ensures later.notifiedAt.Some? && later.slotID == e.slotID && later.position == e.position
  {}

  lemma InOrderNow(db: Db, e: nat, f: nat)
    requires NoOvertaking(db.waitlist) && e < |db.waitlist| && f < |db.waitlist|
    requires db.waitlist[e].notifiedAt.Some? && db.waitlist[f].status.Active?
    requires db.waitlist[e].slotID == db.waitlist[f].slotID
    ensures db.waitlist[e].position < db.waitlist[f].position
  {}

  // Nobody books a slot past its waiters.
  lemma NoBargingIn(db: Db, user: User, s: SlotId, now: Time, e: nat)
    requires Inv(db) && e < |db.waitlist| && Waits(db.waitlist[e], s)
    ensures CreateBooking(db, user, s, now).result.Failure? && CreateBooking(db, user, s, now).db == db
  {
    assert WaitersHeld(db, None);
    assert Held(db, db.waitlist[e].slotID);
  }
}
