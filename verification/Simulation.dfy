/** The three tables refine one lock per slot. */
module Simulation {
  import opened Wrappers
  import opened Domain
  import opened Tables
  import opened Protocol
  import opened Invariants
  import opened SlotLock

  // ---- Abstraction ----

  // The users waiting for a slot, first come first.
  function Queue(rows: seq<WaitlistEntry>, s: SlotId): seq<UserId> {
    if rows == [] then []
    else
      var last := rows[|rows| - 1];
      Queue(rows[..|rows| - 1], s) + if Waits(last, s) then [last.userID] else []
  }

  function HolderOf(db: Db, s: SlotId): Holder {
    var b := FindActiveBooking(db.bookings, s);
    var r := FindActiveReservation(db.reservations, s);
    if b.Some? then BookedBy(db.bookings[b.value].userID)
    else if r.Some? then ReservedFor(db.reservations[r.value].userID, db.reservations[r.value].expiresAt)
    else Free
  }

  function LockOf(db: Db, s: SlotId): Lock {
    Lock(HolderOf(db, s), Queue(db.waitlist, s))
  }

  // ---- Queues ----

  lemma {:induction false} QueueAppend(p: seq<WaitlistEntry>, q: seq<WaitlistEntry>, s: SlotId)
    ensures Queue(p + q, s) == Queue(p, s) + Queue(q, s)
  {
    if q == [] {
      assert p + q == p;
    } else {
      QueueAppend(p, q[..|q| - 1], s);
      assert (p + q)[..|p + q| - 1] == p + q[..|q| - 1];
    }
  }

  lemma {:induction false} QueueMember(rows: seq<WaitlistEntry>, s: SlotId, u: UserId)
    ensures u in Queue(rows, s) <==> exists i | 0 <= i < |rows| :: Waits(rows[i], s) && rows[i].userID == u
  {
    if rows != [] {
      var init := rows[..|rows| - 1];
      QueueMember(init, s, u);
      if u in Queue(init, s) {
        var i :| 0 <= i < |init| && Waits(init[i], s) && init[i].userID == u;
        assert rows[i] == init[i];
      }
      forall i | 0 <= i < |rows| && Waits(rows[i], s) && rows[i].userID == u
        ensures u in Queue(rows, s)
      {
        assert i < |init| ==> init[i] == rows[i];
      }
    }
  }

  lemma QueueEmpty(rows: seq<WaitlistEntry>, s: SlotId)
    requires forall i | 0 <= i < |rows| :: !Waits(rows[i], s)
    ensures Queue(rows, s) == []
  {
    if Queue(rows, s) != [] {
      QueueMember(rows, s, Queue(rows, s)[0]);
    }
  }

  // How a queue splits around row e.
  lemma QueueSplit(rows: seq<WaitlistEntry>, e: nat, x: WaitlistEntry, s: SlotId)
    requires e < |rows|
    ensures Queue(rows[e := x], s)
         == Queue(rows[..e], s) + (if Waits(x, s) then [x.userID] else []) + Queue(rows[e + 1..], s)
  {
    assert rows[e := x] == rows[..e] + [x] + rows[e + 1..];
    QueueAppend(rows[..e] + [x], rows[e + 1..], s);
    QueueAppend(rows[..e], [x], s);
    assert [x][..0] == [];
    assert Queue([x], s) == if Waits(x, s) then [x.userID] else [];
  }

  // Claiming the waiter with the smallest position takes the head off the queue of its slot only.
  lemma ClaimTakesHead(rows: seq<WaitlistEntry>, next: nat, s: SlotId, dbNow: Time, t: SlotId)
    requires Positions(rows, next) && NextWaiting(rows, s).Some?
    ensures
      var e := NextWaiting(rows, s).value;
      var after := ClaimRow(rows, e, dbNow);
      && (t == s ==> Queue(rows, s) == [rows[e].userID] + Queue(after, s))
      && (t != s ==> Queue(after, t) == Queue(rows, t))
  {
    var e := NextWaiting(rows, s).value;
    QueueSplit(rows, e, rows[e], t);
    QueueSplit(rows, e, ClaimRow(rows, e, dbNow)[e], t);
    assert rows[e := rows[e]] == rows;
    assert forall i | 0 <= i < e :: !Waits(rows[..e][i], s);
    QueueEmpty(rows[..e], s);
  }

  lemma {:induction false} QueueDistinct(rows: seq<WaitlistEntry>, s: SlotId)
    requires OneEntry(rows)
    ensures forall i, j | 0 <= i < j < |Queue(rows, s)| :: Queue(rows, s)[i] != Queue(rows, s)[j]
  {
    if rows != [] {
      var n := |rows| - 1;
      var init := rows[..n];
      forall i, j | 0 <= i < |init| && 0 <= j < |init| && Pending(init[i], init[j].slotID, init[j].userID)
                    && Pending(init[j], init[j].slotID, init[j].userID)
        ensures i == j
      {
        assert init[i] == rows[i] && init[j] == rows[j];
      }
      QueueDistinct(init, s);
      QueueMember(init, s, rows[n].userID);
      forall i | 0 <= i < n && Waits(init[i], s) && Waits(rows[n], s)
        ensures init[i].userID != rows[n].userID
      {
        assert Pending(rows[i], s, rows[i].userID) && Pending(rows[n], s, rows[n].userID);
      }
    }
  }

  lemma DifferentAround(p: seq<UserId>, u: UserId, q: seq<UserId>)
    requires forall i, j | 0 <= i < j < |p + [u] + q| :: (p + [u] + q)[i] != (p + [u] + q)[j]
    ensures u !in p && u !in q
  {
    var whole := p + [u] + q;
    assert whole[|p|] == u;
    assert forall i | 0 <= i < |p| :: whole[i] == p[i];
    assert forall i | 0 <= i < |q| :: whole[|p| + 1 + i] == q[i];
  }

  lemma LeaverTakenOut(p: seq<UserId>, u: UserId, q: seq<UserId>, whole: seq<UserId>)
    requires whole == p + [u] + q
    requires forall i, j | 0 <= i < j < |whole| :: whole[i] != whole[j]
    ensures Without(whole, u) == p + q && u in whole
  {
    DifferentAround(p, u, q);
    WithoutOne(p, u, q);
    assert whole[|p|] == u;
  }

  // Leaving takes the leaver out of the queue and keeps the order of the others.
  lemma LeaveAbandons(rows: seq<WaitlistEntry>, id: nat, s: SlotId)
    requires OneEntry(rows) && id < |rows|
    ensures Queue(LeaveRow(rows, id), s)
         == if Waits(rows[id], s) then Without(Queue(rows, s), rows[id].userID) else Queue(rows, s)
    ensures Waits(rows[id], s) ==> rows[id].userID in Queue(rows, s)
  {
    QueueDistinct(rows, s);
    LeaverSplit(rows, id, s);
    var p, q := Queue(rows[..id], s), Queue(rows[id + 1..], s);
    if Waits(rows[id], s) {
      LeaverTakenOut(p, rows[id].userID, q, Queue(rows, s));
    }
  }

  lemma LeaverSplit(rows: seq<WaitlistEntry>, id: nat, s: SlotId)
    requires id < |rows|
    ensures
      var p, q := Queue(rows[..id], s), Queue(rows[id + 1..], s);
      && Queue(LeaveRow(rows, id), s) == p + q
      && Queue(rows, s) == if Waits(rows[id], s) then p + [rows[id].userID] + q else p + q
  {
    var p, q := Queue(rows[..id], s), Queue(rows[id + 1..], s);
    var x := LeaveRow(rows, id)[id];
    assert LeaveRow(rows, id) == rows[id := x];
    QueueWith(rows, id, x, s, p, q);
    assert rows == rows[id := rows[id]];
    QueueWith(rows, id, rows[id], s, p, q);
  }

  lemma QueueWith(rows: seq<WaitlistEntry>, e: nat, x: WaitlistEntry, s: SlotId, p: seq<UserId>, q: seq<UserId>)
    requires e < |rows| && p == Queue(rows[..e], s) && q == Queue(rows[e + 1..], s)
    ensures Queue(rows[e := x], s) == if Waits(x, s) then p + [x.userID] + q else p + q
  {
    QueueSplit(rows, e, x, s);
    assert p + [] + q == p + q;
  }

  // ---- Holders ----

  lemma BookedIs(db: Db, i: nat)
    requires OneBooking(db.bookings) && i < |db.bookings| && db.bookings[i].status.Active?
    ensures FindActiveBooking(db.bookings, db.bookings[i].slotID) == Some(i)
  {
    assert Books(db.bookings[i], db.bookings[i].slotID);
  }

  lemma ReservedIs(db: Db, i: nat)
    requires OneReservation(db.reservations) && NeverBoth(db.bookings, db.reservations)
    requires i < |db.reservations| && db.reservations[i].status.Active?
    ensures FindActiveReservation(db.reservations, db.reservations[i].slotID) == Some(i)
    ensures FindActiveBooking(db.bookings, db.reservations[i].slotID).None?
  {
    assert Reserves(db.reservations[i], db.reservations[i].slotID);
  }

  // The holder of a slot depends on the slot's own rows only.
  lemma HolderSame(db: Db, after: Db, s: SlotId)
    requires OneBooking(after.bookings) && OneReservation(after.reservations)
    requires |db.bookings| <= |after.bookings| && |db.reservations| <= |after.reservations|
    requires forall i | 0 <= i < |after.bookings| ::
      Books(after.bookings[i], s) <==> i < |db.bookings| && Books(db.bookings[i], s)
    requires forall i | 0 <= i < |after.reservations| ::
      Reserves(after.reservations[i], s) <==> i < |db.reservations| && Reserves(db.reservations[i], s)
    requires forall i | 0 <= i < |db.bookings| :: after.bookings[i].userID == db.bookings[i].userID
    requires forall i | 0 <= i < |db.reservations| ::
      after.reservations[i].userID == db.reservations[i].userID
      && after.reservations[i].expiresAt == db.reservations[i].expiresAt
    ensures HolderOf(after, s) == HolderOf(db, s)
  {
  }

  lemma LockIsSound(db: Db, s: SlotId)
    requires Inv(db)
    ensures Sound(LockOf(db, s))
  {
    var a := LockOf(db, s);
    QueueDistinct(db.waitlist, s);
    if a.holder.Free? && a.queue != [] {
      QueueMember(db.waitlist, s, a.queue[0]);
      assert false;
    }
    if !a.holder.Free? && a.holder.user in a.queue {
      QueueMember(db.waitlist, s, a.holder.user);
    }
  }

  // The slot that has been given up goes to the first in line; every other slot is untouched.
  lemma PromoteGrants(db: Db, s: SlotId, now: Time, dbNow: Time, ttl: Time, t: SlotId)
    requires Vacant(db, s)
    ensures Promote(db, s, now, dbNow, ttl).Success?
    ensures
      var after := Promote(db, s, now, dbNow, ttl).value.db;
      LockOf(after, t) == if t == s then Grant(Queue(db.waitlist, s), now + ttl) else LockOf(db, t)
  {
    PromoteExclusive(db, s, now, dbNow, ttl);
    var next := NextWaiting(db.waitlist, s);
    if next.None? {
      QueueEmpty(db.waitlist, s);
    } else {
      var after := Claim(db, s, next.value, now, dbNow, ttl);
      ClaimTakesHead(db.waitlist, db.nextPosition, s, dbNow, t);
      if t == s {
        ReservedIs(after, |db.reservations|);
      } else {
        HolderSame(db, after, t);
      }
    }
  }
}
