/** Cancelling, leaving, confirming and expiring come to an end; so does catching up on due reservations. */
module Cascade {
  import opened Wrappers
  import opened Domain
  import opened Tables
  import opened Protocol
  import opened Invariants
  import opened Counting
  import opened Expiry
  import opened Refinement

  function EntryWeight(e: WaitlistEntry): nat {
    if e.status.Active? then 4 else if e.status.Notified? then 1 else 0
  }

  function ReservationWeight(r: SlotReservation): nat {
    if r.status.Active? then 2 else 0
  }

  function BookingWeight(b: Booking): nat {
    if b.status.Active? then 1 else 0
  }

  function EntryWeights(rows: seq<WaitlistEntry>): seq<nat> {
    seq(|rows|, i requires 0 <= i < |rows| => EntryWeight(rows[i]))
  }

  function ReservationWeights(rows: seq<SlotReservation>): seq<nat> {
    seq(|rows|, i requires 0 <= i < |rows| => ReservationWeight(rows[i]))
  }

  function BookingWeights(rows: seq<Booking>): seq<nat> {
    seq(|rows|, i requires 0 <= i < |rows| => BookingWeight(rows[i]))
  }

  // 4 x waiting entries + notified entries + 2 x active reservations + active bookings
  function Measure(db: Db): nat {
    Sum(EntryWeights(db.waitlist)) + Sum(ReservationWeights(db.reservations)) + Sum(BookingWeights(db.bookings))
  }

  // ---- The measure after each kind of row change ----

  lemma EntryChanged(rows: seq<WaitlistEntry>, i: nat, e: WaitlistEntry)
    requires i < |rows|
    ensures Sum(EntryWeights(rows[i := e])) + EntryWeight(rows[i]) == Sum(EntryWeights(rows)) + EntryWeight(e)
  {
    SumUpdate(EntryWeights(rows), i, EntryWeight(e));
    assert EntryWeights(rows[i := e]) == EntryWeights(rows)[i := EntryWeight(e)];
  }

  lemma ReservationChanged(rows: seq<SlotReservation>, i: nat, r: SlotReservation)
    requires i < |rows|
    ensures Sum(ReservationWeights(rows[i := r])) + ReservationWeight(rows[i])
         == Sum(ReservationWeights(rows)) + ReservationWeight(r)
  {
    SumUpdate(ReservationWeights(rows), i, ReservationWeight(r));
    assert ReservationWeights(rows[i := r]) == ReservationWeights(rows)[i := ReservationWeight(r)];
  }

  lemma ReservationAdded(rows: seq<SlotReservation>, r: SlotReservation)
    ensures Sum(ReservationWeights(rows + [r])) == Sum(ReservationWeights(rows)) + ReservationWeight(r)
  {
    SumAppend(ReservationWeights(rows), ReservationWeight(r));
    assert ReservationWeights(rows + [r]) == ReservationWeights(rows) + [ReservationWeight(r)];
  }

  lemma BookingChanged(rows: seq<Booking>, i: nat, b: Booking)
    requires i < |rows|
    ensures Sum(BookingWeights(rows[i := b])) + BookingWeight(rows[i]) == Sum(BookingWeights(rows)) + BookingWeight(b)
  {
    SumUpdate(BookingWeights(rows), i, BookingWeight(b));
    assert BookingWeights(rows[i := b]) == BookingWeights(rows)[i := BookingWeight(b)];
  }

  lemma BookingAdded(rows: seq<Booking>, b: Booking)
    ensures Sum(BookingWeights(rows + [b])) == Sum(BookingWeights(rows)) + BookingWeight(b)
  {
    SumAppend(BookingWeights(rows), BookingWeight(b));
    assert BookingWeights(rows + [b]) == BookingWeights(rows) + [BookingWeight(b)];
  }

  // Handing a slot on pays for the new reservation with the claimed entry.
  lemma PromoteMeasure(db: Db, s: SlotId, now: Time, dbNow: Time, ttl: Time)
    requires Promote(db, s, now, dbNow, ttl).Success?
    ensures Measure(Promote(db, s, now, dbNow, ttl).value.db) <= Measure(db)
  {
    var next := NextWaiting(db.waitlist, s);
    if next.Some? {
      EntryChanged(db.waitlist, next.value, ClaimRow(db.waitlist, next.value, dbNow)[next.value]);
      ReservationAdded(db.reservations, NewReservation(s, db.waitlist[next.value].userID, next.value, now, ttl));
    }
  }

  lemma EndMeasure(db: Db, id: nat, ended: SlotReservation)
    requires id < |db.reservations| && db.reservations[id].status.Active? && !ended.status.Active?
    ensures Measure(EndReservation(db, id, ended)) + 2 == Measure(db)
  {
    ReservationChanged(db.reservations, id, ended);
  }

  // ---- Each operation ----

  lemma CancelBookingMeasure(db: Db, user: User, id: nat, now: Time, dbNow: Time, ttl: Time)
    ensures
      var after := CancelBooking(db, user, id, now, dbNow, ttl).db;
      after == db || Measure(after) < Measure(db)
  {
    if id < |db.bookings| && db.bookings[id].status.Active? {
      var freed := db.(bookings := CancelBookingRow(db.bookings, id));
      BookingChanged(db.bookings, id, freed.bookings[id]);
      if Promote(freed, db.bookings[id].slotID, now, dbNow, ttl).Success? {
        PromoteMeasure(freed, db.bookings[id].slotID, now, dbNow, ttl);
      }
    }
  }

  lemma CancelReservationMeasure(db: Db, user: User, id: nat, now: Time, dbNow: Time, ttl: Time)
    ensures
      var after := CancelReservation(db, user, id, now, dbNow, ttl).db;
      after == db || Measure(after) < Measure(db)
  {
    if id < |db.reservations| && db.reservations[id].status.Active? {
      var ended := CancelledReservation(db.reservations[id]);
      var freed := EndReservation(db, id, ended);
      EndMeasure(db, id, ended);
      if Promote(freed, db.reservations[id].slotID, now, dbNow, ttl).Success? {
        PromoteMeasure(freed, db.reservations[id].slotID, now, dbNow, ttl);
      }
    }
  }

  lemma ConfirmMeasure(db: Db, user: User, id: nat, now: Time)
    ensures
      var after := ConfirmReservation(db, user, id, now).db;
      after == db || Measure(after) < Measure(db)
  {
    if id < |db.reservations| && db.reservations[id].status.Active? {
      var r := db.reservations[id];
      ReservationChanged(db.reservations, id, ConfirmedReservation(r, now));
      BookingAdded(db.bookings, Booking(user.id, r.slotID, BookingStatus.Active, now));
    }
  }

  lemma LeaveMeasure(db: Db, user: User, id: nat)
    ensures
      var after := LeaveWaitlist(db, user, id).db;
      after == db || Measure(after) < Measure(db)
  {
    if id < |db.waitlist| {
      EntryChanged(db.waitlist, id, LeaveRow(db.waitlist, id)[id]);
    }
  }

  lemma {:induction false} ExpireEachMeasure(batch: Batch, picked: seq<nat>, now: Time, dbNow: Time, ttl: Time)
    requires Exclusive(batch.db) && AllDue(batch.db.reservations, picked, now)
    ensures
      var out := ExpireEach(batch, picked, now, dbNow, ttl);
      out.Success? && Measure(out.value.db) + 2 * |picked| <= Measure(batch.db)
    decreases |picked|
  {
    if picked != [] {
      var r := batch.db.reservations[picked[0]];
      FirstOfBatch(batch, picked, now, dbNow, ttl);
      var next := FirstExpired(batch, picked, now, dbNow, ttl).value;
      EndMeasure(batch.db, picked[0], ExpiredReservation(r, now));
      PromoteMeasure(ExpireRow(batch.db, picked[0], now), r.slotID, now, dbNow, ttl);
      RestStaysDue(batch.db.reservations, next.db.reservations, picked, now);
      ExpireEachMeasure(next, picked[1..], now, dbNow, ttl);
    }
  }

  lemma ExpireDueMeasure(db: Db, picked: seq<nat>, now: Time, dbNow: Time, ttl: Time)
    requires Exclusive(db) && AllDue(db.reservations, picked, now)
    ensures
      var after := AfterExpiry(db, picked, now, dbNow, ttl);
      after == db || Measure(after) < Measure(db)
  {
    BatchIsSequence(Batch(db, []), picked, now, dbNow, ttl);
    ExpireEachMeasure(Batch(db, []), picked, now, dbNow, ttl);
  }

  // Operations that take a slot or join a queue, store slots, or are rolled back; all others wind things down.
  predicate WindsDown(op: Op) {
    !op.OpCreateBooking? && !op.OpJoinWaitlist? && !op.OpAddSlots? && !op.OpAbort?
  }

  // The tables after an operation are the same, or of smaller measure.
  ghost predicate Lessened(db: Db, op: Op, ttl: Time)
    requires Possible(db, op)
  {
    Apply(db, op, ttl) == db || Measure(Apply(db, op, ttl)) < Measure(db)
  }

  lemma CancelWindsDown(db: Db, op: Op, ttl: Time)
    requires op.OpCancelBooking?
    ensures Lessened(db, op, ttl)
  {
    CancelBookingMeasure(db, op.user, op.id, op.now, op.dbNow, ttl);
  }

  lemma DeclineWindsDown(db: Db, op: Op, ttl: Time)
    requires op.OpCancelReservation?
    ensures Lessened(db, op, ttl)
  {
    CancelReservationMeasure(db, op.user, op.id, op.now, op.dbNow, ttl);
  }

  lemma LeaveWindsDown(db: Db, op: Op, ttl: Time)
    requires op.OpLeaveWaitlist?
    ensures Lessened(db, op, ttl)
  {
    LeaveMeasure(db, op.user, op.id);
  }

  lemma ConfirmWindsDown(db: Db, op: Op, ttl: Time)
    requires op.OpConfirmReservation?
    ensures Lessened(db, op, ttl)
  {
    ConfirmMeasure(db, op.user, op.id, op.now);
  }

  lemma ExpireWindsDown(db: Db, op: Op, ttl: Time)
    requires Exclusive(db) && op.OpExpireDue? && Possible(db, op)
    ensures Lessened(db, op, ttl)
  {
    ApplyExpiry(db, op, ttl);
    ExpireDueMeasure(db, op.picked, op.now, op.dbNow, ttl);
  }

  lemma OperationWindsDown(db: Db, op: Op, ttl: Time)
    requires Exclusive(db) && Possible(db, op) && WindsDown(op)
    ensures Apply(db, op, ttl) == db || Measure(Apply(db, op, ttl)) < Measure(db)
  {
    match op
    case OpCancelBooking(_, _, _, _) => CancelWindsDown(db, op, ttl);
    case OpLeaveWaitlist(_, _) => LeaveWindsDown(db, op, ttl);
    case OpConfirmReservation(_, _, _) => ConfirmWindsDown(db, op, ttl);
    case OpCancelReservation(_, _, _, _) => DeclineWindsDown(db, op, ttl);
    case OpExpireDue(_, _, _, _) => ExpireWindsDown(db, op, ttl);
  }

  lemma StepWindsDown(run: seq<Db>, ops: seq<Op>, ttl: Time, k: nat)
    requires IsRun(run, ops, ttl) && Inv(run[0]) && k < |ops| && WindsDown(ops[k]) && run[k + 1] != run[k]
    ensures Measure(run[k + 1]) < Measure(run[k])
  {
    RunKeepsInv(run, ops, ttl, k);
    OperationWindsDown(run[k], ops[k], ttl);
  }

  // However cancellations, expiries, confirmations and departures follow each other, no more of them can change
  // anything than the measure they started from.
  lemma {:induction false} CascadeIsBounded(run: seq<Db>, ops: seq<Op>, ttl: Time, k: nat)
    requires IsRun(run, ops, ttl) && Inv(run[0]) && k <= |ops|
    requires forall i | 0 <= i < |ops| :: WindsDown(ops[i]) && run[i + 1] != run[i]
    ensures k + Measure(run[k]) <= Measure(run[0])
  {
    if k > 0 {
      CascadeIsBounded(run, ops, ttl, k - 1);
      StepWindsDown(run, ops, ttl, k - 1);
    }
  }

  // What an operation that takes a slot or joins a queue adds to the measure.
  function Charge(db: Db, after: Db): nat {
    (if |after.bookings| > |db.bookings| then 1 else 0) + (if |after.waitlist| > |db.waitlist| then 4 else 0)
  }

  // How many of the first k operations wound something down, and how much the others have added.
  ghost function WindSteps(run: seq<Db>, ops: seq<Op>, k: nat): nat
    requires k <= |ops| && |run| == |ops| + 1
  {
    if k == 0 then 0
    else WindSteps(run, ops, k - 1) + if WindsDown(ops[k - 1]) && run[k] != run[k - 1] then 1 else 0
  }

  ghost function Charges(run: seq<Db>, ops: seq<Op>, k: nat): nat
    requires k <= |ops| && |run| == |ops| + 1
  {
    if k == 0 then 0
    else Charges(run, ops, k - 1) + if WindsDown(ops[k - 1]) then 0 else Charge(run[k - 1], run[k])
  }

  lemma CreateCharges(db: Db, op: Op, ttl: Time)
    requires op.OpCreateBooking?
    ensures Measure(Apply(db, op, ttl)) == Measure(db) + Charge(db, Apply(db, op, ttl))
  {
    BookingAdded(db.bookings, Booking(op.user.id, op.slotID, BookingStatus.Active, op.now));
  }

  lemma JoinCharges(db: Db, op: Op, ttl: Time)
    requires op.OpJoinWaitlist?
    ensures Measure(Apply(db, op, ttl)) == Measure(db) + Charge(db, Apply(db, op, ttl))
  {
    var e := WaitlistEntry(op.slotID, op.user.id, WaitlistStatus.Active, db.nextPosition, op.createdAt, None);
    EntryAdded(db.waitlist, e);
  }

  lemma EntryAdded(rows: seq<WaitlistEntry>, e: WaitlistEntry)
    ensures Sum(EntryWeights(rows + [e])) == Sum(EntryWeights(rows)) + EntryWeight(e)
  {
    SumAppend(EntryWeights(rows), EntryWeight(e));
    assert EntryWeights(rows + [e]) == EntryWeights(rows) + [EntryWeight(e)];
  }

  lemma OtherCharges(db: Db, op: Op, ttl: Time)
    requires op.OpAddSlots? || op.OpAbort?
    ensures Measure(Apply(db, op, ttl)) == Measure(db) && Charge(db, Apply(db, op, ttl)) == 0
  {}

  lemma StepCharges(db: Db, op: Op, ttl: Time)
    requires Possible(db, op) && !WindsDown(op)
    ensures Measure(Apply(db, op, ttl)) == Measure(db) + Charge(db, Apply(db, op, ttl))
  {
    match op
    case OpCreateBooking(_, _, _) => CreateCharges(db, op, ttl);
    case OpJoinWaitlist(_, _, _, _) => JoinCharges(db, op, ttl);
    case OpAddSlots(_) => OtherCharges(db, op, ttl);
    case OpAbort(_) => OtherCharges(db, op, ttl);
  }

  // Over any run, cancellations, expiries, confirmations and departures change something no more often than the
  // measure at the start, plus one for each new booking and four for each new waitlist entry.
  lemma {:induction false} RunIsBounded(run: seq<Db>, ops: seq<Op>, ttl: Time, k: nat)
    requires IsRun(run, ops, ttl) && Inv(run[0]) && k <= |ops|
    ensures WindSteps(run, ops, k) + Measure(run[k]) <= Measure(run[0]) + Charges(run, ops, k)
  {
    if k > 0 {
      RunIsBounded(run, ops, ttl, k - 1);
      if !WindsDown(ops[k - 1]) {
        StepCharges(run[k - 1], ops[k - 1], ttl);
      } else if run[k] != run[k - 1] {
        StepWindsDown(run, ops, ttl, k - 1);
      }
    }
  }

  // ---- Catching up ----

  function DueMark(r: SlotReservation, now: Time): nat {
    if Due(r, now) then 1 else 0
  }

  function DueMarks(rows: seq<SlotReservation>, now: Time): seq<nat> {
    seq(|rows|, i requires 0 <= i < |rows| => DueMark(rows[i], now))
  }

  // How many reservations are due.
  function DueCount(db: Db, now: Time): nat {
    Sum(DueMarks(db.reservations, now))
  }

  // Dealing with one due row makes one row less due: its replacement has all of its time to live ahead.
  lemma FirstDueCount(batch: Batch, picked: seq<nat>, now: Time, dbNow: Time, ttl: Time)
    requires Exclusive(batch.db) && AllDue(batch.db.reservations, picked, now) && picked != [] && ttl > 0
    ensures
      var first := FirstExpired(batch, picked, now, dbNow, ttl);
      first.Success? && DueCount(first.value.db, now) + 1 == DueCount(batch.db, now)
  {
    var rows, id := batch.db.reservations, picked[0];
    FirstOfBatch(batch, picked, now, dbNow, ttl);
    var marked := EndReservationRow(rows, id, ExpiredReservation(rows[id], now));
    SumUpdate(DueMarks(rows, now), id, 0);
    assert DueMarks(marked, now) == DueMarks(rows, now)[id := 0];
    var after := FirstExpired(batch, picked, now, dbNow, ttl).value.db.reservations;
    if |after| > |rows| {
      SumAppend(DueMarks(marked, now), 0);
      assert DueMarks(after, now) == DueMarks(marked, now) + [0];
    }
  }

  lemma {:induction false} ExpireEachDueCount(batch: Batch, picked: seq<nat>, now: Time, dbNow: Time, ttl: Time)
    requires Exclusive(batch.db) && AllDue(batch.db.reservations, picked, now) && ttl > 0
    ensures
      var out := ExpireEach(batch, picked, now, dbNow, ttl);
      out.Success? && DueCount(out.value.db, now) + |picked| == DueCount(batch.db, now)
    decreases |picked|
  {
    if picked != [] {
      FirstOfBatch(batch, picked, now, dbNow, ttl);
      FirstDueCount(batch, picked, now, dbNow, ttl);
      var next := FirstExpired(batch, picked, now, dbNow, ttl).value;
      RestStaysDue(batch.db.reservations, next.db.reservations, picked, now);
      ExpireEachDueCount(next, picked[1..], now, dbNow, ttl);
    }
  }

  // A batch that is not full has left nothing due.
  lemma {:induction false} ExpireEachLeaves(batch: Batch, picked: seq<nat>, now: Time, dbNow: Time, ttl: Time)
    requires Exclusive(batch.db) && AllDue(batch.db.reservations, picked, now) && ttl > 0
    requires forall i | 0 <= i < |batch.db.reservations| && Due(batch.db.reservations[i], now) :: i in picked
    ensures
      var out := ExpireEach(batch, picked, now, dbNow, ttl);
      out.Success? && DueCount(out.value.db, now) == 0
    decreases |picked|
  {
    var rows := batch.db.reservations;
    if picked == [] {
      SumZeroTail(DueMarks(rows, now), 0);
    } else {
      FirstOfBatch(batch, picked, now, dbNow, ttl);
      FirstDue(rows, picked, now);
      var next := FirstExpired(batch, picked, now, dbNow, ttl).value;
      RestStaysDue(rows, next.db.reservations, picked, now);
      ExpireEachLeaves(next, picked[1..], now, dbNow, ttl);
    }
  }

  // One call of ExpireDue deals with limit due reservations, or with all of them when there are fewer.
  lemma ExpireDueCatchesUp(db: Db, picked: seq<nat>, now: Time, dbNow: Time, limit: nat, ttl: Time)
    requires Exclusive(db) && ExpiryAnswer(db.reservations, now, limit, picked) && ttl > 0
    ensures
      var left := DueCount(AfterExpiry(db, picked, now, dbNow, ttl), now);
      left == if DueCount(db, now) <= limit then 0 else DueCount(db, now) - limit
  {
    BatchIsSequence(Batch(db, []), picked, now, dbNow, ttl);
    ExpireEachDueCount(Batch(db, []), picked, now, dbNow, ttl);
    if |picked| < limit {
      assert forall i | 0 <= i < |db.reservations| && Due(db.reservations[i], now) ::
          !LeftOut(db.reservations, now, picked, i);
      ExpireEachLeaves(Batch(db, []), picked, now, dbNow, ttl);
    }
  }

  // Calls at one instant with one limit: when together they are allowed n rows and n rows are due, none stays due.
  lemma {:induction false} CallsCatchUp(run: seq<Db>, ops: seq<Op>, ttl: Time, now: Time, limit: nat, k: nat)
    requires IsRun(run, ops, ttl) && Inv(run[0]) && ttl > 0 && k <= |ops|
    requires forall i | 0 <= i < |ops| :: ops[i].OpExpireDue? && ops[i].now == now && ops[i].limit == limit
    ensures DueCount(run[k], now) == Left(DueCount(run[0], now), k, limit)
  {
    if k > 0 {
      CallsCatchUp(run, ops, ttl, now, limit, k - 1);
      CallCatchesUp(run, ops, ttl, k - 1);
      LessOnceMore(DueCount(run[0], now), k, limit);
    }
  }

  // What is left of n after k times limit.
  function Left(n: nat, k: nat, limit: nat): nat {
    if n <= k * limit then 0 else n - k * limit
  }

  lemma LessOnceMore(n: nat, k: nat, limit: nat)
    requires k > 0
    ensures Left(n, k, limit) == Left(Left(n, k - 1, limit), 1, limit)
  {
    assert k * limit == (k - 1) * limit + limit;
  }

  lemma CallCatchesUp(run: seq<Db>, ops: seq<Op>, ttl: Time, k: nat)
    requires IsRun(run, ops, ttl) && Inv(run[0]) && ttl > 0 && k < |ops| && ops[k].OpExpireDue?
    ensures
      var due, limit := DueCount(run[k], ops[k].now), ops[k].limit;
      DueCount(run[k + 1], ops[k].now) == if due <= limit then 0 else due - limit
  {
    RunKeepsInv(run, ops, ttl, k);
    BatchCatchesUp(run[k], ops[k], ttl);
  }

  lemma BatchCatchesUp(db: Db, op: Op, ttl: Time)
    requires Exclusive(db) && op.OpExpireDue? && Possible(db, op) && ttl > 0
    ensures
      var due := DueCount(db, op.now);
      DueCount(Apply(db, op, ttl), op.now) == if due <= op.limit then 0 else due - op.limit
  {
    ApplyExpiry(db, op, ttl);
    ExpireDueCatchesUp(db, op.picked, op.now, op.dbNow, op.limit, ttl);
  }
}
