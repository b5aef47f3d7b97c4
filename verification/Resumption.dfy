/** Resuming from the last stored slot: what is in the slots table after any history of generation runs. */
module Resumption {
  import opened Wrappers
  import opened Domain
  import opened Calendar
  import opened SlotGrid
  import opened SlotStorage

  function RowsOf(room: RoomId, starts: seq<Time>): (rows: seq<Slot>)
    ensures |rows| == |starts|
  {
    seq(|starts|, k requires 0 <= k < |starts| => Slot(room, starts[k], starts[k] + SLOT_DURATION))
  }

  // The starts a run at now has to store for a room.
  function RoomEmission(stored: seq<Slot>, room: RoomId, rules: seq<Schedule>, now: Time, target: Time): seq<Time> {
    Emission(rules, ComputeLowerBound(now, Latest(stored, room)), target)
  }

  // The table after a room's run of which the first done rows went in.
  function RoomRun(stored: seq<Slot>, room: RoomId, rules: seq<Schedule>, now: Time, target: Time, done: nat): seq<Slot>
    requires done <= |RoomEmission(stored, room, rules, now, target)|
  {
    InsertRows(stored, RowsOf(room, RoomEmission(stored, room, rules, now, target)[..done]))
  }

  lemma RowsOfPrefix(room: RoomId, starts: seq<Time>, n: nat)
    requires n <= |starts|
    ensures RowsOf(room, starts)[..n] == RowsOf(room, starts[..n])
  {}

  // ---- What the table holds ----

  // The schedule of each room that has one. A schedule is never changed once created.
  type Plan = map<RoomId, seq<Schedule>>

  ghost predicate Planned(plan: Plan) {
    forall room | room in plan :: Timetable(plan[room])
  }

  predicate Has(stored: seq<Slot>, room: RoomId, t: Time) {
    Slot(room, t, t + SLOT_DURATION) in stored
  }

  predicate RowOnPlan(row: Slot, plan: Plan) {
    row.roomID in plan && row.end == row.start + SLOT_DURATION && OnGrid(plan[row.roomID], row.start)
  }

  predicate OnPlan(rows: seq<Slot>, plan: Plan) {
    forall i | 0 <= i < |rows| :: RowOnPlan(rows[i], plan)
  }

  predicate UpTo(last: Option<Time>, t: Time) {
    last.Some? && t <= last.value
  }

  // From clock up to the room's last slot, every grid slot is stored: resuming after the last one skips none.
  ghost predicate NoGaps(stored: seq<Slot>, room: RoomId, rules: seq<Schedule>, clock: Time) {
    forall t | OnGrid(rules, t) && clock <= t && UpTo(Latest(stored, room), t) :: Has(stored, room, t)
  }

  ghost predicate Sound(stored: seq<Slot>, plan: Plan, clock: Time) {
    Planned(plan) && OnPlan(stored, plan) && forall room | room in plan :: NoGaps(stored, room, plan[room], clock)
  }

  // The stored slots of the room that start in [now, target) are the grid's.
  ghost predicate Filled(stored: seq<Slot>, room: RoomId, rules: seq<Schedule>, now: Time, target: Time) {
    forall t | now <= t < target :: Has(stored, room, t) <==> OnGrid(rules, t)
  }

  lemma OnPlanHas(stored: seq<Slot>, plan: Plan, room: RoomId, t: Time)
    requires OnPlan(stored, plan) && Has(stored, room, t)
    ensures room in plan && OnGrid(plan[room], t)
  {
    var i :| 0 <= i < |stored| && stored[i] == Slot(room, t, t + SLOT_DURATION);
    assert RowOnPlan(stored[i], plan);
  }

  // Slots of the plan meet only when they are the same row.
  lemma MeetsOnlyItself(plan: Plan, a: Slot, b: Slot)
    requires Planned(plan) && RowOnPlan(a, plan) && RowOnPlan(b, plan)
    requires SameKey(a, b) || Overlap(a, b)
    ensures a == b
  {
    if a.start < b.start {
      GridSpaced(plan[a.roomID], a.start, b.start);
    } else if b.start < a.start {
      GridSpaced(plan[a.roomID], b.start, a.start);
    }
  }

  lemma {:induction false} InsertMembers(stored: seq<Slot>, rows: seq<Slot>, plan: Plan)
    requires Planned(plan) && OnPlan(stored, plan) && OnPlan(rows, plan)
    ensures OnPlan(InsertRows(stored, rows), plan)
    ensures forall x :: x in InsertRows(stored, rows) <==> x in stored || x in rows
  {
    if rows != [] {
      var front, row := rows[..|rows| - 1], rows[|rows| - 1];
      InsertMembers(stored, front, plan);
      var there := InsertRows(stored, front);
      assert rows == front + [row];
      if Taken(there, row) {
        var i :| 0 <= i < |there| && SameKey(there[i], row);
        MeetsOnlyItself(plan, there[i], row);
        assert row in there;
      }
    }
  }

  lemma EmissionOnPlan(stored: seq<Slot>, plan: Plan, room: RoomId, now: Time, target: Time, done: nat)
    requires Planned(plan) && room in plan && done <= |RoomEmission(stored, room, plan[room], now, target)|
    ensures OnPlan(RowsOf(room, RoomEmission(stored, room, plan[room], now, target)[..done]), plan)
  {
    var starts := RoomEmission(stored, room, plan[room], now, target);
    forall i | 0 <= i < done ensures OnGrid(plan[room], starts[i]) {
      assert starts[i] in starts;
      EmissionExact(plan[room], ComputeLowerBound(now, Latest(stored, room)), target, starts[i]);
    }
  }

  // ---- One room's run ----

  // The overlap constraint never refuses a generated row.
  lemma NeverRefused(stored: seq<Slot>, plan: Plan, room: RoomId, now: Time, target: Time)
    requires Planned(plan) && OnPlan(stored, plan) && room in plan
    ensures !Refused(stored, RowsOf(room, RoomEmission(stored, room, plan[room], now, target)))
  {
    var starts := RoomEmission(stored, room, plan[room], now, target);
    var rows := RowsOf(room, starts);
    assert starts[..|starts|] == starts;
    EmissionOnPlan(stored, plan, room, now, target, |starts|);
    forall k | 0 <= k < |rows| ensures !RefusedAt(stored, rows, k) {
      var there := InsertRows(stored, rows[..k]);
      assert OnPlan(rows[..k], plan);
      InsertMembers(stored, rows[..k], plan);
      if i :| 0 <= i < |there| && Overlap(there[i], rows[k]) {
        MeetsOnlyItself(plan, there[i], rows[k]);
        assert SameKey(there[i], rows[k]);
      }
    }
  }

  // Nothing is inserted twice: resuming after the last slot, every row a run sends is new.
  lemma NothingReinserted(stored: seq<Slot>, plan: Plan, room: RoomId, now: Time, target: Time, done: nat)
    requires Planned(plan) && room in plan && done <= |RoomEmission(stored, room, plan[room], now, target)|
    ensures
      var starts := RoomEmission(stored, room, plan[room], now, target);
      RoomRun(stored, room, plan[room], now, target, done) == stored + RowsOf(room, starts[..done])
  {
    var starts := RoomEmission(stored, room, plan[room], now, target);
    forall k | 0 <= k < done ensures !UpTo(Latest(stored, room), starts[k]) {
      assert starts[k] in starts;
      EmissionExact(plan[room], ComputeLowerBound(now, Latest(stored, room)), target, starts[k]);
    }
    EmissionSpaced(plan[room], ComputeLowerBound(now, Latest(stored, room)), target);
    NewRows(stored, room, starts[..done]);
  }

  lemma {:induction false} NewRows(stored: seq<Slot>, room: RoomId, starts: seq<Time>)
    requires Spaced(starts)
    requires forall k | 0 <= k < |starts| :: !UpTo(Latest(stored, room), starts[k])
    ensures InsertRows(stored, RowsOf(room, starts)) == stored + RowsOf(room, starts)
  {
    if starts != [] {
      var n := |starts| - 1;
      NewRows(stored, room, starts[..n]);
      RowsOfPrefix(room, starts, n);
      NewKey(stored, room, starts, n);
      assert RowsOf(room, starts) == RowsOf(room, starts[..n]) + [Slot(room, starts[n], starts[n] + SLOT_DURATION)];
    }
  }

  lemma NewKey(stored: seq<Slot>, room: RoomId, starts: seq<Time>, n: nat)
    requires Spaced(starts) && n < |starts| && !UpTo(Latest(stored, room), starts[n])
    ensures !Taken(stored + RowsOf(room, starts[..n]), Slot(room, starts[n], starts[n] + SLOT_DURATION))
  {
    var there := stored + RowsOf(room, starts[..n]);
    forall i | 0 <= i < |there| ensures !SameKey(there[i], Slot(room, starts[n], starts[n] + SLOT_DURATION)) {
      if i >= |stored| {
        assert starts[i - |stored|] + SLOT_DURATION <= starts[n];
      }
    }
  }

  lemma RunHas(stored: seq<Slot>, plan: Plan, room: RoomId, now: Time, target: Time, done: nat, t: Time)
    requires Planned(plan) && OnPlan(stored, plan) && room in plan
    requires done <= |RoomEmission(stored, room, plan[room], now, target)|
    ensures Has(RoomRun(stored, room, plan[room], now, target, done), room, t)
            <==> Has(stored, room, t) || t in RoomEmission(stored, room, plan[room], now, target)[..done]
  {
    var starts := RoomEmission(stored, room, plan[room], now, target)[..done];
    EmissionOnPlan(stored, plan, room, now, target, done);
    InsertMembers(stored, RowsOf(room, starts), plan);
    var row := Slot(room, t, t + SLOT_DURATION);
    if row in RowsOf(room, starts) {
      var k :| 0 <= k < |starts| && RowsOf(room, starts)[k] == row;
      assert starts[k] == t;
    }
    if t in starts {
      var k :| 0 <= k < |starts| && starts[k] == t;
      assert RowsOf(room, starts)[k] == row;
    }
  }

  // A grid slot of the window is stored already or is among those the run goes through.
  lemma StoredOrEmitted(stored: seq<Slot>, plan: Plan, clock: Time, room: RoomId, now: Time, target: Time, t: Time)
    requires Sound(stored, plan, clock) && clock <= now && room in plan
    requires OnGrid(plan[room], t) && now <= t < target
    ensures UpTo(Latest(stored, room), t) ==> Has(stored, room, t)
    ensures !UpTo(Latest(stored, room), t) ==> t in RoomEmission(stored, room, plan[room], now, target)
  {
    var last := Latest(stored, room);
    assert NoGaps(stored, room, plan[room], clock);
    if !UpTo(last, t) {
      if last.Some? {
        var i :| 0 <= i < |stored| && stored[i].roomID == room && stored[i].start == last.value;
        assert RowOnPlan(stored[i], plan);
        GridSpaced(plan[room], last.value, t);
      }
      EmissionExact(plan[room], ComputeLowerBound(now, last), target, t);
    }
  }

  // A run leaves no gap behind it, however far it got.
  lemma RunLeavesNoGap(stored: seq<Slot>, plan: Plan, clock: Time, room: RoomId, now: Time, target: Time, done: nat)
    requires Sound(stored, plan, clock) && clock <= now && room in plan
    requires done <= |RoomEmission(stored, room, plan[room], now, target)|
    ensures NoGaps(RoomRun(stored, room, plan[room], now, target, done), room, plan[room], now)
  {
    var rules := plan[room];
    var starts := RoomEmission(stored, room, rules, now, target);
    var after := RoomRun(stored, room, rules, now, target, done);
    EmissionOnPlan(stored, plan, room, now, target, done);
    InsertMembers(stored, RowsOf(room, starts[..done]), plan);
    forall t | OnGrid(rules, t) && now <= t && UpTo(Latest(after, room), t) ensures Has(after, room, t) {
      RunHas(stored, plan, room, now, target, done, t);
      if UpTo(Latest(stored, room), t) {
        assert NoGaps(stored, room, rules, clock);
      } else {
        var end := Latest(after, room).value;
        LatestIsNew(stored, plan, room, now, target, done);
        var k :| 0 <= k < done && starts[k] == end;
        assert end in starts;
        EmissionExact(rules, ComputeLowerBound(now, Latest(stored, room)), target, end);
        StoredOrEmitted(stored, plan, clock, room, now, target, t);
        EmissionSpaced(rules, ComputeLowerBound(now, Latest(stored, room)), target);
        var j :| 0 <= j < |starts| && starts[j] == t;
        assert j <= k;
        assert starts[..done][j] == t;
      }
    }
  }

  // The room's last slot after a run is the last one before it, or one the run stored.
  lemma LatestIsNew(stored: seq<Slot>, plan: Plan, room: RoomId, now: Time, target: Time, done: nat)
    requires Planned(plan) && OnPlan(stored, plan) && room in plan
    requires done <= |RoomEmission(stored, room, plan[room], now, target)|
    requires Latest(RoomRun(stored, room, plan[room], now, target, done), room).Some?
    ensures
      var end := Latest(RoomRun(stored, room, plan[room], now, target, done), room).value;
      UpTo(Latest(stored, room), end) || end in RoomEmission(stored, room, plan[room], now, target)[..done]
  {
    var starts := RoomEmission(stored, room, plan[room], now, target)[..done];
    EmissionOnPlan(stored, plan, room, now, target, done);
    InsertMembers(stored, RowsOf(room, starts), plan);
    LastAmong(stored, starts, InsertRows(stored, RowsOf(room, starts)), room);
  }

  lemma LastAmong(stored: seq<Slot>, starts: seq<Time>, after: seq<Slot>, room: RoomId)
    requires forall x :: x in after <==> x in stored || x in RowsOf(room, starts)
    requires Latest(after, room).Some?
    ensures UpTo(Latest(stored, room), Latest(after, room).value) || Latest(after, room).value in starts
  {
    var end := Latest(after, room).value;
    var i :| 0 <= i < |after| && after[i].roomID == room && after[i].start == end;
    var row := after[i];
    if row in stored {
      var k :| 0 <= k < |stored| && stored[k] == row;
      assert UpTo(Latest(stored, room), end);
    } else {
      var k :| 0 <= k < |starts| && RowsOf(room, starts)[k] == row;
      assert starts[k] == end;
    }
  }

  // Another room's run changes nothing for this one.
  lemma OtherRoom(stored: seq<Slot>, plan: Plan, room: RoomId, now: Time, target: Time, done: nat, other: RoomId)
    requires Planned(plan) && OnPlan(stored, plan) && room in plan && other != room
    requires done <= |RoomEmission(stored, room, plan[room], now, target)|
    ensures Latest(RoomRun(stored, room, plan[room], now, target, done), other) == Latest(stored, other)
    ensures forall t :: Has(RoomRun(stored, room, plan[room], now, target, done), other, t) <==> Has(stored, other, t)
  {
    var rows := RowsOf(room, RoomEmission(stored, room, plan[room], now, target)[..done]);
    EmissionOnPlan(stored, plan, room, now, target, done);
    InsertMembers(stored, rows, plan);
    LatestElsewhere(stored, rows, room, other);
  }

  lemma {:induction false} LatestElsewhere(stored: seq<Slot>, rows: seq<Slot>, room: RoomId, other: RoomId)
    requires other != room && forall k | 0 <= k < |rows| :: rows[k].roomID == room
    ensures Latest(InsertRows(stored, rows), other) == Latest(stored, other)
  {
    if rows != [] {
      var there := InsertRows(stored, rows[..|rows| - 1]);
      LatestElsewhere(stored, rows[..|rows| - 1], room, other);
      assert (there + [rows[|rows| - 1]])[..|there|] == there;
    }
  }

  lemma RunKeepsSound(stored: seq<Slot>, plan: Plan, clock: Time, room: RoomId, now: Time, target: Time, done: nat)
    requires Sound(stored, plan, clock) && clock <= now && room in plan
    requires done <= |RoomEmission(stored, room, plan[room], now, target)|
    ensures Sound(RoomRun(stored, room, plan[room], now, target, done), plan, now)
  {
    var after := RoomRun(stored, room, plan[room], now, target, done);
    EmissionOnPlan(stored, plan, room, now, target, done);
    InsertMembers(stored, RowsOf(room, RoomEmission(stored, room, plan[room], now, target)[..done]), plan);
    RunLeavesNoGap(stored, plan, clock, room, now, target, done);
    forall other | other in plan && other != room ensures NoGaps(after, other, plan[other], now) {
      OtherRoom(stored, plan, room, now, target, done, other);
      assert NoGaps(stored, other, plan[other], clock);
    }
  }

  lemma OthersStayFilled(
    stored: seq<Slot>, plan: Plan, room: RoomId, now: Time, target: Time, done: nat, other: RoomId)
    requires Planned(plan) && OnPlan(stored, plan) && room in plan && other in plan
    requires done <= |RoomEmission(stored, room, plan[room], now, target)|
    requires Filled(stored, other, plan[other], now, target)
    ensures Filled(RoomRun(stored, room, plan[room], now, target, done), other, plan[other], now, target)
  {
    if other != room {
      OtherRoom(stored, plan, room, now, target, done, other);
    } else {
      forall t | now <= t < target
        ensures Has(RoomRun(stored, room, plan[room], now, target, done), room, t) <==> OnGrid(plan[room], t)
      {
        RunHas(stored, plan, room, now, target, done, t);
        var starts := RoomEmission(stored, room, plan[room], now, target);
        if t in starts[..done] {
          assert t in starts;
          EmissionExact(plan[room], ComputeLowerBound(now, Latest(stored, room)), target, t);
        }
      }
    }
  }

  // A run that gets to its end fills the window.
  lemma RunFills(stored: seq<Slot>, plan: Plan, clock: Time, room: RoomId, now: Time, target: Time)
    requires Sound(stored, plan, clock) && clock <= now && room in plan
    ensures
      var done := |RoomEmission(stored, room, plan[room], now, target)|;
      Filled(RoomRun(stored, room, plan[room], now, target, done), room, plan[room], now, target)
  {
    var starts := RoomEmission(stored, room, plan[room], now, target);
    assert starts[..|starts|] == starts;
    forall t | now <= t < target
      ensures Has(RoomRun(stored, room, plan[room], now, target, |starts|), room, t) <==> OnGrid(plan[room], t)
    {
      RunHas(stored, plan, room, now, target, |starts|, t);
      if OnGrid(plan[room], t) {
        StoredOrEmitted(stored, plan, clock, room, now, target, t);
      }
      if Has(stored, room, t) {
        OnPlanHas(stored, plan, room, t);
      }
      EmissionExact(plan[room], ComputeLowerBound(now, Latest(stored, room)), target, t);
    }
  }

  // Resuming stores the same window as generating all of it into an empty table.
  lemma ResumingEqualsRegenerating(
    stored: seq<Slot>, plan: Plan, clock: Time, room: RoomId, now: Time, target: Time, t: Time)
    requires Sound(stored, plan, clock) && clock <= now && room in plan && now <= t < target
    ensures
      var resumed := |RoomEmission(stored, room, plan[room], now, target)|;
      var afresh := |RoomEmission([], room, plan[room], now, target)|;
      Has(RoomRun(stored, room, plan[room], now, target, resumed), room, t)
      <==> Has(RoomRun([], room, plan[room], now, target, afresh), room, t)
  {
    EmptyIsSound(plan, clock);
    RunFills(stored, plan, clock, room, now, target);
    RunFills([], plan, clock, room, now, target);
  }

  lemma EmptyIsSound(plan: Plan, clock: Time)
    requires Planned(plan)
    ensures Sound([], plan, clock)
  {}

  // ---- Histories ----

  datatype GenState = GenState(stored: seq<Slot>, plan: Plan)

  // One room's part of a run at a clock, of which the first done rows went in; or a room getting its schedule.
  datatype GenStep =
    | RunRoom(room: RoomId, now: Time, done: nat)
    | AddSchedule(room: RoomId, rules: seq<Schedule>)

  ghost predicate CanStep(s: GenState, step: GenStep, window: Time) {
    match step
    case RunRoom(room, now, done) =>
      room in s.plan && done <= |RoomEmission(s.stored, room, s.plan[room], now, now + window)|
    case AddSchedule(room, rules) => room !in s.plan && Timetable(rules)
  }

  ghost function TakeStep(s: GenState, step: GenStep, window: Time): GenState
    requires CanStep(s, step, window)
  {
    match step
    case RunRoom(room, now, done) =>
      s.(stored := RoomRun(s.stored, room, s.plan[room], now, now + window, done))
    case AddSchedule(room, rules) => s.(plan := s.plan[room := rules])
  }

  // From an empty database; the clock never goes back. states[k] is the state before steps[k].
  ghost predicate IsHistory(states: seq<GenState>, steps: seq<GenStep>, window: Time) {
    && |states| == |steps| + 1
    && states[0] == GenState([], map[])
    && (forall k | 0 <= k < |steps| ::
          CanStep(states[k], steps[k], window) && states[k + 1] == TakeStep(states[k], steps[k], window))
    && (forall j, k | 0 <= j < k < |steps| && steps[j].RunRoom? && steps[k].RunRoom? :: steps[j].now <= steps[k].now)
  }

  lemma NoScheduleNoSlots(stored: seq<Slot>, plan: Plan, room: RoomId)
    requires OnPlan(stored, plan) && room !in plan
    ensures Latest(stored, room).None?
  {
    forall i | 0 <= i < |stored| ensures stored[i].roomID != room {
      assert RowOnPlan(stored[i], plan);
    }
  }

  // Schedules are only added.
  ghost predicate Extends(plan: Plan, more: Plan) {
    forall room | room in plan :: room in more && more[room] == plan[room]
  }

  lemma GrownPlanKeepsSound(stored: seq<Slot>, plan: Plan, more: Plan, clock: Time)
    requires Sound(stored, plan, clock) && Extends(plan, more) && Planned(more)
    ensures Sound(stored, more, clock)
  {
    forall i | 0 <= i < |stored| ensures RowOnPlan(stored[i], more) {
      assert RowOnPlan(stored[i], plan);
    }
    forall r | r in more ensures NoGaps(stored, r, more[r], clock) {
      if r in plan {
        assert NoGaps(stored, r, plan[r], clock);
      } else {
        NoScheduleNoSlots(stored, plan, r);
      }
    }
  }

  lemma NewScheduleKeepsSound(stored: seq<Slot>, plan: Plan, room: RoomId, rules: seq<Schedule>, clock: Time)
    requires Sound(stored, plan, clock) && room !in plan && Timetable(rules)
    ensures Sound(stored, plan[room := rules], clock)
  {
    GrownPlanKeepsSound(stored, plan, plan[room := rules], clock);
  }

  lemma StepKeepsSound(s: GenState, step: GenStep, window: Time, clock: Time)
    requires CanStep(s, step, window) && Sound(s.stored, s.plan, clock)
    requires step.RunRoom? ==> clock <= step.now
    ensures
      var after := TakeStep(s, step, window);
      Sound(after.stored, after.plan, if step.RunRoom? then step.now else clock)
  {
    match step
    case RunRoom(_, _, _) => RunStepKeepsSound(s, step, window, clock);
    case AddSchedule(_, _) => ScheduleStepKeepsSound(s, step, window, clock);
  }

  lemma RunStepKeepsSound(s: GenState, step: GenStep, window: Time, clock: Time)
    requires step.RunRoom? && CanStep(s, step, window) && Sound(s.stored, s.plan, clock) && clock <= step.now
    ensures Sound(TakeStep(s, step, window).stored, TakeStep(s, step, window).plan, step.now)
  {
    RunKeepsSound(s.stored, s.plan, clock, step.room, step.now, step.now + window, step.done);
  }

  lemma ScheduleStepKeepsSound(s: GenState, step: GenStep, window: Time, clock: Time)
    requires step.AddSchedule? && CanStep(s, step, window) && Sound(s.stored, s.plan, clock)
    ensures Sound(TakeStep(s, step, window).stored, TakeStep(s, step, window).plan, clock)
  {
    NewScheduleKeepsSound(s.stored, s.plan, step.room, step.rules, clock);
  }

  lemma {:induction false} HistorySound(states: seq<GenState>, steps: seq<GenStep>, window: Time, n: nat, clock: Time)
    requires IsHistory(states, steps, window) && n <= |steps|
    requires forall j | 0 <= j < n && steps[j].RunRoom? :: steps[j].now <= clock
    ensures Sound(states[n].stored, states[n].plan, clock)
    decreases n
  {
    if n > 0 {
      var step := steps[n - 1];
      if step.RunRoom? {
        HistorySound(states, steps, window, n - 1, step.now);
        StepKeepsSound(states[n - 1], step, window, step.now);
        SoundLater(states[n].stored, states[n].plan, step.now, clock);
      } else {
        HistorySound(states, steps, window, n - 1, clock);
        StepKeepsSound(states[n - 1], step, window, clock);
      }
    }
  }

  lemma SoundLater(stored: seq<Slot>, plan: Plan, clock: Time, later: Time)
    requires Sound(stored, plan, clock) && clock <= later
    ensures Sound(stored, plan, later)
  {
    forall room | room in plan ensures NoGaps(stored, room, plan[room], later) {
      assert NoGaps(stored, room, plan[room], clock);
    }
  }

  // After any history of runs, some of which stopped anywhere on the way, nothing off the grid is stored, and
  // a run that gets to its end at t leaves exactly the grid in [t, t + window).
  lemma HistoryFills(states: seq<GenState>, steps: seq<GenStep>, window: Time, k: nat)
    requires IsHistory(states, steps, window) && k < |steps| && steps[k].RunRoom?
    ensures OnPlan(states[k + 1].stored, states[k + 1].plan)
    ensures
      var room, now := steps[k].room, steps[k].now;
      steps[k].done == |RoomEmission(states[k].stored, room, states[k].plan[room], now, now + window)| ==>
        Filled(states[k + 1].stored, room, states[k].plan[room], now, now + window)
  {
    HistorySound(states, steps, window, k, steps[k].now);
    StepKeepsSound(states[k], steps[k], window, steps[k].now);
    RunFills(states[k].stored, states[k].plan, steps[k].now, steps[k].room, steps[k].now, steps[k].now + window);
  }
}
