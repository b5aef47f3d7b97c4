/** The rolling slot generator: what its loops send to the slots table. */
module Generator {
  import opened Wrappers
  import opened Domain
  import opened Calendar
  import opened SlotGrid
  import opened SlotStorage
  import opened Resumption

  const DEFAULT_ROLLING_WINDOW: Time := 14 * DAY
  const DEFAULT_MAX_BATCH: nat := 500

  lemma RowsOfFirst(room: RoomId, s: Time, rest: seq<Time>)
    ensures RowsOf(room, [s] + rest) == [Slot(room, s, s + SLOT_DURATION)] + RowsOf(room, rest)
  {}

  lemma NextDay(room: RoomId, day: Time, endDay: Time, rules: seq<Schedule>, lower: Time, target: Time)
    requires day <= endDay
    ensures RowsOf(room, EmitDays(day, endDay, rules, lower, target))
            == RowsOf(room, EmitDay(day, rules, lower, target))
               + RowsOf(room, EmitDays(day + DAY, endDay, rules, lower, target))
  {}

  lemma NextRule(room: RoomId, day: Time, rules: seq<Schedule>, i: nat, lower: Time, target: Time)
    requires i < |rules|
    ensures RowsOf(room, EmitDay(day, rules[i..], lower, target))
            == RowsOf(room, EmitRule(day, rules[i], lower, target))
               + RowsOf(room, EmitDay(day, rules[i + 1..], lower, target))
  {
    assert rules[i..][1..] == rules[i + 1..];
  }

  // What is still to come after a piece has been emitted.
  lemma Passed(
    first: seq<Slot>, front: seq<Slot>, reached: seq<Slot>, piece: seq<Slot>, back: seq<Slot>, all: seq<Slot>)
    requires first <= front <= reached <= front + piece
    requires all == front + (piece + back)
    ensures first <= reached <= all
    ensures reached == front + piece ==> reached + back == all
  {}

  lemma Moved(front: seq<Slot>, piece: seq<Slot>, back: seq<Slot>)
    ensures front + (piece + back) == (front + piece) + back
    ensures front <= front + piece <= (front + piece) + back
  {}

  lemma Reached(base: seq<Slot>, emitted: seq<Slot>, rows: seq<Slot>, done: nat, sent: seq<seq<Slot>>, size: nat)
    requires done <= |emitted| && emitted <= rows && Cuts(sent, emitted, size)
    ensures emitted[..done] == rows[..done]
    ensures Cuts(sent, rows, size)
    ensures Refused(base, emitted) ==> Refused(base, rows)
  {
    if Refused(base, emitted) {
      RefusedLonger(base, emitted, rows);
    }
  }

  lemma NoRulesFilled(stored: seq<Slot>, plan: Plan, room: RoomId, now: Time, target: Time)
    requires OnPlan(stored, plan) && room in plan && plan[room] == []
    ensures Filled(stored, room, plan[room], now, target)
  {
    forall t | now <= t < target ensures Has(stored, room, t) <==> OnGrid(plan[room], t) {
      if Has(stored, room, t) {
        OnPlanHas(stored, plan, room, t);
      }
    }
  }

  // What has been stored since before: rows of the given rooms that start inside the window, behind what was there.
  ghost predicate Added(before: seq<Slot>, after: seq<Slot>, rooms: seq<RoomId>, now: Time, target: Time) {
    && before <= after
    && forall i | |before| <= i < |after| ::
      after[i].roomID in rooms && now <= after[i].start < target && after[i].end == after[i].start + SLOT_DURATION
  }

  lemma AddedMore(before: seq<Slot>, mid: seq<Slot>, after: seq<Slot>, rooms: seq<RoomId>, now: Time, target: Time)
    requires Added(before, mid, rooms, now, target) && Added(mid, after, rooms, now, target)
    ensures Added(before, after, rooms, now, target)
  {}

  lemma {:induction false} InsertRowsAdds(stored: seq<Slot>, rows: seq<Slot>)
    ensures stored <= InsertRows(stored, rows)
    ensures forall i | |stored| <= i < |InsertRows(stored, rows)| :: InsertRows(stored, rows)[i] in rows
  {
    if rows != [] {
      InsertRowsAdds(stored, rows[..|rows| - 1]);
    }
  }

  lemma RunAdds(
    stored: seq<Slot>, room: RoomId, rules: seq<Schedule>, now: Time, target: Time, done: nat, rooms: seq<RoomId>)
    requires done <= |RoomEmission(stored, room, rules, now, target)| && room in rooms
    ensures Added(stored, RoomRun(stored, room, rules, now, target, done), rooms, now, target)
  {
    var lower := ComputeLowerBound(now, Latest(stored, room));
    var starts := Emission(rules, lower, target);
    var rows := RowsOf(room, starts[..done]);
    EmissionWithin(rules, lower, target);
    InsertRowsAdds(stored, rows);
    forall row | row in rows ensures row.roomID == room && row.end == row.start + SLOT_DURATION && row.start in starts {
      var k :| 0 <= k < |rows| && rows[k] == row;
      assert starts[k] in starts;
    }
  }

  // The loop over the rooms has dealt with the first i of them.
  ghost predicate Filling(first: seq<Slot>, stored: seq<Slot>, rooms: seq<RoomId>, i: nat, byRoom: Plan, plan: Plan,
                          now: Time, target: Time, ready: bool)
  {
    && Added(first, stored, rooms, now, target)
    && (ready ==> Sound(stored, plan, now) && FirstFilled(stored, rooms, i, byRoom, plan, now, target))
  }

  ghost predicate FirstFilled(
    stored: seq<Slot>, rooms: seq<RoomId>, i: nat, byRoom: Plan, plan: Plan, now: Time, target: Time)
  {
    i <= |rooms| && forall k | 0 <= k < i ::
      rooms[k] in byRoom ==> rooms[k] in plan && Filled(stored, rooms[k], plan[rooms[k]], now, target)
  }

  // A room's run keeps the table sound and the rooms before it filled; one that gets to its end fills its own.
  lemma RoomGenerated(stored: seq<Slot>, rooms: seq<RoomId>, i: nat, byRoom: Plan, plan: Plan,
                      now: Time, target: Time, done: nat)
    requires Sound(stored, plan, now) && FirstFilled(stored, rooms, i, byRoom, plan, now, target)
    requires i < |rooms| && rooms[i] in plan && done <= |RoomEmission(stored, rooms[i], plan[rooms[i]], now, target)|
    ensures
      var after := RoomRun(stored, rooms[i], plan[rooms[i]], now, target, done);
      && Sound(after, plan, now)
      && FirstFilled(after, rooms, i, byRoom, plan, now, target)
      && (done == |RoomEmission(stored, rooms[i], plan[rooms[i]], now, target)| ==>
            FirstFilled(after, rooms, i + 1, byRoom, plan, now, target))
    ensures !Refused(stored, RowsOf(rooms[i], RoomEmission(stored, rooms[i], plan[rooms[i]], now, target)))
  {
    RunKeepsSound(stored, plan, now, rooms[i], now, target, done);
    NeverRefused(stored, plan, rooms[i], now, target);
    RunFills(stored, plan, now, rooms[i], now, target);
    var after := RoomRun(stored, rooms[i], plan[rooms[i]], now, target, done);
    forall k | 0 <= k < i && rooms[k] in byRoom ensures Filled(after, rooms[k], plan[rooms[k]], now, target) {
      OthersStayFilled(stored, plan, rooms[i], now, target, done, rooms[k]);
    }
  }

  // Batches sent: none empty, none above the maximum.
  ghost predicate SentAlong(before: seq<seq<Slot>>, after: seq<seq<Slot>>, size: nat) {
    before <= after && forall i | |before| <= i < |after| :: 0 < |after[i]| <= size
  }

  class SlotGenerator {
    const table: SlotTable
    const ctx: Context
    const rollingWindow: Time
    const maxBatch: nat

    constructor (table: SlotTable, ctx: Context)
      ensures this.table == table && this.ctx == ctx
      ensures rollingWindow == DEFAULT_ROLLING_WINDOW && maxBatch == DEFAULT_MAX_BATCH
    {
      this.table, this.ctx := table, ctx;
      rollingWindow, maxBatch := DEFAULT_ROLLING_WINDOW, DEFAULT_MAX_BATCH;
    }

    // Something outside the generator can still go wrong: a cancelled request or a failing database.
    predicate Faulty()
      reads ctx, table
    {
      ctx.left.Some? || table.Faulty()
    }

    method CheckContext() returns (r: Result<(), ErrorCode>)
      modifies ctx
      ensures r.Failure? <==> old(ctx.left) == Some(0)
      ensures Faulty() ==> old(Faulty())
    {
      var cancelled := ctx.Err();
      r := if cancelled then Failure(InternalError) else Success(());
    }

    // The batch has been given a beginning of `more` since it held `before`: all of it unless the call failed,
    // and a failure has a cause.
    ghost predicate Advanced(batch: Batch, before: seq<Slot>, more: seq<Slot>, ok: bool, wasFaulty: bool)
      reads this, ctx, table, batch, batch.table, batch.rows
    {
      && batch.table == table
      && batch.Landed()
      && before <= batch.emitted <= before + more
      && (ok ==> batch.Valid() && batch.emitted == before + more)
      && (!ok ==> wasFaulty || Refused(batch.base, batch.emitted))
      && (Faulty() ==> wasFaulty)
    }

    // rest is what is still to come after this slot.
    method EmitSlot(batch: Batch, room: RoomId, slotStart: Time, ghost rest: seq<Time>)
      returns (r: Result<(), ErrorCode>)
      requires batch.table == table && batch.Valid()
      modifies ctx, table, batch, batch.rows
      ensures Advanced(batch, old(batch.emitted), RowsOf(room, [slotStart]), r.Success?, old(Faulty()))
      ensures batch.emitted + RowsOf(room, rest) == old(batch.emitted) + RowsOf(room, [slotStart] + rest)
    {
      var slot := Slot(room, slotStart, slotStart + SLOT_DURATION);
      RowsOfFirst(room, slotStart, rest);
      RowsOfFirst(room, slotStart, []);
      Moved(batch.emitted, [slot], RowsOf(room, rest));
      r := batch.Append(slot);
    }

    method GenerateForSchedule(
      batch: Batch, room: RoomId, dayUTC: Time, rule: Schedule, lowerBound: Time, target: Time)
      returns (r: Result<(), ErrorCode>)
      requires batch.table == table && batch.Valid()
      modifies ctx, table, batch, batch.rows
      ensures
        var startOfDay := CombineDateWithTimeOfDay(dayUTC, rule.start);
        var endOfDay := CombineDateWithTimeOfDay(dayUTC, rule.end);
        var more := RowsOf(room, EmitFrom(startOfDay, endOfDay, lowerBound, target));
        Advanced(batch, old(batch.emitted), more, r.Success?, old(Faulty()))
    {
      var startOfDay := CombineDateWithTimeOfDay(dayUTC, rule.start);
      var endOfDay := CombineDateWithTimeOfDay(dayUTC, rule.end);
      var slotStart := startOfDay;
      ghost var all := batch.emitted + RowsOf(room, EmitFrom(startOfDay, endOfDay, lowerBound, target));
      while slotStart + SLOT_DURATION <= endOfDay
        invariant batch.Valid()
        invariant old(batch.emitted) <= batch.emitted
        invariant batch.emitted + RowsOf(room, EmitFrom(slotStart, endOfDay, lowerBound, target)) == all
        invariant Faulty() ==> old(Faulty())
        decreases endOfDay - slotStart
      {
        var _ :- CheckContext();
        if slotStart < lowerBound {
          slotStart := slotStart + SLOT_DURATION;
          continue;
        }
        if !(slotStart < target) {
          break;
        }
        var _ :- EmitSlot(batch, room, slotStart, EmitFrom(slotStart + SLOT_DURATION, endOfDay, lowerBound, target));
        slotStart := slotStart + SLOT_DURATION;
      }
      return Success(());
    }

    method GenerateForRule(batch: Batch, room: RoomId, day: Time, rule: Schedule, lowerBound: Time, target: Time)
      returns (r: Result<(), ErrorCode>)
      requires batch.table == table && batch.Valid()
      modifies ctx, table, batch, batch.rows
      ensures Advanced(batch, old(batch.emitted), RowsOf(room, EmitRule(day, rule, lowerBound, target)),
                       r.Success?, old(Faulty()))
    {
      if !WeekdayMatches(day, rule.dayOfWeek) {
        return Success(());
      }
      r := GenerateForSchedule(batch, room, day, rule, lowerBound, target);
    }

    method GenerateForDay(
      batch: Batch, room: RoomId, day: Time, rules: seq<Schedule>, lowerBound: Time, target: Time)
      returns (r: Result<(), ErrorCode>)
      requires batch.table == table && batch.Valid()
      modifies ctx, table, batch, batch.rows
      ensures Advanced(batch, old(batch.emitted), RowsOf(room, EmitDay(day, rules, lowerBound, target)),
                       r.Success?, old(Faulty()))
    {
      var _ :- CheckContext();
      assert rules[0..] == rules;
      ghost var all := batch.emitted + RowsOf(room, EmitDay(day, rules, lowerBound, target));
      for i := 0 to |rules|
        invariant batch.Valid() && old(batch.emitted) <= batch.emitted
        invariant batch.emitted + RowsOf(room, EmitDay(day, rules[i..], lowerBound, target)) == all
        invariant Faulty() ==> old(Faulty())
      {
        NextRule(room, day, rules, i, lowerBound, target);
        ghost var front := batch.emitted;
        r := GenerateForRule(batch, room, day, rules[i], lowerBound, target);
        Passed(old(batch.emitted), front, batch.emitted, RowsOf(room, EmitRule(day, rules[i], lowerBound, target)),
               RowsOf(room, EmitDay(day, rules[i + 1..], lowerBound, target)), all);
        if r.Failure? {
          return;
        }
      }
      return Success(());
    }

    method GenerateForDays(
      batch: Batch, room: RoomId, startDay: Time, endDay: Time, rules: seq<Schedule>, lowerBound: Time, target: Time)
      returns (r: Result<(), ErrorCode>)
      requires batch.table == table && batch.Valid()
      modifies ctx, table, batch, batch.rows
      ensures Advanced(batch, old(batch.emitted), RowsOf(room, EmitDays(startDay, endDay, rules, lowerBound, target)),
                       r.Success?, old(Faulty()))
    {
      var day := startDay;
      ghost var all := batch.emitted + RowsOf(room, EmitDays(startDay, endDay, rules, lowerBound, target));
      while day <= endDay
        invariant batch.Valid() && old(batch.emitted) <= batch.emitted
        invariant batch.emitted + RowsOf(room, EmitDays(day, endDay, rules, lowerBound, target)) == all
        invariant Faulty() ==> old(Faulty())
        decreases endDay - day
      {
        NextDay(room, day, endDay, rules, lowerBound, target);
        ghost var front := batch.emitted;
        r := GenerateForDay(batch, room, day, rules, lowerBound, target);
        Passed(old(batch.emitted), front, batch.emitted, RowsOf(room, EmitDay(day, rules, lowerBound, target)),
               RowsOf(room, EmitDays(day + DAY, endDay, rules, lowerBound, target)), all);
        if r.Failure? {
          return;
        }
        day := day + DAY;
      }
      return Success(());
    }

    // All of the window's rows, the last of them flushed.
    method EmitWindow(
      batch: Batch, room: RoomId, rules: seq<Schedule>, startDay: Time, endDay: Time, lowerBound: Time, target: Time)
      returns (r: Result<(), ErrorCode>)
      requires batch.table == table && batch.Valid() && batch.emitted == []
      modifies ctx, table, batch, batch.rows
      ensures batch.Landed()
      ensures
        var rows := RowsOf(room, EmitDays(startDay, endDay, rules, lowerBound, target));
        batch.emitted <= rows && (r.Success? ==> batch.Done() && batch.emitted == rows)
      ensures r.Failure? ==> old(Faulty()) || Refused(batch.base, batch.emitted)
      ensures Faulty() ==> old(Faulty())
    {
      r := GenerateForDays(batch, room, startDay, endDay, rules, lowerBound, target);
      if r.Success? {
        r := batch.Flush();
      }
    }

    // The ghost results say how many of the rows went in and in which batches they were sent.
    method FillWindow(room: RoomId, rules: seq<Schedule>, startDay: Time, endDay: Time, lowerBound: Time, target: Time)
      returns (r: Result<(), ErrorCode>, ghost done: nat, ghost sent: seq<seq<Slot>>)
      requires maxBatch > 0
      modifies ctx, table
      ensures
        var rows := RowsOf(room, EmitDays(startDay, endDay, rules, lowerBound, target));
        && done <= |rows|
        && table.stored == InsertRows(old(table.stored), rows[..done])
        && table.batches == old(table.batches) + sent
        && Cuts(sent, rows, maxBatch)
        && (r.Success? ==> done == |rows| && Concat(sent) == rows)
        && (r.Failure? ==> old(Faulty()) || Refused(old(table.stored), rows))
      ensures Faulty() ==> old(Faulty())
    {
      var batch := new Batch(table, maxBatch);
      ghost var rows := RowsOf(room, EmitDays(startDay, endDay, rules, lowerBound, target));
      r := EmitWindow(batch, room, rules, startDay, endDay, lowerBound, target);
      done, sent := batch.landed, batch.sent;
      Reached(batch.base, batch.emitted, rows, done, sent, maxBatch);
    }

    // Fills the room's window from its last stored slot on.
    method GenerateForRoom(room: RoomId, schedules: seq<Schedule>, now: Time, target: Time)
      returns (r: Result<(), ErrorCode>, ghost done: nat, ghost sent: seq<seq<Slot>>)
      requires maxBatch > 0
      modifies ctx, table
      ensures
        var starts := RoomEmission(old(table.stored), room, schedules, now, target);
        && done <= |starts|
        && table.stored == RoomRun(old(table.stored), room, schedules, now, target, done)
        && table.batches == old(table.batches) + sent
        && Cuts(sent, RowsOf(room, starts), maxBatch)
        && (r.Success? ==> done == |starts| && Concat(sent) == RowsOf(room, starts))
        && (r.Failure? ==> old(Faulty()) || Refused(old(table.stored), RowsOf(room, starts)))
      ensures Faulty() ==> old(Faulty())
    {
      var last := table.GetLastSlotStartByRoomID(room);
      if last.Failure? {
        return Failure(last.error), 0, [];
      }
      var lowerBound := ComputeLowerBound(now, last.value);
      var rules := SortRules(schedules);
      ghost var starts := RoomEmission(table.stored, room, schedules, now, target);
      r, done, sent :=
        FillWindow(room, rules, TruncateToUTCDate(lowerBound), TruncateToUTCDate(target), lowerBound, target);
      RowsOfPrefix(room, starts, done);
    }

    // One run at one instant. listed and schedules are the answers of the two list queries; plan holds every
    // room's schedule, and clock is the instant of the previous run.
    method Generate(
      now: Time, listed: Result<seq<RoomId>, ErrorCode>, schedules: Result<Plan, ErrorCode>,
      ghost plan: Plan, ghost clock: Time)
      returns (r: Result<(), ErrorCode>)
      requires maxBatch > 0
      requires schedules.Success? ==>
        forall room | room in schedules.value :: room in plan && schedules.value[room] == plan[room]
      modifies ctx, table
      ensures Sound(old(table.stored), plan, clock) && clock <= now ==>
        && Sound(table.stored, plan, now)
        && (r.Failure? ==> old(Faulty()) || listed.Failure? || schedules.Failure?)
        && (r.Success? ==> listed.Success? && (listed.value != [] ==> schedules.Success?)
                           && forall k | 0 <= k < |listed.value| ::
              schedules.Success? && listed.value[k] in schedules.value ==>
                Filled(table.stored, listed.value[k], plan[listed.value[k]], now, now + rollingWindow))
      ensures Added(old(table.stored), table.stored, if listed.Success? then listed.value else [],
                    now, now + rollingWindow)
      ensures SentAlong(old(table.batches), table.batches, maxBatch)
      ensures old(ctx.left) == Some(0) || listed.Failure? || (listed.value != [] && schedules.Failure?) ==>
        r.Failure? && table.stored == old(table.stored)
    {
      ghost var ready := Sound(table.stored, plan, clock) && clock <= now;
      if ready {
        SoundLater(table.stored, plan, clock, now);
      }
      var _ :- CheckContext();
      var target := now + rollingWindow;
      var rooms :- listed;
      if |rooms| == 0 {
        return Success(());
      }
      var byRoom :- schedules;
      for i := 0 to |rooms|
        invariant Filling(old(table.stored), table.stored, rooms, i, byRoom, plan, now, target, ready)
        invariant SentAlong(old(table.batches), table.batches, maxBatch)
        invariant Faulty() ==> old(Faulty())
      {
        var _ :- GenerateListed(rooms, i, byRoom, now, target, plan, old(table.stored), ready);
      }
      return Success(());
    }

    // One round of the loop over the rooms.
    method GenerateListed(rooms: seq<RoomId>, i: nat, byRoom: Plan, now: Time, target: Time,
                          ghost plan: Plan, ghost first: seq<Slot>, ghost ready: bool)
      returns (r: Result<(), ErrorCode>)
      requires maxBatch > 0 && i < |rooms| && forall room | room in byRoom :: room in plan && byRoom[room] == plan[room]
      requires Filling(first, table.stored, rooms, i, byRoom, plan, now, target, ready)
      modifies ctx, table
      ensures Added(first, table.stored, rooms, now, target) && (ready ==> Sound(table.stored, plan, now))
      ensures r.Success? ==> Filling(first, table.stored, rooms, i + 1, byRoom, plan, now, target, ready)
      ensures r.Failure? && ready ==> old(Faulty())
      ensures SentAlong(old(table.batches), table.batches, maxBatch)
      ensures Faulty() ==> old(Faulty())
    {
      var _ :- CheckContext();
      var rules := if rooms[i] in byRoom then byRoom[rooms[i]] else [];
      if |rules| == 0 {
        if ready && rooms[i] in byRoom {
          NoRulesFilled(table.stored, plan, rooms[i], now, target);
        }
        return Success(());
      }
      ghost var before := table.stored;
      ghost var done, sent;
      r, done, sent := GenerateForRoom(rooms[i], rules, now, target);
      RunAdds(before, rooms[i], rules, now, target, done, rooms);
      AddedMore(first, before, table.stored, rooms, now, target);
      if ready {
        RoomGenerated(before, rooms, i, byRoom, plan, now, target, done);
      }
    }

    // Runs one after the other from an empty table, each at its own instant and with whatever goes wrong in it.
    // states[k] is the table before run k.
    method GenerateInTurn(runs: seq<Run>) returns (results: seq<Result<(), ErrorCode>>, ghost states: seq<seq<Slot>>)
      requires maxBatch > 0 && table.stored == [] && Chronological(runs)
      modifies ctx, table
      ensures |results| == |runs| && |states| == |runs| + 1
      ensures states[0] == [] && states[|runs|] == table.stored
      ensures forall k | 0 <= k < |runs| :: Sound(states[k + 1], runs[k].plan, runs[k].now)
      ensures forall k | 0 <= k < |runs| :: Accounted(runs[k], results[k], states[k + 1], rollingWindow)
      ensures forall k | 0 <= k < |runs| :: Confined(runs[k], states[k], states[k + 1], rollingWindow)
    {
      results, states := [], [table.stored];
      for k := 0 to |runs|
        invariant |results| == k && |states| == k + 1 && states[0] == [] && states[k] == table.stored
        invariant forall j | 0 <= j < k :: Sound(states[j + 1], runs[j].plan, runs[j].now)
        invariant forall j | 0 <= j < k :: Accounted(runs[j], results[j], states[j + 1], rollingWindow)
        invariant forall j | 0 <= j < k :: Confined(runs[j], states[j], states[j + 1], rollingWindow)
      {
        ghost var earlier := if k == 0 then None else Some(runs[k - 1]);
        var result := GenerateOnce(runs[k], earlier);
        results, states := results + [result], states + [table.stored];
      }
    }

    // One run, on what an earlier one left.
    method GenerateOnce(run: Run, ghost earlier: Option<Run>) returns (result: Result<(), ErrorCode>)
      requires maxBatch > 0 && Informed(run)
      requires match earlier
               case None => table.stored == []
               case Some(last) => Sound(table.stored, last.plan, last.now) && Follows(last, run)
      modifies ctx, table
      ensures Sound(table.stored, run.plan, run.now)
      ensures Accounted(run, result, table.stored, rollingWindow)
      ensures Confined(run, old(table.stored), table.stored, rollingWindow)
    {
      ghost var clock := if earlier.None? then run.now else earlier.value.now;
      if earlier.None? {
        EmptyIsSound(run.plan, run.now);
      } else {
        GrownPlanKeepsSound(table.stored, earlier.value.plan, run.plan, clock);
      }
      ctx.left := run.cancelAfter;
      table.faults := run.faults;
      result := Generate(run.now, run.listed, run.schedules, run.plan, clock);
    }
  }

  // One run: its instant, what goes wrong in it, the answers of its two list queries, and the schedules there are.
  datatype Run = Run(now: Time, cancelAfter: Option<nat>, faults: seq<Option<nat>>,
                     listed: Result<seq<RoomId>, ErrorCode>, schedules: Result<Plan, ErrorCode>, plan: Plan)

  predicate Undisturbed(run: Run) {
    && run.cancelAfter.None? && run.listed.Success? && run.schedules.Success?
    && forall i | 0 <= i < |run.faults| :: run.faults[i].None?
  }

  // The clock does not go back, schedules are only added, and the queries answer with schedules that exist.
  ghost predicate Chronological(runs: seq<Run>) {
    && (forall k | 0 <= k < |runs| :: Informed(runs[k]))
    && (forall k | 0 < k < |runs| :: Follows(runs[k - 1], runs[k]))
  }

  ghost predicate Informed(run: Run) {
    && Planned(run.plan)
    && (run.schedules.Success? ==>
          forall room | room in run.schedules.value ::
            room in run.plan && run.schedules.value[room] == run.plan[room])
  }

  ghost predicate Follows(last: Run, run: Run) {
    last.now <= run.now && Extends(last.plan, run.plan)
  }

  // A run takes nothing away and adds only rows of the rooms it was given, inside its window.
  ghost predicate Confined(run: Run, before: seq<Slot>, after: seq<Slot>, window: Time) {
    Added(before, after, if run.listed.Success? then run.listed.value else [], run.now, run.now + window)
  }

  // A run fails only when something went wrong, and one that succeeds leaves the window of every room it was given
  // a schedule for exactly filled.
  ghost predicate Accounted(run: Run, result: Result<(), ErrorCode>, after: seq<Slot>, window: Time) {
    && (result.Failure? ==> !Undisturbed(run))
    && (result.Success? ==> run.listed.Success? && forall i | 0 <= i < |run.listed.value| ::
          run.schedules.Success? && run.listed.value[i] in run.schedules.value && run.listed.value[i] in run.plan ==>
            Filled(after, run.listed.value[i], run.plan[run.listed.value[i]], run.now, run.now + window))
  }
}
