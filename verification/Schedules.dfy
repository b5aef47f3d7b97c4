/** Creating a room's schedule: one rule for each of the given weekdays, all with the same half-hour window. */
module Schedules {
  import opened Wrappers
  import opened Domain
  import opened Calendar
  import opened SlotGrid
  import opened Tiling

  predicate StrictlyIncreasing(days: seq<int>) {
    forall i, j | 0 <= i < j < |days| :: days[i] < days[j]
  }

  // Minutes since midnight are a multiple of thirty, with nothing left over.
  predicate IsAlignedToSlotGrid(d: Time) {
    d >= 0 && (d / MINUTE) % 30 == 0 && d % MINUTE == 0
  }

  lemma AlignedIsHalfHours(d: Time)
    ensures IsAlignedToSlotGrid(d) <==> d >= 0 && d % SLOT_DURATION == 0
  {
    if d >= 0 {
      assert d == d / MINUTE * MINUTE + d % MINUTE;
      assert d / MINUTE == d / MINUTE / 30 * 30 + d / MINUTE % 30;
      assert d == d / MINUTE / 30 * SLOT_DURATION + d / MINUTE % 30 * MINUTE + d % MINUTE;
      assert 0 <= d / MINUTE % 30 * MINUTE + d % MINUTE < SLOT_DURATION;
    }
  }

  function Rules(days: seq<int>, firstID: nat, start: Time, end: Time): (rules: seq<Schedule>)
    ensures |rules| == |days|
  {
    seq(|days|, k requires 0 <= k < |days| => Schedule(firstID + k, days[k], start, end))
  }

  // The rules made from an accepted input are a timetable whose windows are cut without a remainder.
  lemma RulesAreTimetable(days: seq<int>, firstID: nat, start: Time, end: Time)
    requires StrictlyIncreasing(days) && start % SLOT_DURATION == 0 && end % SLOT_DURATION == 0
    requires 0 <= start < end < DAY
    ensures Timetable(Rules(days, firstID, start, end))
    ensures (end - start) % SLOT_DURATION == 0
  {
    HalfHoursBetween(start, end);
  }

  lemma HalfHoursBetween(a: Time, b: Time)
    requires a % SLOT_DURATION == 0 && b % SLOT_DURATION == 0
    ensures (b - a) % SLOT_DURATION == 0
  {}

  // On a matching day inside the window, the generator stores exactly (end - start) / 30 min slots for an accepted
  // rule, back to back, the last one ending where the rule ends.
  lemma AcceptedTilesExactly(
    days: seq<int>, firstID: nat, start: Time, end: Time, k: nat, day: Time, lower: Time, target: Time)
    requires StrictlyIncreasing(days) && start % SLOT_DURATION == 0 && end % SLOT_DURATION == 0
    requires 0 <= start < end < DAY && k < |days|
    requires day % DAY == 0 && WeekdayMatches(day, days[k])
    requires lower <= day + start && day + end <= target
    ensures
      var rule := Rules(days, firstID, start, end)[k];
      var n := (end - start) / SLOT_DURATION;
      && EmitRule(day, rule, lower, target) == Tiles(day + start, n)
      && n > 0 && day + start + n * SLOT_DURATION == day + end
  {
    RulesAreTimetable(days, firstID, start, end);
    RuleTiled(day, Rules(days, firstID, start, end)[k], lower, target);
  }

  // ---- Sorting ----

  predicate NonDecreasing(days: seq<int>) {
    forall i, j | 0 <= i < j < |days| :: days[i] <= days[j]
  }

  function InsertInt(d: int, sorted: seq<int>): (r: seq<int>)
    requires NonDecreasing(sorted)
    ensures NonDecreasing(r)
    ensures multiset(r) == multiset(sorted) + multiset{d}
  {
    if sorted == [] || d <= sorted[0] then
      Prepended(d, sorted);
      [d] + sorted
    else
      assert sorted == [sorted[0]] + sorted[1..];
      var rest := InsertInt(d, sorted[1..]);
      NotBelow(sorted[0], sorted[1..], d, rest);
      Prepended(sorted[0], rest);
      [sorted[0]] + rest
  }

  lemma Prepended(first: int, rest: seq<int>)
    requires NonDecreasing(rest)
    requires rest == [] || first <= rest[0]
    ensures NonDecreasing([first] + rest)
    ensures multiset([first] + rest) == multiset(rest) + multiset{first}
  {}

  lemma NotBelow(first: int, others: seq<int>, d: int, rest: seq<int>)
    requires multiset(rest) == multiset(others) + multiset{d}
    requires first <= d && forall i | 0 <= i < |others| :: first <= others[i]
    ensures forall i | 0 <= i < |rest| :: first <= rest[i]
  {
    SameInts(others + [d], rest);
    forall i | 0 <= i < |rest| ensures first <= rest[i] {
      assert rest[i] in rest;
    }
  }

  function SortInts(days: seq<int>): (r: seq<int>)
    ensures NonDecreasing(r)
    ensures multiset(r) == multiset(days)
  {
    if days == [] then []
    else
      assert days == [days[0]] + days[1..];
      InsertInt(days[0], SortInts(days[1..]))
  }

  // Sorting different numbers puts them in strictly increasing order, without losing or adding one.
  lemma SortDistinct(days: seq<int>)
    requires forall i, j | 0 <= i < j < |days| :: days[i] != days[j]
    ensures StrictlyIncreasing(SortInts(days))
    ensures forall d :: d in SortInts(days) <==> d in days
  {
    var sorted := SortInts(days);
    SameInts(days, sorted);
    forall i, j | 0 <= i < j < |sorted| ensures sorted[i] < sorted[j] {
      OccursOnce(days, sorted[i]);
      DifferentInOrder(sorted, i, j);
    }
  }

  lemma SameInts(a: seq<int>, b: seq<int>)
    requires multiset(a) == multiset(b)
    ensures forall d :: d in b <==> d in a
  {
    forall d ensures d in b <==> d in a {
      assert d in b <==> d in multiset(b);
    }
  }

  lemma DifferentInOrder(s: seq<int>, i: nat, j: nat)
    requires i < j < |s| && s[i] <= s[j] && multiset(s)[s[i]] <= 1
    ensures s[i] < s[j]
  {
    if s[i] == s[j] {
      OccursTwice(s, i, j);
    }
  }

  lemma OccursTwice(s: seq<int>, i: nat, j: nat)
    requires i < j < |s| && s[i] == s[j]
    ensures multiset(s)[s[i]] >= 2
  {
    assert s == s[..j] + s[j..];
    assert s[i] in s[..j] && s[j] in s[j..];
    assert s[i] in multiset(s[..j]) && s[i] in multiset(s[j..]);
  }

  lemma {:induction false} OccursOnce(days: seq<int>, d: int)
    requires forall i, j | 0 <= i < j < |days| :: days[i] != days[j]
    ensures multiset(days)[d] <= 1
  {
    if days != [] {
      assert days == [days[0]] + days[1..];
      OccursOnce(days[1..], d);
      if d == days[0] {
        assert d !in days[1..];
        assert d !in multiset(days[1..]);
      }
    }
  }

  lemma NoneOrSome(days: set<int>)
    ensures days == {} || exists d :: d in days
  {
    if !exists d :: d in days {
      assert days == {};
    }
  }

  // ---- The table and the service ----

  datatype StoredRule = StoredRule(roomID: RoomId, rule: Schedule)

  predicate HasSchedule(rows: seq<StoredRule>, room: RoomId) {
    exists i | 0 <= i < |rows| :: rows[i].roomID == room
  }

  // UNIQUE (room_id, day_of_week)
  predicate UniqueDays(rows: seq<StoredRule>) {
    forall i, j | 0 <= i < j < |rows| && rows[i].roomID == rows[j].roomID ::
      rows[i].rule.dayOfWeek != rows[j].rule.dayOfWeek
  }

  function RulesOf(rows: seq<StoredRule>, room: RoomId): seq<Schedule> {
    if rows == [] then []
    else if rows[|rows| - 1].roomID == room then RulesOf(rows[..|rows| - 1], room) + [rows[|rows| - 1].rule]
    else RulesOf(rows[..|rows| - 1], room)
  }

  function Stored(room: RoomId, rules: seq<Schedule>): (rows: seq<StoredRule>)
    ensures |rows| == |rules|
  {
    seq(|rules|, k requires 0 <= k < |rules| => StoredRule(room, rules[k]))
  }

  lemma {:induction false} RulesOfAppend(rows: seq<StoredRule>, added: RoomId, rules: seq<Schedule>, room: RoomId)
    ensures RulesOf(rows + Stored(added, rules), room) == RulesOf(rows, room) + if room == added then rules else []
  {
    if rules == [] {
      assert rows + Stored(added, rules) == rows;
    } else {
      var n := |rules| - 1;
      RulesOfAppend(rows, added, rules[..n], room);
      assert (rows + Stored(added, rules))[..|rows| + n] == rows + Stored(added, rules[..n]);
      assert rules == rules[..n] + [rules[n]];
    }
  }

  lemma {:induction false} NoRules(rows: seq<StoredRule>, room: RoomId)
    requires !HasSchedule(rows, room)
    ensures RulesOf(rows, room) == []
  {
    if rows != [] {
      var front := rows[..|rows| - 1];
      assert forall i | 0 <= i < |front| :: front[i] == rows[i];
      NoRules(front, room);
    }
  }

  // Every room's rules are a timetable: what the generator relies on.
  ghost predicate AllTimetables(rows: seq<StoredRule>) {
    forall room :: Timetable(RulesOf(rows, room))
  }

  lemma NewRulesKeepTimetables(rows: seq<StoredRule>, added: RoomId, rules: seq<Schedule>)
    requires AllTimetables(rows) && !HasSchedule(rows, added) && Timetable(rules)
    ensures AllTimetables(rows + Stored(added, rules))
    ensures RulesOf(rows + Stored(added, rules), added) == rules
  {
    NoRules(rows, added);
    forall room ensures Timetable(RulesOf(rows + Stored(added, rules), room)) {
      RulesOfAppend(rows, added, rules, room);
      assert Timetable(RulesOf(rows, room));
    }
    RulesOfAppend(rows, added, rules, added);
  }

  class ScheduleStore {
    var rooms: set<RoomId>
    var rows: seq<StoredRule>
    var faults: seq<bool>

    constructor (rooms: set<RoomId>, faults: seq<bool>)
      ensures this.rooms == rooms && rows == [] && this.faults == faults
    {
      this.rooms, rows, this.faults := rooms, [], faults;
    }

    predicate Faulty()
      reads `faults
    {
      true in faults
    }

    // The next call fails.
    predicate NextFails()
      reads `faults
    {
      faults != [] && faults[0]
    }

    method Fails() returns (failed: bool)
      modifies `faults
      ensures failed == old(NextFails()) && faults == if old(faults) == [] then [] else old(faults)[1..]
      ensures failed || Faulty() ==> old(Faulty())
    {
      if faults == [] {
        return false;
      }
      failed := faults[0];
      faults := faults[1..];
    }

    method RoomExists(room: RoomId) returns (r: Result<bool, ErrorCode>)
      modifies `faults
      ensures r.Success? ==> r.value == (room in rooms)
      ensures r.Failure? ==> r.error == InternalError && old(Faulty())
      ensures old(NextFails()) ==> r.Failure?
      ensures Faulty() ==> old(Faulty())
    {
      var failed := Fails();
      r := if failed then Failure(InternalError) else Success(room in rooms);
    }

    method ExistsByRoomID(room: RoomId) returns (r: Result<bool, ErrorCode>)
      modifies `faults
      ensures r.Success? ==> r.value == HasSchedule(rows, room)
      ensures r.Failure? ==> r.error == InternalError && old(Faulty())
      ensures old(NextFails()) ==> r.Failure?
      ensures Faulty() ==> old(Faulty())
    {
      var failed := Fails();
      r := if failed then Failure(InternalError) else Success(HasSchedule(rows, room));
    }

    // One INSERT statement: all rows or none.
    method CreateBatch(added: seq<StoredRule>) returns (r: Result<(), ErrorCode>)
      modifies `rows, `faults
      ensures r.Success? ==> rows == old(rows) + added && UniqueDays(rows)
      ensures r.Failure? ==> rows == old(rows)
      ensures r.Failure? ==>
        (r.error == InternalError && old(Faulty())) || (r.error == ScheduleExists && !UniqueDays(rows + added))
      ensures old(NextFails()) ==> r.Failure?
      ensures Faulty() ==> old(Faulty())
    {
      var failed := Fails();
      if failed {
        return Failure(InternalError);
      }
      if !UniqueDays(rows + added) {
        return Failure(ScheduleExists);
      }
      rows := rows + added;
      return Success(());
    }
  }

  lemma FreshDays(rows: seq<StoredRule>, room: RoomId, days: seq<int>, firstID: nat, start: Time, end: Time)
    requires UniqueDays(rows) && !HasSchedule(rows, room) && StrictlyIncreasing(days)
    ensures UniqueDays(rows + Stored(room, Rules(days, firstID, start, end)))
  {
    var all := rows + Stored(room, Rules(days, firstID, start, end));
    forall i, j | 0 <= i < j < |all| && all[i].roomID == all[j].roomID
      ensures all[i].rule.dayOfWeek != all[j].rule.dayOfWeek
    {
      if i < |rows| <= j {
        assert HasSchedule(rows, room);
      }
    }
  }

  // One rule for each different input day, in ascending order of the days, all with the same window.
  ghost predicate OneRuleEach(rules: seq<Schedule>, input: seq<int>, firstID: nat, start: Time, end: Time) {
    && (forall i, j | 0 <= i < j < |rules| :: rules[i].dayOfWeek < rules[j].dayOfWeek)
    && (forall k | 0 <= k < |rules| ::
          rules[k].dayOfWeek in input && rules[k].start == start && rules[k].end == end && rules[k].id == firstID + k)
    && (forall d | d in input :: exists k | 0 <= k < |rules| :: rules[k].dayOfWeek == d)
  }

  lemma RulesCover(days: seq<int>, input: seq<int>, firstID: nat, start: Time, end: Time)
    requires StrictlyIncreasing(days) && forall d :: d in days <==> d in input
    ensures OneRuleEach(Rules(days, firstID, start, end), input, firstID, start, end)
  {
    var rules := Rules(days, firstID, start, end);
    forall k | 0 <= k < |rules| ensures rules[k].dayOfWeek in input {
      assert days[k] in days;
    }
    forall d | d in input ensures exists k | 0 <= k < |rules| :: rules[k].dayOfWeek == d {
      var k :| 0 <= k < |days| && days[k] == d;
      assert rules[k].dayOfWeek == d;
    }
  }

  class ScheduleService {
    const store: ScheduleStore

    constructor (store: ScheduleStore)
      ensures this.store == store
    {
      this.store := store;
    }

    // The different days of the input, in ascending order; None when one of them is no weekday.
    method DistinctDays(input: seq<int>) returns (days: Option<seq<int>>)
      ensures days.None? <==> exists i | 0 <= i < |input| :: !(1 <= input[i] <= 7)
      ensures days.Some? ==> StrictlyIncreasing(days.value) && forall d :: d in days.value <==> d in input
    {
      var uniqDays: set<int> := {};
      for i := 0 to |input|
        invariant forall k | 0 <= k < i :: 1 <= input[k] <= 7
        invariant forall d :: d in uniqDays <==> d in input[..i]
      {
        if input[i] < 1 || input[i] > 7 {
          return None;
        }
        assert input[..i + 1] == input[..i] + [input[i]];
        uniqDays := uniqDays + {input[i]};
      }
      assert input[..|input|] == input;
      var collected := Collect(uniqDays);
      SortDistinct(collected);
      return Some(SortInts(collected));
    }

    // The order in which a map is walked is not fixed.
    method Collect(uniqDays: set<int>) returns (days: seq<int>)
      ensures forall i, j | 0 <= i < j < |days| :: days[i] != days[j]
      ensures forall d :: d in days <==> d in uniqDays
    {
      days := [];
      var rest := uniqDays;
      while rest != {}
        invariant rest <= uniqDays
        invariant forall i, j | 0 <= i < j < |days| :: days[i] != days[j]
        invariant forall d :: d in days <==> d in uniqDays && d !in rest
        decreases rest
      {
        NoneOrSome(rest);
        var d :| d in rest;
        days := days + [d];
        rest := rest - {d};
      }
    }

    method CreateSchedule(user: User, room: RoomId, daysOfWeek: seq<int>, start: Option<Time>, end: Option<Time>)
      returns (r: Result<seq<Schedule>, ErrorCode>)
      requires UniqueDays(store.rows)
      requires (start.Some? ==> 0 <= start.value < DAY) && (end.Some? ==> 0 <= end.value < DAY)
      modifies store
      ensures
        var first := daysOfWeek != [] && room in store.rooms && !HasSchedule(old(store.rows), room);
        var valid := (forall i | 0 <= i < |daysOfWeek| :: 1 <= daysOfWeek[i] <= 7)
                     && start.Some? && end.Some? && start.value < end.value
                     && start.value % SLOT_DURATION == 0 && end.value % SLOT_DURATION == 0;
        && (user.role.RoleAdmin? && first && valid ==>
              r.Success? || (r.error == InternalError && old(store.Faulty())))
        && match r
           case Success(rules) => user.role.RoleAdmin? && first && valid
                                  && OneRuleEach(rules, daysOfWeek, |old(store.rows)|, start.value, end.value)
           case Failure(InternalError) => user.role.RoleAdmin? && old(store.Faulty())
           case Failure(Forbidden) => !user.role.RoleAdmin?
           case Failure(RoomNotFound) => user.role.RoleAdmin? && daysOfWeek != [] && room !in store.rooms
           case Failure(ScheduleExists) =>
             user.role.RoleAdmin? && daysOfWeek != [] && room in store.rooms && HasSchedule(old(store.rows), room)
           case Failure(InvalidRequest) => user.role.RoleAdmin? && (daysOfWeek == [] || (first && !valid))
           case Failure(_) => false
      ensures r.Success? ==> store.rows == old(store.rows) + Stored(room, r.value) && Timetable(r.value)
      ensures r.Success? && AllTimetables(old(store.rows)) ==>
        AllTimetables(store.rows) && RulesOf(store.rows, room) == r.value
      ensures r.Failure? ==> store.rows == old(store.rows)
      ensures UniqueDays(store.rows) && store.rooms == old(store.rooms)
    {
      if user.role != RoleAdmin {
        return Failure(Forbidden);
      }
      if |daysOfWeek| == 0 {
        return Failure(InvalidRequest);
      }
      var known :- store.RoomExists(room);
      if !known {
        return Failure(RoomNotFound);
      }
      var already :- store.ExistsByRoomID(room);
      if already {
        return Failure(ScheduleExists);
      }
      var days := DistinctDays(daysOfWeek);
      if days.None? {
        return Failure(InvalidRequest);
      }
      var window := CheckWindow(start, end);
      if !window {
        return Failure(InvalidRequest);
      }
      r := StoreRules(room, days.value, start.value, end.value);
      if r.Success? {
        RulesCover(days.value, daysOfWeek, |old(store.rows)|, start.value, end.value);
      }
    }

    // The checks of the window: both times given, on the half hour, the first before the second.
    method CheckWindow(start: Option<Time>, end: Option<Time>) returns (ok: bool)
      requires (start.Some? ==> 0 <= start.value) && (end.Some? ==> 0 <= end.value)
      ensures ok <==> start.Some? && end.Some? && start.value < end.value
                      && start.value % SLOT_DURATION == 0 && end.value % SLOT_DURATION == 0
    {
      if start.None? || end.None? {
        return false;
      }
      AlignedIsHalfHours(start.value);
      AlignedIsHalfHours(end.value);
      if !IsAlignedToSlotGrid(start.value) || !IsAlignedToSlotGrid(end.value) {
        return false;
      }
      return !(end.value <= start.value);
    }

    // Builds the rules of the given days and inserts them.
    method StoreRules(room: RoomId, days: seq<int>, start: Time, end: Time)
      returns (r: Result<seq<Schedule>, ErrorCode>)
      requires UniqueDays(store.rows) && !HasSchedule(store.rows, room) && StrictlyIncreasing(days)
      requires 0 <= start < end < DAY && start % SLOT_DURATION == 0 && end % SLOT_DURATION == 0
      modifies store`rows, store`faults
      ensures r.Failure? ==> r.error == InternalError && old(store.Faulty()) && store.rows == old(store.rows)
      ensures r.Success? ==>
        && r.value == Rules(days, |old(store.rows)|, start, end)
        && store.rows == old(store.rows) + Stored(room, r.value) && Timetable(r.value)
        && (AllTimetables(old(store.rows)) ==> AllTimetables(store.rows) && RulesOf(store.rows, room) == r.value)
      ensures UniqueDays(store.rows)
    {
      var rules := [];
      var firstID := |store.rows|;
      for k := 0 to |days|
        invariant rules == Rules(days, firstID, start, end)[..k]
      {
        rules := rules + [Schedule(firstID + k, days[k], start, end)];
      }
      FreshDays(store.rows, room, days, firstID, start, end);
      RulesAreTimetable(days, firstID, start, end);
      var _ :- store.CreateBatch(Stored(room, rules));
      if AllTimetables(old(store.rows)) {
        NewRulesKeepTimetables(old(store.rows), room, rules);
      }
      return Success(rules);
    }
  }
}
