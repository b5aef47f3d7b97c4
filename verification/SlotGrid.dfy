/** The grid of slot starts a timetable describes, and the sequence of starts the generator's loops visit. */
module SlotGrid {
  import opened Domain
  import opened Calendar

  datatype Schedule = Schedule(id: nat, dayOfWeek: int, start: Time, end: Time)

  // ---- The grid ----

  // t is a half-hour step from the rule's start on one of the rule's days, and the slot ends inside the rule.
  predicate OnRule(rule: Schedule, t: Time) {
    && WeekdayMatches(t, rule.dayOfWeek)
    && rule.start <= t % DAY
    && (t % DAY - rule.start) % SLOT_DURATION == 0
    && t % DAY + SLOT_DURATION <= rule.end
  }

  predicate OnGrid(rules: seq<Schedule>, t: Time) {
    exists i | 0 <= i < |rules| :: OnRule(rules[i], t)
  }

  predicate Fits(rule: Schedule) {
    0 <= rule.start < rule.end <= DAY
  }

  predicate Apart(a: Schedule, b: Schedule) {
    a.dayOfWeek == b.dayOfWeek ==> a.end <= b.start || b.end <= a.start
  }

  // One room's rules: non-empty windows within a day, and rules of the same weekday do not meet. (The
  // table's unique index on room and weekday makes the last part hold with one rule for a weekday.)
  predicate Timetable(rules: seq<Schedule>) {
    && (forall i | 0 <= i < |rules| :: Fits(rules[i]))
    && (forall i, j | 0 <= i < j < |rules| :: Apart(rules[i], rules[j]))
  }

  predicate Spaced(starts: seq<Time>) {
    forall i, j | 0 <= i < j < |starts| :: starts[i] + SLOT_DURATION <= starts[j]
  }

  lemma RulesSpaced(a: Schedule, b: Schedule, s: Time, t: Time)
    requires OnRule(a, s) && OnRule(b, t) && s < t
    requires Fits(a) && Fits(b)
    requires a == b || Apart(a, b)
    ensures s + SLOT_DURATION <= t
  {
    DayAndTime(s, t);
    if s / DAY == t / DAY {
      assert GoWeekday(s) == GoWeekday(t);
      if a == b {
        StepsApart(s % DAY - a.start, t % DAY - a.start);
      }
    }
  }

  lemma DayAndTime(s: Time, t: Time)
    requires s < t
    ensures if s / DAY == t / DAY then t - s == t % DAY - s % DAY else s - s % DAY + DAY <= t - t % DAY
  {}

  lemma StepsApart(x: Time, y: Time)
    requires x % SLOT_DURATION == 0 && y % SLOT_DURATION == 0 && x < y
    ensures x + SLOT_DURATION <= y
  {}

  // Two different slots of the grid never overlap.
  lemma GridSpaced(rules: seq<Schedule>, s: Time, t: Time)
    requires Timetable(rules) && OnGrid(rules, s) && OnGrid(rules, t) && s < t
    ensures s + SLOT_DURATION <= t
  {
    var i :| 0 <= i < |rules| && OnRule(rules[i], s);
    var j :| 0 <= j < |rules| && OnRule(rules[j], t);
    RulesSpaced(rules[i], rules[j], s, t);
  }

  // ---- The order the rules are visited in ----

  predicate Before(a: Schedule, b: Schedule) {
    if a.dayOfWeek != b.dayOfWeek then a.dayOfWeek < b.dayOfWeek
    else if a.start != b.start then a.start < b.start
    else a.id < b.id
  }

  predicate Ordered(rules: seq<Schedule>) {
    forall i, j {:trigger Before(rules[j], rules[i])} | 0 <= i < j < |rules| :: !Before(rules[j], rules[i])
  }

  lemma FirstOfAll(rule: Schedule, rules: seq<Schedule>)
    requires Ordered(rules) && (rules == [] || !Before(rules[0], rule))
    ensures Ordered([rule] + rules)
  {
    forall j | 0 <= j < |rules| ensures !Before(rules[j], rule) {
      if j > 0 {
        assert !Before(rules[j], rules[0]);
      }
    }
  }

  function Insert(rule: Schedule, rules: seq<Schedule>): (r: seq<Schedule>)
    requires Ordered(rules)
    ensures Ordered(r)
    ensures multiset(r) == multiset(rules) + multiset{rule}
    ensures |r| == |rules| + 1
  {
    if rules == [] || !Before(rules[0], rule) then
      FirstOfAll(rule, rules);
      [rule] + rules
    else
      assert rules == [rules[0]] + rules[1..];
      var rest := Insert(rule, rules[1..]);
      InsertedAfter(rules[0], rules[1..], rule, rest);
      [rules[0]] + rest
  }

  lemma SameElements(a: seq<Schedule>, b: seq<Schedule>)
    requires multiset(a) == multiset(b)
    ensures forall e :: e in a <==> e in b
  {
    forall e ensures e in a <==> e in b {
      assert e in a <==> e in multiset(a);
    }
  }

  lemma InsertedAfter(first: Schedule, others: seq<Schedule>, rule: Schedule, rest: seq<Schedule>)
    requires multiset(rest) == multiset(others) + multiset{rule}
    requires !Before(rule, first)
    requires forall i | 0 <= i < |others| :: !Before(others[i], first)
    ensures forall i | 0 <= i < |rest| :: !Before(rest[i], first)
  {
    SameElements(rest, others + [rule]);
    forall i | 0 <= i < |rest| ensures !Before(rest[i], first) {
      assert rest[i] in rest;
    }
  }

  function SortRules(rules: seq<Schedule>): (r: seq<Schedule>)
    ensures Ordered(r)
    ensures multiset(r) == multiset(rules)
  {
    if rules == [] then []
    else
      assert rules == [rules[0]] + rules[1..];
      Insert(rules[0], SortRules(rules[1..]))
  }

  lemma SortKeepsGrid(rules: seq<Schedule>, t: Time)
    ensures OnGrid(SortRules(rules), t) <==> OnGrid(rules, t)
  {
    var sorted := SortRules(rules);
    SameElements(sorted, rules);
    if i :| 0 <= i < |sorted| && OnRule(sorted[i], t) {
      assert sorted[i] in rules;
    }
    if i :| 0 <= i < |rules| && OnRule(rules[i], t) {
      assert rules[i] in sorted;
    }
  }

  predicate ApartFromAll(rule: Schedule, rules: seq<Schedule>) {
    forall e | e in rules :: Apart(rule, e)
  }

  lemma TimetableOf(first: Schedule, rest: seq<Schedule>)
    ensures Timetable([first] + rest) <==> Fits(first) && ApartFromAll(first, rest) && Timetable(rest)
  {
    var all := [first] + rest;
    if Timetable(all) {
      assert Fits(all[0]);
      forall e | e in rest ensures Apart(first, e) {
        var k :| 0 <= k < |rest| && rest[k] == e;
        assert Apart(all[0], all[k + 1]);
      }
      forall i, j | 0 <= i < j < |rest| ensures Apart(rest[i], rest[j]) {
        assert Apart(all[i + 1], all[j + 1]);
      }
      forall i | 0 <= i < |rest| ensures Fits(rest[i]) {
        assert Fits(all[i + 1]);
      }
    }
  }

  lemma {:induction false} InsertKeepsTimetable(rule: Schedule, rules: seq<Schedule>)
    requires Ordered(rules) && Timetable(rules)
    requires Fits(rule) && ApartFromAll(rule, rules)
    ensures Timetable(Insert(rule, rules))
  {
    if rules == [] || !Before(rules[0], rule) {
      TimetableOf(rule, rules);
    } else {
      var first, rest := rules[0], rules[1..];
      assert rules == [first] + rest;
      TimetableOf(first, rest);
      InsertKeepsTimetable(rule, rest);
      SameElements(Insert(rule, rest), rest + [rule]);
      assert Apart(rule, first);
      TimetableOf(first, Insert(rule, rest));
    }
  }

  lemma {:induction false} SortKeepsTimetable(rules: seq<Schedule>)
    requires Timetable(rules)
    ensures Timetable(SortRules(rules))
  {
    if rules != [] {
      assert rules == [rules[0]] + rules[1..];
      TimetableOf(rules[0], rules[1..]);
      SortKeepsTimetable(rules[1..]);
      SameElements(SortRules(rules[1..]), rules[1..]);
      InsertKeepsTimetable(rules[0], SortRules(rules[1..]));
    }
  }

  // In a sorted timetable, a rule ends before the next rule of the same weekday starts.
  lemma Staggered(rules: seq<Schedule>, i: nat, j: nat)
    requires Timetable(rules) && Ordered(rules)
    requires i < j < |rules| && rules[i].dayOfWeek == rules[j].dayOfWeek
    ensures rules[i].end <= rules[j].start
  {
    assert Apart(rules[i], rules[j]) && Fits(rules[i]) && Fits(rules[j]);
    assert !Before(rules[j], rules[i]);
  }

  // ---- What the loops visit ----

  // The inner loop from slot start s on: skip before lower, stop at target or when the slot would not fit.
  function EmitFrom(s: Time, stop: Time, lower: Time, target: Time): seq<Time>
    decreases stop - s
  {
    if s + SLOT_DURATION > stop then []
    else if s < lower then EmitFrom(s + SLOT_DURATION, stop, lower, target)
    else if s >= target then []
    else [s] + EmitFrom(s + SLOT_DURATION, stop, lower, target)
  }

  function EmitRule(day: Time, rule: Schedule, lower: Time, target: Time): seq<Time> {
    if WeekdayMatches(day, rule.dayOfWeek) then
      EmitFrom(CombineDateWithTimeOfDay(day, rule.start), CombineDateWithTimeOfDay(day, rule.end), lower, target)
    else []
  }

  function EmitDay(day: Time, rules: seq<Schedule>, lower: Time, target: Time): seq<Time> {
    if rules == [] then []
    else EmitRule(day, rules[0], lower, target) + EmitDay(day, rules[1..], lower, target)
  }

  function EmitDays(day: Time, endDay: Time, rules: seq<Schedule>, lower: Time, target: Time): seq<Time>
    decreases endDay - day
  {
    if day > endDay then []
    else EmitDay(day, rules, lower, target) + EmitDays(day + DAY, endDay, rules, lower, target)
  }

  function Emission(rules: seq<Schedule>, lower: Time, target: Time): seq<Time> {
    EmitDays(TruncateToUTCDate(lower), TruncateToUTCDate(target), SortRules(rules), lower, target)
  }

  // ---- The visited starts are exactly the grid points of the window ----

  predicate Step(s: Time, stop: Time, t: Time) {
    s <= t && (t - s) % SLOT_DURATION == 0 && t + SLOT_DURATION <= stop
  }

  lemma {:induction false} EmitFromExact(s: Time, stop: Time, lower: Time, target: Time, t: Time)
    ensures t in EmitFrom(s, stop, lower, target) <==> Step(s, stop, t) && lower <= t < target
    decreases stop - s
  {
    if s + SLOT_DURATION <= stop {
      EmitFromExact(s + SLOT_DURATION, stop, lower, target, t);
      if s <= t {
        NextStep(s, t);
      }
    }
  }

  lemma NextStep(s: Time, t: Time)
    requires s <= t
    ensures (t - s) % SLOT_DURATION == 0
            <==> t == s || (s + SLOT_DURATION <= t && (t - (s + SLOT_DURATION)) % SLOT_DURATION == 0)
  {
    if t - s >= SLOT_DURATION {
      assert (t - s - SLOT_DURATION) % SLOT_DURATION == (t - s) % SLOT_DURATION;
    }
  }

  lemma EmitRuleExact(day: Time, rule: Schedule, lower: Time, target: Time, t: Time)
    requires day % DAY == 0 && Fits(rule)
    ensures t in EmitRule(day, rule, lower, target) <==>
            TruncateToUTCDate(t) == day && OnRule(rule, t) && lower <= t < target
  {
    EmitFromExact(day + rule.start, day + rule.end, lower, target, t);
    if day <= t < day + DAY {
      assert TruncateToUTCDate(t) == day;
      assert t / DAY == day / DAY;
    }
  }

  lemma OnGridFirst(rules: seq<Schedule>, t: Time)
    requires rules != []
    ensures OnGrid(rules, t) <==> OnRule(rules[0], t) || OnGrid(rules[1..], t)
  {
    var rest := rules[1..];
    if i :| 0 <= i < |rest| && OnRule(rest[i], t) {
      assert OnRule(rules[i + 1], t);
    }
    if i :| 0 < i < |rules| && OnRule(rules[i], t) {
      assert OnRule(rest[i - 1], t);
    }
  }

  lemma {:induction false} EmitDayExact(day: Time, rules: seq<Schedule>, lower: Time, target: Time, t: Time)
    requires day % DAY == 0 && Timetable(rules)
    ensures t in EmitDay(day, rules, lower, target) <==>
            TruncateToUTCDate(t) == day && OnGrid(rules, t) && lower <= t < target
  {
    if rules != [] {
      assert rules == [rules[0]] + rules[1..];
      TimetableOf(rules[0], rules[1..]);
      EmitRuleExact(day, rules[0], lower, target, t);
      EmitDayExact(day, rules[1..], lower, target, t);
      OnGridFirst(rules, t);
    }
  }

  lemma {:induction false} EmitDaysExact(
    day: Time, endDay: Time, rules: seq<Schedule>, lower: Time, target: Time, t: Time)
    requires day % DAY == 0 && Timetable(rules)
    ensures t in EmitDays(day, endDay, rules, lower, target) <==>
            day <= TruncateToUTCDate(t) <= endDay && OnGrid(rules, t) && lower <= t < target
    decreases endDay - day
  {
    if day <= endDay {
      NextMidnight(day);
      EmitDayExact(day, rules, lower, target, t);
      EmitDaysExact(day + DAY, endDay, rules, lower, target, t);
      DayOrLater(day, t);
      assert t in EmitDays(day, endDay, rules, lower, target) <==>
             t in EmitDay(day, rules, lower, target) || t in EmitDays(day + DAY, endDay, rules, lower, target);
    }
  }

  lemma NextMidnight(day: Time)
    requires day % DAY == 0
    ensures (day + DAY) % DAY == 0
  {}

  lemma DayOrLater(day: Time, t: Time)
    requires day % DAY == 0
    ensures day <= TruncateToUTCDate(t) <==> TruncateToUTCDate(t) == day || day + DAY <= TruncateToUTCDate(t)
  {}

  lemma EmissionExact(rules: seq<Schedule>, lower: Time, target: Time, t: Time)
    requires Timetable(rules)
    ensures t in Emission(rules, lower, target) <==> OnGrid(rules, t) && lower <= t < target
  {
    SortKeepsTimetable(rules);
    SortKeepsGrid(rules, t);
    EmitDaysExact(TruncateToUTCDate(lower), TruncateToUTCDate(target), SortRules(rules), lower, target, t);
    if lower <= t < target {
      TruncateMonotone(lower, t);
      TruncateMonotone(t, target);
    }
  }

  // Nothing outside the window is visited, whatever the rules.
  lemma {:induction false} EmitDayWithin(day: Time, rules: seq<Schedule>, lower: Time, target: Time)
    ensures forall t | t in EmitDay(day, rules, lower, target) :: lower <= t < target
  {
    if rules != [] {
      EmitDayWithin(day, rules[1..], lower, target);
      var start, end := CombineDateWithTimeOfDay(day, rules[0].start), CombineDateWithTimeOfDay(day, rules[0].end);
      forall t | t in EmitFrom(start, end, lower, target) ensures lower <= t < target {
        EmitFromExact(start, end, lower, target, t);
      }
    }
  }

  lemma {:induction false} EmitDaysWithin(day: Time, endDay: Time, rules: seq<Schedule>, lower: Time, target: Time)
    ensures forall t | t in EmitDays(day, endDay, rules, lower, target) :: lower <= t < target
    decreases endDay - day
  {
    if day <= endDay {
      EmitDayWithin(day, rules, lower, target);
      EmitDaysWithin(day + DAY, endDay, rules, lower, target);
    }
  }

  lemma EmissionWithin(rules: seq<Schedule>, lower: Time, target: Time)
    ensures forall t | t in Emission(rules, lower, target) :: lower <= t < target
  {
    EmitDaysWithin(TruncateToUTCDate(lower), TruncateToUTCDate(target), SortRules(rules), lower, target);
  }

  lemma TruncateMonotone(s: Time, t: Time)
    requires s <= t
    ensures TruncateToUTCDate(s) <= TruncateToUTCDate(t)
  {}

  // ---- They are visited in ascending order, half an hour or more apart ----

  lemma Joined(a: seq<Time>, b: seq<Time>)
    requires Spaced(a) && Spaced(b)
    requires forall s, t | s in a && t in b :: s + SLOT_DURATION <= t
    ensures Spaced(a + b)
  {
    forall i, j | 0 <= i < j < |a + b| ensures (a + b)[i] + SLOT_DURATION <= (a + b)[j] {
      if i < |a| <= j {
        assert a[i] in a && b[j - |a|] in b;
      }
    }
  }

  lemma {:induction false} EmitFromSpaced(s: Time, stop: Time, lower: Time, target: Time)
    ensures Spaced(EmitFrom(s, stop, lower, target))
    decreases stop - s
  {
    if s + SLOT_DURATION <= stop {
      var rest := EmitFrom(s + SLOT_DURATION, stop, lower, target);
      EmitFromSpaced(s + SLOT_DURATION, stop, lower, target);
      forall t | t in rest ensures s + SLOT_DURATION <= t {
        EmitFromExact(s + SLOT_DURATION, stop, lower, target, t);
      }
      Joined([s], rest);
    }
  }

  lemma {:induction false} EmitDaySpaced(day: Time, rules: seq<Schedule>, lower: Time, target: Time)
    requires day % DAY == 0 && Timetable(rules) && Ordered(rules)
    ensures Spaced(EmitDay(day, rules, lower, target))
  {
    if rules != [] {
      assert rules == [rules[0]] + rules[1..];
      TimetableOf(rules[0], rules[1..]);
      EmitFromSpaced(CombineDateWithTimeOfDay(day, rules[0].start), CombineDateWithTimeOfDay(day, rules[0].end),
                     lower, target);
      EmitDaySpaced(day, rules[1..], lower, target);
      forall s, t | s in EmitRule(day, rules[0], lower, target) && t in EmitDay(day, rules[1..], lower, target)
        ensures s + SLOT_DURATION <= t
      {
        LaterRule(day, rules, lower, target, s, t);
      }
      Joined(EmitRule(day, rules[0], lower, target), EmitDay(day, rules[1..], lower, target));
    }
  }

  lemma LaterRule(day: Time, rules: seq<Schedule>, lower: Time, target: Time, s: Time, t: Time)
    requires day % DAY == 0 && rules != [] && Timetable(rules) && Ordered(rules) && Timetable(rules[1..])
    requires s in EmitRule(day, rules[0], lower, target) && t in EmitDay(day, rules[1..], lower, target)
    ensures s + SLOT_DURATION <= t
  {
    EmitRuleExact(day, rules[0], lower, target, s);
    EmitDayExact(day, rules[1..], lower, target, t);
    var i :| 0 <= i < |rules[1..]| && OnRule(rules[1..][i], t);
    assert rules[1..][i] == rules[i + 1];
    LaterOnDay(rules, i + 1, s, t);
  }

  lemma LaterOnDay(rules: seq<Schedule>, i: nat, s: Time, t: Time)
    requires Timetable(rules) && Ordered(rules) && 0 < i < |rules|
    requires TruncateToUTCDate(s) == TruncateToUTCDate(t) && OnRule(rules[0], s) && OnRule(rules[i], t)
    ensures s + SLOT_DURATION <= t
  {
    SameDay(s, t);
    Staggered(rules, 0, i);
  }

  lemma SameDay(s: Time, t: Time)
    requires TruncateToUTCDate(s) == TruncateToUTCDate(t)
    ensures s / DAY == t / DAY && t - s == t % DAY - s % DAY
  {}

  lemma {:induction false} EmitDaysSpaced(day: Time, endDay: Time, rules: seq<Schedule>, lower: Time, target: Time)
    requires day % DAY == 0 && Timetable(rules) && Ordered(rules)
    ensures Spaced(EmitDays(day, endDay, rules, lower, target))
    decreases endDay - day
  {
    if day <= endDay {
      var today := EmitDay(day, rules, lower, target);
      var later := EmitDays(day + DAY, endDay, rules, lower, target);
      NextMidnight(day);
      EmitDaySpaced(day, rules, lower, target);
      EmitDaysSpaced(day + DAY, endDay, rules, lower, target);
      forall s, t | s in today && t in later ensures s + SLOT_DURATION <= t {
        EmitDayExact(day, rules, lower, target, s);
        EmitDaysExact(day + DAY, endDay, rules, lower, target, t);
        var i :| 0 <= i < |rules| && OnRule(rules[i], s);
        assert Fits(rules[i]);
      }
      Joined(today, later);
    }
  }

  lemma EmissionSpaced(rules: seq<Schedule>, lower: Time, target: Time)
    requires Timetable(rules)
    ensures Spaced(Emission(rules, lower, target))
  {
    SortKeepsTimetable(rules);
    EmitDaysSpaced(TruncateToUTCDate(lower), TruncateToUTCDate(target), SortRules(rules), lower, target);
  }
}
