/** A rule whose window is a whole number of half hours is cut into slots without a remainder. */
module Tiling {
  import opened Domain
  import opened Calendar
  import opened SlotGrid

  // n slots one after the other, the first at s.
  function Tiles(s: Time, n: nat): (tiles: seq<Time>)
    ensures |tiles| == n
  {
    seq(n, k requires 0 <= k < n => s + k * SLOT_DURATION)
  }

  lemma {:induction false} EmitFromTiles(s: Time, stop: Time, n: nat, lower: Time, target: Time)
    requires s + n * SLOT_DURATION <= stop < s + (n + 1) * SLOT_DURATION
    requires lower <= s && stop <= target
    ensures EmitFrom(s, stop, lower, target) == Tiles(s, n)
    decreases n
  {
    if n == 0 {
    } else {
      EmitFromTiles(s + SLOT_DURATION, stop, n - 1, lower, target);
      assert Tiles(s, n) == [s] + Tiles(s + SLOT_DURATION, n - 1);
    }
  }

  // The slots of a rule on one of its days inside the window: as many as fit, back to back from its start.
  lemma RuleTiled(day: Time, rule: Schedule, lower: Time, target: Time)
    requires day % DAY == 0 && Fits(rule) && WeekdayMatches(day, rule.dayOfWeek)
    requires lower <= day + rule.start && day + rule.end <= target
    ensures
      var n := (rule.end - rule.start) / SLOT_DURATION;
      EmitRule(day, rule, lower, target) == Tiles(day + rule.start, n)
  {
    var n := (rule.end - rule.start) / SLOT_DURATION;
    EmitFromTiles(day + rule.start, day + rule.end, n, lower, target);
  }

  function SlotAt(s: Time, x: Time): Time {
    s + (x - s) / SLOT_DURATION * SLOT_DURATION
  }

  // Every instant of an accepted rule's window lies in exactly one slot of the run.
  lemma WindowCovered(rules: seq<Schedule>, i: nat, day: Time, lower: Time, target: Time, x: Time)
    requires Timetable(rules) && i < |rules| && WeekdayMatches(day, rules[i].dayOfWeek)
    requires day % DAY == 0 && (rules[i].end - rules[i].start) % SLOT_DURATION == 0
    requires lower <= day + rules[i].start && day + rules[i].end <= target
    requires day + rules[i].start <= x < day + rules[i].end
    ensures
      var t := SlotAt(day + rules[i].start, x);
      && t in Emission(rules, lower, target) && t <= x < t + SLOT_DURATION
      && forall u | u in Emission(rules, lower, target) && u <= x < u + SLOT_DURATION :: u == t
  {
    var rule := rules[i];
    var s := day + rule.start;
    var t := SlotAt(s, x);
    SlotInside(rule.end - rule.start, x - s);
    EmitFromExact(s, day + rule.end, lower, target, t);
    assert Fits(rule);
    EmitRuleExact(day, rule, lower, target, t);
    assert OnRule(rules[i], t);
    EmissionExact(rules, lower, target, t);
    forall u | u in Emission(rules, lower, target) && u <= x < u + SLOT_DURATION ensures u == t {
      EmissionExact(rules, lower, target, u);
      if u < t {
        GridSpaced(rules, u, t);
      } else if t < u {
        GridSpaced(rules, t, u);
      }
    }
  }

  lemma SlotInside(length: Time, offset: Time)
    requires length % SLOT_DURATION == 0 && 0 <= offset < length
    ensures
      var k := offset / SLOT_DURATION * SLOT_DURATION;
      0 <= k <= offset < k + SLOT_DURATION <= length && k % SLOT_DURATION == 0
  {}
}
