/**
 * The task record of the server's `tasks` table and the next-occurrence
 * computation of the recurring-task engine (`calculateNextOccurrence`).
 */
module Recurrence {
  import opened Wrappers
  import opened Calendar

  type TaskId = int

  /**
   * The `recurrence_type` column. 'custom' and any other text are `Other`;
   * the name of an `Other` is never one of 'none', 'daily', 'weekly',
   * 'monthly' or 'yearly', which have their own constructors
   * (so an `Other` row is selected by the pass exactly as the query selects it).
   */
  datatype Kind = NoRecurrence | Daily | Weekly | Monthly | Yearly | Other(name: string)

  /**
   * A row of the `tasks` table. `subtasks` and `details` are the stored JSON
   * texts; `dateAdded` and the recurrence dates are calendar days.
   */
  datatype TaskRow = TaskRow(
    title: string,
    completed: bool,
    isMainTask: bool,
    subtasks: string,
    dateAdded: Day,
    completedAt: Option<string>,
    mainTaskId: Option<TaskId>,
    parentId: Option<TaskId>,
    kind: Kind,
    interval: nat,
    details: string,
    originalTaskId: Option<TaskId>,
    nextOccurrence: Option<Day>,
    endRecurrence: Option<Day>)

  /** The kinds that have a case in the engine's `switch`. */
  predicate Recognised(k: Kind) {
    k.Daily? || k.Weekly? || k.Monthly? || k.Yearly?
  }

  /** `recurrence_interval || 1`: a zero interval counts as one. */
  function EffectiveInterval(n: nat): (r: nat)
    ensures r >= 1 && (n >= 1 ==> r == n) && (n == 0 ==> r == 1)
  {
    if n == 0 then 1 else n
  }

  /** One step of the rule from date `d`. */
  function Advance(kind: Kind, interval: nat, d: Day): (r: Day)
    requires Recognised(kind)
    ensures r > d
  {
    var n := EffectiveInterval(interval);
    match kind
    case Daily => AddDays(d, n)
    case Weekly => AddWeeks(d, n)
    case Monthly => AddMonths(d, n)
    case Yearly => AddYears(d, n)
  }

  /** Stepping from `d` while the date is not after `today`: the first date of the rule after today. */
  function Roll(kind: Kind, interval: nat, d: Day, today: Day): (r: Day)
    requires Recognised(kind)
    ensures r > today && r >= d
    decreases today - d
  {
    if d > today then d else Roll(kind, interval, Advance(kind, interval, d), today)
  }

  /** `next_occurrence_date || dateAdded`: where the computation starts. */
  function BaseDate(t: TaskRow): Day {
    t.nextOccurrence.GetOr(t.dateAdded)
  }

  /**
   * The next occurrence of `t` seen on day `today`, or `None` (JavaScript `null`).
   * A base date already after today leaves the loop unentered and the result null;
   * a kind without a case is null; a date after the end date is null, one equal to
   * it is kept.
   */
  function NextOccurrence(t: TaskRow, today: Day): Option<Day> {
    var base := BaseDate(t);
    if base > today || !Recognised(t.kind) then None
    else
      var d := Roll(t.kind, t.interval, base, today);
      if t.endRecurrence.Some? && d > t.endRecurrence.value then None else Some(d)
  }

  /** `calculateNextOccurrence(task)` on day `today`. */
  method CalculateNextOccurrence(t: TaskRow, today: Day) returns (next: Option<Day>)
    ensures next == NextOccurrence(t, today)
  {
    var base := BaseDate(t);
    var last := base;
    var nextDate: Option<Day> := None;
    while last <= today
      invariant nextDate.None? ==> last == base
      invariant nextDate.Some? ==> nextDate.value == last && base <= today && Recognised(t.kind)
      invariant nextDate.Some? ==> Roll(t.kind, t.interval, last, today) == Roll(t.kind, t.interval, base, today)
      decreases today - last
    {
      var n := EffectiveInterval(t.interval);
      match t.kind {
        case Daily => nextDate := Some(AddDays(last, n));
        case Weekly => nextDate := Some(AddWeeks(last, n));
        case Monthly => nextDate := Some(AddMonths(last, n));
        case Yearly => nextDate := Some(AddYears(last, n));
        case _ => return None;
      }
      last := nextDate.value;
    }
    if t.endRecurrence.Some? {
      // `new Date(null)` is the epoch, day 0
      var candidate := if nextDate.Some? then nextDate.value else 0;
      if candidate > t.endRecurrence.value {
        return None;
      }
    }
    return nextDate;
  }

  // ---------------------------------------------------------------------------
  // Properties of the next occurrence

  /** 'none', 'custom' and every other kind without a case give no next occurrence. */
  lemma UnrecognisedHasNoNext(t: TaskRow, today: Day)
    requires !Recognised(t.kind)
    ensures NextOccurrence(t, today) == None
  {
  }

  /** A next occurrence is strictly after today and not after the end date. */
  lemma NextIsAfterToday(t: TaskRow, today: Day)
    requires NextOccurrence(t, today).Some?
    ensures NextOccurrence(t, today).value > today
    ensures t.endRecurrence.Some? ==> NextOccurrence(t, today).value <= t.endRecurrence.value
  {
  }

  /** The end date cuts off only dates strictly after it: a date equal to it is returned. */
  lemma EndDateCutOff(t: TaskRow, today: Day)
    requires Recognised(t.kind) && BaseDate(t) <= today
    ensures var d := Roll(t.kind, t.interval, BaseDate(t), today);
            NextOccurrence(t, today) == None <==> t.endRecurrence.Some? && d > t.endRecurrence.value
  {
  }

  lemma {:induction false} RollIntervalZero(kind: Kind, d: Day, today: Day)
    requires Recognised(kind)
    ensures Roll(kind, 0, d, today) == Roll(kind, 1, d, today)
    decreases today - d
  {
    if d <= today {
      assert Advance(kind, 0, d) == Advance(kind, 1, d);
      RollIntervalZero(kind, Advance(kind, 1, d), today);
    }
  }

  /** A missing (zero) interval behaves exactly like an interval of one. */
  lemma IntervalZeroIsOne(t: TaskRow, today: Day)
    requires t.interval == 0
    ensures NextOccurrence(t, today) == NextOccurrence(t.(interval := 1), today)
  {
    if Recognised(t.kind) {
      RollIntervalZero(t.kind, BaseDate(t), today);
    }
  }

  /** The fixed step of the daily and weekly rules, in days. */
  function StepDays(kind: Kind, interval: nat): (s: nat)
    requires kind.Daily? || kind.Weekly?
    ensures s >= 1
  {
    if kind.Daily? then EffectiveInterval(interval) else 7 * EffectiveInterval(interval)
  }

  lemma AdvanceByStep(kind: Kind, interval: nat, d: Day)
    requires kind.Daily? || kind.Weekly?
    ensures Advance(kind, interval, d) == d + StepDays(kind, interval)
  {
  }

  /** Stepping by a fixed number of days while the date is not after `today`. */
  function RollBy(step: nat, d: int, today: int): (r: int)
    requires step >= 1
    decreases today - d
  {
    if d > today then d else RollBy(step, d + step, today)
  }

  /** The daily and weekly rules step by a fixed number of days. */
  lemma {:induction false} RollIsRollBy(kind: Kind, interval: nat, d: Day, today: Day)
    requires kind.Daily? || kind.Weekly?
    ensures Roll(kind, interval, d, today) == RollBy(StepDays(kind, interval), d, today)
    decreases today - d
  {
    if d <= today {
      var step := StepDays(kind, interval);
      AdvanceByStep(kind, interval, d);
      RollUnfold(kind, interval, d, today);
      RollByUnfold(step, d, today);
      RollIsRollBy(kind, interval, d + step, today);
      assert Roll(kind, interval, d, today) == Roll(kind, interval, d + step, today);
      assert RollBy(step, d, today) == RollBy(step, d + step, today);
    } else {
      assert Roll(kind, interval, d, today) == d;
      assert RollBy(StepDays(kind, interval), d, today) == d;
    }
  }

  lemma RollByUnfold(step: nat, d: int, today: int)
    requires step >= 1 && d <= today
    ensures RollBy(step, d, today) == RollBy(step, d + step, today)
  {
  }

  /**
   * From a start not after today, the loop does not overshoot: its result is
   * one step of the rule past a date `p`, between the start and today, and
   * `p` is itself a date of the stepping from the start (the start, or where
   * stepping from the start ends once it is past the day before `p`).
   */
  lemma {:induction false} RollIsFirstPastToday(kind: Kind, interval: nat, d: Day, today: Day) returns (p: Day)
    requires Recognised(kind) && d <= today
    ensures d <= p <= today
    ensures p == d || Roll(kind, interval, d, p - 1) == p
    ensures Roll(kind, interval, d, today) == Advance(kind, interval, p)
    decreases today - d
  {
    var a := Advance(kind, interval, d);
    RollUnfold(kind, interval, d, today);
    if a > today {
      p := d;
    } else {
      p := RollIsFirstPastToday(kind, interval, a, today);
      RollUnfold(kind, interval, d, p - 1);
      if p == a {
        assert Roll(kind, interval, a, p - 1) == a;
      }
    }
  }

  lemma RollUnfold(kind: Kind, interval: nat, d: Day, today: Day)
    requires Recognised(kind) && d <= today
    ensures Roll(kind, interval, d, today) == Roll(kind, interval, Advance(kind, interval, d), today)
  {
  }

  /** Stepping from `base <= today` ends at `base + k * step` for the least `k >= 1` past today. */
  lemma {:induction false} RollByIsLeastMultiple(step: nat, base: int, today: int) returns (k: nat)
    requires step >= 1 && base <= today
    ensures k >= 1
    ensures RollBy(step, base, today) == base + k * step
    ensures today < RollBy(step, base, today) && RollBy(step, base, today) - step <= today
    decreases today - base
  {
    if base + step > today {
      k := 1;
    } else {
      var k' := RollByIsLeastMultiple(step, base + step, today);
      k := k' + 1;
      MultiplySucc(k', step);
    }
  }

  /**
   * For the daily and weekly rules the result is `base + k * step` for the least
   * `k >= 1` that passes today: one step back is not after today.
   */
  lemma RollIsLeastMultiple(kind: Kind, interval: nat, base: Day, today: Day) returns (k: nat)
    requires kind.Daily? || kind.Weekly?
    requires base <= today
    ensures k >= 1
    ensures Roll(kind, interval, base, today) == base + k * StepDays(kind, interval)
    ensures Roll(kind, interval, base, today) - StepDays(kind, interval) <= today
  {
    RollIsRollBy(kind, interval, base, today);
    k := RollByIsLeastMultiple(StepDays(kind, interval), base, today);
  }

  lemma MultiplySucc(k: nat, s: nat)
    ensures (k + 1) * s == k * s + s
  {
  }

  /** Daily, interval one, any number of days behind: the next occurrence is tomorrow. */
  lemma {:induction false} DailyCatchUpIsTomorrow(d: Day, today: Day)
    requires d <= today
    ensures Roll(Daily, 1, d, today) == today + 1
    decreases today - d
  {
    assert Advance(Daily, 1, d) == d + 1;
    if d + 1 <= today {
      DailyCatchUpIsTomorrow(d + 1, today);
    }
  }
}
