/**
 * Calendar arithmetic of the recurrence engine.
 *
 * A date is a day number: the number of days since 1970-01-01, which is what a
 * JavaScript `Date` set to midnight stands for. `FromDay` plays the part of
 * `getFullYear`/`getMonth`/`getDate`, and `MakeDay` the part of the `Date`
 * setters, which accept an out-of-range month or day and carry the excess
 * forward (a 31st in a 30-day month becomes the 1st of the next month).
 * `AddDays`, `AddWeeks`, `AddMonths` and `AddYears` are the helpers of the
 * server, written the way they are written there: read the civil fields,
 * shift one of them, rebuild the date.
 */
module Calendar {

  /** Days since 1970-01-01 (the epoch); earlier dates are not modelled. */
  type Day = nat

  const Epoch: int := 1970

  /** A civil (proleptic Gregorian) date with a 1-based month. */
  datatype Civil = Civil(year: int, month: int, day: int)

  predicate IsLeap(y: int) {
    y % 4 == 0 && (y % 100 != 0 || y % 400 == 0)
  }

  function DaysInYear(y: int): int {
    if IsLeap(y) then 366 else 365
  }

  function DaysInMonth(y: int, m: int): int
    requires 1 <= m <= 12
  {
    if m == 2 then (if IsLeap(y) then 29 else 28)
    else if m == 4 || m == 6 || m == 9 || m == 11 then 30
    else 31
  }

  /** Days of year `y` that lie before the first of month `m` (13 stands for the year's end). */
  function DaysBeforeMonth(y: int, m: int): int
    requires 1 <= m <= 13
  {
    var common :=
      if m <= 6 then
        (if m == 1 then 0 else if m == 2 then 31 else if m == 3 then 59
         else if m == 4 then 90 else if m == 5 then 120 else 151)
      else
        (if m == 7 then 181 else if m == 8 then 212 else if m == 9 then 243
         else if m == 10 then 273 else if m == 11 then 304 else if m == 12 then 334 else 365);
    common + (if m > 2 && IsLeap(y) then 1 else 0)
  }

  /** Days from the epoch to the first of January of year `y`. */
  function DaysBeforeYear(y: int): nat
    requires y >= Epoch
    decreases y - Epoch
  {
    if y == Epoch then 0 else DaysBeforeYear(y - 1) + DaysInYear(y - 1)
  }

  predicate ValidCivil(c: Civil) {
    c.year >= Epoch && 1 <= c.month <= 12 && 1 <= c.day <= DaysInMonth(c.year, c.month)
  }

  /** The day number of a civil date. */
  function ToDay(c: Civil): Day
    requires ValidCivil(c)
  {
    DaysBeforeYear(c.year) + DaysBeforeMonth(c.year, c.month) + c.day - 1
  }

  lemma DaysBeforeMonthNext(y: int, m: int)
    requires 1 <= m <= 12
    ensures DaysBeforeMonth(y, m + 1) == DaysBeforeMonth(y, m) + DaysInMonth(y, m)
  {
  }

  /** The civil date that lies `n` days into month `m` of year `y` or later in that year. */
  function FromMonth(y: int, m: int, n: nat): (c: Civil)
    requires y >= Epoch && 1 <= m <= 12
    requires DaysBeforeMonth(y, m) + n < DaysInYear(y)
    ensures ValidCivil(c) && c.year == y && m <= c.month
    ensures ToDay(c) == DaysBeforeYear(y) + DaysBeforeMonth(y, m) + n
    decreases 12 - m
  {
    DaysBeforeMonthNext(y, m);
    if n < DaysInMonth(y, m) then Civil(y, m, n + 1)
    else FromMonth(y, m + 1, n - DaysInMonth(y, m))
  }

  /** The civil date that lies `n` days after the first of January of year `y`. */
  function FromYear(y: int, n: nat): (c: Civil)
    requires y >= Epoch
    ensures ValidCivil(c) && c.year >= y
    ensures ToDay(c) == DaysBeforeYear(y) + n
    decreases n
  {
    if n < DaysInYear(y) then FromMonth(y, 1, n)
    else FromYear(y + 1, n - DaysInYear(y))
  }

  /** The civil date of a day number (`getFullYear`, `getMonth() + 1`, `getDate()`). */
  function FromDay(d: Day): (c: Civil)
    ensures ValidCivil(c) && ToDay(c) == d
  {
    FromYear(Epoch, d)
  }

  lemma {:induction false} DaysBeforeYearGrows(y1: int, y2: int)
    requires Epoch <= y1 < y2
    ensures DaysBeforeYear(y1) + DaysInYear(y1) <= DaysBeforeYear(y2)
    decreases y2 - y1
  {
    if y1 + 1 < y2 {
      DaysBeforeYearGrows(y1, y2 - 1);
    }
  }

  /** Every date of year `y` lies between the year's first day and the next year's first day. */
  lemma ToDayWithinYear(c: Civil)
    requires ValidCivil(c)
    ensures DaysBeforeYear(c.year) <= ToDay(c) < DaysBeforeYear(c.year) + DaysInYear(c.year)
  {
  }

  /** Distinct civil dates have distinct day numbers. */
  lemma ToDayInjective(a: Civil, b: Civil)
    requires ValidCivil(a) && ValidCivil(b) && ToDay(a) == ToDay(b)
    ensures a == b
  {
    ToDayWithinYear(a);
    ToDayWithinYear(b);
    if a.year < b.year {
      DaysBeforeYearGrows(a.year, b.year);
    } else if b.year < a.year {
      DaysBeforeYearGrows(b.year, a.year);
    }
    assert a.year == b.year;
  }

  /** Reading the civil fields of a date and rebuilding it gives the same civil date. */
  lemma FromDayToDay(c: Civil)
    requires ValidCivil(c)
    ensures FromDay(ToDay(c)) == c
  {
    ToDayInjective(FromDay(ToDay(c)), c);
  }

  // ---------------------------------------------------------------------------
  // Month indices and MakeDay

  /** The year of month index `mi` (months counted from January 1970). */
  function YearOf(mi: nat): int { Epoch + mi / 12 }

  /** The 1-based month of month index `mi`. */
  function MonthOf(mi: nat): int { mi % 12 + 1 }

  function MonthIndex(c: Civil): int {
    (c.year - Epoch) * 12 + c.month - 1
  }

  /** The day number of the first day of month index `mi`. */
  function FirstOfMonth(mi: nat): Day {
    ToDay(Civil(YearOf(mi), MonthOf(mi), 1))
  }

  lemma FirstOfMonthNext(mi: nat)
    ensures FirstOfMonth(mi + 1) == FirstOfMonth(mi) + DaysInMonth(YearOf(mi), MonthOf(mi))
  {
    if MonthOf(mi) < 12 {
      assert YearOf(mi + 1) == YearOf(mi) && MonthOf(mi + 1) == MonthOf(mi) + 1;
      DaysBeforeMonthNext(YearOf(mi), MonthOf(mi));
    } else {
      assert YearOf(mi + 1) == YearOf(mi) + 1 && MonthOf(mi + 1) == 1;
    }
  }

  /** Each month is at least 28 days after the previous one. */
  lemma {:induction false} FirstOfMonthGrows(mi: nat, k: nat)
    ensures FirstOfMonth(mi + k) >= FirstOfMonth(mi) + 28 * k
    decreases k
  {
    if k > 0 {
      FirstOfMonthGrows(mi, k - 1);
      FirstOfMonthNext(mi + k - 1);
    }
  }

  /**
   * ECMAScript's MakeDay for a year, a 0-based month that may exceed 11 and a day
   * that may exceed the month's length: the first day of the (carried) month plus
   * `day - 1` days, with no clamping.
   */
  function MakeDay(year: int, month0: nat, day: int): Day
    requires year >= Epoch && day >= 1
  {
    FirstOfMonth((year - Epoch) * 12 + month0) + day - 1
  }

  lemma MakeDayOfCivil(c: Civil)
    requires ValidCivil(c)
    ensures MakeDay(c.year, c.month - 1, c.day) == ToDay(c)
  {
    var mi := (c.year - Epoch) * 12 + c.month - 1;
    assert YearOf(mi) == c.year && MonthOf(mi) == c.month;
  }

  // ---------------------------------------------------------------------------
  // The server's date helpers

  /** `result.setDate(result.getDate() + days)`. */
  function AddDays(d: Day, days: nat): (r: Day)
    ensures r == d + days
  {
    var c := FromDay(d);
    MakeDayOfCivil(c);
    MakeDay(c.year, c.month - 1, c.day + days)
  }

  /** `result.setDate(result.getDate() + weeks * 7)`: exactly seven days per week. */
  function AddWeeks(d: Day, weeks: nat): (r: Day)
    ensures r == d + 7 * weeks
  {
    var c := FromDay(d);
    MakeDayOfCivil(c);
    MakeDay(c.year, c.month - 1, c.day + weeks * 7)
  }

  /** `result.setMonth(result.getMonth() + months)`: the day of the month is kept, not clamped. */
  function AddMonths(d: Day, months: nat): (r: Day)
    ensures months >= 1 ==> r > d
  {
    var c := FromDay(d);
    MakeDayOfCivil(c);
    FirstOfMonthGrows(MonthIndex(c), months);
    MakeDay(c.year, c.month - 1 + months, c.day)
  }

  /** `result.setFullYear(result.getFullYear() + years)`: month and day kept, not clamped. */
  function AddYears(d: Day, years: nat): (r: Day)
    ensures years >= 1 ==> r > d
  {
    var c := FromDay(d);
    MakeDayOfCivil(c);
    FirstOfMonthGrows(MonthIndex(c), 12 * years);
    MakeDay(c.year + years, c.month - 1, c.day)
  }

  // ---------------------------------------------------------------------------
  // What the month and year helpers do to the civil date

  /** The date `MakeDay` builds from month index `mi` and a day of at most 31. */
  function Carried(mi: nat, day: int): Civil
    requires 1 <= day <= 31
  {
    var len := DaysInMonth(YearOf(mi), MonthOf(mi));
    if day <= len then Civil(YearOf(mi), MonthOf(mi), day)
    else Civil(YearOf(mi + 1), MonthOf(mi + 1), day - len)
  }

  /**
   * A day that fits the target month is kept; one that does not spills into the
   * following month by the excess (never clamped to the month's last day).
   */
  lemma MakeDayCarries(mi: nat, day: int)
    requires 1 <= day <= 31
    ensures ValidCivil(Carried(mi, day))
    ensures FromDay(FirstOfMonth(mi) + day - 1) == Carried(mi, day)
  {
    var len := DaysInMonth(YearOf(mi), MonthOf(mi));
    if day <= len {
      DayWithinMonth(mi, day);
    } else {
      FirstOfMonthNext(mi);
      assert FirstOfMonth(mi) + day - 1 == FirstOfMonth(mi + 1) + (day - len) - 1;
      assert 1 <= day - len <= 3;
      DayWithinMonth(mi + 1, day - len);
      assert Carried(mi, day) == Civil(YearOf(mi + 1), MonthOf(mi + 1), day - len);
    }
  }

  /** Day `day` of the month with index `mi`, for a day that month has (any day up to 28). */
  lemma DayWithinMonth(mi: nat, day: int)
    requires 1 <= day && (day <= 28 || day <= DaysInMonth(YearOf(mi), MonthOf(mi)))
    ensures ValidCivil(Civil(YearOf(mi), MonthOf(mi), day))
    ensures FromDay(FirstOfMonth(mi) + day - 1) == Civil(YearOf(mi), MonthOf(mi), day)
  {
    var c := Civil(YearOf(mi), MonthOf(mi), day);
    var n := FirstOfMonth(mi) + day - 1;
    assert ToDay(c) == n;
    FromDayToDay(c);
    assert FromDay(ToDay(c)) == c;
  }

  lemma AddMonthsMakesDay(d: Day, months: nat)
    ensures var c := FromDay(d);
            AddMonths(d, months) == FirstOfMonth(MonthIndex(c) + months) + c.day - 1
  {
  }

  lemma AddYearsMakesDay(d: Day, years: nat)
    ensures var c := FromDay(d);
            AddYears(d, years) == FirstOfMonth(MonthIndex(c) + 12 * years) + c.day - 1
  {
    var c := FromDay(d);
    assert (c.year + years - Epoch) * 12 + c.month - 1 == MonthIndex(c) + 12 * years;
  }

  /** `AddMonths` keeps the day of the month, or rolls the excess into the month after the target. */
  lemma AddMonthsCivil(d: Day, months: nat)
    ensures var c := FromDay(d);
            FromDay(AddMonths(d, months)) == Carried(MonthIndex(c) + months, c.day)
  {
    var c := FromDay(d);
    AddMonthsMakesDay(d, months);
    MakeDayCarries(MonthIndex(c) + months, c.day);
  }

  /** `AddYears` keeps month and day, or rolls 29 February into 1 March. */
  lemma AddYearsCivil(d: Day, years: nat)
    ensures var c := FromDay(d);
            FromDay(AddYears(d, years)) == Carried(MonthIndex(c) + 12 * years, c.day)
  {
    var c := FromDay(d);
    AddYearsMakesDay(d, years);
    MakeDayCarries(MonthIndex(c) + 12 * years, c.day);
  }

  /** One month after 31 January is in March: the 2nd in a leap year, the 3rd otherwise. */
  lemma JanuaryThirtyFirstPlusOneMonth(y: int)
    requires y >= Epoch
    ensures FromDay(AddMonths(ToDay(Civil(y, 1, 31)), 1)) == Civil(y, 3, if IsLeap(y) then 2 else 3)
  {
    var c := Civil(y, 1, 31);
    FromDayToDay(c);
    AddMonthsCivil(ToDay(c), 1);
    assert YearOf(MonthIndex(c) + 1) == y && MonthOf(MonthIndex(c) + 1) == 2;
    assert YearOf(MonthIndex(c) + 2) == y && MonthOf(MonthIndex(c) + 2) == 3;
  }

  /** One year after 29 February is 1 March. */
  lemma LeapDayPlusOneYear(y: int)
    requires y >= Epoch && IsLeap(y)
    ensures FromDay(AddYears(ToDay(Civil(y, 2, 29)), 1)) == Civil(y + 1, 3, 1)
  {
    var c := Civil(y, 2, 29);
    FromDayToDay(c);
    AddYearsCivil(ToDay(c), 1);
    assert YearOf(MonthIndex(c) + 12) == y + 1 && MonthOf(MonthIndex(c) + 12) == 2;
    assert YearOf(MonthIndex(c) + 13) == y + 1 && MonthOf(MonthIndex(c) + 13) == 3;
    assert !IsLeap(y + 1);
  }
}
