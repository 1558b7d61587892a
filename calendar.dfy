/** Calendar arithmetic on proleptic Gregorian dates, as the repository's
    extensions of the JavaScript Date type perform it.  Months are zero-based
    (January is 0), as in JavaScript; days of the month start at 1. */
module Calendar {

  /** A calendar date: year, zero-based month and day of the month. */
  datatype Date = Date(year: int, month: int, day: int)

  function Min(a: int, b: int): int
  {
    if a <= b then a else b
  }

  /** Gregorian leap-year rule.  JavaScript's `%` truncates toward zero and
      Dafny's is Euclidean, but the two agree on whether the remainder is 0. */
  predicate IsLeapYear(year: int)
    ensures IsLeapYear(year) ==> year % 4 == 0
    ensures year % 100 != 0 ==> (IsLeapYear(year) <==> year % 4 == 0)
    ensures year % 100 == 0 ==> (IsLeapYear(year) <==> year % 400 == 0)
  {
    (year % 4 == 0 && year % 100 != 0) || year % 400 == 0
  }

  /** Number of days of a zero-based month. */
  function DaysInMonth(year: int, month: int): (r: int)
    requires 0 <= month < 12
    ensures 28 <= r <= 31
  {
    if month == 1 then (if IsLeapYear(year) then 29 else 28)
    else if month == 3 || month == 5 || month == 8 || month == 10 then 30
    else 31
  }

  /** February has 29 days in leap years and 28 otherwise; of the other
      months, April, June, September and November have 30 days and the rest
      31. */
  lemma DaysInMonthTable(year: int, month: int)
    requires 0 <= month < 12
    ensures month == 1 ==> (DaysInMonth(year, month) == 29 <==> IsLeapYear(year))
    ensures month == 1 ==> (DaysInMonth(year, month) == 28 <==> !IsLeapYear(year))
    ensures DaysInMonth(year, month) == 31 <==> month in {0, 2, 4, 6, 7, 9, 11}
    ensures DaysInMonth(year, month) == 30 <==> month in {3, 5, 8, 10}
  {
  }

  function DaysInYear(year: int): int
  {
    if IsLeapYear(year) then 366 else 365
  }

  /** A date that names an existing day. */
  predicate ValidDate(d: Date)
  {
    0 <= d.month < 12 && 1 <= d.day <= DaysInMonth(d.year, d.month)
  }

  /** Months counted from January of year 0. */
  function MonthIndex(d: Date): int
  {
    12 * d.year + d.month
  }

  /** Days from 1 January of year 0 to 1 January of `year`. */
  function DaysBeforeYear(year: int): int
  {
    365 * year + (year + 3) / 4 - (year + 99) / 100 + (year + 399) / 400
  }

  /** Days from 1 January of `year` to the first day of the zero-based `month`. */
  function DaysBeforeMonth(year: int, month: int): int
    requires 0 <= month <= 12
  {
    [0, 31, 59, 90, 120, 151, 181, 212, 243, 273, 304, 334, 365][month]
      + (if month >= 2 && IsLeapYear(year) then 1 else 0)
  }

  /** The ordinal of a day: consecutive days have consecutive numbers. */
  function DayNumber(d: Date): int
    requires ValidDate(d)
  {
    DaysBeforeYear(d.year) + DaysBeforeMonth(d.year, d.month) + d.day - 1
  }

  /** Integer division by 4, 100 and 400 as the leap-year count uses it:
      one more multiple of `n` lies below `y + n` than below `y + n - 1`
      exactly when `n` divides `y`. */
  lemma DivStep4(y: int)
    ensures (y + 4) / 4 == y / 4 + 1
    ensures (y + 3) / 4 == y / 4 + (if y % 4 == 0 then 0 else 1)
  {
  }

  lemma DivStep100(y: int)
    ensures (y + 100) / 100 == y / 100 + 1
    ensures (y + 99) / 100 == y / 100 + (if y % 100 == 0 then 0 else 1)
  {
  }

  lemma DivStep400(y: int)
    ensures (y + 400) / 400 == y / 400 + 1
    ensures (y + 399) / 400 == y / 400 + (if y % 400 == 0 then 0 else 1)
  {
  }

  /** Every multiple of 400 is a multiple of 100. */
  lemma MultipleOf400(y: int)
    requires y % 400 == 0
    ensures y % 100 == 0
  {
    var q := y / 400;
    assert y == 100 * (4 * q);
  }

  /** Every multiple of 100 is a multiple of 4. */
  lemma MultipleOf100(y: int)
    requires y % 100 == 0
    ensures y % 4 == 0
  {
    var q := y / 100;
    assert y == 4 * (25 * q);
  }

  lemma DaysBeforeYearStep(year: int)
    ensures DaysBeforeYear(year + 1) == DaysBeforeYear(year) + DaysInYear(year)
  {
    if year % 400 == 0 {
      MultipleOf400(year);
    }
    if year % 100 == 0 {
      MultipleOf100(year);
    }
    DivStep4(year);
    DivStep100(year);
    DivStep400(year);
  }

  lemma DaysBeforeMonthStep(year: int, month: int)
    requires 0 <= month < 12
    ensures DaysBeforeMonth(year, month + 1) == DaysBeforeMonth(year, month) + DaysInMonth(year, month)
  {
  }

  /** The leap-year pattern repeats every 400 years, and a 400-year cycle
      has 146097 days. */
  lemma {:induction false} LeapYearCycle(year: int)
    ensures IsLeapYear(year + 400) == IsLeapYear(year)
    ensures DaysBeforeYear(year + 400) == DaysBeforeYear(year) + 146097
  {
    ShiftByMultiple(year, 4, 100);
    ShiftByMultiple(year + 3, 4, 100);
    ShiftByMultiple(year, 100, 4);
    ShiftByMultiple(year + 99, 100, 4);
    ShiftByMultiple(year, 400, 1);
    ShiftByMultiple(year + 399, 400, 1);
  }

  lemma ShiftByMultiple(x: int, n: int, k: int)
    requires (n == 4 && k == 100) || (n == 100 && k == 4) || (n == 400 && k == 1)
    ensures (x + n * k) / n == x / n + k
    ensures (x + n * k) % n == x % n
  {
    if n == 4 {
      assert (x + 400) / 4 == x / 4 + 100;
    } else if n == 100 {
      assert (x + 400) / 100 == x / 100 + 4;
    }
  }

  /** The day after a valid date. */
  function NextDay(d: Date): (r: Date)
    requires ValidDate(d)
    ensures ValidDate(r)
    ensures DayNumber(r) == DayNumber(d) + 1
  {
    DaysBeforeMonthStep(d.year, d.month);
    if d.day < DaysInMonth(d.year, d.month) then Date(d.year, d.month, d.day + 1)
    else if d.month < 11 then Date(d.year, d.month + 1, 1)
    else
      DaysBeforeYearStep(d.year);
      Date(d.year + 1, 0, 1)
  }

  /** The day before a valid date. */
  function PrevDay(d: Date): (r: Date)
    requires ValidDate(d)
    ensures ValidDate(r)
    ensures DayNumber(r) + 1 == DayNumber(d)
  {
    if d.day > 1 then Date(d.year, d.month, d.day - 1)
    else if d.month > 0 then
      DaysBeforeMonthStep(d.year, d.month - 1);
      Date(d.year, d.month - 1, DaysInMonth(d.year, d.month - 1))
    else
      DaysBeforeYearStep(d.year - 1);
      Date(d.year - 1, 11, 31)
  }

  /** The date `days` calendar days after `d` (before it, when negative). */
  function AddDaysTo(d: Date, days: int): (r: Date)
    requires ValidDate(d)
    ensures ValidDate(r)
    ensures DayNumber(r) == DayNumber(d) + days
    decreases if days >= 0 then days else -days
  {
    if days == 0 then d
    else if days > 0 then AddDaysTo(NextDay(d), days - 1)
    else AddDaysTo(PrevDay(d), days + 1)
  }

  /** A valid date lies within its year's days. */
  lemma DayNumberWithinYear(d: Date)
    requires ValidDate(d)
    ensures DaysBeforeYear(d.year) <= DayNumber(d) < DaysBeforeYear(d.year + 1)
  {
    DaysBeforeYearStep(d.year);
    DaysBeforeMonthStep(d.year, d.month);
    assert DaysBeforeMonth(d.year, d.month + 1) <= DaysBeforeMonth(d.year, 12);
  }

  lemma DaysBeforeYearMonotone(a: int, b: int)
    requires a < b
    ensures DaysBeforeYear(a + 1) <= DaysBeforeYear(b)
  {
  }

  lemma DaysBeforeMonthMonotone(year: int, m1: int, m2: int)
    requires 0 <= m1 < m2 <= 12
    ensures DaysBeforeMonth(year, m1 + 1) <= DaysBeforeMonth(year, m2)
  {
  }

  /** Equal day numbers put two valid dates in the same year. */
  lemma SameYear(a: Date, b: Date)
    requires ValidDate(a) && ValidDate(b)
    requires DayNumber(a) == DayNumber(b)
    ensures a.year == b.year
  {
    DayNumberWithinYear(a);
    DayNumberWithinYear(b);
    if a.year < b.year {
      DaysBeforeYearMonotone(a.year, b.year);
    } else if b.year < a.year {
      DaysBeforeYearMonotone(b.year, a.year);
    }
  }

  /** Within one year, equal day numbers put two valid dates in the same
      month. */
  lemma SameMonth(a: Date, b: Date)
    requires ValidDate(a) && ValidDate(b) && a.year == b.year
    requires DayNumber(a) == DayNumber(b)
    ensures a.month == b.month
  {
    DaysBeforeMonthStep(a.year, a.month);
    DaysBeforeMonthStep(b.year, b.month);
    if a.month < b.month {
      DaysBeforeMonthMonotone(a.year, a.month, b.month);
    } else if b.month < a.month {
      DaysBeforeMonthMonotone(a.year, b.month, a.month);
    }
  }

  /** Different valid dates have different day numbers, so a valid date is
      determined by its day number. */
  lemma DayNumberInjective(a: Date, b: Date)
    requires ValidDate(a) && ValidDate(b)
    requires DayNumber(a) == DayNumber(b)
    ensures a == b
  {
    SameYear(a, b);
    SameMonth(a, b);
  }

  /** Whole months later, with the day clamped to the target month. */
  function AddMonthsTo(d: Date, months: int): (r: Date)
    requires ValidDate(d)
    ensures ValidDate(r)
    ensures MonthIndex(r) == MonthIndex(d) + months
    ensures r.day <= d.day
    ensures r.day == d.day || r.day == DaysInMonth(r.year, r.month)
  {
    var total := d.month + months;
    var year := d.year + total / 12;
    var month := total % 12;
    Date(year, month, Min(d.day, DaysInMonth(year, month)))
  }

  /** Adding zero months to a valid date leaves it as it is. */
  lemma AddMonthsZero(d: Date)
    requires ValidDate(d)
    ensures AddMonthsTo(d, 0) == d
  {
  }

  /** Clamping never bites on a day that every month has, so going forward
      and back by the same number of months returns to the same date. */
  lemma {:induction false} AddMonthsRoundTrip(d: Date, months: int)
    requires ValidDate(d) && d.day <= 28
    ensures AddMonthsTo(d, months).day == d.day
    ensures AddMonthsTo(AddMonthsTo(d, months), -months) == d
  {
    var r := AddMonthsTo(d, months);
    var back := AddMonthsTo(r, -months);
    assert MonthIndex(back) == MonthIndex(d);
    assert back.year == d.year by {
      assert 12 * back.year + back.month == 12 * d.year + d.month;
    }
  }

  /** A mutable JavaScript Date object, as far as the repository uses it:
      the calendar fields, and the setters the extensions call. */
  class DateObject {
    var year: int
    var month: int
    var day: int

    ghost predicate Valid()
      reads this
    {
      ValidDate(Value())
    }

    function Value(): Date
      reads this
    {
      Date(year, month, day)
    }

    constructor (d: Date)
      requires ValidDate(d)
      ensures Valid() && Value() == d
    {
      year, month, day := d.year, d.month, d.day;
    }

    /** Date.prototype.isLeapYear */
    predicate IsLeap()
      reads this
    {
      IsLeapYear(year)
    }

    /** Date.prototype.getDaysInMonth */
    function GetDaysInMonth(): int
      reads this
      requires Valid()
    {
      DaysInMonth(year, month)
    }

    /** `setDate(n)`: day `n` of the current month, where a day outside the
        month carries into the neighbouring months: the result is the day
        `n - 1` days after the first of the month. */
    method SetDate(n: int)
      requires Valid()
      modifies this
      ensures Valid()
      ensures DayNumber(Value()) == DayNumber(Date(old(year), old(month), 1)) + n - 1
      ensures 1 <= n <= DaysInMonth(old(year), old(month)) ==> Value() == Date(old(year), old(month), n)
    {
      var d := AddDaysTo(Date(year, month, 1), n - 1);
      if 1 <= n <= DaysInMonth(year, month) {
        DayNumberInjective(d, Date(year, month, n));
      }
      year, month, day := d.year, d.month, d.day;
    }

    /** `setMonth(m)`: month `m` of the current year, where a month outside
        0..11 carries into the year, and a day the new month lacks carries
        into the next month. */
    method SetMonth(m: int)
      requires Valid()
      modifies this
      ensures Valid()
      ensures DayNumber(Value()) == DayNumber(Date(old(year) + m / 12, m % 12, 1)) + old(day) - 1
      ensures old(day) == 1 ==> Value() == Date(old(year) + m / 12, m % 12, 1)
    {
      var d := AddDaysTo(Date(year + m / 12, m % 12, 1), day - 1);
      if day == 1 {
        DayNumberInjective(d, Date(year + m / 12, m % 12, 1));
      }
      year, month, day := d.year, d.month, d.day;
    }

    /** Date.prototype.addMonths: moves this date by whole months, clamping
        the day, and returns the same object. */
    method AddMonths(value: int) returns (r: DateObject)
      requires Valid()
      modifies this
      ensures r == this
      ensures Valid()
      ensures Value() == AddMonthsTo(old(Value()), value)
    {
      var n := day;
      SetDate(1);
      SetMonth(month + value);
      SetDate(Min(n, GetDaysInMonth()));
      r := this;
    }

    /** Date.prototype.addDays: a new date `days` days later; this date is
        left as it is. */
    method AddDays(days: int) returns (r: DateObject)
      requires Valid()
      ensures fresh(r)
      ensures r.Valid()
      ensures r.Value() == AddDaysTo(Value(), days)
    {
      r := new DateObject(Value());
      r.SetDate(r.day + days);
      DayNumberInjective(r.Value(), AddDaysTo(Value(), days));
    }
  }
}
