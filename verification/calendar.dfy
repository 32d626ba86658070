/** CalendarDateToDayIndex (datetime_util.cc): the closed-form day index against a count of days. */
module Calendar {

  const DAYS_PER_ERA: nat := 146097
  const EPOCH_OFFSET: nat := 146097 * 5 - 30 * 365 - 8 - 59
  const INVALID_INDEX: nat := 0xFFFF_FFFF
  const EPOCH_YEAR: nat := 1970
  const MAX_YEAR: nat := 10000

  datatype Date = Date(year: nat, month: nat, day: nat)

  // ---------------------------------------------------------------- The closed form

  /** The days of the years before March of the given (March-based) year, counted from March of year 0. */
  function EraDays(year: nat): nat {
    var era := year / 400;
    var yoe := year - era * 400;
    era * DAYS_PER_ERA + (yoe * 365 + yoe / 4 - yoe / 100)
  }

  function ClosedForm(date: Date): int {
    var year := date.year - (if date.month <= 2 then 1 else 0);
    if year < 0 then 0
    else
      var doy := (153 * (date.month + (if date.month > 2 then -3 else 9)) + 2) / 5 + date.day - 1;
      EraDays(year) + doy - EPOCH_OFFSET
  }

  predicate Accepted(date: Date) {
    EPOCH_YEAR <= date.year < MAX_YEAR && 1 <= date.month <= 12 && 1 <= date.day <= 31
  }

  function CalendarDateToDayIndex(date: Date): int {
    if !Accepted(date) then INVALID_INDEX else ClosedForm(date)
  }

  // ---------------------------------------------------------------- Counting days

  predicate IsLeap(year: nat) { year % 4 == 0 && (year % 100 != 0 || year % 400 == 0) }

  function Leap(year: nat): nat { if IsLeap(year) then 1 else 0 }

  function MonthLength(year: nat, month: nat): nat {
    if month == 2 then 28 + Leap(year)
    else if month == 4 || month == 6 || month == 9 || month == 11 then 30
    else 31
  }

  /** The days from 1970-01-01 to January 1 of a year. */
  function DaysBeforeYear(year: nat): nat {
    if year <= EPOCH_YEAR then 0 else DaysBeforeYear(year - 1) + 365 + Leap(year - 1)
  }

  /** The days of a year before the first of a month. */
  function DaysBeforeMonth(year: nat, month: nat): nat {
    if month <= 1 then 0 else DaysBeforeMonth(year, month - 1) + MonthLength(year, month - 1)
  }

  function DayCount(date: Date): int { DaysBeforeYear(date.year) + DaysBeforeMonth(date.year, date.month) + date.day - 1 }

  /** A date of the calendar, from 1970 on, with no upper bound on the year. */
  predicate Valid(date: Date) {
    EPOCH_YEAR <= date.year && 1 <= date.month <= 12 && 1 <= date.day <= MonthLength(date.year, date.month)
  }

  // ---------------------------------------------------------------- They agree

  /** Dividing by the era and counting within it is counting leap years by 4, 100 and 400. */
  lemma EraDaysFlat(year: nat)
    ensures EraDays(year) == 365 * year + year / 4 - year / 100 + year / 400
  {
    var era, yoe := year / 400, year % 400;
    assert year == 400 * era + yoe;
    assert year / 4 == 100 * era + yoe / 4;
    assert year / 100 == 4 * era + yoe / 100;
  }

  lemma NextYear(year: nat)
    ensures EraDays(year + 1) == EraDays(year) + 365 + Leap(year + 1)
  {
    EraDaysFlat(year);
    EraDaysFlat(year + 1);
    LeapStep(year);
  }

  /** Counting by 4, 100 and 400 goes up by one exactly at a leap year. */
  lemma LeapStep(year: nat)
    ensures (year + 1) / 4 - (year + 1) / 100 + (year + 1) / 400 == year / 4 - year / 100 + year / 400 + Leap(year + 1)
  {
    QuotientStep(year, 4);
    QuotientStep(year, 100);
    QuotientStep(year, 400);
    Divisors(year + 1);
  }

  lemma Divisors(n: nat)
    ensures n % 400 == 0 ==> n % 100 == 0
    ensures n % 100 == 0 ==> n % 4 == 0
  {
    if n % 400 == 0 {
      assert n == 100 * (4 * (n / 400));
    }
    if n % 100 == 0 {
      assert n == 4 * (25 * (n / 100));
    }
  }

  lemma QuotientStep(n: nat, d: nat)
    requires d in {4, 100, 400}
    ensures (n + 1) / d == n / d + if (n + 1) % d == 0 then 1 else 0
  {
  }

  lemma {:induction false} YearsAgree(year: nat)
    requires EPOCH_YEAR <= year
    ensures DaysBeforeYear(year) == EraDays(year - 1) + 306 - EPOCH_OFFSET
  {
    if year == EPOCH_YEAR {
      assert EraDays(1969) == 4 * DAYS_PER_ERA + 369 * 365 + 92 - 3;
    } else {
      YearsAgree(year - 1);
      NextYear(year - 2);
    }
  }

  /** The days before each month, as a table. */
  lemma MonthsTable(year: nat, month: nat)
    requires 1 <= month <= 12
    ensures DaysBeforeMonth(year, month) ==
            if month <= 2 then 31 * (month - 1) else (153 * (month - 3) + 2) / 5 + 59 + Leap(year)
  {
    MonthsStep(year, 1);
    MonthsStep(year, 2);
    MonthsStep(year, 3);
    MonthsStep(year, 4);
    MonthsStep(year, 5);
    MonthsStep(year, 6);
    MonthsStep(year, 7);
    MonthsStep(year, 8);
    MonthsStep(year, 9);
    MonthsStep(year, 10);
    MonthsStep(year, 11);
  }

  lemma MonthsStep(year: nat, month: nat)
    requires 1 <= month
    ensures DaysBeforeMonth(year, month + 1) == DaysBeforeMonth(year, month) + MonthLength(year, month)
    ensures DaysBeforeMonth(year, 1) == 0
  {
  }

  /** For every month of every year from 1970 on, and any day number, the closed form is the count of days since
      1970-01-01. */
  lemma ClosedFormCountsDays(date: Date)
    requires EPOCH_YEAR <= date.year && 1 <= date.month <= 12
    ensures ClosedForm(date) == DayCount(date)
  {
    MonthsTable(date.year, date.month);
    YearsAgree(date.year);
    NextYear(date.year - 1);
  }

  lemma IndexCountsDays(date: Date)
    requires Valid(date) && date.year < MAX_YEAR
    ensures CalendarDateToDayIndex(date) == DayCount(date)
  {
    ClosedFormCountsDays(date);
  }

  // ---------------------------------------------------------------- Consecutive days

  /** The calendar day after a date. */
  function NextDay(date: Date): Date {
    if date.day < MonthLength(date.year, date.month) then date.(day := date.day + 1)
    else if date.month < 12 then Date(date.year, date.month + 1, 1)
    else Date(date.year + 1, 1, 1)
  }

  lemma NextDayCount(date: Date)
    requires Valid(date)
    ensures Valid(NextDay(date)) && DayCount(NextDay(date)) == DayCount(date) + 1
  {
    MonthsStep(date.year, date.month);
    if date.month == 12 {
      MonthsTable(date.year, 12);
    }
  }

  lemma NextDayIsOneMore(date: Date)
    requires Valid(date)
    ensures Valid(NextDay(date)) && ClosedForm(NextDay(date)) == ClosedForm(date) + 1
  {
    NextDayCount(date);
    ClosedFormCountsDays(date);
    ClosedFormCountsDays(NextDay(date));
  }

  /** Every index is the index of a date. */
  lemma {:induction false} DateOf(index: nat) returns (date: Date)
    ensures Valid(date) && ClosedForm(date) == index
  {
    if index == 0 {
      date := Date(1970, 1, 1);
      ClosedFormCountsDays(date);
    } else {
      var before := DateOf(index - 1);
      NextDayIsOneMore(before);
      date := NextDay(before);
    }
  }

  /** A valid date lies within its month, and its month within its year. */
  lemma WithinYear(date: Date)
    requires Valid(date)
    ensures DaysBeforeYear(date.year) <= DayCount(date) < DaysBeforeYear(date.year + 1)
    ensures DayCount(date) - DaysBeforeYear(date.year) < DaysBeforeMonth(date.year, date.month + 1)
  {
    MonthsStep(date.year, date.month);
    MonthsMonotone(date.year, date.month + 1, 13);
    MonthsTable(date.year, 12);
    MonthsStep(date.year, 12);
  }

  lemma {:induction false} MonthsMonotone(year: nat, m: nat, n: nat)
    requires m <= n
    ensures DaysBeforeMonth(year, m) <= DaysBeforeMonth(year, n)
  {
    if m < n {
      MonthsMonotone(year, m, n - 1);
    }
  }

  lemma {:induction false} YearsMonotone(y: nat, z: nat)
    requires y <= z
    ensures DaysBeforeYear(y) <= DaysBeforeYear(z)
  {
    if y < z {
      YearsMonotone(y, z - 1);
    }
  }

  predicate Earlier(d: Date, e: Date) {
    d.year < e.year || (d.year == e.year && (d.month < e.month || (d.month == e.month && d.day < e.day)))
  }

  lemma CountFollowsCalendar(d: Date, e: Date)
    requires Valid(d) && Valid(e) && Earlier(d, e)
    ensures DayCount(d) < DayCount(e)
  {
    WithinYear(d);
    WithinYear(e);
    if d.year < e.year {
      YearsMonotone(d.year + 1, e.year);
    } else if d.month < e.month {
      MonthsMonotone(d.year, d.month + 1, e.month);
    }
  }

  /** Later dates have larger indices; in particular two dates with the same index are the same date. */
  lemma IndexFollowsCalendar(d: Date, e: Date)
    requires Valid(d) && Valid(e)
    ensures Earlier(d, e) <==> ClosedForm(d) < ClosedForm(e)
    ensures ClosedForm(d) == ClosedForm(e) ==> d == e
  {
    ClosedFormCountsDays(d);
    ClosedFormCountsDays(e);
    if Earlier(d, e) {
      CountFollowsCalendar(d, e);
    } else if d != e {
      CountFollowsCalendar(e, d);
    }
  }

  /** The guard also lets through day numbers that the month does not have; those share their index with a later date. */
  lemma OverlongMonth(date: Date)
    requires Accepted(date) && MonthLength(date.year, date.month) < date.day && date.month < 12
    ensures var later := Date(date.year, date.month + 1, date.day - MonthLength(date.year, date.month));
            Valid(later) && CalendarDateToDayIndex(date) == CalendarDateToDayIndex(later)
  {
    var later := Date(date.year, date.month + 1, date.day - MonthLength(date.year, date.month));
    ClosedFormCountsDays(date);
    ClosedFormCountsDays(later);
    MonthsStep(date.year, date.month);
  }

  /** 30 February 1970 is taken for 2 March. */
  lemma ThirtiethOfFebruary()
    ensures !Valid(Date(1970, 2, 30)) && CalendarDateToDayIndex(Date(1970, 2, 30)) == CalendarDateToDayIndex(Date(1970, 3, 2)) == 60
  {
    OverlongMonth(Date(1970, 2, 30));
  }

  /** The index is the invalid one for exactly the dates outside the guard; others get a day from 1970 on. */
  lemma InvalidExactly(date: Date)
    ensures CalendarDateToDayIndex(date) == 0xFFFF_FFFF <==>
            date.year < 1970 || 10000 <= date.year || date.month < 1 || 12 < date.month || date.day < 1 || 31 < date.day
    ensures 0 <= CalendarDateToDayIndex(date) <= 0xFFFF_FFFF
  {
    if Accepted(date) {
      ClosedFormCountsDays(date);
      EraDaysFlat(date.year - if date.month <= 2 then 1 else 0);
    }
  }
}
