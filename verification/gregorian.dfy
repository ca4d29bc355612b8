/** The proleptic Gregorian calendar (section 3.2.1 of ISO 8601:2004), the ordinal
    day count from 0001-01-01 and the ISO week calendar (section 3.2.2 of ISO 8601:2004),
    written as the integer functions Python's `datetime.date` computes them with.
    The date, time and date-time models are specified against these functions. */
module Gregorian {

  const MinYear := 1
  const MaxYear := 9999

  /** Ordinal of 9999-12-31, the last representable day. */
  const MaxOrdinal := 3652059

  /** Divisible by 4, and centuries only when divisible by 400. */
  predicate IsLeapYear(year: int) {
    year % 4 == 0 && (year % 100 != 0 || year % 400 == 0)
  }

  function YearLength(year: int): int {
    if IsLeapYear(year) then 366 else 365
  }

  function MonthLength(year: int, month: int): (n: int)
    requires 1 <= month <= 12
    ensures 28 <= n <= 31
    ensures month == 2 ==> (n == 29 <==> IsLeapYear(year)) && (n == 28 <==> !IsLeapYear(year))
    ensures month != 2 ==> 30 <= n
  {
    if month == 2 then (if IsLeapYear(year) then 29 else 28)
    else if month == 4 || month == 6 || month == 9 || month == 11 then 30
    else 31
  }

  /** The day triples Python's `date` accepts. */
  predicate ValidDate(year: int, month: int, day: int) {
    MinYear <= year <= MaxYear && 1 <= month <= 12 && 1 <= day <= MonthLength(year, month)
  }

  /** Days in the months before `month` of `year`; `DaysBeforeMonth(y, 13)` covers the whole year. */
  function DaysBeforeMonth(year: int, month: int): int
    requires 1 <= month <= 13
  {
    if month == 1 then 0 else DaysBeforeMonth(year, month - 1) + MonthLength(year, month - 1)
  }

  /** Cumulative days before each month of a common year, indexed by month (index 0 unused). */
  const CumulativeDays: seq<int> := [0, 0, 31, 59, 90, 120, 151, 181, 212, 243, 273, 304, 334, 365]

  /** The month sums agree with the table form: a common-year table plus one after February in
      a leap year. */
  lemma {:induction false} DaysBeforeMonthTable(year: int, month: int)
    requires 1 <= month <= 13
    ensures DaysBeforeMonth(year, month)
            == CumulativeDays[month] + (if month > 2 && IsLeapYear(year) then 1 else 0)
  {
    if month > 1 {
      DaysBeforeMonthTable(year, month - 1);
    }
  }

  /** The twelve month lengths add up to the year length. */
  lemma MonthsFillYear(year: int)
    ensures DaysBeforeMonth(year, 13) == YearLength(year)
  {
    DaysBeforeMonthTable(year, 13);
  }

  /** A month ends no later than its year does. */
  lemma MonthWithinYear(year: int, month: int)
    requires 1 <= month <= 12
    ensures 0 <= DaysBeforeMonth(year, month)
    ensures DaysBeforeMonth(year, month) + MonthLength(year, month) <= YearLength(year)
  {
    DaysBeforeMonthTable(year, month);
    DaysBeforeMonthTable(year, month + 1);
    MonthsFillYear(year);
  }

  /** Days in the years before `year`, counted from 0001-01-01: the lengths of years
      1 .. year - 1 added up (for a year before 1, the years year .. 0 subtracted). */
  function DaysBeforeYear(year: int): int
    decreases if year < 1 then 1 - year else year - 1
  {
    if year == 1 then 0
    else if year > 1 then DaysBeforeYear(year - 1) + YearLength(year - 1)
    else DaysBeforeYear(year + 1) - YearLength(year)
  }

  /** Python's closed form `_days_before_year`, counting the leap days by the century rule. */
  function DaysBeforeYearClosedForm(year: int): int {
    var n := year - 1;
    n * 365 + n / 4 - n / 100 + n / 400
  }

  lemma QuotientStep4(n: int)
    ensures (n + 1) / 4 == n / 4 + (if (n + 1) % 4 == 0 then 1 else 0)
  {
  }

  lemma QuotientStep100(n: int)
    ensures (n + 1) / 100 == n / 100 + (if (n + 1) % 100 == 0 then 1 else 0)
  {
  }

  lemma QuotientStep400(n: int)
    ensures (n + 1) / 400 == n / 400 + (if (n + 1) % 400 == 0 then 1 else 0)
  {
  }

  lemma CenturyRule(year: int)
    ensures year % 400 == 0 ==> year % 100 == 0
    ensures year % 100 == 0 ==> year % 4 == 0
  {
  }

  /** The closed form grows by exactly the length of each year. */
  lemma ClosedFormStep(year: int)
    ensures DaysBeforeYearClosedForm(year + 1) == DaysBeforeYearClosedForm(year) + YearLength(year)
  {
    var n := year - 1;
    QuotientStep4(n);
    QuotientStep100(n);
    QuotientStep400(n);
    CenturyRule(year);
    var c4 := if year % 4 == 0 then 1 else 0;
    var c100 := if year % 100 == 0 then 1 else 0;
    var c400 := if year % 400 == 0 then 1 else 0;
    assert DaysBeforeYearClosedForm(year + 1) == DaysBeforeYearClosedForm(year) + 365 + c4 - c100 + c400;
  }

  /** Python's closed form agrees with the year-by-year count for every year. */
  lemma {:induction false} DaysBeforeYearFormula(year: int)
    ensures DaysBeforeYear(year) == DaysBeforeYearClosedForm(year)
    decreases if year < 1 then 1 - year else year - 1
  {
    if year > 1 {
      DaysBeforeYearFormula(year - 1);
      ClosedFormStep(year - 1);
    } else if year < 1 {
      DaysBeforeYearFormula(year + 1);
      ClosedFormStep(year);
    }
  }

  /** Each year adds its own length to the count. */
  lemma DaysBeforeYearStep(year: int)
    ensures DaysBeforeYear(year + 1) == DaysBeforeYear(year) + YearLength(year)
  {
  }

  /** Each year adds at least 365 days to the count. */
  lemma {:induction false} DaysBeforeYearIncreasing(a: int, b: int)
    requires a <= b
    ensures DaysBeforeYear(a) + 365 * (b - a) <= DaysBeforeYear(b)
    decreases b - a
  {
    if a < b {
      DaysBeforeYearIncreasing(a, b - 1);
      DaysBeforeYearStep(b - 1);
    }
  }

  /** `MaxOrdinal` is the number of days in years 1 .. 9999. */
  lemma MaxOrdinalValue()
    ensures DaysBeforeYear(MaxYear + 1) == MaxOrdinal
  {
    DaysBeforeYearFormula(MaxYear + 1);
  }

  /** Day number counted from 0001-01-01 = 1 (Python's `toordinal`). */
  function Ordinal(year: int, month: int, day: int): int
    requires 1 <= month <= 12
  {
    DaysBeforeYear(year) + DaysBeforeMonth(year, month) + day
  }

  /** ISO weekday of an ordinal day, Monday = 1 .. Sunday = 7 (Python's `toordinal() % 7 or 7`). */
  function IsoWeekday(ordinal: int): (w: int)
    ensures 1 <= w <= 7
    ensures w == (ordinal - 1) % 7 + 1
  {
    if ordinal % 7 == 0 then 7 else ordinal % 7
  }

  /** The ISO weekday advances by one each day, from Sunday (7) back to Monday (1). */
  lemma IsoWeekdayStep(ordinal: int)
    ensures IsoWeekday(ordinal + 1) == IsoWeekday(ordinal) % 7 + 1
  {
  }

  /** A day's ordinal is at most that of the last day of its year, and equals it only on
      31 December. */
  lemma OrdinalWithinYear(year: int, month: int, day: int)
    requires ValidDate(year, month, day)
    ensures Ordinal(year, month, day) <= DaysBeforeYear(year + 1)
    ensures Ordinal(year, month, day) == DaysBeforeYear(year + 1) <==> month == 12 && day == 31
  {
    DaysBeforeYearStep(year);
    MonthsFillYear(year);
    DaysBeforeMonthTable(year, 12);
    if month < 12 {
      DaysBeforeMonthTable(year, month);
      DaysBeforeMonthTable(year, month + 1);
    }
  }

  /** Ordinal of the Monday that starts ISO week 1 of `year`, computed as Python's
      `_isoweek1monday` does: back up from 1 January to its Monday, and go one week forward
      when 1 January falls on Friday, Saturday or Sunday. */
  function Week1Monday(year: int): int {
    Week1MondayFrom(DaysBeforeYear(year) + 1)
  }

  /** The body of `_isoweek1monday` given the ordinal of 1 January. */
  function Week1MondayFrom(firstDay: int): int {
    var firstWeekday := (firstDay + 6) % 7;
    if firstWeekday > 3 then firstDay - firstWeekday + 7 else firstDay - firstWeekday
  }

  /** The ISO 8601 definition of week 1: the week (Monday to Sunday) holding 4 January. */
  function Week1MondayReference(year: int): int {
    var jan4 := Ordinal(year, 1, 4);
    jan4 - (IsoWeekday(jan4) - 1)
  }

  /** Python's week-1 Monday is a Monday within three days of 1 January, and it is the Monday
      on or before 4 January. */
  lemma Week1MondayFromFacts(firstDay: int)
    ensures IsoWeekday(Week1MondayFrom(firstDay)) == 1
    ensures firstDay - 3 <= Week1MondayFrom(firstDay) <= firstDay + 3
    ensures Week1MondayFrom(firstDay) == firstDay + 3 - (IsoWeekday(firstDay + 3) - 1)
  {
    var fw := (firstDay + 6) % 7;
    assert firstDay + 6 == 7 * ((firstDay + 6) / 7) + fw;
    assert firstDay + 2 == 7 * ((firstDay + 6) / 7 - 1) + fw + 3;
    if fw <= 3 {
      assert (firstDay + 2) % 7 == fw + 3;
      assert (firstDay - fw - 1) % 7 == 0;
    } else {
      assert (firstDay + 2) % 7 == fw - 4;
      assert (firstDay - fw + 6) % 7 == 0;
    }
  }

  lemma Week1MondayMatchesReference(year: int)
    ensures Week1Monday(year) == Week1MondayReference(year)
  {
    Week1MondayFromFacts(DaysBeforeYear(year) + 1);
  }

  /** Week 1 starts on a Monday within three days of 1 January. */
  lemma Week1MondayNearNewYear(year: int)
    ensures IsoWeekday(Week1Monday(year)) == 1
    ensures Ordinal(year, 1, 1) - 3 <= Week1Monday(year) <= Ordinal(year, 1, 1) + 3
  {
    Week1MondayFromFacts(DaysBeforeYear(year) + 1);
  }

  /** Two Mondays between 359 and 372 days apart are 52 or 53 weeks apart. */
  lemma MondaysApart(a: int, b: int)
    requires IsoWeekday(a) == 1 && IsoWeekday(b) == 1
    requires 359 <= b - a <= 372
    ensures b - a == 364 || b - a == 371
  {
    var p := (a - 1) / 7;
    var q := (b - 1) / 7;
    assert a - 1 == 7 * p;
    assert b - 1 == 7 * q;
    assert b - a == 7 * (q - p);
  }

  /** Consecutive ISO week-years are 52 or 53 weeks long. */
  lemma Week1MondayStep(year: int)
    ensures Week1Monday(year + 1) - Week1Monday(year) == 364
         || Week1Monday(year + 1) - Week1Monday(year) == 371
  {
    Week1MondayNearNewYear(year);
    Week1MondayNearNewYear(year + 1);
    DaysBeforeYearStep(year);
    assert Ordinal(year + 1, 1, 1) == Ordinal(year, 1, 1) + YearLength(year);
    MondaysApart(Week1Monday(year), Week1Monday(year + 1));
  }

  /** Week 1 Mondays never move backwards as the year grows. */
  lemma {:induction false} Week1MondayMonotone(a: int, b: int)
    requires a <= b
    ensures Week1Monday(a) + 364 * (b - a) <= Week1Monday(b)
    decreases b - a
  {
    if a < b {
      Week1MondayMonotone(a, b - 1);
      Week1MondayStep(b - 1);
    }
  }

  /** An ISO week date: week-numbering year, week 1..53 and weekday 1..7. */
  datatype IsoWeekDate = IsoWeekDate(year: int, week: int, weekday: int)

  /** The steps of Python's `date.isocalendar()` once the week-1 Mondays of the year before,
      the year itself and the year after are known: the week is counted from `w1`; a negative
      week moves to the previous year, and a week from 52 on moves to week 1 of the next year
      once that year's week 1 has begun. */
  function IsoCalendarFrom(year: int, today: int, w0: int, w1: int, w2: int): IsoWeekDate {
    var week := (today - w1) / 7;
    var weekday := (today - w1) % 7;
    if week < 0 then
      IsoWeekDate(year - 1, (today - w0) / 7 + 1, (today - w0) % 7 + 1)
    else if week >= 52 && today >= w2 then
      IsoWeekDate(year + 1, 1, weekday + 1)
    else
      IsoWeekDate(year, week + 1, weekday + 1)
  }

  /** Counting whole weeks from a Monday leaves the weekday as remainder. */
  lemma WeeksFromMonday(today: int, monday: int)
    requires IsoWeekday(monday) == 1
    ensures (today - monday) % 7 + 1 == IsoWeekday(today)
    ensures today - monday == 7 * ((today - monday) / 7) + (today - monday) % 7
  {
    var p := (monday - 1) / 7;
    assert monday == 7 * p + 1;
    var q := (today - 1) / 7;
    assert today - monday == 7 * (q - p) + (today - 1) % 7;
  }

  /** The week date the steps produce lies in the week-year whose week 1 starts on or before
      `today` and ends before the next week 1 starts. */
  lemma IsoCalendarFromFacts(year: int, today: int, w0: int, w1: int, w2: int, w3: int)
    requires IsoWeekday(w0) == 1 && IsoWeekday(w1) == 1 && IsoWeekday(w2) == 1
    requires 364 <= w1 - w0 <= 371 && 364 <= w2 - w1 <= 371 && 364 <= w3 - w2
    requires w1 - 3 <= today < w2 + 4
    ensures var r := IsoCalendarFrom(year, today, w0, w1, w2);
            && 1 <= r.week <= 53
            && r.weekday == IsoWeekday(today)
            && (|| (r.year == year - 1 && w0 <= today < w1 && today == w0 + 7 * (r.week - 1) + r.weekday - 1)
                || (r.year == year && w1 <= today < w2 && today == w1 + 7 * (r.week - 1) + r.weekday - 1)
                || (r.year == year + 1 && w2 <= today < w3 && today == w2 + 7 * (r.week - 1) + r.weekday - 1))
  {
    WeeksFromMonday(today, w0);
    WeeksFromMonday(today, w1);
    WeeksFromMonday(today, w2);
  }

  /** A day of `year` lies between three days before its week 1 and the first days of the
      next year's week 1. */
  lemma OrdinalNearWeek1(year: int, month: int, day: int)
    requires ValidDate(year, month, day)
    ensures Week1Monday(year) - 3 <= Ordinal(year, month, day) < Week1Monday(year + 1) + 4
  {
    MonthWithinYear(year, month);
    DaysBeforeYearStep(year);
    Week1MondayNearNewYear(year);
    Week1MondayNearNewYear(year + 1);
  }

  /** Python's week-1 Mondays of four consecutive years satisfy what `IsoCalendarFromFacts`
      needs. */
  lemma Week1MondaysAround(year: int)
    ensures IsoWeekday(Week1Monday(year - 1)) == 1
    ensures IsoWeekday(Week1Monday(year)) == 1
    ensures IsoWeekday(Week1Monday(year + 1)) == 1
    ensures 364 <= Week1Monday(year) - Week1Monday(year - 1) <= 371
    ensures 364 <= Week1Monday(year + 1) - Week1Monday(year) <= 371
    ensures 364 <= Week1Monday(year + 2) - Week1Monday(year + 1)
  {
    Week1MondayNearNewYear(year - 1);
    Week1MondayNearNewYear(year);
    Week1MondayNearNewYear(year + 1);
    Week1MondayStep(year - 1);
    Week1MondayStep(year);
    Week1MondayStep(year + 1);
  }

  /** Python's `date.isocalendar()`. The result lies in exactly the week-year whose week 1
      starts on or before the day and whose successor's does not. */
  function IsoCalendar(year: int, month: int, day: int): (r: IsoWeekDate)
    requires ValidDate(year, month, day)
    ensures year - 1 <= r.year <= year + 1
    ensures 1 <= r.week <= 53
    ensures r.weekday == IsoWeekday(Ordinal(year, month, day))
    ensures Ordinal(year, month, day) == Week1Monday(r.year) + 7 * (r.week - 1) + (r.weekday - 1)
    ensures r.year == year - 1 ==> Ordinal(year, month, day) < Week1Monday(year)
    ensures r.year == year ==> Ordinal(year, month, day) < Week1Monday(year + 1)
    ensures r.year == year + 1 ==> Ordinal(year, month, day) < Week1Monday(year + 2)
  {
    var today := Ordinal(year, month, day);
    OrdinalNearWeek1(year, month, day);
    IsoCalendarAt(year, today);
    IsoCalendarFrom(year, today, Week1Monday(year - 1), Week1Monday(year), Week1Monday(year + 1))
  }

  /** `IsoCalendarFrom` applied to Python's week-1 Mondays of `year - 1 .. year + 1`, for a
      day near the week-year `year`. */
  lemma IsoCalendarAt(year: int, today: int)
    requires Week1Monday(year) - 3 <= today < Week1Monday(year + 1) + 4
    ensures var r := IsoCalendarFrom(year, today, Week1Monday(year - 1), Week1Monday(year), Week1Monday(year + 1));
            && year - 1 <= r.year <= year + 1 && 1 <= r.week <= 53 && r.weekday == IsoWeekday(today)
            && today == Week1Monday(r.year) + 7 * (r.week - 1) + (r.weekday - 1)
            && (r.year == year - 1 ==> today < Week1Monday(year))
            && (r.year == year ==> today < Week1Monday(year + 1))
            && (r.year == year + 1 ==> today < Week1Monday(year + 2))
  {
    Week1MondaysAround(year);
    IsoCalendarFromFacts(year, today, Week1Monday(year - 1), Week1Monday(year),
                         Week1Monday(year + 1), Week1Monday(year + 2));
  }

  /** The week date of `IsoCalendar` counts from the ISO 8601 week 1: the week holding
      4 January of the week-numbering year. */
  lemma IsoCalendarMatchesReference(year: int, month: int, day: int)
    requires ValidDate(year, month, day)
    ensures var r := IsoCalendar(year, month, day);
            && Week1MondayReference(r.year) + 7 * (r.week - 1) + (r.weekday - 1) == Ordinal(year, month, day)
            && Ordinal(year, month, day) < Week1MondayReference(r.year + 1)
  {
    var r := IsoCalendar(year, month, day);
    Week1MondayMatchesReference(r.year);
    if r.year == year - 1 {
      Week1MondayMatchesReference(year);
    } else if r.year == year {
      Week1MondayMatchesReference(year + 1);
    } else {
      Week1MondayMatchesReference(year + 2);
    }
  }

  /** ISO 8601 week-1 Mondays do not decrease from year to year. */
  lemma Week1MondayReferenceMonotone(a: int, b: int)
    requires a <= b
    ensures Week1MondayReference(a) <= Week1MondayReference(b)
  {
    Week1MondayMonotone(a, b);
    Week1MondayMatchesReference(a);
    Week1MondayMatchesReference(b);
  }

  /** The ISO week-numbering year of a day is the unique year `y` whose week 1 starts on or
      before the day while the week 1 of `y + 1` starts after it. */
  lemma IsoWeekYearUnique(year: int, month: int, day: int, y: int)
    requires ValidDate(year, month, day)
    requires Week1MondayReference(y) <= Ordinal(year, month, day) < Week1MondayReference(y + 1)
    ensures IsoCalendar(year, month, day).year == y
  {
    var ry := IsoCalendar(year, month, day).year;
    IsoCalendarMatchesReference(year, month, day);
    BracketsDisjoint(Ordinal(year, month, day), y, ry);
  }

  /** Two week-years whose week-1 brackets both hold a day are the same week-year. */
  lemma BracketsDisjoint(today: int, y: int, z: int)
    requires Week1MondayReference(y) <= today < Week1MondayReference(y + 1)
    requires Week1MondayReference(z) <= today < Week1MondayReference(z + 1)
    ensures y == z
  {
    if y < z {
      Week1MondayReferenceMonotone(y + 1, z);
    } else if z < y {
      Week1MondayReferenceMonotone(z + 1, y);
    }
  }
}
