/** `PlainDate`: an ISO-8601 calendar date held as the Python `date` it wraps, its
    constructor and `with_`, the calendar facts it reports, and the one-day steps that
    `days_in_month` takes. */
module PlainDates {
  import opened Results
  import Gregorian

  /** The `py_date` a `PlainDate` wraps. Every value the constructor returns is `Valid`. */
  datatype PlainDate = PlainDate(year: int, month: int, day: int) {
    predicate Valid() {
      Gregorian.ValidDate(year, month, day)
    }
  }

  /** The first and the last day Python's `date` can represent. */
  const FirstDate := PlainDate(Gregorian.MinYear, 1, 1)
  const LastDate := PlainDate(Gregorian.MaxYear, 12, 31)

  const IsoCalendarId := "iso8601"

  // Constant properties: the calendar is always ISO 8601, which has no eras, seven-day
  // weeks and twelve months.

  /** `calendarId`: every date is in the ISO 8601 calendar. */
  function CalendarId(d: PlainDate): (id: string)
    ensures id == "iso8601"
  {
    IsoCalendarId
  }

  /** `era` and `era_year`: the ISO 8601 calendar has no eras. */
  function Era(d: PlainDate): (e: Option<string>)
    ensures e.None?
  {
    None
  }

  function EraYear(d: PlainDate): (e: Option<string>)
    ensures e.None?
  {
    None
  }

  /** `days_in_week`: seven, the number of ISO weekdays. */
  function DaysInWeek(d: PlainDate): (n: int)
    ensures n == 7
  {
    7
  }

  /** `months_in_year`: twelve, the number of Gregorian months. */
  function MonthsInYear(d: PlainDate): (n: int)
    ensures n == 12
  {
    12
  }

  /** Python truthiness of an `int | None` argument: `assert x` fails on `None` and on `0`. */
  predicate Falsy(x: Option<int>) {
    x.None? || x.value == 0
  }

  /** `PlainDate(iso_year, iso_month, iso_day)`: each of the three is asserted present
      (and non-zero), then `date(...)` rejects a year outside 1..9999, a month outside 1..12
      and a day outside the month. */
  function NewPlainDate(year: Option<int>, month: Option<int>, day: Option<int>): (r: Result<PlainDate>)
    ensures r.Success? <==>
              year.Some? && month.Some? && day.Some?
              && Gregorian.ValidDate(year.value, month.value, day.value)
    ensures r.Success? ==>
              r.value.Valid()
              && r.value.year == year.value && r.value.month == month.value && r.value.day == day.value
    ensures r == Failure(AssertionFailed) <==> Falsy(year) || Falsy(month) || Falsy(day)
    ensures r.Failure? ==> r.error == AssertionFailed || r.error == ValueOutOfRange
  {
    if Falsy(year) || Falsy(month) || Falsy(day) then
      Failure(AssertionFailed)
    else if !Gregorian.ValidDate(year.value, month.value, day.value) then
      Failure(ValueOutOfRange)
    else
      Success(PlainDate(year.value, month.value, day.value))
  }

  /** `with_(year=, month=, day=)`: a field passed as `None` keeps its value; the merged
      triple goes back through the constructor, so it must form a valid date (the `overflow`
      option is accepted but never read). */
  function With(d: PlainDate, year: Option<int>, month: Option<int>, day: Option<int>): (r: Result<PlainDate>)
    requires d.Valid()
    ensures r.Success? <==> Gregorian.ValidDate(year.GetOr(d.year), month.GetOr(d.month), day.GetOr(d.day))
    ensures r.Success? ==>
              r.value.Valid()
              && r.value.year == year.GetOr(d.year)
              && r.value.month == month.GetOr(d.month)
              && r.value.day == day.GetOr(d.day)
    ensures r == Failure(AssertionFailed) <==> year == Some(0) || month == Some(0) || day == Some(0)
    ensures year.None? && month.None? && day.None? ==> r == Success(d)
  {
    NewPlainDate(Some(year.GetOr(d.year)), Some(month.GetOr(d.month)), Some(day.GetOr(d.day)))
  }

  /** `month_code`: "M" and the month as two zero-padded decimal digits. */
  function MonthCode(d: PlainDate): (code: string)
    requires d.Valid()
    ensures |code| == 3 && code[0] == 'M'
    ensures '0' <= code[1] <= '1' && '0' <= code[2] <= '9'
    ensures (code[1] as int - '0' as int) * 10 + (code[2] as int - '0' as int) == d.month
  {
    ['M', Digit(d.month / 10), Digit(d.month % 10)]
  }

  function Digit(n: int): (c: char)
    requires 0 <= n <= 9
    ensures c as int - '0' as int == n
  {
    ('0' as int + n) as char
  }

  /** Python's `toordinal()` of the date: 0001-01-01 is day 1. */
  function ToOrdinal(d: PlainDate): int
    requires d.Valid()
  {
    Gregorian.Ordinal(d.year, d.month, d.day)
  }

  /** `day_of_week`: `isoweekday()`, Monday = 1 .. Sunday = 7. */
  function DayOfWeek(d: PlainDate): (w: int)
    requires d.Valid()
    ensures 1 <= w <= DaysInWeek(d)
    ensures w == (ToOrdinal(d) - 1) % 7 + 1
  {
    Gregorian.IsoWeekday(ToOrdinal(d))
  }

  /** `day_of_year`: days since 1 January of the same year, plus one. */
  function DayOfYear(d: PlainDate): (n: int)
    requires d.Valid()
    ensures 1 <= n <= DaysInYear(d)
    ensures n == Gregorian.DaysBeforeMonth(d.year, d.month) + d.day
    ensures d.month == 1 ==> n == d.day
  {
    Gregorian.MonthWithinYear(d.year, d.month);
    ToOrdinal(d) - ToOrdinal(PlainDate(d.year, 1, 1)) + 1
  }

  /** `days_in_year`: the days from 1 January to 31 December inclusive. */
  function DaysInYear(d: PlainDate): (n: int)
    requires d.Valid()
    ensures n == Gregorian.YearLength(d.year)
    ensures n == 366 <==> Gregorian.IsLeapYear(d.year)
    ensures n == 365 <==> !Gregorian.IsLeapYear(d.year)
  {
    Gregorian.DaysBeforeMonthTable(d.year, 12);
    ToOrdinal(PlainDate(d.year, 12, 31)) - ToOrdinal(PlainDate(d.year, 1, 1)) + 1
  }

  /** `in_leap_year`: the year has 366 days. */
  function InLeapYear(d: PlainDate): (b: bool)
    requires d.Valid()
    ensures b <==> Gregorian.IsLeapYear(d.year)
    ensures b <==> Gregorian.MonthLength(d.year, 2) == 29
  {
    DaysInYear(d) == 366
  }

  /** `week_of_year`: the week of `isocalendar()`. */
  function WeekOfYear(d: PlainDate): (w: int)
    requires d.Valid()
    ensures 1 <= w <= 53
  {
    Gregorian.IsoCalendar(d.year, d.month, d.day).week
  }

  /** `year_of_week`: the week-numbering year of `isocalendar()`. */
  function YearOfWeek(d: PlainDate): (y: int)
    requires d.Valid()
    ensures d.year - 1 <= y <= d.year + 1
  {
    Gregorian.IsoCalendar(d.year, d.month, d.day).year
  }

  /** `date + timedelta(days=1)`: Python adds one to the ordinal and rejects a result past
      9999-12-31 with OverflowError. */
  function AddOneDay(d: PlainDate): (r: Result<PlainDate>)
    requires d.Valid()
    ensures r.Failure? <==> d == LastDate
    ensures r.Failure? ==> r.error == DateOverflow
    ensures r.Success? ==> r.value.Valid() && ToOrdinal(r.value) == ToOrdinal(d) + 1
  {
    Gregorian.DaysBeforeYearStep(d.year);
    Gregorian.DaysBeforeMonthTable(d.year, 12);
    if d.day < Gregorian.MonthLength(d.year, d.month) then
      Success(PlainDate(d.year, d.month, d.day + 1))
    else if d.month < 12 then
      Success(PlainDate(d.year, d.month + 1, 1))
    else if d.year < Gregorian.MaxYear then
      Success(PlainDate(d.year + 1, 1, 1))
    else
      Failure(DateOverflow)
  }

  /** `date - timedelta(days=1)`: one less on the ordinal, rejecting a result before
      0001-01-01 with OverflowError. */
  function SubOneDay(d: PlainDate): (r: Result<PlainDate>)
    requires d.Valid()
    ensures r.Failure? <==> d == FirstDate
    ensures r.Failure? ==> r.error == DateOverflow
    ensures r.Success? ==> r.value.Valid() && ToOrdinal(r.value) == ToOrdinal(d) - 1
  {
    Gregorian.DaysBeforeYearStep(d.year - 1);
    Gregorian.DaysBeforeMonthTable(d.year - 1, 12);
    if d.day > 1 then
      Success(PlainDate(d.year, d.month, d.day - 1))
    else if d.month > 1 then
      Success(PlainDate(d.year, d.month - 1, Gregorian.MonthLength(d.year, d.month - 1)))
    else if d.year > Gregorian.MinYear then
      Success(PlainDate(d.year - 1, 12, 31))
    else
      Failure(DateOverflow)
  }

  /** `days_in_month`: step forward one day at a time while the month is unchanged, then step
      back one day and read the day. The walk fails in December 9999, whose last day has no
      successor; otherwise it yields the Gregorian month length after at most 31 steps. */
  method DaysInMonth(date: PlainDate) returns (r: Result<int>, ghost steps: nat)
    requires date.Valid()
    ensures r.Failure? <==> date.year == Gregorian.MaxYear && date.month == 12
    ensures r.Failure? ==> r.error == DateOverflow
    ensures r.Success? ==> r.value == Gregorian.MonthLength(date.year, date.month)
    ensures r.Success? ==> date.day <= r.value
    ensures steps <= 31
  {
    var length := Gregorian.MonthLength(date.year, date.month);
    var cur := date;
    steps := 0;
    while cur.month == date.month
      invariant cur.Valid()
      invariant cur.month == date.month ==>
                  cur.year == date.year && date.day <= cur.day && steps == cur.day - date.day
      invariant cur.month != date.month ==>
                  && !(date.year == Gregorian.MaxYear && date.month == 12)
                  && cur.day == 1
                  && (date.month < 12 ==> cur.year == date.year && cur.month == date.month + 1)
                  && (date.month == 12 ==> cur.year == date.year + 1 && cur.month == 1)
                  && steps == length - date.day + 1
      decreases if cur.month == date.month then length - cur.day + 1 else 0
    {
      var next := AddOneDay(cur);
      if next.Failure? {
        r := Failure(next.error);
        return;
      }
      cur := next.value;
      steps := steps + 1;
    }
    var back := SubOneDay(cur);
    r := Success(back.value.day);
  }

  /** `get_iso_fields`: the keys `iso_year`, `iso_month`, `iso_day`. */
  function IsoFields(d: PlainDate): (fields: map<string, int>)
    ensures fields.Keys == IsoFieldKeys
  {
    map["iso_year" := d.year, "iso_month" := d.month, "iso_day" := d.day]
  }

  const IsoFieldKeys: set<string> := {"iso_year", "iso_month", "iso_day"}

  /** Feeding the ISO fields back to the constructor rebuilds the same date. */
  lemma IsoFieldsRoundTrip(d: PlainDate)
    requires d.Valid()
    ensures var f := IsoFields(d);
            NewPlainDate(Some(f["iso_year"]), Some(f["iso_month"]), Some(f["iso_day"])) == Success(d)
  {
  }

  /** A date built from (y, m, d) reads back y, m and d, and all three are required. */
  lemma ConstructReadBack(y: int, m: int, day: int)
    requires Gregorian.ValidDate(y, m, day)
    ensures NewPlainDate(Some(y), Some(m), Some(day)) == Success(PlainDate(y, m, day))
    ensures NewPlainDate(None, Some(m), Some(day)) == Failure(AssertionFailed)
    ensures NewPlainDate(Some(y), None, Some(day)) == Failure(AssertionFailed)
    ensures NewPlainDate(Some(y), Some(m), None) == Failure(AssertionFailed)
  {
  }

  /** `month_code` of March is "M03", of December "M12". */
  lemma MonthCodeExamples()
    ensures MonthCode(PlainDate(2024, 3, 1)) == "M03"
    ensures MonthCode(PlainDate(2024, 12, 1)) == "M12"
  {
  }

  /** Stepping one day forward and one day back returns to the same date. */
  lemma AddThenSubOneDay(d: PlainDate)
    requires d.Valid() && d != LastDate
    ensures SubOneDay(AddOneDay(d).value) == Success(d)
  {
    if d.day < Gregorian.MonthLength(d.year, d.month) {
      StepBackWithinMonth(d);
    } else if d.month < 12 {
      StepBackIntoMonth(d);
    } else {
      StepBackIntoYear(d);
    }
  }

  lemma StepBackWithinMonth(d: PlainDate)
    requires d.Valid() && d.day < Gregorian.MonthLength(d.year, d.month)
    ensures SubOneDay(AddOneDay(d).value) == Success(d)
  {
    assert AddOneDay(d).value == PlainDate(d.year, d.month, d.day + 1);
  }

  lemma StepBackIntoMonth(d: PlainDate)
    requires d.Valid() && d.day == Gregorian.MonthLength(d.year, d.month) && d.month < 12
    ensures SubOneDay(AddOneDay(d).value) == Success(d)
  {
    assert AddOneDay(d).value == PlainDate(d.year, d.month + 1, 1);
  }

  lemma StepBackIntoYear(d: PlainDate)
    requires d.Valid() && d.day == Gregorian.MonthLength(d.year, d.month) && d.month == 12
    requires d.year < Gregorian.MaxYear
    ensures SubOneDay(AddOneDay(d).value) == Success(d)
  {
    assert AddOneDay(d).value == PlainDate(d.year + 1, 1, 1);
  }

  /** `day_of_year` counts 1 on 1 January and rises by one per day within a year. */
  lemma DayOfYearStep(d: PlainDate)
    requires d.Valid() && d != LastDate
    ensures DayOfYear(PlainDate(d.year, 1, 1)) == 1
    ensures AddOneDay(d).value.year == d.year ==> DayOfYear(AddOneDay(d).value) == DayOfYear(d) + 1
    ensures AddOneDay(d).value.year != d.year ==> DayOfYear(d) == DaysInYear(d)
  {
    var next := AddOneDay(d).value;
    if next.year != d.year {
      Gregorian.DaysBeforeMonthTable(d.year, 12);
    }
  }

  /** The ISO weekday cycles Monday .. Sunday, one step per day. */
  lemma DayOfWeekStep(d: PlainDate)
    requires d.Valid() && d != LastDate
    ensures DayOfWeek(AddOneDay(d).value) == DayOfWeek(d) % DaysInWeek(d) + 1
  {
    var next := AddOneDay(d).value;
    assert ToOrdinal(next) == ToOrdinal(d) + 1;
    Gregorian.IsoWeekdayStep(ToOrdinal(d));
  }

  /** The months `1 .. months_in_year` make up exactly `days_in_year` days. */
  lemma MonthsFillDaysInYear(d: PlainDate)
    requires d.Valid()
    ensures Gregorian.DaysBeforeMonth(d.year, MonthsInYear(d) + 1) == DaysInYear(d)
  {
    Gregorian.MonthsFillYear(d.year);
  }

  /** Ordinals of valid dates run from 1 to `MaxOrdinal`: 0001-01-01 is the only day with
      ordinal 1 and 9999-12-31 the only day with `MaxOrdinal`, the days where subtracting
      and adding a day overflow. */
  lemma OrdinalRange(d: PlainDate)
    requires d.Valid()
    ensures 1 <= ToOrdinal(d) <= Gregorian.MaxOrdinal
    ensures ToOrdinal(d) == 1 <==> d == FirstDate
    ensures ToOrdinal(d) == Gregorian.MaxOrdinal <==> d == LastDate
  {
    OrdinalLowerEnd(d);
    OrdinalUpperEnd(d);
  }

  lemma OrdinalLowerEnd(d: PlainDate)
    requires d.Valid()
    ensures 1 <= ToOrdinal(d)
    ensures ToOrdinal(d) == 1 <==> d == FirstDate
  {
    Gregorian.DaysBeforeYearIncreasing(1, d.year);
    Gregorian.DaysBeforeMonthTable(d.year, d.month);
  }

  lemma OrdinalUpperEnd(d: PlainDate)
    requires d.Valid()
    ensures ToOrdinal(d) <= Gregorian.MaxOrdinal
    ensures ToOrdinal(d) == Gregorian.MaxOrdinal <==> d == LastDate
  {
    Gregorian.MaxOrdinalValue();
    Gregorian.DaysBeforeYearIncreasing(d.year + 1, Gregorian.MaxYear + 1);
    Gregorian.OrdinalWithinYear(d.year, d.month, d.day);
  }

  /** 0001-01-01 was a Monday. */
  lemma FirstDateIsMonday()
    ensures DayOfWeek(FirstDate) == 1
  {
  }

  /** The week date reported by `year_of_week`, `week_of_year` and `day_of_week` names the
      day: counting from the Monday of week 1 of `year_of_week` (the week holding 4 January)
      reaches the date, and the next week-year has not begun yet. */
  lemma IsoWeekDateNamesDay(d: PlainDate)
    requires d.Valid()
    ensures ToOrdinal(d)
            == Gregorian.Week1MondayReference(YearOfWeek(d)) + 7 * (WeekOfYear(d) - 1) + (DayOfWeek(d) - 1)
    ensures ToOrdinal(d) < Gregorian.Week1MondayReference(YearOfWeek(d) + 1)
  {
    Gregorian.IsoCalendarMatchesReference(d.year, d.month, d.day);
  }

  /** `year_of_week` is the only year whose ISO week-year holds the date. */
  lemma YearOfWeekUnique(d: PlainDate, y: int)
    requires d.Valid()
    requires Gregorian.Week1MondayReference(y) <= ToOrdinal(d) < Gregorian.Week1MondayReference(y + 1)
    ensures YearOfWeek(d) == y
  {
    Gregorian.IsoWeekYearUnique(d.year, d.month, d.day, y);
  }

  /** 2024-12-30 is the Monday of week 1 of 2025. */
  lemma IsoWeekExampleYearEnd()
    ensures YearOfWeek(PlainDate(2024, 12, 30)) == 2025 && WeekOfYear(PlainDate(2024, 12, 30)) == 1
  {
    Gregorian.DaysBeforeYearFormula(2024);
    Gregorian.DaysBeforeYearFormula(2025);
    assert Gregorian.DaysBeforeYear(2024) == 738885;
    assert Gregorian.DaysBeforeYear(2025) == 739251;
    Gregorian.DaysBeforeMonthTable(2024, 12);
    assert ToOrdinal(PlainDate(2024, 12, 30)) == 739250;
    assert Gregorian.Week1MondayReference(2025) == 739250;
    assert Gregorian.Week1MondayReference(2026) == 739614 by {
      Gregorian.DaysBeforeYearFormula(2026);
      assert Gregorian.DaysBeforeYear(2026) == 739616;
    }
    YearOfWeekUnique(PlainDate(2024, 12, 30), 2025);
    IsoWeekDateNamesDay(PlainDate(2024, 12, 30));
  }

  /** 2021-01-03 is the Sunday of week 53 of 2020. */
  lemma IsoWeekExampleYearStart()
    ensures YearOfWeek(PlainDate(2021, 1, 3)) == 2020 && WeekOfYear(PlainDate(2021, 1, 3)) == 53
  {
    Gregorian.DaysBeforeYearFormula(2021);
    assert Gregorian.DaysBeforeYear(2021) == 737790;
    assert ToOrdinal(PlainDate(2021, 1, 3)) == 737793;
    assert Gregorian.Week1MondayReference(2021) == 737794;
    assert Gregorian.Week1MondayReference(2020) == 737423 by {
      Gregorian.DaysBeforeYearFormula(2020);
      assert Gregorian.DaysBeforeYear(2020) == 737424;
    }
    YearOfWeekUnique(PlainDate(2021, 1, 3), 2020);
    IsoWeekDateNamesDay(PlainDate(2021, 1, 3));
  }

  /** 2024-03-10 was a Sunday. */
  lemma DayOfWeekExample()
    ensures DayOfWeek(PlainDate(2024, 3, 10)) == 7
  {
    Gregorian.DaysBeforeYearFormula(2024);
    assert Gregorian.DaysBeforeYear(2024) == 738885;
    Gregorian.DaysBeforeMonthTable(2024, 3);
  }
}
