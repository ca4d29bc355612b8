# ISO-8601 date and time fields of python-temporal, in Dafny

This project models the part of the `temporal` package that actually computes something:
the ISO-8601 calendar and clock fields behind `PlainDate`, `PlainTime` and `PlainDateTime`.
Each of these is a frozen wrapper around a Python `date`, `time` or naive `datetime`. The
model covers:

- the constructors and the ranges they enforce;
- the getters, including the packing of milliseconds and microseconds into one field;
- the calendar facts: month code, weekday, day of year, ISO week and week-year, month length,
  year length and leap year;
- the record-update operations `with_`, `with_plain_time`, `with_plain_date`,
  `to_plain_date_time` and `get_iso_fields`.

The Python `datetime` calls are written out as integer functions over the proleptic
Gregorian calendar of section 3.2.1 of ISO 8601:2004. The week calendar follows section 3.2.2
and the ordinal date section 4.1.3. These functions live in module `Gregorian`: leap year,
month length, the day count from 0001-01-01 (`toordinal`), ISO weekday, and the Monday that
starts ISO week 1. The repository's methods are specified against them.
The days before a year are defined by adding up the lengths of the earlier years. A lemma
proves this equals Python's closed-form `_days_before_year` for every year. Python's
`_isoweek1monday` and `isocalendar` steps are modelled as written, and lemmas relate them to
the ISO 8601 definition of week 1: the week that holds 4 January.

Modules:

- `Results`: `Option` and `Result`, and the `Error` kinds the code raises:
  - `AssertionFailed`: an `assert` on a falsy value.
  - `ValueOutOfRange`: a `ValueError` from the `date`, `time` or `datetime` constructors.
  - `DateOverflow`: an `OverflowError` from `date ± timedelta`.
  - `DuplicateKeyword`: the `TypeError` of a `**a, **b` call that repeats a key.
- `Gregorian`: the calendar functions and the facts about them.
- `PlainDates`, `PlainTimes`, `PlainDateTimes`: one module per source file.

How the source behaves, as the model states it:

- A `PlainDateTime` stores one value. Its date getters are `PlainDate`'s applied to the
  `PyDate` projection, and its time getters are `PlainTime`'s applied to `PyTime`. This is
  how the source's inheritance through the `py_date`/`py_time` properties works, so the
  model does not repeat those getters.
- `calendarId` is always `"iso8601"`; `era` and `era_year` are `None`; `days_in_week` is 7
  and `months_in_year` is 12. These are constant members of `PlainDates`.
- `PlainDate.to_plain_date_time(plain_time=t)` and `PlainTime.to_plain_date_time(plain_date=d)`
  pass both halves to `PlainDateTime.to_plain_date_time`, so they are `PlainDateTimes.Combine`.
- `to_plain_date` rebuilds a date from the wrapped `py_date`: on a `PlainDate` it returns an
  equal value, and on a `PlainDateTime` it returns the `PyDate` projection. `to_plain_time`
  does the same with `py_time`. It is `PlainTimes.ToPlainTime` on a time, and `PyTime` on a
  date-time.

Behaviour of the code that the model keeps as written:

- `nanosecond` always reads 0 (src/temporal/_plain_time.py:93-95). The constructor and
  `with_` accept a nanosecond argument but never store it (src/temporal/_plain_time.py:38).
- `time(...)` checks hour 0..23, minute 0..59 and second 0..59, and it checks the sub-second
  fields only as the packed sum `millisecond*1000 + microsecond` in 0..999999
  (src/temporal/_plain_time.py:38). So `(millisecond=0, microsecond=1500)` reads back as
  `(1, 500)`, and `(1, -1000)` is accepted.
- The `overflow` option of `with_` is never read (src/temporal/_plain_date.py:61-68). So
  `with_(month=2)` on 31 January raises `ValueError` from `date(...)`.
- A year, month or day that is `None` or `0` raises `AssertionError`, because `assert x`
  tests Python truthiness (src/temporal/_plain_date.py:36-38). `date(...)` raises
  `ValueError` for any other out-of-range field (src/temporal/_plain_date.py:39). The model
  keeps the two as distinct errors.
- Python's `date` holds years 1..9999 only. `days_in_month` therefore fails for December
  9999: its day-by-day walk steps past 9999-12-31 (src/temporal/_plain_date.py:121-122).

## Model

| member | source | states |
|---|---|---|
| Gregorian.MonthLength | src/temporal/_plain_date.py:118-124 | a month has 28 to 31 days; February has 29 exactly in a leap year, 28 otherwise; other months have at least 30 |
| Gregorian.DaysBeforeMonthTable | src/temporal/_plain_date.py:102-104 | the days before a month equal the common-year cumulative table, plus one after February in a leap year |
| Gregorian.MonthsFillYear | src/temporal/_plain_date.py:126-128 | the twelve month lengths add up to 365, or 366 in a leap year |
| Gregorian.MonthWithinYear | src/temporal/_plain_date.py:102-104 | every month ends no later than its year does |
| Gregorian.DaysBeforeYearFormula | src/temporal/_plain_date.py:98-100 | Python's closed form `365·n + n/4 − n/100 + n/400` (n = year − 1) equals the days of all earlier years added up, for every year |
| Gregorian.DaysBeforeYearIncreasing | src/temporal/_plain_date.py:120-123 | each year adds at least 365 days, so the count of days before a year grows with the year |
| Gregorian.MaxOrdinalValue | src/temporal/_plain_date.py:120-123 | the years 1 .. 9999 hold exactly `MaxOrdinal` = 3652059 days |
| Gregorian.OrdinalWithinYear | src/temporal/_plain_date.py:126-128 | a day's ordinal is at most the ordinal of its year's last day, and equals it exactly on 31 December |
| Gregorian.IsoWeekday | src/temporal/_plain_date.py:98-100 | `isoweekday` lies in 1..7 and is the day count minus one, modulo 7, plus one |
| Gregorian.IsoWeekdayStep | src/temporal/_plain_date.py:98-100 | the weekday advances by one each day and wraps from Sunday 7 to Monday 1 |
| Gregorian.Week1MondayFromFacts | src/temporal/_plain_date.py:106-112 | Python's week-1 Monday is a Monday, lies within three days of 1 January, and is the Monday on or before 4 January |
| Gregorian.Week1MondayMatchesReference | src/temporal/_plain_date.py:106-112 | Python's week-1 Monday equals the ISO 8601 definition: the Monday of the week holding 4 January |
| Gregorian.Week1MondayNearNewYear | src/temporal/_plain_date.py:106-112 | for each year, week 1 starts on a Monday within three days of 1 January |
| Gregorian.Week1MondayStep | src/temporal/_plain_date.py:106-112 | consecutive week-numbering years are exactly 52 or 53 weeks long |
| Gregorian.Week1MondayMonotone | src/temporal/_plain_date.py:106-112 | over n years, week-1 Mondays advance by at least 364·n days |
| Gregorian.Week1MondayReferenceMonotone | src/temporal/_plain_date.py:106-112 | ISO 8601 week-1 Mondays never move backwards as the year grows |
| Gregorian.IsoCalendarFromFacts | src/temporal/_plain_date.py:106-112 | the week-counting steps of `isocalendar` yield week 1..53 and the right weekday, in the previous, same or next week-year, which brackets the day |
| Gregorian.OrdinalNearWeek1 | src/temporal/_plain_date.py:106-112 | a day of a year lies between three days before that year's week 1 and three days after the next year's week 1 begins |
| Gregorian.IsoCalendar | src/temporal/_plain_date.py:106-112 | the week-year is the year before, the same year or the year after; the week is 1..53; the weekday is `isoweekday`; the date is `week-1` weeks plus `weekday-1` days after that week-year's week-1 Monday, and before the following week-year's week-1 Monday |
| Gregorian.IsoCalendarMatchesReference | src/temporal/_plain_date.py:106-112 | the week date counts from the ISO 8601 week 1 (the week holding 4 January) of its week-year, and the date falls before the next week-year's week 1 |
| Gregorian.IsoWeekYearUnique | src/temporal/_plain_date.py:110-112 | the week-numbering year is the only year whose ISO week-year contains the date |
| PlainDates.NewPlainDate | src/temporal/_plain_date.py:23-39 | succeeds exactly when year, month and day are all given and form a date in 1..9999; it then reads them back; a missing or zero field fails the assertion, and any other invalid field is a range error |
| PlainDates.CalendarId | src/temporal/_plain_date.py:86-88 | always `"iso8601"` |
| PlainDates.Era | src/temporal/_plain_date.py:90-92 | always `None` |
| PlainDates.EraYear | src/temporal/_plain_date.py:94-96 | always `None` |
| PlainDates.DaysInWeek | src/temporal/_plain_date.py:114-116 | always 7; `DayOfWeek` lies in 1..`days_in_week` and cycles with that period (`DayOfWeekStep`) |
| PlainDates.MonthsInYear | src/temporal/_plain_date.py:130-132 | always 12 |
| PlainDates.MonthsFillDaysInYear | src/temporal/_plain_date.py:126-132 | the months 1 .. `months_in_year` make up exactly `days_in_year` days |
| PlainDates.With | src/temporal/_plain_date.py:54-68 | fields not supplied keep their value; succeeds exactly when the merged triple is a valid date; an explicit 0 fails the assertion; `with_()` returns the same date |
| PlainDates.MonthCode | src/temporal/_plain_date.py:78-80 | three characters: `M` and two decimal digits whose value is the month |
| PlainDates.DayOfWeek | src/temporal/_plain_date.py:98-100 | ISO weekday in 1..`days_in_week`, determined by the day count modulo 7 |
| PlainDates.DayOfYear | src/temporal/_plain_date.py:102-104 | lies in 1..`days_in_year`; equals the days of earlier months plus the day, so it is the day itself in January |
| PlainDates.DaysInYear | src/temporal/_plain_date.py:126-128 | 366 exactly in a Gregorian leap year, 365 otherwise |
| PlainDates.InLeapYear | src/temporal/_plain_date.py:134-136 | holds exactly for Gregorian leap years, the years whose February has 29 days |
| PlainDates.WeekOfYear | src/temporal/_plain_date.py:106-108 | the ISO week number lies in 1..53 |
| PlainDates.YearOfWeek | src/temporal/_plain_date.py:110-112 | the ISO week-numbering year is within one of the calendar year |
| PlainDates.AddOneDay | src/temporal/_plain_date.py:120-122 | fails with an overflow only at 9999-12-31; otherwise gives a valid date one later in the day count |
| PlainDates.SubOneDay | src/temporal/_plain_date.py:123 | fails with an overflow only at 0001-01-01; otherwise gives a valid date one earlier in the day count |
| PlainDates.OrdinalRange | src/temporal/_plain_date.py:120-123 | every valid date's ordinal lies in 1..`MaxOrdinal`; only 0001-01-01 has ordinal 1 and only 9999-12-31 has `MaxOrdinal`, which are the dates where a one-day step overflows |
| PlainDates.DaysInMonth | src/temporal/_plain_date.py:118-124 | the day-by-day walk fails exactly for December 9999; otherwise it returns the Gregorian month length, which is at least the day, after at most 31 steps |
| PlainDates.IsoFields | src/temporal/_plain_date.py:236-241 | keys are exactly `iso_year`, `iso_month`, `iso_day` |
| PlainDates.IsoFieldsRoundTrip | src/temporal/_plain_date.py:231-241 | passing the ISO fields back to the constructor rebuilds the same date |
| PlainDates.ConstructReadBack | src/temporal/_plain_date.py:23-39 | a valid (y, m, d) reads back as y, m, d; leaving out any one of the three fails the assertion |
| PlainDates.MonthCodeExamples | src/temporal/_plain_date.py:78-80 | March gives `M03` and December `M12` |
| PlainDates.AddThenSubOneDay | src/temporal/_plain_date.py:120-123 | a step forward and a step back return to the same date |
| PlainDates.DayOfYearStep | src/temporal/_plain_date.py:102-104 | 1 January is day 1; within a year each day adds one; a step that leaves the year leaves from the last day, `days_in_year` |
| PlainDates.DayOfWeekStep | src/temporal/_plain_date.py:98-100 | the next day's weekday is this weekday modulo `days_in_week`, plus one |
| PlainDates.FirstDateIsMonday | src/temporal/_plain_date.py:98-100 | 0001-01-01 is a Monday |
| PlainDates.IsoWeekDateNamesDay | src/temporal/_plain_date.py:98-112 | `(year_of_week, week_of_year, day_of_week)` lands on the date when counted from the ISO 8601 week 1, and the date falls before the next week-year begins |
| PlainDates.YearOfWeekUnique | src/temporal/_plain_date.py:110-112 | `year_of_week` is the only year whose ISO week-year contains the date |
| PlainDates.IsoWeekExampleYearEnd | src/temporal/_plain_date.py:106-112 | 2024-12-30 is in week 1 of week-year 2025 |
| PlainDates.IsoWeekExampleYearStart | src/temporal/_plain_date.py:106-112 | 2021-01-03 is in week 53 of week-year 2020 |
| PlainDates.DayOfWeekExample | src/temporal/_plain_date.py:98-100 | 2024-03-10 is a Sunday (7) |
| PlainTimes.NewPlainTime | src/temporal/_plain_time.py:26-38 | succeeds exactly when hour is 0..23, minute and second are 0..59, and `ms*1000 + us` is 0..999999; it then reads back hour, minute, second and the packed sub-second value; every failure is a range error |
| PlainTimes.Hour | src/temporal/_plain_time.py:73-75 | reads 0..23 on every valid time |
| PlainTimes.Minute | src/temporal/_plain_time.py:77-79 | reads 0..59 on every valid time |
| PlainTimes.Second | src/temporal/_plain_time.py:81-83 | reads 0..59 on every valid time |
| PlainTimes.Millisecond | src/temporal/_plain_time.py:85-87 | lies in 0..999 |
| PlainTimes.Microsecond | src/temporal/_plain_time.py:89-91 | lies in 0..999 |
| PlainTimes.Nanosecond | src/temporal/_plain_time.py:93-95 | always 0, whatever nanosecond the time was built with |
| PlainTimes.UnpackPack | src/temporal/_plain_time.py:85-91 | `millisecond*1000 + microsecond` is the stored sub-second value |
| PlainTimes.SubsecondRoundTrip | src/temporal/_plain_time.py:85-91 | for ms and us in 0..999, construction succeeds and reads back exactly ms and us |
| PlainTimes.SubsecondCarries | src/temporal/_plain_time.py:38 | (ms 0, us 1500) reads back as (1, 500); (999, 1000) is rejected; (1, -1000) is accepted |
| PlainTimes.NanosecondIgnored | src/temporal/_plain_time.py:33-38 | the nanosecond argument never changes the outcome |
| PlainTimes.DefaultIsMidnight | src/temporal/_plain_time.py:26-38 | `PlainTime()` is midnight and every getter reads 0 |
| PlainTimes.With | src/temporal/_plain_time.py:53-71 | fields not supplied keep their value; milliseconds and microseconds are packed again; a supplied millisecond alone reads back exactly, and so does a supplied microsecond alone in 0..999; `with_()` returns the same time |
| PlainTimes.ToPlainTime | src/temporal/_plain_time.py:195-196 | the copy has the same six field readings |
| PlainTimes.IsoFields | src/temporal/_plain_time.py:206-214 | keys are exactly the six `iso_` time keys; hour, minute and second are in clock range; `iso_millisecond` and `iso_microsecond` are each 0..999 and pack back to the stored sub-second value, so they are the getters' unique split of it; `iso_nanosecond` is 0 |
| PlainTimes.IsoFieldsRoundTrip | src/temporal/_plain_time.py:198-214 | passing the ISO fields back to the constructor rebuilds the same time |
| PlainDateTimes.Combine | src/temporal/_plain_date_time.py:247 | `datetime.combine` yields the value whose date and time projections are the two given halves |
| PlainDateTimes.CombineProjections | src/temporal/_plain_date_time.py:28-34 | a date-time is recombined exactly from its `py_date` and `py_time` projections |
| PlainDateTimes.PyDate | src/temporal/_plain_date_time.py:28-30 | the date part carries the date-time's year, month and day unchanged |
| PlainDateTimes.PyTime | src/temporal/_plain_date_time.py:32-34 | the time part carries hour, minute, second and the packed sub-second field unchanged |
| PlainDateTimes.NewPlainDateTime | src/temporal/_plain_date_time.py:36-58 | succeeds exactly when the `PlainDate` and `PlainTime` constructors both succeed on its arguments; its projections are their results; a missing or zero date field fails the assertion |
| PlainDateTimes.TimeDefaultsToMidnight | src/temporal/_plain_date_time.py:36-58 | with only the date given, the result is that date at midnight |
| PlainDateTimes.With | src/temporal/_plain_date_time.py:73-99 | the date half changes as `PlainDate.with_` would and the time half as `PlainTime.with_` would; it succeeds exactly when both would; `with_()` returns the same value |
| PlainDateTimes.WithPlainTime | src/temporal/_plain_date_time.py:101-114 | keeps the date projection and takes all six time fields from the given time |
| PlainDateTimes.WithPlainDate | src/temporal/_plain_date_time.py:116-131 | the ISO calendar assertion always holds; takes the date from the given date and keeps the time projection |
| PlainDateTimes.ToPlainDateTime | src/temporal/_plain_date_time.py:233-247 | a given half replaces only that half; with neither given, the same value comes back |
| PlainDateTimes.MergeKeywords | src/temporal/_plain_date_time.py:252-256 | merging keyword sources succeeds exactly when their keys are disjoint; the result keeps every value of both |
| PlainDateTimes.IsoFields | src/temporal/_plain_date_time.py:249-256 | always succeeds with the nine date and time keys; each value is that of the date's or the time's ISO fields |
| PlainDateTimes.IsoFieldKeysDisjoint | src/temporal/_plain_date_time.py:249-256 | the three date keys and six time keys are disjoint, nine in all |
| PlainDateTimes.IsoFieldsRoundTrip | src/temporal/_plain_date_time.py:252-256 | passing the nine ISO fields back to the constructor rebuilds the same date-time |

## Left out

- `add`, `subtract`, `until`, `since`, `round` and `to_string` on every type: the code
  returns `self`, `Duration()` or `str(self)` and leaves a TODO. It has no rounding, balancing,
  calendar addition or difference algorithm to model. `_duration.py` is not part of this model.
- The `overflow` option of `from_` and `with_`: it is accepted but never read.
- The string branch of `from_`, and string arguments to `with_plain_time`, `with_plain_date`
  and `to_plain_date_time`: parsing is a TODO that returns a fixed date or time. The copy
  branch of `from_` copies an immutable value, which a Dafny value already is.
- `__str__`, `__repr__` and `to_locale_string`: library `isoformat` text formatting.
- The `py_date=`, `py_time=` and `py_datetimenaive=` keyword constructors and the
  `from_py_*` class methods: they wrap an already valid library value. The datatype
  constructors stand for them.
- `to_zoned_date_time`, `_instant.py`, `_zoned_date_time.py`, `_time_zone.py`: they
  delegate to `zoneinfo`, use floating-point timestamps, or are bodiless stubs.
- `_now.py`: it reads the system clock and the local zone. `__init__.py` only re-exports.
- Python's `assert` statements disappear under `python -O`. The model treats them as
  always active.
- Arguments that are not integers, which would raise a `TypeError` in `date`/`time`: every
  argument is an integer.
- PlainDates.DaysInMonth: the step bound is a ghost out-parameter, because the source
  counts no steps.
