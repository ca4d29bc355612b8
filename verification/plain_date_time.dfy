/** `PlainDateTime`: a calendar date and wall-clock time held as one naive Python
    `datetime`. Its date getters are `PlainDate`'s read through the `py_date` projection,
    its time getters `PlainTime`'s read through `py_time`. */
module PlainDateTimes {
  import opened Results
  import Gregorian
  import PlainDates
  import PlainTimes

  type PlainDate = PlainDates.PlainDate
  type PlainTime = PlainTimes.PlainTime

  /** The `py_datetimenaive` a `PlainDateTime` wraps; `subsecond` is its `microsecond` field. */
  datatype PlainDateTime = PlainDateTime(year: int, month: int, day: int,
                                         hour: int, minute: int, second: int, subsecond: int) {
    predicate Valid() {
      PyDate(this).Valid() && PyTime(this).Valid()
    }
  }

  /** `py_date`: the date part (`datetime.date()`), carrying the year, month and day over. */
  function PyDate(dt: PlainDateTime): (d: PlainDate)
    ensures d.year == dt.year && d.month == dt.month && d.day == dt.day
  {
    PlainDates.PlainDate(dt.year, dt.month, dt.day)
  }

  /** `py_time`: the time part (`datetime.time()`), carrying the clock fields and the
      packed sub-second field over. */
  function PyTime(dt: PlainDateTime): (t: PlainTime)
    ensures t.hour == dt.hour && t.minute == dt.minute && t.second == dt.second
    ensures t.subsecond == dt.subsecond
  {
    PlainTimes.PlainTime(dt.hour, dt.minute, dt.second, dt.subsecond)
  }

  /** `datetime.combine(date, time)`: the date-time whose two projections are the given halves. */
  function Combine(d: PlainDate, t: PlainTime): (r: PlainDateTime)
    ensures PyDate(r) == d && PyTime(r) == t
    ensures d.Valid() && t.Valid() ==> r.Valid()
  {
    PlainDateTime(d.year, d.month, d.day, t.hour, t.minute, t.second, t.subsecond)
  }

  /** A date-time is determined by its two projections. */
  lemma CombineProjections(dt: PlainDateTime)
    ensures Combine(PyDate(dt), PyTime(dt)) == dt
  {
  }

  /** `PlainDateTime(iso_year, ..., iso_nanosecond)`: the year, month and day are asserted
      present (and non-zero), then `datetime(...)` checks the date fields and the time fields
      with milliseconds and microseconds packed as `PlainTime` packs them. The result's two
      halves are exactly what the `PlainDate` and `PlainTime` constructors build. */
  function NewPlainDateTime(year: Option<int>, month: Option<int>, day: Option<int>,
                            hour: int, minute: int, second: int,
                            millisecond: int, microsecond: int, nanosecond: int): (r: Result<PlainDateTime>)
    ensures var date := PlainDates.NewPlainDate(year, month, day);
            var time := PlainTimes.NewPlainTime(hour, minute, second, millisecond, microsecond, nanosecond);
            && (r.Success? <==> date.Success? && time.Success?)
            && (r.Success? ==> r.value.Valid() && PyDate(r.value) == date.value && PyTime(r.value) == time.value)
    ensures r == Failure(AssertionFailed) <==>
              PlainDates.Falsy(year) || PlainDates.Falsy(month) || PlainDates.Falsy(day)
    ensures r.Failure? ==> r.error == AssertionFailed || r.error == ValueOutOfRange
  {
    var packed := millisecond * 1000 + microsecond;
    if PlainDates.Falsy(year) || PlainDates.Falsy(month) || PlainDates.Falsy(day) then
      Failure(AssertionFailed)
    else if !Gregorian.ValidDate(year.value, month.value, day.value) then
      Failure(ValueOutOfRange)
    else if !(0 <= hour <= 23 && 0 <= minute <= 59 && 0 <= second <= 59 && 0 <= packed <= 999999) then
      Failure(ValueOutOfRange)
    else
      Success(PlainDateTime(year.value, month.value, day.value, hour, minute, second, packed))
  }

  /** The time fields default to 0: a date-time built from a date alone is that date at
      midnight. */
  lemma TimeDefaultsToMidnight(y: int, m: int, d: int)
    requires Gregorian.ValidDate(y, m, d)
    ensures NewPlainDateTime(Some(y), Some(m), Some(d), 0, 0, 0, 0, 0, 0)
            == Success(Combine(PlainDates.PlainDate(y, m, d), PlainTimes.Midnight))
  {
  }

  /** `with_(year=, ..., nanosecond=)`: a field passed as `None` is read from the date-time and
      all nine go back through the constructor. The date half then changes as
      `PlainDate.with_` would change it and the time half as `PlainTime.with_` would. */
  function With(dt: PlainDateTime,
                year: Option<int>, month: Option<int>, day: Option<int>,
                hour: Option<int>, minute: Option<int>, second: Option<int>,
                millisecond: Option<int>, microsecond: Option<int>, nanosecond: Option<int>): (r: Result<PlainDateTime>)
    requires dt.Valid()
    ensures var date := PlainDates.With(PyDate(dt), year, month, day);
            var time := PlainTimes.With(PyTime(dt), hour, minute, second, millisecond, microsecond, nanosecond);
            && (r.Success? <==> date.Success? && time.Success?)
            && (r.Success? ==> r.value.Valid() && PyDate(r.value) == date.value && PyTime(r.value) == time.value)
    ensures r == Failure(AssertionFailed) <==> year == Some(0) || month == Some(0) || day == Some(0)
    ensures (&& year.None? && month.None? && day.None? && hour.None? && minute.None? && second.None?
             && millisecond.None? && microsecond.None?)
            ==> r == Success(dt)
  {
    var d := PyDate(dt);
    var t := PyTime(dt);
    PlainTimes.UnpackPack(t);
    NewPlainDateTime(Some(year.GetOr(d.year)), Some(month.GetOr(d.month)), Some(day.GetOr(d.day)),
                     hour.GetOr(PlainTimes.Hour(t)), minute.GetOr(PlainTimes.Minute(t)),
                     second.GetOr(PlainTimes.Second(t)), millisecond.GetOr(PlainTimes.Millisecond(t)),
                     microsecond.GetOr(PlainTimes.Microsecond(t)), nanosecond.GetOr(PlainTimes.Nanosecond(t)))
  }

  /** `with_plain_time(t)`: the date-time's year, month and day with all six fields of `t`,
      rebuilt through the constructor, which cannot reject them. */
  function WithPlainTime(dt: PlainDateTime, t: PlainTime): (r: PlainDateTime)
    requires dt.Valid() && t.Valid()
    ensures r.Valid()
    ensures PyDate(r) == PyDate(dt) && PyTime(r) == t
  {
    var d := PyDate(dt);
    PlainTimes.UnpackPack(t);
    NewPlainDateTime(Some(d.year), Some(d.month), Some(d.day),
                     PlainTimes.Hour(t), PlainTimes.Minute(t), PlainTimes.Second(t),
                     PlainTimes.Millisecond(t), PlainTimes.Microsecond(t), PlainTimes.Nanosecond(t)).value
  }

  /** `with_plain_date(d)`: asserts that `d` is an ISO 8601 date (every `PlainDate` is), then
      takes year, month and day from `d` and keeps every time field. */
  function WithPlainDate(dt: PlainDateTime, d: PlainDate): (r: PlainDateTime)
    requires dt.Valid() && d.Valid()
    ensures r.Valid()
    ensures PyDate(r) == d && PyTime(r) == PyTime(dt)
  {
    assert PlainDates.CalendarId(d) == PlainDates.IsoCalendarId;
    var t := PyTime(dt);
    PlainTimes.UnpackPack(t);
    NewPlainDateTime(Some(d.year), Some(d.month), Some(d.day),
                     PlainTimes.Hour(t), PlainTimes.Minute(t), PlainTimes.Second(t),
                     PlainTimes.Millisecond(t), PlainTimes.Microsecond(t), PlainTimes.Nanosecond(t)).value
  }

  /** `to_plain_date_time(plain_date=, plain_time=)`: combines the given date (or this
      date-time's own date when `None`) with the given time (or its own time). */
  function ToPlainDateTime(dt: PlainDateTime, date: Option<PlainDate>, time: Option<PlainTime>): (r: PlainDateTime)
    requires dt.Valid()
    requires date.Some? ==> date.value.Valid()
    requires time.Some? ==> time.value.Valid()
    ensures r.Valid()
    ensures date.None? ==> PyDate(r) == PyDate(dt)
    ensures date.Some? ==> PyDate(r) == date.value
    ensures time.None? ==> PyTime(r) == PyTime(dt)
    ensures time.Some? ==> PyTime(r) == time.value
    ensures date.None? && time.None? ==> r == dt
  {
    CombineProjections(dt);
    Combine(date.GetOr(PyDate(dt)), time.GetOr(PyTime(dt)))
  }

  /** `**a, **b` in a call: the two keyword sources are merged, and a key supplied by both
      is rejected with TypeError. */
  function MergeKeywords(a: map<string, int>, b: map<string, int>): (r: Result<map<string, int>>)
    ensures r.Success? <==> a.Keys !! b.Keys
    ensures r.Failure? ==> r.error == DuplicateKeyword
    ensures r.Success? ==> r.value.Keys == a.Keys + b.Keys
    ensures r.Success? ==> forall k :: k in a ==> r.value[k] == a[k]
    ensures r.Success? ==> forall k :: k in b ==> r.value[k] == b[k]
  {
    if a.Keys !! b.Keys then Success(a + b) else Failure(DuplicateKeyword)
  }

  /** `get_iso_fields`: the date's three ISO fields and the time's six, which never clash,
      so the merge succeeds with nine keys. */
  function IsoFields(dt: PlainDateTime): (r: Result<map<string, int>>)
    requires dt.Valid()
    ensures r.Success?
    ensures r.value.Keys == PlainDates.IsoFieldKeys + PlainTimes.IsoFieldKeys
    ensures |r.value.Keys| == 9
    ensures forall k :: k in PlainDates.IsoFieldKeys ==> r.value[k] == PlainDates.IsoFields(PyDate(dt))[k]
    ensures forall k :: k in PlainTimes.IsoFieldKeys ==> r.value[k] == PlainTimes.IsoFields(PyTime(dt))[k]
  {
    IsoFieldKeysDisjoint();
    MergeKeywords(PlainDates.IsoFields(PyDate(dt)), PlainTimes.IsoFields(PyTime(dt)))
  }

  /** The date keys and the time keys are distinct: three plus six. */
  lemma IsoFieldKeysDisjoint()
    ensures PlainDates.IsoFieldKeys !! PlainTimes.IsoFieldKeys
    ensures |PlainDates.IsoFieldKeys + PlainTimes.IsoFieldKeys| == 9
  {
  }

  /** Feeding the nine ISO fields back to the constructor rebuilds the same date-time. */
  lemma IsoFieldsRoundTrip(dt: PlainDateTime)
    requires dt.Valid()
    ensures var f := IsoFields(dt).value;
            NewPlainDateTime(Some(f["iso_year"]), Some(f["iso_month"]), Some(f["iso_day"]),
                             f["iso_hour"], f["iso_minute"], f["iso_second"],
                             f["iso_millisecond"], f["iso_microsecond"], f["iso_nanosecond"]) == Success(dt)
  {
    var f := IsoFields(dt).value;
    PlainDates.IsoFieldsRoundTrip(PyDate(dt));
    PlainTimes.IsoFieldsRoundTrip(PyTime(dt));
    assert "iso_year" in PlainDates.IsoFieldKeys && "iso_month" in PlainDates.IsoFieldKeys
        && "iso_day" in PlainDates.IsoFieldKeys;
    assert "iso_hour" in PlainTimes.IsoFieldKeys && "iso_minute" in PlainTimes.IsoFieldKeys
        && "iso_second" in PlainTimes.IsoFieldKeys && "iso_millisecond" in PlainTimes.IsoFieldKeys
        && "iso_microsecond" in PlainTimes.IsoFieldKeys && "iso_nanosecond" in PlainTimes.IsoFieldKeys;
    CombineProjections(dt);
  }
}
