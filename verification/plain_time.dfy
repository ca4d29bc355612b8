/** `PlainTime`: a wall-clock time held as the Python `time` it wraps. Milliseconds and
    microseconds share that value's one `microsecond` field, and nanoseconds are dropped. */
module PlainTimes {
  import opened Results

  /** The `py_time` a `PlainTime` wraps; `subsecond` is its `microsecond` field, that is
      `millisecond * 1000 + microsecond`. */
  datatype PlainTime = PlainTime(hour: int, minute: int, second: int, subsecond: int) {
    predicate Valid() {
      0 <= hour <= 23 && 0 <= minute <= 59 && 0 <= second <= 59 && 0 <= subsecond <= 999999
    }
  }

  /** `PlainTime()` with every argument defaulted. */
  const Midnight := PlainTime(0, 0, 0, 0)

  /** How the constructor folds milliseconds and microseconds into one field. */
  function Pack(millisecond: int, microsecond: int): int {
    millisecond * 1000 + microsecond
  }

  /** `PlainTime(iso_hour, ..., iso_nanosecond)`: builds `time(hour, minute, second,
      millisecond * 1000 + microsecond)`; only the packed sum is range-checked, and the
      nanosecond is never used. */
  function NewPlainTime(hour: int, minute: int, second: int,
                        millisecond: int, microsecond: int, nanosecond: int): (r: Result<PlainTime>)
    ensures r.Success? <==>
              0 <= hour <= 23 && 0 <= minute <= 59 && 0 <= second <= 59
              && 0 <= Pack(millisecond, microsecond) <= 999999
    ensures r.Failure? ==> r.error == ValueOutOfRange
    ensures r.Success? ==>
              && r.value.Valid()
              && Hour(r.value) == hour && Minute(r.value) == minute && Second(r.value) == second
              && Pack(Millisecond(r.value), Microsecond(r.value)) == Pack(millisecond, microsecond)
  {
    var packed := Pack(millisecond, microsecond);
    if 0 <= hour <= 23 && 0 <= minute <= 59 && 0 <= second <= 59 && 0 <= packed <= 999999 then
      Success(PlainTime(hour, minute, second, packed))
    else
      Failure(ValueOutOfRange)
  }

  /** `hour`, `minute`, `second`: the wrapped value's own fields, within a day's clock. */
  function Hour(t: PlainTime): (h: int)
    ensures t.Valid() ==> 0 <= h <= 23
  {
    t.hour
  }

  function Minute(t: PlainTime): (m: int)
    ensures t.Valid() ==> 0 <= m <= 59
  {
    t.minute
  }

  function Second(t: PlainTime): (s: int)
    ensures t.Valid() ==> 0 <= s <= 59
  {
    t.second
  }

  /** `millisecond`: the packed field divided by 1000. */
  function Millisecond(t: PlainTime): (ms: int)
    requires t.Valid()
    ensures 0 <= ms <= 999
  {
    t.subsecond / 1000
  }

  /** `microsecond`: the packed field modulo 1000. */
  function Microsecond(t: PlainTime): (us: int)
    requires t.Valid()
    ensures 0 <= us <= 999
  {
    t.subsecond % 1000
  }

  /** `nanosecond`: the wrapped value has no nanoseconds, so every time reads 0. */
  function Nanosecond(t: PlainTime): (ns: int)
    ensures ns == 0
  {
    0
  }

  /** Unpacking and packing again gives back the stored field. */
  lemma UnpackPack(t: PlainTime)
    requires t.Valid()
    ensures Pack(Millisecond(t), Microsecond(t)) == t.subsecond
  {
  }

  /** For millisecond and microsecond in 0..999 the getters read back what was passed. */
  lemma SubsecondRoundTrip(hour: int, minute: int, second: int, ms: int, us: int, ns: int)
    requires 0 <= hour <= 23 && 0 <= minute <= 59 && 0 <= second <= 59
    requires 0 <= ms <= 999 && 0 <= us <= 999
    ensures NewPlainTime(hour, minute, second, ms, us, ns).Success?
    ensures Millisecond(NewPlainTime(hour, minute, second, ms, us, ns).value) == ms
    ensures Microsecond(NewPlainTime(hour, minute, second, ms, us, ns).value) == us
  {
    var t := NewPlainTime(hour, minute, second, ms, us, ns).value;
    assert Pack(Millisecond(t), Microsecond(t)) == Pack(ms, us);
  }

  /** Microseconds beyond 999 carry into milliseconds: (ms = 0, us = 1500) reads back as
      (1, 500), and a packed value past 999999 is rejected. */
  lemma SubsecondCarries()
    ensures NewPlainTime(0, 0, 0, 0, 1500, 0).Success?
    ensures Millisecond(NewPlainTime(0, 0, 0, 0, 1500, 0).value) == 1
    ensures Microsecond(NewPlainTime(0, 0, 0, 0, 1500, 0).value) == 500
    ensures NewPlainTime(0, 0, 0, 999, 1000, 0) == Failure(ValueOutOfRange)
    ensures NewPlainTime(0, 0, 0, 1, -1000, 0).Success?
  {
  }

  /** The nanosecond argument never affects the result. */
  lemma NanosecondIgnored(hour: int, minute: int, second: int, ms: int, us: int, ns: int)
    ensures NewPlainTime(hour, minute, second, ms, us, ns) == NewPlainTime(hour, minute, second, ms, us, 0)
  {
  }

  /** `PlainTime()` is midnight, every field 0. */
  lemma DefaultIsMidnight()
    ensures NewPlainTime(0, 0, 0, 0, 0, 0) == Success(Midnight)
    ensures Hour(Midnight) == 0 && Minute(Midnight) == 0 && Second(Midnight) == 0
    ensures Millisecond(Midnight) == 0 && Microsecond(Midnight) == 0 && Nanosecond(Midnight) == 0
  {
    var r := NewPlainTime(0, 0, 0, 0, 0, 0);
    assert r.Success? && r.value.subsecond == 0;
  }

  /** `with_(hour=, ..., nanosecond=)`: a field passed as `None` is read from the time, and
      the six values go back through the constructor; so milliseconds and microseconds are
      packed again (a microsecond beyond 999 carries into the milliseconds). */
  function With(t: PlainTime, hour: Option<int>, minute: Option<int>, second: Option<int>,
                millisecond: Option<int>, microsecond: Option<int>, nanosecond: Option<int>): (r: Result<PlainTime>)
    requires t.Valid()
    ensures var packed := Pack(millisecond.GetOr(Millisecond(t)), microsecond.GetOr(Microsecond(t)));
            r.Success? <==>
              0 <= hour.GetOr(t.hour) <= 23 && 0 <= minute.GetOr(t.minute) <= 59
              && 0 <= second.GetOr(t.second) <= 59 && 0 <= packed <= 999999
    ensures r.Success? ==>
              && r.value.Valid()
              && Hour(r.value) == hour.GetOr(Hour(t))
              && Minute(r.value) == minute.GetOr(Minute(t))
              && Second(r.value) == second.GetOr(Second(t))
              && Pack(Millisecond(r.value), Microsecond(r.value))
                 == Pack(millisecond.GetOr(Millisecond(t)), microsecond.GetOr(Microsecond(t)))
    ensures r.Success? && microsecond.None? && millisecond.Some? ==> Millisecond(r.value) == millisecond.value
    ensures r.Success? && microsecond.None? && millisecond.None? ==> Microsecond(r.value) == Microsecond(t)
    ensures r.Success? && microsecond.Some? && 0 <= microsecond.value <= 999 && millisecond.None? ==>
              Millisecond(r.value) == Millisecond(t) && Microsecond(r.value) == microsecond.value
    ensures hour.None? && minute.None? && second.None? && millisecond.None? && microsecond.None?
            ==> r == Success(t)
  {
    NewPlainTime(hour.GetOr(Hour(t)), minute.GetOr(Minute(t)), second.GetOr(Second(t)),
                 millisecond.GetOr(Millisecond(t)), microsecond.GetOr(Microsecond(t)),
                 nanosecond.GetOr(Nanosecond(t)))
  }

  /** `to_plain_time`: a time with the same six field readings. */
  function ToPlainTime(t: PlainTime): (r: PlainTime)
    requires t.Valid()
    ensures r.Valid()
    ensures Hour(r) == Hour(t) && Minute(r) == Minute(t) && Second(r) == Second(t)
    ensures Millisecond(r) == Millisecond(t) && Microsecond(r) == Microsecond(t)
    ensures Nanosecond(r) == Nanosecond(t)
  {
    PlainTime(t.hour, t.minute, t.second, t.subsecond)
  }

  const IsoFieldKeys: set<string> :=
    {"iso_hour", "iso_minute", "iso_second", "iso_millisecond", "iso_microsecond", "iso_nanosecond"}

  /** `get_iso_fields`: the six getters under `iso_`-prefixed keys. */
  function IsoFields(t: PlainTime): (fields: map<string, int>)
    requires t.Valid()
    ensures fields.Keys == IsoFieldKeys
    ensures 0 <= fields["iso_hour"] <= 23 && 0 <= fields["iso_minute"] <= 59 && 0 <= fields["iso_second"] <= 59
    ensures 0 <= fields["iso_millisecond"] <= 999 && 0 <= fields["iso_microsecond"] <= 999
    ensures fields["iso_millisecond"] * 1000 + fields["iso_microsecond"] == t.subsecond
    ensures fields["iso_nanosecond"] == 0
  {
    UnpackPack(t);
    map["iso_hour" := Hour(t), "iso_minute" := Minute(t), "iso_second" := Second(t),
        "iso_millisecond" := Millisecond(t), "iso_microsecond" := Microsecond(t),
        "iso_nanosecond" := Nanosecond(t)]
  }

  /** Feeding the ISO fields back to the constructor rebuilds the same time. */
  lemma IsoFieldsRoundTrip(t: PlainTime)
    requires t.Valid()
    ensures var f := IsoFields(t);
            NewPlainTime(f["iso_hour"], f["iso_minute"], f["iso_second"],
                         f["iso_millisecond"], f["iso_microsecond"], f["iso_nanosecond"]) == Success(t)
  {
    UnpackPack(t);
  }
}
