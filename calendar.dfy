/** The date and time arithmetic behind `next_alert_at`: aware instants,
    wall-clock date-times in a zone with a fixed UTC offset, `datetime.weekday()`,
    dateutil's `relativedelta(days=..., weekday=XX(n))` and `datetime.replace`. */
module Calendar {

  const MicrosPerSecond: int := 1_000_000
  const MicrosPerMinute: int := 60_000_000
  const MicrosPerHour: int := 3_600_000_000
  const MicrosPerDay: int := 86_400_000_000

  /** An aware instant: microseconds since 1970-01-01T00:00:00 UTC. */
  type Instant = int

  /** A wall-clock time of day, in microseconds after local midnight. */
  type MicroOfDay = m: int | 0 <= m < 86_400_000_000

  /** A wall-clock date and time: `day` counts local calendar days from
      1970-01-01, `micros` is the time of day on that day. */
  datatype LocalDateTime = LocalDateTime(day: int, micros: MicroOfDay)

  type Hour = h: int | 0 <= h < 24
  type Sexagesimal = m: int | 0 <= m < 60

  /** A `datetime.time` as the alert time: hour, minute and second. */
  datatype TimeOfDay = TimeOfDay(hour: Hour, minute: Sexagesimal, second: Sexagesimal) {
    /** The time of day this time stands for, with microsecond 0. */
    function Micros(): (m: MicroOfDay)
      ensures m % MicrosPerSecond == 0
    {
      hour * MicrosPerHour + minute * MicrosPerMinute + second * MicrosPerSecond
    }
  }

  /** The hour, minute, second and microsecond fields of a wall-clock time. */
  function HourOf(m: MicroOfDay): Hour { m / MicrosPerHour }
  function MinuteOf(m: MicroOfDay): Sexagesimal { m % MicrosPerHour / MicrosPerMinute }
  function SecondOf(m: MicroOfDay): Sexagesimal { m % MicrosPerMinute / MicrosPerSecond }
  function MicrosecondOf(m: MicroOfDay): int { m % MicrosPerSecond }

  /** Reading the fields back from a time of day gives the time itself. */
  lemma FieldsOfTime(t: TimeOfDay)
    ensures HourOf(t.Micros()) == t.hour
    ensures MinuteOf(t.Micros()) == t.minute
    ensures SecondOf(t.Micros()) == t.second
    ensures MicrosecondOf(t.Micros()) == 0
  {
    var m := t.Micros();
    var low := t.minute * MicrosPerMinute + t.second * MicrosPerSecond;
    assert 0 <= low < MicrosPerHour;
    assert m == t.hour * MicrosPerHour + low;
    assert m % MicrosPerHour == low;
    var sub := t.second * MicrosPerSecond;
    assert 0 <= sub < MicrosPerMinute;
    assert low == t.minute * MicrosPerMinute + sub;
    assert low % MicrosPerMinute == sub;
    assert m % MicrosPerMinute == sub by {
      assert m == (t.hour * 60 + t.minute) * MicrosPerMinute + sub;
    }
  }

  /** `astimezone`: the wall clock that shows instant `u` at UTC offset
      `offset` (in seconds). */
  function ToLocal(u: Instant, offset: int): (l: LocalDateTime)
    ensures l.day * MicrosPerDay + l.micros == u + offset * MicrosPerSecond
  {
    var wall := u + offset * MicrosPerSecond;
    LocalDateTime(wall / MicrosPerDay, wall % MicrosPerDay)
  }

  /** `astimezone(UTC)` of a wall clock whose UTC offset is `offset` seconds. */
  function ToUtc(l: LocalDateTime, offset: int): (u: Instant)
    ensures u + offset * MicrosPerSecond == l.day * MicrosPerDay + l.micros
  {
    l.day * MicrosPerDay + l.micros - offset * MicrosPerSecond
  }

  /** A wall clock is shown by exactly one instant: converting it to UTC and
      back gives the wall clock again. */
  lemma LocalRoundTrip(l: LocalDateTime, offset: int)
    ensures ToLocal(ToUtc(l, offset), offset) == l
  {
    var wall := l.day * MicrosPerDay + l.micros;
    assert wall / MicrosPerDay == l.day && wall % MicrosPerDay == l.micros by {
      DivModUnique(wall, l.day, l.micros);
    }
  }

  /** An instant converted to a wall clock and back is the same instant. */
  lemma UtcRoundTrip(u: Instant, offset: int)
    ensures ToUtc(ToLocal(u, offset), offset) == u
  {
  }

  lemma DivModUnique(x: int, q: int, r: int)
    requires 0 <= r < MicrosPerDay && x == q * MicrosPerDay + r
    ensures x / MicrosPerDay == q && x % MicrosPerDay == r
  {
  }

  /** `datetime.weekday()` of local day number `day`: Monday is 0, and
      1970-01-01 was a Thursday (3). */
  function WeekdayOf(day: int): (w: int)
    ensures 0 <= w < 7
  {
    (day + 3) % 7
  }

  /** The weekday advances by one each day and repeats every seven days. */
  lemma WeekdayAfter(day: int, j: int)
    ensures WeekdayOf(day + j) == (WeekdayOf(day) + j) % 7
  {
  }

  /** Days from `day` up to the first day on or after it with weekday `wd`. */
  function DaysUntil(day: int, wd: int): (k: int)
    requires 0 <= wd < 7
    ensures 0 <= k < 7
    ensures WeekdayOf(day + k) == wd
    ensures forall e :: day <= e < day + k ==> WeekdayOf(e) != wd
  {
    var w := WeekdayOf(day);
    var k := (7 - w + wd) % 7;
    assert k == if wd >= w then wd - w else 7 - w + wd;
    WeekdayAfter(day, k);
    assert forall e :: day <= e < day + k ==> WeekdayOf(e) != wd by {
      forall e | day <= e < day + k ensures WeekdayOf(e) != wd {
        WeekdayAfter(day, e - day);
        assert e - day + w < 7 ==> WeekdayOf(e) == e - day + w;
        assert e - day + w >= 7 ==> WeekdayOf(e) == e - day + w - 7;
      }
    }
    k
  }

  /** `dt + relativedelta(days=days, weekday=XX(n))` from dateutil, for the
      weekday `wd` (0 = MO .. 6 = SU) and `n != 0`: add `days` first, then
      jump to the n-th `wd` on or after (for n < 0: on or before) that date.
      The time of day is not touched. */
  function AddRelative(l: LocalDateTime, days: int, wd: int, n: int): (r: LocalDateTime)
    requires 0 <= wd < 7 && n != 0
    ensures r.micros == l.micros
  {
    var start := l.day + days;
    var jump := (if n > 0 then n - 1 else -n - 1) * 7;
    if n > 0 then
      LocalDateTime(start + jump + (7 - WeekdayOf(start) + wd) % 7, l.micros)
    else
      LocalDateTime(start - (jump + (WeekdayOf(start) - wd) % 7), l.micros)
  }

  /** For n >= 1, the result is the first `wd` on or after the shifted date,
      plus n - 1 whole weeks. */
  lemma AddRelativeForward(l: LocalDateTime, days: int, wd: int, n: int)
    requires 0 <= wd < 7 && n >= 1
    ensures AddRelative(l, days, wd, n).day == l.day + days + DaysUntil(l.day + days, wd) + 7 * (n - 1)
    ensures WeekdayOf(AddRelative(l, days, wd, n).day) == wd
  {
    var start := l.day + days;
    var k := DaysUntil(start, wd);
    WeekdayAfter(start + k, 7 * (n - 1));
  }

  /** `datetime.replace(hour=, minute=, second=, microsecond=0)`: keep the
      date, set the time of day. */
  function Replace(l: LocalDateTime, t: TimeOfDay): (r: LocalDateTime)
    ensures r.day == l.day
    ensures HourOf(r.micros) == t.hour && MinuteOf(r.micros) == t.minute
    ensures SecondOf(r.micros) == t.second && MicrosecondOf(r.micros) == 0
  {
    FieldsOfTime(t);
    LocalDateTime(l.day, t.Micros())
  }
}
