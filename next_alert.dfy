/** `CollectNextAlert`: an utterance such as "Monday" or "next friday" checked
    against the weekday grammar, its accessors, and the UTC instant of the next
    reminder. The object is a record whose fields are set once on creation;
    the current time and the zone's UTC offset are explicit arguments. */
module NextAlert {
  import opened PyText
  import opened Pattern
  import opened Calendar
  import opened Strftime

  /** What the accessors raise: `CollectException('Certification date is
      invalid')`, or the `TypeError` of calling the `None` that `weekdays.get`
      returns for a name it does not know. */
  datatype Error = CollectException | TypeError

  datatype Result<+T> = Ok(value: T) | Err(error: Error)

  /** A `CollectNextAlert`: the raw utterance, the outcome of searching its
      stripped text, and the alert time. The zone is not stored: its UTC offset
      at the current time is an argument of `NextAlertAt`. */
  datatype Collector = Collector(date: string, matches: Option<Found>, alertTime: TimeOfDay)

  /** The default `alert_time`, `09:30:00`. */
  const DefaultAlertTime: TimeOfDay := TimeOfDay(9, 30, 0)

  /** `CollectNextAlert(date, alert_time=...)`: strip the utterance and search
      it for the pattern. A match exists exactly when the stripped text is in
      the grammar. */
  function New(date: string, alertTime: TimeOfDay): (c: Collector)
    ensures c.date == date && c.alertTime == alertTime
    ensures c.matches.Some? <==> InGrammar(Strip(date))
  {
    SearchIsGrammar(Strip(date));
    Collector(date, Search(Strip(date)), alertTime)
  }

  /** `is_valid`: the search found a match. */
  predicate IsValid(c: Collector) {
    c.matches.Some?
  }

  /** `sequence`: 1 when the `next` prefix took part in the match, 0 when it
      did not; `CollectException` when there is no match. */
  function Sequence(c: Collector): (r: Result<int>)
    ensures r.Err? <==> !IsValid(c)
    ensures r.Err? ==> r.error == CollectException
    ensures r.Ok? ==> (r.value == 1 <==> c.matches.value.prefix.Some?)
    ensures r.Ok? ==> r.value == 0 || r.value == 1
  {
    if !IsValid(c) then Err(CollectException)
    else
      var prefix := c.matches.value.prefix;
      Ok(if prefix.Some? && |prefix.value| > 0 then 1 else 0)
  }

  /** `day_of_week`: the matched weekday text, lower-cased by `str.lower()`;
      `CollectException` when there is no match. */
  function DayOfWeek(c: Collector): (r: Result<string>)
    ensures r.Err? <==> !IsValid(c)
    ensures r.Err? ==> r.error == CollectException
    ensures r.Ok? ==> |r.value| >= |Name(c.matches.value.day)|
  {
    if !IsValid(c) then Err(CollectException)
    else Ok(Lower(c.matches.value.dayText))
  }

  /** The local date of the next alert: one day after today, then on to the
      first `wd` on or after that (n = 1) or the second one (n = 2). */
  function AlertDate(localNow: LocalDateTime, wd: Weekday, sequence: int): LocalDateTime
    requires sequence == 0 || sequence == 1
  {
    AddRelative(localNow, 1, Index(wd), sequence + 1)
  }

  /** The local date-time of the alert turned back into UTC. */
  function AlertInstant(now: Instant, offset: int, wd: Weekday, sequence: int, t: TimeOfDay): Instant
    requires sequence == 0 || sequence == 1
  {
    ToUtc(Replace(AlertDate(ToLocal(now, offset), wd, sequence), t), offset)
  }

  /** `next_alert_at(now)` as intended: the weekday is the alternative that the
      pattern matched. Fails with `CollectException` exactly when the
      utterance is invalid; every valid utterance resolves. */
  function NextAlertAt(c: Collector, now: Instant, offset: int): (r: Result<Instant>)
    ensures r.Err? <==> !IsValid(c)
    ensures r.Err? ==> r.error == CollectException
  {
    if !IsValid(c) then Err(CollectException)
    else Ok(AlertInstant(now, offset, c.matches.value.day, Sequence(c).value, c.alertTime))
  }

  /** `next_alert_at(now)` as the source writes it: the weekday comes from
      looking up `day_of_week` (the lower-cased matched text) in `weekdays`,
      and a name the table lacks leaves `None`, whose call raises `TypeError`.
      Wherever it succeeds it agrees with `NextAlertAt`. */
  function NextAlertAtAsWritten(c: Collector, now: Instant, offset: int): (r: Result<Instant>)
    ensures r.Ok? ==> r == NextAlertAt(c, now, offset)
    ensures r.Err? <==> !IsValid(c) || DayOfWeek(c).value !in Weekdays
    ensures r.Err? && IsValid(c) ==> r.error == TypeError
  {
    match DayOfWeek(c)
    case Err(e) => Err(e)
    case Ok(name) =>
      if name !in Weekdays then Err(TypeError)
      else
        var wd := Weekdays[name];
        assert wd == c.matches.value.day by {
          NameInWeekdays(name, c.matches.value);
        }
        Ok(AlertInstant(now, offset, wd, Sequence(c).value, c.alertTime))
  }

  /** A weekday name in the table names the alternative that matched. */
  lemma NameInWeekdays(name: string, m: Match)
    requires name == Lower(m.dayText) && name in Weekdays
    requires FoldEquals(m.dayText, Name(m.day))
    ensures Weekdays[name] == m.day
  {
    var w := Weekdays[name];
    assert Name(w) == name;
    if w != m.day {
      LowerKeepsFold(m.dayText, Name(m.day), Name(w));
    }
  }

  /** Lower-casing text that one weekday name matches never yields another name. */
  lemma {:induction false} LowerKeepsFold(t: string, p: string, q: string)
    requires IsLowerWord(p) && IsLowerWord(q)
    requires FoldEquals(t, p) && Lower(t) == q
    ensures p == q
  {
    if t != [] {
      assert FoldMatches(t[0], p[0]);
      var head := LowerChar(t[0]);
      assert Lower(t) == head + Lower(t[1..]);
      assert q[..|head|] == head;
      assert IsLowerWord(head) by {
        forall i | 0 <= i < |head| ensures IsAsciiLower(head[i]) {
          assert head[i] == q[i];
        }
      }
      // only U+0130 lowers to two characters, and its second (U+0307) is no letter
      assert |head| == 1;
      assert q[0] == head[0] == p[0];
      assert FoldEquals(t[1..], p[1..]) by {
        forall i | 0 <= i < |t[1..]| ensures FoldMatches(t[1..][i], p[1..][i]) {
          assert FoldMatches(t[i + 1], p[i + 1]);
        }
      }
      assert Lower(t[1..]) == q[1..];
      LowerKeepsFold(t[1..], p[1..], q[1..]);
      assert p == [p[0]] + p[1..] && q == [q[0]] + q[1..];
    }
  }

  // ---------------------------------------------------------------------
  // The utterance: validity, `sequence` and `day_of_week`.

  /** A valid utterance names one weekday in one of the two forms: `sequence`
      is 1 exactly for the `next` form, and the match is that weekday. */
  lemma SequenceOfUtterance(u: string, t: TimeOfDay, w: Weekday)
    requires Plain(Strip(u), w) || Prefixed(Strip(u), w)
    ensures IsValid(New(u, t)) && New(u, t).matches.value.day == w
    ensures Sequence(New(u, t)) == Ok(if Prefixed(Strip(u), w) then 1 else 0)
  {
    SearchDay(Strip(u), w);
  }

  /** On ASCII text, `day_of_week` is the weekday's own lower-case name. */
  lemma DayOfWeekOfUtterance(u: string, t: TimeOfDay, w: Weekday)
    requires Plain(Strip(u), w) || Prefixed(Strip(u), w)
    requires IsAscii(Strip(u))
    ensures DayOfWeek(New(u, t)) == Ok(Name(w))
  {
    SearchDay(Strip(u), w);
    AsciiMatchDayOfWeek(New(u, t), Strip(u));
  }

  /** A weekday matched in ASCII text lowers to the weekday's name. */
  lemma AsciiMatchDayOfWeek(c: Collector, s: string)
    requires IsValid(c) && c.matches == Search(s) && IsAscii(s)
    ensures DayOfWeek(c) == Ok(Name(c.matches.value.day))
  {
    var m := c.matches.value;
    var start := if m.prefix.Some? then 5 else 0;
    AsciiSlice(s, start, start + |Name(m.day)|);
    DayOfWeekOfAsciiMatch(c);
  }

  /** A weekday matched by ASCII text lowers to the weekday's name. */
  lemma DayOfWeekOfAsciiMatch(c: Collector)
    requires IsValid(c) && IsAscii(c.matches.value.dayText)
    ensures DayOfWeek(c) == Ok(Name(c.matches.value.day))
  {
    var m := c.matches.value;
    LowerOfAsciiMatch(m.dayText, Name(m.day));
  }

  lemma AsciiSlice(s: string, i: nat, j: nat)
    requires i <= j <= |s| && IsAscii(s)
    ensures IsAscii(s[i..j])
  {
    forall k | 0 <= k < j - i ensures s[i..j][k] < '\U{0080}' {
      assert s[i..j][k] == s[i + k];
    }
  }

  /** On ASCII text the source's lookup through `weekdays` finds the weekday,
      so `next_alert_at` as written gives the intended instant. */
  lemma AsWrittenAgreesOnAscii(u: string, t: TimeOfDay, now: Instant, offset: int)
    requires IsAscii(Strip(u))
    ensures NextAlertAtAsWritten(New(u, t), now, offset) == NextAlertAt(New(u, t), now, offset)
  {
    var c := New(u, t);
    if IsValid(c) {
      AsciiMatchFindsName(c, Strip(u), now, offset);
    }
  }

  /** A match in ASCII text lowers to the weekday's name, which `weekdays` has. */
  lemma AsciiMatchFindsName(c: Collector, s: string, now: Instant, offset: int)
    requires IsValid(c) && c.matches == Search(s) && IsAscii(s)
    ensures NextAlertAtAsWritten(c, now, offset) == NextAlertAt(c, now, offset)
  {
    AsciiMatchDayOfWeek(c, s);
    WeekdaysTable(c.matches.value.day);
  }

  /** "frıday" with U+0131 LATIN SMALL LETTER DOTLESS I: the case-insensitive
      pattern accepts it, `str.lower()` leaves it as it is, `weekdays` has no
      such key, and `next_alert_at` as written raises `TypeError` on an
      utterance that `is_valid` accepted. */
  lemma DotlessIBreaksLookup(now: Instant, offset: int)
    ensures var c := New(DotlessFriday, DefaultAlertTime);
      && IsValid(c)
      && DayOfWeek(c) == Ok(DotlessFriday)
      && NextAlertAtAsWritten(c, now, offset) == Err(TypeError)
      && NextAlertAt(c, now, offset).Ok?
  {
    var c := New(DotlessFriday, DefaultAlertTime);
    DotlessFridayMatch(c);
    DotlessFridayDayOfWeek(c);
    DotlessFridayLookup(c, now, offset);
  }

  lemma DotlessFridayMatch(c: Collector)
    requires c == New(DotlessFriday, DefaultAlertTime)
    ensures IsValid(c) && c.matches.value.dayText == DotlessFriday
  {
    DotlessFridayIsFriday();
    SearchDay(DotlessFriday, Friday);
    SearchIsGrammar(DotlessFriday);
  }

  lemma DotlessFridayDayOfWeek(c: Collector)
    requires IsValid(c) && c.matches.value.dayText == DotlessFriday
    ensures DayOfWeek(c) == Ok(DotlessFriday)
  {
    LowerUnchanged(DotlessFriday);
  }

  lemma DotlessFridayLookup(c: Collector, now: Instant, offset: int)
    requires IsValid(c) && DayOfWeek(c) == Ok(DotlessFriday)
    ensures NextAlertAtAsWritten(c, now, offset) == Err(TypeError)
  {
    assert DotlessFriday[2] != "friday"[2];
  }

  /** "frıday" with U+0131 in place of the `i`. */
  const DotlessFriday: string := "fr\U{0131}day"

  /** The pattern reads "frıday" as Friday; there is nothing to strip. */
  lemma DotlessFridayIsFriday()
    ensures Strip(DotlessFriday) == DotlessFriday
    ensures Plain(DotlessFriday, Friday)
  {
    var u := DotlessFriday;
    assert LeadingSpace(u) == 0;
    assert TrailingEnd(u, 0, |u|) == |u|;
    assert FoldEquals(u, "friday") by {
      forall i | 0 <= i < 6 ensures FoldMatches(u[i], "friday"[i]) {
      }
    }
  }

  // ---------------------------------------------------------------------
  // The instant of the next alert.

  /** The local date and time of the next alert: strictly after today's local
      date, on the target weekday, `sequence` weeks after the nearest such day
      (so 1..7 days ahead for sequence 0 and 8..14 for sequence 1), never today
      even when today is the target weekday, at the alert time with
      microsecond 0. */
  lemma {:induction false} AlertWallClock(c: Collector, now: Instant, offset: int)
    requires IsValid(c)
    ensures var today := ToLocal(now, offset).day;
      var l := ToLocal(NextAlertAt(c, now, offset).value, offset);
      var s := Sequence(c).value;
      var wd := Index(c.matches.value.day);
      && today + 1 + 7 * s <= l.day <= today + 7 + 7 * s
      && WeekdayOf(l.day) == wd
      && (forall e :: today < e < l.day - 7 * s ==> WeekdayOf(e) != wd)
      && (WeekdayOf(today) == wd ==> l.day == today + 7 + 7 * s)
      && HourOf(l.micros) == c.alertTime.hour
      && MinuteOf(l.micros) == c.alertTime.minute
      && SecondOf(l.micros) == c.alertTime.second
      && MicrosecondOf(l.micros) == 0
      && l.micros == c.alertTime.Micros()
  {
    var localNow := ToLocal(now, offset);
    var today := localNow.day;
    var s := Sequence(c).value;
    var wd := Index(c.matches.value.day);
    var date := AlertDate(localNow, c.matches.value.day, s);
    var replaced := Replace(date, c.alertTime);
    LocalRoundTrip(replaced, offset);
    AddRelativeForward(localNow, 1, wd, s + 1);
    var k := DaysUntil(today + 1, wd);
    assert date.day == today + 1 + k + 7 * s;
    if WeekdayOf(today) == wd {
      WeekdayAfter(today, k + 1);
    }
  }

  /** `next X` fires exactly one week after `X` for the same current time,
      weekday and alert time. */
  lemma NextIsOneWeekLater(c0: Collector, c1: Collector, now: Instant, offset: int)
    requires IsValid(c0) && IsValid(c1)
    requires c0.matches.value.day == c1.matches.value.day && c0.alertTime == c1.alertTime
    requires Sequence(c0) == Ok(0) && Sequence(c1) == Ok(1)
    ensures NextAlertAt(c1, now, offset).value == NextAlertAt(c0, now, offset).value + 7 * MicrosPerDay
  {
    var localNow := ToLocal(now, offset);
    var wd := Index(c0.matches.value.day);
    AddRelativeForward(localNow, 1, wd, 1);
    AddRelativeForward(localNow, 1, wd, 2);
  }

  /** The utterance enters the result only through its weekday and `sequence`:
      `monday`, `MONDAY` and ` Monday ` give one instant. */
  lemma SameDescriptorSameInstant(c0: Collector, c1: Collector, now: Instant, offset: int)
    requires IsValid(c0) && IsValid(c1)
    requires c0.matches.value.day == c1.matches.value.day && c0.alertTime == c1.alertTime
    requires Sequence(c0) == Sequence(c1)
    ensures NextAlertAt(c0, now, offset) == NextAlertAt(c1, now, offset)
  {
  }

  // ---------------------------------------------------------------------
  // `formatted_date`, its `%I:%M %p` part.

  /** `formatted_date` without its `%A, %B %d at ` part, rendering the intended
      `NextAlertAt`: the time of the next
      alert (computed for `now` at UTC offset `offset`) on the wall clock of the
      zone at `displayOffset`, the offset the zone has at that instant.
      `CollectException` when the utterance is invalid. */
  function FormattedTime(c: Collector, now: Instant, offset: int, displayOffset: int): (r: Result<string>)
    ensures r.Err? <==> !IsValid(c)
    ensures r.Err? ==> r.error == CollectException
    ensures r.Ok? ==> ParseClock12(r.value).Some?
  {
    if !IsValid(c) then Err(CollectException)
    else
      var shown := ToLocal(NextAlertAt(c, now, offset).value, displayOffset).micros;
      Clock12RoundTrip(HourOf(shown), MinuteOf(shown));
      Ok(Clock12(HourOf(shown), MinuteOf(shown)))
  }

  /** `formatted_date` as the source writes it: through `next_alert_at` as
      written, so a valid utterance whose lowered weekday text is not a key of
      `weekdays` raises `TypeError` here too. Wherever it renders, it renders
      what `FormattedTime` does. */
  function FormattedTimeAsWritten(c: Collector, now: Instant, offset: int, displayOffset: int): (r: Result<string>)
    ensures r.Err? <==> !IsValid(c) || DayOfWeek(c).value !in Weekdays
    ensures r.Err? ==> r.error == (if IsValid(c) then TypeError else CollectException)
    ensures r.Ok? ==> r == FormattedTime(c, now, offset, displayOffset)
  {
    match NextAlertAtAsWritten(c, now, offset)
    case Err(e) => Err(e)
    case Ok(u) =>
      var shown := ToLocal(u, displayOffset).micros;
      Ok(Clock12(HourOf(shown), MinuteOf(shown)))
  }

  /** On ASCII utterances the source's `formatted_date` renders the intended time. */
  lemma FormattedAsWrittenAgreesOnAscii(u: string, t: TimeOfDay, now: Instant, offset: int, displayOffset: int)
    requires IsAscii(Strip(u))
    ensures FormattedTimeAsWritten(New(u, t), now, offset, displayOffset)
            == FormattedTime(New(u, t), now, offset, displayOffset)
  {
    var c := New(u, t);
    AsWrittenAgreesOnAscii(u, t, now, offset);
    if IsValid(c) {
      assert NextAlertAtAsWritten(c, now, offset).Ok?;
    }
  }

  /** The confirmation for "frıday" raises `TypeError` as the source
      writes it, where the intended rendering shows a time. */
  lemma DotlessIBreaksFormattedDate(now: Instant, offset: int, displayOffset: int)
    ensures var c := New(DotlessFriday, DefaultAlertTime);
      && FormattedTimeAsWritten(c, now, offset, displayOffset) == Err(TypeError)
      && FormattedTime(c, now, offset, displayOffset).Ok?
  {
    var c := New(DotlessFriday, DefaultAlertTime);
    DotlessFridayMatch(c);
    DotlessFridayDayOfWeek(c);
    DotlessFridayLookup(c, now, offset);
  }

  /** While the zone keeps its offset, the rendering shows the alert time. */
  lemma FormattedTimeShowsAlertTime(c: Collector, now: Instant, offset: int)
    requires IsValid(c)
    ensures FormattedTime(c, now, offset, offset) == Ok(Clock12(c.alertTime.hour, c.alertTime.minute))
  {
    AlertWallClock(c, now, offset);
  }

  /** The offset of `now` is kept through the date arithmetic: an alert set
      at 09:30 while the zone is at UTC-6 lands on 15:30 UTC, which the zone
      shows as 10:30 once it has moved to UTC-5. */
  lemma FormattedTimeAcrossOffsetChange(c: Collector, now: Instant)
    requires IsValid(c) && c.alertTime == DefaultAlertTime
    ensures FormattedTime(c, now, -21600, -18000) == Ok("10:30 AM")
  {
    AlertWallClock(c, now, -21600);
    var r := NextAlertAt(c, now, -21600).value;
    var l := ToLocal(r, -21600);
    var shown := ToLocal(r, -18000);
    assert l.micros == DefaultAlertTime.Micros() by {
      FieldsOfTime(DefaultAlertTime);
    }
    DivModUnique(r + -18000 * MicrosPerSecond, l.day, l.micros + 3600 * MicrosPerSecond);
    assert shown.micros == 37_800_000_000;
    assert HourOf(shown.micros) == 10 && MinuteOf(shown.micros) == 30;
    assert TwoDigits(10) == "10" && TwoDigits(30) == "30";
    assert Clock12(10, 30) == "10:30 AM";
  }
}
