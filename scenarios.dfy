/** Concrete utterances and instants: the reminder-bot scenarios, with
    `now` = 2020-06-01T10:00:00Z (a Monday) and America/Chicago at UTC-5. */
module Scenarios {
  import opened PyText
  import opened Pattern
  import opened Calendar
  import opened Strftime
  import opened NextAlert

  /** 2020-06-01T10:00:00+00:00. */
  const Now: Instant := 1_591_005_600_000_000
  /** America/Chicago in June (CDT), in seconds. */
  const Chicago: int := -18000

  /** Text without surrounding whitespace is its own stripped form. */
  lemma StripUntrimmable(s: string)
    requires s != [] && !IsSpace(s[0]) && !IsSpace(s[|s| - 1])
    ensures Strip(s) == s
  {
    StripAround([], s, []);
    assert [] + s + [] == s;
  }

  /** "next monday": the `next` form of Monday. */
  const NextMonday: string := "next monday"
  /** "Monday": the plain form of Monday. */
  const MondayText: string := "Monday"

  lemma NextMondayForm()
    ensures Strip(NextMonday) == NextMonday && Prefixed(NextMonday, Monday) && IsAscii(NextMonday)
  {
    var u := NextMonday;
    StripUntrimmable(u);
    assert u[..4] == "next" && u[5..] == "monday";
  }

  lemma MondayForm()
    ensures Strip(MondayText) == MondayText && Plain(MondayText, Monday) && IsAscii(MondayText)
  {
    StripUntrimmable(MondayText);
  }

  lemma NextMondayParsed(c: Collector)
    requires c == New(NextMonday, DefaultAlertTime)
    ensures IsValid(c) && c.matches.value.day == Monday && Sequence(c) == Ok(1)
  {
    NextMondayForm();
    SequenceOfUtterance(NextMonday, DefaultAlertTime, Monday);
  }

  /** The alert day stored for "next monday" is "monday". */
  lemma NextMondayDayOfWeek(c: Collector)
    requires c == New(NextMonday, DefaultAlertTime)
    ensures DayOfWeek(c) == Ok(Name(Monday))
  {
    NextMondayForm();
    DayOfWeekOfUtterance(NextMonday, DefaultAlertTime, Monday);
  }

  lemma MondayParsed(c: Collector)
    requires c == New(MondayText, DefaultAlertTime)
    ensures IsValid(c) && c.matches.value.day == Monday && Sequence(c) == Ok(0)
    ensures DayOfWeek(c) == Ok("monday")
  {
    MondayForm();
    SequenceOfUtterance(MondayText, DefaultAlertTime, Monday);
    DayOfWeekOfUtterance(MondayText, DefaultAlertTime, Monday);
  }

  /** For a valid Monday utterance at `Now` in Chicago: today (local day 18414,
      2020-06-01) is itself a Monday, so the alert lands 7 or 14 days later at
      09:30 local time, 14:30 UTC. */
  lemma AlertOnMonday(c: Collector)
    requires IsValid(c) && c.matches.value.day == Monday && c.alertTime == DefaultAlertTime
    ensures NextAlertAt(c, Now, Chicago).value
            == (18414 + 7 + 7 * Sequence(c).value) * MicrosPerDay + 52_200_000_000
  {
    var localNow := ToLocal(Now, Chicago);
    DivModUnique(Now + Chicago * MicrosPerSecond, 18414, 18_000_000_000);
    assert localNow.day == 18414;
    assert WeekdayOf(18414) == 0;
    AlertWallClock(c, Now, Chicago);
    var r := NextAlertAt(c, Now, Chicago).value;
    var l := ToLocal(r, Chicago);
    assert l.micros == 34_200_000_000;
    assert r == l.day * MicrosPerDay + l.micros - Chicago * MicrosPerSecond;
  }

  /** "next monday" at 2020-06-01T10:00Z fires at 2020-06-15T14:30Z. */
  lemma NextMondayScenario()
    ensures NextAlertAt(New(NextMonday, DefaultAlertTime), Now, Chicago) == Ok(1_592_231_400_000_000)
  {
    var c := New(NextMonday, DefaultAlertTime);
    NextMondayParsed(c);
    AlertOnMonday(c);
  }

  /** "Monday" at 2020-06-01T10:00Z fires at 2020-06-08T14:30Z. */
  lemma MondayScenario()
    ensures NextAlertAt(New(MondayText, DefaultAlertTime), Now, Chicago) == Ok(1_591_626_600_000_000)
  {
    var c := New(MondayText, DefaultAlertTime);
    MondayParsed(c);
    AlertOnMonday(c);
  }

  /** "Monday" is valid, with sequence 0 and day "monday". */
  lemma MondayIsValid()
    ensures IsValid(New(MondayText, DefaultAlertTime))
    ensures Sequence(New(MondayText, DefaultAlertTime)) == Ok(0)
    ensures DayOfWeek(New(MondayText, DefaultAlertTime)) == Ok("monday")
  {
    MondayParsed(New(MondayText, DefaultAlertTime));
  }

  /** "  NEXT\tFriday\n": surrounding whitespace and letter case do not
      matter, and a tab separates `next` from the weekday. */
  const PaddedNextFriday: string := "  NEXT\tFriday\n"

  /** What `strip` leaves of it. */
  const NextFriday: string := "NEXT\tFriday"

  lemma StripPadded()
    ensures Strip(PaddedNextFriday) == NextFriday
  {
    var a, b := "  ", "\n";
    StripAround(a, NextFriday, b);
    assert a + NextFriday + b == PaddedNextFriday;
  }

  lemma NextFridayForm()
    ensures Prefixed(NextFriday, Friday) && IsAscii(NextFriday)
  {
    var s := NextFriday;
    assert s[..4] == "NEXT" && s[5..] == "Friday";
  }

  lemma PaddedNextFridayForm()
    ensures Prefixed(Strip(PaddedNextFriday), Friday) && IsAscii(Strip(PaddedNextFriday))
  {
    StripPadded();
    NextFridayForm();
  }

  lemma PaddedNextFridaySequence(c: Collector)
    requires c == New(PaddedNextFriday, DefaultAlertTime)
    ensures Sequence(c) == Ok(1)
  {
    PaddedNextFridayForm();
    SequenceOfUtterance(PaddedNextFriday, DefaultAlertTime, Friday);
  }

  lemma PaddedNextFridayDayOfWeek(c: Collector)
    requires c == New(PaddedNextFriday, DefaultAlertTime)
    ensures DayOfWeek(c) == Ok(Name(Friday))
  {
    PaddedNextFridayForm();
    DayOfWeekOfUtterance(PaddedNextFriday, DefaultAlertTime, Friday);
  }

  /** Text that names no weekday in either form is invalid, and its accessors
      raise `CollectException`. */
  lemma InvalidUtterance(u: string, now: Instant, offset: int)
    requires forall w: Weekday :: !Plain(Strip(u), w) && !Prefixed(Strip(u), w)
    ensures !IsValid(New(u, DefaultAlertTime))
    ensures Sequence(New(u, DefaultAlertTime)) == Err(CollectException)
    ensures DayOfWeek(New(u, DefaultAlertTime)) == Err(CollectException)
    ensures NextAlertAt(New(u, DefaultAlertTime), now, offset) == Err(CollectException)
  {
  }

  /** "this is wrong" is invalid. */
  lemma ThisIsWrongIsInvalid()
    ensures !IsValid(New("this is wrong", DefaultAlertTime))
    ensures DayOfWeek(New("this is wrong", DefaultAlertTime)) == Err(CollectException)
    ensures NextAlertAt(New("this is wrong", DefaultAlertTime), Now, Chicago) == Err(CollectException)
  {
    var u := "this is wrong";
    StripUntrimmable(u);
    forall w: Weekday ensures !Plain(u, w) && !Prefixed(u, w) {
      assert !FoldEquals(u[..4], "next") by {
        assert !FoldMatches(u[0], 'n');
      }
      assert |u| != |Name(w)|;
    }
    InvalidUtterance(u, Now, Chicago);
  }

  /** "next  monday" (two spaces) is invalid: `\s` takes one character. */
  lemma TwoSpacesInvalid()
    ensures !IsValid(New("next  monday", DefaultAlertTime))
  {
    var a := "next  monday";
    StripUntrimmable(a);
    forall w: Weekday ensures !Plain(a, w) && !Prefixed(a, w) {
      if |a| == 5 + |Name(w)| {
        assert w == Tuesday;
        assert !FoldMatches(a[5], 't');
      }
    }
  }

  /** "saturday" is invalid: only Monday to Friday are accepted. */
  lemma SaturdayInvalid()
    ensures !IsValid(New("saturday", DefaultAlertTime))
  {
    var b := "saturday";
    StripUntrimmable(b);
    forall w: Weekday ensures !Plain(b, w) && !Prefixed(b, w) {
      if |b| == |Name(w)| {
        assert w == Thursday;
        assert !FoldMatches(b[1], 'h');
      }
    }
  }

  /** "mon" is invalid: abbreviations are not accepted. */
  lemma AbbreviationInvalid()
    ensures !IsValid(New("mon", DefaultAlertTime))
  {
    StripUntrimmable("mon");
  }

  /** The confirmation for "next monday" shows 09:30 AM. */
  lemma NextMondayFormattedTime()
    ensures FormattedTime(New(NextMonday, DefaultAlertTime), Now, Chicago, Chicago) == Ok("09:30 AM")
  {
    var c := New(NextMonday, DefaultAlertTime);
    NextMondayParsed(c);
    FormattedTimeShowsAlertTime(c, Now, Chicago);
    NineThirty();
  }

  lemma NineThirty()
    ensures Clock12(9, 30) == "09:30 AM"
  {
    assert TwoDigits(9) == "09" && TwoDigits(30) == "30";
  }
}
