# Next-alert calculator

A Dafny model of `CollectNextAlert`, the core of an SMS reminder bot.

The bot reads a free-text utterance such as `Monday` or `next friday`. It
checks the stripped text against a small case-insensitive grammar. The grammar
allows an optional `next` followed by exactly one whitespace character, then
one of the five weekday names. The bot then exposes:

- `is_valid`;
- `sequence`: 1 with the `next` prefix, 0 without it;
- `day_of_week`: the matched name, lower-cased.

It also computes the UTC instant of the next reminder:

- Take the local date of `now`.
- Add one day, then go to the first target weekday on or after that date (or
  the second one for `next`), so today never counts.
- Overwrite the wall-clock time with the alert time (default 09:30:00,
  microsecond 0).
- Convert back to UTC.

`formatted_date` renders that instant for the confirmation message.

## Layout

- `text.dfy` (module `PyText`) holds the Python string primitives the code
  relies on:
  - `str.isspace`, which is also the regex class `\s`;
  - `str.strip`;
  - the literal comparison of `re.IGNORECASE`, including the non-ASCII
    letters it lets through;
  - `str.lower` on matched text.
- `pattern.dfy` (module `Pattern`) holds the regular expression as the matcher
  it compiles to (`Search`). It also states the grammar directly (`Plain`,
  `Prefixed`, `InGrammar`) and proves that the two agree.
- `calendar.dfy` (module `Calendar`) holds the date arithmetic:
  - instants in microseconds since the epoch;
  - wall-clock date-times at a UTC offset;
  - `datetime.weekday()`;
  - dateutil's `relativedelta(days=…, weekday=XX(n))`;
  - `datetime.replace`.
- `strftime.dfy` (module `Strftime`) holds the `%I:%M %p` rendering and a
  parser that reads it back.
- `next_alert.dfy` (module `NextAlert`) holds the collector itself, its
  accessors, `next_alert_at` (both as written and corrected, see Findings) and
  the properties of the alert instant.
- `scenarios.dfy` (module `Scenarios`) holds concrete utterances and
  instants, with `now` = 2020-06-01T10:00Z and the zone at UTC-5.
  - From the repository's tests: `next monday` fires at 2020-06-15T14:30Z with
    alert day `monday` (`NextMondayScenario`, `NextMondayDayOfWeek`);
    `Monday` is valid (`MondayIsValid`); `this is wrong` is invalid
    (`ThisIsWrongIsInvalid`).
  - The model's own: `Monday` fires at 2020-06-08T14:30Z; the padded
    `  NEXT\tFriday\n`; the invalid `next  monday`, `saturday` and `mon`; and
    the rendering `09:30 AM`.

The collector is an immutable record. Its fields are set once by the
constructor and never reassigned. So it is a `datatype`, and every operation is
a function. The current time and the zone's UTC offset are explicit arguments.

The zone is a fixed UTC offset. `astimezone(pytz.timezone(...))` attaches the
offset in force at `now`, and neither the `relativedelta` addition nor
`replace` re-evaluates it for the alert's date. So the whole computation runs
at that one offset, and the model takes it as a parameter.
`FormattedTimeAcrossOffsetChange` shows the consequence: an alert set while
the zone is at UTC-6 shows as 10:30 once the zone has moved to UTC-5.

## Model

| member | source | states |
|---|---|---|
| PyText.Strip | src/bot/collect/next_alert.py:33 | the stripped text is no longer than the input and neither starts nor ends with whitespace |
| PyText.StripIsSlice | src/bot/collect/next_alert.py:33 | `strip` returns a contiguous slice of the input with only whitespace before and after it |
| PyText.StripAround | src/bot/collect/next_alert.py:33 | whitespace runs around text with non-whitespace ends are exactly what `strip` removes |
| PyText.StripIdempotent | src/bot/collect/next_alert.py:33 | stripping twice is stripping once |
| PyText.LowerChar | src/bot/collect/next_alert.py:53 | `str.lower` of one character: ASCII capitals go to lower case, other ASCII is kept, only U+0130 grows to two characters (with U+0307 second) |
| PyText.Lower | src/bot/collect/next_alert.py:53 | `str.lower` never shortens text |
| PyText.LowerOfAsciiMatch | src/bot/collect/next_alert.py:53 | ASCII text matched case-insensitively by a lower-case word lowers to that word |
| PyText.LowerUnchanged | src/bot/collect/next_alert.py:53 | text without ASCII capitals, U+0130 or U+212A is unchanged by `str.lower` |
| Pattern.Name | src/bot/collect/next_alert.py:22-29 | each weekday name in the pattern and the table is a lower-case word of 6 to 9 letters |
| Pattern.Index | src/bot/collect/next_alert.py:23-29 | the dateutil weekday MO..FR of each table entry is 0..4 |
| Pattern.WeekdaysTable | src/bot/collect/next_alert.py:23-29 | the `weekdays` table maps each weekday's name to that weekday |
| Pattern.DayAt | src/bot/collect/next_alert.py:22 | the `day_of_week` group with `$` matches at a position exactly when one alternative spells the rest of the text; it returns the alternative that matched, or none matched |
| Pattern.Search | src/bot/collect/next_alert.py:22 | a match's `prefix` group is the first five characters when present, and its `day_of_week` group is the alternative's text, ending at `$` |
| Pattern.FoldMatchesUnique | src/bot/collect/next_alert.py:33 | under `re.IGNORECASE` one character matches at most one lower-case ASCII letter |
| Pattern.DayMatchUnique | src/bot/collect/next_alert.py:22 | no text matches two weekday alternatives at the same place |
| Pattern.AtEndOfTrimmed | src/bot/collect/next_alert.py:22-33 | on stripped text `$` means the end of the text |
| Pattern.DayMatchIsPlain | src/bot/collect/next_alert.py:22-33 | on stripped text the weekday group with `$` matches exactly when the rest is a weekday name |
| Pattern.SearchFound | src/bot/collect/next_alert.py:22-33 | a match on stripped text is in exactly one of the two forms, and its weekday group is the tail of the text |
| Pattern.SearchMissed | src/bot/collect/next_alert.py:22-33 | when the search fails, the stripped text is in neither form for any weekday |
| Pattern.SearchIsGrammar | src/bot/collect/next_alert.py:22-33 | the search succeeds on stripped text if and only if the text is in the grammar; the prefix group takes part if and only if the text is in the `next` form |
| Pattern.SearchDay | src/bot/collect/next_alert.py:22-33 | text in either form of weekday `w` is matched as `w` and not as another weekday |
| Calendar.TimeOfDay.Micros | src/bot/collect/next_alert.py:35 | an alert time is a time of day with microsecond 0 |
| Calendar.FieldsOfTime | src/bot/collect/next_alert.py:96-97 | hour, minute, second and microsecond read back from a time of day are its own fields and 0 |
| Calendar.ToLocal | src/bot/collect/next_alert.py:72 | `astimezone`: local day and time of day add up to the instant plus the offset |
| Calendar.ToUtc | src/bot/collect/next_alert.py:98 | `astimezone(UTC)`: the instant plus the offset is the wall clock |
| Calendar.LocalRoundTrip | src/bot/collect/next_alert.py:72-98 | a wall clock converted to UTC and back is the same wall clock |
| Calendar.UtcRoundTrip | src/bot/collect/next_alert.py:72-98 | an instant converted to a wall clock and back is the same instant |
| Calendar.WeekdayOf | src/bot/collect/next_alert.py:84-94 | `weekday()` lies in 0..6 |
| Calendar.WeekdayAfter | src/bot/collect/next_alert.py:84-94 | the weekday advances by one per day, modulo 7 |
| Calendar.DaysUntil | src/bot/collect/next_alert.py:94 | the distance to the first given weekday on or after a day is 0..6, lands on that weekday, and no earlier day in between has it |
| Calendar.AddRelative | src/bot/collect/next_alert.py:84-94 | `relativedelta` with `weekday=` keeps the time of day |
| Calendar.AddRelativeForward | src/bot/collect/next_alert.py:84-94 | for n >= 1 it adds the days, then goes to the first target weekday on or after that date, then n - 1 more weeks; the result falls on the target weekday |
| Calendar.Replace | src/bot/collect/next_alert.py:96-97 | `replace` keeps the date and sets hour, minute and second to the alert time with microsecond 0 |
| Strftime.TwoDigits | src/bot/collect/next_alert.py:60 | `%I` and `%M` are two decimal digits |
| Strftime.Hour12 | src/bot/collect/next_alert.py:60 | `%I` is 1..12 and agrees with the hour modulo 12 |
| Strftime.Meridian | src/bot/collect/next_alert.py:60 | `%p` is `AM` if and only if the hour is before noon |
| Strftime.Clock12 | src/bot/collect/next_alert.py:60 | `%I:%M %p` is eight characters long |
| Strftime.ParseClock12 | src/bot/collect/next_alert.py:60 | anything read back as a time came from an eight-character text |
| Strftime.TwoDigitsValue | src/bot/collect/next_alert.py:60 | two rendered digits read back as the number |
| Strftime.ParseClock12Renders | src/bot/collect/next_alert.py:60 | a text read back as an hour and minute is exactly their rendering |
| Strftime.Clock12RoundTrip | src/bot/collect/next_alert.py:60 | the rendering loses nothing: hour and minute read back from it |
| NextAlert.New | src/bot/collect/next_alert.py:31-35 | the constructor keeps the utterance and alert time, and a match exists if and only if the stripped utterance is in the grammar |
| NextAlert.Sequence | src/bot/collect/next_alert.py:45-48 | `sequence` raises `CollectException` if and only if the utterance is invalid; otherwise it is 1 if and only if the prefix group took part, and 0 otherwise |
| NextAlert.DayOfWeek | src/bot/collect/next_alert.py:50-53 | `day_of_week` raises `CollectException` if and only if the utterance is invalid; otherwise it is at least as long as the weekday's name |
| NextAlert.NextAlertAt | src/bot/collect/next_alert.py:62-98 | the alert instant, computed from the weekday that matched; fails with `CollectException` if and only if the utterance is invalid |
| NextAlert.NextAlertAtAsWritten | src/bot/collect/next_alert.py:73 | the weekday comes from looking up `day_of_week` in `weekdays`; it fails if and only if the utterance is invalid or the lowered name is not a key, the latter with `TypeError`, and it agrees with `NextAlertAt` wherever it succeeds |
| NextAlert.NameInWeekdays | src/bot/collect/next_alert.py:73 | a lowered match found in `weekdays` names the weekday that matched |
| NextAlert.LowerKeepsFold | src/bot/collect/next_alert.py:73 | lowering text that matches one weekday name never yields a different name |
| NextAlert.SequenceOfUtterance | src/bot/collect/next_alert.py:31-48 | an utterance whose stripped text is in either form of `w` is valid, is matched as `w`, and has `sequence` 1 exactly in the `next` form |
| NextAlert.DayOfWeekOfUtterance | src/bot/collect/next_alert.py:50-53 | for ASCII text, `day_of_week` is the weekday's lower-case name |
| NextAlert.DayOfWeekOfAsciiMatch | src/bot/collect/next_alert.py:53 | an ASCII weekday group lowers to the weekday's name |
| NextAlert.AsciiMatchDayOfWeek | src/bot/collect/next_alert.py:53 | a weekday matched in ASCII text has `day_of_week` equal to that weekday's name |
| NextAlert.AsciiMatchFindsName | src/bot/collect/next_alert.py:73 | for a match in ASCII text the lookup through `weekdays` finds the matched weekday, so `next_alert_at` as written agrees with the intended one |
| NextAlert.AsWrittenAgreesOnAscii | src/bot/collect/next_alert.py:73 | on ASCII utterances `next_alert_at` as written gives the intended result |
| NextAlert.DotlessIBreaksLookup | src/bot/collect/next_alert.py:73 | `frıday` (U+0131) is valid and lowers to itself, and `next_alert_at` as written raises `TypeError` where the intended one resolves |
| NextAlert.DotlessFridayMatch | src/bot/collect/next_alert.py:33 | `frıday` is matched, and its weekday group is the whole text |
| NextAlert.DotlessFridayDayOfWeek | src/bot/collect/next_alert.py:53 | `str.lower` keeps `frıday` as it is |
| NextAlert.DotlessFridayLookup | src/bot/collect/next_alert.py:73 | `weekdays.get('frıday')` finds nothing, so the call raises `TypeError` |
| NextAlert.DotlessFridayIsFriday | src/bot/collect/next_alert.py:22-33 | `frıday` has nothing to strip and spells Friday under `re.IGNORECASE` |
| NextAlert.AlertWallClock | src/bot/collect/next_alert.py:72-97 | the alert's local date is strictly after today: 1..7 days ahead for sequence 0 and 8..14 for sequence 1, on the target weekday, `sequence` weeks after the nearest such day, and a week out when today is the target; its wall clock is the alert time with microsecond 0 |
| NextAlert.NextIsOneWeekLater | src/bot/collect/next_alert.py:75-94 | `next X` fires exactly seven days after `X` |
| NextAlert.SameDescriptorSameInstant | src/bot/collect/next_alert.py:62-98 | the result depends on the utterance only through its weekday and `sequence` |
| NextAlert.FormattedTime | src/bot/collect/next_alert.py:55-60 | the intended `formatted_date`, rendering `NextAlertAt`: it raises `CollectException` if and only if the utterance is invalid; otherwise its time part is a well-formed `%I:%M %p` |
| NextAlert.FormattedTimeAsWritten | src/bot/collect/next_alert.py:55-60 | `formatted_date` as written, through `next_alert_at` as written: it fails if and only if the utterance is invalid (`CollectException`) or its lowered weekday text is not a key of `weekdays` (`TypeError`); wherever it renders, it renders what `FormattedTime` does |
| NextAlert.FormattedAsWrittenAgreesOnAscii | src/bot/collect/next_alert.py:58 | on ASCII utterances `formatted_date` as written renders the intended time |
| NextAlert.DotlessIBreaksFormattedDate | src/bot/collect/next_alert.py:58 | for `frıday`, `formatted_date` as written raises `TypeError` where the intended one renders a time |
| NextAlert.FormattedTimeShowsAlertTime | src/bot/collect/next_alert.py:58-60 | while the zone keeps its offset, the rendered time is the alert time |
| NextAlert.FormattedTimeAcrossOffsetChange | src/bot/collect/next_alert.py:72-98 | 09:30 computed at UTC-6 is shown as `10:30 AM` at UTC-5 |
| Scenarios.StripUntrimmable | src/bot/collect/next_alert.py:33 | text with non-whitespace ends is its own stripped form |
| Scenarios.NextMondayForm | test/test_bot/test_reminder_bot.py:28 | `next monday` needs no stripping, is the `next` form of Monday, and is ASCII |
| Scenarios.MondayForm | test/test_bot/test_reminder_bot.py:117 | `Monday` needs no stripping, is the plain form of Monday, and is ASCII |
| Scenarios.NextMondayParsed | test/test_bot/test_reminder_bot.py:28 | `next monday` is valid, matches Monday, with `sequence` 1 |
| Scenarios.NextMondayDayOfWeek | test/test_bot/test_reminder_bot.py:53 | the alert day stored for `next monday` is `monday` |
| Scenarios.MondayParsed | test/test_bot/test_reminder_bot.py:114-123 | `Monday` is valid, matches Monday, with `sequence` 0 and `day_of_week` `monday` |
| Scenarios.AlertOnMonday | src/bot/collect/next_alert.py:84-94 | at 2020-06-01T10:00Z in Chicago (a Monday) a Monday alert lands 7 or 14 days later at 14:30 UTC |
| Scenarios.NextMondayScenario | test/test_bot/test_reminder_bot.py:45-61 | `next monday` at 2020-06-01T10:00Z fires at 2020-06-15T14:30Z |
| Scenarios.MondayScenario | src/bot/collect/next_alert.py:85-94 | `Monday` at 2020-06-01T10:00Z fires at 2020-06-08T14:30Z |
| Scenarios.MondayIsValid | test/test_bot/test_reminder_bot.py:114-123 | `Monday` is valid |
| Scenarios.StripPadded | src/bot/collect/next_alert.py:33 | `  NEXT\tFriday\n` strips to `NEXT\tFriday` |
| Scenarios.NextFridayForm | src/bot/collect/next_alert.py:22 | `NEXT\tFriday` is the `next` form of Friday: case does not matter and a tab counts as whitespace |
| Scenarios.PaddedNextFridayForm | src/bot/collect/next_alert.py:22-33 | the padded utterance strips to the `next` form of Friday |
| Scenarios.PaddedNextFridaySequence | src/bot/collect/next_alert.py:45-48 | the padded utterance has `sequence` 1 |
| Scenarios.PaddedNextFridayDayOfWeek | src/bot/collect/next_alert.py:50-53 | the padded utterance has `day_of_week` `friday` |
| Scenarios.InvalidUtterance | src/bot/collect/next_alert.py:37-73 | text in neither form is invalid, and `sequence`, `day_of_week` and `next_alert_at` raise `CollectException` |
| Scenarios.ThisIsWrongIsInvalid | test/test_bot/test_reminder_bot.py:125-133 | `this is wrong` is invalid |
| Scenarios.TwoSpacesInvalid | src/bot/collect/next_alert.py:22 | `next  monday` is invalid: `\s` takes one character |
| Scenarios.SaturdayInvalid | src/bot/collect/next_alert.py:22 | `saturday` is invalid |
| Scenarios.AbbreviationInvalid | src/bot/collect/next_alert.py:22 | `mon` is invalid |
| Scenarios.NextMondayFormattedTime | src/bot/collect/next_alert.py:55-60 | the confirmation for `next monday` shows `09:30 AM` |
| Scenarios.NineThirty | src/bot/collect/next_alert.py:60 | 09:30 renders as `09:30 AM` |

## Left out

- `get_utc_now` (src/bot/collect/next_alert.py:8-14) reads the system clock. `now` is a required argument of every member instead.
- The IANA timezone database is not modelled. The zone is the UTC offset in force at `now`, as the code uses it, so DST transitions inside the computation are not modelled.
- NextAlert.FormattedTime: renders only the `%I:%M %p` part of `formatted_date`. The weekday and month names (`%A, %B`), which depend on the locale, and the day of the month (`%d`) are not modelled. The offset used for display is a parameter, not looked up.
- NextAlert.New: takes the alert time already parsed. `time.fromisoformat` and its errors are not modelled. The zone name is not stored, because its offset is a parameter of `NextAlertAt`.
- NextAlert.NextAlertAt: does not model the `OverflowError` of `datetime` outside years 1..9999. Instants are unbounded integers.
- NextAlert.DayOfWeekOfUtterance: stated for ASCII text only. For non-ASCII matches, `DotlessIBreaksLookup` and `LowerKeepsFold` say what happens.
- PyText.Lower: covers only the characters that an `re.IGNORECASE` match of a weekday name can contain, not all of Unicode.
- The regular-expression engine is not modelled in general. `Pattern.Search` is the matcher this one pattern compiles to.
- The webhook wrapper in services/api/lib/twilio/bot.py passes `is_valid` along and is not part of this model. The Twilio client in src/lib/twilio/client.py is foreign calls only and is not part of this model.

## Findings

| source | as written | input that shows it | evidently intended | confidence | as-written member | corrected member |
|---|---|---|---|---|---|---|
| src/bot/collect/next_alert.py:73 | `next_alert_at` looks the weekday up with `weekdays.get(self.day_of_week)`. `day_of_week` is the `str.lower()` of text matched with `re.IGNORECASE`, and that matching also accepts U+0131 for `i`, which `str.lower()` keeps. So the lookup returns `None`, and calling it raises `TypeError` on an utterance `is_valid` accepted. `formatted_date` calls `next_alert_at` (line 58) and raises the same `TypeError`. | `frıday` (with U+0131 LATIN SMALL LETTER DOTLESS I) | every valid utterance resolves to the weekday it matched | medium; not executed | NextAlert.NextAlertAtAsWritten, NextAlert.DotlessIBreaksLookup, NextAlert.FormattedTimeAsWritten, NextAlert.DotlessIBreaksFormattedDate | NextAlert.NextAlertAt, NextAlert.FormattedTime |
