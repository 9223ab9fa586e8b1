/** The `%I:%M %p` part of `strftime`: the hour on a 12-hour clock and the
    minute, both as two zero-padded digits, then `AM` or `PM`. */
module Strftime {
  import opened PyText
  import opened Calendar

  /** A number below 100 as two decimal digits, zero-padded. */
  function TwoDigits(n: int): (s: string)
    requires 0 <= n < 100
    ensures |s| == 2 && '0' <= s[0] <= '9' && '0' <= s[1] <= '9'
  {
    [('0' as int + n / 10) as char, ('0' as int + n % 10) as char]
  }

  /** `%I`: the hour on a 12-hour clock, where midnight and noon are 12. */
  function Hour12(h: Hour): (r: int)
    ensures 1 <= r <= 12
    ensures r % 12 == h % 12
  {
    if h % 12 == 0 then 12 else h % 12
  }

  /** `%p` in the C locale. */
  function Meridian(h: Hour): (s: string)
    ensures s == "AM" <==> h < 12
  {
    if h < 12 then "AM" else "PM"
  }

  /** `strftime('%I:%M %p')` of a time with hour `h` and minute `m`. */
  function Clock12(h: Hour, m: Sexagesimal): (s: string)
    ensures |s| == 8
  {
    TwoDigits(Hour12(h)) + ":" + TwoDigits(m) + " " + Meridian(h)
  }

  function DigitValue(c: char): (d: int)
    requires '0' <= c <= '9'
    ensures 0 <= d < 10
  {
    c as int - '0' as int
  }

  /** Reads back a `%I:%M %p` rendering as an hour (0..23) and a minute. */
  function ParseClock12(s: string): (r: Option<(Hour, Sexagesimal)>)
    ensures r.Some? ==> |s| == 8
  {
    if |s| == 8 && s[2] == ':' && s[5] == ' ' && s[7] == 'M'
       && (s[6] == 'A' || s[6] == 'P')
       && '0' <= s[0] <= '9' && '0' <= s[1] <= '9'
       && '0' <= s[3] <= '9' && '0' <= s[4] <= '9'
    then
      var h12 := DigitValue(s[0]) * 10 + DigitValue(s[1]);
      var m := DigitValue(s[3]) * 10 + DigitValue(s[4]);
      if 1 <= h12 <= 12 && m < 60 then
        Some(((if h12 == 12 then 0 else h12) + (if s[6] == 'P' then 12 else 0), m))
      else None
    else None
  }

  /** Two decimal digits read back as the number they render. */
  lemma TwoDigitsValue(n: int)
    requires 0 <= n < 100
    ensures DigitValue(TwoDigits(n)[0]) * 10 + DigitValue(TwoDigits(n)[1]) == n
  {
  }

  /** Whatever is read back renders as the text it was read from. */
  lemma ParseClock12Renders(s: string)
    requires ParseClock12(s).Some?
    ensures Clock12(ParseClock12(s).value.0, ParseClock12(s).value.1) == s
  {
    var (h, m) := ParseClock12(s).value;
    var h12 := DigitValue(s[0]) * 10 + DigitValue(s[1]);
    assert Hour12(h) == h12;
    var r := Clock12(h, m);
    var a, b := TwoDigits(h12), TwoDigits(m);
    assert r == a + ":" + b + " " + Meridian(h);
    assert a[0] == s[0] && a[1] == s[1];
    assert b[0] == s[3] && b[1] == s[4];
    assert Meridian(h)[0] == s[6];
    assert forall k :: 0 <= k < 8 ==> r[k] == s[k];
  }

  /** The rendering loses nothing: the hour and minute can be read back. */
  lemma Clock12RoundTrip(h: Hour, m: Sexagesimal)
    ensures ParseClock12(Clock12(h, m)) == Some((h, m))
  {
    var s := Clock12(h, m);
    var h12 := Hour12(h);
    TwoDigitsValue(h12);
    TwoDigitsValue(m);
    assert s[..2] == TwoDigits(h12) && s[3..5] == TwoDigits(m);
    assert s[6] == 'P' <==> h >= 12;
  }
}
