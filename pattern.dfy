/** The utterance grammar of `CollectNextAlert.pattern`,
      ^(?P<prefix>next\s)?(?P<day_of_week>monday|tuesday|wednesday|thursday|friday)$
    searched with `re.IGNORECASE`, written out as the matcher it compiles to:
    an optional, greedily tried `next` plus one whitespace character, then the
    first weekday alternative (in the order written) that reaches `$`. */
module Pattern {
  import opened PyText

  /** The five weekdays of the `weekdays` table, in the pattern's order. */
  datatype Weekday = Monday | Tuesday | Wednesday | Thursday | Friday

  /** The weekday's name as it is written in the pattern and in `weekdays`. */
  function Name(w: Weekday): (s: string)
    ensures IsLowerWord(s) && 6 <= |s| <= 9
  {
    match w
    case Monday => "monday"
    case Tuesday => "tuesday"
    case Wednesday => "wednesday"
    case Thursday => "thursday"
    case Friday => "friday"
  }

  /** The weekday number of dateutil's MO..FR (and of `datetime.weekday()`). */
  function Index(w: Weekday): (n: int)
    ensures 0 <= n < 5
  {
    match w
    case Monday => 0
    case Tuesday => 1
    case Wednesday => 2
    case Thursday => 3
    case Friday => 4
  }

  /** The `weekdays` table: lower-case name to weekday. */
  const Weekdays: map<string, Weekday> :=
    map["monday" := Monday, "tuesday" := Tuesday, "wednesday" := Wednesday,
        "thursday" := Thursday, "friday" := Friday]

  lemma WeekdaysTable(w: Weekday)
    ensures Name(w) in Weekdays && Weekdays[Name(w)] == w
  {
  }

  /** What a successful search yields: group `prefix` (None when the optional
      group did not take part), group `day_of_week`, and which alternative of
      that group matched. */
  datatype Match = Match(prefix: Option<string>, dayText: string, day: Weekday)

  /** What every match of the pattern satisfies: the prefix group is `next`
      and one whitespace character, and the weekday group spells the
      alternative that matched. */
  predicate WellFormed(m: Match) {
    && (m.prefix.Some? ==>
          |m.prefix.value| == 5 && FoldEquals(m.prefix.value[..4], "next") && IsSpace(m.prefix.value[4]))
    && FoldEquals(m.dayText, Name(m.day))
  }

  type Found = m: Match | WellFormed(m) witness Match(None, "monday", Monday)

  /** `$` without MULTILINE: the end of the text, or just before a final newline. */
  predicate AtEnd(t: string, j: nat) {
    j == |t| || (j + 1 == |t| && t[j] == '\n')
  }

  /** Alternative `w` of the `day_of_week` group matches at `i` and reaches `$`. */
  predicate DayMatchAt(t: string, i: nat, w: Weekday) {
    i + |Name(w)| <= |t| && FoldEquals(t[i..i + |Name(w)|], Name(w)) && AtEnd(t, i + |Name(w)|)
  }

  /** The group `day_of_week` followed by `$`, from position `i`: the first
      alternative that succeeds. */
  function DayAt(t: string, i: nat): (r: Option<Weekday>)
    ensures r.Some? ==> DayMatchAt(t, i, r.value)
    ensures r.None? ==>
      && !DayMatchAt(t, i, Monday) && !DayMatchAt(t, i, Tuesday) && !DayMatchAt(t, i, Wednesday)
      && !DayMatchAt(t, i, Thursday) && !DayMatchAt(t, i, Friday)
  {
    if DayMatchAt(t, i, Monday) then Some(Monday)
    else if DayMatchAt(t, i, Tuesday) then Some(Tuesday)
    else if DayMatchAt(t, i, Wednesday) then Some(Wednesday)
    else if DayMatchAt(t, i, Thursday) then Some(Thursday)
    else if DayMatchAt(t, i, Friday) then Some(Friday)
    else None
  }

  /** The optional group `next\s` can match at the start of `t`. */
  predicate PrefixAt(t: string) {
    |t| >= 5 && FoldEquals(t[..4], "next") && IsSpace(t[4])
  }

  /** `re.search(pattern, t, re.IGNORECASE)`. The `^` anchor pins the match to
      position 0; the optional prefix is tried first and dropped on failure. */
  function Search(t: string): (r: Option<Found>)
    ensures r.Some? ==> r.value.prefix.None? || (|t| >= 5 && r.value.prefix == Some(t[..5]))
    ensures r.Some? ==>
      var start := if r.value.prefix.Some? then 5 else 0;
      DayMatchAt(t, start, r.value.day)
      && r.value.dayText == t[start..start + |Name(r.value.day)|]
  {
    if PrefixAt(t) && DayAt(t, 5).Some? then
      var w := DayAt(t, 5).value;
      assert t[..5][..4] == t[..4];
      Some(Match(Some(t[..5]), t[5..5 + |Name(w)|], w))
    else
      match DayAt(t, 0)
      case Some(w) => Some(Match(None, t[..|Name(w)|], w))
      case None => None
  }

  // ---------------------------------------------------------------------
  // The grammar stated directly, independently of the matcher.

  /** `t` is exactly the weekday `w`, in any case. */
  predicate Plain(t: string, w: Weekday) {
    FoldEquals(t, Name(w))
  }

  /** `t` is `next`, exactly one whitespace character, and the weekday `w`. */
  predicate Prefixed(t: string, w: Weekday) {
    |t| == 5 + |Name(w)| && FoldEquals(t[..4], "next") && IsSpace(t[4])
    && FoldEquals(t[5..], Name(w))
  }

  /** The language of the pattern on stripped text. */
  predicate InGrammar(t: string) {
    exists w: Weekday :: Plain(t, w) || Prefixed(t, w)
  }

  /** A character matches at most one lower-case ASCII letter. */
  lemma FoldMatchesUnique(c: char, p: char, q: char)
    requires IsAsciiLower(p) && IsAsciiLower(q)
    requires FoldMatches(c, p) && FoldMatches(c, q)
    ensures p == q
  {
  }

  /** No text matches two different weekday alternatives at the same place. */
  lemma DayMatchUnique(t: string, i: nat, v: Weekday, w: Weekday)
    requires DayMatchAt(t, i, v) && DayMatchAt(t, i, w)
    ensures v == w
  {
    var a, b := Name(v), Name(w);
    var k := if {v, w} == {Tuesday, Thursday} then 1 else 0;
    if v != w {
      assert a[k] != b[k] by {
        match v
        case Monday => {}
        case Tuesday => {}
        case Wednesday => {}
        case Thursday => {}
        case Friday => {}
      }
      assert FoldMatches(t[i..i + |a|][k], a[k]);
      assert FoldMatches(t[i..i + |b|][k], b[k]);
      assert t[i..i + |a|][k] == t[i + k] == t[i..i + |b|][k];
      FoldMatchesUnique(t[i + k], a[k], b[k]);
    }
  }

  /** On text that does not end in whitespace (such as stripped text), `$`
      means the end of the text. */
  lemma AtEndOfTrimmed(t: string, j: nat)
    requires t == [] || !IsSpace(t[|t| - 1])
    ensures AtEnd(t, j) <==> j == |t|
  {
  }

  /** `DayMatchAt` at `i` on trimmed text is `Plain` of the rest. */
  lemma DayMatchIsPlain(t: string, i: nat, w: Weekday)
    requires t == [] || !IsSpace(t[|t| - 1])
    requires i <= |t|
    ensures DayMatchAt(t, i, w) <==> Plain(t[i..], w)
  {
    AtEndOfTrimmed(t, i + |Name(w)|);
    if i + |Name(w)| == |t| {
      assert t[i..i + |Name(w)|] == t[i..];
    }
  }

  /** A match found by the matcher on trimmed text has the form its groups say. */
  lemma SearchFound(t: string)
    requires t == [] || !IsSpace(t[|t| - 1])
    requires Search(t).Some?
    ensures var m := Search(t).value;
      && (m.prefix.Some? ==> Prefixed(t, m.day) && !Plain(t, m.day))
      && (m.prefix.None? ==> Plain(t, m.day) && !Prefixed(t, m.day))
      && m.dayText == t[|t| - |Name(m.day)|..]
  {
    var m := Search(t).value;
    if m.prefix.Some? {
      DayMatchIsPlain(t, 5, m.day);
    } else {
      DayMatchIsPlain(t, 0, m.day);
      assert t[0..] == t;
    }
  }

  /** When the matcher finds nothing in trimmed text, the text is in neither form. */
  lemma SearchMissed(t: string, w: Weekday)
    requires t == [] || !IsSpace(t[|t| - 1])
    requires Search(t).None?
    ensures !Plain(t, w) && !Prefixed(t, w)
  {
    DayMatchIsPlain(t, 0, w);
    assert t[0..] == t;
    if |t| >= 5 {
      DayMatchIsPlain(t, 5, w);
    }
  }

  /** The matcher accepts exactly the grammar on trimmed text, and its groups
      say which form and which weekday the text has. */
  lemma SearchIsGrammar(t: string)
    requires t == [] || !IsSpace(t[|t| - 1])
    ensures Search(t).Some? <==> InGrammar(t)
    ensures Search(t).Some? ==>
      var m := Search(t).value;
      && (m.prefix.Some? <==> Prefixed(t, m.day))
      && (m.prefix.None? <==> Plain(t, m.day))
      && m.dayText == t[|t| - |Name(m.day)|..]
  {
    if Search(t).Some? {
      SearchFound(t);
    } else {
      forall w: Weekday ensures !Plain(t, w) && !Prefixed(t, w) {
        SearchMissed(t, w);
      }
    }
  }

  /** Trimmed text in either form of weekday `w` is matched as that weekday,
      with the prefix group taking part exactly in the `next` form. */
  lemma SearchDay(t: string, w: Weekday)
    requires t == [] || !IsSpace(t[|t| - 1])
    requires Plain(t, w) || Prefixed(t, w)
    ensures Search(t).Some? && Search(t).value.day == w
    ensures Search(t).value.prefix.Some? <==> Prefixed(t, w)
  {
    SearchIsGrammar(t);
    var m := Search(t).value;
    SearchFound(t);
    if Prefixed(t, w) {
      assert !Plain(t, w);
      assert !Plain(t, m.day);
      DayMatchIsPlain(t, 5, w);
      DayMatchIsPlain(t, 5, m.day);
      DayMatchUnique(t, 5, w, m.day);
    } else {
      assert !Prefixed(t, m.day);
      DayMatchIsPlain(t, 0, w);
      DayMatchIsPlain(t, 0, m.day);
      assert t[0..] == t;
      DayMatchUnique(t, 0, w, m.day);
    }
  }
}
