/** Python's string primitives as the next-alert calculator uses them:
    `str.isspace` (also the `\s` class of a `str` regular expression),
    `str.strip()`, the literal comparison of `re.IGNORECASE`, and `str.lower()`
    on text that such a comparison accepted. */
module PyText {

  /** A value that may be Python's `None`. */
  datatype Option<+T> = None | Some(value: T)

  /** Python's whitespace: the code points for which `str.isspace()` holds.
      `str.strip()` removes exactly these, and the regular-expression class
      `\s` on a `str` pattern matches exactly these. */
  predicate IsSpace(c: char) {
    || c == '\t' || c == '\n' || c == '\U{000B}' || c == '\U{000C}' || c == '\r'
    || ('\U{001C}' <= c <= '\U{001F}')
    || c == ' ' || c == '\U{0085}' || c == '\U{00A0}' || c == '\U{1680}'
    || ('\U{2000}' <= c <= '\U{200A}')
    || c == '\U{2028}' || c == '\U{2029}' || c == '\U{202F}' || c == '\U{205F}'
    || c == '\U{3000}'
  }

  predicate IsAsciiLower(c: char) { 'a' <= c <= 'z' }

  predicate IsAsciiUpper(c: char) { 'A' <= c <= 'Z' }

  predicate IsAscii(s: string) {
    forall i :: 0 <= i < |s| ==> s[i] < '\U{0080}'
  }

  /** Number of leading whitespace characters: where `strip` starts. */
  function LeadingSpace(s: string): (i: nat)
    ensures i <= |s|
    ensures forall k :: 0 <= k < i ==> IsSpace(s[k])
    ensures i < |s| ==> !IsSpace(s[i])
  {
    if |s| > 0 && IsSpace(s[0]) then 1 + LeadingSpace(s[1..]) else 0
  }

  /** End of `s[..j]` once its trailing whitespace is dropped, not going below `lo`. */
  function TrailingEnd(s: string, lo: nat, j: nat): (e: nat)
    requires lo <= j <= |s|
    ensures lo <= e <= j
    ensures forall k :: e <= k < j ==> IsSpace(s[k])
    ensures e > lo ==> !IsSpace(s[e - 1])
    decreases j
  {
    if j > lo && IsSpace(s[j - 1]) then TrailingEnd(s, lo, j - 1) else j
  }

  /** Python's `s.strip()`: `s` without its leading and trailing whitespace. */
  function Strip(s: string): (r: string)
    ensures |r| <= |s|
    ensures r != [] ==> !IsSpace(r[0]) && !IsSpace(r[|r| - 1])
  {
    var i := LeadingSpace(s);
    var j := TrailingEnd(s, i, |s|);
    s[i..j]
  }

  /** What `strip` removes is whitespace: the result is a slice of `s` with
      only whitespace before and after it. */
  lemma StripIsSlice(s: string)
    ensures exists i, j {:trigger s[i..j]} ::
              0 <= i <= j <= |s| && Strip(s) == s[i..j]
              && (forall k :: 0 <= k < i ==> IsSpace(s[k]))
              && (forall k :: j <= k < |s| ==> IsSpace(s[k]))
  {
    var i := LeadingSpace(s);
    var j := TrailingEnd(s, i, |s|);
    assert Strip(s) == s[i..j];
  }

  /** Whitespace around text that neither starts nor ends with whitespace is
      exactly what `strip` removes. */
  lemma StripAround(a: string, x: string, b: string)
    requires forall k :: 0 <= k < |a| ==> IsSpace(a[k])
    requires forall k :: 0 <= k < |b| ==> IsSpace(b[k])
    requires x != [] && !IsSpace(x[0]) && !IsSpace(x[|x| - 1])
    ensures Strip(a + x + b) == x
  {
    var s := a + x + b;
    LeadingSpaceOver(a, x + b);
    assert a + (x + b) == s;
    TrailingEndOver(s, |a|, |a| + |x|);
    assert s[|a|..|a| + |x|] == x;
  }

  /** `LeadingSpace` skips a whitespace run `a` and stops at `rest`'s first
      non-whitespace character. */
  lemma {:induction false} LeadingSpaceOver(a: string, rest: string)
    requires forall k :: 0 <= k < |a| ==> IsSpace(a[k])
    requires rest != [] && !IsSpace(rest[0])
    ensures LeadingSpace(a + rest) == |a|
  {
    if a != [] {
      assert (a + rest)[1..] == a[1..] + rest;
      LeadingSpaceOver(a[1..], rest);
    } else {
      assert a + rest == rest;
    }
  }

  /** `TrailingEnd` from `j` stops at `e` when `s[e..j]` is whitespace and
      `s[e - 1]` is not. */
  lemma {:induction false} TrailingEndOver(s: string, lo: nat, e: nat)
    requires lo < e <= |s| && !IsSpace(s[e - 1])
    requires forall k :: e <= k < |s| ==> IsSpace(s[k])
    ensures TrailingEnd(s, lo, |s|) == e
  {
    TrailingEndFrom(s, lo, e, |s|);
  }

  lemma {:induction false} TrailingEndFrom(s: string, lo: nat, e: nat, j: nat)
    requires lo < e <= j <= |s| && !IsSpace(s[e - 1])
    requires forall k :: e <= k < j ==> IsSpace(s[k])
    ensures TrailingEnd(s, lo, j) == e
    decreases j
  {
    if j > e {
      TrailingEndFrom(s, lo, e, j - 1);
    }
  }

  /** `Strip` is idempotent: stripped text has nothing left to strip. */
  lemma StripIdempotent(s: string)
    ensures Strip(Strip(s)) == Strip(s)
  {
    var t := Strip(s);
    if t != [] {
      assert LeadingSpace(t) == 0;
      assert TrailingEnd(t, 0, |t|) == |t|;
    }
  }

  /** Whether `c` matches the lower-case ASCII letter `p` of a pattern compiled
      with `re.IGNORECASE`: its upper-case form matches, and so do the Unicode
      letters whose simple lower-case form is `p` (U+0130 for `i`, U+212A for
      `k`) or that the engine adds by hand (U+0131 for `i`, U+017F for `s`). */
  predicate FoldMatches(c: char, p: char)
    requires IsAsciiLower(p)
  {
    || c == p
    || (IsAsciiUpper(c) && c as int + 32 == p as int)
    || (p == 'i' && (c == '\U{0130}' || c == '\U{0131}'))
    || (p == 's' && c == '\U{017F}')
    || (p == 'k' && c == '\U{212A}')
  }

  predicate IsLowerWord(p: string) {
    forall i :: 0 <= i < |p| ==> IsAsciiLower(p[i])
  }

  /** Whether the literal `p` of an `re.IGNORECASE` pattern matches all of `t`. */
  predicate FoldEquals(t: string, p: string)
    requires IsLowerWord(p)
  {
    |t| == |p| && forall i :: 0 <= i < |t| ==> FoldMatches(t[i], p[i])
  }

  /** Python's `str.lower()` on one character that an `re.IGNORECASE` literal
      matched: ASCII upper-case letters go down to lower case, U+0130 becomes
      `i` followed by U+0307 COMBINING DOT ABOVE, U+212A becomes `k`, and every
      other such character (lower case already, U+0131, U+017F) stays. */
  function LowerChar(c: char): (r: string)
    ensures 1 <= |r| <= 2
    ensures |r| == 2 ==> r[1] == '\U{0307}'
    ensures IsAsciiUpper(c) ==> r == [(c as int + 32) as char]
    ensures c < '\U{0080}' && !IsAsciiUpper(c) ==> r == [c]
  {
    if IsAsciiUpper(c) then [(c as int + 32) as char]
    else if c == '\U{0130}' then "i\U{0307}"
    else if c == '\U{212A}' then "k"
    else [c]
  }

  /** Python's `str.lower()` on text made of characters `LowerChar` covers. */
  function Lower(s: string): (r: string)
    ensures |r| >= |s|
  {
    if s == [] then [] else LowerChar(s[0]) + Lower(s[1..])
  }

  /** Lower-casing undoes the case-insensitive match on ASCII text: ASCII text
      that `p` matches lowers to `p` itself. */
  lemma {:induction false} LowerOfAsciiMatch(t: string, p: string)
    requires IsLowerWord(p) && FoldEquals(t, p) && IsAscii(t)
    ensures Lower(t) == p
  {
    if t != [] {
      assert FoldEquals(t[1..], p[1..]) by {
        forall i | 0 <= i < |t[1..]| ensures FoldMatches(t[1..][i], p[1..][i]) {
          assert FoldMatches(t[i + 1], p[i + 1]);
        }
      }
      assert IsAscii(t[1..]) by {
        forall i | 0 <= i < |t[1..]| ensures t[1..][i] < '\U{0080}' {
          assert t[i + 1] < '\U{0080}';
        }
      }
      LowerOfAsciiMatch(t[1..], p[1..]);
      assert FoldMatches(t[0], p[0]);
      assert LowerChar(t[0]) == [p[0]];
      assert p == [p[0]] + p[1..];
    }
  }

  /** `str.lower()` leaves text alone that has no ASCII upper-case letter and
      neither U+0130 nor U+212A. */
  lemma {:induction false} LowerUnchanged(s: string)
    requires forall i :: 0 <= i < |s| ==> !IsAsciiUpper(s[i]) && s[i] != '\U{0130}' && s[i] != '\U{212A}'
    ensures Lower(s) == s
  {
    if s != [] {
      assert !IsAsciiUpper(s[0]) && s[0] != '\U{0130}' && s[0] != '\U{212A}';
      LowerUnchanged(s[1..]);
      assert s == [s[0]] + s[1..];
    }
  }
}
