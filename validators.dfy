/** The field validators of utils/validators.py. Each is a regular expression
    applied with Python's `re.match`: anchored at the start of the string only,
    so anything after the matched prefix is ignored.

    Each validator is written twice: as the left-to-right scan that the regular
    expression engine effectively performs (the executable predicate), and as
    the language of the pattern (a ghost predicate quantifying over the lengths
    the pattern allows). A lemma shows the two agree on every string. */
module Validators {
  import opened Text

  // ---------------------------------------------------------------------------
  // is_not_empty
  // ---------------------------------------------------------------------------

  /** `bool(value and value.strip())`. */
  predicate IsNotEmpty(v: string) {
    |v| > 0 && |Strip(v)| > 0
  }

  /** A value is "not empty" exactly when it holds a non-whitespace character. */
  lemma IsNotEmptyIffNonSpace(v: string)
    ensures IsNotEmpty(v) <==> exists i :: 0 <= i < |v| && !IsSpace(v[i])
  {
    StripEmptyIffAllSpace(v);
  }

  // ---------------------------------------------------------------------------
  // Shared scanning helpers
  // ---------------------------------------------------------------------------

  /** `t[p..p+n]` exists and is all decimal digits. */
  predicate DigitsAt(t: string, p: nat, n: nat) {
    p + n <= |t| && forall q :: p <= q < p + n ==> IsDigit(t[q])
  }

  /** How many characters the greedy `\d{1,2}` takes at position `p`: 2, 1, or 0
      when there is no digit there. */
  function DigitRun12(t: string, p: nat): (a: nat)
    requires p <= |t|
    ensures a <= 2 && DigitsAt(t, p, a)
    ensures a == 0 <==> !(p < |t| && IsDigit(t[p]))
  {
    if p < |t| && IsDigit(t[p]) then
      (if p + 1 < |t| && IsDigit(t[p + 1]) then 2 else 1)
    else 0
  }

  // ---------------------------------------------------------------------------
  // is_valid_email:  re.match(r"[^@]+@[^@]+\.[^@]+", email)
  // ---------------------------------------------------------------------------

  /** A `.` in `s[lo..hi]` with at least one character of that range on each side. */
  predicate HasInnerDot(s: string, lo: nat, hi: nat)
    requires hi <= |s|
  {
    exists k | lo + 1 <= k < hi - 1 :: s[k] == '.'
  }

  /** The scan: the text before the first `@` is non-empty, and the `@`-free run
      after it holds a dot with a character on each side. */
  predicate IsValidEmail(s: string) {
    var i := IndexFrom(s, '@', 0);
    0 < i < |s| && HasInnerDot(s, i + 1, IndexFrom(s, '@', i + 1))
  }

  /** No `@` in `s[lo..hi]`. */
  ghost predicate AtFree(s: string, lo: int, hi: int) {
    forall q :: lo <= q < hi && 0 <= q < |s| ==> s[q] != '@'
  }

  /** `s[..k]` matches `[^@]+@[^@]+\.[^@]+` with the `@` at `i` and the dot at `j`. */
  ghost predicate EmailPatternAt(s: string, i: int, j: int, k: int) {
    0 < i && i + 1 < j && j + 1 < k <= |s| &&
    s[i] == '@' && s[j] == '.' &&
    AtFree(s, 0, i) && AtFree(s, i + 1, j) && AtFree(s, j + 1, k)
  }

  ghost predicate MatchesEmailPattern(s: string) {
    exists i, j, k :: EmailPatternAt(s, i, j, k)
  }

  /** The scan accepts exactly the strings that start with a match of the pattern. */
  lemma IsValidEmailMatchesPattern(s: string)
    ensures IsValidEmail(s) <==> MatchesEmailPattern(s)
  {
    if IsValidEmail(s) {
      var i := IndexFrom(s, '@', 0);
      var n := IndexFrom(s, '@', i + 1);
      var j :| i + 2 <= j < n - 1 && s[j] == '.';
      assert EmailPatternAt(s, i, j, n);
    }
    if MatchesEmailPattern(s) {
      var i, j, k :| EmailPatternAt(s, i, j, k);
      assert IndexFrom(s, '@', 0) == i;
      assert IndexFrom(s, '@', i + 1) >= k;
    }
  }

  // ---------------------------------------------------------------------------
  // is_valid_date
  // ---------------------------------------------------------------------------

  predicate IsDateSep(c: char) {
    c == '-' || c == '/'
  }

  /** The greedy scan of `\d{1,2}[-/]\d{1,2}[-/]\d{4}` from the start of `t`. */
  predicate DatePrefix(t: string) {
    var a := DigitRun12(t, 0);
    a > 0 && a < |t| && IsDateSep(t[a]) &&
    var b := DigitRun12(t, a + 1);
    b > 0 && a + 1 + b < |t| && IsDateSep(t[a + 1 + b]) &&
    DigitsAt(t, a + b + 2, 4)
  }

  /** `t` starts with a match of `\d{1,2}[-/]\d{1,2}[-/]\d{4}` whose two
      `\d{1,2}` groups take `a` and `b` digits. */
  ghost predicate DatePatternWith(t: string, a: int, b: int) {
    (a == 1 || a == 2) && (b == 1 || b == 2) &&
    DigitsAt(t, 0, a) && a < |t| && IsDateSep(t[a]) &&
    DigitsAt(t, a + 1, b) && a + 1 + b < |t| && IsDateSep(t[a + 1 + b]) &&
    DigitsAt(t, a + b + 2, 4)
  }

  ghost predicate MatchesDatePattern(t: string) {
    exists a, b :: DatePatternWith(t, a, b)
  }

  lemma DatePrefixMatchesPattern(t: string)
    ensures DatePrefix(t) <==> MatchesDatePattern(t)
  {
    if DatePrefix(t) {
      var a := DigitRun12(t, 0);
      assert DatePatternWith(t, a, DigitRun12(t, a + 1));
    }
    if MatchesDatePattern(t) {
      var a, b :| DatePatternWith(t, a, b);
      // a separator is never a digit, so the greedy run stops exactly where the match does
      assert DigitRun12(t, 0) == a;
      assert DigitRun12(t, a + 1) == b;
    }
  }

  /** `is_valid_date`: "today" or "tomorrow" after lower-casing and stripping,
      or a string starting with `\d{1,2}[-/]\d{1,2}[-/]\d{4}`. */
  predicate IsValidDate(s: string) {
    var t := Strip(Lower(s));
    t == "today" || t == "tomorrow" || DatePrefix(t)
  }

  // ---------------------------------------------------------------------------
  // is_valid_time
  // ---------------------------------------------------------------------------

  /** `t[p..p+2]` is "am" or "pm". */
  predicate MeridiemAt(t: string, p: nat) {
    p + 2 <= |t| && (t[p..p + 2] == "am" || t[p..p + 2] == "pm")
  }

  /** `:\d{2}` at position `p`. */
  predicate MinutesAt(t: string, p: nat) {
    p < |t| && t[p] == ':' && DigitsAt(t, p + 1, 2)
  }

  /** The greedy scan of `\d{1,2}(:\d{2})?\s?(am|pm)` from the start of `t`. */
  predicate TwelveHourPrefix(t: string) {
    var a := DigitRun12(t, 0);
    a > 0 &&
    var m := if MinutesAt(t, a) then 3 else 0;
    var w := if a + m < |t| && IsSpace(t[a + m]) then 1 else 0;
    MeridiemAt(t, a + m + w)
  }

  /** The greedy scan of `\d{1,2}:\d{2}` from the start of `t`. */
  predicate ClockPrefix(t: string) {
    var a := DigitRun12(t, 0);
    a > 0 && MinutesAt(t, a)
  }

  /** `t` starts with a match of `\d{1,2}(:\d{2})?\s?(am|pm)` whose parts take
      `a` digits, `m` characters of minutes (0 or 3) and `w` spaces (0 or 1). */
  ghost predicate TwelveHourPatternWith(t: string, a: int, m: int, w: int) {
    (a == 1 || a == 2) && (m == 0 || m == 3) && (w == 0 || w == 1) &&
    DigitsAt(t, 0, a) &&
    (m == 3 ==> MinutesAt(t, a)) &&
    (w == 1 ==> a + m < |t| && IsSpace(t[a + m])) &&
    MeridiemAt(t, a + m + w)
  }

  ghost predicate ClockPatternWith(t: string, a: int) {
    (a == 1 || a == 2) && DigitsAt(t, 0, a) && MinutesAt(t, a)
  }

  ghost predicate MatchesTimePattern(t: string) {
    (exists a, m, w :: TwelveHourPatternWith(t, a, m, w)) ||
    (exists a :: ClockPatternWith(t, a))
  }

  lemma TwelveHourPrefixMatchesPattern(t: string)
    ensures TwelveHourPrefix(t) <==> exists a, m, w :: TwelveHourPatternWith(t, a, m, w)
  {
    if TwelveHourPrefix(t) {
      var a := DigitRun12(t, 0);
      var m := if MinutesAt(t, a) then 3 else 0;
      var w := if a + m < |t| && IsSpace(t[a + m]) then 1 else 0;
      assert TwelveHourPatternWith(t, a, m, w);
    }
    if exists a, m, w :: TwelveHourPatternWith(t, a, m, w) {
      var a, m, w :| TwelveHourPatternWith(t, a, m, w);
      TwelveHourPatternIsGreedy(t, a, m, w);
    }
  }

  /** A match of the time pattern is the one the greedy scan finds: a colon,
      a space, 'a' and 'p' are never digits, and 'a' and 'p' are never spaces,
      so every optional part is taken exactly when it is present. */
  lemma TwelveHourPatternIsGreedy(t: string, a: int, m: int, w: int)
    requires TwelveHourPatternWith(t, a, m, w)
    ensures TwelveHourPrefix(t)
  {
    assert DigitRun12(t, 0) == a;
    assert m == (if MinutesAt(t, a) then 3 else 0);
    assert w == 0 ==> t[a + m] == t[a + m..a + m + 2][0];
  }

  lemma ClockPrefixMatchesPattern(t: string)
    ensures ClockPrefix(t) <==> exists a :: ClockPatternWith(t, a)
  {
    if ClockPrefix(t) {
      assert ClockPatternWith(t, DigitRun12(t, 0));
    }
    if exists a :: ClockPatternWith(t, a) {
      var a :| ClockPatternWith(t, a);
      assert DigitRun12(t, 0) == a;
    }
  }

  /** `is_valid_time`: after lower-casing and stripping, the string starts with
      `\d{1,2}(:\d{2})?\s?(am|pm)` or with `\d{1,2}:\d{2}`. */
  predicate IsValidTime(s: string) {
    var t := Strip(Lower(s));
    TwelveHourPrefix(t) || ClockPrefix(t)
  }

  /** The time scan accepts exactly the strings whose lower-cased, stripped form
      starts with a match of one of the two patterns. */
  lemma IsValidTimeMatchesPattern(s: string)
    ensures IsValidTime(s) <==> MatchesTimePattern(Strip(Lower(s)))
  {
    TwelveHourPrefixMatchesPattern(Strip(Lower(s)));
    ClockPrefixMatchesPattern(Strip(Lower(s)));
  }

  /** The date scan accepts "today", "tomorrow" and exactly the strings whose
      lower-cased, stripped form starts with a match of the pattern. */
  lemma IsValidDateMatchesPattern(s: string)
    ensures IsValidDate(s) <==>
      var t := Strip(Lower(s));
      t == "today" || t == "tomorrow" || MatchesDatePattern(t)
  {
    DatePrefixMatchesPattern(Strip(Lower(s)));
  }

  // ---------------------------------------------------------------------------
  // Properties
  // ---------------------------------------------------------------------------

  lemma {:induction false} LowerAppend3(a: string, b: string, c: string)
    ensures Lower(a + b + c) == Lower(a) + Lower(b) + Lower(c)
  {
    assert |Lower(a + b + c)| == |Lower(a) + Lower(b) + Lower(c)|;
  }

  /** Letter case and surrounding whitespace never change the answer of the
      date and time validators: `s` padded with whitespace gets the same answer
      as any `u` that differs from `s` only in letter case. */
  lemma DateAndTimeIgnoreCaseAndPadding(s: string, u: string, pre: string, post: string)
    requires Lower(s) == Lower(u)
    requires AllSpace(pre) && AllSpace(post)
    ensures IsValidDate(pre + s + post) == IsValidDate(u)
    ensures IsValidTime(pre + s + post) == IsValidTime(u)
  {
    LowerAppend3(pre, s, post);
    StripSurrounding(Lower(pre), Lower(s), Lower(post));
  }

  /** Text without upper-case letters or surrounding whitespace is what the
      validators look at. */
  lemma PlainIsKept(t: string)
    requires |t| > 0 && !IsSpace(t[0]) && !IsSpace(t[|t| - 1])
    requires forall i :: 0 <= i < |t| ==> !('A' <= t[i] <= 'Z')
    ensures Strip(Lower(t)) == t
  {
    assert Lower(t) == t;
    StripLeftNonSpace(t);
    assert StripRight(t) == t;
  }

  /** The year-first form is rejected, although it is the first example in the
      validator's own documentation. */
  lemma YearFirstDateRejected(t: string)
    requires t == "2025-01-21"
    ensures !IsValidDate(t)
  {
    PlainIsKept(t);
    assert DigitRun12(t, 0) == 2;
  }

  /** No range check: day 31, month 99 passes. */
  lemma OutOfRangeDateAccepted(t: string)
    requires t == "31-99-2025"
    ensures IsValidDate(t)
  {
    PlainIsKept(t);
    assert DigitRun12(t, 0) == 2;
    assert DigitRun12(t, 3) == 2;
  }

  /** Anything after the date is ignored. */
  lemma TrailingTextAccepted(t: string)
    requires t == "31-01-2025 at noon"
    ensures IsValidDate(t)
  {
    PlainIsKept(t);
    assert DigitRun12(t, 0) == 2;
    assert DigitRun12(t, 3) == 2;
  }

  /** No range check on times either: "99:99" passes. */
  lemma OutOfRangeTimeAccepted(t: string)
    requires t == "99:99"
    ensures IsValidTime(t)
  {
    PlainIsKept(t);
    assert ClockPrefix(t);
  }

  /** A 24-hour clock time passes. */
  lemma TwentyFourHourTimeAccepted(t: string)
    requires t == "14:00"
    ensures IsValidTime(t)
  {
    PlainIsKept(t);
    assert ClockPrefix(t);
  }

  /** A meridiem glued to the hour passes. */
  lemma GluedMeridiemAccepted(t: string)
    requires t == "10am"
    ensures IsValidTime(t)
  {
    PlainIsKept(t);
    assert DigitRun12(t, 0) == 2;
    assert t[2..4] == "am";
    assert TwelveHourPrefix(t);
  }
}
