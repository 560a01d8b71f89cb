/** The schedule checks of app.py: whether a typed date falls on a Sunday
    (`is_sunday`, app.py:187-207), reading a typed clock time
    (`normalize_time`, app.py:229-249), whether a time lies within a clinic's
    opening hours (app.py:252-260) and whether a clinic is open on a date
    (app.py:268-270).

    Dates and times are read the way `datetime.strptime` reads them: each
    directive is a small regular expression, a space in the format matches one
    or more whitespace characters, and the whole text must be consumed.
    "Today" comes from the wall clock in the source; here it is a parameter. */
module Schedule {
  import opened Text
  import opened Directory

  // ---------------------------------------------------------------------------
  // The proleptic Gregorian calendar of Python's `datetime`
  // ---------------------------------------------------------------------------

  datatype Date = Date(year: int, month: int, day: int)

  predicate IsLeapYear(y: int) {
    y % 4 == 0 && (y % 100 != 0 || y % 400 == 0)
  }

  function DaysInMonth(y: int, m: int): (n: int)
    requires 1 <= m <= 12
    ensures 28 <= n <= 31
  {
    if m == 2 then (if IsLeapYear(y) then 29 else 28)
    else if m == 4 || m == 6 || m == 9 || m == 11 then 30
    else 31
  }

  /** A date `datetime` accepts: years 1 to 9999, a month, and a day the month
      has. Anything else raises ValueError. */
  predicate IsCalendarDate(d: Date) {
    1 <= d.year <= 9999 && 1 <= d.month <= 12 && 1 <= d.day <= DaysInMonth(d.year, d.month)
  }

  /** Days in the years before year `y`. */
  function DaysBeforeYear(y: int): int {
    var p := y - 1;
    p * 365 + p / 4 - p / 100 + p / 400
  }

  /** Days in the months of year `y` before month `m`. */
  function DaysBeforeMonth(y: int, m: int): int
    requires 1 <= m <= 12
  {
    [0, 31, 59, 90, 120, 151, 181, 212, 243, 273, 304, 334][m - 1]
      + (if m > 2 && IsLeapYear(y) then 1 else 0)
  }

  /** `toordinal()`: 1 January of year 1 is day 1. */
  function Ordinal(d: Date): int
    requires 1 <= d.month <= 12
  {
    DaysBeforeYear(d.year) + DaysBeforeMonth(d.year, d.month) + d.day
  }

  /** `weekday()` of the day with the given ordinal: Monday is 0, Sunday 6
      (day 1 was a Monday). */
  function Weekday(ordinal: int): (w: int)
    ensures 0 <= w < 7
  {
    (ordinal + 6) % 7
  }

  const SUNDAY: int := 6

  /** The calendar day after `d`. */
  function NextDay(d: Date): Date
    requires IsCalendarDate(d)
  {
    if d.day < DaysInMonth(d.year, d.month) then Date(d.year, d.month, d.day + 1)
    else if d.month < 12 then Date(d.year, d.month + 1, 1)
    else Date(d.year + 1, 1, 1)
  }

  /** A year has 366 days exactly when it is a leap year. */
  lemma DaysBeforeYearStep(y: int)
    ensures DaysBeforeYear(y + 1) == DaysBeforeYear(y) + (if IsLeapYear(y) then 366 else 365)
  {
    var p := y - 1;
    assert y / 4 - p / 4 == (if y % 4 == 0 then 1 else 0);
    assert y / 100 - p / 100 == (if y % 100 == 0 then 1 else 0);
    assert y / 400 - p / 400 == (if y % 400 == 0 then 1 else 0);
    if y % 100 == 0 {
      assert y == 100 * (y / 100);
      assert y % 4 == 0;
    }
    if y % 400 == 0 {
      assert y == 400 * (y / 400);
      assert y % 100 == 0;
    }
  }

  /** Adding one day to a date adds one to its ordinal, and the next day is a
      date `datetime` can hold unless it falls in year 10000. */
  lemma OrdinalNextDay(d: Date)
    requires IsCalendarDate(d)
    ensures 1 <= NextDay(d).month <= 12
    ensures Ordinal(NextDay(d)) == Ordinal(d) + 1
    ensures IsCalendarDate(NextDay(d)) <==> NextDay(d).year <= 9999
  {
    if d.day == DaysInMonth(d.year, d.month) && d.month == 12 {
      DaysBeforeYearStep(d.year);
    }
  }

  // ---------------------------------------------------------------------------
  // strptime fields
  // ---------------------------------------------------------------------------

  /** `1[0-2]|0[1-9]|[1-9]`: the text strptime's `%m` and `%I` accept. */
  predicate OneToTwelveText(s: string) {
    (|s| == 1 && '1' <= s[0] <= '9') ||
    (|s| == 2 && ((s[0] == '1' && '0' <= s[1] <= '2') || (s[0] == '0' && '1' <= s[1] <= '9')))
  }

  /** `int(s)` of a field of one or two digits. */
  function SmallValue(s: string): (v: nat)
    requires 1 <= |s| <= 2 && IsDigits(s)
    ensures v < 100
  {
    if |s| == 1 then DigitValue(s[0]) else 10 * DigitValue(s[0]) + DigitValue(s[1])
  }

  function OneToTwelveValue(s: string): (v: int)
    requires OneToTwelveText(s)
    ensures 1 <= v <= 12
  {
    SmallValue(s)
  }

  /** `3[01]|[12]\d|0[1-9]|[1-9]| [1-9]`: the text strptime's `%d` accepts. */
  predicate DayText(s: string) {
    (|s| == 1 && '1' <= s[0] <= '9') ||
    (|s| == 2 && (
      (s[0] == '3' && '0' <= s[1] <= '1') ||
      ('1' <= s[0] <= '2' && IsDigit(s[1])) ||
      (s[0] == '0' && '1' <= s[1] <= '9') ||
      (s[0] == ' ' && '1' <= s[1] <= '9')))
  }

  function DayValue(s: string): (v: int)
    requires DayText(s)
    ensures 1 <= v <= 31
  {
    if s[0] == ' ' then DigitValue(s[1]) else SmallValue(s)
  }

  /** `\d\d\d\d`: the text strptime's `%Y` accepts. */
  predicate YearText(s: string) {
    |s| == 4 && IsDigits(s)
  }

  /** `int(s)` of a four-digit year field. */
  function YearValue(s: string): (v: nat)
    requires YearText(s)
    ensures v < 10000
  {
    1000 * DigitValue(s[0]) + 100 * DigitValue(s[1]) + 10 * DigitValue(s[2]) + DigitValue(s[3])
  }

  /** `[0-5]\d|\d`: the text strptime's `%M` accepts. */
  predicate MinuteText(s: string) {
    (|s| == 1 && IsDigit(s[0])) || (|s| == 2 && '0' <= s[0] <= '5' && IsDigit(s[1]))
  }

  function MinuteValue(s: string): (v: int)
    requires MinuteText(s)
    ensures 0 <= v < 60
  {
    SmallValue(s)
  }

  // ---------------------------------------------------------------------------
  // Dates
  // ---------------------------------------------------------------------------

  /** The date with these numbers, or `None` where `datetime` raises ValueError. */
  function CheckedDate(year: int, month: int, day: int): Option<Date> {
    if IsCalendarDate(Date(year, month, day)) then Some(Date(year, month, day)) else None
  }

  /** `datetime.strptime(u, "%d-%m-%Y")`, `None` where it raises ValueError.
      No field can hold a `-`, so the pattern matches the whole text exactly when
      splitting on `-` gives three pieces that are a day, a month and a year. */
  function ParseDayFirst(u: string): (r: Option<Date>)
    ensures r.Some? ==> IsCalendarDate(r.value)
  {
    var parts := Split(u, '-');
    if |parts| == 3 && DayText(parts[0]) && OneToTwelveText(parts[1]) && YearText(parts[2])
    then CheckedDate(YearValue(parts[2]), OneToTwelveValue(parts[1]), DayValue(parts[0]))
    else None
  }

  /** `datetime.strptime(u, "%Y-%m-%d")`, `None` where it raises ValueError. */
  function ParseYearFirst(u: string): (r: Option<Date>)
    ensures r.Some? ==> IsCalendarDate(r.value)
  {
    var parts := Split(u, '-');
    if |parts| == 3 && YearText(parts[0]) && OneToTwelveText(parts[1]) && DayText(parts[2])
    then CheckedDate(YearValue(parts[0]), OneToTwelveValue(parts[1]), DayValue(parts[2]))
    else None
  }

  /** The format loop of `is_sunday`: day first, then year first; `None` when
      both raise. */
  function ParseDate(u: string): (r: Option<Date>)
    ensures r.Some? ==> IsCalendarDate(r.value)
  {
    var first := ParseDayFirst(u);
    if first.Some? then first else ParseYearFirst(u)
  }

  /** `is_sunday`: the lower-cased, stripped text is "today", "tomorrow" or a
      date in one of the two formats, and that day is a Sunday. Text that is
      none of these is not a Sunday. */
  predicate IsSunday(dateInput: string, today: Date)
    requires IsCalendarDate(today)
  {
    var u := Strip(Lower(dateInput));
    if u == "today" then Weekday(Ordinal(today)) == SUNDAY
    else if u == "tomorrow" then Weekday(Ordinal(today) + 1) == SUNDAY
    else
      var d := ParseDate(u);
      d.Some? && Weekday(Ordinal(d.value)) == SUNDAY
  }

  // ---------------------------------------------------------------------------
  // Times
  // ---------------------------------------------------------------------------

  /** Length of the run of digits at the start of `s`. */
  function DigitRun(s: string): (n: nat)
    ensures n <= |s|
    ensures forall i :: 0 <= i < n ==> IsDigit(s[i])
    ensures n < |s| ==> !IsDigit(s[n])
    decreases |s|
  {
    if |s| == 0 || !IsDigit(s[0]) then 0 else 1 + DigitRun(s[1..])
  }

  /** The digit run of `s` ends at `k`. */
  lemma DigitRunIs(s: string, k: nat)
    requires k <= |s| && (forall i :: 0 <= i < k ==> IsDigit(s[i])) && (k < |s| ==> !IsDigit(s[k]))
    ensures DigitRun(s) == k
  {
  }

  /** Length of the run of whitespace at the start of `s`. */
  function SpaceRun(s: string): (n: nat)
    ensures n <= |s|
    ensures forall i :: 0 <= i < n ==> IsSpace(s[i])
    ensures n < |s| ==> !IsSpace(s[n])
    decreases |s|
  {
    if |s| == 0 || !IsSpace(s[0]) then 0 else 1 + SpaceRun(s[1..])
  }

  datatype Meridiem = AM | PM

  /** `%p` on upper-cased text. */
  function MeridiemOf(s: string): Option<Meridiem> {
    if s == "AM" then Some(AM) else if s == "PM" then Some(PM) else None
  }

  function MeridiemText(p: Meridiem): string {
    match p
    case AM => "AM"
    case PM => "PM"
  }

  /** The hour of the day of hour `h` of the 12-hour clock. */
  function Hour24(h: int, p: Meridiem): (r: int)
    requires 1 <= h <= 12
    ensures 0 <= r < 24
    ensures r < 12 <==> p == AM
    ensures r % 12 == h % 12
  {
    match p
    case AM => if h == 12 then 0 else h
    case PM => if h == 12 then 12 else h + 12
  }

  /** Minutes after midnight of `h:m` in the morning or afternoon. */
  function ClockMinutes(h: int, m: int, p: Meridiem): (r: nat)
    requires 1 <= h <= 12 && 0 <= m < 60
    ensures r < 1440
    ensures r / 60 == Hour24(h, p) && r % 60 == m
  {
    Hour24(h, p) * 60 + m
  }

  /** `datetime.strptime(u, "%I:%M %p").time()` as minutes after midnight.
      The hour holds no `:` and the minute no whitespace, so the hour is the
      text before the first `:`, the minute the run of digits after it, then
      one or more whitespace characters and exactly "AM" or "PM". */
  function ParseClockTime(u: string): (r: Option<nat>)
    ensures r.Some? ==> r.value < 1440
    ensures r.Some? ==> |u| >= 2 && u[|u| - 1] == 'M'
  {
    var c := IndexFrom(u, ':', 0);
    if c == |u| then None
    else
      var rest := u[c + 1..];
      var m := DigitRun(rest);
      var w := SpaceRun(rest[m..]);
      var p := MeridiemOf(rest[m + w..]);
      if OneToTwelveText(u[..c]) && MinuteText(rest[..m]) && w > 0 && p.Some?
      then Some(ClockMinutes(OneToTwelveValue(u[..c]), MinuteValue(rest[..m]), p.value))
      else None
  }

  /** `datetime.strptime(u, "%I %p").time()` as minutes after midnight. */
  function ParseHourTime(u: string): (r: Option<nat>)
    ensures r.Some? ==> r.value < 1440 && r.value % 60 == 0
    ensures r.Some? ==> |u| >= 2 && u[|u| - 1] == 'M'
  {
    var h := DigitRun(u);
    var w := SpaceRun(u[h..]);
    var p := MeridiemOf(u[h + w..]);
    if OneToTwelveText(u[..h]) && w > 0 && p.Some?
    then Some(ClockMinutes(OneToTwelveValue(u[..h]), 0, p.value))
    else None
  }

  /** `t.replace(".", ":")`. */
  function DotsToColons(s: string): (r: string)
    ensures |r| == |s|
    ensures forall i :: 0 <= i < |s| ==> r[i] == (if s[i] == '.' then ':' else s[i])
  {
    seq(|s|, i requires 0 <= i < |s| => if s[i] == '.' then ':' else s[i])
  }

  /** `normalize_time`: the time of day the text names, in minutes after
      midnight, or `None` when neither 12-hour format reads it. */
  function NormalizeTime(t: string): (r: Option<nat>)
    ensures r.Some? ==> r.value < 1440
    ensures r.Some? ==> var u := Strip(DotsToColons(Upper(t))); |u| >= 2 && u[|u| - 1] == 'M'
  {
    if |t| == 0 then None
    else
      var u := Strip(DotsToColons(Upper(t)));
      var clock := ParseClockTime(u);
      if clock.Some? then clock else ParseHourTime(u)
  }

  /** `normalize_time` of an opening or closing time that may be missing. */
  function ClinicTime(t: Option<string>): Option<nat> {
    match t
    case None => None
    case Some(s) => NormalizeTime(s)
  }

  /** `is_time_within_clinic_hours`: all three times read, and the requested one
      lies between opening and closing, both included. */
  predicate IsTimeWithinClinicHours(timeInput: string, clinic: Clinic) {
    var t := NormalizeTime(timeInput);
    var open := ClinicTime(clinic.openTime);
    var close := ClinicTime(clinic.closeTime);
    t.Some? && open.Some? && close.Some? && open.value <= t.value <= close.value
  }

  /** `is_clinic_open_on_date`: closed only on a Sunday, and only when the
      clinic lists "Sunday" among its closed days; other closed days are
      never consulted. */
  predicate IsClinicOpenOnDate(dateInput: string, clinic: Clinic, today: Date)
    requires IsCalendarDate(today)
  {
    !(IsSunday(dateInput, today) && "Sunday" in clinic.closedDays)
  }

  // ---------------------------------------------------------------------------
  // Rendering, the partner of parsing
  // ---------------------------------------------------------------------------

  function DigitChar(n: int): (c: char)
    requires 0 <= n <= 9
    ensures IsDigit(c) && DigitValue(c) == n
  {
    (('0' as int) + n) as char
  }

  /** `n` in two digits, zero-padded. */
  function TwoDigits(n: int): (s: string)
    requires 0 <= n < 100
    ensures |s| == 2 && IsDigits(s) && SmallValue(s) == n
  {
    [DigitChar(n / 10), DigitChar(n % 10)]
  }

  /** `n` in four digits, zero-padded. */
  function FourDigits(n: int): (s: string)
    requires 0 <= n < 10000
    ensures YearText(s) && YearValue(s) == n
  {
    var q1 := n / 10;
    var q2 := q1 / 10;
    var q3 := q2 / 10;
    [DigitChar(q3), DigitChar(q2 % 10), DigitChar(q1 % 10), DigitChar(n % 10)]
  }

  /** `strftime("%d-%m-%Y")`. */
  function FormatDayFirst(d: Date): string
    requires IsCalendarDate(d)
  {
    TwoDigits(d.day) + ['-'] + TwoDigits(d.month) + ['-'] + FourDigits(d.year)
  }

  /** `strftime("%Y-%m-%d")`. */
  function FormatYearFirst(d: Date): string
    requires IsCalendarDate(d)
  {
    FourDigits(d.year) + ['-'] + TwoDigits(d.month) + ['-'] + TwoDigits(d.day)
  }

  lemma TwoDigitFields(n: int)
    requires 1 <= n <= 31
    ensures DayText(TwoDigits(n)) && DayValue(TwoDigits(n)) == n
    ensures n <= 12 ==> OneToTwelveText(TwoDigits(n)) && OneToTwelveValue(TwoDigits(n)) == n
  {
  }

  lemma JoinThree(a: string, b: string, c: string, sep: char)
    ensures Join([a, b, c], sep) == a + [sep] + b + [sep] + c
  {
    assert [a, b, c][1..] == [b, c];
    assert [b, c][1..] == [c];
    assert Join([b, c], sep) == b + [sep] + c;
  }

  lemma {:induction false} DigitsAvoid(s: string, c: char)
    requires forall i :: 0 <= i < |s| ==> IsDigit(s[i])
    requires !IsDigit(c)
    ensures c !in s
  {
  }

  /** Day-first text made of a day, a month and a year field reads as the date
      with those numbers, when there is one. */
  lemma ParseDayFirstFields(dd: string, mm: string, yyyy: string)
    requires DayText(dd) && OneToTwelveText(mm) && YearText(yyyy)
    ensures ParseDate(dd + ['-'] + mm + ['-'] + yyyy) ==
      CheckedDate(YearValue(yyyy), OneToTwelveValue(mm), DayValue(dd))
  {
    JoinThree(dd, mm, yyyy, '-');
    SplitJoin([dd, mm, yyyy], '-');
    assert !YearText(dd);
  }

  /** Year-first text made of a year, a month and a day field reads as the date
      with those numbers, when there is one. */
  lemma ParseYearFirstFields(yyyy: string, mm: string, dd: string)
    requires YearText(yyyy) && OneToTwelveText(mm) && DayText(dd)
    ensures ParseDate(yyyy + ['-'] + mm + ['-'] + dd) ==
      CheckedDate(YearValue(yyyy), OneToTwelveValue(mm), DayValue(dd))
  {
    JoinThree(yyyy, mm, dd, '-');
    SplitJoin([yyyy, mm, dd], '-');
    assert !DayText(yyyy);
  }

  /** Both formats `is_sunday` tries read back the date they print. */
  lemma DateRoundTrip(d: Date)
    requires IsCalendarDate(d)
    ensures ParseDate(FormatDayFirst(d)) == Some(d)
    ensures ParseDate(FormatYearFirst(d)) == Some(d)
  {
    TwoDigitFields(d.day);
    TwoDigitFields(d.month);
    ParseDayFirstFields(TwoDigits(d.day), TwoDigits(d.month), FourDigits(d.year));
    ParseYearFirstFields(FourDigits(d.year), TwoDigits(d.month), TwoDigits(d.day));
  }

  /** A printed date survives the lower-casing and stripping of `is_sunday`,
      so `is_sunday` answers for the day it names. */
  lemma IsSundayOfPrintedDate(d: Date, today: Date)
    requires IsCalendarDate(d) && IsCalendarDate(today)
    ensures IsSunday(FormatDayFirst(d), today) <==> Weekday(Ordinal(d)) == SUNDAY
    ensures IsSunday(FormatYearFirst(d), today) <==> Weekday(Ordinal(d)) == SUNDAY
  {
    DateRoundTrip(d);
    var dayFirst, yearFirst := FormatDayFirst(d), FormatYearFirst(d);
    DashedDigits(dayFirst, TwoDigits(d.day), TwoDigits(d.month), FourDigits(d.year));
    PrintedDateIsPlain(dayFirst);
    IsSundayOfPlainDate(dayFirst, d, today);
    DashedDigits(yearFirst, FourDigits(d.year), TwoDigits(d.month), TwoDigits(d.day));
    PrintedDateIsPlain(yearFirst);
    IsSundayOfPlainDate(yearFirst, d, today);
  }

  /** Three digit fields joined by dashes. */
  lemma DashedDigits(s: string, a: string, b: string, c: string)
    requires IsDigits(a) && IsDigits(b) && IsDigits(c) && s == a + ['-'] + b + ['-'] + c
    ensures |s| > 0 && IsDigit(s[0]) && IsDigit(s[|s| - 1])
    ensures forall i :: 0 <= i < |s| ==> IsDigit(s[i]) || s[i] == '-'
  {
    forall i | 0 <= i < |s|
      ensures IsDigit(s[i]) || s[i] == '-'
    {
      if i < |a| {
        assert s[i] == a[i];
      } else if |a| < i < |a| + 1 + |b| {
        assert s[i] == b[i - |a| - 1];
      } else if i > |a| + 1 + |b| {
        assert s[i] == c[i - |a| - |b| - 2];
      }
    }
    assert s[0] == a[0] && s[|s| - 1] == c[|c| - 1];
  }

  /** Text that stripping leaves alone and that names no relative day is
      a Sunday exactly when the date it parses to is. */
  lemma IsSundayOfPlainDate(s: string, d: Date, today: Date)
    requires IsCalendarDate(today) && ParseDate(s) == Some(d)
    requires Strip(Lower(s)) == s && s != "today" && s != "tomorrow"
    ensures IsSunday(s, today) <==> Weekday(Ordinal(d)) == SUNDAY
  {
  }

  /** Text of digits and dashes that starts and ends with a digit is left as it
      is by lower-casing and stripping, and is neither "today" nor "tomorrow". */
  lemma PrintedDateIsPlain(s: string)
    requires |s| > 0 && IsDigit(s[0]) && IsDigit(s[|s| - 1])
    requires forall i :: 0 <= i < |s| ==> IsDigit(s[i]) || s[i] == '-'
    ensures Strip(Lower(s)) == s
    ensures s != "today" && s != "tomorrow"
  {
    assert Lower(s) == s;
    StripLeftNonSpace(s);
    assert StripRight(s) == s;
    assert s[0] != 't';
  }

  /** "tomorrow" is the next calendar day of "today" (while that day is one
      `datetime` can hold). */
  lemma TomorrowIsNextDay(today: Date)
    requires IsCalendarDate(today) && today.year < 9999
    ensures IsCalendarDate(NextDay(today))
    ensures IsSunday("tomorrow", today) <==> IsSunday("today", NextDay(today))
  {
    OrdinalNextDay(today);
    assert Strip(Lower("tomorrow")) == "tomorrow" by {
      assert Lower("tomorrow") == "tomorrow";
      StripLeftNonSpace("tomorrow");
    }
    assert Strip(Lower("today")) == "today" by {
      assert Lower("today") == "today";
      StripLeftNonSpace("today");
    }
  }

  /** A part that no field of either format reads makes both formats fail. */
  lemma UnreadablePartFailsParse(u: string, k: nat)
    requires k < |Split(u, '-')|
    requires var p := Split(u, '-')[k]; !DayText(p) && !YearText(p) && !OneToTwelveText(p)
    ensures ParseDate(u).None?
  {
  }

  /** A date written with slashes, as "21/01/2025", is never taken for a Sunday:
      neither format reads it, whatever day it names. */
  lemma SlashDateNeverSunday(dateInput: string, today: Date)
    requires IsCalendarDate(today)
    requires '/' in Strip(Lower(dateInput))
    ensures !IsSunday(dateInput, today)
  {
    var u := Strip(Lower(dateInput));
    assert u != "today" && u != "tomorrow";
    var parts := Split(u, '-');
    JoinSplit(u, '-');
    JoinChars(parts, '-', '/');
    var k :| 0 <= k < |parts| && '/' in parts[k];
    var p := parts[k];
    var i :| 0 <= i < |p| && p[i] == '/';
    assert !IsDigit(p[i]) && p[i] != ' ';
    assert !DayText(p) && !YearText(p) && !OneToTwelveText(p);
    UnreadablePartFailsParse(u, k);
  }

  /** The 19th of January 2025 was a Sunday, in either format. */
  lemma NineteenthJanuary2025IsSunday(dayFirst: string, yearFirst: string, today: Date)
    requires IsCalendarDate(today)
    requires dayFirst == "19-01-2025" && yearFirst == "2025-01-19"
    ensures IsSunday(dayFirst, today) && IsSunday(yearFirst, today)
  {
    var d := Date(2025, 1, 19);
    PrintNineteenthJanuary2025(dayFirst, yearFirst);
    SampleWeekdays();
    IsSundayOfPrintedDate(d, today);
  }

  lemma PrintNineteenthJanuary2025(dayFirst: string, yearFirst: string)
    requires dayFirst == "19-01-2025" && yearFirst == "2025-01-19"
    ensures dayFirst == FormatDayFirst(Date(2025, 1, 19)) && yearFirst == FormatYearFirst(Date(2025, 1, 19))
  {
  }

  /** The weekdays of the sample dates. */
  lemma SampleWeekdays()
    ensures IsCalendarDate(Date(2025, 1, 19)) && IsCalendarDate(Date(2025, 1, 20))
    ensures Weekday(Ordinal(Date(2025, 1, 19))) == SUNDAY
    ensures Weekday(Ordinal(Date(2025, 1, 20))) != SUNDAY
  {
    assert Ordinal(Date(2025, 1, 19)) == 739270;
  }

  /** The 20th of January 2025 was a Monday. */
  lemma TwentiethJanuary2025IsNotSunday(dayFirst: string, today: Date)
    requires IsCalendarDate(today) && dayFirst == "20-01-2025"
    ensures !IsSunday(dayFirst, today)
  {
    var d := Date(2025, 1, 20);
    PrintTwentiethJanuary2025(dayFirst);
    SampleWeekdays();
    IsSundayOfPrintedDate(d, today);
  }

  lemma PrintTwentiethJanuary2025(dayFirst: string)
    requires dayFirst == "20-01-2025"
    ensures dayFirst == FormatDayFirst(Date(2025, 1, 20))
  {
  }

  /** The 31st of February is no date, so it is not a Sunday. */
  lemma ThirtyFirstFebruaryIsNotSunday(dayFirst: string, today: Date)
    requires IsCalendarDate(today) && dayFirst == "31-02-2025"
    ensures !IsSunday(dayFirst, today)
  {
    SplitThirtyFirstFebruary(dayFirst);
    ParseDayFirstFields("31", "02", "2025");
    assert !IsCalendarDate(Date(2025, 2, 31));
    PrintedDateIsPlain(dayFirst);
  }

  lemma SplitThirtyFirstFebruary(dayFirst: string)
    requires dayFirst == "31-02-2025"
    ensures dayFirst == "31" + ['-'] + "02" + ['-'] + "2025"
    ensures DayText("31") && OneToTwelveText("02") && YearText("2025")
    ensures DayValue("31") == 31 && OneToTwelveValue("02") == 2 && YearValue("2025") == 2025
    ensures |dayFirst| > 0 && IsDigit(dayFirst[0]) && IsDigit(dayFirst[|dayFirst| - 1])
    ensures forall i :: 0 <= i < |dayFirst| ==> IsDigit(dayFirst[i]) || dayFirst[i] == '-'
  {
  }

  /** Text the clock format reads: hour text, `:` or `.`, two-digit minutes, a
      space, "AM" or "PM". */
  function FormatClockTime(hour: string, sep: char, m: int, p: Meridiem): string
    requires 0 <= m < 60
  {
    hour + [sep] + TwoDigits(m) + [' '] + MeridiemText(p)
  }

  /** Text `normalize_time` does not change before parsing: no lower-case
      letter, no `.`, nothing to strip. */
  predicate PlainTimeText(u: string) {
    |u| > 0 && !IsSpace(u[0]) && !IsSpace(u[|u| - 1]) &&
    forall i :: 0 <= i < |u| ==> !('a' <= u[i] <= 'z') && u[i] != '.'
  }

  lemma NormalizePlainTime(u: string)
    requires PlainTimeText(u)
    ensures NormalizeTime(u) == if ParseClockTime(u).Some? then ParseClockTime(u) else ParseHourTime(u)
  {
    assert Upper(u) == u;
    assert DotsToColons(u) == u;
    StripLeftNonSpace(u);
    assert StripRight(u) == u;
  }

  /** The space run of `s` ends at `k`. */
  lemma SpaceRunIs(s: string, k: nat)
    requires k <= |s| && (forall i :: 0 <= i < k ==> IsSpace(s[i])) && (k < |s| ==> !IsSpace(s[k]))
    ensures SpaceRun(s) == k
  {
  }

  /** Two digits, a space and the meridiem: the minutes field of the clock
      format and what follows it. */
  lemma MinutesThenMeridiem(mm: string, mer: string)
    requires |mm| == 2 && IsDigits(mm) && (mer == "AM" || mer == "PM")
    ensures var rest := mm + [' '] + mer;
      DigitRun(rest) == 2 && rest[..2] == mm && SpaceRun(rest[2..]) == 1 && rest[3..] == mer
  {
    var rest := mm + [' '] + mer;
    DigitRunIs(rest, 2);
    assert rest[2..] == [' '] + mer;
    SpaceRunIs(rest[2..], 1);
    assert rest[..2] == mm;
  }

  /** Two-digit minutes below 60 are read back by `%M`. */
  lemma TwoDigitMinutes(m: int)
    requires 0 <= m < 60
    ensures MinuteText(TwoDigits(m)) && MinuteValue(TwoDigits(m)) == m
  {
    assert TwoDigits(m)[0] == DigitChar(m / 10);
  }

  /** The clock format reads the hour before the first `:`, the digit run
      after it as minutes, and, after one space, the meridiem. */
  lemma ReadClockFields(u: string, hour: string, mm: string, p: Meridiem)
    requires OneToTwelveText(hour) && MinuteText(mm)
    requires IndexFrom(u, ':', 0) == |hour| < |u| && u[..|hour|] == hour
    requires var rest := u[|hour| + 1..];
      DigitRun(rest) == |mm| && rest[..|mm|] == mm && SpaceRun(rest[|mm|..]) == 1 &&
      rest[|mm| + 1..] == MeridiemText(p)
    ensures ParseClockTime(u) == Some(ClockMinutes(OneToTwelveValue(hour), MinuteValue(mm), p))
  {
    var rest := u[|hour| + 1..];
    assert MeridiemOf(rest[|mm| + 1..]) == Some(p) by { MeridiemOfText(p); }
  }

  /** `%p` reads back the meridiem it prints. */
  lemma MeridiemOfText(p: Meridiem)
    ensures MeridiemOf(MeridiemText(p)) == Some(p)
  {
  }

  lemma ParsePrintedClockTime(hour: string, m: int, p: Meridiem)
    requires OneToTwelveText(hour) && 0 <= m < 60
    ensures ParseClockTime(FormatClockTime(hour, ':', m, p)) == Some(ClockMinutes(OneToTwelveValue(hour), m, p))
  {
    var u := FormatClockTime(hour, ':', m, p);
    var mm, mer := TwoDigits(m), MeridiemText(p);
    var c := |hour|;
    assert IndexFrom(u, ':', 0) == c < |u| && u[..c] == hour && u[c + 1..] == mm + [' '] + mer by {
      assert u == hour + [':'] + (mm + [' '] + mer);
      IndexFromZero(u, ':', c);
    }
    MinutesThenMeridiem(mm, mer);
    TwoDigitMinutes(m);
    ReadClockFields(u, hour, mm, p);
  }

  /** The hour format reads the digit run as the hour and, after one space,
      the meridiem. */
  lemma ReadHourFields(u: string, hour: string, p: Meridiem)
    requires OneToTwelveText(hour)
    requires DigitRun(u) == |hour| && u[..|hour|] == hour && SpaceRun(u[|hour|..]) == 1 &&
             u[|hour| + 1..] == MeridiemText(p)
    ensures ParseHourTime(u) == Some(ClockMinutes(OneToTwelveValue(hour), 0, p))
  {
    assert MeridiemOf(u[|hour| + 1..]) == Some(p) by { MeridiemOfText(p); }
  }

  lemma ParsePrintedHourTime(hour: string, p: Meridiem)
    requires OneToTwelveText(hour)
    ensures ParseClockTime(hour + [' '] + MeridiemText(p)) == None
    ensures ParseHourTime(hour + [' '] + MeridiemText(p)) == Some(ClockMinutes(OneToTwelveValue(hour), 0, p))
  {
    var mer := MeridiemText(p);
    var u := hour + [' '] + mer;
    var h := |hour|;
    IndexFromZero(u, ':', |u|);
    assert DigitRun(u) == h && u[..h] == hour && SpaceRun(u[h..]) == 1 && u[h + 1..] == mer by {
      DigitRunIs(u, h);
      assert u[h..] == [' '] + mer;
      SpaceRunIs(u[h..], 1);
      assert u[h..][1..] == mer;
    }
    ReadHourFields(u, hour, p);
  }

  /** The clock format reads back the time it prints, with `.` or `:` between
      hour and minutes. */
  lemma ClockTimeRoundTrip(hour: string, sep: char, m: int, p: Meridiem)
    requires OneToTwelveText(hour) && 0 <= m < 60
    requires sep == ':' || sep == '.'
    ensures NormalizeTime(FormatClockTime(hour, sep, m, p)) == Some(ClockMinutes(OneToTwelveValue(hour), m, p))
  {
    var s := FormatClockTime(hour, sep, m, p);
    var u := FormatClockTime(hour, ':', m, p);
    var tail := TwoDigits(m) + [' '] + MeridiemText(p);
    assert s == hour + [sep] + tail && u == hour + [':'] + tail;
    assert forall i :: 0 <= i < |tail| ==> !('a' <= tail[i] <= 'z') && tail[i] != '.' by {
      assert tail == [TwoDigits(m)[0], TwoDigits(m)[1], ' ', MeridiemText(p)[0], 'M'];
    }
    SeparatorToColon(s, u, hour, sep, tail);
    StripLeftNonSpace(u);
    assert StripRight(u) == u;
    ParsePrintedClockTime(hour, m, p);
  }

  /** Clock text with `.` or `:` after the hour reads as the same text with
      `:`, which `normalize_time` leaves as it is. */
  lemma SeparatorToColon(s: string, u: string, hour: string, sep: char, tail: string)
    requires OneToTwelveText(hour) && (sep == ':' || sep == '.') && |tail| > 0
    requires forall i :: 0 <= i < |tail| ==> !('a' <= tail[i] <= 'z') && tail[i] != '.'
    requires !IsSpace(tail[|tail| - 1])
    requires s == hour + [sep] + tail && u == hour + [':'] + tail
    ensures DotsToColons(Upper(s)) == u && PlainTimeText(u)
  {
    assert Upper(s) == s;
  }

  /** The hour format reads back the hour it prints. */
  lemma HourTimeRoundTrip(hour: string, p: Meridiem)
    requires OneToTwelveText(hour)
    ensures NormalizeTime(hour + [' '] + MeridiemText(p)) == Some(ClockMinutes(OneToTwelveValue(hour), 0, p))
  {
    var u := hour + [' '] + MeridiemText(p);
    assert PlainTimeText(u);
    NormalizePlainTime(u);
    ParsePrintedHourTime(hour, p);
  }

  /** A time `normalize_time` reads ends in "AM" or "PM", so the text held an
      `m` or `M`: a 24-hour time such as "14:00" is never read. */
  lemma ReadTimeNamesMeridiem(t: string)
    requires NormalizeTime(t).Some?
    ensures exists i :: 0 <= i < |t| && (t[i] == 'm' || t[i] == 'M')
  {
    var v := DotsToColons(Upper(t));
    var u := Strip(v);
    var k := StripSlice(v);
    assert u[|u| - 1] == 'M';
    assert v[k + |u| - 1] == 'M';
    assert UpperChar(t[k + |u| - 1]) == 'M';
  }

  /** `Strip(v)` is a slice of `v`. */
  lemma StripSlice(v: string) returns (k: nat)
    ensures k + |Strip(v)| <= |v| && Strip(v) == v[k..k + |Strip(v)|]
  {
    var left := StripLeft(v);
    StripLeftShape(v);
    StripRightShape(left);
    k := |v| - |left|;
  }

  /** A time typed without "am" or "pm" is never within a clinic's hours. */
  lemma TimeWithoutMeridiemNeverWithinHours(t: string, clinic: Clinic)
    requires forall i :: 0 <= i < |t| ==> t[i] != 'm' && t[i] != 'M'
    ensures !IsTimeWithinClinicHours(t, clinic)
  {
    if NormalizeTime(t).Some? {
      ReadTimeNamesMeridiem(t);
    }
  }

  /** A clinic open 9:00 AM to 5:00 PM takes "2 PM", "9:00 AM" and "5.00 PM",
      both ends included. */
  lemma NineToFiveClinicAccepts(clinic: Clinic)
    requires clinic.openTime == Some("09:00 AM") && clinic.closeTime == Some("05:00 PM")
    ensures IsTimeWithinClinicHours("2 PM", clinic)
    ensures IsTimeWithinClinicHours("9:00 AM", clinic)
    ensures IsTimeWithinClinicHours("5.00 PM", clinic)
  {
    OpeningAndClosingReadings();
    AfternoonReadings();
    MorningReadings();
  }

  /** The same clinic turns away "6 PM", "8.30 AM" and the 24-hour "14:00". */
  lemma NineToFiveClinicRejects(clinic: Clinic)
    requires clinic.openTime == Some("09:00 AM") && clinic.closeTime == Some("05:00 PM")
    ensures !IsTimeWithinClinicHours("6 PM", clinic)
    ensures !IsTimeWithinClinicHours("8.30 AM", clinic)
    ensures !IsTimeWithinClinicHours("14:00", clinic)
  {
    OpeningAndClosingReadings();
    AfternoonReadings();
    MorningReadings();
    TwentyFourHourTimeRejected("14:00", clinic);
  }

  lemma TwentyFourHourTimeRejected(s: string, clinic: Clinic)
    requires s == "14:00"
    ensures !IsTimeWithinClinicHours(s, clinic)
  {
    TimeWithoutMeridiemNeverWithinHours(s, clinic);
  }

  lemma OpeningAndClosingReadings()
    ensures NormalizeTime("09:00 AM") == Some(9 * 60)
    ensures NormalizeTime("05:00 PM") == Some(17 * 60)
  {
    ReadNineAM("09:00 AM");
    ReadFivePM("05:00 PM");
  }

  lemma AfternoonReadings()
    ensures NormalizeTime("2 PM") == Some(14 * 60)
    ensures NormalizeTime("5.00 PM") == Some(17 * 60)
    ensures NormalizeTime("6 PM") == Some(18 * 60)
  {
    ReadTwoPM("2 PM");
    ReadFivePMDotted("5.00 PM");
    ReadSixPM("6 PM");
  }

  lemma MorningReadings()
    ensures NormalizeTime("9:00 AM") == Some(9 * 60)
    ensures NormalizeTime("8.30 AM") == Some(8 * 60 + 30)
  {
    ReadNineAMUnpadded("9:00 AM");
    ReadHalfPastEightAMDotted("8.30 AM");
  }

  /** The hours the sample times name. */
  lemma SampleHours()
    ensures OneToTwelveValue("09") == 9 && OneToTwelveValue("9") == 9 && OneToTwelveValue("05") == 5
    ensures OneToTwelveValue("5") == 5 && OneToTwelveValue("8") == 8 && OneToTwelveValue("2") == 2
    ensures OneToTwelveValue("6") == 6
  {
  }

  lemma ReadNineAM(s: string)
    requires s == "09:00 AM"
    ensures NormalizeTime(s) == Some(9 * 60)
  {
    SampleHours();
    PrintNineAM(s);
    ClockTimeAt("09", ':', 0, AM, s);
  }

  lemma PrintNineAM(s: string)
    requires s == "09:00 AM"
    ensures s == FormatClockTime("09", ':', 0, AM)
  {
    assert TwoDigits(0) == "00";
  }

  lemma ReadFivePM(s: string)
    requires s == "05:00 PM"
    ensures NormalizeTime(s) == Some(17 * 60)
  {
    SampleHours();
    PrintFivePM(s);
    ClockTimeAt("05", ':', 0, PM, s);
  }

  lemma PrintFivePM(s: string)
    requires s == "05:00 PM"
    ensures s == FormatClockTime("05", ':', 0, PM)
  {
    assert TwoDigits(0) == "00";
  }

  lemma ReadNineAMUnpadded(s: string)
    requires s == "9:00 AM"
    ensures NormalizeTime(s) == Some(9 * 60)
  {
    SampleHours();
    PrintNineAMUnpadded(s);
    ClockTimeAt("9", ':', 0, AM, s);
  }

  lemma PrintNineAMUnpadded(s: string)
    requires s == "9:00 AM"
    ensures s == FormatClockTime("9", ':', 0, AM)
  {
    assert TwoDigits(0) == "00";
  }

  lemma ReadFivePMDotted(s: string)
    requires s == "5.00 PM"
    ensures NormalizeTime(s) == Some(17 * 60)
  {
    SampleHours();
    PrintFivePMDotted(s);
    ClockTimeAt("5", '.', 0, PM, s);
  }

  lemma PrintFivePMDotted(s: string)
    requires s == "5.00 PM"
    ensures s == FormatClockTime("5", '.', 0, PM)
  {
    assert TwoDigits(0) == "00";
  }

  lemma ReadHalfPastEightAMDotted(s: string)
    requires s == "8.30 AM"
    ensures NormalizeTime(s) == Some(8 * 60 + 30)
  {
    SampleHours();
    PrintHalfPastEightAMDotted(s);
    ClockTimeAt("8", '.', 30, AM, s);
  }

  lemma PrintHalfPastEightAMDotted(s: string)
    requires s == "8.30 AM"
    ensures s == FormatClockTime("8", '.', 30, AM)
  {
    assert TwoDigits(30) == "30";
  }

  lemma ReadTwoPM(s: string)
    requires s == "2 PM"
    ensures NormalizeTime(s) == Some(14 * 60)
  {
    SampleHours();
    PrintTwoPM(s);
    HourTimeRoundTrip("2", PM);
  }

  lemma PrintTwoPM(s: string)
    requires s == "2 PM"
    ensures s == "2" + [' '] + MeridiemText(PM)
  {
  }

  lemma ReadSixPM(s: string)
    requires s == "6 PM"
    ensures NormalizeTime(s) == Some(18 * 60)
  {
    SampleHours();
    PrintSixPM(s);
    HourTimeRoundTrip("6", PM);
  }

  lemma PrintSixPM(s: string)
    requires s == "6 PM"
    ensures s == "6" + [' '] + MeridiemText(PM)
  {
  }

  lemma ClockTimeAt(hour: string, sep: char, m: int, p: Meridiem, s: string)
    requires OneToTwelveText(hour) && 0 <= m < 60 && (sep == ':' || sep == '.')
    requires s == FormatClockTime(hour, sep, m, p)
    ensures NormalizeTime(s) == Some(ClockMinutes(OneToTwelveValue(hour), m, p))
  {
    ClockTimeRoundTrip(hour, sep, m, p);
  }



  /** A clinic whose hours are missing or unreadable accepts no time at all. */
  lemma MissingHoursRejectEveryTime(t: string, clinic: Clinic)
    requires ClinicTime(clinic.openTime).None? || ClinicTime(clinic.closeTime).None?
    ensures !IsTimeWithinClinicHours(t, clinic)
  {
  }

  /** The Sunday check is the only closed-day check: a clinic closed on Mondays
      is open on every date, and a clinic closed on Sundays is closed on a date
      exactly when it is a Sunday. */
  lemma OnlySundayIsClosed(dateInput: string, clinic: Clinic, today: Date)
    requires IsCalendarDate(today)
    ensures "Sunday" !in clinic.closedDays ==> IsClinicOpenOnDate(dateInput, clinic, today)
    ensures "Sunday" in clinic.closedDays ==>
      (IsClinicOpenOnDate(dateInput, clinic, today) <==> !IsSunday(dateInput, today))
  {
  }
}
