/**
 * Dates of the dataset (src/utils/date.ts): parsing `DD/MM/YYYY` and
 * `DD-MM-YYYY` into a UTC-midnight `Date`, dropping the time of day, the
 * inclusive range test and the dataset-wide minimum and maximum.
 *
 * A JavaScript `Date` is modelled by the UTC calendar day it falls on and the
 * milliseconds elapsed since that day's midnight; `getTime()` is computed from
 * the proleptic Gregorian day number, so comparing `GetTime` values is what
 * the `getTime()` comparisons in `isDateInRange` and `getMinMaxDates` do.
 */
module Calendar {
  import opened Wrappers
  import opened Strings
  import opened Sequences
  import opened Sorting

  /** A proleptic Gregorian calendar day, month 1-based. */
  datatype Day = Day(year: int, month: int, day: int)

  predicate IsLeapYear(y: int) {
    y % 4 == 0 && (y % 100 != 0 || y % 400 == 0)
  }

  function DaysInMonth(y: int, m: int): (n: int)
    requires 1 <= m <= 12
    ensures 28 <= n <= 31
  {
    if m == 2 then (if IsLeapYear(y) then 29 else 28)
    else if m == 4 || m == 6 || m == 9 || m == 11 then 30
    else 31
  }

  /** The day exists in the Gregorian calendar. */
  predicate IsCalendarDate(d: Day) {
    1 <= d.month <= 12 && 1 <= d.day <= DaysInMonth(d.year, d.month)
  }

  /** The days `parseApiDate` can return: real calendar days with a four-digit year of at least 100. */
  predicate IsValidDay(d: Day) {
    100 <= d.year <= 9999 && IsCalendarDate(d)
  }

  /** Chronological (lexicographic) order on days. */
  predicate DayLe(a: Day, b: Day) {
    || a.year < b.year
    || (a.year == b.year && (a.month < b.month || (a.month == b.month && a.day <= b.day)))
  }

  predicate DayLess(a: Day, b: Day) {
    DayLe(a, b) && a != b
  }

  lemma DayLeIsTotalPreorder()
    ensures IsTotalPreorder(DayLe)
  {
  }

  const MsPerDay: int := 86_400_000

  /** A JavaScript `Date`: its UTC day and the milliseconds since that day's midnight. */
  datatype Instant = Instant(date: Day, timeOfDay: int)

  predicate IsValidInstant(t: Instant) {
    IsCalendarDate(t.date) && 0 <= t.timeOfDay < MsPerDay
  }

  type Date = t: Instant | IsValidInstant(t) witness Instant(Day(1970, 1, 1), 0)

  /** The dates `parseApiDate` can return. */
  type ApiDate = t: Date | IsValidDay(t.date) witness Instant(Day(1970, 1, 1), 0)

  /** Midnight UTC of a calendar day. */
  function Midnight(d: Day): Date
    requires IsCalendarDate(d)
  {
    Instant(d, 0)
  }

  // ---------------------------------------------------------------------------
  // getTime(): milliseconds since 1970-01-01T00:00:00Z

  function YearLength(y: int): int {
    if IsLeapYear(y) then 366 else 365
  }

  /** Days from 0001-01-01 to January 1st of year `y` (negative for earlier years). */
  function DaysBeforeYear(y: int): int
    decreases if y >= 1 then y - 1 else 1 - y
  {
    if y == 1 then 0
    else if y > 1 then DaysBeforeYear(y - 1) + YearLength(y - 1)
    else DaysBeforeYear(y + 1) - YearLength(y)
  }

  /** Days from January 1st to the first of month `m`. */
  function DaysBeforeMonth(y: int, m: int): int
    requires 1 <= m <= 12
  {
    var common :=
      if m == 1 then 0 else if m == 2 then 31 else if m == 3 then 59
      else if m == 4 then 90 else if m == 5 then 120 else if m == 6 then 151
      else if m == 7 then 181 else if m == 8 then 212 else if m == 9 then 243
      else if m == 10 then 273 else if m == 11 then 304 else 334;
    common + (if m > 2 && IsLeapYear(y) then 1 else 0)
  }

  /** Days since 1970-01-01 (negative before it). */
  function DayNumber(d: Day): int
    requires IsCalendarDate(d)
  {
    DaysBeforeYear(d.year) + DaysBeforeMonth(d.year, d.month) + d.day - 1 - DaysBeforeYear(1970)
  }

  /** `date.getTime()`. */
  function GetTime(t: Date): int {
    DayNumber(t.date) * MsPerDay + t.timeOfDay
  }

  lemma YearStep(y: int)
    ensures DaysBeforeYear(y + 1) == DaysBeforeYear(y) + YearLength(y)
  {
  }

  lemma {:induction false} YearsAdvance(a: int, b: int)
    requires a < b
    ensures DaysBeforeYear(a) + YearLength(a) <= DaysBeforeYear(b)
    decreases b - a
  {
    YearStep(a);
    if a + 1 < b {
      YearsAdvance(a + 1, b);
    }
  }

  lemma MonthsAdvance(y: int, m1: int, m2: int)
    requires 1 <= m1 < m2 <= 12
    ensures DaysBeforeMonth(y, m1) + DaysInMonth(y, m1) <= DaysBeforeMonth(y, m2)
  {
  }

  lemma DayWithinYear(d: Day)
    requires IsCalendarDate(d)
    ensures DaysBeforeMonth(d.year, d.month) + d.day <= YearLength(d.year)
  {
  }

  /** Later calendar days have larger day numbers. */
  lemma DayNumberIncreasing(a: Day, b: Day)
    requires IsCalendarDate(a) && IsCalendarDate(b) && DayLess(a, b)
    ensures DayNumber(a) < DayNumber(b)
  {
    if a.year < b.year {
      DayWithinYear(a);
      YearsAdvance(a.year, b.year);
    } else if a.month < b.month {
      MonthsAdvance(a.year, a.month, b.month);
    }
  }

  /** Comparing `getTime()` is comparing the day first and the time of day second. */
  lemma GetTimeOrder(a: Date, b: Date)
    ensures GetTime(a) <= GetTime(b) <==>
      DayLess(a.date, b.date) || (a.date == b.date && a.timeOfDay <= b.timeOfDay)
  {
    if DayLess(a.date, b.date) {
      DayNumberIncreasing(a.date, b.date);
    } else if DayLess(b.date, a.date) {
      DayNumberIncreasing(b.date, a.date);
    }
  }

  // ---------------------------------------------------------------------------
  // new Date(Date.UTC(year, monthIndex, day))

  /** The years `Date.UTC` reads as 1900 plus the year. */
  predicate IsShortYear(year: int) {
    0 <= year <= 99
  }

  /**
   * `new Date(Date.UTC(year, monthIndex, day))` for the arguments `parseApiDate`
   * passes: a year of four decimal digits, a month index 0..11 and a day 1..31.
   * `Date.UTC` reads years 0..99 as 1900..1999, and a day past the end of the
   * month rolls over into the next month (never past December, which has 31).
   */
  function DateUtc(year: int, monthIndex: int, day: int): (r: Date)
    requires 0 <= year <= 9999 && 0 <= monthIndex <= 11 && 1 <= day <= 31
    ensures r.timeOfDay == 0
    ensures r.date == Day(year, monthIndex + 1, day) <==> IsValidDay(Day(year, monthIndex + 1, day))
    ensures IsShortYear(year) ==> r.date.year == 1900 + year
    ensures !IsShortYear(year) ==> r.date.year == year
    ensures IsCalendarDate(Day(r.date.year, monthIndex + 1, day)) ==> r.date == Day(r.date.year, monthIndex + 1, day)
    ensures !IsCalendarDate(Day(r.date.year, monthIndex + 1, day)) ==>
      r.date == Day(r.date.year, monthIndex + 2, day - DaysInMonth(r.date.year, monthIndex + 1))
  {
    var y := if year <= 99 then 1900 + year else year;
    var m := monthIndex + 1;
    var dim := DaysInMonth(y, m);
    if day <= dim then Instant(Day(y, m, day), 0)
    else Instant(Day(y, m + 1, day - dim), 0)
  }

  // ---------------------------------------------------------------------------
  // parseApiDate

  datatype DateError =
    | InvalidFormat        // the trimmed string is not DD?MM?YYYY
    | InvalidMonth         // month outside 1..12
    | InvalidDay           // day outside 1..31
    | InvalidCalendarDate  // Date.UTC did not give back the same components
    | EmptyCollection      // min/max of no records

  predicate IsAsciiDigit(c: char) {
    '0' <= c <= '9'
  }

  predicate IsSeparator(c: char) {
    c == '/' || c == '-'
  }

  function DigitValue(c: char): int
    requires IsAsciiDigit(c)
  {
    c as int - '0' as int
  }

  /** The regular expression `^(\d{2})[/-](\d{2})[/-](\d{4})$`. */
  predicate MatchesDatePattern(t: string) {
    && |t| == 10
    && IsAsciiDigit(t[0]) && IsAsciiDigit(t[1]) && IsSeparator(t[2])
    && IsAsciiDigit(t[3]) && IsAsciiDigit(t[4]) && IsSeparator(t[5])
    && IsAsciiDigit(t[6]) && IsAsciiDigit(t[7]) && IsAsciiDigit(t[8]) && IsAsciiDigit(t[9])
  }

  /** `Number(dd)`, `Number(mm)` and `Number(yyyy)` of the three captured groups. */
  function DateFields(t: string): (d: Day)
    requires MatchesDatePattern(t)
    ensures 0 <= d.day <= 99 && 0 <= d.month <= 99 && 0 <= d.year <= 9999
  {
    Day(1000 * DigitValue(t[6]) + 100 * DigitValue(t[7]) + 10 * DigitValue(t[8]) + DigitValue(t[9]),
        10 * DigitValue(t[3]) + DigitValue(t[4]),
        10 * DigitValue(t[0]) + DigitValue(t[1]))
  }

  /** `parseApiDate(dateRep)`: the UTC midnight of the written day, or the error it throws. */
  function ParseApiDate(dateRep: string): (r: Result<Date, DateError>)
    ensures r.Success? <==>
      MatchesDatePattern(Trim(dateRep)) && IsValidDay(DateFields(Trim(dateRep)))
    ensures r.Success? ==> r.value == Midnight(DateFields(Trim(dateRep)))
    ensures r == Failure(InvalidFormat) <==> !MatchesDatePattern(Trim(dateRep))
    ensures r == Failure(InvalidMonth) <==>
      MatchesDatePattern(Trim(dateRep)) && !(1 <= DateFields(Trim(dateRep)).month <= 12)
    ensures r == Failure(InvalidDay) <==>
      && MatchesDatePattern(Trim(dateRep))
      && 1 <= DateFields(Trim(dateRep)).month <= 12
      && !(1 <= DateFields(Trim(dateRep)).day <= 31)
    ensures r == Failure(InvalidCalendarDate) <==>
      && MatchesDatePattern(Trim(dateRep))
      && 1 <= DateFields(Trim(dateRep)).month <= 12
      && 1 <= DateFields(Trim(dateRep)).day <= 31
      && !IsValidDay(DateFields(Trim(dateRep)))
  {
    var t := Trim(dateRep);
    if !MatchesDatePattern(t) then Failure(InvalidFormat)
    else
      var fields := DateFields(t);
      var day, month, year := fields.day, fields.month, fields.year;
      if month < 1 || month > 12 then Failure(InvalidMonth)
      else if day < 1 || day > 31 then Failure(InvalidDay)
      else
        var parsed := DateUtc(year, month - 1, day);
        if parsed.date.year != year || parsed.date.month != month || parsed.date.day != day then
          Failure(InvalidCalendarDate)
        else
          Success(parsed)
  }

  // ---------------------------------------------------------------------------
  // Writing a day back out

  lemma DigitIsNotWhitespace(c: char)
    requires IsAsciiDigit(c)
    ensures !IsJsWhitespace(c)
  {
  }

  function DigitChar(n: int): char
    requires 0 <= n <= 9
  {
    ('0' as int + n) as char
  }

  /** Two decimal digits of `n`, leading zero included. */
  function Digits2(n: int): (s: string)
    requires 0 <= n <= 99
    ensures |s| == 2 && IsAsciiDigit(s[0]) && IsAsciiDigit(s[1])
    ensures 10 * DigitValue(s[0]) + DigitValue(s[1]) == n
  {
    [DigitChar(n / 10), DigitChar(n % 10)]
  }

  /** Four decimal digits of `n`, leading zeros included. */
  function Digits4(n: int): (s: string)
    requires 0 <= n <= 9999
    ensures |s| == 4 && forall i :: 0 <= i < 4 ==> IsAsciiDigit(s[i])
    ensures 1000 * DigitValue(s[0]) + 100 * DigitValue(s[1]) + 10 * DigitValue(s[2]) + DigitValue(s[3]) == n
  {
    Digits2(n / 100) + Digits2(n % 100)
  }

  /** A day written as `DD?MM?YYYY` with the given separators: the form the dataset uses. */
  function FormatApiDate(d: Day, sep1: char, sep2: char): string
    requires IsValidDay(d)
  {
    var dd, mm, yyyy := Digits2(d.day), Digits2(d.month), Digits4(d.year);
    [dd[0], dd[1], sep1, mm[0], mm[1], sep2, yyyy[0], yyyy[1], yyyy[2], yyyy[3]]
  }

  /** Writing a valid day out and parsing it back gives that day's midnight. */
  lemma ParseFormatted(d: Day, sep1: char, sep2: char)
    requires IsValidDay(d) && IsSeparator(sep1) && IsSeparator(sep2)
    ensures ParseApiDate(FormatApiDate(d, sep1, sep2)) == Success(Midnight(d))
  {
    var s := FormatApiDate(d, sep1, sep2);
    assert MatchesDatePattern(s);
    DigitIsNotWhitespace(s[0]);
    DigitIsNotWhitespace(s[9]);
    TrimOfTrimmed(s);
    assert DateFields(s) == d;
  }

  lemma DigitsOfDigits2(c0: char, c1: char)
    requires IsAsciiDigit(c0) && IsAsciiDigit(c1)
    ensures Digits2(10 * DigitValue(c0) + DigitValue(c1)) == [c0, c1]
  {
  }

  lemma DigitsOfDigits4(c0: char, c1: char, c2: char, c3: char)
    requires IsAsciiDigit(c0) && IsAsciiDigit(c1) && IsAsciiDigit(c2) && IsAsciiDigit(c3)
    ensures Digits4(1000 * DigitValue(c0) + 100 * DigitValue(c1) + 10 * DigitValue(c2) + DigitValue(c3))
      == [c0, c1, c2, c3]
  {
    var n := 1000 * DigitValue(c0) + 100 * DigitValue(c1) + 10 * DigitValue(c2) + DigitValue(c3);
    assert n / 100 == 10 * DigitValue(c0) + DigitValue(c1);
    assert n % 100 == 10 * DigitValue(c2) + DigitValue(c3);
    DigitsOfDigits2(c0, c1);
    DigitsOfDigits2(c2, c3);
  }

  /** Conversely, an accepted string is, once trimmed, exactly its day written back out. */
  lemma ParsedIsFormatted(dateRep: string)
    requires ParseApiDate(dateRep).Success?
    ensures var t := Trim(dateRep);
      t == FormatApiDate(ParseApiDate(dateRep).value.date, t[2], t[5])
  {
    var t := Trim(dateRep);
    var d := ParseApiDate(dateRep).value.date;
    assert DateFields(t) == d;
    DigitsOfDigits2(t[0], t[1]);
    DigitsOfDigits2(t[3], t[4]);
    DigitsOfDigits4(t[6], t[7], t[8], t[9]);
  }

  /** Two-digit years (and 00..99 in general) never parse: `Date.UTC` moves them to the 1900s. */
  lemma ShortYearsRejected(dateRep: string)
    requires MatchesDatePattern(Trim(dateRep)) && DateFields(Trim(dateRep)).year < 100
    ensures ParseApiDate(dateRep).Failure?
  {
  }

  /** The console check in the comment at the end of date.ts: 01/12/2019 is 2019-12-01 UTC. */
  lemma ExampleParseAccepted()
    ensures ParseApiDate("01/12/2019") == Success(Midnight(Day(2019, 12, 1)))
  {
    var s := "01/12/2019";
    TrimOfTrimmed(s);
    assert MatchesDatePattern(s) && DateFields(s) == Day(2019, 12, 1);
  }

  /** Each separator is chosen independently. */
  lemma ExampleMixedSeparators()
    ensures ParseApiDate("29-02/2020") == Success(Midnight(Day(2020, 2, 29)))
  {
    var s := "29-02/2020";
    TrimOfTrimmed(s);
    assert MatchesDatePattern(s) && DateFields(s) == Day(2020, 2, 29);
  }

  /** 31 February passes the range checks and fails the calendar check. */
  lemma ExampleThirtyFirstFebruary()
    ensures ParseApiDate("31/02/2020") == Failure(InvalidCalendarDate)
  {
    var s := "31/02/2020";
    TrimOfTrimmed(s);
    assert MatchesDatePattern(s) && DateFields(s) == Day(2020, 2, 31);
  }

  /** 29 February exists only in leap years. */
  lemma ExampleNonLeapTwentyNinth()
    ensures ParseApiDate("29/02/2019") == Failure(InvalidCalendarDate)
  {
    var s := "29/02/2019";
    TrimOfTrimmed(s);
    assert MatchesDatePattern(s) && DateFields(s) == Day(2019, 2, 29);
  }

  /** Year 0099 is read by `Date.UTC` as 1999, so the year check fails. */
  lemma ExampleShortYear()
    ensures ParseApiDate("01/01/0099") == Failure(InvalidCalendarDate)
  {
    var s := "01/01/0099";
    TrimOfTrimmed(s);
    assert MatchesDatePattern(s) && DateFields(s) == Day(99, 1, 1);
  }

  /** An ISO date does not match the pattern. */
  lemma ExampleIsoInput()
    ensures ParseApiDate("2020-13-01") == Failure(InvalidFormat)
  {
    var s := "2020-13-01";
    TrimOfTrimmed(s);
    assert !MatchesDatePattern(s);
  }

  /** Month 13 is rejected before any date is built. */
  lemma ExampleMonthThirteen()
    ensures ParseApiDate("01/13/2020") == Failure(InvalidMonth)
  {
    var s := "01/13/2020";
    TrimOfTrimmed(s);
    assert MatchesDatePattern(s) && DateFields(s) == Day(2020, 13, 1);
  }

  /** Day 00 is rejected before any date is built. */
  lemma ExampleDayZero()
    ensures ParseApiDate("00/12/2020") == Failure(InvalidDay)
  {
    var s := "00/12/2020";
    TrimOfTrimmed(s);
    assert MatchesDatePattern(s) && DateFields(s) == Day(2020, 12, 0);
  }

  // ---------------------------------------------------------------------------
  // normalizeDate and isDateInRange

  /**
   * `normalizeDate(d)`: `Date.UTC` of `d`'s UTC year, month and day. Outside
   * years 0..99 that is the midnight that starts `d`'s day. Years 0..99 are
   * read as 1900..1999, so the result moves to that century; 29 February of
   * year 0, a day 1900 lacks, rolls over to 1 March 1900.
   */
  function NormalizeDate(d: Date): (r: Date)
    ensures r.timeOfDay == 0
    ensures !IsShortYear(d.date.year) ==> r.date == d.date
    ensures !IsShortYear(d.date.year) ==> GetTime(r) <= GetTime(d) < GetTime(r) + MsPerDay
    ensures IsShortYear(d.date.year) && d.date != Day(0, 2, 29) ==>
      r.date == Day(d.date.year + 1900, d.date.month, d.date.day)
    ensures d.date == Day(0, 2, 29) ==> r.date == Day(1900, 3, 1)
  {
    if IsShortYear(d.date.year) then DateUtc(d.date.year, d.date.month - 1, d.date.day)
    else Instant(d.date, 0)
  }

  /** Dropping the time of day twice is dropping it once. */
  lemma NormalizeIdempotent(d: Date)
    ensures NormalizeDate(NormalizeDate(d)) == NormalizeDate(d)
  {
  }

  /** Two dates on the same UTC day normalise to the same value. */
  lemma NormalizeSameDay(a: Date, b: Date)
    requires a.date == b.date
    ensures NormalizeDate(a) == NormalizeDate(b)
  {
  }

  /** `isDateInRange(date, from, to)`: compares the `getTime()` of the three normalised dates. */
  predicate IsDateInRange(date: Date, from: Date, to: Date) {
    var target := GetTime(NormalizeDate(date));
    var start := GetTime(NormalizeDate(from));
    var end := GetTime(NormalizeDate(to));
    target >= start && target <= end
  }

  /**
   * The range test is the interval of normalised calendar days, ends
   * included, whatever the times of day; outside years 0..99 those are the
   * dates' own days.
   */
  lemma InRangeIsDayInterval(date: Date, from: Date, to: Date)
    ensures IsDateInRange(date, from, to) <==>
      DayLe(NormalizeDate(from).date, NormalizeDate(date).date) && DayLe(NormalizeDate(date).date, NormalizeDate(to).date)
    ensures !IsShortYear(date.date.year) && !IsShortYear(from.date.year) && !IsShortYear(to.date.year) ==>
      (IsDateInRange(date, from, to) <==> DayLe(from.date, date.date) && DayLe(date.date, to.date))
  {
    GetTimeOrder(NormalizeDate(from), NormalizeDate(date));
    GetTimeOrder(NormalizeDate(date), NormalizeDate(to));
  }

  /** Both ends are included, whatever the time of day of any of the three dates. */
  lemma RangeEndsIncluded(from: Date, to: Date)
    requires DayLe(NormalizeDate(from).date, NormalizeDate(to).date)
    ensures IsDateInRange(from, from, to) && IsDateInRange(to, from, to)
  {
    InRangeIsDayInterval(from, from, to);
    InRangeIsDayInterval(to, from, to);
  }

  /** A range whose normalised start falls on a later day than its normalised end contains no date. */
  lemma InvertedRangeIsEmpty(date: Date, from: Date, to: Date)
    requires DayLess(NormalizeDate(to).date, NormalizeDate(from).date)
    ensures !IsDateInRange(date, from, to)
  {
    InRangeIsDayInterval(date, from, to);
  }

  /** 1 December 2019 lies between 30 November and 2 December 2019. */
  lemma ExampleInRange(date: Date, from: Date, to: Date)
    requires date == Midnight(Day(2019, 12, 1))
    requires from == Midnight(Day(2019, 11, 30)) && to == Midnight(Day(2019, 12, 2))
    ensures IsDateInRange(date, from, to)
  {
    InRangeIsDayInterval(date, from, to);
  }

  lemma ExampleParseFifthOfJanuary()
    ensures ParseApiDate("05/01/2020") == Success(Midnight(Day(2020, 1, 5)))
  {
    var s := "05/01/2020";
    TrimOfTrimmed(s);
    assert MatchesDatePattern(s) && DateFields(s) == Day(2020, 1, 5);
  }

  lemma ExampleParseTwentiethOfDecember()
    ensures ParseApiDate("20/12/2019") == Success(Midnight(Day(2019, 12, 20)))
  {
    var s := "20/12/2019";
    TrimOfTrimmed(s);
    assert MatchesDatePattern(s) && DateFields(s) == Day(2019, 12, 20);
  }

  /** The three dates of the `getMinMaxDates` check in the comment at the end of date.ts, parsed. */
  lemma ExampleMinMaxParses()
    ensures MapResult(ParseApiDate, ["05/01/2020", "01/12/2019", "20/12/2019"]) ==
      Success([Midnight(Day(2020, 1, 5)), Midnight(Day(2019, 12, 1)), Midnight(Day(2019, 12, 20))])
  {
    var a, b, c := "05/01/2020", "01/12/2019", "20/12/2019";
    var jan5, dec1, dec20 := Midnight(Day(2020, 1, 5)), Midnight(Day(2019, 12, 1)), Midnight(Day(2019, 12, 20));
    ExampleParseFifthOfJanuary();
    ExampleParseAccepted();
    ExampleParseTwentiethOfDecember();
    MapResultSingleton(ParseApiDate, a);
    MapResultSingleton(ParseApiDate, b);
    MapResultSingleton(ParseApiDate, c);
    assert MapResult(ParseApiDate, [b]) == Success([dec1]);
    assert MapResult(ParseApiDate, [c]) == Success([dec20]);
    MapResultAppendSucceeds(ParseApiDate, [b], [c]);
    assert [b] + [c] == [b, c];
    assert [dec1] + [dec20] == [dec1, dec20];
    assert MapResult(ParseApiDate, [a]) == Success([jan5]);
    MapResultAppendSucceeds(ParseApiDate, [a], [b, c]);
    assert [a] + [b, c] == [a, b, c];
    assert [jan5] + [dec1, dec20] == [jan5, dec1, dec20];
  }

  /** Of 5 January 2020, 1 December 2019 and 20 December 2019, the first is the latest and the second the earliest. */
  lemma ExampleMinMaxRange(min: Date, max: Date)
    requires IsTimeRange(min, max, [Midnight(Day(2020, 1, 5)), Midnight(Day(2019, 12, 1)), Midnight(Day(2019, 12, 20))])
    ensures min == Midnight(Day(2019, 12, 1)) && max == Midnight(Day(2020, 1, 5))
  {
    var jan5, dec1, dec20 := Midnight(Day(2020, 1, 5)), Midnight(Day(2019, 12, 1)), Midnight(Day(2019, 12, 20));
    var ds := [jan5, dec1, dec20];
    assert GetTime(min) <= GetTime(ds[1]) && GetTime(ds[0]) <= GetTime(max);
    assert min == jan5 || min == dec1 || min == dec20;
    assert max == jan5 || max == dec1 || max == dec20;
    GetTimeOrder(jan5, dec1);
    GetTimeOrder(dec20, dec1);
    GetTimeOrder(jan5, dec20);
  }

  /**
   * The `getMinMaxDates` check in the comment at the end of date.ts: of
   * 05/01/2020, 01/12/2019 and 20/12/2019 the earliest is 2019-12-01 and the
   * latest 2020-01-05.
   */
  method ExampleMinMaxDates() returns (min: Date, max: Date)
    ensures min == Midnight(Day(2019, 12, 1)) && max == Midnight(Day(2020, 1, 5))
  {
    ExampleMinMaxParses();
    var r := GetMinMaxDates(["05/01/2020", "01/12/2019", "20/12/2019"]);
    assert r.Success?;
    min, max := r.value.0, r.value.1;
    ExampleMinMaxRange(min, max);
  }

  /** A start of 0050-06-01 is read as 1950-06-01, so 1 January 1900 falls before it. */
  lemma ExampleShortYearStart(date: Date, from: Date, to: Date)
    requires date == Midnight(Day(1900, 1, 1))
    requires from == Midnight(Day(50, 6, 1)) && to == Midnight(Day(2020, 12, 31))
    ensures !IsDateInRange(date, from, to)
  {
    InRangeIsDayInterval(date, from, to);
  }

  /** From 0099-12-31 to 0100-01-01 is read as from 1999-12-31 to 0100-01-01: no date is in it. */
  lemma ExampleShortYearInverted(date: Date, from: Date, to: Date)
    requires from == Midnight(Day(99, 12, 31)) && to == Midnight(Day(100, 1, 1))
    ensures !IsDateInRange(date, from, to)
  {
    InvertedRangeIsEmpty(date, from, to);
  }

  // ---------------------------------------------------------------------------
  // getMinMaxDates

  /** `min` and `max` are among `ds`, and every date of `ds` lies between them by `getTime()`. */
  ghost predicate IsTimeRange(min: Date, max: Date, ds: seq<Date>) {
    && min in ds && max in ds
    && forall k :: 0 <= k < |ds| ==> GetTime(min) <= GetTime(ds[k]) <= GetTime(max)
  }

  /** One more date keeps the range when it replaces the bound it passes. */
  lemma TimeRangeExtends(min: Date, max: Date, ds: seq<Date>, d: Date)
    requires IsTimeRange(min, max, ds)
    ensures IsTimeRange(
      if GetTime(d) < GetTime(min) then d else min,
      if GetTime(d) > GetTime(max) then d else max,
      ds + [d])
  {
  }

  /**
   * `getMinMaxDates`: the earliest and the latest of the parsed dates, by
   * `getTime()`; an empty collection and any malformed date throw.
   */
  method GetMinMaxDates(dateReps: seq<string>) returns (r: Result<(Date, Date), DateError>)
    ensures |dateReps| == 0 ==> r == Failure(EmptyCollection)
    ensures |dateReps| > 0 && MapResult(ParseApiDate, dateReps).Failure? ==> r == Failure(MapResult(ParseApiDate, dateReps).error)
    ensures |dateReps| > 0 && MapResult(ParseApiDate, dateReps).Success? ==> r.Success?
    ensures r.Success? ==>
      && MapResult(ParseApiDate, dateReps).Success?
      && IsTimeRange(r.value.0, r.value.1, MapResult(ParseApiDate, dateReps).value)
  {
    if |dateReps| == 0 {
      return Failure(EmptyCollection);
    }
    assert dateReps[..0] == [];
    MapResultPrefixStep(ParseApiDate, dateReps, 0, []);
    var first := ParseApiDate(dateReps[0]);
    if first.Failure? {
      return Failure(first.error);
    }
    var min := first.value;
    var max := min;
    ghost var ds := [min];
    assert [] + ds == ds;
    var i := 1;
    while i < |dateReps|
      invariant 1 <= i <= |dateReps| && |ds| == i
      invariant MapResult(ParseApiDate, dateReps[..i]) == Success(ds)
      invariant IsTimeRange(min, max, ds)
    {
      MapResultPrefixStep(ParseApiDate, dateReps, i, ds);
      var current := ParseApiDate(dateReps[i]);
      if current.Failure? {
        return Failure(current.error);
      }
      var d := current.value;
      ghost var (min0, max0) := (min, max);
      if GetTime(d) < GetTime(min) {
        min := d;
      }
      if GetTime(d) > GetTime(max) {
        max := d;
      }
      TimeRangeExtends(min0, max0, ds, d);
      ds := ds + [d];
      i := i + 1;
    }
    assert dateReps[..i] == dateReps;
    r := Success((min, max));
  }

  // ---------------------------------------------------------------------------
  // Day keys: `date.toISOString().slice(0, 10)`

  /**
   * The ISO 8601 extended calendar-date form `YYYY-MM-DD` of a day (section
   * 4.1.2.2 of ISO 8601:2004), for the four-digit years a parsed date has.
   */
  function IsoDate(d: Day): (key: string)
    requires IsValidDay(d)
    ensures |key| == 10 && key[4] == '-' && key[7] == '-'
  {
    Digits4(d.year) + "-" + Digits2(d.month) + "-" + Digits2(d.day)
  }

  /**
   * `date.toISOString().slice(0, 10)`: the ISO date of the date's UTC day,
   * which `toISOString` prints with four year digits for every year a parsed
   * date can have.
   */
  function DayKey(t: ApiDate): string {
    IsoDate(t.date)
  }

  lemma Digits2Order(m: int, n: int)
    requires 0 <= m <= 99 && 0 <= n <= 99
    ensures LexLe(Digits2(m), Digits2(n)) <==> m <= n
  {
    var a, b := Digits2(m), Digits2(n);
    assert a[1..] == [a[1]] && b[1..] == [b[1]];
    assert [a[1]][1..] == [] && [b[1]][1..] == [];
    assert LexLe([a[1]], [b[1]]) <==> a[1] <= b[1];
    assert m <= n <==> m / 10 < n / 10 || (m / 10 == n / 10 && m % 10 <= n % 10);
  }

  lemma Digits4Order(m: int, n: int)
    requires 0 <= m <= 9999 && 0 <= n <= 9999
    ensures LexLe(Digits4(m), Digits4(n)) <==> m <= n
  {
    if m / 100 == n / 100 {
      LexLeCommonPrefix(Digits2(m / 100), Digits2(m % 100), Digits2(n % 100));
      Digits2Order(m % 100, n % 100);
    } else {
      LexLeDecidedByPrefix(Digits2(m / 100), Digits2(n / 100), Digits2(m % 100), Digits2(n % 100));
      Digits2Order(m / 100, n / 100);
    }
  }

  /** On the dataset's days, ordering ISO dates as strings is ordering the days. */
  lemma IsoDateOrder(a: Day, b: Day)
    requires IsValidDay(a) && IsValidDay(b)
    ensures LexLe(IsoDate(a), IsoDate(b)) <==> DayLe(a, b)
  {
    var ya, yb := Digits4(a.year), Digits4(b.year);
    var ma, mb := Digits2(a.month), Digits2(b.month);
    var da, db := Digits2(a.day), Digits2(b.day);
    assert IsoDate(a) == ya + ("-" + ma + "-" + da);
    assert IsoDate(b) == yb + ("-" + mb + "-" + db);
    Digits4Order(a.year, b.year);
    Digits4Order(b.year, a.year);
    if a.year != b.year {
      assert ya != yb;
      LexLeDecidedByPrefix(ya, yb, "-" + ma + "-" + da, "-" + mb + "-" + db);
    } else {
      assert "-" + ma + "-" + da == ("-" + ma) + ("-" + da);
      assert "-" + mb + "-" + db == ("-" + mb) + ("-" + db);
      LexLeCommonPrefix(ya, "-" + ma + "-" + da, "-" + mb + "-" + db);
      Digits2Order(a.month, b.month);
      Digits2Order(b.month, a.month);
      if a.month != b.month {
        assert ma != mb;
        LexLeCommonPrefix("-", ma + "-" + da, mb + "-" + db);
        assert "-" + ma + "-" + da == "-" + (ma + "-" + da);
        assert "-" + mb + "-" + db == "-" + (mb + "-" + db);
        LexLeDecidedByPrefix(ma, mb, "-" + da, "-" + db);
        assert ma + "-" + da == ma + ("-" + da);
        assert mb + "-" + db == mb + ("-" + db);
      } else {
        assert "-" + ma + "-" + da == ("-" + ma + "-") + da;
        assert "-" + mb + "-" + db == ("-" + mb + "-") + db;
        LexLeCommonPrefix("-" + ma + "-", da, db);
        Digits2Order(a.day, b.day);
        Digits2Order(b.day, a.day);
      }
    }
  }

  /** Two days share an ISO date exactly when they are the same day. */
  lemma IsoDateInjective(a: Day, b: Day)
    requires IsValidDay(a) && IsValidDay(b)
    ensures IsoDate(a) == IsoDate(b) <==> a == b
  {
    if IsoDate(a) == IsoDate(b) {
      LexLeReflexive(IsoDate(a));
      IsoDateOrder(a, b);
      IsoDateOrder(b, a);
    }
  }
}
