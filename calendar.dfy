/** The proleptic Gregorian calendar of Python's `datetime`: calendar dates
    from 0001-01-01 to 9999-12-31, their day numbers (`date.toordinal()`),
    the step to the next day, naive date-times, and the `%Y-%m-%d` text
    written by `strftime` and read by `strptime`. */
module Calendar {

  import opened Options
  import opened Decimal

  const MinYear := 1
  const MaxYear := 9999
  const MicrosPerDay := 86_400_000_000

  datatype Date = Date(year: int, month: int, day: int)

  predicate IsLeap(y: int) {
    y % 4 == 0 && (y % 100 != 0 || y % 400 == 0)
  }

  function DaysInMonth(y: int, m: int): (n: int)
    requires 1 <= m <= 12
    ensures 28 <= n <= 31
    ensures n == 29 <==> m == 2 && IsLeap(y)
  {
    if m == 2 then (if IsLeap(y) then 29 else 28)
    else if m == 4 || m == 6 || m == 9 || m == 11 then 30
    else 31
  }

  predicate IsCalendarDate(d: Date) {
    MinYear <= d.year <= MaxYear && 1 <= d.month <= 12 && 1 <= d.day <= DaysInMonth(d.year, d.month)
  }

  /** A date `datetime.date` accepts. */
  type Day = d: Date | IsCalendarDate(d) witness Date(1, 1, 1)

  /** Microseconds since midnight. */
  type TimeOfDay = t: int | 0 <= t < MicrosPerDay

  /** A naive `datetime`: a calendar day and the time elapsed since its midnight. */
  datatype DateTime = DateTime(date: Day, time: TimeOfDay)

  function DaysBeforeYear(y: int): int
    requires y >= 1
  {
    var p := y - 1;
    p * 365 + p / 4 - p / 100 + p / 400
  }

  function DaysBeforeMonth(y: int, m: int): int
    requires 1 <= m <= 12
  {
    [0, 31, 59, 90, 120, 151, 181, 212, 243, 273, 304, 334][m - 1]
      + (if m > 2 && IsLeap(y) then 1 else 0)
  }

  /** `date.toordinal()`: 0001-01-01 is day 1. */
  function Ordinal(d: Day): int {
    DaysBeforeYear(d.year) + DaysBeforeMonth(d.year, d.month) + d.day
  }

  /** `d + timedelta(days=1)`; `None` where Python raises `OverflowError`
      (past 9999-12-31). */
  function NextDay(d: Day): (r: Option<Day>)
    ensures r.None? <==> d == LastDay
  {
    if d.day < DaysInMonth(d.year, d.month) then Some(Date(d.year, d.month, d.day + 1))
    else if d.month < 12 then Some(Date(d.year, d.month + 1, 1))
    else if d.year < MaxYear then Some(Date(d.year + 1, 1, 1))
    else None
  }

  lemma DaysBeforeNextYear(y: int)
    requires y >= 1
    ensures DaysBeforeYear(y + 1) == DaysBeforeYear(y) + 365 + (if IsLeap(y) then 1 else 0)
  {
    QuarterStep(y);
    CenturyStep(y);
    QuadricentennialStep(y);
    LeapDivisors(y);
    var p := y - 1;
    assert DaysBeforeYear(y + 1) == y * 365 + y / 4 - y / 100 + y / 400;
    assert DaysBeforeYear(y) == p * 365 + p / 4 - p / 100 + p / 400;
  }

  /** A multiple of 400 is one of 100, and a multiple of 100 one of 4. */
  lemma LeapDivisors(y: int)
    ensures y % 400 == 0 ==> y % 100 == 0
    ensures y % 100 == 0 ==> y % 4 == 0
  {
    if y % 400 == 0 {
      MultipleOf100(4 * (y / 400));
    }
    if y % 100 == 0 {
      MultipleOf4(25 * (y / 100));
    }
  }

  lemma MultipleOf100(q: int)
    ensures (100 * q) % 100 == 0
  {
  }

  lemma MultipleOf4(q: int)
    ensures (4 * q) % 4 == 0
  {
  }

  lemma QuarterStep(y: int)
    requires y >= 1
    ensures y / 4 == (y - 1) / 4 + (if y % 4 == 0 then 1 else 0)
  {
  }

  lemma CenturyStep(y: int)
    requires y >= 1
    ensures y / 100 == (y - 1) / 100 + (if y % 100 == 0 then 1 else 0)
  {
  }

  lemma QuadricentennialStep(y: int)
    requires y >= 1
    ensures y / 400 == (y - 1) / 400 + (if y % 400 == 0 then 1 else 0)
  {
  }

  /** The next day's number is one more: day numbers count days. */
  lemma {:induction false} NextDayIsSuccessor(d: Day)
    requires NextDay(d).Some?
    ensures Ordinal(NextDay(d).value) == Ordinal(d) + 1
  {
    if d.day == DaysInMonth(d.year, d.month) && d.month == 12 {
      DaysBeforeNextYear(d.year);
    }
  }

  /** Day numbers grow with the calendar order of (year, month, day), so
      they identify the date. */
  lemma OrdinalInjective(a: Day, b: Day)
    requires Ordinal(a) == Ordinal(b)
    ensures a == b
  {
    if a.year < b.year {
      OrdinalYearBound(a);
      OrdinalYearStart(b.year, b);
      DaysBeforeYearMonotone(a.year + 1, b.year);
    } else if b.year < a.year {
      OrdinalYearBound(b);
      OrdinalYearStart(a.year, a);
      DaysBeforeYearMonotone(b.year + 1, a.year);
    } else if a.month != b.month {
      var (lo, hi) := if a.month < b.month then (a, b) else (b, a);
      DaysBeforeMonthGap(lo.year, lo.month, hi.month);
    }
  }

  lemma OrdinalYearBound(d: Day)
    ensures Ordinal(d) <= DaysBeforeYear(d.year + 1)
  {
    DaysBeforeNextYear(d.year);
  }

  lemma OrdinalYearStart(y: int, d: Day)
    requires d.year == y
    ensures Ordinal(d) > DaysBeforeYear(y)
  {
  }

  lemma {:induction false} DaysBeforeYearMonotone(x: int, y: int)
    requires 1 <= x <= y
    ensures DaysBeforeYear(x) <= DaysBeforeYear(y)
    decreases y - x
  {
    if x < y {
      DaysBeforeNextYear(x);
      DaysBeforeYearMonotone(x + 1, y);
    }
  }

  lemma DaysBeforeMonthGap(y: int, m: int, n: int)
    requires 1 <= m < n <= 12
    ensures DaysBeforeMonth(y, m) + DaysInMonth(y, m) <= DaysBeforeMonth(y, n)
  {
  }

  /** `date.max`. */
  const LastDay: Day := Date(MaxYear, 12, 31)

  /** No day comes after `date.max`. */
  lemma OrdinalAtMostLast(d: Day)
    ensures Ordinal(d) <= Ordinal(LastDay)
  {
    OrdinalYearBound(d);
    DaysBeforeYearMonotone(d.year + 1, MaxYear + 1);
  }

  /** The instant as microseconds since 0001-01-01 00:00, the order in which
      naive `datetime` values compare. */
  function EpochMicros(t: DateTime): int {
    (Ordinal(t.date) - 1) * MicrosPerDay + t.time
  }

  /** `strftime("%Y-%m-%d")`: the year in plain decimal, month and day zero
      padded to two digits. */
  function FormatIsoDate(d: Day): string {
    NatToStr(d.year) + "-" + ZeroPad2(d.month) + "-" + ZeroPad2(d.day)
  }

  /** Two dates with the same `%Y-%m-%d` text are the same date, whatever
      the width of the year. */
  lemma FormatIsoDateInjective(a: Day, b: Day)
    requires FormatIsoDate(a) == FormatIsoDate(b)
    ensures a == b
  {
    var ya, ma, da := NatToStr(a.year), ZeroPad2(a.month), ZeroPad2(a.day);
    var yb, mb, db := NatToStr(b.year), ZeroPad2(b.month), ZeroPad2(b.day);
    DashedFieldsDetermine(ya, ma, da, yb, mb, db);
  }

  /** Joining fields with dashes, the last two of width two, loses none of
      them. */
  lemma DashedFieldsDetermine(y1: string, m1: string, d1: string, y2: string, m2: string, d2: string)
    requires |m1| == |m2| == |d1| == |d2| == 2
    requires y1 + "-" + m1 + "-" + d1 == y2 + "-" + m2 + "-" + d2
    ensures y1 == y2 && m1 == m2 && d1 == d2
  {
    var s := y1 + "-" + m1 + "-" + d1;
    var t := y2 + "-" + m2 + "-" + d2;
    assert |y1| == |s| - 6 == |y2|;
    assert s[..|s| - 6] == y1 && t[..|t| - 6] == y2;
    assert s[|s| - 5..|s| - 3] == m1 && t[|t| - 5..|t| - 3] == m2;
    assert s[|s| - 2..] == d1 && t[|t| - 2..] == d2;
  }

  /** The year, month and day fields sit at fixed distances from the end. */
  lemma FormatIsoDateParts(d: Day)
    ensures var s := FormatIsoDate(d);
            && |s| >= 7
            && DigitsValue(s[..|s| - 6]) == d.year
            && DigitsValue(s[|s| - 5..|s| - 3]) == d.month
            && DigitsValue(s[|s| - 2..]) == d.day
  {
    var y, m, dd := NatToStr(d.year), ZeroPad2(d.month), ZeroPad2(d.day);
    var s := FormatIsoDate(d);
    assert s == y + "-" + m + "-" + dd;
    assert s[..|s| - 6] == y;
    assert s[|s| - 5..|s| - 3] == m;
    assert s[|s| - 2..] == dd;
  }

  /** `%m` and `%d` of `strptime`: one or two decimal digits. */
  predicate IsShortNumber(s: string) {
    1 <= |s| <= 2 && AllDigits(s)
  }

  /** Where the second dash of a `%Y-%m-%d` text sits: after a month of
      one digit (index 6) or of two (index 7). */
  function SecondDash(s: string): (i: nat)
    requires |s| >= 8
    ensures i == 6 || i == 7
  {
    if s[6] == '-' then 6 else 7
  }

  /** The digits of the `%d` field, which may also be a space and one digit. */
  function DayDigits(field: string): (t: string)
    ensures t == field || (|field| == 2 && field[0] == ' ' && t == field[1..])
  {
    if |field| == 2 && field[0] == ' ' then field[1..] else field
  }

  /** Four year digits, a dash, one or two month digits, a dash and the
      `%d` field, and nothing more. */
  predicate IsoDateShape(s: string) {
    && |s| >= 8 && s[4] == '-' && AllDigits(s[..4])
    && SecondDash(s) < |s| && s[SecondDash(s)] == '-'
    && IsShortNumber(s[5..SecondDash(s)]) && IsShortNumber(DayDigits(s[SecondDash(s) + 1..]))
  }

  /** The date the three fields of a well-shaped text spell. */
  function IsoDateFields(s: string): Date
    requires IsoDateShape(s)
  {
    Date(DigitsValue(s[..4]), DigitsValue(s[5..SecondDash(s)]), DigitsValue(DayDigits(s[SecondDash(s) + 1..])))
  }

  /** `datetime.strptime(s, "%Y-%m-%d")`, `None` where it raises
      `ValueError`: exactly four year digits, a dash, a month of one or two
      digits in 1..12, a dash, a day of one or two digits in 1..31 (or a
      space and one digit, which the `%d` pattern also accepts), and the
      whole a date of the calendar (year 0 and 2023-02-29 are refused). */
  function ParseIsoDate(s: string): (r: Option<Day>)
    ensures r.Some? <==> IsoDateShape(s) && IsCalendarDate(IsoDateFields(s))
    ensures r.Some? ==> r.value == IsoDateFields(s) && r.value.year == DigitsValue(s[..4])
  {
    if |s| < 8 || |s| > 10 || s[4] != '-' || !AllDigits(s[..4]) then None
    else
      var dash := SecondDash(s);
      if dash >= |s| || s[dash] != '-' then None
      else
        var monthText, dayText := s[5..dash], DayDigits(s[dash + 1..]);
        if !IsShortNumber(monthText) || !IsShortNumber(dayText) then None
        else
          var year, month, day := DigitsValue(s[..4]), DigitsValue(monthText), DigitsValue(dayText);
          FourDigitsBound(s[..4]);
          if MinYear <= year && 1 <= month <= 12 && 1 <= day <= 31 && day <= DaysInMonth(year, month)
          then Some(Date(year, month, day))
          else None
  }

  lemma FourDigitsBound(s: string)
    requires |s| == 4 && AllDigits(s)
    ensures DigitsValue(s) < 10000
  {
    assert s[..1][..0] == [];
    assert s[..2][..1] == s[..1];
    assert s[..3][..2] == s[..2];
    assert DigitsValue(s[..1]) < 10;
    assert DigitsValue(s[..2]) < 100;
    assert DigitsValue(s[..3]) < 1000;
  }

  lemma NatToStrFourDigits(n: nat)
    requires 1000 <= n < 10000
    ensures |NatToStr(n)| == 4
  {
    assert |NatToStr(n / 10 / 10 / 10)| == 1;
    assert |NatToStr(n / 10 / 10)| == 2;
    assert |NatToStr(n / 10)| == 3;
  }

  /** `strptime` reads back what `strftime` wrote, for four-digit years. */
  lemma {:induction false} IsoDateRoundTrip(d: Day)
    requires d.year >= 1000
    ensures ParseIsoDate(FormatIsoDate(d)) == Some(d)
  {
    var y, m, dd := NatToStr(d.year), ZeroPad2(d.month), ZeroPad2(d.day);
    NatToStrFourDigits(d.year);
    assert FormatIsoDate(d) == y + "-" + m + "-" + dd;
    ParseDashedFields(y, m, dd);
  }

  /** Four year digits and two-digit month and day fields are read as
      those three numbers, and accepted when they make a calendar date. */
  lemma ParseDashedFields(y: string, m: string, dd: string)
    requires |y| == 4 && AllDigits(y) && |m| == 2 && AllDigits(m) && |dd| == 2 && AllDigits(dd)
    ensures var year, month, day := DigitsValue(y), DigitsValue(m), DigitsValue(dd);
            IsCalendarDate(Date(year, month, day)) ==> ParseIsoDate(y + "-" + m + "-" + dd) == Some(Date(year, month, day))
  {
    var s := y + "-" + m + "-" + dd;
    assert s[..4] == y;
    assert s[7] == '-' && s[6] != '-';
    assert s[5..7] == m;
    assert s[8..] == dd;
    assert dd[0] != ' ';
    assert IsoDateShape(s);
  }
}
