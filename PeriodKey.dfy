/**
 * The period key a completion log is stored under (`formatDateYYYYMMDD` and
 * `getPeriodDate` of both grid pages): the local date that starts the
 * current day, Monday-started week or month, written `YYYY-MM-DD`.
 * The clock reading is a parameter.
 */
module PeriodKey {
  import opened Wrappers
  import opened Text
  import opened Calendar
  import opened Domain

  /** A reading of the local clock: the local calendar date and the time of
      day in milliseconds. Only the date matters to the key. */
  datatype LocalInstant = LocalInstant(date: Date, msOfDay: int)

  /** `formatDateYYYYMMDD`: the year as `String` writes it, then the month
      and the day of the month padded to two digits, separated by "-". */
  function FormatDate(d: Date): string {
    IntToString(d.year) + "-" + PadStart2(IntToString(d.month)) + "-" + PadStart2(IntToString(d.day))
  }

  /** Reads a key back: the last six characters are "-MM-DD", and what
      precedes them is the year. */
  function ParseDateKey(s: string): Option<Date> {
    if |s| >= 7 && s[|s| - 6] == '-' && s[|s| - 3] == '-' then
      match ParseInt(s[..|s| - 6])
      case Some(y) => Some(Date(y, TwoDigitValue(s[|s| - 5..|s| - 3]), TwoDigitValue(s[|s| - 2..])))
      case None => None
    else None
  }

  /** Every real date can be read back from its key, whatever its year. */
  lemma FormatDateRoundTrip(d: Date)
    requires ValidDate(d)
    ensures ParseDateKey(FormatDate(d)) == Some(d)
  {
    var ys := IntToString(d.year);
    var ms := PadStart2(IntToString(d.month));
    var ds := PadStart2(IntToString(d.day));
    PaddedRoundTrip(d.month);
    PaddedRoundTrip(d.day);
    var s := FormatDate(d);
    assert s == ys + "-" + ms + "-" + ds;
    assert s[..|s| - 6] == ys;
    assert s[|s| - 5..|s| - 3] == ms;
    assert s[|s| - 2..] == ds;
    IntToStringRoundTrip(d.year);
  }

  /** Distinct real dates have distinct keys, so the key identifies the
      period start exactly. */
  lemma FormatDateInjective(a: Date, b: Date)
    requires ValidDate(a) && ValidDate(b)
    ensures FormatDate(a) == FormatDate(b) <==> a == b
  {
    FormatDateRoundTrip(a);
    FormatDateRoundTrip(b);
  }

  /** For years 1000 to 9999 the key is exactly `YYYY-MM-DD`: ten
      characters with the dashes at positions 4 and 7. */
  lemma FormatDateShape(d: Date)
    requires ValidDate(d) && 1000 <= d.year <= 9999
    ensures var s := FormatDate(d);
      |s| == 10 && s[4] == '-' && s[7] == '-'
      && AllDigits(s[..4]) && AllDigits(s[5..7]) && AllDigits(s[8..])
  {
    FourDigitNumeral(d.year);
    PaddedRoundTrip(d.month);
    PaddedRoundTrip(d.day);
    var s := FormatDate(d);
    assert s[..4] == IntToString(d.year);
    assert s[5..7] == PadStart2(IntToString(d.month));
    assert s[8..] == PadStart2(IntToString(d.day));
  }

  /** Days to go back from `d` to reach the Monday of its week. */
  function DaysSinceMonday(d: Date): int {
    BackToMonday(DayNumber(d))
  }

  /** `(day + 6) % 7` for the weekday `day` of day number `n`, with
      `getDay`'s 0 = Sunday. */
  function BackToMonday(n: int): int {
    (WeekdayOf(n) + 6) % 7
  }

  /** The day of the month `getPeriodDate` passes to `new Date`: today's,
      moved back to Monday for a weekly habit, or 1 for a monthly one. */
  function StartDay(cadence: Cadence, now: LocalInstant): int {
    match cadence
    case Daily => now.date.day
    case Weekly => now.date.day - DaysSinceMonday(now.date)
    case Monthly => 1
  }

  /** The `Date` object `getPeriodDate` formats: `new Date(y, m, day)` for
      the year and month of today. */
  function PeriodStart(cadence: Cadence, now: LocalInstant): (start: Date)
    ensures ValidDate(start)
  {
    MakeDateDayNumber(now.date.year, now.date.month - 1, StartDay(cadence, now));
    MakeDate(now.date.year, now.date.month - 1, StartDay(cadence, now))
  }

  /** A year that `new Date` takes as it is: any but 0..99. */
  predicate LiteralYear(year: int) {
    year < 0 || 99 < year
  }

  /** Today's year, month and day as `new Date` reads them back. */
  function Reread(d: Date): Date {
    Date(FullYear(d.year), d.month, d.day)
  }

  /** The period of a daily habit starts on today's date as `new Date` reads
      it back: today itself, except that a year of 0..99 gives the day with
      the same number in year 1900..1999. */
  lemma DailyStart(now: LocalInstant)
    requires ValidDate(now.date)
    ensures DayNumber(PeriodStart(Daily, now)) == DayNumber(Reread(now.date))
    ensures ValidDate(Reread(now.date)) ==> PeriodStart(Daily, now) == Reread(now.date)
    ensures LiteralYear(now.date.year) ==> PeriodStart(Daily, now) == now.date
  {
    MakeDateInMonth(now.date.year, now.date.month, now.date.day);
    DayNumberInMonth(Reread(now.date));
    if ValidDate(Reread(now.date)) {
      MakeDateOfValid(now.date);
    }
  }

  /** The period of a weekly habit starts on the Monday of this week: six
      days back on a Sunday. */
  lemma WeeklyStart(now: LocalInstant)
    requires ValidDate(now.date) && LiteralYear(now.date.year)
    ensures var start := PeriodStart(Weekly, now);
      && Weekday(start) == 1
      && DayNumber(start) == DayNumber(now.date) - DaysSinceMonday(now.date)
      && DayNumber(now.date) - 6 <= DayNumber(start) <= DayNumber(now.date)
      && (Weekday(now.date) == 0 ==> DayNumber(start) == DayNumber(now.date) - 6)
  {
    WeeklyStartNumber(now);
    MondayOfWeek(DayNumber(now.date), DayNumber(PeriodStart(Weekly, now)));
  }

  /** The weekly start is `DaysSinceMonday` days before today as `new Date`
      reads it back: before today itself in a year other than 0..99. The
      days to go back come from today's own weekday. */
  lemma WeeklyStartNumber(now: LocalInstant)
    requires ValidDate(now.date)
    ensures DayNumber(PeriodStart(Weekly, now)) == DayNumber(Reread(now.date)) - DaysSinceMonday(now.date)
    ensures LiteralYear(now.date.year) ==> DayNumber(PeriodStart(Weekly, now)) == DayNumber(now.date) - DaysSinceMonday(now.date)
  {
    MakeDateInMonth(now.date.year, now.date.month, StartDay(Weekly, now));
    DayNumberInMonth(Reread(now.date));
  }

  /** The period of a monthly habit starts on the first of this month, in
      the year `new Date` reads: 1900..1999 for a year of 0..99. */
  lemma MonthlyStart(now: LocalInstant)
    requires ValidDate(now.date)
    ensures PeriodStart(Monthly, now) == Date(FullYear(now.date.year), now.date.month, 1)
    ensures LiteralYear(now.date.year) ==> PeriodStart(Monthly, now) == Date(now.date.year, now.date.month, 1)
  {
    MakeDateOfValid(Date(now.date.year, now.date.month, 1));
  }

  /** Going back `BackToMonday(n)` days from day `n` lands on day `m`,
      the Monday that starts `n`'s week: at most six days back, six exactly
      from a Sunday, and always day `7 * ((n + 3) / 7) - 3`. */
  lemma MondayOfWeek(n: int, m: int)
    requires m == n - BackToMonday(n)
    ensures WeekdayOf(m) == 1
    ensures n - 6 <= m <= n
    ensures WeekdayOf(n) == 0 ==> m == n - 6
    ensures m == 7 * ((n + 3) / 7) - 3
  {
  }

  /** `getPeriodDate(cadence)` evaluated at clock reading `now`. */
  function PeriodDate(cadence: Cadence, now: LocalInstant): string {
    FormatDate(PeriodStart(cadence, now))
  }

  /** Number of the Monday-started week holding `d`, counting from the week
      of 1970-01-01 (a Thursday). */
  function WeekIndex(d: Date): int {
    (DayNumber(d) + 3) / 7
  }

  /** Counting weeks as `WeekIndex` does, the weekly start is day
      `7 * WeekIndex(now.date) - 3`. */
  lemma WeekStartDay(now: LocalInstant)
    requires ValidDate(now.date) && LiteralYear(now.date.year)
    ensures DayNumber(PeriodStart(Weekly, now)) == 7 * WeekIndex(now.date) - 3
  {
    WeeklyStartNumber(now);
    MondayOfWeek(DayNumber(now.date), DayNumber(PeriodStart(Weekly, now)));
  }

  /** Keys are equal exactly when the period starts are. */
  lemma KeySameIffStart(ca: Cadence, a: LocalInstant, cb: Cadence, b: LocalInstant)
    ensures PeriodDate(ca, a) == PeriodDate(cb, b) <==> PeriodStart(ca, a) == PeriodStart(cb, b)
  {
    FormatDateInjective(PeriodStart(ca, a), PeriodStart(cb, b));
  }

  /** Two clock readings get the same daily key exactly when they fall on
      the same local date, whatever the time of day. */
  lemma DailyKeySameIff(a: LocalInstant, b: LocalInstant)
    requires ValidDate(a.date) && ValidDate(b.date)
    requires LiteralYear(a.date.year) && LiteralYear(b.date.year)
    ensures PeriodDate(Daily, a) == PeriodDate(Daily, b) <==> a.date == b.date
  {
    DailyStart(a);
    DailyStart(b);
    FormatDateInjective(a.date, b.date);
  }

  /** Two clock readings get the same weekly key exactly when they fall in
      the same Monday-started week. */
  lemma WeeklyKeySameIff(a: LocalInstant, b: LocalInstant)
    requires ValidDate(a.date) && ValidDate(b.date)
    requires LiteralYear(a.date.year) && LiteralYear(b.date.year)
    ensures PeriodDate(Weekly, a) == PeriodDate(Weekly, b) <==> WeekIndex(a.date) == WeekIndex(b.date)
  {
    KeySameIffStart(Weekly, a, Weekly, b);
    WeekStartDay(a);
    WeekStartDay(b);
    DayNumberInjective(PeriodStart(Weekly, a), PeriodStart(Weekly, b));
  }

  /** Two clock readings get the same monthly key exactly when they fall in
      the same month of the same year as `new Date` reads the year, so a
      month of year 50 shares its key with the same month of 1950. */
  lemma MonthlyKeySameIff(a: LocalInstant, b: LocalInstant)
    requires ValidDate(a.date) && ValidDate(b.date)
    ensures PeriodDate(Monthly, a) == PeriodDate(Monthly, b)
        <==> FullYear(a.date.year) == FullYear(b.date.year) && a.date.month == b.date.month
    ensures LiteralYear(a.date.year) && LiteralYear(b.date.year) ==>
        (PeriodDate(Monthly, a) == PeriodDate(Monthly, b) <==> a.date.year == b.date.year && a.date.month == b.date.month)
  {
    MonthlyStart(a);
    MonthlyStart(b);
    FormatDateInjective(PeriodStart(Monthly, a), PeriodStart(Monthly, b));
  }

  /** A Monday starts a new weekly period: its key differs from the key of
      the Sunday before it. */
  lemma MondayAfterSundayDiffers(sunday: LocalInstant, monday: LocalInstant)
    requires ValidDate(sunday.date) && ValidDate(monday.date)
    requires LiteralYear(sunday.date.year) && LiteralYear(monday.date.year)
    requires Weekday(monday.date) == 1
    requires DayNumber(monday.date) == DayNumber(sunday.date) + 1
    ensures Weekday(sunday.date) == 0
    ensures PeriodDate(Weekly, sunday) != PeriodDate(Weekly, monday)
  {
    SundayBeforeMonday(sunday.date, monday.date);
    WeeklyKeySameIff(sunday, monday);
  }

  /** The day before a Monday is a Sunday of the previous week. */
  lemma SundayBeforeMonday(sunday: Date, monday: Date)
    requires Weekday(monday) == 1
    requires DayNumber(monday) == DayNumber(sunday) + 1
    ensures Weekday(sunday) == 0
    ensures WeekIndex(sunday) == WeekIndex(monday) - 1
  {
    MondayArithmetic(DayNumber(monday), DayNumber(sunday));
  }

  /** The day `p` before a Monday `n` is a Sunday of the previous week. */
  lemma MondayArithmetic(n: int, p: int)
    requires WeekdayOf(n) == 1 && p == n - 1
    ensures WeekdayOf(p) == 0
    ensures (p + 3) / 7 == (n + 3) / 7 - 1
  {
  }

  /** The last day of a month and the first day of the next have different
      monthly keys. */
  lemma NextMonthDiffers(last: LocalInstant, first: LocalInstant)
    requires ValidDate(last.date) && ValidDate(first.date)
    requires LiteralYear(last.date.year) && LiteralYear(first.date.year)
    requires first.date.day == 1
    requires DayNumber(first.date) == DayNumber(last.date) + 1
    ensures PeriodDate(Monthly, last) != PeriodDate(Monthly, first)
  {
    MonthlyKeySameIff(last, first);
    DayNumberInMonth(last.date);
    DayNumberInMonth(first.date);
  }

  /** A clock reading in year 0..99 gets the daily key of the same day in
      year 1900..1999, so two different dates share one key. */
  lemma TwoDigitYearSharesDailyKey(early: LocalInstant, late: LocalInstant)
    requires ValidDate(early.date) && 0 <= early.date.year <= 99
    requires late.date == Date(1900 + early.date.year, early.date.month, early.date.day)
    requires ValidDate(late.date)
    ensures early.date != late.date
    ensures PeriodDate(Daily, early) == PeriodDate(Daily, late)
  {
    assert Reread(early.date) == late.date;
    DailyStart(early);
    DailyStart(late);
    assert PeriodStart(Daily, early) == PeriodStart(Daily, late);
  }

  /** On 0050-03-05 the daily key is "1950-03-05". */
  lemma TwoDigitYearExample(now: LocalInstant)
    requires now.date == Date(50, 3, 5)
    ensures PeriodDate(Daily, now) == "1950-03-05"
  {
    assert Reread(now.date) == Date(1950, 3, 5);
    DailyStart(now);
    FormatExample();
  }

  lemma FormatExample()
    ensures FormatDate(Date(1950, 3, 5)) == "1950-03-05"
  {
    var year, month, day := IntToString(1950), PadStart2(IntToString(3)), PadStart2(IntToString(5));
    assert year == "1950" by {
      assert NatToDecimal(19) == "19" by { assert NatToDecimal(1) == "1"; }
      assert NatToDecimal(195) == "195";
    }
    assert month == "03" && day == "05";
    assert FormatDate(Date(1950, 3, 5)) == year + "-" + month + "-" + day;
  }
}
