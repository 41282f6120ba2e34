/**
 * The proleptic Gregorian calendar of the local clock, as JavaScript's `Date`
 * exposes it through `getFullYear`, `getMonth`, `getDate` and `getDay`.
 *
 * A date is counted in days from 1970-01-01 (day 0, a Thursday). The two
 * conversions are the usual era-based closed forms: a year is shifted to start
 * on March 1 so that the leap day is the last day of the shifted year, and
 * 400 Gregorian years (an "era") hold exactly 146097 days.
 */
module Calendar {

  /** A civil date; `month` is 1..12 (JavaScript's `getMonth() + 1`). */
  datatype Date = Date(year: int, month: int, day: int)

  predicate IsLeapYear(y: int) {
    y % 4 == 0 && (y % 100 != 0 || y % 400 == 0)
  }

  function DaysInMonth(y: int, m: int): (n: int)
    requires 1 <= m <= 12
    ensures 28 <= n <= 31
    ensures m == 2 ==> (n == 29 <==> IsLeapYear(y))
  {
    if m == 2 then (if IsLeapYear(y) then 29 else 28)
    else if m == 4 || m == 6 || m == 9 || m == 11 then 30
    else 31
  }

  /** A date that exists in the calendar. */
  predicate ValidDate(d: Date) {
    1 <= d.month <= 12 && 1 <= d.day <= DaysInMonth(d.year, d.month)
  }

  /** Month index in the March-based year: March is 0, February is 11. */
  function ShiftedMonth(m: int): int {
    if m > 2 then m - 3 else m + 9
  }

  /** Day of the March-based year on which shifted month `mp` begins. */
  function MonthStart(mp: int): int {
    (153 * mp + 2) / 5
  }

  /** Day of the era on which year `yoe` of the era (March-based) begins. */
  function YearStart(yoe: int): int {
    365 * yoe + yoe / 4 - yoe / 100
  }

  /** Length of March-based year `yoe` of an era: it ends with February of
      Gregorian year `yoe + 1` (and the era's last year ends on a leap day). */
  function YearLength(yoe: int): int {
    if (yoe + 1) % 4 == 0 && ((yoe + 1) % 100 != 0 || yoe == 399) then 366 else 365
  }

  /** Which year of the era contains day `doe` of the era. */
  function YearOfEra(doe: int): int {
    (doe - doe / 1460 + doe / 36524 - doe / 146096) / 365
  }

  /** Days from 1970-01-01 to `d`. */
  function DayNumber(d: Date): int {
    var y := if d.month <= 2 then d.year - 1 else d.year;
    var era := y / 400;
    var yoe := y - era * 400;
    var doy := MonthStart(ShiftedMonth(d.month)) + d.day - 1;
    era * 146097 + YearStart(yoe) + doy - 719468
  }

  /** The closed form of the date `z` days after 1970-01-01. */
  function CivilFromDays(z: int): Date {
    var shifted := z + 719468;
    var era := shifted / 146097;
    var doe := shifted % 146097;
    var yoe := YearOfEra(doe);
    var doy := doe - YearStart(yoe);
    var mp := (5 * doy + 2) / 153;
    var month := if mp < 10 then mp + 3 else mp - 9;
    Date(era * 400 + yoe + (if month <= 2 then 1 else 0), month, doy - MonthStart(mp) + 1)
  }

  /** Day of the week of day number `n`, 0 = Sunday .. 6 = Saturday; day 0
      was a Thursday. */
  function WeekdayOf(n: int): (w: int)
    ensures 0 <= w < 7
  {
    (n + 4) % 7
  }

  /** Day of the week of `d`, as `getDay` returns it. */
  function Weekday(d: Date): int {
    WeekdayOf(DayNumber(d))
  }

  /** Day 0 is 1970-01-01, a Thursday. */
  lemma EpochIsThursday()
    ensures DayNumber(Date(1970, 1, 1)) == 0 && Weekday(Date(1970, 1, 1)) == 4
  {
  }

  /** 2024-01-01, day 19723, is a Monday. */
  lemma NewYear2024IsMonday()
    ensures DayNumber(Date(2024, 1, 1)) == 19723 && Weekday(Date(2024, 1, 1)) == 1
  {
    assert DayNumber(Date(2024, 1, 1)) == 19723;
  }

  /** 2023-12-31, day 19722, is a Sunday. */
  lemma NewYearsEve2023IsSunday()
    ensures DayNumber(Date(2023, 12, 31)) == 19722 && Weekday(Date(2023, 12, 31)) == 0
  {
    assert DayNumber(Date(2023, 12, 31)) == 19722;
  }

  /** The leap day 2000-02-29, day 11016, is a Tuesday. */
  lemma LeapDay2000IsTuesday()
    ensures DayNumber(Date(2000, 2, 29)) == 11016 && Weekday(Date(2000, 2, 29)) == 2
  {
    assert DayNumber(Date(2000, 2, 29)) == 11016;
  }

  /** The date `z` days after 1970-01-01: the one real date whose day
      number is `z`. `CivilFromDays` shows there is one. */
  function FromDayNumber(z: int): (d: Date)
    ensures ValidDate(d) && DayNumber(d) == z
  {
    CivilFromDaysCorrect(z);
    DayNumberUnique(z);
    var d :| ValidDate(d) && DayNumber(d) == z;
    d
  }

  /** The year the `Date` constructor uses for a year argument: one of
      0..99 is read as 1900..1999 (section 21.4.2.1 of ECMA-262), any other
      is taken as it is. */
  function FullYear(year: int): int {
    if 0 <= year <= 99 then 1900 + year else year
  }

  /** JavaScript's `new Date(year, monthIndex, day)` with a 0-based month
      index: the year is first read by `FullYear`, then an out-of-range month
      or day rolls over into the neighbouring months and years, because the
      date is found through the day count (ECMAScript's MakeDay). */
  function MakeDate(year: int, monthIndex: int, day: int): Date {
    FromDayNumber(DayNumber(MonthFirst(FullYear(year), monthIndex)) + day - 1)
  }

  /** The first day of month `monthIndex` (0-based, any integer) of `year`,
      whole years of months carried into the year. */
  function MonthFirst(year: int, monthIndex: int): Date {
    Date(year + monthIndex / 12, monthIndex % 12 + 1, 1)
  }

  // ---------------------------------------------------------------------
  // Facts about the closed forms

  /** Year `yoe` of an era covers exactly the days
      `YearStart(yoe) .. YearStart(yoe) + YearLength(yoe) - 1`, and the era's
      400 years tile its 146097 days. */
  lemma YearStartStep(yoe: int)
    requires 0 <= yoe < 400
    ensures YearStart(yoe) + YearLength(yoe) == (if yoe == 399 then 146097 else YearStart(yoe + 1))
  {
  }

  lemma YearStartMonotone(a: int, b: int)
    requires 0 <= a <= b <= 400
    ensures YearStart(a) <= YearStart(b)
    ensures a < b ==> YearStart(a) + 365 <= YearStart(b)
  {
  }

  /** `k` copies of a positive `d` add up to at least `d`. */
  lemma {:induction false} MulAtLeast(d: int, k: int)
    requires d > 0 && k >= 1
    ensures d * k >= d
  {
    if k > 1 {
      MulAtLeast(d, k - 1);
      assert d * k == d * (k - 1) + d;
    }
  }

  /** Quotient and remainder are determined by `n == d * q + r`. */
  lemma DivModUnique(n: int, d: int, q: int, r: int)
    requires 0 < d && 0 <= r < d && n == d * q + r
    ensures n / d == q && n % d == r
  {
    var k := q - n / d;
    assert d * k == n % d - r;
    if k >= 1 {
      MulAtLeast(d, k);
    } else if k <= -1 {
      MulAtLeast(d, -k);
    }
  }

  /** Day `s` of four-year block `b` of century `c` of an era lies in year
      `100 * c + 4 * b + j` of the era, `j` being the year within the block.
      Only the era's last century has a leap day closing its last block. */
  lemma BlockYear(c: int, b: int, s: int)
    requires 0 <= c < 4 && 0 <= b <= 24 && 0 <= s < 1461 && (b == 24 ==> s < 1460)
    ensures YearOfEra(36524 * c + 1461 * b + s) == 100 * c + 4 * b + (if s < 1095 then s / 365 else 3)
  {
    var doe := 36524 * c + 1461 * b + s;
    var e := if 24 * c + b + s >= 1460 then 1 else 0;
    DivModUnique(doe, 1460, 25 * c + b + e, 24 * c + b + s - 1460 * e);
    DivModUnique(doe, 36524, c, 1461 * b + s);
    DivModUnique(doe, 146096, 0, doe);
    var numerator := doe - doe / 1460 + doe / 36524 - doe / 146096;
    if s < 1095 {
      assert e == 0;
      DivModUnique(numerator, 365, 100 * c + 4 * b + s / 365, s % 365);
    } else {
      DivModUnique(numerator, 365, 100 * c + 4 * b + 3, s - e - 1095);
    }
  }

  /** Year `j` of block `b` of century `c` starts `365 * j` days into the
      block. */
  lemma BlockYearStart(c: int, b: int, j: int)
    requires 0 <= c < 4 && 0 <= b <= 24 && 0 <= j <= 3
    ensures YearStart(100 * c + 4 * b + j) == 36524 * c + 1461 * b + 365 * j
  {
    var y := 100 * c + 4 * b + j;
    DivModUnique(y, 4, 25 * c + b, j);
    DivModUnique(y, 100, c, 4 * b + j);
  }

  /** The last year of a block is the long one, except at the end of a
      century other than the era's last. */
  lemma BlockYearLength(c: int, b: int, j: int)
    requires 0 <= c < 4 && 0 <= b <= 24 && 0 <= j <= 3
    ensures YearLength(100 * c + 4 * b + j) == if j == 3 && (b < 24 || c == 3) then 366 else 365
  {
    var y := 100 * c + 4 * b + j;
    if j == 3 {
      DivModUnique(y + 1, 4, 25 * c + b + 1, 0);
      if b < 24 {
        DivModUnique(y + 1, 100, c, 4 * b + 4);
      } else {
        DivModUnique(y + 1, 100, c + 1, 0);
      }
    } else {
      DivModUnique(y + 1, 4, 25 * c + b, j + 1);
    }
  }

  /** `YearOfEra` finds the year whose span holds `doe`. The era splits into
      centuries of 36524 days and those into four-year blocks of 1461 days;
      the era's one extra day (its last) is handled on its own. */
  lemma YearOfEraBounds(doe: int)
    requires 0 <= doe < 146097
    ensures 0 <= YearOfEra(doe) < 400
    ensures YearStart(YearOfEra(doe)) <= doe < YearStart(YearOfEra(doe)) + YearLength(YearOfEra(doe))
  {
    if doe == 146096 {
      DivModUnique(doe, 1460, 100, 96);
      DivModUnique(doe, 36524, 4, 0);
      DivModUnique(doe, 146096, 1, 0);
      DivModUnique(145999, 365, 399, 364);
      BlockYearStart(3, 24, 3);
      BlockYearLength(3, 24, 3);
    } else {
      var c := doe / 36524;
      var rest := doe % 36524;
      var b := rest / 1461;
      var s := rest % 1461;
      assert doe == 36524 * c + 1461 * b + s;
      var j := if s < 1095 then s / 365 else 3;
      BlockYear(c, b, s);
      BlockYearStart(c, b, j);
      BlockYearLength(c, b, j);
    }
  }

  /** Within a March-based year, `(5 * doy + 2) / 153` is the month holding day `doy`. */
  lemma MonthOfDay(doy: int)
    requires 0 <= doy < 366
    ensures 0 <= (5 * doy + 2) / 153 <= 11
    ensures MonthStart((5 * doy + 2) / 153) <= doy < MonthStart((5 * doy + 2) / 153 + 1)
  {
  }

  /** Months of the March-based year have their Gregorian lengths; February
      (shifted month 11) starts on day 337. */
  lemma MonthLengths(y: int, m: int)
    requires 1 <= m <= 12
    ensures m != 2 ==> MonthStart(ShiftedMonth(m)) + DaysInMonth(y, m) == MonthStart(ShiftedMonth(m) + 1)
    ensures m == 2 ==> MonthStart(ShiftedMonth(m)) == 337
  {
  }

  lemma MonthStartMonotone(a: int, b: int)
    requires 0 <= a < b <= 12
    ensures MonthStart(a) + 28 <= MonthStart(b)
  {
  }

  /** The Gregorian year holding the end of March-based year `yoe` of era `era`
      is a leap year exactly when that March-based year has 366 days. */
  lemma LeapYearLength(era: int, yoe: int)
    requires 0 <= yoe < 400
    ensures IsLeapYear(era * 400 + yoe + 1) <==> YearLength(yoe) == 366
  {
    var g := era * 400 + yoe + 1;
    var r := yoe + 1;
    DivModUnique(g, 4, 100 * era + r / 4, r % 4);
    DivModUnique(g, 100, 4 * era + r / 100, r % 100);
    DivModUnique(g, 400, era + r / 400, r % 400);
  }

  /** Every day number names a real date, and counting it back gives the
      same day number. */
  lemma CivilFromDaysCorrect(z: int)
    ensures ValidDate(CivilFromDays(z))
    ensures DayNumber(CivilFromDays(z)) == z
  {
    CivilFromDaysValid(z);
    CivilFromDaysInverse(z);
  }

  lemma CivilFromDaysValid(z: int)
    ensures ValidDate(CivilFromDays(z))
  {
    var doe := (z + 719468) % 146097;
    YearOfEraBounds(doe);
    var yoe := YearOfEra(doe);
    var doy := doe - YearStart(yoe);
    MonthOfDay(doy);
    var mp := (5 * doy + 2) / 153;
    var month := if mp < 10 then mp + 3 else mp - 9;
    var era := (z + 719468) / 146097;
    var year := era * 400 + yoe + (if month <= 2 then 1 else 0);
    assert CivilFromDays(z) == Date(year, month, doy - MonthStart(mp) + 1);
    assert ShiftedMonth(month) == mp;
    MonthLengths(year, month);
    if month == 2 {
      LeapYearLength(era, yoe);
    }
  }

  lemma CivilFromDaysInverse(z: int)
    ensures DayNumber(CivilFromDays(z)) == z
  {
    var era := (z + 719468) / 146097;
    var doe := (z + 719468) % 146097;
    YearOfEraBounds(doe);
    var yoe := YearOfEra(doe);
    var doy := doe - YearStart(yoe);
    CivilFromDaysOfParts(z, era, yoe, doy);
    MonthOfDay(doy);
    var mp := (5 * doy + 2) / 153;
    var month := if mp < 10 then mp + 3 else mp - 9;
    assert ShiftedMonth(month) == mp;
    DayNumberOfParts(CivilFromDays(z), era, yoe);
  }

  /** The day number of a date given by the era and the year of the era of
      its March-based year. */
  lemma DayNumberOfParts(d: Date, era: int, yoe: int)
    requires 0 <= yoe < 400
    requires (if d.month <= 2 then d.year - 1 else d.year) == era * 400 + yoe
    ensures DayNumber(d) == era * 146097 + YearStart(yoe) + MonthStart(ShiftedMonth(d.month)) + d.day - 1 - 719468
  {
    DivModUnique(era * 400 + yoe, 400, era, yoe);
  }

  /** Day `doy` of March-based year `yoe` is found again by `YearOfEra`. */
  lemma YearOfEraUnique(yoe: int, doy: int)
    requires 0 <= yoe < 400 && 0 <= doy < YearLength(yoe)
    ensures YearOfEra(YearStart(yoe) + doy) == yoe
  {
    var doe := YearStart(yoe) + doy;
    YearStartStep(yoe);
    YearStartMonotone(yoe, 400);
    YearOfEraBounds(doe);
    var yoe' := YearOfEra(doe);
    if yoe' < yoe {
      YearStartStep(yoe');
      YearStartMonotone(yoe' + 1, yoe);
    } else if yoe' > yoe {
      YearStartMonotone(yoe + 1, yoe');
    }
  }

  /** Day `day` of shifted month `mp` is found again by the month formula. */
  lemma MonthUnique(mp: int, doy: int)
    requires 0 <= mp <= 11 && MonthStart(mp) <= doy < 366
    requires mp < 11 ==> doy < MonthStart(mp + 1)
    ensures (5 * doy + 2) / 153 == mp
  {
    MonthOfDay(doy);
    var mp' := (5 * doy + 2) / 153;
    if mp' < mp {
      MonthStartMonotone(mp' + 1, mp);
    } else if mp' > mp {
      MonthStartMonotone(mp + 1, mp');
    }
  }

  /** A real date survives the trip through its day number. */
  lemma CivilFromDaysOfDayNumber(d: Date)
    requires ValidDate(d)
    ensures CivilFromDays(DayNumber(d)) == d
  {
    var y := if d.month <= 2 then d.year - 1 else d.year;
    var era := y / 400;
    var yoe := y - era * 400;
    var mp := ShiftedMonth(d.month);
    var doy := MonthStart(mp) + d.day - 1;
    DayInYear(d);
    CivilFromDaysOfParts(DayNumber(d), era, yoe, doy);
    MonthUnique(mp, doy);
  }

  /** The date of a day number given by its era, its year of the era and
      its day of the (March-based) year. */
  lemma CivilFromDaysOfParts(z: int, era: int, yoe: int, doy: int)
    requires 0 <= yoe < 400 && 0 <= doy < YearLength(yoe)
    requires z + 719468 == era * 146097 + YearStart(yoe) + doy
    ensures var mp := (5 * doy + 2) / 153;
      var month := if mp < 10 then mp + 3 else mp - 9;
      CivilFromDays(z) == Date(era * 400 + yoe + (if month <= 2 then 1 else 0), month, doy - MonthStart(mp) + 1)
  {
    YearStartStep(yoe);
    YearStartMonotone(yoe, 400);
    DivModUnique(z + 719468, 146097, era, YearStart(yoe) + doy);
    YearOfEraUnique(yoe, doy);
  }

  /** The day of the March-based year of a real date lies within that
      year. */
  lemma DayInYear(d: Date)
    requires ValidDate(d)
    ensures var y := if d.month <= 2 then d.year - 1 else d.year;
      var yoe := y - y / 400 * 400;
      && 0 <= yoe < 400
      && MonthStart(ShiftedMonth(d.month)) <= MonthStart(ShiftedMonth(d.month)) + d.day - 1 < YearLength(yoe)
      && (ShiftedMonth(d.month) < 11 ==> MonthStart(ShiftedMonth(d.month)) + d.day - 1 < MonthStart(ShiftedMonth(d.month) + 1))
  {
    var y := if d.month <= 2 then d.year - 1 else d.year;
    var era := y / 400;
    var yoe := y - era * 400;
    MonthLengths(d.year, d.month);
    if d.month == 2 {
      assert d.year == era * 400 + yoe + 1;
      LeapYearLength(era, yoe);
    }
  }

  /** For a month of 1..12 nothing is carried. */
  lemma MonthFirstInYear(year: int, month: int)
    requires 1 <= month <= 12
    ensures MonthFirst(year, month - 1) == Date(year, month, 1)
  {
    DivModUnique(month - 1, 12, 0, month - 1);
  }

  /** `new Date(y, m, d)` with an in-range month and day gives back that
      date, in the year `FullYear(y)`, whenever that date exists. */
  lemma MakeDateOfValid(d: Date)
    requires ValidDate(Date(FullYear(d.year), d.month, d.day))
    ensures MakeDate(d.year, d.month - 1, d.day) == Date(FullYear(d.year), d.month, d.day)
  {
    var e := Date(FullYear(d.year), d.month, d.day);
    CountFromMonthFirst(e);
    assert MakeDate(d.year, d.month - 1, d.day) == FromDayNumber(DayNumber(MonthFirst(e.year, e.month - 1)) + e.day - 1);
  }

  /** Counting `day - 1` days on from the first of its month reaches a real
      date again. */
  lemma CountFromMonthFirst(e: Date)
    requires ValidDate(e)
    ensures FromDayNumber(DayNumber(MonthFirst(e.year, e.month - 1)) + e.day - 1) == e
  {
    MonthFirstInYear(e.year, e.month);
    DayNumberInMonth(e);
    assert DayNumber(MonthFirst(e.year, e.month - 1)) + e.day - 1 == DayNumber(e);
    DayNumberCorrect(e);
  }

  /** `new Date(y, m, d)` lands on a real date `d - 1` days after the first of
      the (normalised) month of year `FullYear(y)`, whatever `d` is. */
  lemma MakeDateDayNumber(year: int, monthIndex: int, day: int)
    ensures ValidDate(MakeDate(year, monthIndex, day))
    ensures DayNumber(MakeDate(year, monthIndex, day)) == DayNumber(MonthFirst(FullYear(year), monthIndex)) + day - 1
  {
  }

  /** `new Date(y, m - 1, d)` for a month `m` of 1..12 lands `d - 1` days
      after the first of that month of year `FullYear(y)`. */
  lemma MakeDateInMonth(year: int, month: int, day: int)
    requires 1 <= month <= 12
    ensures ValidDate(MakeDate(year, month - 1, day))
    ensures DayNumber(MakeDate(year, month - 1, day)) == DayNumber(Date(FullYear(year), month, 1)) + day - 1
  {
    MonthFirstInYear(FullYear(year), month);
    MakeDateDayNumber(year, month - 1, day);
  }

  /** Within one month the day number grows with the day of the month. */
  lemma DayNumberInMonth(d: Date)
    ensures DayNumber(d) == DayNumber(Date(d.year, d.month, 1)) + d.day - 1
  {
  }

  /** Real dates are told apart by their day numbers. */
  lemma DayNumberInjective(a: Date, b: Date)
    requires ValidDate(a) && ValidDate(b)
    ensures DayNumber(a) == DayNumber(b) <==> a == b
  {
    CivilFromDaysOfDayNumber(a);
    CivilFromDaysOfDayNumber(b);
  }

  /** At most one real date has a given day number. */
  lemma DayNumberUnique(z: int)
    ensures forall a, b :: ValidDate(a) && ValidDate(b) && DayNumber(a) == z && DayNumber(b) == z ==> a == b
  {
    forall a, b | ValidDate(a) && ValidDate(b) && DayNumber(a) == z && DayNumber(b) == z
      ensures a == b
    {
      DayNumberInjective(a, b);
    }
  }

  /** A real date survives the trip through its day number. */
  lemma DayNumberCorrect(d: Date)
    requires ValidDate(d)
    ensures FromDayNumber(DayNumber(d)) == d
  {
    DayNumberInjective(FromDayNumber(DayNumber(d)), d);
  }
}
