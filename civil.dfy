/**
 * Proleptic Gregorian calendar arithmetic on day numbers.
 *
 * A date is an integer day number, day 0 being 1970-01-01 (a Thursday).
 * This is the arithmetic the calculator obtains from pandas timestamps:
 * building the first of a month, adding and subtracting days, `weekday()`,
 * `.day` and `.month`.
 *
 * The decoding functions are total and carry only cheap bounds; what they
 * mean (validity and both round trips) is stated by the lemmas at the end.
 */
module Civil {

  /** A calendar day, counted from 1970-01-01. */
  type Date = int

  /** A calendar date as year, month (1..12) and day of month. */
  datatype CivilDate = CivilDate(year: int, month: int, day: int)

  predicate IsLeapYear(y: int) {
    y % 4 == 0 && (y % 100 != 0 || y % 400 == 0)
  }

  function DaysInYear(y: int): int {
    if IsLeapYear(y) then 366 else 365
  }

  /** Days of year `y` that come before the first of month `m`; m == 13 gives the whole year. */
  function DaysBeforeMonth(y: int, m: int): int
    requires 1 <= m <= 13
  {
    var leap := if IsLeapYear(y) then 1 else 0;
    if m == 1 then 0
    else if m == 2 then 31
    else if m == 3 then 59 + leap
    else if m == 4 then 90 + leap
    else if m == 5 then 120 + leap
    else if m == 6 then 151 + leap
    else if m == 7 then 181 + leap
    else if m == 8 then 212 + leap
    else if m == 9 then 243 + leap
    else if m == 10 then 273 + leap
    else if m == 11 then 304 + leap
    else if m == 12 then 334 + leap
    else 365 + leap
  }

  /** The length of a month, stated against the cumulative table above. */
  function DaysInMonth(y: int, m: int): (r: int)
    requires 1 <= m <= 12
    ensures 28 <= r <= 31
    ensures r == DaysBeforeMonth(y, m + 1) - DaysBeforeMonth(y, m)
  {
    if m == 2 then (if IsLeapYear(y) then 29 else 28)
    else if m == 4 || m == 6 || m == 9 || m == 11 then 30
    else 31
  }

  predicate ValidCivil(c: CivilDate) {
    1 <= c.month <= 12 && 1 <= c.day <= DaysInMonth(c.year, c.month)
  }

  /** Days in one 400-year cycle of the Gregorian calendar. */
  const DaysPerEra: int := 146097

  /** Days from 0000-01-01 to 1970-01-01. */
  const EpochOffset: int := 719528

  /** Days that come before year `k` of a 400-year era (year 0 of an era is a leap year). */
  function DaysBeforeYearInEra(k: int): int
    requires 0 <= k <= 400
  {
    365 * k + (k + 3) / 4 - (k + 99) / 100 + (k + 399) / 400
  }

  /** Day number of January 1 of year `y`. */
  function DaysBeforeYear(y: int): Date {
    146097 * (y / 400) + DaysBeforeYearInEra(y % 400) - EpochOffset
  }

  /** Days of its year that come before a date. */
  function DayOfYear(c: CivilDate): int
    requires 1 <= c.month <= 12
  {
    DaysBeforeMonth(c.year, c.month) + c.day - 1
  }

  /** Day number of a calendar date (pandas `Timestamp(year=, month=, day=)`). */
  function ToDayNumber(c: CivilDate): Date
    requires 1 <= c.month <= 12
  {
    DaysBeforeYear(c.year) + DayOfYear(c)
  }

  /** Day of week, Monday = 0 ... Sunday = 6 (pandas `weekday()`). */
  function Weekday(d: Date): (w: int)
    ensures 0 <= w < 7
  {
    (d + 3) % 7
  }

  /** Day 0 is 1970-01-01, a Thursday (weekday 3). */
  lemma Epoch()
    ensures ToDayNumber(CivilDate(1970, 1, 1)) == 0 && Weekday(0) == 3
  {
    assert 1970 / 400 == 4 && 1970 % 400 == 370;
    assert DaysBeforeYearInEra(370) == 135140;
  }

  /** The year of an era holding day `r` of the era, searched upwards from `k`. */
  function YearSearch(r: int, k: int): (j: int)
    requires 0 <= k < 400 && r < DaysPerEra
    ensures k <= j < 400 && r < DaysBeforeYearInEra(j + 1)
    ensures DaysBeforeYearInEra(k) <= r ==> DaysBeforeYearInEra(j) <= r
    decreases 400 - k
  {
    if k == 399 || r < DaysBeforeYearInEra(k + 1) then k else YearSearch(r, k + 1)
  }

  /** The year of an era holding day `r` of the era; no year has more than 366 days, so the search starts at r / 366. */
  function YearOfEra(r: int): (k: int)
    requires 0 <= r < DaysPerEra
    ensures 0 <= k < 400
  {
    YearSearch(r, r / 366)
  }

  /** The month holding day `doy` (0-based) of year `y`. */
  function MonthOfYear(y: int, doy: int): (m: int)
    ensures 1 <= m <= 12
  {
    if doy < DaysBeforeMonth(y, 2) then 1
    else if doy < DaysBeforeMonth(y, 3) then 2
    else if doy < DaysBeforeMonth(y, 4) then 3
    else if doy < DaysBeforeMonth(y, 5) then 4
    else if doy < DaysBeforeMonth(y, 6) then 5
    else if doy < DaysBeforeMonth(y, 7) then 6
    else if doy < DaysBeforeMonth(y, 8) then 7
    else if doy < DaysBeforeMonth(y, 9) then 8
    else if doy < DaysBeforeMonth(y, 10) then 9
    else if doy < DaysBeforeMonth(y, 11) then 10
    else if doy < DaysBeforeMonth(y, 12) then 11
    else 12
  }

  /** The calendar date of day `doy` (0-based) of year `y`. */
  function DateOfYear(y: int, doy: int): (c: CivilDate)
    ensures c.year == y && 1 <= c.month <= 12
  {
    var m := MonthOfYear(y, doy);
    CivilDate(y, m, doy - DaysBeforeMonth(y, m) + 1)
  }

  /** The calendar date of day `r` of 400-year era `era` (era 0 starts on 0000-01-01). */
  function FromEraDay(era: int, r: int): (c: CivilDate)
    requires 0 <= r < DaysPerEra
    ensures 1 <= c.month <= 12
  {
    var k := YearOfEra(r);
    DateOfYear(400 * era + k, r - DaysBeforeYearInEra(k))
  }

  /** The calendar date of a day number (pandas `.year`, `.month`, `.day`). */
  function FromDayNumber(n: Date): (c: CivilDate)
    ensures 1 <= c.month <= 12
  {
    var s := n + EpochOffset;
    FromEraDay(s / DaysPerEra, s % DaysPerEra)
  }

  // ---------------------------------------------------------------------
  // Arithmetic facts about the year tables

  lemma LeapYearPeriodic(y: int)
    ensures IsLeapYear(y) == IsLeapYear(y % 400)
  {
    var k, q := y % 400, y / 400;
    assert y == 4 * (100 * q) + k;
    assert y % 4 == k % 4;
    assert y == 100 * (4 * q) + k;
    assert y % 100 == k % 100;
  }

  lemma EraYear(era: int, k: int)
    requires 0 <= k < 400
    ensures (400 * era + k) / 400 == era && (400 * era + k) % 400 == k
    ensures IsLeapYear(400 * era + k) == IsLeapYear(k)
  {
    LeapYearPeriodic(400 * era + k);
  }

  lemma EraYearStep(k: int)
    requires 0 <= k < 400
    ensures DaysBeforeYearInEra(k + 1) == DaysBeforeYearInEra(k) + DaysInYear(k)
  {
    assert (k + 4) / 4 - (k + 3) / 4 == (if k % 4 == 0 then 1 else 0);
    assert (k + 100) / 100 - (k + 99) / 100 == (if k % 100 == 0 then 1 else 0);
    assert (k + 400) / 400 - (k + 399) / 400 == (if k == 0 then 1 else 0);
  }

  lemma {:induction false} EraYearMonotone(a: int, b: int)
    requires 0 <= a <= b <= 400
    ensures DaysBeforeYearInEra(a) + 365 * (b - a) <= DaysBeforeYearInEra(b)
    decreases b - a
  {
    if a < b {
      EraYearStep(a);
      EraYearMonotone(a + 1, b);
    }
  }

  /** Consecutive years are DaysInYear apart, across era boundaries too. */
  lemma YearStep(y: int)
    ensures DaysBeforeYear(y + 1) == DaysBeforeYear(y) + DaysInYear(y)
  {
    var k := y % 400;
    LeapYearPeriodic(y);
    EraYearStep(k);
    if k == 399 {
      assert (y + 1) / 400 == y / 400 + 1 && (y + 1) % 400 == 0;
    } else {
      assert (y + 1) / 400 == y / 400 && (y + 1) % 400 == k + 1;
    }
  }

  lemma EraDivision(s: int, era: int, r: int)
    requires s == 146097 * era + r && 0 <= r < DaysPerEra
    ensures s / DaysPerEra == era && s % DaysPerEra == r
  {
  }

  // ---------------------------------------------------------------------
  // The searches find the year and the month holding a day

  lemma YearOfEraBracket(r: int)
    requires 0 <= r < DaysPerEra
    ensures DaysBeforeYearInEra(YearOfEra(r)) <= r < DaysBeforeYearInEra(YearOfEra(r) + 1)
  {
    var k0 := r / 366;
    assert 366 * k0 <= r;
    assert DaysBeforeYearInEra(k0) <= 366 * k0 by {
      assert (k0 + 3) / 4 <= k0 || k0 == 0;
    }
  }

  lemma YearOfEraUnique(r: int, k: int)
    requires 0 <= k < 400 && 0 <= r < DaysPerEra
    requires DaysBeforeYearInEra(k) <= r < DaysBeforeYearInEra(k + 1)
    ensures YearOfEra(r) == k
  {
    var j := YearOfEra(r);
    YearOfEraBracket(r);
    if j < k {
      EraYearMonotone(j + 1, k);
    } else if k < j {
      EraYearMonotone(k + 1, j);
    }
  }

  lemma MonthOfYearBracket(y: int, doy: int)
    requires 0 <= doy < DaysInYear(y)
    ensures DaysBeforeMonth(y, MonthOfYear(y, doy)) <= doy < DaysBeforeMonth(y, MonthOfYear(y, doy) + 1)
  {
  }

  lemma MonthOfYearUnique(y: int, doy: int, m: int)
    requires 1 <= m <= 12
    requires DaysBeforeMonth(y, m) <= doy < DaysBeforeMonth(y, m + 1)
    ensures MonthOfYear(y, doy) == m
  {
  }

  /** Day `doy` of a year decodes to a valid date of that year with that day of year. */
  lemma DateOfYearValid(y: int, doy: int)
    requires 0 <= doy < DaysInYear(y)
    ensures ValidCivil(DateOfYear(y, doy)) && DayOfYear(DateOfYear(y, doy)) == doy
  {
    MonthOfYearBracket(y, doy);
  }

  /** A valid date is day DayOfYear of its year. */
  lemma DayOfYearBound(c: CivilDate)
    requires ValidCivil(c)
    ensures 0 <= DayOfYear(c) < DaysInYear(c.year)
  {
    assert DaysBeforeMonth(c.year, c.month + 1) <= DaysBeforeMonth(c.year, 13);
  }

  // ---------------------------------------------------------------------
  // Validity and the two round trips

  /** Day `r` of an era is day `j` of the year `k` the search finds. */
  lemma YearOfEraDay(r: int, k: int, j: int)
    requires 0 <= r < DaysPerEra && k == YearOfEra(r) && j == r - DaysBeforeYearInEra(k)
    ensures 0 <= j < DaysInYear(k)
  {
    YearOfEraBracket(r);
    EraYearStep(k);
  }

  /** Day `r` of era `era` is day `j` of its year `y`, year `k` of the era found by the search. */
  lemma FromEraDayParts(era: int, r: int, k: int, j: int, y: int)
    requires 0 <= r < DaysPerEra && k == YearOfEra(r)
    requires j == r - DaysBeforeYearInEra(k) && y == 400 * era + k
    ensures 0 <= j < DaysInYear(y)
    ensures FromEraDay(era, r) == DateOfYear(y, j)
  {
    YearOfEraDay(r, k, j);
    EraYear(era, k);
    assert FromEraDay(era, r) == DateOfYear(400 * era + YearOfEra(r), r - DaysBeforeYearInEra(YearOfEra(r)));
  }

  lemma FromEraDayValid(era: int, r: int)
    requires 0 <= r < DaysPerEra
    ensures ValidCivil(FromEraDay(era, r))
  {
    var k := YearOfEra(r);
    var j, y := r - DaysBeforeYearInEra(k), 400 * era + k;
    FromEraDayParts(era, r, k, j, y);
    DateOfYearValid(y, j);
  }

  /** Year `k` of era `era` starts DaysBeforeYearInEra(k) days into the era. */
  lemma DaysBeforeEraYear(era: int, k: int, y: int)
    requires 0 <= k < 400 && y == 400 * era + k
    ensures DaysBeforeYear(y) == 146097 * era + DaysBeforeYearInEra(k) - EpochOffset
  {
    EraYear(era, k);
  }

  lemma EraDayNumber(era: int, r: int)
    requires 0 <= r < DaysPerEra
    ensures ToDayNumber(FromEraDay(era, r)) == 146097 * era + r - EpochOffset
  {
    var k := YearOfEra(r);
    var j, y := r - DaysBeforeYearInEra(k), 400 * era + k;
    FromEraDayParts(era, r, k, j, y);
    DateOfYearValid(y, j);
    DaysBeforeEraYear(era, k, y);
  }

  /** Day `j` of year `k` of an era, day `r` of the era, is found again by the year search. */
  lemma EraDayOfYear(k: int, j: int, r: int)
    requires 0 <= k < 400 && 0 <= j < DaysInYear(k) && r == DaysBeforeYearInEra(k) + j
    ensures 0 <= r < DaysPerEra
    ensures YearOfEra(r) == k
  {
    EraYearStep(k);
    EraYearMonotone(k + 1, 400);
    YearOfEraUnique(r, k);
  }

  /** Every day number decodes to a valid calendar date. */
  lemma FromDayNumberValid(n: Date)
    ensures ValidCivil(FromDayNumber(n))
  {
    var s := n + EpochOffset;
    FromEraDayValid(s / DaysPerEra, s % DaysPerEra);
  }

  /** Every day number survives the trip through its calendar date. */
  lemma ToFromDayNumber(n: Date)
    ensures ToDayNumber(FromDayNumber(n)) == n
  {
    var s := n + EpochOffset;
    EraDayNumber(s / DaysPerEra, s % DaysPerEra);
  }

  /** A day number decodes through its era and its day within the era. */
  lemma FromDayNumberOfEra(n: Date, era: int, r: int)
    requires 0 <= r < DaysPerEra && n == 146097 * era + r - EpochOffset
    ensures FromDayNumber(n) == FromEraDay(era, r)
  {
    EraDivision(n + EpochOffset, era, r);
  }

  /** Day `j` of year `k` of an era, day `r` of the era, decodes to that day of that year. */
  lemma FromEraDayOfYear(era: int, k: int, j: int, r: int, y: int)
    requires 0 <= k < 400 && 0 <= j < DaysInYear(k) && r == DaysBeforeYearInEra(k) + j
    requires y == 400 * era + k
    ensures 0 <= r < DaysPerEra
    ensures FromEraDay(era, r) == DateOfYear(y, j)
  {
    EraDayOfYear(k, j, r);
    FromEraDayParts(era, r, k, j, y);
  }

  /** A valid date is the date of its own day of year. */
  lemma DateOfOwnDayOfYear(c: CivilDate)
    requires ValidCivil(c)
    ensures DateOfYear(c.year, DayOfYear(c)) == c
  {
    MonthOfYearUnique(c.year, DayOfYear(c), c.month);
  }

  /** A valid calendar date is what its day number `n` decodes to. */
  lemma DecodeDayNumber(c: CivilDate, n: Date)
    requires ValidCivil(c) && n == ToDayNumber(c)
    ensures FromDayNumber(n) == c
  {
    var y, doy := c.year, DayOfYear(c);
    var era, k := y / 400, y % 400;
    DayOfYearBound(c);
    LeapYearPeriodic(y);
    var r := DaysBeforeYearInEra(k) + doy;
    FromEraDayOfYear(era, k, doy, r, y);
    FromDayNumberOfEra(n, era, r);
    DateOfOwnDayOfYear(c);
  }

  /** Every valid calendar date survives the trip through its day number. */
  lemma FromToDayNumber(c: CivilDate)
    requires ValidCivil(c)
    ensures FromDayNumber(ToDayNumber(c)) == c
  {
    DecodeDayNumber(c, ToDayNumber(c));
  }

  // ---------------------------------------------------------------------
  // Months as day-number ranges

  /** Day number of the first of a month (pandas `Timestamp(year=y, month=m, day=1)`). */
  function FirstOfMonth(y: int, m: int): Date
    requires 1 <= m <= 12
  {
    ToDayNumber(CivilDate(y, m, 1))
  }

  /** Day number of the last of a month: one month after the first, less a day. */
  function LastOfMonth(y: int, m: int): Date
    requires 1 <= m <= 12
  {
    (if m == 12 then FirstOfMonth(y + 1, 1) else FirstOfMonth(y, m + 1)) - 1
  }

  /** A month spans DaysInMonth consecutive day numbers. */
  lemma MonthSpan(y: int, m: int)
    requires 1 <= m <= 12
    ensures LastOfMonth(y, m) == FirstOfMonth(y, m) + DaysInMonth(y, m) - 1
  {
    if m == 12 {
      YearStep(y);
    }
  }

  /** Day number `n`, the `i`-th day after the first of a month, decodes to day i + 1 of that month. */
  lemma DayOfMonth(y: int, m: int, i: int, n: Date)
    requires 1 <= m <= 12 && 0 <= i < DaysInMonth(y, m) && n == FirstOfMonth(y, m) + i
    ensures FromDayNumber(n) == CivilDate(y, m, i + 1)
  {
    DecodeDayNumber(CivilDate(y, m, i + 1), n);
  }

  /** A day number of a month's range decodes to that year and month. */
  lemma InMonthDecodes(y: int, m: int, d: Date)
    requires 1 <= m <= 12 && FirstOfMonth(y, m) <= d <= LastOfMonth(y, m)
    ensures FromDayNumber(d).year == y && FromDayNumber(d).month == m
  {
    MonthSpan(y, m);
    DayOfMonth(y, m, d - FirstOfMonth(y, m), d);
  }

  /** A day number decoding to a year and month lies in that month's range. */
  lemma DecodesInMonth(y: int, m: int, d: Date)
    requires 1 <= m <= 12 && FromDayNumber(d).year == y && FromDayNumber(d).month == m
    ensures FirstOfMonth(y, m) <= d <= LastOfMonth(y, m)
  {
    var c := FromDayNumber(d);
    MonthSpan(y, m);
    FromDayNumberValid(d);
    ToFromDayNumber(d);
    assert c == CivilDate(y, m, c.day);
    assert ToDayNumber(c) == FirstOfMonth(y, m) + c.day - 1;
  }

  /** A day number lies in a month exactly when it decodes to that year and month. */
  lemma InMonth(y: int, m: int, d: Date)
    requires 1 <= m <= 12
    ensures FirstOfMonth(y, m) <= d <= LastOfMonth(y, m)
        <==> FromDayNumber(d).year == y && FromDayNumber(d).month == m
  {
    if FirstOfMonth(y, m) <= d <= LastOfMonth(y, m) {
      InMonthDecodes(y, m, d);
    }
    if FromDayNumber(d).year == y && FromDayNumber(d).month == m {
      DecodesInMonth(y, m, d);
    }
  }

  /** A day number between January 1 and December 31 of a year decodes to that year. */
  lemma InYearDecodes(y: int, d: Date)
    requires FirstOfMonth(y, 1) <= d <= LastOfMonth(y, 12)
    ensures FromDayNumber(d).year == y
  {
    YearStep(y);
    var j := d - DaysBeforeYear(y);
    DateOfYearValid(y, j);
    DecodeDayNumber(DateOfYear(y, j), d);
  }

  /** A day number decoding to a year lies between its January 1 and December 31. */
  lemma DecodesInYear(y: int, d: Date)
    requires FromDayNumber(d).year == y
    ensures FirstOfMonth(y, 1) <= d <= LastOfMonth(y, 12)
  {
    var c := FromDayNumber(d);
    YearStep(y);
    FromDayNumberValid(d);
    ToFromDayNumber(d);
    DayOfYearBound(c);
  }

  /** A day number lies in a year exactly when it decodes to that year. */
  lemma InYear(y: int, d: Date)
    ensures FirstOfMonth(y, 1) <= d <= LastOfMonth(y, 12) <==> FromDayNumber(d).year == y
  {
    if FirstOfMonth(y, 1) <= d <= LastOfMonth(y, 12) {
      InYearDecodes(y, d);
    }
    if FromDayNumber(d).year == y {
      DecodesInYear(y, d);
    }
  }
}
