/**
 * The expiry table built from the adjusted dates: the Month, DayName and
 * WeekOfMonth columns, and the ExpiryType label that marks the row(s)
 * with the largest WeekOfMonth of each month name as the monthly expiry.
 */
module ExpiryTable {
  import opened Civil
  import Weekdays

  /** One row of the table: Date, ExpiryType, Month, DayName, WeekOfMonth. */
  datatype ExpiryRow = ExpiryRow(date: Date, expiryType: string, month: string, dayName: string, weekOfMonth: int)

  /** English name of month `m` (pandas `month_name()`). */
  function MonthName(m: int): string
    requires 1 <= m <= 12
  {
    ["January", "February", "March", "April", "May", "June", "July",
     "August", "September", "October", "November", "December"][m - 1]
  }

  /** The month name of a date. */
  function MonthOf(d: Date): string {
    MonthName(FromDayNumber(d).month)
  }

  /** `(day - 1) // 7 + 1` for the day of month of `d`. */
  function WeekOfMonth(d: Date): (w: int)
    ensures 1 <= w <= 5
  {
    FromDayNumberValid(d);
    (FromDayNumber(d).day - 1) / 7 + 1
  }

  /** Python's `str` of a natural number, in decimal. */
  function DecimalString(n: nat): (s: string)
    ensures |s| >= 1
    decreases n
  {
    var digit := [('0' as int + n % 10) as char];
    if n < 10 then digit else DecimalString(n / 10) + digit
  }

  /** The Month column. */
  function Months(ds: seq<Date>): (names: seq<string>)
    ensures |names| == |ds|
  {
    seq(|ds|, i requires 0 <= i < |ds| => MonthOf(ds[i]))
  }

  /** The WeekOfMonth column. */
  function Weeks(ds: seq<Date>): (weeks: seq<int>)
    ensures |weeks| == |ds|
  {
    seq(|ds|, i requires 0 <= i < |ds| => WeekOfMonth(ds[i]))
  }

  /** The largest week among the rows whose month name is `name` (the group maximum); 0 when there is none. */
  function GroupMax(names: seq<string>, weeks: seq<int>, name: string): (r: int)
    requires |names| == |weeks|
    ensures forall i :: 0 <= i < |names| && names[i] == name ==> weeks[i] <= r
    ensures r == 0 || exists i :: 0 <= i < |names| && names[i] == name && weeks[i] == r
  {
    if |names| == 0 then 0
    else
      var rest := GroupMax(names[1..], weeks[1..], name);
      assert forall i :: 1 <= i < |names| ==> names[i] == names[1..][i - 1] && weeks[i] == weeks[1..][i - 1];
      if names[0] == name && weeks[0] > rest then weeks[0] else rest
  }

  /** The ExpiryType of row `i`: "M" when its week is its month name's group maximum, else the week and "W". */
  function ExpiryType(names: seq<string>, weeks: seq<int>, i: int): string
    requires |names| == |weeks| && 0 <= i < |names| && weeks[i] >= 0
  {
    if weeks[i] == GroupMax(names, weeks, names[i]) then "M" else DecimalString(weeks[i]) + "W"
  }

  /** The table for the adjusted dates `ds`: one row per date, in order. */
  function Table(ds: seq<Date>): (rows: seq<ExpiryRow>)
    ensures |rows| == |ds|
  {
    var names, weeks := Months(ds), Weeks(ds);
    seq(|ds|, i requires 0 <= i < |ds| =>
      ExpiryRow(ds[i], ExpiryType(names, weeks, i), names[i], Weekdays.DayName(Weekday(ds[i])), weeks[i]))
  }

  // ---------------------------------------------------------------------
  // The labelling, on the Month and WeekOfMonth columns

  /**
   * A row is labelled "M" exactly when no row of its month name has a larger
   * week; every other row is labelled with its week and "W".
   */
  lemma ExpiryTypeMonthly(names: seq<string>, weeks: seq<int>, i: int)
    requires |names| == |weeks| && 0 <= i < |names| && weeks[i] >= 0
    ensures ExpiryType(names, weeks, i) == "M"
        <==> forall j :: 0 <= j < |names| && names[j] == names[i] ==> weeks[j] <= weeks[i]
    ensures ExpiryType(names, weeks, i) != "M" ==> ExpiryType(names, weeks, i) == DecimalString(weeks[i]) + "W"
  {
    var max := GroupMax(names, weeks, names[i]);
    if weeks[i] != max {
      var k :| 0 <= k < |names| && names[k] == names[i] && weeks[k] == max;
      assert |DecimalString(weeks[i]) + "W"| >= 2;
    }
  }

  /** Every month name has a row labelled "M". */
  lemma MonthlyExists(names: seq<string>, weeks: seq<int>, i: int)
    requires |names| == |weeks| && 0 <= i < |names| && forall j :: 0 <= j < |weeks| ==> weeks[j] >= 1
    ensures exists j :: 0 <= j < |names| && names[j] == names[i] && ExpiryType(names, weeks, j) == "M"
  {
    var max := GroupMax(names, weeks, names[i]);
    var k :| 0 <= k < |names| && names[k] == names[i] && weeks[k] == max;
    assert ExpiryType(names, weeks, k) == "M";
  }

  // ---------------------------------------------------------------------
  // Properties

  /** Distinct months have distinct names, so grouping by name is grouping by calendar month. */
  lemma MonthNameInjective(a: int, b: int)
    requires 1 <= a <= 12 && 1 <= b <= 12
    ensures MonthName(a) == MonthName(b) <==> a == b
  {
  }

  /** Each row holds its date, that date's month name and day name, and its week of the month, which is 1..5. */
  lemma TableColumns(ds: seq<Date>, i: int)
    requires 0 <= i < |ds|
    ensures var row := Table(ds)[i]; var c := FromDayNumber(ds[i]);
      && row.date == ds[i]
      && row.month == MonthName(c.month)
      && row.dayName == Weekdays.DayName(Weekday(ds[i]))
      && row.weekOfMonth == (c.day - 1) / 7 + 1
      && 1 <= row.weekOfMonth <= 5
  {
  }

  /** Two rows fall in one group exactly when their dates are in the same calendar month number, whatever the year. */
  lemma SameGroup(ds: seq<Date>, i: int, j: int)
    requires 0 <= i < |ds| && 0 <= j < |ds|
    ensures Table(ds)[i].month == Table(ds)[j].month
        <==> FromDayNumber(ds[i]).month == FromDayNumber(ds[j]).month
  {
    MonthNameInjective(FromDayNumber(ds[i]).month, FromDayNumber(ds[j]).month);
  }

  /**
   * A row is labelled "M" exactly when no row of its month name has a larger
   * WeekOfMonth; every other row is labelled with its WeekOfMonth and "W".
   */
  lemma TableLabels(ds: seq<Date>, i: int)
    requires 0 <= i < |ds|
    ensures var rows := Table(ds);
      && (rows[i].expiryType == "M"
          <==> forall j :: 0 <= j < |rows| && rows[j].month == rows[i].month ==> rows[j].weekOfMonth <= rows[i].weekOfMonth)
      && (rows[i].expiryType != "M" ==> rows[i].expiryType == DecimalString(rows[i].weekOfMonth) + "W")
  {
    var rows, names, weeks := Table(ds), Months(ds), Weeks(ds);
    assert forall j :: 0 <= j < |rows| ==> rows[j].month == names[j] && rows[j].weekOfMonth == weeks[j];
    ExpiryTypeMonthly(names, weeks, i);
  }

  /** Every month name in the table has at least one "M" row. */
  lemma EveryMonthHasMonthly(ds: seq<Date>, i: int)
    requires 0 <= i < |ds|
    ensures exists j :: 0 <= j < |ds| && Table(ds)[j].month == Table(ds)[i].month && Table(ds)[j].expiryType == "M"
  {
    var names, weeks := Months(ds), Weeks(ds);
    MonthlyExists(names, weeks, i);
    var k :| 0 <= k < |names| && names[k] == names[i] && ExpiryType(names, weeks, k) == "M";
    assert Table(ds)[k].month == Table(ds)[i].month && Table(ds)[k].expiryType == "M";
  }

  /** A row in the fifth week of its month is always a monthly expiry. */
  lemma FifthWeekIsMonthly(ds: seq<Date>, i: int)
    requires 0 <= i < |ds| && Table(ds)[i].weekOfMonth == 5
    ensures Table(ds)[i].expiryType == "M"
  {
    TableLabels(ds, i);
  }

  /** Rows are not deduplicated: equal dates give equal rows, labels included. */
  lemma EqualDatesEqualRows(ds: seq<Date>, i: int, j: int)
    requires 0 <= i < |ds| && 0 <= j < |ds| && ds[i] == ds[j]
    ensures Table(ds)[i] == Table(ds)[j]
  {
  }

  /** The weekly labels are "1W" .. "5W". */
  lemma WeeklyLabels(ds: seq<Date>, i: int)
    requires 0 <= i < |ds|
    ensures Table(ds)[i].expiryType in ["M", "1W", "2W", "3W", "4W", "5W"]
  {
    var names, weeks := Months(ds), Weeks(ds);
    WeekLabel(weeks[i]);
    assert Table(ds)[i].expiryType == ExpiryType(names, weeks, i);
  }

  lemma WeekLabel(w: int)
    requires 1 <= w <= 5
    ensures DecimalString(w) + "W" in ["1W", "2W", "3W", "4W", "5W"]
  {
    if w == 1 { assert DecimalString(1) + "W" == "1W"; }
    else if w == 2 { assert DecimalString(2) + "W" == "2W"; }
    else if w == 3 { assert DecimalString(3) + "W" == "3W"; }
    else if w == 4 { assert DecimalString(4) + "W" == "4W"; }
    else { assert DecimalString(5) + "W" == "5W"; }
  }
}
