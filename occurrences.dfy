/**
 * The occurrences of a weekday in a month (`get_all_weekdays_in_month`
 * without its error cases), and how the twelve months of a year fit
 * together.
 */
module Occurrences {
  import opened Civil

  /** `pd.date_range(start, end, freq='7D')`: start, start + 7, ... while not past end. */
  function Every7Days(start: Date, end: Date): (r: seq<Date>)
    ensures |r| == if start > end then 0 else (end - start) / 7 + 1
    ensures forall i :: 0 <= i < |r| ==> r[i] == start + 7 * i
    decreases end - start + 7
  {
    if start > end then [] else [start] + Every7Days(start + 7, end)
  }

  /** The days of a 7-day range are the days from start to end a whole number of weeks after start. */
  lemma Every7DaysMembers(start: Date, end: Date, d: Date)
    ensures d in Every7Days(start, end) <==> start <= d <= end && (d - start) % 7 == 0
  {
    var r := Every7Days(start, end);
    if start <= d <= end && (d - start) % 7 == 0 {
      var i := (d - start) / 7;
      assert r[i] == d;
    }
  }

  /** A 7-day range splits after its part up to `mid`; the rest starts one week after that part's last day. */
  lemma {:induction false} Every7DaysSplit(start: Date, mid: Date, end: Date)
    requires mid <= end
    ensures Every7Days(start, end)
         == Every7Days(start, mid) + Every7Days(start + 7 * |Every7Days(start, mid)|, end)
    decreases mid - start + 7
  {
    if start <= mid {
      Every7DaysSplit(start + 7, mid, end);
    }
  }

  // ---------------------------------------------------------------------
  // Weekday arithmetic

  lemma WeekdayWeeks(d: Date, k: int)
    ensures Weekday(d + 7 * k) == Weekday(d)
  {
  }

  /** Stepping (t - weekday) mod 7 days forward lands on weekday `t`. */
  lemma WeekdayOffset(d: Date, t: int)
    requires 0 <= t < 7
    ensures Weekday(d + (t - Weekday(d)) % 7) == t
  {
  }

  /** Within a week from `d`, that offset is the only one landing on weekday `t`. */
  lemma WeekdayOffsetUnique(d: Date, o: int, t: int)
    requires 0 <= o < 7 && 0 <= t < 7 && Weekday(d + o) == t
    ensures (t - Weekday(d)) % 7 == o
  {
    var w := Weekday(d);
    if w + o < 7 {
      assert t == w + o;
    } else {
      assert t == w + o - 7;
    }
  }

  /** The first day on or after `first` that falls on weekday `t`. */
  function FirstOnWeekday(first: Date, t: int): Date {
    first + (t - Weekday(first)) % 7
  }

  /** Every day from `first` to `last` on weekday `t`, provided the range spans at least a week. */
  lemma RangeMembers(first: Date, last: Date, t: int, d: Date)
    requires 0 <= t < 7 && first + 6 <= last
    ensures d in Every7Days(FirstOnWeekday(first, t), last) <==> first <= d <= last && Weekday(d) == t
  {
    var fo := FirstOnWeekday(first, t);
    WeekdayOffset(first, t);
    Every7DaysMembers(fo, last, d);
    if first <= d <= last && Weekday(d) == t {
      // d is a whole number of weeks after the day of its week offset, which is the first on weekday t
      var o := (d - first) % 7;
      WeekdayWeeks(first + o, (d - first) / 7);
      WeekdayOffsetUnique(first, o, t);
    }
    if d in Every7Days(fo, last) {
      WeekdayWeeks(fo, (d - fo) / 7);
    }
  }

  /** A range of 28 to 31 days holds 4 or 5 days of each weekday, all on that weekday and inside the range. */
  lemma RangeShape(first: Date, last: Date, t: int)
    requires 0 <= t < 7 && 27 <= last - first <= 30
    ensures var ds := Every7Days(FirstOnWeekday(first, t), last);
      && (|ds| == 4 || |ds| == 5)
      && forall i :: 0 <= i < |ds| ==> Weekday(ds[i]) == t && first <= ds[i] <= last
  {
    var fo := FirstOnWeekday(first, t);
    WeekdayOffset(first, t);
    forall i | 0 <= i < |Every7Days(fo, last)|
      ensures Weekday(fo + 7 * i) == t
    {
      WeekdayWeeks(fo, i);
    }
  }

  /**
   * A 7-day range on weekday `t` ending just before `next` continues with the
   * range starting at the first day on weekday `t` from `next`.
   */
  lemma RangeContinues(s: Date, mid: Date, next: Date, end: Date, t: int)
    requires 0 <= t < 7 && Weekday(s) == t && s <= mid && next == mid + 1 && next + 6 <= end
    ensures Every7Days(s, mid) + Every7Days(FirstOnWeekday(next, t), end) == Every7Days(s, end)
  {
    var q := (mid - s) / 7;
    var o := s + 7 * (q + 1) - next;
    WeekdayWeeks(s, q + 1);
    WeekdayOffsetUnique(next, o, t);
    Every7DaysSplit(s, mid, end);
  }

  // ---------------------------------------------------------------------
  // One month

  /** The first day of a month on weekday `t`: the 1st shifted by (t - weekday of the 1st) mod 7 days. */
  function FirstOccurrence(y: int, m: int, t: int): Date
    requires 1 <= m <= 12
  {
    FirstOnWeekday(FirstOfMonth(y, m), t)
  }

  /** Every day of month `m` of year `y` on weekday `t`, one week apart from the first occurrence to the month's end. */
  function WeekdayOccurrences(y: int, m: int, t: int): seq<Date>
    requires 1 <= m <= 12
  {
    Every7Days(FirstOccurrence(y, m, t), LastOfMonth(y, m))
  }

  /** The first occurrence is on day 1 + ((t - weekday of the 1st) mod 7) of the month, one of its first seven days. */
  lemma FirstOccurrenceDay(y: int, m: int, t: int, d: Date)
    requires 1 <= m <= 12 && 0 <= t < 7 && d == FirstOccurrence(y, m, t)
    ensures FromDayNumber(d).year == y && FromDayNumber(d).month == m
    ensures FromDayNumber(d).day == 1 + (t - Weekday(FirstOfMonth(y, m))) % 7
    ensures 1 <= FromDayNumber(d).day <= 7 && Weekday(d) == t
  {
    var o := (t - Weekday(FirstOfMonth(y, m))) % 7;
    DayOfMonth(y, m, o, d);
    WeekdayOffset(FirstOfMonth(y, m), t);
  }

  /** There are 4 or 5 occurrences, one week apart from the first, each on weekday `t` and inside the month. */
  lemma OccurrencesShape(y: int, m: int, t: int)
    requires 1 <= m <= 12 && 0 <= t < 7
    ensures var ds := WeekdayOccurrences(y, m, t);
      && (|ds| == 4 || |ds| == 5)
      && ds[0] == FirstOccurrence(y, m, t)
      && (forall i :: 0 < i < |ds| ==> ds[i] == ds[i - 1] + 7)
      && (forall i :: 0 <= i < |ds| ==> Weekday(ds[i]) == t)
      && (forall i :: 0 <= i < |ds| ==> FirstOfMonth(y, m) <= ds[i] <= LastOfMonth(y, m))
  {
    MonthSpan(y, m);
    RangeShape(FirstOfMonth(y, m), LastOfMonth(y, m), t);
  }

  /** The occurrences are exactly the days of year `y`, month `m` that fall on weekday `t`: none is missed. */
  lemma OccurrencesExact(y: int, m: int, t: int, d: Date)
    requires 1 <= m <= 12 && 0 <= t < 7
    ensures d in WeekdayOccurrences(y, m, t)
        <==> FromDayNumber(d).year == y && FromDayNumber(d).month == m && Weekday(d) == t
  {
    var first, last := FirstOfMonth(y, m), LastOfMonth(y, m);
    MonthSpan(y, m);
    RangeMembers(first, last, t, d);
    InMonth(y, m, d);
  }

  lemma OccurrencesExactAll(y: int, m: int, t: int)
    requires 1 <= m <= 12 && 0 <= t < 7
    ensures forall d :: d in WeekdayOccurrences(y, m, t) <==>
      FromDayNumber(d).year == y && FromDayNumber(d).month == m && Weekday(d) == t
  {
    forall d {
      OccurrencesExact(y, m, t, d);
    }
  }

  // ---------------------------------------------------------------------
  // The months of a year, in order

  /** The occurrences of months 1..n of year `y`, concatenated in month order. */
  function OccurrencesThrough(y: int, t: int, n: int): seq<Date>
    requires 0 <= n <= 12
  {
    if n == 0 then [] else OccurrencesThrough(y, t, n - 1) + WeekdayOccurrences(y, n, t)
  }

  /**
   * The occurrences of months 1..n, month after month, are one 7-day range
   * from the first occurrence in January to the end of month n.
   */
  lemma {:induction false} OccurrencesThroughRange(y: int, t: int, n: int)
    requires 1 <= n <= 12 && 0 <= t < 7
    ensures OccurrencesThrough(y, t, n) == Every7Days(FirstOccurrence(y, 1, t), LastOfMonth(y, n))
  {
    if n > 1 {
      var s := FirstOccurrence(y, 1, t);
      OccurrencesThroughRange(y, t, n - 1);
      MonthSpan(y, 1);
      MonthSpan(y, n);
      WeekdayOffset(FirstOfMonth(y, 1), t);
      MonthsAscending(y, 1, n - 1);
      RangeContinues(s, LastOfMonth(y, n - 1), FirstOfMonth(y, n), LastOfMonth(y, n), t);
    }
  }

  /** Month ends increase through the year. */
  lemma {:induction false} MonthsAscending(y: int, a: int, b: int)
    requires 1 <= a <= b <= 12
    ensures LastOfMonth(y, a) <= LastOfMonth(y, b)
    decreases b - a
  {
    if a < b {
      MonthSpan(y, a + 1);
      MonthsAscending(y, a + 1, b);
    }
  }

  /** A year has 52 or 53 occurrences of any weekday, one week apart from the first in January. */
  lemma YearOccurrences(y: int, t: int)
    requires 0 <= t < 7
    ensures var ds := OccurrencesThrough(y, t, 12);
      && (|ds| == 52 || |ds| == 53)
      && forall i :: 0 <= i < |ds| ==> ds[i] == FirstOccurrence(y, 1, t) + 7 * i
  {
    OccurrencesThroughRange(y, t, 12);
    YearStep(y);
  }

  /** The year's occurrences are exactly the days of year `y` on weekday `t`, each once, in ascending order. */
  lemma YearOccurrencesExact(y: int, t: int, d: Date)
    requires 0 <= t < 7
    ensures d in OccurrencesThrough(y, t, 12) <==> FromDayNumber(d).year == y && Weekday(d) == t
    ensures var ds := OccurrencesThrough(y, t, 12);
      forall i, j :: 0 <= i < j < |ds| ==> ds[i] < ds[j]
  {
    OccurrencesThroughRange(y, t, 12);
    YearStep(y);
    RangeMembers(FirstOfMonth(y, 1), LastOfMonth(y, 12), t, d);
    InYear(y, d);
  }
}
