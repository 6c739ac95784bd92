/**
 * Trading days and the backward search of `get_trading_day_before`, as a
 * specification function; the calculator's method runs the same search as
 * a loop and is proved equal to it.
 */
module TradingDays {
  import opened Civil

  /** A trading day is a Monday..Friday that is not a holiday. */
  predicate IsTradingDay(d: Date, holidays: set<Date>) {
    d !in holidays && Weekday(d) < 5
  }

  /** The holidays on or before `d`; there are finitely many, which bounds the backward search. */
  function HolidaysUpTo(holidays: set<Date>, d: Date): set<Date> {
    set h | h in holidays && h <= d
  }

  /** Stepping back one day loses the holiday on `d`, if any, and keeps the rest. */
  lemma HolidaysUpToStep(holidays: set<Date>, d: Date)
    ensures d in holidays ==> |HolidaysUpTo(holidays, d - 1)| < |HolidaysUpTo(holidays, d)|
    ensures d !in holidays ==> HolidaysUpTo(holidays, d - 1) == HolidaysUpTo(holidays, d)
  {
    if d in holidays {
      assert HolidaysUpTo(holidays, d) == HolidaysUpTo(holidays, d - 1) + {d};
    }
  }

  /** The day before a Saturday or a Sunday is one place earlier in the week. */
  lemma WeekendStep(d: Date)
    requires Weekday(d) >= 5
    ensures Weekday(d - 1) == Weekday(d) - 1
  {
  }

  /**
   * The latest trading day on or before `d`: the search steps back one day
   * at a time while the day is a holiday or a Saturday or Sunday.
   */
  function LatestTradingDay(d: Date, holidays: set<Date>): (r: Date)
    ensures r <= d && IsTradingDay(r, holidays)
    ensures forall x :: r < x <= d ==> !IsTradingDay(x, holidays)
    decreases |HolidaysUpTo(holidays, d)|, Weekday(d)
  {
    if IsTradingDay(d, holidays) then d
    else
      HolidaysUpToStep(holidays, d);
      if d !in holidays then WeekendStep(d); LatestTradingDay(d - 1, holidays)
      else LatestTradingDay(d - 1, holidays)
  }

  // ---------------------------------------------------------------------
  // Properties

  /** The latest trading day on or before `d` is the only day with the properties LatestTradingDay promises. */
  lemma {:induction false} LatestTradingDayUnique(d: Date, holidays: set<Date>, r: Date)
    requires r <= d && IsTradingDay(r, holidays)
    requires forall x :: r < x <= d ==> !IsTradingDay(x, holidays)
    ensures r == LatestTradingDay(d, holidays)
    decreases |HolidaysUpTo(holidays, d)|, Weekday(d)
  {
    if r < d {
      assert !IsTradingDay(d, holidays);
      HolidaysUpToStep(holidays, d);
      if d !in holidays {
        WeekendStep(d);
      }
      LatestTradingDayUnique(d - 1, holidays, r);
    }
  }

  /** A trading day is its own result, and no other day is. */
  lemma LatestTradingDayFixed(d: Date, holidays: set<Date>)
    ensures LatestTradingDay(d, holidays) == d <==> IsTradingDay(d, holidays)
  {
  }

  /** Searching again from the result finds the result. */
  lemma LatestTradingDayIdempotent(d: Date, holidays: set<Date>)
    ensures LatestTradingDay(LatestTradingDay(d, holidays), holidays) == LatestTradingDay(d, holidays)
  {
    LatestTradingDayFixed(LatestTradingDay(d, holidays), holidays);
  }

  /** A later start never finds an earlier trading day. */
  lemma {:induction false} LatestTradingDayMonotone(d1: Date, d2: Date, holidays: set<Date>)
    requires d1 <= d2
    ensures LatestTradingDay(d1, holidays) <= LatestTradingDay(d2, holidays)
  {
    if LatestTradingDay(d2, holidays) < d1 {
      LatestTradingDayUnique(d1, holidays, LatestTradingDay(d2, holidays));
    }
  }

  /** The latest trading day on or before each of `ds`, in order (the list comprehension of the calculator). */
  function AdjustAll(ds: seq<Date>, holidays: set<Date>): (r: seq<Date>)
    ensures |r| == |ds|
  {
    seq(|ds|, i requires 0 <= i < |ds| => LatestTradingDay(ds[i], holidays))
  }

  /** Element i of the adjusted list is the latest trading day on or before element i of the original. */
  lemma AdjustAllElements(ds: seq<Date>, holidays: set<Date>, i: int)
    requires 0 <= i < |ds|
    ensures AdjustAll(ds, holidays)[i] <= ds[i] && IsTradingDay(AdjustAll(ds, holidays)[i], holidays)
    ensures AdjustAll(ds, holidays)[i] == ds[i] <==> IsTradingDay(ds[i], holidays)
    ensures forall x :: AdjustAll(ds, holidays)[i] < x <= ds[i] ==> !IsTradingDay(x, holidays)
  {
    LatestTradingDayFixed(ds[i], holidays);
  }

  lemma AdjustAllAppend(a: seq<Date>, b: seq<Date>, holidays: set<Date>)
    ensures AdjustAll(a + b, holidays) == AdjustAll(a, holidays) + AdjustAll(b, holidays)
  {
  }

  predicate Ascending(ds: seq<Date>) {
    forall i, j :: 0 <= i < j < |ds| ==> ds[i] <= ds[j]
  }

  /** Adjusting ascending days keeps them in ascending (not necessarily strictly) order. */
  lemma AdjustAllAscending(ds: seq<Date>, holidays: set<Date>)
    requires Ascending(ds)
    ensures Ascending(AdjustAll(ds, holidays))
  {
    forall i, j | 0 <= i < j < |ds|
      ensures AdjustAll(ds, holidays)[i] <= AdjustAll(ds, holidays)[j]
    {
      LatestTradingDayMonotone(ds[i], ds[j], holidays);
    }
  }
}
