/**
 * The expiry calculator: a year, a set of holidays and the weekday on which
 * contracts expire; it lists every occurrence of that weekday in the year,
 * moves each back to the latest trading day on or before it, and labels
 * the resulting table with weekly and monthly expiries.
 */
module Calculator {
  import opened Civil
  import opened Errors
  import opened Weekdays
  import opened TradingDays
  import opened Occurrences
  import opened ExpiryTable

  /**
   * The table the calculator produces for a year, holidays and (already
   * capitalized) weekday name: the occurrences of months 1..12 in month
   * order, each moved back to a trading day, then labelled.
   */
  function ExpiryDatesSpec(year: int, holidays: set<Date>, expiryDayName: string): Result<seq<ExpiryRow>> {
    match WeekdayToNumber(expiryDayName)
    case Err(e) => Err(e)
    case Ok(t) => Ok(Table(AdjustAll(OccurrencesThrough(year, t, 12), holidays)))
  }

  // ---------------------------------------------------------------------
  // Properties of the table

  /** The table is refused exactly when the weekday name is not one of the accepted names. */
  lemma ExpiryDatesError(year: int, holidays: set<Date>, expiryDayName: string)
    ensures ExpiryDatesSpec(year, holidays, expiryDayName).Err?
        <==> forall k :: 0 <= k < 7 ==> Capitalize(expiryDayName) != DayName(k) && Capitalize(expiryDayName) != ShortDayName(k)
    ensures ExpiryDatesSpec(year, holidays, expiryDayName).Err?
        ==> ExpiryDatesSpec(year, holidays, expiryDayName).error == InvalidWeekdayName
  {
    WeekdayToNumberFails(expiryDayName);
  }

  /**
   * With weekday `t`, the table has one row per occurrence of `t` in the
   * year, 52 or 53 of them, in date order: row i holds the latest trading day
   * on or before the i-th occurrence, the first occurrence in January plus
   * i weeks. A date can appear in several rows.
   */
  lemma ExpiryDatesRows(year: int, holidays: set<Date>, expiryDayName: string, t: int)
    requires WeekdayToNumber(expiryDayName) == Ok(t)
    ensures ExpiryDatesSpec(year, holidays, expiryDayName).Ok?
    ensures var rows := ExpiryDatesSpec(year, holidays, expiryDayName).value;
      && (|rows| == 52 || |rows| == 53)
      && forall i :: 0 <= i < |rows| ==>
           rows[i].date == LatestTradingDay(FirstOccurrence(year, 1, t) + 7 * i, holidays)
  {
    var occ := OccurrencesThrough(year, t, 12);
    YearOccurrences(year, t);
    var ds := AdjustAll(occ, holidays);
    forall i | 0 <= i < |ds|
      ensures Table(ds)[i].date == LatestTradingDay(FirstOccurrence(year, 1, t) + 7 * i, holidays)
    {
      TableColumns(ds, i);
    }
  }

  /** The row dates ascend (not strictly: two occurrences can be moved back to the same day). */
  lemma ExpiryDatesAscending(year: int, holidays: set<Date>, expiryDayName: string)
    requires ExpiryDatesSpec(year, holidays, expiryDayName).Ok?
    ensures var rows := ExpiryDatesSpec(year, holidays, expiryDayName).value;
      forall i, j :: 0 <= i < j < |rows| ==> rows[i].date <= rows[j].date
  {
    var t := WeekdayToNumber(expiryDayName).value;
    var occ := OccurrencesThrough(year, t, 12);
    YearOccurrencesExact(year, t, 0);
    var ds := AdjustAll(occ, holidays);
    AdjustAllAscending(occ, holidays);
    forall i, j | 0 <= i < j < |ds|
      ensures Table(ds)[i].date <= Table(ds)[j].date
    {
      TableColumns(ds, i);
      TableColumns(ds, j);
    }
  }

  /** Every row is on a trading day, so its day name is Monday .. Friday. */
  lemma ExpiryDatesTradingDays(year: int, holidays: set<Date>, expiryDayName: string, i: int)
    requires ExpiryDatesSpec(year, holidays, expiryDayName).Ok?
    requires 0 <= i < |ExpiryDatesSpec(year, holidays, expiryDayName).value|
    ensures var row := ExpiryDatesSpec(year, holidays, expiryDayName).value[i];
      && IsTradingDay(row.date, holidays)
      && row.dayName in ["Monday", "Tuesday", "Wednesday", "Thursday", "Friday"]
  {
    var t := WeekdayToNumber(expiryDayName).value;
    var ds := AdjustAll(OccurrencesThrough(year, t, 12), holidays);
    AdjustAllElements(OccurrencesThrough(year, t, 12), holidays, i);
    TableColumns(ds, i);
  }

  // The days of 2025 the example below needs, as day numbers

  lemma NewYear2025()
    ensures DaysBeforeYear(2025) == 20089
  {
    assert 2025 / 400 == 5 && 2025 % 400 == 25;
    assert DaysBeforeYearInEra(25) == 9132;
  }

  lemma FirstThursday2025()
    ensures FirstOccurrence(2025, 1, 3) == 20090
  {
    NewYear2025();
    assert FirstOfMonth(2025, 1) == 20089;
    assert Weekday(20089) == 2;
  }

  lemma April24th2025()
    ensures ToDayNumber(CivilDate(2025, 4, 24)) == 20202 && Weekday(20202) == 3
    ensures FromDayNumber(20202) == CivilDate(2025, 4, 24)
  {
    DecodeDayNumber(CivilDate(2025, 4, 24), 20202);
  }

  lemma April30th2025()
    ensures ToDayNumber(CivilDate(2025, 4, 30)) == 20208 && Weekday(20208) == 2
    ensures FromDayNumber(20208) == CivilDate(2025, 4, 30)
  {
    DecodeDayNumber(CivilDate(2025, 4, 30), 20208);
  }

  lemma May1st2025()
    ensures ToDayNumber(CivilDate(2025, 5, 1)) == 20209
  {
  }

  /** Rows 16 and 17 of any table whose dates there are 24 and 30 April 2025. */
  lemma AprilRows2025(ds: seq<Date>)
    requires |ds| > 17 && ds[16] == 20202 && ds[17] == 20208
    ensures Table(ds)[16] == ExpiryRow(20202, "4W", "April", "Thursday", 4)
    ensures Table(ds)[17] == ExpiryRow(20208, "M", "April", "Wednesday", 5)
  {
    April24thRow(ds);
    April30thRow(ds);
  }

  lemma April24thRow(ds: seq<Date>)
    requires |ds| > 17 && ds[16] == 20202 && ds[17] == 20208
    ensures Table(ds)[16] == ExpiryRow(20202, "4W", "April", "Thursday", 4)
  {
    April24thColumns(ds);
    April24thLabel(ds);
  }

  lemma April24thColumns(ds: seq<Date>)
    requires |ds| > 16 && ds[16] == 20202
    ensures Table(ds)[16].month == "April" && Table(ds)[16].weekOfMonth == 4
    ensures Table(ds)[16].dayName == "Thursday" && Table(ds)[16].date == 20202
  {
    April24th2025();
    TableColumns(ds, 16);
  }

  lemma April24thLabel(ds: seq<Date>)
    requires |ds| > 17 && ds[16] == 20202 && ds[17] == 20208
    ensures Table(ds)[16].expiryType == "4W"
  {
    April24thColumns(ds);
    April30thColumns(ds);
    TableLabels(ds, 16);
    FourthWeekLabel();
  }

  lemma April30thRow(ds: seq<Date>)
    requires |ds| > 17 && ds[17] == 20208
    ensures Table(ds)[17] == ExpiryRow(20208, "M", "April", "Wednesday", 5)
  {
    April30thColumns(ds);
    FifthWeekIsMonthly(ds, 17);
  }

  lemma April30thColumns(ds: seq<Date>)
    requires |ds| > 17 && ds[17] == 20208
    ensures Table(ds)[17].month == "April" && Table(ds)[17].weekOfMonth == 5
    ensures Table(ds)[17].dayName == "Wednesday" && Table(ds)[17].date == 20208
  {
    April30th2025();
    TableColumns(ds, 17);
  }

  lemma FourthWeekLabel()
    ensures DecimalString(4) + "W" == "4W"
  {
  }

  /** With 1 May 2025 a holiday, its Thursday expiry moves back to Wednesday 30 April and 24 April stays. */
  lemma MayHoliday2025(occ: seq<Date>, holidays: set<Date>)
    requires |occ| > 17 && occ[16] == 20202 && occ[17] == 20209 && holidays == {20209}
    ensures var ds := AdjustAll(occ, holidays); |ds| > 17 && ds[16] == 20202 && ds[17] == 20208
  {
    LatestTradingDayFixed(20202, holidays);
    LatestTradingDayUnique(20209, holidays, 20208);
  }

  /**
   * Thursday expiries of 2025 with a holiday on 1 May: the expiry of 1 May
   * (row 17) moves back to Wednesday 30 April, the fifth week of April, and
   * becomes April's monthly expiry; 24 April (row 16) becomes "4W".
   */
  lemma Example2025(year: int, holidays: set<Date>, expiryDayName: string)
    requires year == 2025 && holidays == {ToDayNumber(CivilDate(year, 5, 1))} && expiryDayName == "Thursday"
    ensures var res := ExpiryDatesSpec(year, holidays, expiryDayName);
      && res.Ok? && |res.value| > 17
      && res.value[16] == ExpiryRow(ToDayNumber(CivilDate(year, 4, 24)), "4W", "April", "Thursday", 4)
      && res.value[17] == ExpiryRow(ToDayNumber(CivilDate(year, 4, 30)), "M", "April", "Wednesday", 5)
  {
    FirstThursday2025();
    April24th2025();
    April30th2025();
    May1st2025();
    NamesCapitalized(3);
    assert WeekdayToNumber(expiryDayName) == Ok(3);
    var occ := OccurrencesThrough(year, 3, 12);
    YearOccurrences(year, 3);
    assert occ[16] == 20202 && occ[17] == 20209;
    MayHoliday2025(occ, holidays);
    AprilRows2025(AdjustAll(occ, holidays));
  }

  class ExpiryCalculator {
    const year: int
    const holidays: set<Date>
    const expiryDayName: string

    /** Stores the year and holidays and the capitalized weekday name; the name is not checked here. */
    constructor(year: int, holidays: set<Date>, expiryDayName: string := "Thursday")
      ensures this.year == year && this.holidays == holidays
      ensures this.expiryDayName == Capitalize(expiryDayName)
    {
      this.year := year;
      this.holidays := holidays;
      this.expiryDayName := Capitalize(expiryDayName);
    }

    /**
     * The dates of the expiry weekday in `month` of the year. A month outside
     * 1..12 is refused first (building its first day fails), then an unknown
     * weekday name.
     */
    function AllWeekdaysInMonth(month: int): (r: Result<seq<Date>>)
      ensures !(1 <= month <= 12) ==> r == Err(MonthOutOfRange(month))
      ensures 1 <= month <= 12 ==> (r.Err? <==> WeekdayToNumber(expiryDayName).Err?)
      ensures 1 <= month <= 12 && r.Err? ==> r.error == InvalidWeekdayName
      ensures r.Ok? ==> r.value == WeekdayOccurrences(year, month, WeekdayToNumber(expiryDayName).value)
    {
      if !(1 <= month <= 12) then Err(MonthOutOfRange(month))
      else
        match WeekdayToNumber(expiryDayName)
        case Err(e) => Err(e)
        case Ok(t) => Ok(WeekdayOccurrences(year, month, t))
    }

    /** A month has 4 or 5 dates, one week apart. */
    lemma AllWeekdaysInMonthCount(month: int)
      requires AllWeekdaysInMonth(month).Ok?
      ensures var ds := AllWeekdaysInMonth(month).value;
        && (|ds| == 4 || |ds| == 5)
        && forall i :: 0 < i < |ds| ==> ds[i] == ds[i - 1] + 7
    {
      OccurrencesShape(year, month, WeekdayToNumber(expiryDayName).value);
    }

    /** The first date of a month is on day 1 + ((weekday - weekday of the 1st) mod 7), within its first week. */
    lemma AllWeekdaysInMonthFirst(month: int)
      requires AllWeekdaysInMonth(month).Ok?
      ensures var ds, t := AllWeekdaysInMonth(month).value, WeekdayToNumber(expiryDayName).value;
        && |ds| > 0
        && FromDayNumber(ds[0]).day == 1 + (t - Weekday(FirstOfMonth(year, month))) % 7
    {
      var t := WeekdayToNumber(expiryDayName).value;
      var ds := WeekdayOccurrences(year, month, t);
      OccurrencesShape(year, month, t);
      FirstOccurrenceDay(year, month, t, ds[0]);
    }

    /** The dates of a month are exactly its days on the expiry weekday. */
    lemma AllWeekdaysInMonthExact(month: int)
      requires AllWeekdaysInMonth(month).Ok?
      ensures forall d :: d in AllWeekdaysInMonth(month).value <==>
        FromDayNumber(d).year == year && FromDayNumber(d).month == month
        && Weekday(d) == WeekdayToNumber(expiryDayName).value
    {
      OccurrencesExactAll(year, month, WeekdayToNumber(expiryDayName).value);
    }

    /** The last trading day on or before `date`: steps back a day while on a holiday, a Saturday or a Sunday. */
    method TradingDayBefore(date: Date) returns (r: Date)
      ensures r <= date && IsTradingDay(r, holidays)
      ensures forall x :: r < x <= date ==> !IsTradingDay(x, holidays)
      ensures r == LatestTradingDay(date, holidays)
    {
      r := date;
      while r in holidays || Weekday(r) >= 5
        invariant r <= date
        invariant forall x :: r < x <= date ==> !IsTradingDay(x, holidays)
        invariant LatestTradingDay(r, holidays) == LatestTradingDay(date, holidays)
        decreases |HolidaysUpTo(holidays, r)|, Weekday(r)
      {
        HolidaysUpToStep(holidays, r);
        if r !in holidays {
          WeekendStep(r);
        }
        r := r - 1;
      }
    }

    /** Each of `days` moved back to the last trading day on or before it, in order. */
    method AdjustDays(days: seq<Date>) returns (adjusted: seq<Date>)
      ensures adjusted == AdjustAll(days, holidays)
    {
      adjusted := [];
      for i := 0 to |days|
        invariant adjusted == AdjustAll(days[..i], holidays)
      {
        var day := TradingDayBefore(days[i]);
        assert days[..i + 1] == days[..i] + [days[i]];
        AdjustAllAppend(days[..i], [days[i]], holidays);
        adjusted := adjusted + [day];
      }
      assert days[..|days|] == days;
    }

    /** The expiry table for the year, or the error the first month raises. */
    method ExpiryDates() returns (res: Result<seq<ExpiryRow>>)
      ensures res == ExpiryDatesSpec(year, holidays, expiryDayName)
    {
      var dates: seq<Date> := [];
      for month := 1 to 13
        invariant month > 1 ==> WeekdayToNumber(expiryDayName).Ok?
        invariant WeekdayToNumber(expiryDayName).Ok? ==>
          dates == AdjustAll(OccurrencesThrough(year, WeekdayToNumber(expiryDayName).value, month - 1), holidays)
      {
        var all := AllWeekdaysInMonth(month);
        if all.Err? {
          return Err(all.error);
        }
        var adjusted := AdjustDays(all.value);
        ghost var t := WeekdayToNumber(expiryDayName).value;
        assert OccurrencesThrough(year, t, month) == OccurrencesThrough(year, t, month - 1) + all.value;
        AdjustAllAppend(OccurrencesThrough(year, t, month - 1), all.value, holidays);
        dates := dates + adjusted;
      }
      res := Ok(Table(dates));
    }
  }
}
