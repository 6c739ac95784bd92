/**
 * Weekday names: Python's `str.capitalize` on ASCII text and the
 * calculator's `weekday_to_number` lookup.
 */
module Weekdays {
  import opened Errors

  predicate IsUpper(ch: char) { 'A' <= ch <= 'Z' }
  predicate IsLower(ch: char) { 'a' <= ch <= 'z' }

  function ToUpper(ch: char): (r: char)
    ensures !IsLower(r)
  {
    if IsLower(ch) then (ch as int - 32) as char else ch
  }

  function ToLower(ch: char): (r: char)
    ensures !IsUpper(r)
  {
    if IsUpper(ch) then (ch as int + 32) as char else ch
  }

  function LowerAll(s: string): (r: string)
    ensures |r| == |s| && forall i :: 0 <= i < |s| ==> r[i] == ToLower(s[i])
  {
    seq(|s|, i requires 0 <= i < |s| => ToLower(s[i]))
  }

  /** `str.capitalize`: the first character upper-cased and the rest lower-cased. */
  function Capitalize(s: string): (r: string)
    ensures |r| == |s|
  {
    if |s| == 0 then "" else [ToUpper(s[0])] + LowerAll(s[1..])
  }

  /** Two strings that differ only in the case of their letters. */
  predicate EqualIgnoringCase(s: string, t: string) {
    |s| == |t| && forall i :: 0 <= i < |s| ==> ToLower(s[i]) == ToLower(t[i])
  }

  /** The long and the three-letter names the lookup accepts, Monday = 0 ... Sunday = 6. */
  const WeekdaysLong: map<string, int> :=
    map["Monday" := 0, "Tuesday" := 1, "Wednesday" := 2, "Thursday" := 3,
        "Friday" := 4, "Saturday" := 5, "Sunday" := 6]

  const WeekdaysShort: map<string, int> :=
    map["Mon" := 0, "Tue" := 1, "Wed" := 2, "Thu" := 3, "Fri" := 4, "Sat" := 5, "Sun" := 6]

  /** English name of day `k` of the week, Monday = 0 (pandas `day_name()`). */
  function DayName(k: int): string
    requires 0 <= k < 7
  {
    ["Monday", "Tuesday", "Wednesday", "Thursday", "Friday", "Saturday", "Sunday"][k]
  }

  /** Three-letter abbreviation of day `k` of the week. */
  function ShortDayName(k: int): string
    requires 0 <= k < 7
  {
    ["Mon", "Tue", "Wed", "Thu", "Fri", "Sat", "Sun"][k]
  }

  /**
   * The number of a weekday name, after capitalizing it: the long names are
   * tried first, then the three-letter ones; anything else is an error.
   */
  function WeekdayToNumber(weekday: string): (r: Result<int>)
    ensures r.Ok? ==> 0 <= r.value < 7
    ensures r.Err? ==> r.error == InvalidWeekdayName
  {
    var w := Capitalize(weekday);
    if w in WeekdaysLong then Ok(WeekdaysLong[w])
    else if w in WeekdaysShort then Ok(WeekdaysShort[w])
    else Err(InvalidWeekdayName)
  }

  // ---------------------------------------------------------------------
  // Properties

  /** The lookup tables are the day-name tables read backwards. */
  lemma TablesAgree()
    ensures forall w :: w in WeekdaysLong <==> exists k :: 0 <= k < 7 && DayName(k) == w
    ensures forall k :: 0 <= k < 7 ==> DayName(k) in WeekdaysLong && WeekdaysLong[DayName(k)] == k
    ensures forall w :: w in WeekdaysShort <==> exists k :: 0 <= k < 7 && ShortDayName(k) == w
    ensures forall k :: 0 <= k < 7 ==> ShortDayName(k) in WeekdaysShort && WeekdaysShort[ShortDayName(k)] == k
  {
    forall w | w in WeekdaysLong
      ensures exists k :: 0 <= k < 7 && DayName(k) == w
    {
      var k := WeekdaysLong[w];
      assert DayName(k) == w;
    }
    forall w | w in WeekdaysShort
      ensures exists k :: 0 <= k < 7 && ShortDayName(k) == w
    {
      var k := WeekdaysShort[w];
      assert ShortDayName(k) == w;
    }
  }

  /**
   * The lookup maps exactly the fourteen names (once capitalized) to their
   * day numbers, and refuses every other string.
   */
  lemma WeekdayToNumberExact(weekday: string, k: int)
    ensures WeekdayToNumber(weekday) == Ok(k)
        <==> 0 <= k < 7 && (Capitalize(weekday) == DayName(k) || Capitalize(weekday) == ShortDayName(k))
  {
    TablesAgree();
  }

  /** The lookup fails exactly when the capitalized name is none of the fourteen names. */
  lemma WeekdayToNumberFails(weekday: string)
    ensures WeekdayToNumber(weekday).Err?
        <==> forall j :: 0 <= j < 7 ==> Capitalize(weekday) != DayName(j) && Capitalize(weekday) != ShortDayName(j)
  {
    TablesAgree();
  }

  /** Capitalizing twice is capitalizing once, so a name capitalized at construction passes the lookup unchanged. */
  lemma CapitalizeIdempotent(s: string)
    ensures Capitalize(Capitalize(s)) == Capitalize(s)
  {
    var c := Capitalize(s);
    if |s| > 0 {
      assert c[0] == ToUpper(s[0]);
      assert forall i :: 0 < i < |s| ==> c[i] == ToLower(s[i]);
      assert Capitalize(c) == c;
    }
  }

  /** Strings that differ only in letter case capitalize alike. */
  lemma CapitalizeIgnoresCase(s: string, t: string)
    requires EqualIgnoringCase(s, t)
    ensures Capitalize(s) == Capitalize(t)
  {
    if |s| > 0 {
      assert ToLower(s[0]) == ToLower(t[0]);
      assert ToUpper(s[0]) == ToUpper(t[0]);
      assert forall i :: 0 < i < |s| ==> ToLower(s[i]) == ToLower(t[i]);
    }
  }

  /** The lookup ignores letter case: any casing of an accepted name yields its number. */
  lemma WeekdayToNumberIgnoresCase(s: string, k: int)
    requires 0 <= k < 7
    requires EqualIgnoringCase(s, DayName(k)) || EqualIgnoringCase(s, ShortDayName(k))
    ensures WeekdayToNumber(s) == Ok(k)
  {
    var name := if EqualIgnoringCase(s, DayName(k)) then DayName(k) else ShortDayName(k);
    CapitalizeIgnoresCase(s, name);
    NamesCapitalized(k);
    WeekdayToNumberExact(s, k);
  }

  /** A string starting with a non-lower-case character and going on without upper-case ones is its own capitalization. */
  lemma CapitalizedFixed(s: string)
    requires |s| > 0 && !IsLower(s[0]) && forall i :: 0 < i < |s| ==> !IsUpper(s[i])
    ensures Capitalize(s) == s
  {
    assert Capitalize(s) == [s[0]] + s[1..];
  }

  /** The accepted names are already capitalized. */
  lemma NamesCapitalized(k: int)
    requires 0 <= k < 7
    ensures Capitalize(DayName(k)) == DayName(k) && Capitalize(ShortDayName(k)) == ShortDayName(k)
  {
    CapitalizedFixed(DayName(k));
    CapitalizedFixed(ShortDayName(k));
  }
}
