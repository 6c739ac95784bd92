# Expiry calculator, modelled in Dafny

This project models the expiry-date calculator of the repository, the class
`ExpiryCalculator` in `expiry_calculator/expiry_calculator.py`. It takes a year,
a set of holiday dates and the weekday on which contracts expire. It then:

- turns the weekday name into a number, Monday = 0 … Sunday = 6, after capitalizing the name;
- lists every occurrence of that weekday in each month of the year;
- moves each occurrence back to the latest trading day on or before it, where a trading day is Monday–Friday and not a holiday;
- builds one table for the twelve months. The table has the columns Date, ExpiryType, Month, DayName and WeekOfMonth. The rows with the largest WeekOfMonth among the rows of each month name are labelled `"M"`. Every other row is labelled `"<WeekOfMonth>W"`.

Modules, one file each:

- `civil.dfy` (`Civil`): the proleptic Gregorian calendar on integer day numbers. Day 0 is 1970-01-01, a Thursday. It holds the conversions between day numbers and (year, month, day), proved to be inverse in both directions. It also holds the weekday and the first and last day of each month. This is the part of pandas `Timestamp` the calculator uses.
- `errors.dfy` (`Errors`): the two errors the calculator can raise, and a `Result` type.
- `weekdays.dfy` (`Weekdays`): ASCII `str.capitalize` and `weekday_to_number`.
- `trading_days.dfy` (`TradingDays`): the latest trading day on or before a date, as a specification function. Also the adjustment of a list of dates.
- `occurrences.dfy` (`Occurrences`): the occurrences of a weekday in a month and in a year.
- `expiry_table.dfy` (`ExpiryTable`): the columns of the result table and the group-maximum labelling.
- `expiry_calculator.dfy` (`Calculator`): the class itself.
  - Its two loops are methods: the backward search of `get_trading_day_before`, and the month-by-month accumulation of `get_expiry_dates`.
  - Each method is proved equal to a specification function.
  - The properties of the whole table are lemmas about that function.
  - There is also a worked example for 2025.

Behaviour of the code worth noting:

- Grouping is by the month name of the adjusted date only (`:84`, `:89`).
  - The rows are not regrouped by the month an expiry came from, and the weekly labels are the weeks of the month, not a count of the rows.
  - A row moved into the previous month belongs to that month's group. In the 2025 example, the shifted 1 May expiry lands on 30 April in the fifth week. It becomes April's `"M"`, and 24 April becomes `"4W"` (`Calculator.Example2025`).
  - A date moved back from 1 January into the previous December joins the December group of the year as well, because the group key carries no year (`ExpiryTable.SameGroup`).
- A group has several `"M"` rows when two of its rows share its largest week. It has repeated `"kW"` labels when two of its rows share a smaller week k, for example an occurrence moved back onto the one before it, or two December rows from different years (`ExpiryTable.EqualDatesEqualRows`, `ExpiryTable.TableLabels`).
- An unknown weekday name is not refused at construction.
  - The constructor only capitalizes the name.
  - The error is raised when the months are listed (`:46`, reached from `:68`).
- The year is a single integer (`:45`). No list of years is accepted.

## Model

| member | source | states |
|---|---|---|
| Weekdays.Capitalize | expiry_calculator/expiry_calculator.py:9 | capitalizing keeps the length; its meaning is stated by CapitalizeIdempotent, CapitalizeIgnoresCase and CapitalizedFixed |
| Weekdays.DayName | expiry_calculator/expiry_calculator.py:85 | the English name of each day of the week, Monday = 0 (the DayName column); TablesAgree ties it to the lookup |
| Weekdays.WeekdayToNumber | expiry_calculator/expiry_calculator.py:12-41 | a successful lookup is a day number in 0..6; a failure is the invalid-weekday-name error |
| Weekdays.WeekdayToNumberExact | expiry_calculator/expiry_calculator.py:12-41 | the lookup yields k exactly when the capitalized name is the long or the three-letter name of day k |
| Weekdays.WeekdayToNumberFails | expiry_calculator/expiry_calculator.py:36-41 | the lookup fails exactly when the capitalized name is none of the fourteen names |
| Weekdays.TablesAgree | expiry_calculator/expiry_calculator.py:16-34 | the two lookup maps hold exactly the seven long and the seven short day names, each mapped to its own day number |
| Weekdays.NamesCapitalized | expiry_calculator/expiry_calculator.py:16-34 | every accepted name is unchanged by capitalizing it |
| Weekdays.CapitalizeIdempotent | expiry_calculator/expiry_calculator.py:14 | capitalizing twice (in the constructor and again in the lookup) gives the same as capitalizing once |
| Weekdays.CapitalizeIgnoresCase | expiry_calculator/expiry_calculator.py:14 | strings that differ only in letter case capitalize to the same string |
| Weekdays.WeekdayToNumberIgnoresCase | expiry_calculator/expiry_calculator.py:14-39 | any casing of an accepted long or short name yields that day's number |
| Weekdays.CapitalizedFixed | expiry_calculator/expiry_calculator.py:14 | a string that starts with a non-lower-case character and has no upper-case character after it is its own capitalization |
| Civil.ToDayNumber | expiry_calculator/expiry_calculator.py:45 | the day number of a (year, month, day) date; FromToDayNumber and ToFromDayNumber state that it and FromDayNumber are inverse |
| Civil.FirstOfMonth | expiry_calculator/expiry_calculator.py:45 | the day number of the first of a month; InMonth and DayOfMonth state which days follow it in the month |
| Civil.LastOfMonth | expiry_calculator/expiry_calculator.py:52 | the first of the next month minus one day; MonthSpan and InMonth state that it is the month's last day |
| Civil.DaysInMonth | expiry_calculator/expiry_calculator.py:52 | a month has 28 to 31 days, the distance between the first days of consecutive months |
| Civil.Weekday | expiry_calculator/expiry_calculator.py:49 | the weekday of a date is in 0..6, Monday = 0 |
| Civil.Epoch | expiry_calculator/expiry_calculator.py:49 | day 0 is 1970-01-01 and a Thursday, weekday 3, which anchors Monday = 0 |
| Civil.FromDayNumber | expiry_calculator/expiry_calculator.py:84 | the month of any decoded date is in 1..12 |
| Civil.FromDayNumberValid | expiry_calculator/expiry_calculator.py:87 | every day number decodes to a valid date: month 1..12, day within the month's length |
| Civil.ToFromDayNumber | expiry_calculator/expiry_calculator.py:45 | decoding a day number and encoding the date again gives the same day number |
| Civil.FromToDayNumber | expiry_calculator/expiry_calculator.py:45 | encoding a valid date and decoding the day number gives the same date |
| Civil.LeapYearPeriodic | expiry_calculator/expiry_calculator.py:52 | the leap-year rule repeats every 400 years |
| Civil.MonthSpan | expiry_calculator/expiry_calculator.py:52 | the last day of a month (first of the next month minus one day) is its first day plus its length minus one |
| Civil.DayOfMonth | expiry_calculator/expiry_calculator.py:45-52 | the first day of a month plus i days, for i below the month's length, is day i+1 of that month |
| Civil.InMonth | expiry_calculator/expiry_calculator.py:52 | a day number lies between the first and the last day of a month exactly when it decodes to that year and month |
| Civil.InYear | expiry_calculator/expiry_calculator.py:66 | a day number lies between 1 January and 31 December of a year exactly when it decodes to that year |
| Occurrences.FirstOnWeekday | expiry_calculator/expiry_calculator.py:49 | a day plus (target - its weekday) mod 7 days; WeekdayOffset and WeekdayOffsetUnique state that it is the first day on the target weekday from there |
| Occurrences.FirstOccurrence | expiry_calculator/expiry_calculator.py:45-49 | the first occurrence of the weekday in a month; FirstOccurrenceDay states its day of the month |
| Occurrences.WeekdayOccurrences | expiry_calculator/expiry_calculator.py:52 | the 7-day range from the first occurrence to the month's last day; OccurrencesShape and OccurrencesExact state what it holds |
| Occurrences.OccurrencesThrough | expiry_calculator/expiry_calculator.py:66-72 | the occurrences of months 1..n concatenated in month order; OccurrencesThroughRange, YearOccurrences and YearOccurrencesExact state what it holds |
| Occurrences.Every7Days | expiry_calculator/expiry_calculator.py:52 | the range from a start to an end by steps of 7 days has (end-start)/7+1 elements (none when start > end), element i being start + 7i |
| Occurrences.Every7DaysMembers | expiry_calculator/expiry_calculator.py:52 | a date is in the range exactly when it lies between start and end and is a whole number of weeks after start |
| Occurrences.Every7DaysSplit | expiry_calculator/expiry_calculator.py:52 | a 7-day range splits at any point into the part up to it and the part after it |
| Occurrences.WeekdayWeeks | expiry_calculator/expiry_calculator.py:52 | adding whole weeks keeps the weekday |
| Occurrences.WeekdayOffset | expiry_calculator/expiry_calculator.py:49 | moving (target - weekday) mod 7 days forward reaches the target weekday |
| Occurrences.WeekdayOffsetUnique | expiry_calculator/expiry_calculator.py:49 | that offset is the only one in 0..6 that reaches the target weekday |
| Occurrences.RangeMembers | expiry_calculator/expiry_calculator.py:49-52 | over a span of at least a week, the range from the first target weekday is exactly the span's days with that weekday |
| Occurrences.RangeShape | expiry_calculator/expiry_calculator.py:49-52 | over a month-sized span the range has 4 or 5 dates, all on the target weekday and inside the span |
| Occurrences.RangeContinues | expiry_calculator/expiry_calculator.py:66-72 | the range of one span followed by the range of the next span (restarting from its first target weekday) is the range over both spans |
| Occurrences.FirstOccurrenceDay | expiry_calculator/expiry_calculator.py:45-49 | the first occurrence lies in the given year and month, on day 1 + ((target - weekday of the 1st) mod 7), which is in 1..7, and on the target weekday |
| Occurrences.OccurrencesShape | expiry_calculator/expiry_calculator.py:45-54 | a month has 4 or 5 occurrences; the first is the first occurrence, each next one is 7 days later, all are on the target weekday and inside the month |
| Occurrences.OccurrencesExact | expiry_calculator/expiry_calculator.py:45-54 | a date is among a month's occurrences exactly when it decodes to that year and month and has the target weekday |
| Occurrences.OccurrencesExactAll | expiry_calculator/expiry_calculator.py:45-54 | the same, for all dates at once |
| Occurrences.OccurrencesThroughRange | expiry_calculator/expiry_calculator.py:66-72 | the occurrences of months 1..n concatenated in month order are one 7-day range from the first occurrence in January to the end of month n |
| Occurrences.MonthsAscending | expiry_calculator/expiry_calculator.py:66 | a later month of the year ends no earlier |
| Occurrences.YearOccurrences | expiry_calculator/expiry_calculator.py:66-72 | the year has 52 or 53 occurrences, the i-th being the first January occurrence plus i weeks |
| Occurrences.YearOccurrencesExact | expiry_calculator/expiry_calculator.py:66-72 | a date is among the year's occurrences exactly when it decodes to that year and has the target weekday; the occurrences strictly ascend |
| TradingDays.IsTradingDay | expiry_calculator/expiry_calculator.py:58 | a day is a trading day when it is not a holiday and is Monday .. Friday, the negation of the loop condition |
| TradingDays.HolidaysUpToStep | expiry_calculator/expiry_calculator.py:58-59 | stepping back from a holiday leaves fewer holidays on or before the date, and stepping back from any other day leaves the same ones; this bounds the search |
| TradingDays.LatestTradingDay | expiry_calculator/expiry_calculator.py:56-60 | the search result is a trading day on or before the date, and every day after it up to the date is a weekend day or a holiday |
| TradingDays.LatestTradingDayUnique | expiry_calculator/expiry_calculator.py:56-60 | any trading day on or before the date with no trading day after it up to the date is the search result |
| TradingDays.LatestTradingDayFixed | expiry_calculator/expiry_calculator.py:58 | the search returns its input exactly when the input is a trading day |
| TradingDays.LatestTradingDayIdempotent | expiry_calculator/expiry_calculator.py:56-60 | searching again from the result gives the result |
| TradingDays.LatestTradingDayMonotone | expiry_calculator/expiry_calculator.py:56-60 | a later start never gives an earlier result |
| TradingDays.AdjustAll | expiry_calculator/expiry_calculator.py:71 | adjusting a list keeps its length |
| TradingDays.AdjustAllElements | expiry_calculator/expiry_calculator.py:71 | each adjusted date is the latest trading day on or before the original: a trading day no later than it with no trading day in between, equal to it exactly when the original is a trading day |
| TradingDays.AdjustAllAppend | expiry_calculator/expiry_calculator.py:71-72 | adjusting a concatenation is concatenating the adjusted parts |
| TradingDays.AdjustAllAscending | expiry_calculator/expiry_calculator.py:71-72 | adjusting ascending dates keeps them ascending (not strictly) |
| ExpiryTable.MonthName | expiry_calculator/expiry_calculator.py:84 | the English name of each month; MonthNameInjective states that the names are distinct |
| ExpiryTable.MonthOf | expiry_calculator/expiry_calculator.py:84 | the month name of a date; TableColumns states it for each row |
| ExpiryTable.Months | expiry_calculator/expiry_calculator.py:84 | the Month column has one entry per date |
| ExpiryTable.Weeks | expiry_calculator/expiry_calculator.py:87 | the WeekOfMonth column has one entry per date |
| ExpiryTable.DecimalString | expiry_calculator/expiry_calculator.py:92 | the decimal text of a number is not empty; WeekLabel states the labels it gives for weeks 1..5 |
| ExpiryTable.ExpiryType | expiry_calculator/expiry_calculator.py:92-93 | the label of a row from the Month and WeekOfMonth columns; ExpiryTypeMonthly states its meaning |
| ExpiryTable.Table | expiry_calculator/expiry_calculator.py:80-87 | one row per date; TableColumns, TableLabels and EqualDatesEqualRows state its columns and labels |
| ExpiryTable.WeekOfMonth | expiry_calculator/expiry_calculator.py:87 | the week of the month is in 1..5 |
| ExpiryTable.GroupMax | expiry_calculator/expiry_calculator.py:89 | the group maximum bounds the week of every row with that month name and is the week of one of them (0 for a name with no rows) |
| ExpiryTable.ExpiryTypeMonthly | expiry_calculator/expiry_calculator.py:92-93 | on the Month and WeekOfMonth columns, a row is labelled "M" exactly when no row with its month name has a larger week, and otherwise its week followed by "W" |
| ExpiryTable.MonthlyExists | expiry_calculator/expiry_calculator.py:89-93 | every month name in the columns has an "M" row |
| ExpiryTable.MonthNameInjective | expiry_calculator/expiry_calculator.py:84 | two month numbers have the same name exactly when they are equal |
| ExpiryTable.TableColumns | expiry_calculator/expiry_calculator.py:80-87 | each row holds its date, the month name and day name of that date, and (day - 1) div 7 + 1 as its week of the month, which is in 1..5 |
| ExpiryTable.SameGroup | expiry_calculator/expiry_calculator.py:89 | two rows are in the same group exactly when their dates have the same month number, whatever their years |
| ExpiryTable.TableLabels | expiry_calculator/expiry_calculator.py:89-93 | a row is "M" exactly when no row of its month name has a larger WeekOfMonth; every other row is its WeekOfMonth followed by "W" |
| ExpiryTable.EveryMonthHasMonthly | expiry_calculator/expiry_calculator.py:89-93 | every month name present in the table has at least one "M" row |
| ExpiryTable.FifthWeekIsMonthly | expiry_calculator/expiry_calculator.py:87-93 | a row in the fifth week of its month is always "M" |
| ExpiryTable.EqualDatesEqualRows | expiry_calculator/expiry_calculator.py:80-93 | rows are not deduplicated: two equal dates give two equal rows, labels included |
| ExpiryTable.WeeklyLabels | expiry_calculator/expiry_calculator.py:92-93 | every label is "M" or one of "1W" .. "5W" |
| ExpiryTable.WeekLabel | expiry_calculator/expiry_calculator.py:92 | the weekly label of a week in 1..5 is one of "1W" .. "5W" |
| Calculator.ExpiryDatesSpec | expiry_calculator/expiry_calculator.py:62-97 | the table built from the year, holidays and weekday name as a function; ExpiryDatesError, ExpiryDatesRows, ExpiryDatesAscending and ExpiryDatesTradingDays state what it holds, and ExpiryDates is proved equal to it |
| Calculator.ExpiryDatesError | expiry_calculator/expiry_calculator.py:66-68 | the table is refused exactly when the capitalized weekday name is none of the fourteen accepted names, and the error is the invalid-weekday-name error |
| Calculator.ExpiryDatesRows | expiry_calculator/expiry_calculator.py:64-83 | with a valid weekday the table has 52 or 53 rows, one per occurrence in the year; row i holds the latest trading day on or before the first January occurrence plus i weeks |
| Calculator.ExpiryDatesAscending | expiry_calculator/expiry_calculator.py:64-72 | the row dates ascend, not strictly |
| Calculator.ExpiryDatesTradingDays | expiry_calculator/expiry_calculator.py:71-85 | every row date is a trading day, so its day name is Monday .. Friday |
| Calculator.MayHoliday2025 | expiry_calculator/expiry_calculator.py:56-60 | with 1 May 2025 a holiday, 24 April 2025 stays and 1 May moves back to 30 April |
| Calculator.AprilRows2025 | expiry_calculator/expiry_calculator.py:84-93 | a table with 24 April and 30 April 2025 at rows 16 and 17 labels them "4W" (week 4) and "M" (week 5), both in the April group |
| Calculator.Example2025 | expiry_calculator/expiry_calculator.py:62-97 | for Thursday in 2025 with the holiday 1 May, rows 16 and 17 are 24 April "4W" and 30 April "M", both "April" |
| Calculator.ExpiryCalculator.constructor | expiry_calculator/expiry_calculator.py:6-9 | the year and holidays are stored as given and the weekday name capitalized, without checking it |
| Calculator.ExpiryCalculator.AllWeekdaysInMonth | expiry_calculator/expiry_calculator.py:43-54 | a month outside 1..12 is refused first; otherwise the result is an error exactly when the weekday name is invalid, and else it is the month's occurrences of the weekday |
| Calculator.ExpiryCalculator.AllWeekdaysInMonthCount | expiry_calculator/expiry_calculator.py:49-52 | a month yields 4 or 5 dates, each 7 days after the one before |
| Calculator.ExpiryCalculator.AllWeekdaysInMonthFirst | expiry_calculator/expiry_calculator.py:45-49 | the first date is on day 1 + ((target - weekday of the 1st) mod 7) of the month |
| Calculator.ExpiryCalculator.AllWeekdaysInMonthExact | expiry_calculator/expiry_calculator.py:43-54 | the dates returned are exactly the days of that year and month on the expiry weekday |
| Calculator.ExpiryCalculator.TradingDayBefore | expiry_calculator/expiry_calculator.py:56-60 | the loop returns a trading day on or before the date with only weekend days and holidays after it up to the date, which is the latest trading day on or before the date |
| Calculator.ExpiryCalculator.AdjustDays | expiry_calculator/expiry_calculator.py:71 | each day is replaced, in order, by the latest trading day on or before it |
| Calculator.ExpiryCalculator.ExpiryDates | expiry_calculator/expiry_calculator.py:62-97 | the month loop returns the error of the first month when the weekday is invalid, and otherwise the labelled table of the adjusted occurrences of months 1..12 in month order |

## Left out

- The technical-indicator files under `technical_indicators/` and `techincal_indicators/` are not part of this model. They are floating-point rolling and exponential averages delegated to pandas.
- pandas and NumPy mechanics are not modelled: the DataFrame, the `np.nan` placeholder at `:82`, dtype conversions, and the time of day and the timezone of a `Timestamp`. Dates are whole days.
- The range of years a pandas `Timestamp` can hold (about 1677 to 2262) and its out-of-bounds error are not modelled. The calendar here is unbounded.
- Holidays are a finite set of dates. The `in` semantics of other containers the caller might pass is not modelled.
- `Weekdays.Capitalize`: case mapping is for ASCII letters only. Python's `str.capitalize` also maps other Unicode letters, and title-cases the first character.
- The commented-out per-month labelling at `:74-77` is dead code and is not modelled.
- `weekday_to_number` is a static method in the source. Here it is the module-level function `Weekdays.WeekdayToNumber`.
