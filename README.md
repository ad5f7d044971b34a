# calplot calendar map, modelled in Dafny

This project models the core of `calplot/calendar_map.py`: the function that
turns a dated time series into a calendar heatmap. It covers three steps:

- `calendar` stretches the series onto whole Monday-to-Sunday weeks (lines 82-84).
- `generate_calendar_frame` pivots the dated values into a table with one row
  per ISO week number and one column per weekday, then labels the columns with
  weekday names and the rows with year, month and week labels (lines 29-77).
- `annotate_dates` writes the day of the month into the cells of the drawn grid
  (lines 9-16).

Dates are day numbers: day 0 is Monday 1 January 0001 of the proleptic Gregorian
calendar. The pandas date fields used by the source are defined on them in
`dates.dfy`: `dayofweek`, `weekofyear` (ISO 8601 week number), `day`, `month`,
`year` and the anchored offset `Week(weekday=k)`. The ISO week number is defined
by the Thursday of its week. `Dates.IsoWeekMonday` proves that this agrees with
the definition in ISO 8601: week w of year Y starts 7(w - 1) days after the
Monday of the week holding January 4.

Modules:

- `Wrappers`: `Option` and `Result`.
- `Dates`: calendar arithmetic.
- `Sequences`: first-seen `unique()` and the row-major reading of a seven-column grid.
- `CalendarFrame`: `generate_calendar_frame`.
- `DateAnnotations`: `annotate_dates`.
- `CalendarPlot`: `calendar`.

The pandas and seaborn calls are modelled as values:

- A missing value (NaN) is `None`.
- A pandas error is a `Failure` naming its cause.
- The heatmap is the frame handed to seaborn, together with the texts written over it.

The model follows the code where it departs from the behaviour one might
expect of a calendar plot:

- The rows are keyed by ISO week number, not by the date of each week's Monday.
  A range of 54 weeks or more therefore repeats a week number, and `unstack`
  rejects it (`CalendarPlot.LongSeriesFailsAsWritten` for the range as written,
  `CalendarPlot.LongSeriesFails` for the corrected range).
- A weekday label other than a string (`None` or a list) has no `lower()` and fails.
- A year or month label array of another length than the rows fails in `set_index`.
- There are no `start_date`/`end_date` bounds.
- As written, the range does not roll back to the Monday on or before the
  earliest date. It starts one week later (see Findings).

## Model

| member | source | states |
|---|---|---|
| Dates.Weekday | calplot/calendar_map.py:31 | `dayofweek` lies in 0..6 and differs from the day number by a whole number of weeks |
| Dates.WeekMonday | calplot/calendar_map.py:31 | the Monday of a day's week is a Monday at most six days before it |
| Dates.YearOfMonotone | calplot/calendar_map.py:61 | a later day never has an earlier year |
| Dates.MonthFrom | calplot/calendar_map.py:66 | the month found for a day of the year is the one whose first day is on or before it and whose successor's first day is after it |
| Dates.MonthFromUnique | calplot/calendar_map.py:66 | that month is the only one holding the day of the year |
| Dates.IsoYearMonotone | calplot/calendar_map.py:32 | a later week never has an earlier ISO year |
| Dates.WeekOneMondaysApart | calplot/calendar_map.py:32 | week 1 of a later ISO year starts at least 52 weeks after week 1 of an earlier one |
| Dates.MondayShift | calplot/calendar_map.py:31 | whole weeks after a Monday are Mondays |
| Dates.AddAnchoredWeek | calplot/calendar_map.py:55 | `d + Week(weekday=k)` is the first day with weekday k strictly after d, at most seven days later |
| Dates.YearOf | calplot/calendar_map.py:61 | the year of a day is the one whose 1 January is on or before it and whose successor's 1 January is after it |
| Dates.YearOfUnique | calplot/calendar_map.py:61 | that year is the only one bracketing the day |
| Dates.ToCivil | calplot/calendar_map.py:14 | the year, month and day of a day number form a valid calendar date that maps back to the same day |
| Dates.CivilRoundTrip | calplot/calendar_map.py:14 | every valid calendar date survives the trip to a day number and back |
| Dates.DayOfMonth | calplot/calendar_map.py:14 | `.day` lies in 1..31 |
| Dates.MonthOf | calplot/calendar_map.py:66 | `.month` lies in 1..12 |
| Dates.IsoWeek | calplot/calendar_map.py:32 | `weekofyear` lies in 1..53 |
| Dates.IsoWeekMonday | calplot/calendar_map.py:32 | the Monday of a day's week is 7(w - 1) days after the Monday of the week holding 4 January of its ISO year, w being its week number |
| Dates.IsoWeekOfJanuary4 | calplot/calendar_map.py:32 | 4 January is in week 1 of its own year |
| Dates.IsoWeekPerWeek | calplot/calendar_map.py:32 | days of the same Monday-to-Sunday week share their week number and ISO year |
| Dates.IsoWeekDistinctWithinYear | calplot/calendar_map.py:32 | two different weeks less than 52 weeks apart have different week numbers |
| Dates.RunWeeksDistinct | calplot/calendar_map.py:32 | rows less than 52 weeks apart in a run of weeks have different week numbers |
| Sequences.Unique | calplot/calendar_map.py:35 | `unique()` keeps exactly the elements of its input, each once |
| Sequences.UniqueFirstSeen | calplot/calendar_map.py:35 | `unique()` orders its elements by their first occurrence |
| Sequences.UniqueOfWeeks | calplot/calendar_map.py:35 | runs of seven equal keys, distinct from run to run, give back the keys in order |
| Sequences.FlattenSplitWeeks | calplot/calendar_map.py:12-14 | cutting a sequence into rows of seven and reading the rows row-major gives it back |
| Sequences.SplitFlattenWeeks | calplot/calendar_map.py:12-14 | reading a seven-column grid row-major and cutting it into rows of seven gives the grid back |
| Sequences.FlattenWeeks | calplot/calendar_map.py:12-14 | cell (r, c) of a seven-column grid is element 7r + c of its row-major reading |
| CalendarFrame.Weekdays | calplot/calendar_map.py:31 | the "day of week" column has one entry per date, each in 0..6 |
| CalendarFrame.WeekNumbers | calplot/calendar_map.py:32 | the "week of year" column has one entry per date, each in 1..53 |
| CalendarFrame.RowKeys | calplot/calendar_map.py:35 | `weekofday_order` is the distinct week numbers in first-seen order |
| CalendarFrame.WeekdaysFrom | calplot/calendar_map.py:38 | the columns `unstack` makes are the weekdays present, ascending, each present one included |
| CalendarFrame.CellValue | calplot/calendar_map.py:38 | a cell holds the value of the row indexed by its (week, weekday), or is missing when there is none |
| CalendarFrame.Cells | calplot/calendar_map.py:38-39 | every cell of the unstacked table holds its row's value or is missing |
| CalendarFrame.Pivot | calplot/calendar_map.py:37-39 | pivoting fails exactly when two dates share (week number, weekday); otherwise it gives first-seen row keys, ascending weekday columns and the matching cells |
| CalendarFrame.HasDuplicateCell | calplot/calendar_map.py:37-38 | `unstack` refuses the index exactly when two rows carry the same (week of year, day of week) pair; `Pivot` fails exactly then |
| CalendarFrame.AllWeekdaysFrom | calplot/calendar_map.py:38 | when every weekday occurs, the columns from c on are c..6 |
| CalendarFrame.WholeWeeksHaveNoDuplicateCell | calplot/calendar_map.py:38 | whole weeks with distinct week numbers never clash in `unstack` |
| CalendarFrame.WholeWeeksColumnKeys | calplot/calendar_map.py:38 | whole weeks give the seven columns Monday to Sunday |
| CalendarFrame.WholeWeeksCells | calplot/calendar_map.py:38-39 | the cells of whole weeks are the values cut into rows of seven |
| CalendarFrame.PivotWholeWeeks | calplot/calendar_map.py:37-39 | whole weeks with distinct week numbers pivot into one row per week, in order, row r holding values 7r..7r+6 |
| CalendarFrame.Lower | calplot/calendar_map.py:46 | `lower()` keeps the length and lowers each ASCII letter |
| CalendarFrame.LowerIdempotent | calplot/calendar_map.py:46-48 | lowering twice is lowering once |
| CalendarFrame.ColumnLabels | calplot/calendar_map.py:44-51 | the columns are relabelled with `day_name` or `day_abbr` exactly when the label lowers to "name" or "abbr"; another string raises the unknown-label error, `None` or a list has no `lower()` |
| CalendarFrame.ColumnLabelsIgnoreCase | calplot/calendar_map.py:46-48 | the label choice ignores case |
| CalendarFrame.ColumnLabelsOfWholeWeeks | calplot/calendar_map.py:46-49 | with all seven weekdays the columns are the full weekday names or abbreviations, Monday first |
| CalendarFrame.MonthShown | calplot/calendar_map.py:65 | the truthiness of `show_month`: a boolean as given, a string when non-empty |
| CalendarFrame.NextMondays | calplot/calendar_map.py:55 | every entry of `bow` is a Monday |
| CalendarFrame.IndexNames | calplot/calendar_map.py:59-76 | the index names hold "Year", "Month" and "Week" exactly when each is requested, once each and no other name, with "Year" first and "Week" last when requested, so in the order Year, Month, Week |
| CalendarFrame.YearLabels | calplot/calendar_map.py:61 | each year label is the year holding entry k of `bow` |
| CalendarFrame.MonthLabels | calplot/calendar_map.py:66 | one month label per row |
| CalendarFrame.MonthLabelOfDate | calplot/calendar_map.py:66 | the month label of a date is its month's full name for "name", its abbreviation for "abbr", and its number otherwise |
| CalendarFrame.MonthLabelOf | calplot/calendar_map.py:66 | the month label of one `bow` entry: its month name for "name", its `%b` abbreviation for "abbr", its number otherwise; its meaning on calendar dates is proved in `MonthLabelOfDate` |
| CalendarFrame.AttachIndex | calplot/calendar_map.py:54-76 | the year and month levels fail exactly when `bow` and the rows differ in length; otherwise every requested level is attached and the cells are unchanged |
| CalendarFrame.GenerateCalendarFrame | calplot/calendar_map.py:29-77 | the frame fails on a shape mismatch, a duplicate (week, weekday), a label without `lower()`, an unknown label or a label-length mismatch, and succeeds exactly when none occurs |
| CalendarFrame.DayOfRun | calplot/calendar_map.py:31 | day i of a run from a Monday has weekday i mod 7 and lies in week i div 7 |
| CalendarFrame.WeekOfRun | calplot/calendar_map.py:32 | day i of a run from a Monday has the week number of row i div 7 |
| CalendarFrame.ShortRunsHaveDistinctWeekNumbers | calplot/calendar_map.py:32 | a run of at most 52 weeks never repeats a week number |
| CalendarFrame.LongRunsRepeatWeekNumbers | calplot/calendar_map.py:32 | a run of 54 weeks or more repeats a week number |
| CalendarFrame.WholeWeeksWeekNumbers | calplot/calendar_map.py:32 | the "week of year" column of a run repeats each row's week number seven times |
| CalendarFrame.WeekNumberOfRunDay | calplot/calendar_map.py:32 | day i of a run carries the week number of row i div 7 |
| CalendarFrame.WholeWeeksRowMonday | calplot/calendar_map.py:31-32 | each row of a run starts with a Monday carrying the row's week number |
| CalendarFrame.WholeWeeksWeekdays | calplot/calendar_map.py:31 | the "day of week" column of a run cycles Monday to Sunday |
| CalendarFrame.WholeWeeksNextMondays | calplot/calendar_map.py:55 | `bow` of a run is the Monday after each week, one per row |
| CalendarFrame.WholeWeeksFrame | calplot/calendar_map.py:29-77 | the frame of whole weeks with distinct week numbers has one row per week in date order, columns Monday to Sunday, the values cut into rows of seven, and each row labelled with its week number and the year and month of the Monday after it |
| DateAnnotations.DaysOfMonth | calplot/calendar_map.py:14 | `dates.day` has one entry per date |
| DateAnnotations.Layout | calplot/calendar_map.py:12-14 | `zip` stops at the shorter of the 7 * n_weeks cells and the days |
| DateAnnotations.AnnotateDates | calplot/calendar_map.py:12-16 | the loop emits the texts of the layout, in cell order |
| DateAnnotations.LayoutInGrid | calplot/calendar_map.py:12-16 | every text lies inside the 7 by n_weeks grid and shows its own day |
| DateAnnotations.LayoutPosition | calplot/calendar_map.py:12-16 | text 7r + c is written into column c of row r |
| DateAnnotations.LayoutCellsDistinct | calplot/calendar_map.py:12-16 | no two texts share a cell |
| CalendarPlot.MinDate | calplot/calendar_map.py:82 | `index.min()` is an element of the index and no element is smaller |
| CalendarPlot.MaxDate | calplot/calendar_map.py:83 | `index.max()` is an element of the index and no element is larger |
| CalendarPlot.RangeStart | calplot/calendar_map.py:82 | as written, the range starts on the first Monday strictly after the earliest date |
| CalendarPlot.RangeStop | calplot/calendar_map.py:83 | as written, the range stops on the Sunday six days after the first Monday strictly after the latest date |
| CalendarPlot.DateRange | calplot/calendar_map.py:84 | `date_range` holds every day from start to stop, in order |
| CalendarPlot.ValueAt | calplot/calendar_map.py:84 | a day takes the value of the observation at that day, and is missing when there is none |
| CalendarPlot.HasDuplicateDates | calplot/calendar_map.py:84 | `reindex` refuses an index with a repeated date; `NormalizeAsWritten` and `Normalize` fail with `DuplicateLabels` exactly then |
| CalendarPlot.Reindex | calplot/calendar_map.py:84 | `reindex` gives one value per target day: the value of the observation at that day, and missing when the index lacks the day; `ReindexedValue` states both directions over the range |
| CalendarPlot.Spread | calplot/calendar_map.py:84 | reindexing gives one value per day of the range |
| CalendarPlot.NormalizeAsWritten | calplot/calendar_map.py:82-84 | as written, the range fails on an empty series and on repeated dates, and otherwise has one value per day |
| CalendarPlot.WeekRangeAsWritten | calplot/calendar_map.py:82-83 | the range as written is whole weeks, at most 13 days longer than the series' span |
| CalendarPlot.NormalizedRangeAsWritten | calplot/calendar_map.py:82-84 | as written, the range is whole weeks from the Monday after the earliest date to the Sunday closing the week after the latest |
| CalendarPlot.EarliestDateDropped | calplot/calendar_map.py:82 | as written, the earliest date is never in the range, and a date is in it exactly when it is on or after the first Monday |
| CalendarPlot.RangeOneWeekLate | calplot/calendar_map.py:82-83 | the range as written is the intended range moved one week later at both ends |
| CalendarPlot.SingleObservationVanishes | calplot/calendar_map.py:82-84 | as written, a single observation leaves every cell missing |
| CalendarPlot.WeekStart | calplot/calendar_map.py:82 | the corrected range starts on the Monday on or before the earliest date |
| CalendarPlot.WeekEnd | calplot/calendar_map.py:83 | the corrected range ends on the Sunday on or after the latest date |
| CalendarPlot.Normalize | calplot/calendar_map.py:82-84 | the corrected range fails on an empty series and on repeated dates, and otherwise has one value per day |
| CalendarPlot.WeekRange | calplot/calendar_map.py:82-83 | the corrected range is whole weeks, at most 13 days longer than the series' span |
| CalendarPlot.NormalizedRange | calplot/calendar_map.py:82-84 | the corrected range is whole weeks from the Monday on or before the earliest date to the Sunday on or after the latest, and holds every date of the series |
| CalendarPlot.ReindexedValue | calplot/calendar_map.py:84 | a day of the range holds v exactly when the series has (day, v), and is missing exactly when the day is not in the index |
| CalendarPlot.EveryObservationDrawn | calplot/calendar_map.py:82-84 | every observation appears in the range with its value |
| CalendarPlot.ShortRunFrame | calplot/calendar_map.py:100 | a run of at most 52 whole weeks gives a frame whose cells are the values cut into weeks |
| CalendarPlot.ShortSeriesFrame | calplot/calendar_map.py:82-100 | over the corrected range, a series spanning at most 351 days fills at most 52 rows, and reading its frame row-major gives back the reindexed values |
| CalendarPlot.ShortSeriesFrameAsWritten | calplot/calendar_map.py:82-100 | over the range as written, a series spanning at most 351 days fills at most 52 rows, and reading its frame row-major gives back the reindexed values |
| CalendarPlot.LongRunsHaveDuplicateCell | calplot/calendar_map.py:32-38 | a run of 54 weeks or more puts two dates on the same (week number, weekday) |
| CalendarPlot.LongSeriesFails | calplot/calendar_map.py:82-100 | over the corrected range, a series whose range holds 54 weeks or more makes `unstack` fail |
| CalendarPlot.LongSeriesFailsAsWritten | calplot/calendar_map.py:82-100 | over the range as written, a series whose range holds 54 weeks or more makes `unstack` fail |
| CalendarPlot.AnnotationsMatchCells | calplot/calendar_map.py:100-109 | the text in cell (c, r) is the day of the month of the date whose value fills row r, column c of the frame |
| CalendarPlot.FrameArgumentsAsWritten | calplot/calendar_map.py:100 | as written, a `show_dates` key in `kwds_calendar` makes the frame call fail |
| CalendarPlot.ShowDatesCannotBeSwitchedOff | calplot/calendar_map.py:100-108 | as written, any call that gets past line 100 writes the dates |
| CalendarPlot.FrameArguments | calplot/calendar_map.py:100 | the corrected frame arguments are those of line 100 whenever that call succeeds |
| CalendarPlot.ShowsDates | calplot/calendar_map.py:108 | `kwds_calendar.get("show_dates", True)`: true when the key is absent, else its value |
| CalendarPlot.NoKeywordsAccepted | calplot/calendar_map.py:89-90 | with `kwds_calendar=None` the call at line 100 receives the frame defaults and the dates are written |
| CalendarPlot.CalendarAsWritten | calplot/calendar_map.py:80-110 | as written, `calendar` fails on an empty series, repeated dates, a `show_dates` key or a failing frame, and otherwise returns the frame with every date written |
| CalendarPlot.Calendar | calplot/calendar_map.py:80-110 | corrected `calendar` returns the frame of the corrected range; it writes the dates unless `show_dates` is false |

## Left out

- Drawing: the seaborn heatmap, `tick_params`, `set_facecolor`, and the `ax.text` styling and half-cell offsets (lines 12-16, 101-106). The model keeps the frame and the integer cell of each text.
- The `kwds_plot` defaults and their merge with `**kwargs` (lines 92-98): they only reach seaborn.
- The `pd.Series` / `pd.DataFrame` dispatch of `generate_calendar_frame` (lines 19-26): the model's frame always takes `dates` and `values` as `calendar` passes them at line 100.
- A `data` key in `kwds_calendar`: it is a parameter of `generate_calendar_frame` (line 18), so the call is accepted, and a Series with a DatetimeIndex there replaces the values (lines 20-22). The model has no such key.
- `dates` or `values` keys in `kwds_calendar`: they clash with the arguments of line 100 and raise TypeError ("got multiple values"). The model has no such keys.
- Any other unknown key in `kwds_calendar` raises TypeError at line 100, as `show_dates` does. The model has only `show_dates`.
- The pandas Timestamp range (1677-09-21 .. 2262-04-11): near its upper end, `max + Week(...)` at line 83 raises OutOfBoundsDatetime. `Day` is unbounded and never fails.
- Locale: `calendar.day_name`, `calendar.day_abbr` and `strftime("%b")` follow the current locale. `DayNames`, `DayAbbrs` and `MonthAbbrs` are fixed in English.
- Values are of an opaque type `V`. NaN is `None`, and seaborn's colour mapping of values is not modelled.
- Time of day and time zones: dates are whole days.
- CalendarFrame.Lower: lowers ASCII letters only. No other character lowers to a letter of "name" or "abbr", so the comparisons of lines 46-48 are unaffected.
- CalendarFrame.MonthLabels: states only the length. The meaning of each label is proved separately, in CalendarFrame.MonthLabelOfDate.
- A pandas `Series` index that is not a `DatetimeIndex` is not modelled.

## Findings

| source | as written | input that shows it | evidently intended | confidence | as-written member | corrected member |
|---|---|---|---|---|---|---|
| calplot/calendar_map.py:82-83 | `min + Week(weekday=0)` and `max + Week(weekday=0) + Week(weekday=6)` move to the first Monday strictly after each end. The range therefore starts a week after the Monday on or before the earliest date and ends a week after the Sunday on or after the latest date, so the earliest observation is never drawn | a single observation on Saturday 2019-06-01 gives the range 2019-06-03 .. 2019-06-09, one row with every cell missing | the range runs from the Monday on or before the earliest date to the Sunday on or after the latest date | high; not executed | CalendarPlot.NormalizeAsWritten, CalendarPlot.EarliestDateDropped, CalendarPlot.SingleObservationVanishes, CalendarPlot.RangeOneWeekLate | CalendarPlot.Normalize, CalendarPlot.NormalizedRange, CalendarPlot.EveryObservationDrawn |
| calplot/calendar_map.py:100-108 | every key of `kwds_calendar` is passed to `generate_calendar_frame`, which has no `show_dates` parameter, so the `show_dates` switch read at line 108 can only be absent | `calendar(ts, kwds_calendar={"show_dates": False})` raises TypeError at line 100 | `show_dates` is read at line 108 and kept out of the frame's keyword arguments | high; not executed | CalendarPlot.FrameArgumentsAsWritten, CalendarPlot.ShowDatesCannotBeSwitchedOff, CalendarPlot.CalendarAsWritten | CalendarPlot.FrameArguments, CalendarPlot.Calendar |
