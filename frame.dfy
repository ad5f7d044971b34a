/** `generate_calendar_frame` (calplot/calendar_map.py): pivots dated values into a
    table with one row per ISO week number and one column per weekday, then
    relabels the columns with weekday names and the rows with year, month and
    week labels. */
module CalendarFrame {
  import opened Wrappers
  import opened Dates
  import opened Sequences

  /** The `dayofweek_labels` argument: a string, `None`, or a list. */
  datatype LabelArg = LabelText(text: string) | LabelNone | LabelList(items: seq<string>)

  /** The `show_month` argument: a boolean or a string. */
  datatype MonthArg = MonthFlag(on: bool) | MonthText(text: string)

  /** A month row label: `month_name()` / `strftime("%b")` text, or the month number. */
  datatype MonthLabel = MonthNumber(number: int) | MonthString(text: string)

  datatype FrameOptions = FrameOptions(
    dayofweekLabels: LabelArg,
    showYear: bool,
    showMonth: MonthArg,
    showWeek: bool)

  /** The keyword defaults of `generate_calendar_frame`. */
  const DefaultOptions: FrameOptions := FrameOptions(LabelText("name"), true, MonthFlag(true), true)

  datatype FrameError =
    | ShapeMismatch            // the DataFrame constructor: dates and values differ in length
    | DuplicateEntries         // `unstack`: two dates fall on the same (week number, weekday)
    | NoLowerMethod            // `dayofweek_labels.lower()` on None or a list: AttributeError
    | UnknownLabelType(given: string)  // KeyError("Unknown label type: ...")
    | LabelLengthMismatch      // `set_index` with a year/month label array of another length

  /** The unstacked table: row keys (ISO week numbers), column keys (weekdays) and cells. */
  datatype Pivoted<V> = Pivoted(weeks: seq<int>, weekdays: seq<int>, cells: seq<seq<Option<V>>>)

  /** The returned DataFrame: cells, column labels, index level names and the
      requested index levels. */
  datatype Frame<V> = Frame(
    cells: seq<seq<Option<V>>>,
    columns: seq<string>,
    indexNames: seq<string>,
    years: Option<seq<int>>,
    months: Option<seq<MonthLabel>>,
    weeks: Option<seq<int>>)

  predicate Ascending(s: seq<int>) {
    forall i, j :: 0 <= i < j < |s| ==> s[i] < s[j]
  }

  /** The "week of year" column (line 32). */
  function WeekNumbers(dates: seq<Day>): (r: seq<int>)
    ensures |r| == |dates|
    ensures forall i :: 0 <= i < |dates| ==> 1 <= r[i] <= 53
  {
    seq(|dates|, i requires 0 <= i < |dates| => IsoWeek(dates[i]))
  }

  /** The "day of week" column (line 31). */
  function Weekdays(dates: seq<Day>): (r: seq<int>)
    ensures |r| == |dates|
    ensures forall i :: 0 <= i < |dates| ==> 0 <= r[i] < 7
  {
    seq(|dates|, i requires 0 <= i < |dates| => Weekday(dates[i]))
  }

  // ---------------------------------------------------------------------------
  // Lines 37-39: index on (week of year, day of week), unstack the weekdays,
  // reorder the rows. `weeks`, `days` and `values` are the three columns.

  /** Two rows carry the same (week of year, day of week) pair: `unstack` refuses the index. */
  predicate HasDuplicateCell(weeks: seq<int>, days: seq<int>)
    requires |weeks| == |days|
  {
    exists i, j :: 0 <= i < j < |weeks| && weeks[i] == weeks[j] && days[i] == days[j]
  }

  /** Weekday numbers, Monday = 0 .. Sunday = 6. */
  const AllWeekdays: seq<int> := seq(7, i => i)

  /** The weekdays from `c` on that occur in `days`, ascending: the columns `unstack` creates. */
  function WeekdaysFrom(days: seq<int>, c: int): (r: seq<int>)
    requires 0 <= c <= 7
    ensures Ascending(r)
    ensures forall k :: 0 <= k < |r| ==> c <= r[k] < 7 && r[k] in days
    ensures forall x :: c <= x < 7 && x in days ==> x in r
    decreases 7 - c
  {
    if c == 7 then []
    else
      var rest := WeekdaysFrom(days, c + 1);
      var head := if c in days then [c] else [];
      assert Ascending(head + rest) by {
        forall i, j | 0 <= i < j < |head + rest|
          ensures (head + rest)[i] < (head + rest)[j]
        {
          if i < |head| {
            assert (head + rest)[j] == rest[j - 1];
          }
        }
      }
      head + rest
  }

  /** The value of the row indexed (`w`, `c`); missing when there is none. */
  function CellValue<V>(weeks: seq<int>, days: seq<int>, values: seq<Option<V>>, w: int, c: int)
    : (r: Option<V>)
    requires |weeks| == |days| == |values|
    requires !HasDuplicateCell(weeks, days)
    ensures forall i :: 0 <= i < |weeks| && weeks[i] == w && days[i] == c ==> r == values[i]
    ensures (forall i :: 0 <= i < |weeks| ==> weeks[i] != w || days[i] != c) ==> r == None
  {
    if weeks == [] then None
    else if weeks[0] == w && days[0] == c then values[0]
    else
      assert !HasDuplicateCell(weeks[1..], days[1..]) by {
        forall i, j | 0 <= i < j < |weeks| - 1
          ensures weeks[1..][i] != weeks[1..][j] || days[1..][i] != days[1..][j]
        {
          assert weeks[1..][i] == weeks[i + 1] && weeks[1..][j] == weeks[j + 1];
          assert days[1..][i] == days[i + 1] && days[1..][j] == days[j + 1];
        }
      }
      CellValue(weeks[1..], days[1..], values[1..], w, c)
  }

  /** The row keys are the distinct week numbers, in order of first appearance. */
  ghost predicate RowKeysSpec(weeks: seq<int>, keys: seq<int>) {
    && Distinct(keys)
    && (forall w :: w in keys <==> w in weeks)
    && (forall k, l :: 0 <= k < l < |keys| ==> FirstIndex(weeks, keys[k]) < FirstIndex(weeks, keys[l]))
  }

  /** The column keys are the weekdays that occur, ascending. */
  ghost predicate ColumnKeysSpec(days: seq<int>, cols: seq<int>) {
    && Ascending(cols)
    && (forall k :: 0 <= k < |cols| ==> cols[k] in days)
    && (forall i :: 0 <= i < |days| ==> days[i] in cols)
  }

  /** Every cell holds the value of the row indexed by its (row key, column key),
      and is missing when no row is. */
  ghost predicate CellsSpec<V>(weeks: seq<int>, days: seq<int>, values: seq<Option<V>>,
                               keys: seq<int>, cols: seq<int>, cells: seq<seq<Option<V>>>)
    requires |weeks| == |days| == |values|
  {
    && |cells| == |keys|
    && (forall k :: 0 <= k < |keys| ==> |cells[k]| == |cols|)
    && (forall k, l, i ::
          (0 <= k < |keys| && 0 <= l < |cols| && 0 <= i < |weeks| && weeks[i] == keys[k] && days[i] == cols[l])
          ==> cells[k][l] == values[i])
    && (forall k, l ::
          (0 <= k < |keys| && 0 <= l < |cols| &&
           forall i :: 0 <= i < |weeks| ==> weeks[i] != keys[k] || days[i] != cols[l])
          ==> cells[k][l] == None)
  }

  /** `weekofday_order` (line 35): the week numbers in order of first appearance. */
  function RowKeys(weeks: seq<int>): (keys: seq<int>)
    ensures RowKeysSpec(weeks, keys)
  {
    var keys := Unique(weeks);
    assert forall k, l :: 0 <= k < l < |keys| ==> FirstIndex(weeks, keys[k]) < FirstIndex(weeks, keys[l]) by {
      forall k, l | 0 <= k < l < |keys|
        ensures FirstIndex(weeks, keys[k]) < FirstIndex(weeks, keys[l])
      {
        UniqueFirstSeen(weeks, k, l);
      }
    }
    keys
  }

  /** The table `unstack` fills, one row per row key and one column per column key. */
  function Cells<V>(weeks: seq<int>, days: seq<int>, values: seq<Option<V>>, keys: seq<int>, cols: seq<int>)
    : (cells: seq<seq<Option<V>>>)
    requires |weeks| == |days| == |values|
    requires !HasDuplicateCell(weeks, days)
    ensures CellsSpec(weeks, days, values, keys, cols, cells)
  {
    seq(|keys|, k requires 0 <= k < |keys| =>
      seq(|cols|, l requires 0 <= l < |cols| => CellValue(weeks, days, values, keys[k], cols[l])))
  }

  /** Lines 37-39: set the index to (week of year, day of week), unstack the
      weekdays into columns and reorder the rows into first-seen week order. */
  function Pivot<V>(weeks: seq<int>, days: seq<int>, values: seq<Option<V>>): (r: Result<Pivoted<V>, FrameError>)
    requires |weeks| == |days| == |values|
    requires forall i :: 0 <= i < |days| ==> 0 <= days[i] < 7
    ensures r.Failure? <==> HasDuplicateCell(weeks, days)
    ensures r.Failure? ==> r.error == DuplicateEntries
    ensures r.Success? ==> RowKeysSpec(weeks, r.value.weeks)
    ensures r.Success? ==> ColumnKeysSpec(days, r.value.weekdays)
    ensures r.Success? ==> forall k :: 0 <= k < |r.value.weekdays| ==> 0 <= r.value.weekdays[k] < 7
    ensures r.Success? ==> CellsSpec(weeks, days, values, r.value.weeks, r.value.weekdays, r.value.cells)
  {
    if HasDuplicateCell(weeks, days) then Failure(DuplicateEntries)
    else
      var keys := RowKeys(weeks);
      var cols := WeekdaysFrom(days, 0);
      Success(Pivoted(keys, cols, Cells(weeks, days, values, keys, cols)))
  }

  lemma {:induction false} AllWeekdaysFrom(days: seq<int>, c: int)
    requires 0 <= c <= 7 && |days| >= 7
    requires forall x :: 0 <= x < 7 ==> days[x] == x
    ensures WeekdaysFrom(days, c) == AllWeekdays[c..]
    decreases 7 - c
  {
    if c < 7 {
      AllWeekdaysFrom(days, c + 1);
      assert days[c] == c;
      assert AllWeekdays[c..] == [c] + AllWeekdays[c + 1..];
    }
  }

  /** Columns made of whole weeks (row i in week i / 7, on weekday i % 7) with
      distinct week numbers do not clash in `unstack`. */
  lemma WholeWeeksHaveNoDuplicateCell(weeks: seq<int>, days: seq<int>, keys: seq<int>)
    requires |weeks| == |days| == 7 * |keys|
    requires forall i :: 0 <= i < |weeks| ==> weeks[i] == keys[i / 7] && days[i] == i % 7
    requires Distinct(keys)
    ensures !HasDuplicateCell(weeks, days)
  {
  }

  /** Whole weeks hold every weekday, so `unstack` makes the seven columns Monday to Sunday. */
  lemma WholeWeeksColumnKeys(days: seq<int>)
    requires |days| >= 7
    requires forall x :: 0 <= x < 7 ==> days[x] == x
    ensures WeekdaysFrom(days, 0) == AllWeekdays
  {
    AllWeekdaysFrom(days, 0);
    assert AllWeekdays[0..] == AllWeekdays;
  }

  /** The cells of whole weeks are the values cut into rows of seven. */
  lemma WholeWeeksCells<V>(weeks: seq<int>, days: seq<int>, values: seq<Option<V>>, keys: seq<int>,
                           cells: seq<seq<Option<V>>>)
    requires |weeks| == |days| == |values| == 7 * |keys|
    requires forall i :: 0 <= i < |weeks| ==> weeks[i] == keys[i / 7] && days[i] == i % 7
    requires CellsSpec(weeks, days, values, keys, AllWeekdays, cells)
    ensures cells == SplitWeeks(values)
  {
    var split := SplitWeeks(values);
    forall r | 0 <= r < |keys|
      ensures cells[r] == split[r]
    {
      forall c | 0 <= c < 7
        ensures cells[r][c] == split[r][c]
      {
        var i := 7 * r + c;
        assert i / 7 == r && i % 7 == c;
        assert weeks[i] == keys[r] && days[i] == AllWeekdays[c];
      }
    }
  }

  /** Whole weeks with distinct week numbers pivot into one row per week, in
      order, with the seven weekday columns Monday to Sunday, and row r holding
      values 7r .. 7r + 6. */
  lemma PivotWholeWeeks<V>(weeks: seq<int>, days: seq<int>, values: seq<Option<V>>, keys: seq<int>)
    requires |weeks| == |days| == |values| == 7 * |keys| && |keys| > 0
    requires forall i :: 0 <= i < |weeks| ==> weeks[i] == keys[i / 7] && days[i] == i % 7
    requires Distinct(keys)
    ensures Pivot(weeks, days, values) == Success(Pivoted(keys, AllWeekdays, SplitWeeks(values)))
  {
    WholeWeeksHaveNoDuplicateCell(weeks, days, keys);
    UniqueOfWeeks(weeks, keys);
    WholeWeeksColumnKeys(days);
    var cells := Cells(weeks, days, values, keys, AllWeekdays);
    WholeWeeksCells(weeks, days, values, keys, cells);
  }

  /** ASCII `str.lower()` on one character. */
  function LowerChar(ch: char): char {
    if 'A' <= ch <= 'Z' then (ch as int + 32) as char else ch
  }

  /** `str.lower()`, on the ASCII letters: no other character lowers to a letter of
      "name" or "abbr", so comparing with those two words is unaffected. */
  function Lower(s: string): (r: string)
    ensures |r| == |s|
    ensures forall i :: 0 <= i < |s| ==> r[i] == LowerChar(s[i])
  {
    seq(|s|, i requires 0 <= i < |s| => LowerChar(s[i]))
  }

  lemma LowerIdempotent(s: string)
    ensures Lower(Lower(s)) == Lower(s)
  {
  }

  /** Lines 44-51: relabel the weekday columns with `calendar.day_name` or
      `calendar.day_abbr`; any other string raises KeyError, and a non-string has
      no `lower()`. */
  function ColumnLabels(arg: LabelArg, weekdays: seq<int>): (r: Result<seq<string>, FrameError>)
    requires forall k :: 0 <= k < |weekdays| ==> 0 <= weekdays[k] < 7
    ensures r.Success? <==> arg.LabelText? && Lower(arg.text) in {"name", "abbr"}
    ensures arg.LabelText? && Lower(arg.text) !in {"name", "abbr"} ==> r == Failure(UnknownLabelType(arg.text))
    ensures !arg.LabelText? ==> r == Failure(NoLowerMethod)
    ensures r.Success? ==> |r.value| == |weekdays|
    ensures r.Success? ==> forall k :: 0 <= k < |weekdays| ==>
      r.value[k] == (if Lower(arg.text) == "name" then DayNames else DayAbbrs)[weekdays[k]]
  {
    match arg
    case LabelText(text) =>
      if Lower(text) == "name" then Success(seq(|weekdays|, k requires 0 <= k < |weekdays| => DayNames[weekdays[k]]))
      else if Lower(text) == "abbr" then Success(seq(|weekdays|, k requires 0 <= k < |weekdays| => DayAbbrs[weekdays[k]]))
      else Failure(UnknownLabelType(text))
    case _ => Failure(NoLowerMethod)
  }

  /** The label choice is case-insensitive: any spelling of "name" or "abbr" relabels alike. */
  lemma {:induction false} ColumnLabelsIgnoreCase(text: string, weekdays: seq<int>)
    requires forall k :: 0 <= k < |weekdays| ==> 0 <= weekdays[k] < 7
    requires Lower(text) in {"name", "abbr"}
    ensures ColumnLabels(LabelText(text), weekdays) == ColumnLabels(LabelText(Lower(text)), weekdays)
  {
    LowerIdempotent(text);
  }

  /** Python truthiness of `show_month`. */
  predicate MonthShown(arg: MonthArg) {
    match arg
    case MonthFlag(on) => on
    case MonthText(text) => text != ""
  }

  /** Line 66: the month of `d` as a full name for "name", as `%b` for "abbr",
      and as its number for any other truthy value. */
  function MonthLabelOf(arg: MonthArg, d: Day): MonthLabel {
    if arg == MonthText("name") then MonthString(MonthNames[MonthOf(d) - 1])
    else if arg == MonthText("abbr") then MonthString(MonthAbbrs[MonthOf(d) - 1])
    else MonthNumber(MonthOf(d))
  }

  /** Line 55: `bow`, the distinct `date + Week(weekday=0)` in order of first appearance. */
  function NextMondays(dates: seq<Day>): (bow: seq<Day>)
    ensures forall m :: m in bow ==> Weekday(m) == 0
  {
    Unique(seq(|dates|, i requires 0 <= i < |dates| => AddAnchoredWeek(dates[i], 0)))
  }

  /** Lines 59-76: the names of the requested index levels, in the order Year, Month, Week. */
  function IndexNames(opts: FrameOptions): (names: seq<string>)
    ensures "Year" in names <==> opts.showYear
    ensures "Month" in names <==> MonthShown(opts.showMonth)
    ensures "Week" in names <==> opts.showWeek
    ensures Distinct(names) && |names| <= 3
    ensures forall n :: n in names ==> n in ["Year", "Month", "Week"]
    ensures opts.showYear ==> names[0] == "Year"
    ensures opts.showWeek ==> names[|names| - 1] == "Week"
  {
    (if opts.showYear then ["Year"] else [])
    + (if MonthShown(opts.showMonth) then ["Month"] else [])
    + (if opts.showWeek then ["Week"] else [])
  }

  /** Line 61: `bow.year`. */
  function YearLabels(bow: seq<Day>): (years: seq<int>)
    ensures |years| == |bow|
    ensures forall k :: 0 <= k < |bow| ==> YearStart(years[k]) <= bow[k] < YearStart(years[k] + 1)
  {
    seq(|bow|, k requires 0 <= k < |bow| => YearOf(bow[k]))
  }

  /** Line 66: the month labels of `bow`. */
  function MonthLabels(arg: MonthArg, bow: seq<Day>): (months: seq<MonthLabel>)
    ensures |months| == |bow|
  {
    seq(|bow|, k requires 0 <= k < |bow| => MonthLabelOf(arg, bow[k]))
  }

  /** The month label of a calendar date names that date's month: its full name
      for "name", its abbreviation for "abbr", and its number otherwise. */
  lemma MonthLabelOfDate(arg: MonthArg, c: Civil)
    requires ValidCivil(c)
    ensures arg == MonthText("name") ==> MonthLabelOf(arg, FromCivil(c)) == MonthString(MonthNames[c.month - 1])
    ensures arg == MonthText("abbr") ==> MonthLabelOf(arg, FromCivil(c)) == MonthString(MonthAbbrs[c.month - 1])
    ensures arg != MonthText("name") && arg != MonthText("abbr") ==> MonthLabelOf(arg, FromCivil(c)) == MonthNumber(c.month)
  {
    CivilRoundTrip(c);
  }

  /** Lines 54-76: attach the requested index levels to the unstacked table. A
      year or month level built from `bow` must have one label per row. */
  function AttachIndex<V>(p: Pivoted<V>, columns: seq<string>, bow: seq<Day>, opts: FrameOptions)
    : (r: Result<Frame<V>, FrameError>)
    ensures r.Failure? <==> (opts.showYear || MonthShown(opts.showMonth)) && |bow| != |p.weeks|
    ensures r.Failure? ==> r.error == LabelLengthMismatch
    ensures r.Success? ==>
      && r.value.cells == p.cells
      && r.value.columns == columns
      && r.value.indexNames == IndexNames(opts)
      && r.value.years == (if opts.showYear then Some(YearLabels(bow)) else None)
      && r.value.months == (if MonthShown(opts.showMonth) then Some(MonthLabels(opts.showMonth, bow)) else None)
      && r.value.weeks == (if opts.showWeek then Some(p.weeks) else None)
  {
    if (opts.showYear || MonthShown(opts.showMonth)) && |bow| != |p.weeks| then Failure(LabelLengthMismatch)
    else
      Success(Frame(
        p.cells,
        columns,
        IndexNames(opts),
        if opts.showYear then Some(YearLabels(bow)) else None,
        if MonthShown(opts.showMonth) then Some(MonthLabels(opts.showMonth, bow)) else None,
        if opts.showWeek then Some(p.weeks) else None))
  }

  /** `generate_calendar_frame(dates=..., values=..., **opts)` for a DatetimeIndex
      `dates` and a value array (lines 29-77). */
  function GenerateCalendarFrame<V>(dates: seq<Day>, values: seq<Option<V>>, opts: FrameOptions)
    : (r: Result<Frame<V>, FrameError>)
    ensures |dates| != |values| ==> r == Failure(ShapeMismatch)
    ensures |dates| == |values| && HasDuplicateCell(WeekNumbers(dates), Weekdays(dates)) ==>
      r == Failure(DuplicateEntries)
    ensures |dates| == |values| && !HasDuplicateCell(WeekNumbers(dates), Weekdays(dates)) ==>
      && (!opts.dayofweekLabels.LabelText? ==> r == Failure(NoLowerMethod))
      && (opts.dayofweekLabels.LabelText? && Lower(opts.dayofweekLabels.text) !in {"name", "abbr"} ==>
            r == Failure(UnknownLabelType(opts.dayofweekLabels.text)))
    ensures r.Success? <==>
      && |dates| == |values|
      && !HasDuplicateCell(WeekNumbers(dates), Weekdays(dates))
      && opts.dayofweekLabels.LabelText? && Lower(opts.dayofweekLabels.text) in {"name", "abbr"}
      && !((opts.showYear || MonthShown(opts.showMonth)) && |NextMondays(dates)| != |RowKeys(WeekNumbers(dates))|)
  {
    if |dates| != |values| then Failure(ShapeMismatch)
    else
      var p :- Pivot(WeekNumbers(dates), Weekdays(dates), values);
      var columns :- ColumnLabels(opts.dayofweekLabels, p.weekdays);
      AttachIndex(p, columns, NextMondays(dates), opts)
  }

  // ---------------------------------------------------------------------------
  // Dates forming whole Monday-to-Sunday weeks, as `calendar` passes them.

  /** `dates` is the run of consecutive days from the Monday `start`, in whole weeks. */
  ghost predicate WholeWeeks(dates: seq<Day>, start: Day) {
    Weekday(start) == 0 && |dates| % 7 == 0 && forall i :: 0 <= i < |dates| ==> dates[i] == start + i
  }

  /** ISO week number of row `r` of a run starting on Monday `start`. */
  function RowWeek(start: Day, r: int): (w: int)
    ensures 1 <= w <= 53
  {
    IsoWeek(start + 7 * r)
  }

  /** The week numbers of the `n` rows of a run from Monday `start`. */
  function RowWeeks(start: Day, n: nat): (weeks: seq<int>)
    ensures |weeks| == n
  {
    seq(n, r requires 0 <= r < n => RowWeek(start, r))
  }

  /** The Monday after each of the `n` weeks of a run from Monday `start`. */
  function RowMondays(start: Day, n: nat): (mondays: seq<Day>)
    ensures |mondays| == n
  {
    seq(n, r requires 0 <= r < n => start + 7 * (r + 1))
  }

  lemma DayOfRun(start: Day, i: int)
    requires Weekday(start) == 0 && 0 <= i
    ensures Weekday(start + i) == i % 7
    ensures WeekMonday(start + i) == start + 7 * (i / 7)
    ensures AddAnchoredWeek(start + i, 0) == start + 7 * (i / 7 + 1)
  {
    assert start + i == start + 7 * (i / 7) + i % 7;
  }

  /** Day `i` of the run lies in row `i / 7` and has that row's week number. */
  lemma WeekOfRun(start: Day, i: int, d: Day)
    requires Weekday(start) == 0 && 0 <= i && d == start + i
    ensures IsoWeek(d) == RowWeek(start, i / 7)
  {
    DayOfRun(start, i);
    DayOfRun(start, 7 * (i / 7));
    IsoWeekPerWeek(d, start + 7 * (i / 7));
  }

  /** A run of at most 52 weeks never meets the same ISO week number twice. */
  lemma ShortRunsHaveDistinctWeekNumbers(start: Day, n: nat)
    requires Weekday(start) == 0 && n <= 52
    ensures Distinct(RowWeeks(start, n))
  {
    var weeks := RowWeeks(start, n);
    forall r1, r2 | 0 <= r1 < r2 < n
      ensures weeks[r1] != weeks[r2]
    {
      RunWeeksDistinct(start, r1, r2);
    }
  }

  /** A run of 54 weeks or more meets some ISO week number twice (there are at most 53). */
  lemma LongRunsRepeatWeekNumbers(start: Day, n: nat)
    requires n >= 54
    ensures !Distinct(RowWeeks(start, n))
  {
    var weeks := RowWeeks(start, n);
    if Distinct(weeks) {
      DistinctBounded(weeks, 1, 54);
    }
  }

  /** The "week of year" column of a whole-week run repeats each row's week number seven times. */
  lemma WholeWeeksWeekNumbers(dates: seq<Day>, start: Day)
    requires WholeWeeks(dates, start)
    ensures forall i :: 0 <= i < |dates| ==> WeekNumbers(dates)[i] == RowWeeks(start, |dates| / 7)[i / 7]
  {
    var weeks := RowWeeks(start, |dates| / 7);
    forall i | 0 <= i < |dates|
      ensures WeekNumbers(dates)[i] == weeks[i / 7]
    {
      WeekNumberOfRunDay(dates, start, i);
    }
  }

  lemma WeekNumberOfRunDay(dates: seq<Day>, start: Day, i: int)
    requires WholeWeeks(dates, start) && 0 <= i < |dates|
    ensures WeekNumbers(dates)[i] == RowWeek(start, i / 7)
  {
    WeekOfRun(start, i, dates[i]);
  }

  /** Row `r` of a whole-week run begins with a Monday carrying the row's week number. */
  lemma WholeWeeksRowMonday(dates: seq<Day>, start: Day, r: int)
    requires WholeWeeks(dates, start) && 0 <= r < |dates| / 7
    ensures 7 * r < |dates|
    ensures WeekNumbers(dates)[7 * r] == RowWeek(start, r)
    ensures Weekdays(dates)[7 * r] == 0
  {
    MondayShift(start, r);
    assert dates[7 * r] == start + 7 * r;
  }

  /** The "day of week" column of a whole-week run cycles Monday to Sunday. */
  lemma WholeWeeksWeekdays(dates: seq<Day>, start: Day)
    requires WholeWeeks(dates, start)
    ensures forall i :: 0 <= i < |dates| ==> Weekdays(dates)[i] == i % 7
  {
    forall i | 0 <= i < |dates|
      ensures Weekdays(dates)[i] == i % 7
    {
      DayOfRun(start, i);
    }
  }

  /** `bow` of a whole-week run: the Monday after each week, one per row. */
  lemma WholeWeeksNextMondays(dates: seq<Day>, start: Day)
    requires WholeWeeks(dates, start)
    ensures NextMondays(dates) == RowMondays(start, |dates| / 7)
  {
    var keys := RowMondays(start, |dates| / 7);
    var shifted := seq(|dates|, i requires 0 <= i < |dates| => AddAnchoredWeek(dates[i], 0));
    forall i | 0 <= i < |dates|
      ensures shifted[i] == keys[i / 7]
    {
      DayOfRun(start, i);
    }
    forall r1, r2 | 0 <= r1 < r2 < |keys|
      ensures keys[r1] != keys[r2]
    {
    }
    UniqueOfWeeks(shifted, keys);
  }

  /** With every weekday present, the columns are the full weekday names or abbreviations. */
  lemma ColumnLabelsOfWholeWeeks(text: string)
    requires Lower(text) in {"name", "abbr"}
    ensures ColumnLabels(LabelText(text), AllWeekdays)
      == Success(if Lower(text) == "name" then DayNames else DayAbbrs)
  {
    var r := ColumnLabels(LabelText(text), AllWeekdays).value;
    var table := if Lower(text) == "name" then DayNames else DayAbbrs;
    forall k | 0 <= k < 7
      ensures r[k] == table[k]
    {
      assert AllWeekdays[k] == k;
    }
    assert r == table;
  }

  /** The frame of a run of whole weeks with distinct week numbers: one row per
      week in date order, the seven weekday columns Monday to Sunday, row r
      holding the values of days 7r .. 7r + 6 (so reading it row-major gives the
      values back), and each row labelled with its ISO week number and with the
      year and month of the Monday after it. */
  lemma WholeWeeksFrame<V>(dates: seq<Day>, values: seq<Option<V>>, start: Day, opts: FrameOptions)
    requires WholeWeeks(dates, start) && |dates| > 0 && |values| == |dates|
    requires Distinct(RowWeeks(start, |dates| / 7))
    requires opts.dayofweekLabels.LabelText? && Lower(opts.dayofweekLabels.text) in {"name", "abbr"}
    ensures var r := GenerateCalendarFrame(dates, values, opts);
      && r.Success?
      && r.value.cells == SplitWeeks(values)
      && Flatten(r.value.cells) == values
      && r.value.columns == (if Lower(opts.dayofweekLabels.text) == "name" then DayNames else DayAbbrs)
      && r.value.indexNames == IndexNames(opts)
      && r.value.weeks == (if opts.showWeek then Some(RowWeeks(start, |dates| / 7)) else None)
      && r.value.years == (if opts.showYear then Some(YearLabels(RowMondays(start, |dates| / 7))) else None)
      && r.value.months ==
           (if MonthShown(opts.showMonth) then Some(MonthLabels(opts.showMonth, RowMondays(start, |dates| / 7)))
            else None)
  {
    var n := |dates| / 7;
    var weeks, days := WeekNumbers(dates), Weekdays(dates);
    WholeWeeksWeekNumbers(dates, start);
    WholeWeeksWeekdays(dates, start);
    PivotWholeWeeks(weeks, days, values, RowWeeks(start, n));
    ColumnLabelsOfWholeWeeks(opts.dayofweekLabels.text);
    WholeWeeksNextMondays(dates, start);
    FlattenSplitWeeks(values);
  }
}
