/** `calendar` (calplot/calendar_map.py): stretches a dated series onto whole
    Monday-to-Sunday weeks, builds the calendar frame from it and writes the day
    of the month into every cell. The heatmap drawing itself is not modelled:
    the result is the frame handed to it and the texts written over it. */
module CalendarPlot {
  import opened Wrappers
  import opened Dates
  import opened Sequences
  import opened CalendarFrame
  import opened DateAnnotations

  /** One observation of the time series: its index label and its value. */
  datatype Entry<V> = Entry(date: Day, value: V)

  /** The series after line 84: every day of the range, with its value or missing. */
  datatype Reindexed<V> = Reindexed(dates: seq<Day>, values: seq<Option<V>>)

  datatype CalendarError =
    | EmptySeries                  // `index.min()` is NaT and `date_range` refuses it: ValueError
    | DuplicateLabels              // `reindex` on an index with a repeated date: ValueError
    | FrameFailed(error: FrameError)
    | UnexpectedKeyword(name: string)  // TypeError from the call at line 100

  /** `kwds_calendar`: the keyword arguments of `generate_calendar_frame`, and
      `show_dates` when the caller gives one. `None` there means the key is absent. */
  datatype CalendarKeywords = CalendarKeywords(frame: FrameOptions, showDates: Option<bool>)

  /** What `calendar` hands to the heatmap: the frame, and the texts written over it. */
  datatype Plot<V> = Plot(frame: Frame<V>, annotations: seq<Annotation>)

  /** The index of the series. */
  function Index<V>(series: seq<Entry<V>>): (dates: seq<Day>)
    ensures |dates| == |series|
    ensures forall k :: 0 <= k < |series| ==> dates[k] == series[k].date
  {
    seq(|series|, k requires 0 <= k < |series| => series[k].date)
  }

  /** `index.min()`. */
  function MinDate(dates: seq<Day>): (lo: Day)
    requires |dates| > 0
    ensures lo in dates
    ensures forall k :: 0 <= k < |dates| ==> lo <= dates[k]
  {
    if |dates| == 1 then dates[0]
    else
      var rest := MinDate(dates[1..]);
      if dates[0] <= rest then dates[0] else rest
  }

  /** `index.max()`. */
  function MaxDate(dates: seq<Day>): (hi: Day)
    requires |dates| > 0
    ensures hi in dates
    ensures forall k :: 0 <= k < |dates| ==> dates[k] <= hi
  {
    if |dates| == 1 then dates[0]
    else
      var rest := MaxDate(dates[1..]);
      if dates[0] >= rest then dates[0] else rest
  }

  /** Line 82: `index.min() + Week(weekday=0)`, the first Monday strictly after `lo`. */
  function RangeStart(lo: Day): (start: Day)
    ensures Weekday(start) == 0
    ensures lo < start <= lo + 7
    ensures forall d :: lo < d < start ==> Weekday(d) != 0
  {
    AddAnchoredWeek(lo, 0)
  }

  /** Line 83: `index.max() + Week(weekday=0) + Week(weekday=6)`: the Sunday six
      days after the first Monday strictly after `hi`. */
  function RangeStop(hi: Day): (stop: Day)
    ensures Weekday(stop) == 6
    ensures Weekday(stop - 6) == 0
    ensures hi < stop - 6 <= hi + 7
    ensures forall d :: hi < d < stop - 6 ==> Weekday(d) != 0
  {
    var monday := AddAnchoredWeek(hi, 0);
    var sunday := AddAnchoredWeek(monday, 6);
    assert sunday == monday + 6;
    sunday
  }

  /** `pd.date_range(start, stop, freq="D")`: every day from `start` to `stop`, both included. */
  function DateRange(start: Day, stop: Day): (days: seq<Day>)
    requires start <= stop + 1
    ensures |days| == stop - start + 1
    ensures forall i :: 0 <= i < |days| ==> days[i] == start + i
  {
    seq(stop - start + 1, i requires 0 <= i < stop - start + 1 => start + i)
  }

  predicate HasDuplicateDates<V>(series: seq<Entry<V>>) {
    exists j, k :: 0 <= j < k < |series| && series[j].date == series[k].date
  }

  /** The value the series holds at day `d`, if any. */
  function ValueAt<V>(series: seq<Entry<V>>, d: Day): (r: Option<V>)
    requires !HasDuplicateDates(series)
    ensures forall k :: 0 <= k < |series| && series[k].date == d ==> r == Some(series[k].value)
    ensures (forall k :: 0 <= k < |series| ==> series[k].date != d) ==> r == None
  {
    if series == [] then None
    else if series[0].date == d then Some(series[0].value)
    else
      assert !HasDuplicateDates(series[1..]) by {
        forall j, k | 0 <= j < k < |series| - 1
          ensures series[1..][j].date != series[1..][k].date
        {
          assert series[1..][j] == series[j + 1] && series[1..][k] == series[k + 1];
        }
      }
      ValueAt(series[1..], d)
  }

  /** Line 84: `reindex` onto `days`; a day the series lacks is missing (NaN). */
  function Reindex<V>(series: seq<Entry<V>>, days: seq<Day>): (values: seq<Option<V>>)
    requires !HasDuplicateDates(series)
    ensures |values| == |days|
    ensures forall i, k :: 0 <= i < |days| && 0 <= k < |series| && series[k].date == days[i] ==>
      values[i] == Some(series[k].value)
    ensures forall i :: 0 <= i < |days| && days[i] !in Index(series) ==> values[i] == None
  {
    seq(|days|, i requires 0 <= i < |days| => ValueAt(series, days[i]))
  }

  /** Line 84: the series reindexed onto every day from `start` to `stop`. */
  function Spread<V>(series: seq<Entry<V>>, start: Day, stop: Day): (n: Reindexed<V>)
    requires !HasDuplicateDates(series) && start <= stop + 1
    ensures n.dates == DateRange(start, stop)
    ensures |n.values| == |n.dates|
  {
    var dates := DateRange(start, stop);
    Reindexed(dates, Reindex(series, dates))
  }

  /** Lines 82-84 as written: the range from the first Monday strictly after the
      earliest date to the Sunday that closes the week after the latest date. */
  function NormalizeAsWritten<V>(series: seq<Entry<V>>): (r: Result<Reindexed<V>, CalendarError>)
    ensures r.Success? <==> series != [] && !HasDuplicateDates(series)
    ensures series == [] ==> r == Failure(EmptySeries)
    ensures series != [] && HasDuplicateDates(series) ==> r == Failure(DuplicateLabels)
    ensures r.Success? ==> |r.value.values| == |r.value.dates|
  {
    if series == [] then Failure(EmptySeries)
    else if HasDuplicateDates(series) then Failure(DuplicateLabels)
    else Success(Spread(series, RangeStart(MinDate(Index(series))), RangeStop(MaxDate(Index(series)))))
  }

  /** The Monday on or before `lo`. */
  function WeekStart(lo: Day): (start: Day)
    ensures Weekday(start) == 0
    ensures lo - 6 <= start <= lo
    ensures forall d :: start < d <= lo ==> Weekday(d) != 0
  {
    lo - Weekday(lo)
  }

  /** The Sunday on or after `hi`. */
  function WeekEnd(hi: Day): (stop: Day)
    ensures Weekday(stop) == 6 && Weekday(stop - 6) == 0
    ensures hi <= stop <= hi + 6
    ensures forall d :: hi <= d < stop ==> Weekday(d) != 6
  {
    hi + (6 - Weekday(hi))
  }

  /** Lines 82-84 corrected: the range from the Monday on or before the earliest
      date to the Sunday on or after the latest date, so that every date of the
      series is drawn. */
  function Normalize<V>(series: seq<Entry<V>>): (r: Result<Reindexed<V>, CalendarError>)
    ensures r.Success? <==> series != [] && !HasDuplicateDates(series)
    ensures series == [] ==> r == Failure(EmptySeries)
    ensures series != [] && HasDuplicateDates(series) ==> r == Failure(DuplicateLabels)
    ensures r.Success? ==> |r.value.values| == |r.value.dates|
  {
    if series == [] then Failure(EmptySeries)
    else if HasDuplicateDates(series) then Failure(DuplicateLabels)
    else Success(Spread(series, WeekStart(MinDate(Index(series))), WeekEnd(MaxDate(Index(series)))))
  }

  /** Two Mondays are a whole number of weeks apart. */
  lemma MondaysWeeksApart(m: Day, n: Day)
    requires Weekday(m) == 0 && Weekday(n) == 0
    ensures (n - m) % 7 == 0
  {
    assert m == 7 * (m / 7) && n == 7 * (n / 7);
    assert n - m == 7 * (n / 7 - m / 7);
  }

  /** As written, from the Monday after `lo` to the Sunday closing the week after `hi`: whole weeks. */
  lemma WeekRangeAsWritten(lo: Day, hi: Day)
    requires lo <= hi
    ensures RangeStart(lo) <= RangeStop(hi) - 6
    ensures (RangeStop(hi) - RangeStart(lo) + 1) % 7 == 0
    ensures RangeStop(hi) - RangeStart(lo) + 1 <= hi - lo + 13
  {
    var start, stop := RangeStart(lo), RangeStop(hi);
    MondaysWeeksApart(start, stop - 6);
  }

  /** From the Monday on or before `lo` to the Sunday on or after `hi`: whole weeks. */
  lemma WeekRange(lo: Day, hi: Day)
    requires lo <= hi
    ensures WeekStart(lo) <= WeekEnd(hi) - 6
    ensures (WeekEnd(hi) - WeekStart(lo) + 1) % 7 == 0
    ensures WeekEnd(hi) - WeekStart(lo) + 1 <= hi - lo + 13
  {
    var start, stop := WeekStart(lo), WeekEnd(hi);
    MondaysWeeksApart(start, stop - 6);
  }

  /** As written, the range runs over whole weeks: it starts on the first Monday
      strictly after the earliest date, ends on the Sunday six days after the
      first Monday strictly after the latest date, and holds every day in between
      in ascending order. */
  lemma NormalizedRangeAsWritten<V>(series: seq<Entry<V>>)
    requires NormalizeAsWritten(series).Success?
    ensures var dates, lo, hi := NormalizeAsWritten(series).value.dates, MinDate(Index(series)), MaxDate(Index(series));
      && |dates| > 0 && |dates| % 7 == 0 && |dates| <= hi - lo + 13
      && Weekday(dates[0]) == 0 && Weekday(dates[|dates| - 1]) == 6
      && lo < dates[0] <= lo + 7 && (forall d :: lo < d < dates[0] ==> Weekday(d) != 0)
      && hi < dates[|dates| - 1] - 6 <= hi + 7
      && (forall d :: hi < d < dates[|dates| - 1] - 6 ==> Weekday(d) != 0)
      && WholeWeeks(dates, dates[0])
  {
    var lo, hi := MinDate(Index(series)), MaxDate(Index(series));
    assert lo <= hi by {
      assert Index(series)[0] >= lo && Index(series)[0] <= hi;
    }
    WeekRangeAsWritten(lo, hi);
    var dates := NormalizeAsWritten(series).value.dates;
    assert dates == DateRange(RangeStart(lo), RangeStop(hi));
    assert dates[0] == RangeStart(lo);
    assert dates[|dates| - 1] == RangeStop(hi);
  }

  /** As written, the earliest date of the series never reaches the calendar: a
      date of the series is in the range exactly when it is on or after the
      range's first Monday. */
  lemma EarliestDateDropped<V>(series: seq<Entry<V>>)
    requires NormalizeAsWritten(series).Success?
    ensures MinDate(Index(series)) !in NormalizeAsWritten(series).value.dates
    ensures forall k :: 0 <= k < |series| ==>
      (series[k].date in NormalizeAsWritten(series).value.dates <==>
       series[k].date >= NormalizeAsWritten(series).value.dates[0])
  {
    NormalizedRangeAsWritten(series);
    var dates := NormalizeAsWritten(series).value.dates;
    var hi := MaxDate(Index(series));
    forall k | 0 <= k < |series|
      ensures series[k].date in dates <==> series[k].date >= dates[0]
    {
      var d := series[k].date;
      assert Index(series)[k] == d && d <= hi;
      if d >= dates[0] {
        assert dates[d - dates[0]] == d;
      }
    }
  }

  /** The range as written is the intended range moved one week later, at both ends. */
  lemma RangeOneWeekLate(lo: Day, hi: Day)
    ensures RangeStart(lo) == WeekStart(lo) + 7
    ensures RangeStop(hi) == WeekEnd(hi) + 7
  {
    var monday := AddAnchoredWeek(hi, 0);
    assert monday == WeekEnd(hi) + 1;
  }

  /** As written, a series with a single observation is drawn with every cell missing. */
  lemma SingleObservationVanishes<V>(d: Day, v: V)
    ensures NormalizeAsWritten([Entry(d, v)]).Success?
    ensures forall i :: 0 <= i < |NormalizeAsWritten([Entry(d, v)]).value.values| ==>
      NormalizeAsWritten([Entry(d, v)]).value.values[i] == None
  {
    var series := [Entry(d, v)];
    assert !HasDuplicateDates(series);
    EarliestDateDropped(series);
    var n := NormalizeAsWritten(series).value;
    forall i | 0 <= i < |n.values|
      ensures n.values[i] == None
    {
      assert n.dates[i] != d;
      assert n.values[i] == ValueAt(series, n.dates[i]);
    }
  }

  /** The range runs over whole weeks: it starts on the Monday on or before the
      earliest date, ends on the Sunday on or after the latest date, holds every
      day in between in ascending order, and so holds every date of the series. */
  lemma NormalizedRange<V>(series: seq<Entry<V>>)
    requires Normalize(series).Success?
    ensures var dates, lo, hi := Normalize(series).value.dates, MinDate(Index(series)), MaxDate(Index(series));
      && |dates| > 0 && |dates| % 7 == 0 && |dates| <= hi - lo + 13
      && Weekday(dates[0]) == 0 && Weekday(dates[|dates| - 1]) == 6
      && lo - 6 <= dates[0] <= lo && (forall d :: dates[0] < d <= lo ==> Weekday(d) != 0)
      && hi <= dates[|dates| - 1] <= hi + 6
      && (forall d :: hi <= d < dates[|dates| - 1] ==> Weekday(d) != 6)
      && WholeWeeks(dates, dates[0])
      && (forall k :: 0 <= k < |series| ==> series[k].date in dates)
  {
    var lo, hi := MinDate(Index(series)), MaxDate(Index(series));
    assert lo <= hi by {
      assert Index(series)[0] >= lo && Index(series)[0] <= hi;
    }
    WeekRange(lo, hi);
    var dates := Normalize(series).value.dates;
    assert dates == DateRange(WeekStart(lo), WeekEnd(hi));
    assert dates[0] == WeekStart(lo);
    assert dates[|dates| - 1] == WeekEnd(hi);
    forall k | 0 <= k < |series|
      ensures series[k].date in dates
    {
      var d := series[k].date;
      assert Index(series)[k] == d && lo <= d <= hi;
      assert dates[d - dates[0]] == d;
    }
  }

  /** Each day of the range carries the series' value at that day, and is
      missing when the series has no entry there. */
  lemma ReindexedValue<V>(series: seq<Entry<V>>, i: int, v: V)
    requires Normalize(series).Success?
    requires 0 <= i < |Normalize(series).value.dates|
    ensures Normalize(series).value.values[i] == Some(v) <==> Entry(Normalize(series).value.dates[i], v) in series
    ensures Normalize(series).value.values[i] == None <==> Normalize(series).value.dates[i] !in Index(series)
  {
    var n := Normalize(series).value;
    var d := n.dates[i];
    assert n.values[i] == ValueAt(series, d);
    if Entry(d, v) in series {
      var k :| 0 <= k < |series| && series[k] == Entry(d, v);
    }
    if n.values[i].Some? {
      if forall k :: 0 <= k < |series| ==> series[k].date != d {
        assert false;
      }
      var k :| 0 <= k < |series| && series[k].date == d;
      assert series[k] == Entry(d, n.values[i].value);
    }
    if d in Index(series) {
      var k :| 0 <= k < |Index(series)| && Index(series)[k] == d;
      assert series[k].date == d;
    }
  }

  /** Every observation reaches the calendar: its date is in the range, carrying its value. */
  lemma EveryObservationDrawn<V>(series: seq<Entry<V>>, k: int)
    requires Normalize(series).Success? && 0 <= k < |series|
    ensures var n := Normalize(series).value;
      exists i :: 0 <= i < |n.dates| && n.dates[i] == series[k].date && n.values[i] == Some(series[k].value)
  {
    NormalizedRange(series);
    var n := Normalize(series).value;
    var i := series[k].date - n.dates[0];
    assert n.dates[i] == series[k].date;
    ReindexedValue(series, i, series[k].value);
    assert series[k] == Entry(n.dates[i], series[k].value);
  }

  /** A whole-week run of at most 52 weeks never repeats an ISO week number, so
      its frame is the values cut into weeks. */
  lemma ShortRunFrame<V>(dates: seq<Day>, values: seq<Option<V>>, opts: FrameOptions)
    requires |dates| > 0 && WholeWeeks(dates, dates[0]) && |dates| / 7 <= 52 && |values| == |dates|
    requires opts.dayofweekLabels.LabelText? && Lower(opts.dayofweekLabels.text) in {"name", "abbr"}
    ensures GenerateCalendarFrame(dates, values, opts).Success?
    ensures GenerateCalendarFrame(dates, values, opts).value.cells == SplitWeeks(values)
    ensures Flatten(GenerateCalendarFrame(dates, values, opts).value.cells) == values
  {
    ShortRunsHaveDistinctWeekNumbers(dates[0], |dates| / 7);
    WholeWeeksFrame(dates, values, dates[0], opts);
  }

  /** Over the corrected range, a series spanning at most 351 days fills at most
      52 week rows: the frame can be drawn, and reading it row-major gives back
      the reindexed values. */
  lemma ShortSeriesFrame<V>(series: seq<Entry<V>>, opts: FrameOptions)
    requires Normalize(series).Success?
    requires MaxDate(Index(series)) - MinDate(Index(series)) <= 351
    requires opts.dayofweekLabels.LabelText? && Lower(opts.dayofweekLabels.text) in {"name", "abbr"}
    ensures var n := Normalize(series).value;
      && |n.dates| / 7 <= 52
      && GenerateCalendarFrame(n.dates, n.values, opts).Success?
      && Flatten(GenerateCalendarFrame(n.dates, n.values, opts).value.cells) == n.values
  {
    var n := Normalize(series).value;
    NormalizedRange(series);
    assert |n.dates| <= 364;
    ShortRunFrame(n.dates, n.values, opts);
  }

  /** A whole-week run of 54 weeks or more holds two Mondays with the same ISO
      week number, so `unstack` rejects it. */
  lemma LongRunsHaveDuplicateCell(dates: seq<Day>, start: Day)
    requires WholeWeeks(dates, start) && |dates| / 7 >= 54
    ensures HasDuplicateCell(WeekNumbers(dates), Weekdays(dates))
  {
    var rows := |dates| / 7;
    LongRunsRepeatWeekNumbers(start, rows);
    var weeks := RowWeeks(start, rows);
    var r1, r2 :| 0 <= r1 < r2 < rows && weeks[r1] == weeks[r2];
    WholeWeeksRowMonday(dates, start, r1);
    WholeWeeksRowMonday(dates, start, r2);
  }

  /** Over the corrected range, a series whose range holds 54 weeks or more cannot be drawn. */
  lemma LongSeriesFails<V>(series: seq<Entry<V>>, opts: FrameOptions)
    requires Normalize(series).Success?
    requires |Normalize(series).value.dates| / 7 >= 54
    ensures var n := Normalize(series).value;
      GenerateCalendarFrame(n.dates, n.values, opts) == Failure(DuplicateEntries)
  {
    var n := Normalize(series).value;
    NormalizedRange(series);
    LongRunsHaveDuplicateCell(n.dates, n.dates[0]);
  }

  /** As written, a series spanning at most 351 days also fills at most 52 week
      rows: the frame can be drawn, and reading it row-major gives back the
      reindexed values. */
  lemma ShortSeriesFrameAsWritten<V>(series: seq<Entry<V>>, opts: FrameOptions)
    requires NormalizeAsWritten(series).Success?
    requires MaxDate(Index(series)) - MinDate(Index(series)) <= 351
    requires opts.dayofweekLabels.LabelText? && Lower(opts.dayofweekLabels.text) in {"name", "abbr"}
    ensures var n := NormalizeAsWritten(series).value;
      && |n.dates| / 7 <= 52
      && GenerateCalendarFrame(n.dates, n.values, opts).Success?
      && Flatten(GenerateCalendarFrame(n.dates, n.values, opts).value.cells) == n.values
  {
    var n := NormalizeAsWritten(series).value;
    NormalizedRangeAsWritten(series);
    assert |n.dates| <= 364;
    ShortRunFrame(n.dates, n.values, opts);
  }

  /** As written, a series whose range holds 54 weeks or more cannot be drawn. */
  lemma LongSeriesFailsAsWritten<V>(series: seq<Entry<V>>, opts: FrameOptions)
    requires NormalizeAsWritten(series).Success?
    requires |NormalizeAsWritten(series).value.dates| / 7 >= 54
    ensures var n := NormalizeAsWritten(series).value;
      GenerateCalendarFrame(n.dates, n.values, opts) == Failure(DuplicateEntries)
  {
    var n := NormalizeAsWritten(series).value;
    NormalizedRangeAsWritten(series);
    LongRunsHaveDuplicateCell(n.dates, n.dates[0]);
  }

  /** In a calendar of at most 52 whole weeks, the text in cell (c, r) is the day
      of the month of date 7r + c, the very date whose value fills row r, column c
      of the frame. */
  lemma AnnotationsMatchCells<V>(dates: seq<Day>, values: seq<Option<V>>, opts: FrameOptions, r: int, c: int)
    requires |dates| > 0 && WholeWeeks(dates, dates[0]) && |dates| / 7 <= 52 && |values| == |dates|
    requires opts.dayofweekLabels.LabelText? && Lower(opts.dayofweekLabels.text) in {"name", "abbr"}
    requires 0 <= r < |dates| / 7 && 0 <= c < 7
    ensures GenerateCalendarFrame(dates, values, opts).Success?
    ensures var frame := GenerateCalendarFrame(dates, values, opts).value;
      && |frame.cells| == |dates| / 7
      && 7 * r + c < |dates|
      && Layout(DaysOfMonth(dates), |frame.cells|)[7 * r + c] == Annotation(c, r, DaysOfMonth(dates)[7 * r + c])
      && |frame.cells[r]| == 7
      && frame.cells[r][c] == values[7 * r + c]
  {
    ShortRunFrame(dates, values, opts);
    var cells := GenerateCalendarFrame(dates, values, opts).value.cells;
    SplitWeeksAt(values, r, c);
    LayoutPosition(DaysOfMonth(dates), |cells|, r, c);
  }

  /** `kwds_calendar.get("show_dates", True)` (line 108). */
  predicate ShowsDates(kw: CalendarKeywords) {
    kw.showDates.None? || kw.showDates.value
  }

  /** `kwds_calendar=None`, which line 90 turns into `{}`: every frame option at
      its default and no `show_dates` key. */
  const NoKeywords: CalendarKeywords := CalendarKeywords(DefaultOptions, None)

  /** Without keywords, line 100 as written goes through with the frame's
      defaults, and line 108 writes the dates. */
  lemma NoKeywordsAccepted()
    ensures FrameArgumentsAsWritten(NoKeywords) == Success(DefaultOptions)
    ensures ShowsDates(NoKeywords)
  {
  }

  /** Line 100 as written: every key of `kwds_calendar` becomes a keyword argument
      of `generate_calendar_frame`, which has no `show_dates` parameter. */
  function FrameArgumentsAsWritten(kw: CalendarKeywords): (r: Result<FrameOptions, CalendarError>)
    ensures r.Success? <==> kw.showDates.None?
    ensures r.Success? ==> r.value == kw.frame
  {
    if kw.showDates.Some? then Failure(UnexpectedKeyword("show_dates")) else Success(kw.frame)
  }

  /** As written, a call that gets past line 100 always writes the dates: the
      `show_dates` switch of line 108 can never be off. */
  lemma ShowDatesCannotBeSwitchedOff(kw: CalendarKeywords)
    requires FrameArgumentsAsWritten(kw).Success?
    ensures ShowsDates(kw)
  {
  }

  /** Line 100 with `show_dates` left out of the frame's keyword arguments. */
  function FrameArguments(kw: CalendarKeywords): (opts: FrameOptions)
    ensures FrameArgumentsAsWritten(kw).Success? ==> opts == FrameArgumentsAsWritten(kw).value
  {
    kw.frame
  }

  /** Lines 82-109 as written. */
  method CalendarAsWritten<V>(series: seq<Entry<V>>, kw: CalendarKeywords)
    returns (r: Result<Plot<V>, CalendarError>)
    ensures series == [] ==> r == Failure(EmptySeries)
    ensures series != [] && HasDuplicateDates(series) ==> r == Failure(DuplicateLabels)
    ensures NormalizeAsWritten(series).Success? && kw.showDates.Some? ==> r == Failure(UnexpectedKeyword("show_dates"))
    ensures NormalizeAsWritten(series).Success? && kw.showDates.None? ==>
      var n := NormalizeAsWritten(series).value;
      var frame := GenerateCalendarFrame(n.dates, n.values, kw.frame);
      && (frame.Failure? ==> r == Failure(FrameFailed(frame.error)))
      && (frame.Success? ==> r.Success? && r.value.frame == frame.value)
    ensures r.Success? ==>
      && NormalizeAsWritten(series).Success? && kw.showDates.None?
      && var n := NormalizeAsWritten(series).value;
         GenerateCalendarFrame(n.dates, n.values, kw.frame) == Success(r.value.frame)
         && r.value.annotations == Layout(DaysOfMonth(n.dates), |r.value.frame.cells|)
  {
    var n :- NormalizeAsWritten(series);
    var opts :- FrameArgumentsAsWritten(kw);
    var frame := GenerateCalendarFrame(n.dates, n.values, opts);
    if frame.Failure? {
      return Failure(FrameFailed(frame.error));
    }
    var texts := [];
    if ShowsDates(kw) {
      texts := AnnotateDates(DaysOfMonth(n.dates), |frame.value.cells|);
    }
    r := Success(Plot(frame.value, texts));
  }

  /** Lines 82-109 with `show_dates` honoured: the dates are written unless it is false. */
  method Calendar<V>(series: seq<Entry<V>>, kw: CalendarKeywords) returns (r: Result<Plot<V>, CalendarError>)
    ensures series == [] ==> r == Failure(EmptySeries)
    ensures series != [] && HasDuplicateDates(series) ==> r == Failure(DuplicateLabels)
    ensures Normalize(series).Success? ==>
      var n := Normalize(series).value;
      var frame := GenerateCalendarFrame(n.dates, n.values, kw.frame);
      && (frame.Failure? ==> r == Failure(FrameFailed(frame.error)))
      && (frame.Success? ==> r.Success? && r.value.frame == frame.value)
    ensures r.Success? ==>
      r.value.annotations ==
        if ShowsDates(kw) then Layout(DaysOfMonth(Normalize(series).value.dates), |r.value.frame.cells|) else []
    ensures r.Success? && kw.showDates == Some(false) ==> r.value.annotations == []
  {
    var n :- Normalize(series);
    var frame := GenerateCalendarFrame(n.dates, n.values, FrameArguments(kw));
    if frame.Failure? {
      return Failure(FrameFailed(frame.error));
    }
    var texts := [];
    if ShowsDates(kw) {
      texts := AnnotateDates(DaysOfMonth(n.dates), |frame.value.cells|);
    }
    r := Success(Plot(frame.value, texts));
  }
}
