/** `annotate_dates` (calplot/calendar_map.py): writes the day of the month of
    each date into the heatmap, walking the cells of an `n_weeks` by 7 grid in
    row-major order. Only the integer cell of each text is modelled; the drawing
    offsets it by half a cell. */
module DateAnnotations {
  import opened Dates
  import opened Sequences

  /** One `ax.text` call: the day of the month written into cell (`column`, `row`). */
  datatype Annotation = Annotation(column: int, row: int, dayOfMonth: int)

  function Min(a: int, b: int): int {
    if a <= b then a else b
  }

  /** `dates.day`: the day of the month of every date. */
  function DaysOfMonth(dates: seq<Day>): (days: seq<int>)
    ensures |days| == |dates|
  {
    seq(|dates|, i requires 0 <= i < |dates| => DayOfMonth(dates[i]))
  }

  /** The texts `annotate_dates` emits: `zip` pairs the `7 * nWeeks` cells, read
      row-major, with the days of the month, and stops at the shorter of the two. */
  function Layout(days: seq<int>, nWeeks: nat): (texts: seq<Annotation>)
    ensures |texts| == Min(7 * nWeeks, |days|)
  {
    seq(Min(7 * nWeeks, |days|), k requires 0 <= k < Min(7 * nWeeks, |days|) =>
      Annotation(k % 7, k / 7, days[k]))
  }

  /** Lines 12-16: one text per (cell, day) pair, in row-major cell order. The
      dates enter only through `dates.day`, which the caller passes as `days`. */
  method AnnotateDates(days: seq<int>, nWeeks: nat) returns (texts: seq<Annotation>)
    ensures texts == Layout(days, nWeeks)
  {
    ghost var all := Layout(days, nWeeks);
    texts := [];
    var k := 0;
    while k < 7 * nWeeks && k < |days|
      invariant 0 <= k <= |all|
      invariant texts == all[..k]
    {
      assert all[..k + 1] == all[..k] + [all[k]];
      texts := texts + [Annotation(k % 7, k / 7, days[k])];
      k := k + 1;
    }
    assert all[..k] == all;
  }

  /** Every text lands inside the grid. */
  lemma LayoutInGrid(days: seq<int>, nWeeks: nat, k: int)
    requires 0 <= k < |Layout(days, nWeeks)|
    ensures 0 <= Layout(days, nWeeks)[k].column < 7
    ensures 0 <= Layout(days, nWeeks)[k].row < nWeeks
    ensures Layout(days, nWeeks)[k].dayOfMonth == days[k]
  {
    assert k < 7 * nWeeks;
    assert k == 7 * (k / 7) + k % 7;
  }

  /** Text `7r + c` shows day `7r + c` in cell (c, r): the days fill the rows
      Monday to Sunday, week after week. */
  lemma LayoutPosition(days: seq<int>, nWeeks: nat, r: int, c: int)
    requires 0 <= r < nWeeks && 0 <= c < 7 && 7 * r + c < |days|
    ensures 7 * r + c < |Layout(days, nWeeks)|
    ensures Layout(days, nWeeks)[7 * r + c] == Annotation(c, r, days[7 * r + c])
  {
    var k := 7 * r + c;
    RowColumn(r, c);
    assert k < Min(7 * nWeeks, |days|);
  }

  /** No two texts share a cell. */
  lemma LayoutCellsDistinct(days: seq<int>, nWeeks: nat, k: int, l: int)
    requires 0 <= k < l < |Layout(days, nWeeks)|
    ensures Layout(days, nWeeks)[k].column != Layout(days, nWeeks)[l].column
         || Layout(days, nWeeks)[k].row != Layout(days, nWeeks)[l].row
  {
    assert k == 7 * (k / 7) + k % 7;
    assert l == 7 * (l / 7) + l % 7;
  }
}
