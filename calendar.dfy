/**
 * Calendar completion: every day of the program year, with the cumulative
 * pivot row of that day where there is one and a row of nulls elsewhere.
 */
module Calendar {
  import opened Wrappers
  import opened Config
  import opened Records

  /** `pd.date_range(start, end)`: every day from `start` to `end`, both included. */
  function DateRange(start: Day, end: Day): (r: seq<Day>)
    ensures |r| == if start <= end then end - start + 1 else 0
    ensures forall i :: 0 <= i < |r| ==> r[i] == start + i
    decreases end - start
  {
    if start > end then [] else [start] + DateRange(start + 1, end)
  }

  /** The calendar holds each day of the range exactly once, in ascending order, and no other day. */
  lemma DateRangeComplete(start: Day, end: Day)
    ensures StrictlyIncreasing(DateRange(start, end))
    ensures forall d :: d in DateRange(start, end) <==> start <= d <= end
  {
    var r := DateRange(start, end);
    forall d | start <= d <= end ensures d in r {
      assert r[d - start] == d;
    }
  }

  /** The cumulative row the pivot holds for `d`, if it has one. */
  function RowOn(dates: seq<Day>, cum: seq<seq<nat>>, d: Day): (r: Option<seq<nat>>)
    requires |cum| == |dates|
    ensures r.Some? <==> d in dates
    ensures r.Some? ==> exists k :: 0 <= k < |dates| && dates[k] == d && r.value == cum[k]
  {
    if dates == [] then None
    else if dates[0] == d then Some(cum[0])
    else
      var r := RowOn(dates[1..], cum[1..], d);
      assert forall k :: 1 <= k < |dates| ==> dates[k] == dates[1..][k - 1] && cum[k] == cum[1..][k - 1];
      r
  }

  /** A row of nulls, `w` cells wide. */
  function NullCells(w: nat): (c: seq<Cell>)
    ensures |c| == w && forall j :: 0 <= j < w ==> c[j].None?
  {
    seq(w, _ => None)
  }

  /** A cumulative pivot row as table cells. */
  function KnownCells(v: seq<nat>): (c: seq<Cell>)
    ensures |c| == |v| && forall j :: 0 <= j < |v| ==> c[j] == Some(v[j])
  {
    seq(|v|, j requires 0 <= j < |v| => Some(v[j]))
  }

  /**
   * `merge_ordered(pivot_cum_df, date_df, how='right')`: one row per calendar
   * day in calendar order; a day the pivot has carries its cumulative row, any
   * other day a row of nulls.
   */
  function MergeOrdered(dates: seq<Day>, cum: seq<seq<nat>>, calendar: seq<Day>, w: nat): (r: seq<DayRow>)
    requires |cum| == |dates| && Rectangular(cum, w) && StrictlyIncreasing(dates)
    ensures |r| == |calendar| && Uniform(r, w)
    ensures forall i :: 0 <= i < |calendar| ==> r[i].date == calendar[i]
    ensures forall i, j :: 0 <= i < |calendar| && 0 <= j < w && calendar[i] !in dates ==> r[i].cells[j].None?
    ensures forall i, k, j :: 0 <= i < |calendar| && 0 <= k < |dates| && 0 <= j < w && calendar[i] == dates[k] ==>
              r[i].cells[j] == Some(cum[k][j])
  {
    if calendar == [] then []
    else
      var d := calendar[0];
      var row := match RowOn(dates, cum, d)
        case Some(v) => DayRow(d, KnownCells(v))
        case None => DayRow(d, NullCells(w));
      var rest := MergeOrdered(dates, cum, calendar[1..], w);
      assert forall i :: 1 <= i < |calendar| ==> calendar[i] == calendar[1..][i - 1];
      [row] + rest
  }
}
