/**
 * The pivot table (records counted per application date and session) and its
 * cumulative sum down each session column.
 */
module Aggregate {
  import opened Wrappers
  import opened Config
  import opened Records

  /** A record the pivot counts under session `s`: `aggfunc='count'` counts non-null names. */
  predicate Counted(r: Record, s: string)
  {
    r.session == Some(s) && r.fullName.Some?
  }

  /** The pivot cell for (d, s): counted records dated exactly `d`. */
  function CountOn(rows: seq<Record>, s: string, d: Day): (c: nat)
    ensures c > 0 <==> exists i :: 0 <= i < |rows| && Counted(rows[i], s) && rows[i].appDate == d
  {
    if rows == [] then 0
    else
      assert forall i :: 1 <= i < |rows| ==> rows[i] == rows[1..][i - 1];
      (if Counted(rows[0], s) && rows[0].appDate == d then 1 else 0) + CountOn(rows[1..], s, d)
  }

  /** Counted records dated on or before `d`. */
  function CountUpTo(rows: seq<Record>, s: string, d: Day): nat
  {
    if rows == [] then 0
    else (if Counted(rows[0], s) && rows[0].appDate <= d then 1 else 0) + CountUpTo(rows[1..], s, d)
  }

  /** Counted records in session `s`, whatever their date. */
  function CountAll(rows: seq<Record>, s: string): nat
  {
    if rows == [] then 0
    else (if Counted(rows[0], s) then 1 else 0) + CountAll(rows[1..], s)
  }

  /** The pivot has a row for `d`: some record dated `d` has a session. */
  predicate Active(rows: seq<Record>, d: Day)
  {
    exists i :: 0 <= i < |rows| && rows[i].session.Some? && rows[i].appDate == d
  }

  /** Adds `d` to an ascending list of distinct dates. */
  function InsertDate(ds: seq<Day>, d: Day): (r: seq<Day>)
    requires StrictlyIncreasing(ds)
    ensures StrictlyIncreasing(r)
    ensures forall x :: x in r <==> x in ds || x == d
  {
    if ds == [] || d < ds[0] then [d] + ds
    else if d == ds[0] then ds
    else
      assert StrictlyIncreasing(ds[1..]) by {
        forall i, k | 0 <= i < k < |ds| - 1 ensures ds[1..][i] < ds[1..][k] {
          assert ds[1..][i] == ds[i + 1] && ds[1..][k] == ds[k + 1];
        }
      }
      var tail := InsertDate(ds[1..], d);
      assert forall x :: x in ds[1..] ==> ds[0] < x;
      assert forall k :: 0 <= k < |tail| ==> ds[0] < tail[k] by {
        forall k | 0 <= k < |tail| ensures ds[0] < tail[k] {
          assert tail[k] in tail;
        }
      }
      assert ds == [ds[0]] + ds[1..];
      [ds[0]] + tail
  }

  /** The pivot's row index: every active date once, ascending. */
  function PivotDates(rows: seq<Record>): (r: seq<Day>)
    ensures StrictlyIncreasing(r)
    ensures forall d :: d in r <==> Active(rows, d)
  {
    if rows == [] then []
    else
      var rest := PivotDates(rows[1..]);
      assert forall d :: Active(rows, d) <==>
        (rows[0].session.Some? && rows[0].appDate == d) || Active(rows[1..], d) by {
        forall d ensures Active(rows, d) <==>
          (rows[0].session.Some? && rows[0].appDate == d) || Active(rows[1..], d) {
          if Active(rows[1..], d) {
            var i :| 0 <= i < |rows[1..]| && rows[1..][i].session.Some? && rows[1..][i].appDate == d;
            assert rows[i + 1] == rows[1..][i];
          }
          if Active(rows, d) && !(rows[0].session.Some? && rows[0].appDate == d) {
            var i :| 0 <= i < |rows| && rows[i].session.Some? && rows[i].appDate == d;
            assert rows[1..][i - 1] == rows[i];
          }
        }
      }
      if rows[0].session.Some? then InsertDate(rest, rows[0].appDate) else rest
  }

  /** `pivot_table(..., aggfunc='count', fill_value=0)`: one row per date, one column per session. */
  function Pivot(rows: seq<Record>, dates: seq<Day>, sessions: seq<string>): (m: seq<seq<nat>>)
    ensures |m| == |dates| && Rectangular(m, |sessions|)
  {
    seq(|dates|, i requires 0 <= i < |dates| =>
      seq(|sessions|, j requires 0 <= j < |sessions| => CountOn(rows, sessions[j], dates[i])))
  }

  /** Reference definition: the sum of column `j` over all rows of `m`. */
  function ColumnSum(m: seq<seq<nat>>, j: nat): nat
    requires forall k :: 0 <= k < |m| ==> j < |m[k]|
  {
    if m == [] then 0 else ColumnSum(m[..|m| - 1], j) + m[|m| - 1][j]
  }

  /** `cumsum(axis=0)`: each row becomes the running total of the rows up to it. */
  function CumSum(m: seq<seq<nat>>, w: nat): (r: seq<seq<nat>>)
    requires Rectangular(m, w)
    ensures |r| == |m| && Rectangular(r, w)
    ensures forall i, j :: 0 <= i < |m| && 0 <= j < w ==> r[i][j] == ColumnSum(m[..i + 1], j)
  {
    if m == [] then []
    else
      var n := |m| - 1;
      var prev := CumSum(m[..n], w);
      var last := if n == 0 then m[n] else AddRows(prev[n - 1], m[n], w);
      CumSumSnoc(m, w, prev, last);
      prev + [last]
  }

  /** Cell-by-cell sum of two rows `w` wide. */
  function AddRows(u: seq<nat>, v: seq<nat>, w: nat): (s: seq<nat>)
    requires |u| == w && |v| == w
    ensures |s| == w && forall j :: 0 <= j < w ==> s[j] == u[j] + v[j]
  {
    seq(w, j requires 0 <= j < w => u[j] + v[j])
  }

  /** Appending the next running-total row to the running totals of a prefix. */
  lemma CumSumSnoc(m: seq<seq<nat>>, w: nat, prev: seq<seq<nat>>, last: seq<nat>)
    requires Rectangular(m, w) && m != []
    requires |prev| == |m| - 1 && Rectangular(prev, w)
    requires forall i, j :: 0 <= i < |m| - 1 && 0 <= j < w ==> prev[i][j] == ColumnSum(m[..|m| - 1][..i + 1], j)
    requires |m| == 1 ==> last == m[0]
    requires |m| > 1 ==> |last| == w && forall j :: 0 <= j < w ==> last[j] == prev[|m| - 2][j] + m[|m| - 1][j]
    ensures Rectangular(prev + [last], w)
    ensures forall i, j :: 0 <= i < |m| && 0 <= j < w ==> (prev + [last])[i][j] == ColumnSum(m[..i + 1], j)
  {
    var n := |m| - 1;
    var r := prev + [last];
    forall i, j | 0 <= i < |m| && 0 <= j < w ensures r[i][j] == ColumnSum(m[..i + 1], j) {
      if i < n {
        assert r[i] == prev[i];
        assert m[..n][..i + 1] == m[..i + 1];
      } else {
        assert r[n] == last;
        assert m[..n + 1] == m;
        assert ColumnSum(m, j) == ColumnSum(m[..n], j) + m[n][j];
        if n > 0 {
          assert m[..n][..n] == m[..n];
        } else {
          assert m[..0] == [];
        }
      }
    }
  }

  /** Running column totals never decrease down the rows. */
  lemma {:induction false} ColumnSumMonotone(m: seq<seq<nat>>, j: nat, a: nat, b: nat)
    requires forall k :: 0 <= k < |m| ==> j < |m[k]|
    requires a <= b <= |m|
    ensures ColumnSum(m[..a], j) <= ColumnSum(m[..b], j)
  {
    if a < b {
      ColumnSumMonotone(m, j, a, b - 1);
      assert m[..b][..b - 1] == m[..b - 1];
    }
  }

  /** Each cumulative column is non-decreasing in date. */
  lemma CumSumMonotone(m: seq<seq<nat>>, w: nat, i: nat, k: nat, j: nat)
    requires Rectangular(m, w)
    requires i <= k < |m| && j < w
    ensures CumSum(m, w)[i][j] <= CumSum(m, w)[k][j]
  {
    ColumnSumMonotone(m, j, i + 1, k + 1);
  }

  /** Across a stretch of days without applications, the running count jumps by the next active day's count. */
  lemma {:induction false} CountUpToAcrossGap(rows: seq<Record>, s: string, d: Day, e: Day)
    requires d < e
    requires forall x :: d <= x < e ==> !Active(rows, x)
    ensures CountUpTo(rows, s, e) == CountUpTo(rows, s, d) + CountOn(rows, s, e)
  {
    forall k | 0 <= k < |rows| && rows[k].session.Some? ensures !(d < rows[k].appDate < e) {
      if d < rows[k].appDate < e {
        assert Active(rows, rows[k].appDate);
      }
    }
    CountUpToStep(rows, s, d, e);
  }

  /** Between two dates with no active date in between, the running count grows by the later date's count. */
  lemma {:induction false} CountUpToStep(rows: seq<Record>, s: string, a: Day, b: Day)
    requires a < b
    requires forall k :: 0 <= k < |rows| && rows[k].session.Some? ==> !(a < rows[k].appDate < b)
    ensures CountUpTo(rows, s, b) == CountUpTo(rows, s, a) + CountOn(rows, s, b)
  {
    if rows != [] {
      assert forall k :: 1 <= k < |rows| ==> rows[1..][k - 1] == rows[k];
      CountUpToStep(rows[1..], s, a, b);
    }
  }

  /** Nothing is counted up to a date before every active date. */
  lemma {:induction false} CountUpToBeforeAll(rows: seq<Record>, s: string, a: Day)
    requires forall k :: 0 <= k < |rows| && rows[k].session.Some? ==> a < rows[k].appDate
    ensures CountUpTo(rows, s, a) == 0
  {
    if rows != [] {
      assert forall k :: 1 <= k < |rows| ==> rows[1..][k - 1] == rows[k];
      CountUpToBeforeAll(rows[1..], s, a);
    }
  }

  /** Everything is counted up to a date after every active date. */
  lemma {:induction false} CountUpToAfterAll(rows: seq<Record>, s: string, a: Day)
    requires forall k :: 0 <= k < |rows| && rows[k].session.Some? ==> rows[k].appDate <= a
    ensures CountUpTo(rows, s, a) == CountAll(rows, s)
  {
    if rows != [] {
      assert forall k :: 1 <= k < |rows| ==> rows[1..][k - 1] == rows[k];
      CountUpToAfterAll(rows[1..], s, a);
    }
  }

  /** The running count is non-decreasing in the date. */
  lemma {:induction false} CountUpToMonotone(rows: seq<Record>, s: string, a: Day, b: Day)
    requires a <= b
    ensures CountUpTo(rows, s, a) <= CountUpTo(rows, s, b)
  {
    if rows != [] {
      CountUpToMonotone(rows[1..], s, a, b);
    }
  }

  /** The pivot rows are the active dates, ascending, and hold the per-date counts. */
  ghost predicate PivotOver(rows: seq<Record>, dates: seq<Day>, m: seq<seq<nat>>, sessions: seq<string>)
  {
    && StrictlyIncreasing(dates)
    && (forall d :: d in dates <==> Active(rows, d))
    && |m| == |dates| && Rectangular(m, |sessions|)
    && forall p, j :: 0 <= p < |dates| && 0 <= j < |sessions| ==> m[p][j] == CountOn(rows, sessions[j], dates[p])
  }

  /** The pivot of the records over their active dates is such a pivot. */
  lemma PivotIsPivotOver(rows: seq<Record>, sessions: seq<string>)
    ensures PivotOver(rows, PivotDates(rows), Pivot(rows, PivotDates(rows), sessions), sessions)
  {
  }

  /**
   * The prefix sum of a pivot column up to its i-th date is the number of
   * counted records dated on or before that date.
   */
  lemma {:induction false} PivotPrefixIsCountUpTo(rows: seq<Record>, dates: seq<Day>, m: seq<seq<nat>>, sessions: seq<string>, i: nat, j: nat)
    requires PivotOver(rows, dates, m, sessions)
    requires i < |dates| && j < |sessions|
    ensures ColumnSum(m[..i + 1], j) == CountUpTo(rows, sessions[j], dates[i])
  {
    var s := sessions[j];
    assert m[..i + 1][..i] == m[..i];
    assert ColumnSum(m[..i + 1], j) == ColumnSum(m[..i], j) + m[i][j];
    if i == 0 {
      forall k | 0 <= k < |rows| && rows[k].session.Some? ensures dates[0] - 1 < rows[k].appDate {
        assert Active(rows, rows[k].appDate);
        var p :| 0 <= p < |dates| && dates[p] == rows[k].appDate;
      }
      CountUpToBeforeAll(rows, s, dates[0] - 1);
      CountUpToStep(rows, s, dates[0] - 1, dates[0]);
    } else {
      PivotPrefixIsCountUpTo(rows, dates, m, sessions, i - 1, j);
      forall k | 0 <= k < |rows| && rows[k].session.Some?
        ensures !(dates[i - 1] < rows[k].appDate < dates[i])
      {
        assert Active(rows, rows[k].appDate);
        var p :| 0 <= p < |dates| && dates[p] == rows[k].appDate;
      }
      CountUpToStep(rows, s, dates[i - 1], dates[i]);
    }
  }

  /** Up to the last active date, everything is counted. */
  lemma {:induction false} CountUpToLastDate(rows: seq<Record>, dates: seq<Day>, s: string)
    requires StrictlyIncreasing(dates) && forall d :: d in dates <==> Active(rows, d)
    requires dates != []
    ensures CountUpTo(rows, s, dates[|dates| - 1]) == CountAll(rows, s)
  {
    var last := |dates| - 1;
    forall k | 0 <= k < |rows| && rows[k].session.Some? ensures rows[k].appDate <= dates[last] {
      assert Active(rows, rows[k].appDate);
      var p :| 0 <= p < |dates| && dates[p] == rows[k].appDate;
    }
    CountUpToAfterAll(rows, s, dates[last]);
  }

  /**
   * After `cumsum`, the pivot cell for (date, session) holds the number of
   * counted records in that session dated on or before that date, and the last
   * row holds each session's total.
   */
  lemma {:induction false} CumulativePivot(rows: seq<Record>, sessions: seq<string>, i: nat, j: nat)
    requires i < |PivotDates(rows)| && j < |sessions|
    ensures CumSum(Pivot(rows, PivotDates(rows), sessions), |sessions|)[i][j]
            == CountUpTo(rows, sessions[j], PivotDates(rows)[i])
    ensures i == |PivotDates(rows)| - 1 ==>
            CumSum(Pivot(rows, PivotDates(rows), sessions), |sessions|)[i][j] == CountAll(rows, sessions[j])
  {
    PivotIsPivotOver(rows, sessions);
    CumulativeOver(rows, PivotDates(rows), Pivot(rows, PivotDates(rows), sessions), sessions, i, j);
  }

  /** The same, for any pivot over the active dates. */
  lemma {:induction false} CumulativeOver(rows: seq<Record>, dates: seq<Day>, m: seq<seq<nat>>, sessions: seq<string>, i: nat, j: nat)
    requires PivotOver(rows, dates, m, sessions)
    requires i < |dates| && j < |sessions|
    ensures CumSum(m, |sessions|)[i][j] == CountUpTo(rows, sessions[j], dates[i])
    ensures i == |dates| - 1 ==> CumSum(m, |sessions|)[i][j] == CountAll(rows, sessions[j])
  {
    PivotPrefixIsCountUpTo(rows, dates, m, sessions, i, j);
    if i == |dates| - 1 {
      CountUpToLastDate(rows, dates, sessions[j]);
    }
  }
}
