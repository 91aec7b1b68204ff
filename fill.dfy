/**
 * The two in-place passes over the joined daily table: zero every session
 * cell before registration, then backward-fill the remaining nulls.
 */
module Fill {
  import opened Wrappers
  import opened Config
  import opened Records

  /** A row of zero counts, `w` cells wide. */
  function Zeros(w: nat): (c: seq<Cell>)
    ensures |c| == w && forall j :: 0 <= j < w ==> c[j] == Some(0)
  {
    seq(w, _ => Some(0))
  }

  /** `joined_df.loc[before_registration, clean_session_list] = 0`. */
  function ZeroRows(rows: seq<DayRow>, threshold: Day): (r: seq<DayRow>)
    ensures |r| == |rows|
    ensures forall i :: 0 <= i < |rows| ==> r[i].date == rows[i].date && |r[i].cells| == |rows[i].cells|
    ensures forall i, j :: 0 <= i < |rows| && rows[i].date < threshold && 0 <= j < |rows[i].cells| ==>
              r[i].cells[j] == Some(0)
    ensures forall i :: 0 <= i < |rows| && rows[i].date >= threshold ==> r[i] == rows[i]
  {
    if rows == [] then []
    else
      var row := rows[0];
      [if row.date < threshold then row.(cells := Zeros(|row.cells|)) else row] + ZeroRows(rows[1..], threshold)
  }

  /** The in-place zeroing: a forward scan over the rows. */
  method ZeroInPlace(a: array<DayRow>, threshold: Day)
    modifies a
    ensures a[..] == ZeroRows(old(a[..]), threshold)
  {
    ghost var before := a[..];
    ghost var target := ZeroRows(before, threshold);
    for i := 0 to a.Length
      invariant forall k :: 0 <= k < i ==> a[k] == target[k]
      invariant forall k :: i <= k < a.Length ==> a[k] == before[k]
    {
      if a[i].date < threshold {
        a[i] := a[i].(cells := Zeros(|a[i].cells|));
      }
    }
    assert a[..] == target;
  }

  /** Each null cell of a row takes the cell of `next` in the same column, if there is one. */
  function FillCells(cells: seq<Cell>, next: seq<Cell>): seq<Cell>
  {
    seq(|cells|, j requires 0 <= j < |cells| =>
      if cells[j].Some? then cells[j] else if j < |next| then next[j] else None)
  }

  /**
   * `fillna(method='bfill')`: scanning from the last row up, each null cell
   * takes the (already filled) cell below it.
   */
  function BackFillRows(rows: seq<DayRow>): (r: seq<DayRow>)
    ensures |r| == |rows|
    ensures forall i :: 0 <= i < |rows| ==> r[i].date == rows[i].date && |r[i].cells| == |rows[i].cells|
    ensures forall i, j :: 0 <= i < |rows| && 0 <= j < |rows[i].cells| && rows[i].cells[j].Some? ==>
              r[i].cells[j] == rows[i].cells[j]
  {
    if rows == [] then []
    else
      var rest := BackFillRows(rows[1..]);
      assert forall i :: 1 <= i < |rows| ==> rows[i] == rows[1..][i - 1];
      [rows[0].(cells := FillCells(rows[0].cells, if rest == [] then [] else rest[0].cells))] + rest
  }

  /** Row `i` of a filled table takes its nulls from the filled row below it. */
  lemma {:induction false} BackFillAt(rows: seq<DayRow>, i: nat)
    requires i < |rows|
    ensures BackFillRows(rows)[i] ==
            rows[i].(cells := FillCells(rows[i].cells, if i + 1 < |rows| then BackFillRows(rows)[i + 1].cells else []))
  {
    if i > 0 {
      BackFillAt(rows[1..], i - 1);
      assert rows[1..][i - 1] == rows[i];
    }
  }

  /** `t` is `rows` with each null cell taken from the row of `t` below it. */
  predicate FilledFromBelow(rows: seq<DayRow>, t: seq<DayRow>)
  {
    && |t| == |rows|
    && forall i {:trigger t[i]} :: 0 <= i < |t| ==>
         t[i] == rows[i].(cells := FillCells(rows[i].cells, if i + 1 < |t| then t[i + 1].cells else []))
  }

  /** The backward fill is filled from below. */
  lemma BackFillFromBelow(rows: seq<DayRow>)
    ensures FilledFromBelow(rows, BackFillRows(rows))
  {
    var t := BackFillRows(rows);
    forall i | 0 <= i < |t|
      ensures t[i] == rows[i].(cells := FillCells(rows[i].cells, if i + 1 < |t| then t[i + 1].cells else []))
    {
      BackFillAt(rows, i);
    }
  }

  /** The in-place backward fill: a descending scan carrying the row below. */
  method BackFillInPlace(a: array<DayRow>)
    modifies a
    ensures a[..] == BackFillRows(old(a[..]))
  {
    BackFillFromBelow(a[..]);
    FillUpwards(a, BackFillRows(a[..]));
  }

  /** The descending scan itself, proved against any table filled from below. */
  method FillUpwards(a: array<DayRow>, ghost target: seq<DayRow>)
    requires FilledFromBelow(a[..], target)
    modifies a
    ensures a[..] == target
  {
    ghost var before := a[..];
    var i := a.Length;
    while i > 0
      invariant 0 <= i <= a.Length
      invariant forall k :: i <= k < a.Length ==> a[k] == target[k]
      invariant forall k :: 0 <= k < i ==> a[k] == before[k]
    {
      i := i - 1;
      var next := if i + 1 < a.Length then a[i + 1].cells else [];
      a[i] := a[i].(cells := FillCells(a[i].cells, next));
    }
    assert a[..] == target;
  }

  /** The first non-null cell of column `j`, reading down from the top row. */
  function NextKnown(rows: seq<DayRow>, j: nat): Cell
  {
    if rows == [] then None
    else if j < |rows[0].cells| && rows[0].cells[j].Some? then rows[0].cells[j]
    else NextKnown(rows[1..], j)
  }

  /** After the backward fill, a cell holds the first non-null cell at or below it in its column. */
  lemma {:induction false} BackFillIsNextKnown(rows: seq<DayRow>, w: nat, i: nat, j: nat)
    requires Uniform(rows, w) && i < |rows| && j < w
    ensures BackFillRows(rows)[i].cells[j] == NextKnown(rows[i..], j)
  {
    var rest := BackFillRows(rows[1..]);
    assert Uniform(rows[1..], w) by {
      assert forall k :: 0 <= k < |rows| - 1 ==> rows[1..][k] == rows[k + 1];
    }
    if i == 0 {
      if rows[0].cells[j].None? && rest != [] {
        BackFillIsNextKnown(rows[1..], w, 0, j);
        assert rows[1..][0..] == rows[1..];
      }
      assert rows[0..] == rows;
    } else {
      BackFillIsNextKnown(rows[1..], w, i - 1, j);
      assert rows[1..][i - 1..] == rows[i..];
    }
  }

  /** The first non-null cell is the nearest one: every cell above it is null. */
  lemma {:induction false} NextKnownIsNearest(rows: seq<DayRow>, j: nat, k: nat)
    requires k < |rows| && j < |rows[k].cells| && rows[k].cells[j].Some?
    requires forall m :: 0 <= m < k ==> j >= |rows[m].cells| || rows[m].cells[j].None?
    ensures NextKnown(rows, j) == rows[k].cells[j]
  {
    if k > 0 {
      NextKnownIsNearest(rows[1..], j, k - 1);
    }
  }

  /** Nothing is found exactly when the column holds no non-null cell. */
  lemma {:induction false} NextKnownNone(rows: seq<DayRow>, j: nat)
    ensures NextKnown(rows, j).None? <==>
            forall m :: 0 <= m < |rows| && j < |rows[m].cells| ==> rows[m].cells[j].None?
  {
    if rows != [] {
      NextKnownNone(rows[1..], j);
      assert forall m :: 1 <= m < |rows| ==> rows[m] == rows[1..][m - 1];
    }
  }

  /** What is found is the non-null cell `k` of the column, with only nulls above it. */
  lemma {:induction false} NextKnownFound(rows: seq<DayRow>, j: nat) returns (k: nat)
    requires NextKnown(rows, j).Some?
    ensures k < |rows| && j < |rows[k].cells| && rows[k].cells[j] == NextKnown(rows, j)
    ensures forall m :: 0 <= m < k ==> j >= |rows[m].cells| || rows[m].cells[j].None?
  {
    if j < |rows[0].cells| && rows[0].cells[j].Some? {
      k := 0;
    } else {
      var d := NextKnownFound(rows[1..], j);
      assert forall m :: 1 <= m < d + 1 ==> rows[m] == rows[1..][m - 1];
      assert rows[d + 1] == rows[1..][d];
      k := d + 1;
    }
  }

  /**
   * Backward fill, cell by cell: a null cell takes the nearest non-null cell
   * below it in the same column, and stays null when there is none.
   */
  lemma {:induction false} BackFillNearest(rows: seq<DayRow>, w: nat, i: nat, j: nat, k: nat)
    requires Uniform(rows, w) && i <= k < |rows| && j < w
    requires rows[k].cells[j].Some?
    requires forall m :: i <= m < k ==> rows[m].cells[j].None?
    ensures BackFillRows(rows)[i].cells[j] == rows[k].cells[j]
  {
    BackFillIsNextKnown(rows, w, i, j);
    NextKnownIsNearest(rows[i..], j, k - i);
  }

  /** A cell stays null after the fill exactly when every cell at or below it in its column is null. */
  lemma {:induction false} BackFillStaysNull(rows: seq<DayRow>, w: nat, i: nat, j: nat)
    requires Uniform(rows, w) && i < |rows| && j < w
    ensures BackFillRows(rows)[i].cells[j].None? <==> forall m :: i <= m < |rows| ==> rows[m].cells[j].None?
  {
    BackFillIsNextKnown(rows, w, i, j);
    NextKnownNone(rows[i..], j);
    assert forall m :: i <= m < |rows| ==> rows[m] == rows[i..][m - i];
  }

  /** A filled cell holds the value of a non-null cell `k` at or below it, with only nulls in between. */
  lemma {:induction false} BackFillSource(rows: seq<DayRow>, w: nat, i: nat, j: nat) returns (k: nat)
    requires Uniform(rows, w) && i < |rows| && j < w
    requires BackFillRows(rows)[i].cells[j].Some?
    ensures i <= k < |rows| && rows[k].cells[j] == BackFillRows(rows)[i].cells[j]
    ensures forall m :: i <= m < k ==> rows[m].cells[j].None?
  {
    BackFillIsNextKnown(rows, w, i, j);
    var tail := rows[i..];
    var d := NextKnownFound(tail, j);
    assert rows[i + d] == tail[d];
    forall m | i <= m < i + d ensures rows[m].cells[j].None? {
      assert rows[m] == tail[m - i];
    }
    k := i + d;
  }

  /** A null cell takes the filled cell directly below it; the last row's nulls stay null. */
  lemma {:induction false} BackFillStep(rows: seq<DayRow>, w: nat, i: nat, j: nat)
    requires Uniform(rows, w) && i < |rows| && j < w && rows[i].cells[j].None?
    ensures i + 1 < |rows| ==> BackFillRows(rows)[i].cells[j] == BackFillRows(rows)[i + 1].cells[j]
    ensures i + 1 == |rows| ==> BackFillRows(rows)[i].cells[j].None?
  {
    BackFillIsNextKnown(rows, w, i, j);
    assert rows[i..][1..] == rows[i + 1..];
    if i + 1 < |rows| {
      BackFillIsNextKnown(rows, w, i + 1, j);
    }
  }

  /** Filling a second time changes nothing. */
  lemma {:induction false} BackFillIdempotent(rows: seq<DayRow>)
    ensures BackFillRows(BackFillRows(rows)) == BackFillRows(rows)
  {
    if rows != [] {
      var r := BackFillRows(rows);
      BackFillIdempotent(rows[1..]);
      assert r[1..] == BackFillRows(rows[1..]);
      var next := if r[1..] == [] then [] else r[1..][0].cells;
      assert FillCells(r[0].cells, next) == r[0].cells;
    }
  }

  /** Non-null cells of column `j` never decrease down the rows. */
  predicate MonotoneKnown(rows: seq<DayRow>, j: nat)
  {
    forall m, n ::
      && 0 <= m < n < |rows| && j < |rows[m].cells| && j < |rows[n].cells|
      && rows[m].cells[j].Some? && rows[n].cells[j].Some?
      ==> rows[m].cells[j].value <= rows[n].cells[j].value
  }

  /** For two filled cells, the known cells they were taken from come in the same order. */
  lemma {:induction false} BackFillSourcesOrdered(rows: seq<DayRow>, w: nat, j: nat, m: nat, n: nat)
    returns (km: nat, kn: nat)
    requires Uniform(rows, w) && j < w && m < n < |rows|
    requires BackFillRows(rows)[m].cells[j].Some? && BackFillRows(rows)[n].cells[j].Some?
    ensures m <= km <= kn < |rows| && n <= kn
    ensures rows[km].cells[j] == BackFillRows(rows)[m].cells[j]
    ensures rows[kn].cells[j] == BackFillRows(rows)[n].cells[j]
  {
    km := BackFillSource(rows, w, m, j);
    kn := BackFillSource(rows, w, n, j);
  }

  /** Backward fill keeps a column that was non-decreasing where known non-decreasing. */
  lemma {:induction false} BackFillKeepsMonotone(rows: seq<DayRow>, w: nat, j: nat)
    requires Uniform(rows, w) && j < w
    requires MonotoneKnown(rows, j)
    ensures MonotoneKnown(BackFillRows(rows), j)
  {
    var r := BackFillRows(rows);
    forall m, n | 0 <= m < n < |r| && j < |r[m].cells| && j < |r[n].cells| && r[m].cells[j].Some? && r[n].cells[j].Some?
      ensures r[m].cells[j].value <= r[n].cells[j].value
    {
      var km, kn := BackFillSourcesOrdered(rows, w, j, m, n);
      if km < kn {
        assert rows[km].cells[j].value <= rows[kn].cells[j].value;
      }
    }
  }
}
