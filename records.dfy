/** The enrollment records as loaded and as normalised. */
module Records {
  import opened Wrappers
  import opened Config

  /** One row of the export, keyed by the person identifier. */
  datatype RawRecord = RawRecord(
    personId: int,
    fullName: Option<string>,
    appDate: Day,
    enrolled: Option<string>,   // "Enrolled Sessions"
    applied: Option<string>,    // "Applied Sessions", the fallback
    gender: Option<string>)

  /** A row restricted to the columns the dashboard needs. */
  datatype Record = Record(
    personId: int,
    fullName: Option<string>,
    appDate: Day,
    session: Option<string>,
    gender: Option<string>)

  /** Ascending by application date. */
  predicate SortedByDate(rs: seq<Record>)
  {
    forall i, k :: 0 <= i < k < |rs| ==> rs[i].appDate <= rs[k].appDate
  }

  /** Ascending without repeats: the shape of a date index. */
  predicate StrictlyIncreasing(ds: seq<Day>)
  {
    forall i, k :: 0 <= i < k < |ds| ==> ds[i] < ds[k]
  }

  /** A cell of the daily table: a count, or null. */
  type Cell = Option<nat>

  /** One row of the joined table: its "Standard Date" and one cell per session column. */
  datatype DayRow = DayRow(date: Day, cells: seq<Cell>)

  /** A count matrix whose rows all have `w` columns. */
  predicate Rectangular(m: seq<seq<nat>>, w: nat)
  {
    forall i :: 0 <= i < |m| ==> |m[i]| == w
  }

  /** A daily table whose rows all have `w` session cells. */
  predicate Uniform(rows: seq<DayRow>, w: nat)
  {
    forall i :: 0 <= i < |rows| ==> |rows[i].cells| == w
  }
}
