/**
 * The normalising half of the script: fill the enrolled session from the
 * applied session, keep the needed columns, sort by application date, clamp
 * early dates onto registration-open, and remap session labels.
 */
module Normaliser {
  import opened Wrappers
  import opened Config
  import opened Records

  /** `fillna` of "Enrolled Sessions" from "Applied Sessions", row by row. */
  function BackfillEnrolled(rows: seq<RawRecord>): (r: seq<RawRecord>)
    ensures |r| == |rows|
    ensures forall i :: 0 <= i < |rows| && rows[i].enrolled.Some? ==> r[i] == rows[i]
    ensures forall i :: 0 <= i < |rows| && rows[i].enrolled.None? ==>
              r[i] == rows[i].(enrolled := rows[i].applied)
  {
    if rows == [] then []
    else
      var row := rows[0];
      [if row.enrolled.None? then row.(enrolled := row.applied) else row] + BackfillEnrolled(rows[1..])
  }

  /** Keeps "Full Name", "Application Date", "Enrolled Sessions" and "Gender" (and the key). */
  function SelectColumns(rows: seq<RawRecord>): (r: seq<Record>)
    ensures |r| == |rows|
    ensures forall i :: 0 <= i < |rows| ==>
              && r[i].personId == rows[i].personId
              && r[i].fullName == rows[i].fullName
              && r[i].appDate == rows[i].appDate
              && r[i].session == rows[i].enrolled
              && r[i].gender == rows[i].gender
  {
    if rows == [] then []
    else
      var row := rows[0];
      [Record(row.personId, row.fullName, row.appDate, row.enrolled, row.gender)] + SelectColumns(rows[1..])
  }

  /** Inserts `x` in front of the first record that is not dated earlier. */
  function InsertByDate(x: Record, rs: seq<Record>): (r: seq<Record>)
    requires SortedByDate(rs)
    ensures SortedByDate(r)
    ensures multiset(r) == multiset(rs) + multiset{x}
    ensures |r| == |rs| + 1
  {
    if rs == [] || x.appDate <= rs[0].appDate then
      [x] + rs
    else
      SortedTail(rs);
      var tail := InsertByDate(x, rs[1..]);
      BoundByMultiset(rs[0].appDate, tail, rs[1..], x);
      SortedPrepend(rs[0], tail);
      assert rs == [rs[0]] + rs[1..];
      [rs[0]] + tail
  }

  /** The rest of a sorted table is sorted and dated no earlier than its head. */
  lemma SortedTail(rs: seq<Record>)
    requires SortedByDate(rs) && rs != []
    ensures SortedByDate(rs[1..])
    ensures forall k :: 0 <= k < |rs| - 1 ==> rs[0].appDate <= rs[1..][k].appDate
  {
    forall k | 0 <= k < |rs| - 1 ensures rs[1..][k] == rs[k + 1] { }
  }

  /** A record dated no later than every record of a sorted table can go in front. */
  lemma SortedPrepend(h: Record, t: seq<Record>)
    requires SortedByDate(t)
    requires forall k :: 0 <= k < |t| ==> h.appDate <= t[k].appDate
    ensures SortedByDate([h] + t)
  {
    forall k | 1 <= k < |t| + 1 ensures ([h] + t)[k] == t[k - 1] { }
  }

  /** A lower bound on the dates of a table holds for any rearrangement of it with one more record. */
  lemma BoundByMultiset(lo: Day, xs: seq<Record>, ys: seq<Record>, z: Record)
    requires multiset(xs) == multiset(ys) + multiset{z}
    requires lo <= z.appDate
    requires forall k :: 0 <= k < |ys| ==> lo <= ys[k].appDate
    ensures forall k :: 0 <= k < |xs| ==> lo <= xs[k].appDate
  {
    forall k | 0 <= k < |xs| ensures lo <= xs[k].appDate {
      assert xs[k] in multiset(xs);
      if xs[k] != z {
        assert xs[k] in multiset(ys);
      }
    }
  }

  /** `sort_values('Application Date', ascending=True)`. */
  function SortByDate(rows: seq<Record>): (r: seq<Record>)
    ensures SortedByDate(r)
    ensures multiset(r) == multiset(rows)
    ensures |r| == |rows|
  {
    if rows == [] then []
    else
      assert rows == [rows[0]] + rows[1..];
      InsertByDate(rows[0], SortByDate(rows[1..]))
  }

  /** Every application date before `open` becomes `open`; nothing else changes. */
  function ClampAll(rows: seq<Record>, open: Day): (r: seq<Record>)
    ensures |r| == |rows|
    ensures forall i :: 0 <= i < |r| ==> r[i].appDate >= open
    ensures forall i :: 0 <= i < |rows| && rows[i].appDate >= open ==> r[i] == rows[i]
    ensures forall i :: 0 <= i < |rows| && rows[i].appDate < open ==> r[i] == rows[i].(appDate := open)
  {
    if rows == [] then []
    else [ClampDate(rows[0], open)] + ClampAll(rows[1..], open)
  }

  /** One row of `df_sorted.loc[early_app_condition, 'Application Date'] = ...`. */
  function ClampDate(row: Record, open: Day): Record
  {
    if row.appDate < open then row.(appDate := open) else row
  }

  /** Clamping maps dates monotonically, so a date-sorted table stays sorted. */
  lemma ClampKeepsSorted(rows: seq<Record>, open: Day)
    requires SortedByDate(rows)
    ensures SortedByDate(ClampAll(rows, open))
  {
  }

  /** The in-place form: `df_sorted.loc[early_app_condition, 'Application Date'] = ...`. */
  method ClampInPlace(a: array<Record>, open: Day)
    modifies a
    ensures a[..] == ClampAll(old(a[..]), open)
  {
    ghost var before := a[..];
    ghost var target := ClampAll(before, open);
    var i := 0;
    while i < a.Length
      invariant 0 <= i <= a.Length
      invariant forall k :: 0 <= k < i ==> a[k] == target[k]
      invariant forall k :: i <= k < a.Length ==> a[k] == before[k]
    {
      if a[i].appDate < open {
        a[i] := a[i].(appDate := open);
      }
      i := i + 1;
    }
    assert a[..] == target;
  }

  /**
   * The value the remap dictionary holds for `text`. A dictionary literal has
   * distinct keys, so the first matching pair is the only one.
   */
  function Lookup(table: seq<(string, string)>, text: string): (r: Option<string>)
    ensures r.Some? <==> exists i :: 0 <= i < |table| && table[i].0 == text
    ensures r.Some? ==> exists i :: 0 <= i < |table| && table[i] == (text, r.value)
  {
    if table == [] then None
    else if table[0].0 == text then Some(table[0].1)
    else
      assert forall i :: 1 <= i < |table| ==> table[i] == table[1..][i - 1];
      Lookup(table[1..], text)
  }

  /** The lookup finds the first pair whose key is `text`. */
  lemma {:induction false} LookupFirst(table: seq<(string, string)>, text: string, i: nat)
    requires i < |table| && table[i].0 == text
    requires forall k :: 0 <= k < i ==> table[k].0 != text
    ensures Lookup(table, text) == Some(table[i].1)
  {
    if i > 0 {
      LookupFirst(table[1..], text, i - 1);
    }
  }

  /** `replace(exp_remap_dict)` on one cell's text: a key becomes its value, anything else passes through. */
  function Remap(table: seq<(string, string)>, text: string): string
  {
    match Lookup(table, text)
    case Some(canonical) => canonical
    case None => text
  }

  function RemapCell(table: seq<(string, string)>, cell: Option<string>): Option<string>
  {
    match cell
    case None => None
    case Some(text) => Some(Remap(table, text))
  }

  /** `replace` on one row: each text cell goes through the dictionary. */
  function RemapRecord(row: Record, table: seq<(string, string)>): Record
  {
    row.(fullName := RemapCell(table, row.fullName),
         session := RemapCell(table, row.session),
         gender := RemapCell(table, row.gender))
  }

  /**
   * `df.replace(exp_remap_dict)` replaces matching values in every column, so
   * the name and gender cells are remapped as well as the session.
   */
  function RemapAll(rows: seq<Record>, table: seq<(string, string)>): (r: seq<Record>)
    ensures |r| == |rows|
    ensures forall i :: 0 <= i < |rows| ==>
              && r[i].personId == rows[i].personId
              && r[i].appDate == rows[i].appDate
              && r[i].fullName.Some? == rows[i].fullName.Some?
              && r[i].gender.Some? == rows[i].gender.Some?
    ensures forall i :: 0 <= i < |rows| && rows[i].session.None? ==> r[i].session.None?
    ensures forall i :: 0 <= i < |rows| && rows[i].session.Some? && Lookup(table, rows[i].session.value).Some? ==>
              r[i].session == Lookup(table, rows[i].session.value)
    ensures forall i :: 0 <= i < |rows| && rows[i].session.Some? && Lookup(table, rows[i].session.value).None? ==>
              r[i].session == rows[i].session
  {
    if rows == [] then []
    else [RemapRecord(rows[0], table)] + RemapAll(rows[1..], table)
  }

  /** The remap treats each row on its own. */
  lemma {:induction false} RemapAllAt(rows: seq<Record>, table: seq<(string, string)>, k: nat)
    requires k < |rows|
    ensures k < |RemapAll(rows, table)|
    ensures RemapAll(rows, table)[k] == RemapRecord(rows[k], table)
  {
    if k > 0 {
      RemapAllAt(rows[1..], table, k - 1);
    }
  }

  /**
   * The normalised table handed to the guardrail: one row per input row,
   * ordered by application date, with no date before registration-open.
   */
  function Normalise(raw: seq<RawRecord>, cfg: Settings): (r: seq<Record>)
    ensures |r| == |raw|
    ensures SortedByDate(r)
    ensures forall i :: 0 <= i < |r| ==> r[i].appDate >= cfg.registrationOpen
  {
    var sorted := SortByDate(SelectColumns(BackfillEnrolled(raw)));
    ClampKeepsSorted(sorted, cfg.registrationOpen);
    RemapAll(ClampAll(sorted, cfg.registrationOpen), cfg.remap)
  }

  /**
   * Changing every row of two rearrangements of one table in the same way
   * gives two rearrangements of one table.
   */
  lemma {:induction false} RowwisePermutation(s: seq<Record>, t: seq<Record>, fs: seq<Record>, ft: seq<Record>, f: Record -> Record)
    requires multiset(s) == multiset(t)
    requires |fs| == |s| && forall i :: 0 <= i < |s| ==> fs[i] == f(s[i])
    requires |ft| == |t| && forall i :: 0 <= i < |t| ==> ft[i] == f(t[i])
    ensures multiset(fs) == multiset(ft)
    decreases |s|
  {
    if s == [] {
      assert |multiset(t)| == |t|;
    } else {
      assert s[0] in multiset(s);
      var k :| 0 <= k < |t| && t[k] == s[0];
      RemoveAtMultiset(t, k);
      RemoveAtRowwise(t, ft, f, k);
      RowwiseTail(s, fs, f);
      RowwisePermutation(s[1..], RemoveAt(t, k), fs[1..], RemoveAt(ft, k), f);
      PutBack(fs, ft, k);
    }
  }

  /** A row put back in front of a rearrangement of the rest gives a rearrangement of the whole. */
  lemma PutBack(fs: seq<Record>, ft: seq<Record>, k: nat)
    requires fs != [] && k < |ft| && ft[k] == fs[0]
    requires multiset(fs[1..]) == multiset(RemoveAt(ft, k))
    ensures multiset(fs) == multiset(ft)
  {
    RemoveAtMultiset(ft, k);
    assert ft[k] in multiset(ft);
    assert fs == [fs[0]] + fs[1..];
  }

  /** Dropping the first row of a table and of its rowwise image keeps them paired, and removes one occurrence. */
  lemma RowwiseTail(s: seq<Record>, fs: seq<Record>, f: Record -> Record)
    requires s != [] && |fs| == |s| && forall i :: 0 <= i < |s| ==> fs[i] == f(s[i])
    ensures forall i :: 0 <= i < |s| - 1 ==> fs[1..][i] == f(s[1..][i])
    ensures multiset(s[1..]) == multiset(s) - multiset{s[0]}
  {
    assert s == [s[0]] + s[1..];
  }

  /** The table without its row `k`. */
  function RemoveAt(t: seq<Record>, k: nat): (r: seq<Record>)
    requires k < |t|
    ensures |r| == |t| - 1
    ensures forall i :: 0 <= i < k ==> r[i] == t[i]
    ensures forall i :: k <= i < |r| ==> r[i] == t[i + 1]
  {
    t[..k] + t[k + 1..]
  }

  /** Removing row `k` removes one occurrence of it. */
  lemma RemoveAtMultiset(t: seq<Record>, k: nat)
    requires k < |t|
    ensures multiset(RemoveAt(t, k)) == multiset(t) - multiset{t[k]}
  {
    assert t == t[..k] + [t[k]] + t[k + 1..];
  }

  /** Removing the same row from a table and from its rowwise image keeps them paired. */
  lemma RemoveAtRowwise(t: seq<Record>, ft: seq<Record>, f: Record -> Record, k: nat)
    requires k < |t| && |ft| == |t| && forall i :: 0 <= i < |t| ==> ft[i] == f(t[i])
    ensures forall i :: 0 <= i < |t| - 1 ==> RemoveAt(ft, k)[i] == f(RemoveAt(t, k)[i])
  {
  }

  /**
   * Sorting only rearranges: the normalised table holds exactly the rows the
   * fallback, the column selection, the clamp and the remap make of the
   * export's rows, each as often as it arises.
   */
  lemma {:induction false} NormalisePermutation(raw: seq<RawRecord>, cfg: Settings)
    ensures multiset(Normalise(raw, cfg)) ==
            multiset(RemapAll(ClampAll(SelectColumns(BackfillEnrolled(raw)), cfg.registrationOpen), cfg.remap))
  {
    var open := cfg.registrationOpen;
    var selected := SelectColumns(BackfillEnrolled(raw));
    var sorted := SortByDate(selected);
    var cs := ClampAll(sorted, open);
    var cl := ClampAll(selected, open);
    RowwisePermutation(sorted, selected, cs, cl, row => ClampDate(row, open));
    forall i | 0 <= i < |cs| ensures RemapAll(cs, cfg.remap)[i] == RemapRecord(cs[i], cfg.remap) {
      RemapAllAt(cs, cfg.remap, i);
    }
    forall i | 0 <= i < |cl| ensures RemapAll(cl, cfg.remap)[i] == RemapRecord(cl[i], cfg.remap) {
      RemapAllAt(cl, cfg.remap, i);
    }
    RowwisePermutation(cs, cl, RemapAll(cs, cfg.remap), RemapAll(cl, cfg.remap), row => RemapRecord(row, cfg.remap));
  }

  /**
   * Every input row survives normalising: some normalised row is that row
   * after the fallback, the column selection, the clamp and the remap.
   */
  lemma {:induction false} NormaliseKeepsRow(raw: seq<RawRecord>, cfg: Settings, i: nat) returns (k: nat)
    requires i < |raw|
    ensures k < |Normalise(raw, cfg)|
    ensures Normalise(raw, cfg)[k] ==
            RemapRecord(ClampDate(SelectColumns(BackfillEnrolled(raw))[i], cfg.registrationOpen), cfg.remap)
    ensures Normalise(raw, cfg)[k].session == RemapCell(cfg.remap, BackfillEnrolled(raw)[i].enrolled)
  {
    var selected := SelectColumns(BackfillEnrolled(raw));
    var sorted := SortByDate(selected);
    assert selected[i] in multiset(selected);
    assert selected[i] in multiset(sorted);
    k :| 0 <= k < |sorted| && sorted[k] == selected[i];
    var clamped := ClampAll(sorted, cfg.registrationOpen);
    assert clamped[k] == ClampDate(selected[i], cfg.registrationOpen);
    RemapAllAt(clamped, cfg.remap, k);
  }

  /** Every value of the 2021 remap table is in the closed session list, and no key is. */
  lemma RemapTableLandsClean(text: string)
    ensures Lookup(RemapTable, text).Some? ==> Lookup(RemapTable, text).value in CleanSessions
    ensures text in CleanSessions ==> Lookup(RemapTable, text).None?
  {
    assert forall i :: 0 <= i < |RemapTable| ==> RemapTable[i].1 in CleanSessions;
    // every key is longer than every clean label
    assert forall i :: 0 <= i < |RemapTable| ==> |RemapTable[i].0| > 9;
  }

  /** Remapping with the 2021 table twice is the same as once. */
  lemma RemapIdempotent(text: string)
    ensures Remap(RemapTable, Remap(RemapTable, text)) == Remap(RemapTable, text)
  {
    RemapTableLandsClean(text);
    RemapTableLandsClean(Remap(RemapTable, text));
  }

  /** A compound label folds onto its canonical session; a canonical label passes through. */
  lemma RemapExamples()
    ensures Remap(RemapTable, "Mountain Biking 1- Base Camp Expedition and Session 2") == "Session 2"
    ensures Remap(RemapTable, "Western Expedition") == "EXP"
    ensures Remap(RemapTable, "Session 1") == "Session 1"
  {
    LookupFirst(RemapTable, "Mountain Biking 1- Base Camp Expedition and Session 2", 9);
    LookupFirst(RemapTable, "Western Expedition", 0);
    RemapTableLandsClean("Session 1");
  }

  /** A label the 2021 table does not know passes through the remap unchanged. */
  lemma UnknownComboNotRemapped()
    ensures Lookup(RemapTable, "Unknown Combo XYZ").None?
    ensures "Unknown Combo XYZ" !in CleanSessions
  {
    // no key of the 2021 table has the label's length
    assert forall i :: 0 <= i < |RemapTable| ==> |RemapTable[i].0| != 17;
    assert forall i :: 0 <= i < |CleanSessions| ==> |CleanSessions[i]| <= 9;
  }
}
