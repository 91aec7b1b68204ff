/**
 * The session guardrail: after remapping, every non-null session must be in
 * the closed list, otherwise the run is rejected with the label counts.
 */
module Guardrail {
  import opened Wrappers
  import opened Records

  /** What the script prints before failing: the value counts of the session column. */
  datatype Diagnostic = Diagnostic(difference: nat, valueCounts: map<string, nat>)

  datatype Verdict = Accepted(rows: seq<Record>) | Rejected(diagnostic: Diagnostic)

  /** `count()` of the session column: the non-null cells. */
  function NonNullCount(rows: seq<Record>): (c: nat)
    ensures c <= |rows|
    ensures c == |rows| <==> forall i :: 0 <= i < |rows| ==> rows[i].session.Some?
    ensures c == 0 <==> forall i :: 0 <= i < |rows| ==> rows[i].session.None?
  {
    if rows == [] then 0
    else
      assert forall i :: 1 <= i < |rows| ==> rows[i] == rows[1..][i - 1];
      (if rows[0].session.Some? then 1 else 0) + NonNullCount(rows[1..])
  }

  /** `isin(clean_session_list).sum()`: a null cell is never in the list. */
  function CleanCount(rows: seq<Record>, clean: seq<string>): (c: nat)
    ensures c <= NonNullCount(rows)
    ensures c == 0 <==> forall i :: 0 <= i < |rows| && rows[i].session.Some? ==> rows[i].session.value !in clean
  {
    if rows == [] then 0
    else
      assert forall i :: 1 <= i < |rows| ==> rows[i] == rows[1..][i - 1];
      (if rows[0].session.Some? && rows[0].session.value in clean then 1 else 0) + CleanCount(rows[1..], clean)
  }

  /** The rows whose session is present but outside the closed list. */
  function UncleanCount(rows: seq<Record>, clean: seq<string>): nat
  {
    if rows == [] then 0
    else (if rows[0].session.Some? && rows[0].session.value !in clean then 1 else 0) + UncleanCount(rows[1..], clean)
  }

  /** Rows whose session is exactly `text`. */
  function LabelCount(rows: seq<Record>, text: string): (c: nat)
    ensures c > 0 <==> HasLabel(rows, text)
  {
    if rows == [] then 0
    else
      assert forall i :: 1 <= i < |rows| ==> rows[i] == rows[1..][i - 1];
      (if rows[0].session == Some(text) then 1 else 0) + LabelCount(rows[1..], text)
  }

  predicate HasLabel(rows: seq<Record>, text: string)
  {
    exists i :: 0 <= i < |rows| && rows[i].session == Some(text)
  }

  /** `value_counts()`: every non-null label with the number of rows carrying it. */
  function ValueCounts(rows: seq<Record>): (m: map<string, nat>)
    ensures forall text :: text in m <==> HasLabel(rows, text)
    ensures forall text :: text in m ==> m[text] == LabelCount(rows, text) && m[text] > 0
  {
    if rows == [] then map[]
    else
      var rest := ValueCounts(rows[1..]);
      assert forall text :: HasLabel(rows[1..], text) ==> HasLabel(rows, text) by {
        forall text | HasLabel(rows[1..], text) ensures HasLabel(rows, text) {
          var i :| 0 <= i < |rows[1..]| && rows[1..][i].session == Some(text);
          assert rows[i + 1].session == Some(text);
        }
      }
      assert forall text :: HasLabel(rows, text) && rows[0].session != Some(text) ==> HasLabel(rows[1..], text) by {
        forall text | HasLabel(rows, text) && rows[0].session != Some(text) ensures HasLabel(rows[1..], text) {
          var i :| 0 <= i < |rows| && rows[i].session == Some(text);
          assert i > 0 && rows[1..][i - 1].session == Some(text);
        }
      }
      match rows[0].session
      case None => rest
      case Some(text) => rest[text := (if text in rest then rest[text] else 0) + 1]
  }

  /** The difference the script computes is the number of present-but-unlisted sessions. */
  lemma {:induction false} DifferenceIsUnclean(rows: seq<Record>, clean: seq<string>)
    ensures NonNullCount(rows) == CleanCount(rows, clean) + UncleanCount(rows, clean)
  {
    if rows != [] {
      DifferenceIsUnclean(rows[1..], clean);
    }
  }

  /** No unlisted session is counted exactly when every present session is listed. */
  lemma {:induction false} UncleanZeroIffAllClean(rows: seq<Record>, clean: seq<string>)
    ensures UncleanCount(rows, clean) == 0 <==>
            forall i :: 0 <= i < |rows| && rows[i].session.Some? ==> rows[i].session.value in clean
  {
    if rows != [] {
      UncleanZeroIffAllClean(rows[1..], clean);
      assert forall i :: 1 <= i < |rows| ==> rows[i] == rows[1..][i - 1];
    }
  }

  /** `assert difference == 0`, as a verdict instead of an abort. */
  function Check(rows: seq<Record>, clean: seq<string>): (v: Verdict)
    ensures v.Accepted? <==>
            forall i :: 0 <= i < |rows| && rows[i].session.Some? ==> rows[i].session.value in clean
    ensures v.Accepted? ==> v.rows == rows
    ensures v.Rejected? ==> v.diagnostic.difference == UncleanCount(rows, clean) > 0
    ensures v.Rejected? ==> v.diagnostic.valueCounts == ValueCounts(rows)
    ensures v.Rejected? ==> exists text :: text in v.diagnostic.valueCounts && text !in clean
  {
    DifferenceIsUnclean(rows, clean);
    UncleanZeroIffAllClean(rows, clean);
    var difference := NonNullCount(rows) - CleanCount(rows, clean);
    if difference == 0 then
      Accepted(rows)
    else
      var i :| 0 <= i < |rows| && rows[i].session.Some? && rows[i].session.value !in clean;
      assert HasLabel(rows, rows[i].session.value);
      Rejected(Diagnostic(difference, ValueCounts(rows)))
  }
}
