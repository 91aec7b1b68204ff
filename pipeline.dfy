/**
 * The whole batch run, from the loaded export to the table handed to the
 * dashboard, and what it promises about that table.
 */
module Pipeline {
  import opened Wrappers
  import opened Config
  import opened Records
  import opened Normaliser
  import opened Guardrail
  import opened Aggregate
  import opened Calendar
  import opened Fill

  /** Either the table to publish, or the guardrail's rejection. */
  datatype Outcome = Published(table: seq<DayRow>) | Halted(diagnostic: Diagnostic)

  /**
   * The cumulative pivot completed onto the calendar, before the two fill
   * passes: one row per calendar day, the running counts on days with
   * applications and nulls on the other days.
   */
  function Joined(recs: seq<Record>, cfg: Settings): (u: seq<DayRow>)
    ensures JoinedSpec(recs, cfg, u)
  {
    JoinedMeetsSpec(recs, cfg);
    var dates := PivotDates(recs);
    var w := |cfg.sessions|;
    MergeOrdered(dates, CumSum(Pivot(recs, dates, cfg.sessions), w), DateRange(cfg.calendarStart, cfg.calendarEnd), w)
  }

  /**
   * The specification of a run: it halts exactly when the normalised table
   * has a present but unlisted session, with the guardrail's difference and
   * value counts; otherwise it publishes the filled table.
   */
  function Dashboard(raw: seq<RawRecord>, cfg: Settings): (out: Outcome)
    ensures out.Halted? <==> UncleanCount(Normalise(raw, cfg), cfg.sessions) > 0
    ensures out.Halted? ==>
              out.diagnostic == Diagnostic(UncleanCount(Normalise(raw, cfg), cfg.sessions), ValueCounts(Normalise(raw, cfg)))
  {
    UncleanZeroIffAllClean(Normalise(raw, cfg), cfg.sessions);
    match Check(Normalise(raw, cfg), cfg.sessions)
    case Rejected(d) => Halted(d)
    case Accepted(recs) => Published(BackFillRows(ZeroRows(Joined(recs, cfg), cfg.zeroBefore)))
  }

  /** The normalising steps as the script performs them: the clamp writes the sorted frame in place. */
  method NormaliseFrame(raw: seq<RawRecord>, cfg: Settings) returns (recs: seq<Record>)
    ensures recs == Normalise(raw, cfg)
  {
    var sorted := SortByDate(SelectColumns(BackfillEnrolled(raw)));
    var frame := new Record[|sorted|](i requires 0 <= i < |sorted| => sorted[i]);
    assert frame[..] == sorted;
    ClampInPlace(frame, cfg.registrationOpen);
    recs := RemapAll(frame[..], cfg.remap);
  }

  /** The two fill passes as the script performs them, in place on the joined frame. */
  method FillFrame(joined: seq<DayRow>, zeroBefore: Day) returns (table: seq<DayRow>)
    ensures table == BackFillRows(ZeroRows(joined, zeroBefore))
  {
    var frame := new DayRow[|joined|](i requires 0 <= i < |joined| => joined[i]);
    assert frame[..] == joined;
    ZeroInPlace(frame, zeroBefore);
    BackFillInPlace(frame);
    table := frame[..];
  }

  /** The run as the script performs it. */
  method Run(raw: seq<RawRecord>, cfg: Settings) returns (out: Outcome)
    ensures out == Dashboard(raw, cfg)
  {
    var remapped := NormaliseFrame(raw, cfg);
    match Check(remapped, cfg.sessions)
    case Rejected(d) =>
      out := Halted(d);
    case Accepted(recs) =>
      var table := FillFrame(Joined(recs, cfg), cfg.zeroBefore);
      out := Published(table);
  }

  /** The run halts exactly when a normalised record carries a session outside the closed list. */
  lemma {:induction false} HaltsIffUnlisted(raw: seq<RawRecord>, cfg: Settings)
    ensures Dashboard(raw, cfg).Halted? <==>
            exists i :: 0 <= i < |raw| && Normalise(raw, cfg)[i].session.Some? &&
                        Normalise(raw, cfg)[i].session.value !in cfg.sessions
    ensures Dashboard(raw, cfg).Halted? ==>
            Dashboard(raw, cfg).diagnostic.difference == UncleanCount(Normalise(raw, cfg), cfg.sessions) > 0
  {
  }

  /** A published table has one row per calendar day, in order, one cell per listed session. */
  lemma {:induction false} PublishedCalendar(raw: seq<RawRecord>, cfg: Settings)
    requires Dashboard(raw, cfg).Published?
    ensures |Dashboard(raw, cfg).table| == if cfg.calendarStart <= cfg.calendarEnd then cfg.calendarEnd - cfg.calendarStart + 1 else 0
    ensures forall i :: 0 <= i < |Dashboard(raw, cfg).table| ==> Dashboard(raw, cfg).table[i].date == cfg.calendarStart + i
    ensures Uniform(Dashboard(raw, cfg).table, |cfg.sessions|)
  {
  }

  /** Every session cell of a day before the zeroing threshold is 0. */
  lemma {:induction false} PublishedZeroBefore(raw: seq<RawRecord>, cfg: Settings, i: nat, j: nat)
    requires Dashboard(raw, cfg).Published?
    requires i < |Dashboard(raw, cfg).table| && j < |cfg.sessions|
    requires Dashboard(raw, cfg).table[i].date < cfg.zeroBefore
    ensures Dashboard(raw, cfg).table[i].cells[j] == Some(0)
  {
    var t := PublishedStaged(raw, cfg);
    assert t[i].cells[j] == Some(0);
  }

  /**
   * What the zeroed joined table holds: one row per calendar day; zeros before
   * the threshold; on or after it, the cumulative counts on days with
   * applications and nulls on the other days.
   */
  predicate StagedSpec(recs: seq<Record>, cfg: Settings, t: seq<DayRow>)
  {
    && |t| == |DateRange(cfg.calendarStart, cfg.calendarEnd)|
    && Uniform(t, |cfg.sessions|)
    && (forall k :: 0 <= k < |t| ==> t[k].date == cfg.calendarStart + k)
    && (forall k, j :: 0 <= k < |t| && 0 <= j < |cfg.sessions| && t[k].date < cfg.zeroBefore ==>
          t[k].cells[j] == Some(0))
    && (forall k, j :: 0 <= k < |t| && 0 <= j < |cfg.sessions| && t[k].date >= cfg.zeroBefore ==>
          (t[k].cells[j].Some? <==> Active(recs, t[k].date)))
    && (forall k, j :: 0 <= k < |t| && 0 <= j < |cfg.sessions| && t[k].date >= cfg.zeroBefore && t[k].cells[j].Some? ==>
          t[k].cells[j].value == CountUpTo(recs, cfg.sessions[j], t[k].date))
  }

  /**
   * What the joined table holds: one row per calendar day, the cumulative
   * counts on days with applications and nulls on the other days.
   */
  predicate JoinedSpec(recs: seq<Record>, cfg: Settings, u: seq<DayRow>)
  {
    && |u| == |DateRange(cfg.calendarStart, cfg.calendarEnd)|
    && Uniform(u, |cfg.sessions|)
    && (forall k :: 0 <= k < |u| ==> u[k].date == cfg.calendarStart + k)
    && (forall k, j :: 0 <= k < |u| && 0 <= j < |cfg.sessions| ==>
          (u[k].cells[j].Some? <==> Active(recs, u[k].date)))
    && (forall k, j :: 0 <= k < |u| && 0 <= j < |cfg.sessions| && u[k].cells[j].Some? ==>
          u[k].cells[j].value == CountUpTo(recs, cfg.sessions[j], u[k].date))
  }

  /**
   * A table laid over the calendar as the merge lays a pivot (the pivot's row
   * on a pivot date, nulls elsewhere), from a pivot whose dates are the active
   * days and whose cells are the running counts, meets the joined description.
   */
  lemma {:induction false} MergedMeetsSpec(recs: seq<Record>, cfg: Settings, dates: seq<Day>, cum: seq<seq<nat>>, u: seq<DayRow>)
    requires forall d :: d in dates <==> Active(recs, d)
    requires |cum| == |dates| && Rectangular(cum, |cfg.sessions|)
    requires forall p, j :: 0 <= p < |dates| && 0 <= j < |cfg.sessions| ==>
               cum[p][j] == CountUpTo(recs, cfg.sessions[j], dates[p])
    requires |u| == |DateRange(cfg.calendarStart, cfg.calendarEnd)| && Uniform(u, |cfg.sessions|)
    requires forall k :: 0 <= k < |u| ==> u[k].date == cfg.calendarStart + k
    requires forall k, j :: 0 <= k < |u| && 0 <= j < |cfg.sessions| && u[k].date !in dates ==> u[k].cells[j].None?
    requires forall k, p, j :: 0 <= k < |u| && 0 <= p < |dates| && 0 <= j < |cfg.sessions| && u[k].date == dates[p] ==>
               u[k].cells[j] == Some(cum[p][j])
    ensures JoinedSpec(recs, cfg, u)
  {
    forall k, j | 0 <= k < |u| && 0 <= j < |cfg.sessions|
      ensures u[k].cells[j].Some? <==> Active(recs, u[k].date)
      ensures u[k].cells[j].Some? ==> u[k].cells[j].value == CountUpTo(recs, cfg.sessions[j], u[k].date)
    {
      if u[k].date in dates {
        var p :| 0 <= p < |dates| && dates[p] == u[k].date;
        assert u[k].cells[j] == Some(cum[p][j]);
      }
    }
  }

  /** The merge lays the pivot over the calendar as `MergedMeetsSpec` asks. */
  lemma {:induction false} MergedLayout(dates: seq<Day>, cum: seq<seq<nat>>, cfg: Settings)
    requires |cum| == |dates| && Rectangular(cum, |cfg.sessions|) && StrictlyIncreasing(dates)
    ensures var u := MergeOrdered(dates, cum, DateRange(cfg.calendarStart, cfg.calendarEnd), |cfg.sessions|);
            && |u| == |DateRange(cfg.calendarStart, cfg.calendarEnd)| && Uniform(u, |cfg.sessions|)
            && (forall k :: 0 <= k < |u| ==> u[k].date == cfg.calendarStart + k)
            && (forall k, j :: 0 <= k < |u| && 0 <= j < |cfg.sessions| && u[k].date !in dates ==> u[k].cells[j].None?)
            && (forall k, p, j :: 0 <= k < |u| && 0 <= p < |dates| && 0 <= j < |cfg.sessions| && u[k].date == dates[p] ==>
                  u[k].cells[j] == Some(cum[p][j]))
  {
  }

  /** The merged cumulative pivot meets the joined description. */
  lemma {:induction false} JoinedMeetsSpec(recs: seq<Record>, cfg: Settings)
    ensures var dates := PivotDates(recs);
            var w := |cfg.sessions|;
            JoinedSpec(recs, cfg, MergeOrdered(dates, CumSum(Pivot(recs, dates, cfg.sessions), w),
                                               DateRange(cfg.calendarStart, cfg.calendarEnd), w))
  {
    var dates := PivotDates(recs);
    var cum := CumSum(Pivot(recs, dates, cfg.sessions), |cfg.sessions|);
    forall p, j | 0 <= p < |dates| && 0 <= j < |cfg.sessions|
      ensures cum[p][j] == CountUpTo(recs, cfg.sessions[j], dates[p])
    {
      CumulativePivot(recs, cfg.sessions, p, j);
    }
    MergedLayout(dates, cum, cfg);
    MergedMeetsSpec(recs, cfg, dates, cum, MergeOrdered(dates, cum, DateRange(cfg.calendarStart, cfg.calendarEnd), |cfg.sessions|));
  }

  /** Zeroing the rows before the threshold turns the joined description into the staged one. */
  lemma {:induction false} ZeroedMeetsSpec(recs: seq<Record>, cfg: Settings, u: seq<DayRow>)
    requires JoinedSpec(recs, cfg, u)
    ensures StagedSpec(recs, cfg, ZeroRows(u, cfg.zeroBefore))
  {
  }

  /** The zeroed joined table meets its description. */
  lemma {:induction false} StagedMeetsSpec(recs: seq<Record>, cfg: Settings)
    ensures StagedSpec(recs, cfg, ZeroRows(Joined(recs, cfg), cfg.zeroBefore))
  {
    ZeroedMeetsSpec(recs, cfg, Joined(recs, cfg));
  }

  /** Two known cells of a column of such a table compare as their days do. */
  lemma {:induction false} StagedPair(recs: seq<Record>, cfg: Settings, t: seq<DayRow>, j: nat, m: nat, n: nat)
    requires StagedSpec(recs, cfg, t)
    requires m < n < |t| && j < |cfg.sessions|
    requires t[m].cells[j].Some? && t[n].cells[j].Some?
    ensures t[m].cells[j].value <= t[n].cells[j].value
  {
    if t[m].date >= cfg.zeroBefore {
      CountUpToMonotone(recs, cfg.sessions[j], t[m].date, t[n].date);
    }
  }

  /** Where both are known, a column of such a table never decreases. */
  lemma {:induction false} StagedMonotone(recs: seq<Record>, cfg: Settings, t: seq<DayRow>, j: nat)
    requires StagedSpec(recs, cfg, t) && j < |cfg.sessions|
    ensures MonotoneKnown(t, j)
  {
    forall m, n | 0 <= m < n < |t| && j < |t[m].cells| && j < |t[n].cells| && t[m].cells[j].Some? && t[n].cells[j].Some?
      ensures t[m].cells[j].value <= t[n].cells[j].value
    {
      StagedPair(recs, cfg, t, j, m, n);
    }
  }

  /** From a row on or after the threshold down, a column is all null exactly when no later day has applications. */
  lemma {:induction false} StagedNullBelow(recs: seq<Record>, cfg: Settings, t: seq<DayRow>, i: nat, j: nat)
    requires StagedSpec(recs, cfg, t)
    requires i < |t| && j < |cfg.sessions| && t[i].date >= cfg.zeroBefore
    ensures (forall m :: i <= m < |t| ==> t[m].cells[j].None?) <==>
            (forall e :: t[i].date <= e <= cfg.calendarEnd ==> !Active(recs, e))
  {
    if forall m :: i <= m < |t| ==> t[m].cells[j].None? {
      forall e | t[i].date <= e <= cfg.calendarEnd ensures !Active(recs, e) {
        var m := e - cfg.calendarStart;
        assert t[m].date == e;
      }
    }
  }

  /**
   * From a row on or after the threshold down, the first known cell of a
   * column is on the first later day with applications.
   */
  lemma {:induction false} StagedNearest(recs: seq<Record>, cfg: Settings, t: seq<DayRow>, i: nat, j: nat, e: Day)
    requires StagedSpec(recs, cfg, t)
    requires i < |t| && j < |cfg.sessions|
    requires cfg.zeroBefore <= t[i].date <= e <= cfg.calendarEnd
    requires Active(recs, e)
    requires forall x :: t[i].date <= x < e ==> !Active(recs, x)
    ensures e - cfg.calendarStart < |t|
    ensures t[e - cfg.calendarStart].cells[j] == Some(CountUpTo(recs, cfg.sessions[j], e))
    ensures forall m :: i <= m < e - cfg.calendarStart ==> t[m].cells[j].None?
  {
    var k := e - cfg.calendarStart;
    assert t[k].date == e;
  }

  /**
   * From a row on or after the threshold, a filled cell of such a table holds
   * the running count of the first later day with applications.
   */
  lemma {:induction false} FilledNextKnown(recs: seq<Record>, cfg: Settings, t: seq<DayRow>, i: nat, j: nat, e: Day)
    requires StagedSpec(recs, cfg, t)
    requires i < |t| && j < |cfg.sessions|
    requires cfg.zeroBefore <= t[i].date <= e <= cfg.calendarEnd
    requires Active(recs, e)
    requires forall x :: t[i].date <= x < e ==> !Active(recs, x)
    ensures BackFillRows(t)[i].cells[j] == Some(CountUpTo(recs, cfg.sessions[j], e))
  {
    StagedNearest(recs, cfg, t, i, j, e);
    BackFillNearest(t, |cfg.sessions|, i, j, e - cfg.calendarStart);
  }

  /** From a row on or after the threshold, a filled cell is null exactly when no later day has applications. */
  lemma {:induction false} FilledNull(recs: seq<Record>, cfg: Settings, t: seq<DayRow>, i: nat, j: nat)
    requires StagedSpec(recs, cfg, t)
    requires i < |t| && j < |cfg.sessions| && t[i].date >= cfg.zeroBefore
    ensures BackFillRows(t)[i].cells[j].None? <==>
            forall e :: t[i].date <= e <= cfg.calendarEnd ==> !Active(recs, e)
  {
    StagedNullBelow(recs, cfg, t, i, j);
    BackFillStaysNull(t, |cfg.sessions|, i, j);
  }

  /** A row on or after the threshold but before every record's date is filled from the row below. */
  lemma {:induction false} FilledBeforeOpening(recs: seq<Record>, cfg: Settings, t: seq<DayRow>, i: nat, j: nat)
    requires StagedSpec(recs, cfg, t)
    requires i + 1 < |t| && j < |cfg.sessions|
    requires forall r :: 0 <= r < |recs| ==> recs[r].appDate >= cfg.registrationOpen
    requires cfg.zeroBefore <= t[i].date < cfg.registrationOpen
    ensures BackFillRows(t)[i].cells[j] == BackFillRows(t)[i + 1].cells[j]
  {
    assert !Active(recs, t[i].date);
    BackFillStep(t, |cfg.sessions|, i, j);
  }

  /** A published table is the backward fill of a table with the staged description. */
  lemma {:induction false} PublishedStaged(raw: seq<RawRecord>, cfg: Settings) returns (t: seq<DayRow>)
    requires Dashboard(raw, cfg).Published?
    ensures StagedSpec(Normalise(raw, cfg), cfg, t)
    ensures Dashboard(raw, cfg).table == BackFillRows(t)
  {
    t := ZeroRows(Joined(Normalise(raw, cfg), cfg), cfg.zeroBefore);
    StagedMeetsSpec(Normalise(raw, cfg), cfg);
  }

  /**
   * On or after the zeroing threshold, a published cell holds the cumulative
   * count of its session up to the first day, from that one on, that has
   * applications: the next known cumulative value, not the previous one.
   */
  lemma {:induction false} PublishedNextKnown(raw: seq<RawRecord>, cfg: Settings, i: nat, j: nat, e: Day)
    requires Dashboard(raw, cfg).Published?
    requires i < |Dashboard(raw, cfg).table| && j < |cfg.sessions|
    requires cfg.zeroBefore <= Dashboard(raw, cfg).table[i].date <= e <= cfg.calendarEnd
    requires Active(Normalise(raw, cfg), e)
    requires forall x :: Dashboard(raw, cfg).table[i].date <= x < e ==> !Active(Normalise(raw, cfg), x)
    ensures Dashboard(raw, cfg).table[i].cells[j] == Some(CountUpTo(Normalise(raw, cfg), cfg.sessions[j], e))
  {
    var t := PublishedStaged(raw, cfg);
    FilledNextKnown(Normalise(raw, cfg), cfg, t, i, j, e);
  }

  /**
   * A published day on or after the zeroing threshold that has no
   * applications, with a later day that has some, shows its own running count
   * plus that later day's applications: the backward fill reports them ahead
   * of the day they arrive.
   */
  lemma {:induction false} PublishedGapRunsAhead(raw: seq<RawRecord>, cfg: Settings, i: nat, j: nat, e: Day)
    requires Dashboard(raw, cfg).Published?
    requires i < |Dashboard(raw, cfg).table| && j < |cfg.sessions|
    requires cfg.zeroBefore <= Dashboard(raw, cfg).table[i].date < e <= cfg.calendarEnd
    requires Active(Normalise(raw, cfg), e)
    requires forall x :: Dashboard(raw, cfg).table[i].date <= x < e ==> !Active(Normalise(raw, cfg), x)
    ensures Dashboard(raw, cfg).table[i].cells[j].Some?
    ensures Dashboard(raw, cfg).table[i].cells[j].value ==
            CountUpTo(Normalise(raw, cfg), cfg.sessions[j], Dashboard(raw, cfg).table[i].date) +
            CountOn(Normalise(raw, cfg), cfg.sessions[j], e)
  {
    var recs, d := Normalise(raw, cfg), Dashboard(raw, cfg).table[i].date;
    PublishedNextKnown(raw, cfg, i, j, e);
    CountUpToAcrossGap(recs, cfg.sessions[j], d, e);

  }

  /**
   * On or after the zeroing threshold, a published cell is null exactly when no
   * day from it to the end of the calendar has applications.
   */
  lemma {:induction false} PublishedNull(raw: seq<RawRecord>, cfg: Settings, i: nat, j: nat)
    requires Dashboard(raw, cfg).Published?
    requires i < |Dashboard(raw, cfg).table| && j < |cfg.sessions|
    requires cfg.zeroBefore <= Dashboard(raw, cfg).table[i].date
    ensures Dashboard(raw, cfg).table[i].cells[j].None? <==>
            forall e :: Dashboard(raw, cfg).table[i].date <= e <= cfg.calendarEnd ==> !Active(Normalise(raw, cfg), e)
  {
    var t := PublishedStaged(raw, cfg);
    FilledNull(Normalise(raw, cfg), cfg, t, i, j);
  }

  /** Where both are known, a published session column never decreases from one day to a later one. */
  lemma {:induction false} PublishedMonotone(raw: seq<RawRecord>, cfg: Settings, j: nat)
    requires Dashboard(raw, cfg).Published? && j < |cfg.sessions|
    ensures MonotoneKnown(Dashboard(raw, cfg).table, j)
  {
    var t := PublishedStaged(raw, cfg);
    StagedMonotone(Normalise(raw, cfg), cfg, t, j);
    BackFillKeepsMonotone(t, |cfg.sessions|, j);
  }

  /**
   * A published row on or after the zeroing threshold but before registration
   * opened is the next row again: no clamped record falls on it, so the
   * backward fill copies the row below.
   */
  lemma {:induction false} PublishedBeforeOpening(raw: seq<RawRecord>, cfg: Settings, i: nat, j: nat)
    requires Dashboard(raw, cfg).Published?
    requires i + 1 < |Dashboard(raw, cfg).table| && j < |cfg.sessions|
    requires cfg.zeroBefore <= Dashboard(raw, cfg).table[i].date < cfg.registrationOpen
    ensures Dashboard(raw, cfg).table[i].cells[j] == Dashboard(raw, cfg).table[i + 1].cells[j]
  {
    var t := PublishedStaged(raw, cfg);
    FilledBeforeOpening(Normalise(raw, cfg), cfg, t, i, j);
  }

  /**
   * With the script's settings, the 2020-09-14 row is not zeroed but carries the
   * 2020-09-15 figures back, since every application is clamped to opening day.
   */
  lemma {:induction false} RegistrationEve(raw: seq<RawRecord>, j: nat)
    requires Dashboard(raw, Default).Published? && j < |Default.sessions|
    ensures 45 < |Dashboard(raw, Default).table|
    ensures Dashboard(raw, Default).table[44].date == ZeroBefore
    ensures Dashboard(raw, Default).table[44].cells[j] == Dashboard(raw, Default).table[45].cells[j]
  {
    PublishedCalendar(raw, Default);
    PublishedBeforeOpening(raw, Default, 44, j);
  }

  /**
   * A row whose session, after the fallback, is neither a remap key nor in the
   * closed list stops the run.
   */
  lemma {:induction false} UnlistedLabelHalts(raw: seq<RawRecord>, cfg: Settings, i: nat)
    requires i < |raw| && BackfillEnrolled(raw)[i].enrolled.Some?
    requires Lookup(cfg.remap, BackfillEnrolled(raw)[i].enrolled.value).None?
    requires BackfillEnrolled(raw)[i].enrolled.value !in cfg.sessions
    ensures Dashboard(raw, cfg).Halted?
  {
    var k := NormaliseKeepsRow(raw, cfg, i);
    HaltsIffUnlisted(raw, cfg);
  }

  /** A one-row export whose session is unlisted halts with a difference of 1. */
  lemma {:induction false} LoneUnlistedLabel(raw: seq<RawRecord>, cfg: Settings)
    requires |raw| == 1 && BackfillEnrolled(raw)[0].enrolled.Some?
    requires Lookup(cfg.remap, BackfillEnrolled(raw)[0].enrolled.value).None?
    requires BackfillEnrolled(raw)[0].enrolled.value !in cfg.sessions
    ensures Dashboard(raw, cfg).Halted? && Dashboard(raw, cfg).diagnostic.difference == 1
  {
    UnlistedLabelHalts(raw, cfg, 0);
    var k := NormaliseKeepsRow(raw, cfg, 0);
    HaltsIffUnlisted(raw, cfg);
    var recs := Normalise(raw, cfg);
    var text := BackfillEnrolled(raw)[0].enrolled.value;
    assert recs[0].session == Some(text);
    assert recs[1..] == [];
    assert UncleanCount(recs, cfg.sessions) == 1 + UncleanCount(recs[1..], cfg.sessions);
  }

  /** One application for an unknown combination halts the 2021 run with a difference of 1. */
  lemma UnknownComboHalts()
    ensures var raw := [RawRecord(1, Some("A"), 18515, Some("Unknown Combo XYZ"), None, None)];
            && Dashboard(raw, Default).Halted?
            && Dashboard(raw, Default).diagnostic.difference == 1
  {
    var raw := [RawRecord(1, Some("A"), 18515, Some("Unknown Combo XYZ"), None, None)];
    assert BackfillEnrolled(raw)[0] == raw[0];
    UnknownComboNotRemapped();
    LoneUnlistedLabel(raw, Default);
  }
}
