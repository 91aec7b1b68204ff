# Enrollment dashboard pipeline, modelled in Dafny

This project models the processing half of `auto_application_dashboard.py`, a
batch script that turns an export of summer-camp applications into a daily
table of cumulative enrollments per session. The model follows the same
stages:

1. **Normaliser** (`normaliser.dfy`). A missing "Enrolled Sessions" value is
   filled from "Applied Sessions". The needed columns are kept and the rows
   are sorted by application date. Any date before registration opened
   (2020-09-15) is clamped onto that day. Every cell is then passed through the
   expedition remap dictionary.
2. **Guardrail** (`guardrail.dfy`). The script computes (non-null sessions) −
   (sessions in the closed list `EXP`, `Session 1` … `Session 6`). It refuses
   to go on unless that difference is 0. The script's `assert` becomes a
   `Verdict`. A rejection carries the difference and the value counts the
   script prints.
3. **Pivot and cumulative sum** (`aggregate.dfy`). Named records are counted
   per (date, session). Each column is then turned into its running total in
   date order.
4. **Calendar completion** (`calendar.dfy`). The cumulative pivot is
   right-joined onto every day from 2020-08-01 to 2021-07-31. Days without
   applications become rows of nulls.
5. **Fill** (`fill.dfy`).
   - Every session cell of a day before 2020-09-14 is set to 0.
   - Then each remaining null takes the nearest non-null value below it in
     its column (`bfill`).

`pipeline.dfy` strings the stages together:

- `Dashboard` is the specification of a run: a published table, or a halt
  with the guardrail's diagnostic.
- `Run` computes it, using the in-place array passes for the clamp, the
  zeroing and the backward fill.

The lemmas then state what the script promises about the published table:

- one row per calendar day;
- zeros before the threshold;
- each cell is the next known cumulative count;
- columns never decrease where known;
- nulls remain exactly when no later day has applications.

Dates are day numbers (days since 1970-01-01):

| date | day number |
|---|---|
| 2020-08-01 | 18475 |
| 2020-09-14 | 18519 |
| 2020-09-15 | 18520 |
| 2021-07-31 | 18839 |

The configuration constants are gathered in `Config.Settings`, and
`Config.Default` holds the script's values. Each array method is proved equal
to a function on sequences, and the properties are proved about those
functions.

Where the script's comments and its code disagree, the model follows the code:

- **The fill direction.** The comment at lines 133-134 asks for "the same
  number as the day before" on a day without applications. Line 144 fills
  backwards (`bfill`), so such a day takes the figure of the next day that has
  applications (`Pipeline.PublishedNextKnown`). A gap day inside the season
  therefore shows its own running count plus the next active day's
  applications (`Pipeline.PublishedGapRunsAhead`). Days after the last
  application stay null, because nothing below them is known
  (`Pipeline.PublishedNull`).
- **The zeroing threshold.** The comment at line 136 keeps the fill away from
  the days before registration opened, and the clamp at lines 38-39 puts
  registration-open on 2020-09-15. Line 138, however, zeroes only the days
  strictly before 2020-09-14. No record is dated 2020-09-14 after the clamp,
  so the backward fill copies the 2020-09-15 figures onto that day
  (`Pipeline.PublishedBeforeOpening`, `Pipeline.RegistrationEve`).

An example of both: take an export that normalises to one EXP application on
2020-09-15 and two Session 1 applications on 2020-09-20. The published
2020-09-14 row already has EXP = 1. Session 1 shows 2 from 2020-09-16 on,
although those applications arrive on 2020-09-20. Every column is null from
2020-09-21 to the end of the calendar.

## Model

| member | source | states |
|---|---|---|
| Normaliser.BackfillEnrolled | auto_application_dashboard.py:28 | a row with no enrolled session takes its applied session; a row that has one is unchanged; no row is added or lost |
| Normaliser.SelectColumns | auto_application_dashboard.py:31-32 | each row keeps exactly its id, name, application date, enrolled session (as `session`) and gender |
| Normaliser.SortByDate | auto_application_dashboard.py:35 | the result is ascending by application date and is a permutation (same multiset) of the input |
| Normaliser.ClampAll | auto_application_dashboard.py:38-39 | every date is at least registration-open; rows already on or after it are unchanged; earlier rows differ only in the date, which becomes registration-open |
| Normaliser.ClampKeepsSorted | auto_application_dashboard.py:35-39 | clamping a date-sorted table leaves it date-sorted |
| Normaliser.ClampInPlace | auto_application_dashboard.py:38-39 | the in-place loop over the array leaves exactly `ClampAll` of the old contents |
| Normaliser.Lookup | auto_application_dashboard.py:45-60 | a value is found exactly when some pair has the label as key, and it is that pair's value |
| Normaliser.LookupFirst | auto_application_dashboard.py:45-60 | the lookup returns the value of the first pair whose key matches |
| Normaliser.RemapAll | auto_application_dashboard.py:62 | a session that is a dictionary key becomes its value; any other session, and a null, is unchanged; id and date are untouched; name and gender keep their nullness |
| Normaliser.RemapAllAt | auto_application_dashboard.py:62 | each row is remapped on its own: name, session and gender cells each go through the dictionary, key to value, anything else unchanged |
| Normaliser.Normalise | auto_application_dashboard.py:25-62 | the normalised table has one row per export row, is ascending by application date, and has no date before registration-open |
| Normaliser.NormalisePermutation | auto_application_dashboard.py:28-62 | sorting only rearranges: the normalised table holds, as a multiset, exactly the export's rows after the fallback, the column selection, the clamp and the remap |
| Normaliser.NormaliseKeepsRow | auto_application_dashboard.py:28-62 | for each export row, some normalised row is that row after the fallback, the column selection, the clamp and the remap (same person, clamped date, remapped session) |
| Normaliser.RemapTableLandsClean | auto_application_dashboard.py:45-73 | every value of the 2021 dictionary is in the closed list, and no closed-list label is a key |
| Normaliser.RemapIdempotent | auto_application_dashboard.py:62 | remapping with the 2021 dictionary twice is the same as once |
| Normaliser.RemapExamples | auto_application_dashboard.py:45-62 | 'Mountain Biking 1- Base Camp Expedition and Session 2' becomes 'Session 2', 'Western Expedition' becomes 'EXP', 'Session 1' stays |
| Normaliser.UnknownComboNotRemapped | auto_application_dashboard.py:45-73 | 'Unknown Combo XYZ' is neither a key of the dictionary nor in the closed list |
| Guardrail.NonNullCount | auto_application_dashboard.py:79 | at most the row count; equal to it exactly when every session is present, and 0 exactly when none is |
| Guardrail.CleanCount | auto_application_dashboard.py:76 | at most the non-null count, and 0 exactly when no present session is in the closed list |
| Guardrail.ValueCounts | auto_application_dashboard.py:86 | the keys are exactly the non-null session labels present, each mapped to the positive number of rows carrying it |
| Guardrail.LabelCount | auto_application_dashboard.py:86 | the count for a label is positive exactly when some row carries it |
| Guardrail.DifferenceIsUnclean | auto_application_dashboard.py:76-82 | non-null count − clean count equals the number of rows whose session is present but unlisted |
| Guardrail.UncleanZeroIffAllClean | auto_application_dashboard.py:82-91 | that number is 0 exactly when every present session is listed |
| Guardrail.Check | auto_application_dashboard.py:73-91 | accepts exactly when every non-null session is in the closed list, and then hands the rows on unchanged; a rejection carries difference = number of unlisted rows > 0 and the full value counts of the rows, which include an unlisted label |
| Aggregate.CountOn | auto_application_dashboard.py:97-102 | a pivot cell is positive exactly when some record with a name has that session and that date |
| Aggregate.PivotDates | auto_application_dashboard.py:97-99 | the pivot's dates are strictly ascending and are exactly the dates of records that have a session |
| Aggregate.Pivot | auto_application_dashboard.py:97-102 | one row per pivot date and one column per listed session |
| Aggregate.CumSum | auto_application_dashboard.py:105 | cell (i, j) is the sum of column j over rows 0..i |
| Aggregate.ColumnSumMonotone | auto_application_dashboard.py:105 | a longer prefix never has a smaller column sum |
| Aggregate.CumSumMonotone | auto_application_dashboard.py:105 | each cumulative column is non-decreasing down the rows |
| Aggregate.CountUpToStep | auto_application_dashboard.py:97-105 | with no active date strictly between a and b, the running count at b is the count at a plus b's own count |
| Aggregate.CountUpToAcrossGap | auto_application_dashboard.py:97-105 | across days without applications, the running count at the next active day is the count at the first of them plus that day's own count |
| Aggregate.CountUpToBeforeAll | auto_application_dashboard.py:97-105 | before every active date the running count is 0 |
| Aggregate.CountUpToAfterAll | auto_application_dashboard.py:97-105 | on or after every active date the running count is the column total |
| Aggregate.CountUpToMonotone | auto_application_dashboard.py:97-105 | the running count never decreases with the date |
| Aggregate.PivotPrefixIsCountUpTo | auto_application_dashboard.py:97-105 | the column sum of the first i+1 pivot rows is the number of counted records dated on or before the i-th pivot date |
| Aggregate.CountUpToLastDate | auto_application_dashboard.py:97-105 | up to the last active date, every counted record of the session is counted |
| Aggregate.CumulativeOver | auto_application_dashboard.py:97-105 | for any pivot whose rows are the active dates in order, each cumulative cell is the running count up to its date, and the last row is the column total |
| Aggregate.CumulativePivot | auto_application_dashboard.py:97-105 | each cumulative cell is the number of counted records up to its date, and the last row is each column's total |
| Calendar.DateRange | auto_application_dashboard.py:115-123 | the range has end − start + 1 days (0 when empty), the i-th being start + i |
| Calendar.DateRangeComplete | auto_application_dashboard.py:123 | the range is strictly ascending (so without repeats) and contains exactly the days from start to end |
| Calendar.RowOn | auto_application_dashboard.py:128 | a pivot row is found for a day exactly when the day is a pivot date, and it is that date's row |
| Calendar.MergeOrdered | auto_application_dashboard.py:128 | one row per calendar day, in calendar order; a day that is a pivot date carries that date's cumulative row, any other day carries nulls |
| Fill.ZeroRows | auto_application_dashboard.py:138-141 | rows dated before the threshold get 0 in every session cell; other rows are unchanged; dates and widths are kept |
| Fill.ZeroInPlace | auto_application_dashboard.py:138-141 | the forward loop over the array leaves exactly `ZeroRows` of the old contents |
| Fill.BackFillRows | auto_application_dashboard.py:144 | same rows, dates and widths; every non-null cell is unchanged |
| Fill.BackFillInPlace | auto_application_dashboard.py:144 | the in-place fill leaves exactly `BackFillRows` of the old contents |
| Fill.FillUpwards | auto_application_dashboard.py:144 | the descending loop, carrying the row below, turns the array into any table that is the array filled from below |
| Fill.BackFillAt | auto_application_dashboard.py:144 | row i of the filled table is row i with its nulls taken from filled row i+1 (none for the last row) |
| Fill.BackFillFromBelow | auto_application_dashboard.py:144 | the filled table is filled from below at every row |
| Fill.BackFillIsNextKnown | auto_application_dashboard.py:144 | a filled cell equals the first non-null cell at or below it in its column (independent definition `NextKnown`) |
| Fill.NextKnownIsNearest | auto_application_dashboard.py:144 | the first non-null cell found is the one with only nulls above it |
| Fill.NextKnownNone | auto_application_dashboard.py:144 | nothing is found exactly when the column has no non-null cell |
| Fill.NextKnownFound | auto_application_dashboard.py:144 | what is found is a non-null cell of the column with only nulls above it |
| Fill.BackFillNearest | auto_application_dashboard.py:144 | a null cell takes the nearest non-null value below it in the same column |
| Fill.BackFillStaysNull | auto_application_dashboard.py:144 | a cell is null after the fill exactly when it and every cell below it in its column were null |
| Fill.BackFillSource | auto_application_dashboard.py:144 | every filled cell's value comes from a non-null cell at or below it, with only nulls in between |
| Fill.BackFillStep | auto_application_dashboard.py:144 | a null cell ends up equal to the filled cell directly below it; in the last row it stays null |
| Fill.BackFillIdempotent | auto_application_dashboard.py:144 | filling a second time changes nothing |
| Fill.BackFillSourcesOrdered | auto_application_dashboard.py:144 | for two filled cells, the cells they were taken from come in the same order |
| Fill.BackFillKeepsMonotone | auto_application_dashboard.py:144 | a column whose known cells never decrease still has that property after the fill |
| Pipeline.Joined | auto_application_dashboard.py:97-128 | the joined table has one row per calendar day, dated in order, one cell per listed session, the running count on days with applications and null on the others |
| Pipeline.Dashboard | auto_application_dashboard.py:24-147 | a run halts exactly when some normalised session is present but unlisted, and then carries that number as the difference and the rows' full value counts |
| Pipeline.NormaliseFrame | auto_application_dashboard.py:25-62 | the array-based normalising equals `Normalise` |
| Pipeline.FillFrame | auto_application_dashboard.py:138-147 | the two in-place passes together produce the back-filled zeroed table |
| Pipeline.Run | auto_application_dashboard.py:24-147 | a run produces exactly the outcome `Dashboard` specifies |
| Pipeline.HaltsIffUnlisted | auto_application_dashboard.py:73-91 | the run halts exactly when some normalised session is outside the closed list, and then reports their number as the difference |
| Pipeline.UnlistedLabelHalts | auto_application_dashboard.py:73-91 | a row whose session, after the fallback, is neither a dictionary key nor listed makes the run halt |
| Pipeline.LoneUnlistedLabel | auto_application_dashboard.py:76-91 | a one-row export with such a session halts with difference 1 |
| Pipeline.UnknownComboHalts | auto_application_dashboard.py:73-91 | with the 2021 settings, one 'Unknown Combo XYZ' application halts the run with difference 1 |
| Pipeline.PublishedCalendar | auto_application_dashboard.py:115-147 | a published table has exactly one row per day from start to end, in order, with one cell per listed session |
| Pipeline.PublishedZeroBefore | auto_application_dashboard.py:138-141 | every session cell of a published day before the zeroing threshold is 0 |
| Pipeline.MergedMeetsSpec | auto_application_dashboard.py:97-128 | completing an ascending pivot of cumulative counts onto the calendar gives cumulative counts on active days and nulls on the others |
| Pipeline.MergedLayout | auto_application_dashboard.py:128 | the merge's table has one row per calendar day, dated start + k, with the pivot row on a pivot date and nulls elsewhere |
| Pipeline.JoinedMeetsSpec | auto_application_dashboard.py:97-128 | the merged cumulative pivot holds, per day and session, the running count on active days and null on the others |
| Pipeline.ZeroedMeetsSpec | auto_application_dashboard.py:138-141 | zeroing such a table gives zeros before the threshold and keeps it as it was from the threshold on |
| Pipeline.StagedMeetsSpec | auto_application_dashboard.py:97-141 | the table handed to the backward fill has that shape |
| Pipeline.StagedPair | auto_application_dashboard.py:105-141 | in that table, of two known cells of a column the later is at least the earlier |
| Pipeline.StagedMonotone | auto_application_dashboard.py:105-141 | in that table, the known cells of every column never decrease |
| Pipeline.StagedNullBelow | auto_application_dashboard.py:128-141 | from a day on or after the threshold, a column is null all the way down exactly when no later day has applications |
| Pipeline.StagedNearest | auto_application_dashboard.py:128-141 | from such a day, the first known cell down a column is on the first later day with applications and holds its running count |
| Pipeline.FilledNextKnown | auto_application_dashboard.py:128-144 | filling such a table puts, from the threshold on, the running count of the first later day with applications into each cell |
| Pipeline.FilledNull | auto_application_dashboard.py:128-144 | filling such a table leaves a cell on or after the threshold null exactly when no later day has applications |
| Pipeline.FilledBeforeOpening | auto_application_dashboard.py:138-144 | with every record dated from registration-open on, a row between the zeroing threshold and registration-open is filled from the row below |
| Pipeline.PublishedStaged | auto_application_dashboard.py:97-144 | a published table is the backward fill of a table with the staged description |
| Pipeline.PublishedNextKnown | auto_application_dashboard.py:128-144 | on or after the threshold, a published cell holds its session's running count at the first day from it onwards that has applications (the next value, not the previous one) |
| Pipeline.PublishedGapRunsAhead | auto_application_dashboard.py:97-144 | a published day on or after the threshold without applications, before a day with some, shows its own running count plus that later day's applications |
| Pipeline.PublishedNull | auto_application_dashboard.py:128-144 | on or after the threshold, a published cell is null exactly when no day from it to the calendar's end has applications |
| Pipeline.PublishedMonotone | auto_application_dashboard.py:105-144 | where known, every published session column is non-decreasing in date |
| Pipeline.PublishedBeforeOpening | auto_application_dashboard.py:138-144 | a published day on or after the zeroing threshold but before registration opened repeats the next day's cells |
| Pipeline.RegistrationEve | auto_application_dashboard.py:138-144 | with the 2021 settings, the 2020-09-14 row equals the 2020-09-15 row in every session column |

## Left out

- Loading the CSV export from a fixed file path (lines 18-20) is file I/O. The model starts from a sequence of `RawRecord`. The uniqueness of the person identifier is not checked.
- Publishing to Google Sheets (lines 154-157) is a network call into a foreign library. The model ends with the `Outcome`.
- Date parsing (lines 25, 42 and 119-120) is replaced by day numbers. The re-conversion at line 42 has no counterpart, and an unparseable date cannot occur in the model.
- A blank "Application Date" cannot be represented: every `RawRecord` has a day. In the script, `to_datetime` (line 25) turns a blank into NaT without failing. Such a row escapes the clamp, since NaT compares false at line 38. The guardrail still counts its session (lines 76-82), and the pivot's grouping then drops it (line 97), so it never reaches the table.
- Guardrail.Check: the printed `value_counts` (line 86) is kept as the map in the diagnostic. Its printed order (by descending count) is not modelled. The abort becomes the `Halted` outcome.
- Normaliser.SortByDate: the model sorts stably. pandas' default quicksort does not promise any order among rows with the same date, so the model's order is one of the orders the script may produce.
- Normaliser.Lookup: the dictionary literal is a list of (key, value) pairs with distinct keys, searched first match first.
- Normaliser.RemapAll: `replace` applies to the name and gender cells too. The function's own contract states only that their nullness is kept. Their new text, by the same dictionary rule as the session, is stated per row by `Normaliser.RemapAllAt`.
- Aggregate.Pivot: the contract states only the shape. What each cell means is stated by `Aggregate.CountOn` and, once summed, by `Aggregate.CumulativePivot`.
- The pivot's columns are always the full closed list, in its order. That is also pandas' sorted column order. pandas, however, creates a column only for a session that actually occurs, and line 141 then refers to every listed session. The model does not capture what the script does for a listed session that no record carries: here such a column holds 0 on every day with applications.
- Cells are natural numbers or null. pandas holds them as floating point once nulls appear, and as 64-bit integers before. Counts never come near those limits, so no width is modelled.
- The "Application Date" column that the merge carries along (line 128), and its own backward fill, are not modelled. `set_index` (line 147) is modelled only as each row's `date`. The published sheet is written without that index.
- Gender and full name take part only as described above: a record is counted when its name is not null.
