/**
 * The script's configuration constants, gathered into one value so that the
 * pipeline is a function of (input table, settings).
 *
 * Calendar dates are day numbers: the number of days since 1970-01-01.
 */
module Config {

  /** A calendar date as a day number (days since 1970-01-01). */
  type Day = int

  datatype Settings = Settings(
    registrationOpen: Day,       // application dates before this are clamped onto it
    zeroBefore: Day,             // calendar days strictly before this are zeroed
    calendarStart: Day,          // first day of the completed calendar (inclusive)
    calendarEnd: Day,            // last day of the completed calendar (inclusive)
    sessions: seq<string>,       // the closed list of acceptable session labels
    remap: seq<(string, string)>)  // (raw session label, canonical label) pairs

  /** 2020-09-15 */
  const RegistrationOpen: Day := 18520
  /** 2020-09-14: the zeroing threshold is one day before registration opens. */
  const ZeroBefore: Day := 18519
  /** 2020-08-01 */
  const CalendarStart: Day := 18475
  /** 2021-07-31 */
  const CalendarEnd: Day := 18839

  const CleanSessions: seq<string> :=
    ["EXP", "Session 1", "Session 2", "Session 3", "Session 4", "Session 5", "Session 6"]

  /** The remap dictionary as (key, value) pairs, in the order it is written. */
  const RemapTable: seq<(string, string)> := [
    ("Western Expedition", "EXP"),
    ("Blue Ridge 1", "EXP"),
    ("Blue Ridge 2", "EXP"),
    ("Blue Ridge 3", "EXP"),
    ("Outer Banks 1", "EXP"),
    ("Outer Banks 2", "EXP"),
    ("Leadership in Training (LIT) 1", "EXP"),
    ("Leadership in Training (LIT) 2", "EXP"),
    ("Mountain Biking 2- Base Camp Expedition", "EXP"),
    ("Mountain Biking 1- Base Camp Expedition and Session 2", "Session 2"),
    ("Session 2 and Rock Climbing 1- Base Camp Expedition", "Session 2"),
    ("Session 3 and Circumnavigate GRP 2- Base Camp Expedition", "Session 3"),
    ("Session 2 and Session 4", "Session 4"),
    ("Rock Climbing 2- Base Camp Expedition and Session 3", "Session 3"),
    ("Session 2 and Mountain Biking 1- Base Camp Expedition", "Session 2"),
    ("Session 3 and Rock Climbing 2- Base Camp Expedition", "Session 3")]

  /** The values the 2021 run of the script uses. */
  const Default: Settings :=
    Settings(RegistrationOpen, ZeroBefore, CalendarStart, CalendarEnd, CleanSessions, RemapTable)
}
