/**
 * Naming of the per-day sensor files (raspen_beere/file.py): a date maps to
 * `YYYY-MM-DD.json` and its sibling `YYYY-MM-DD.lock` in the sensor directory.
 */
module File {
  import opened Text

  predicate IsLeapYear(year: int) {
    year % 4 == 0 && (year % 100 != 0 || year % 400 == 0)
  }

  function DaysInMonth(year: int, month: int): int
    requires 1 <= month <= 12
  {
    if month == 2 then (if IsLeapYear(year) then 29 else 28)
    else if month in {4, 6, 9, 11} then 30
    else 31
  }

  /** A Python `datetime`; `Valid` holds of every value the `datetime` class admits. */
  datatype DateTime = DateTime(
    year: int, month: int, day: int,
    hour: int, minute: int, second: int, microsecond: int)
  {
    predicate Valid() {
      && 1 <= year <= 9999
      && 1 <= month <= 12
      && 1 <= day <= DaysInMonth(year, month)
      && 0 <= hour < 24
      && 0 <= minute < 60
      && 0 <= second < 60
      && 0 <= microsecond < 1000000
    }

    /** Same calendar date, whatever the time of day. */
    predicate SameDay(other: DateTime) {
      year == other.year && month == other.month && day == other.day
    }
  }

  /** A file path: a directory and a file name inside it. */
  datatype FilePath = FilePath(dir: string, name: string)

  /** The sensor data directory, relative to the working directory. */
  const SensorDir: string := "data/sensor"

  /** The `full-date` form of section 5.6 of RFC 3339: `date-fullyear "-" date-month "-" date-mday`. */
  predicate IsFullDate(s: string) {
    && |s| == 10
    && s[4] == '-' && s[7] == '-'
    && AllDigits(s[..4]) && AllDigits(s[5..7]) && AllDigits(s[8..])
    && 1 <= DigitsValue(s[5..7]) <= 12
    && 1 <= DigitsValue(s[8..]) <= DaysInMonth(DigitsValue(s[..4]), DigitsValue(s[5..7]))
  }

  /** `now.strftime("%Y-%m-%d")`: the file stem for the day of `now`. */
  function DayStem(now: DateTime): (stem: string)
    requires now.Valid()
    ensures IsFullDate(stem)
    ensures DigitsValue(stem[..4]) == now.year
    ensures DigitsValue(stem[5..7]) == now.month
    ensures DigitsValue(stem[8..]) == now.day
  {
    var stem := Pad4(now.year) + "-" + Pad2(now.month) + "-" + Pad2(now.day);
    assert stem[..4] == Pad4(now.year);
    assert stem[5..7] == Pad2(now.month);
    assert stem[8..] == Pad2(now.day);
    stem
  }

  /** The JSON data file and the lock file of one day. */
  datatype DayFiles = DayFiles(json: FilePath, lock: FilePath)

  /** `get_sensor_file(now)`. */
  function GetSensorFile(now: DateTime): (r: DayFiles)
    requires now.Valid()
    ensures r.json.dir == SensorDir && r.lock.dir == SensorDir
    ensures |r.json.name| == 15 && |r.lock.name| == 15
    ensures r.json.name[..10] == r.lock.name[..10] == DayStem(now)
    ensures r.json.name[10..] == ".json" && r.lock.name[10..] == ".lock"
  {
    var stem := DayStem(now);
    DayFiles(FilePath(SensorDir, stem + ".json"), FilePath(SensorDir, stem + ".lock"))
  }

  /** The time of day does not matter: two moments of one date share their files. */
  lemma SameDaySameFiles(a: DateTime, b: DateTime)
    requires a.Valid() && b.Valid() && a.SameDay(b)
    ensures GetSensorFile(a) == GetSensorFile(b)
  {
  }

  /** Naming is injective on dates: different days never share a data file or a lock file. */
  lemma DifferentDaysDifferentFiles(a: DateTime, b: DateTime)
    requires a.Valid() && b.Valid() && !a.SameDay(b)
    ensures GetSensorFile(a).json != GetSensorFile(b).json
    ensures GetSensorFile(a).lock != GetSensorFile(b).lock
  {
  }
}
