/**
 * The sampling process (sensor_loop.py): the wait until the next aligned
 * period boundary, and the append of one reading to the day's JSON log.
 *
 * Time is integer microseconds since midnight. The directory of day files is
 * a map from path to file content; a path that is not a key has no file.
 */
module SensorLoop {
  import opened Calls
  import opened Text
  import opened File

  /** One entry of a day log: `{"timestamp": "HH:MM", "temperature": t, "humidity": h}`. */
  datatype Record = Record(timestamp: string, temperature: real, humidity: real)

  /** The content of an existing day file: either it parses as a list of records or it does not. */
  datatype JsonFile = Unparsable | Records(items: seq<Record>)

  type Files = map<FilePath, JsonFile>

  // ---------------------------------------------------------------------------
  // save_data

  /** `now.strftime("%H:%M")`. */
  function Timestamp(now: DateTime): (s: string)
    requires now.Valid()
    ensures |s| == 5 && s[2] == ':'
    ensures AllDigits(s[..2]) && DigitsValue(s[..2]) == now.hour
    ensures AllDigits(s[3..]) && DigitsValue(s[3..]) == now.minute
  {
    var s := Pad2(now.hour) + ":" + Pad2(now.minute);
    assert s[..2] == Pad2(now.hour) && s[3..] == Pad2(now.minute);
    s
  }

  /** The records already in the file at `path`; none when there is no file. */
  function ExistingLog(files: Files, path: FilePath): seq<Record> {
    if path in files && files[path].Records? then files[path].items else []
  }

  /**
   * `save_data(now, temperature, humidity)` as a function of the directory:
   * the new directory, or the exception that leaves the directory as it was.
   */
  function AppendRecord(files: Files, now: DateTime, temperature: real, humidity: real): (r: Call<Files>)
    requires now.Valid()
    // a day file that does not parse makes the call raise before anything is written
    ensures var path := GetSensorFile(now).json;
      r.Raised? <==> path in files && files[path].Unparsable?
    ensures r.Raised? ==> r.error == JSONDecodeError
    // otherwise the day file is (re)written and no other file changes
    ensures var path := GetSensorFile(now).json;
      r.Returned? ==>
        && r.value.Keys == files.Keys + {path}
        && (forall p :: p in files && p != path ==> r.value[p] == files[p])
        && r.value[path].Records?
    // the day log grows by one: earlier records unchanged, the new one last
    ensures var path := GetSensorFile(now).json;
      var before := ExistingLog(files, path);
      r.Returned? ==>
        && |r.value[path].items| == |before| + 1
        && r.value[path].items[..|before|] == before
        && r.value[path].items[|before|] == Record(Timestamp(now), temperature, humidity)
  {
    var path := GetSensorFile(now).json;
    if path in files && files[path].Unparsable? then Raised(JSONDecodeError)
    else Returned(files[path := Records(ExistingLog(files, path) + [Record(Timestamp(now), temperature, humidity)])])
  }

  /** The sensor data directory, updated in place by `save_data`. */
  class SensorStore {
    var files: Files

    constructor (files: Files)
      ensures this.files == files
    {
      this.files := files;
    }

    /**
     * `save_data`: read the day file (an empty list when there is none),
     * append the record, rewrite the whole file. The file lock is not modelled.
     */
    method SaveData(now: DateTime, temperature: real, humidity: real) returns (r: Call<()>)
      requires now.Valid()
      modifies this
      ensures var expected := AppendRecord(old(files), now, temperature, humidity);
        && (r.Raised? <==> expected.Raised?)
        && (r.Raised? ==> r == Raised(expected.error) && files == old(files))
        && (r.Returned? ==> files == expected.value)
    {
      var jsonFile := GetSensorFile(now).json;
      var data: seq<Record>;
      if jsonFile in files {
        match files[jsonFile]
        case Unparsable =>
          return Raised(JSONDecodeError);
        case Records(items) =>
          data := items;
      } else {
        data := [];
      }
      data := data + [Record(Timestamp(now), temperature, humidity)];
      files := files[jsonFile := Records(data)];
      r := Returned(());
    }
  }

  /** One call of `save_data`: its arguments. */
  datatype Sample = Sample(now: DateTime, temperature: real, humidity: real)

  function RecordOf(s: Sample): Record
    requires s.now.Valid()
  {
    Record(Timestamp(s.now), s.temperature, s.humidity)
  }

  function RecordsOf(samples: seq<Sample>): (r: seq<Record>)
    requires forall i :: 0 <= i < |samples| ==> samples[i].now.Valid()
    ensures |r| == |samples|
    ensures forall i :: 0 <= i < |samples| ==> r[i] == RecordOf(samples[i])
  {
    if samples == [] then [] else [RecordOf(samples[0])] + RecordsOf(samples[1..])
  }

  /** The day files that the calls of `samples` write to. */
  function TouchedFiles(samples: seq<Sample>): set<FilePath>
    requires forall i :: 0 <= i < |samples| ==> samples[i].now.Valid()
    decreases |samples|
  {
    if samples == [] then {} else {GetSensorFile(samples[0].now).json} + TouchedFiles(samples[1..])
  }

  /** The day file of `now` exists and does not parse. */
  predicate UnparsableAt(files: Files, now: DateTime)
    requires now.Valid()
  {
    var path := GetSensorFile(now).json;
    path in files && files[path].Unparsable?
  }

  /** Sequential calls of `save_data`, stopping at the first exception. */
  function AppendAll(files: Files, samples: seq<Sample>): (r: Call<Files>)
    requires forall i :: 0 <= i < |samples| ==> samples[i].now.Valid()
    ensures r.Raised? ==> r.error == JSONDecodeError
    decreases |samples|
  {
    if samples == [] then Returned(files)
    else
      match AppendRecord(files, samples[0].now, samples[0].temperature, samples[0].humidity)
      case Raised(e) => Raised(e)
      case Returned(next) => AppendAll(next, samples[1..])
  }

  /** A call that does not raise leaves every day file's parse state as it was. */
  lemma AppendRecordKeepsUnparsable(files: Files, now: DateTime, temperature: real, humidity: real, other: DateTime)
    requires now.Valid() && other.Valid()
    requires AppendRecord(files, now, temperature, humidity).Returned?
    ensures UnparsableAt(AppendRecord(files, now, temperature, humidity).value, other) <==> UnparsableAt(files, other)
  {
  }

  /** A run of calls fails exactly when one of the days it writes had an unparsable file to begin with. */
  lemma {:induction false} AppendAllRaisesOnUnparsable(files: Files, samples: seq<Sample>)
    requires forall i :: 0 <= i < |samples| ==> samples[i].now.Valid()
    ensures AppendAll(files, samples).Raised? <==> exists i :: 0 <= i < |samples| && UnparsableAt(files, samples[i].now)
    decreases |samples|
  {
    if samples != [] {
      var s, rest := samples[0], samples[1..];
      var step := AppendRecord(files, s.now, s.temperature, s.humidity);
      if step.Raised? {
        assert UnparsableAt(files, samples[0].now);
      } else {
        var next := step.value;
        assert AppendAll(files, samples) == AppendAll(next, rest);
        AppendAllRaisesOnUnparsable(next, rest);
        forall i | 0 <= i < |rest|
          ensures UnparsableAt(next, rest[i].now) <==> UnparsableAt(files, samples[i + 1].now)
        {
          assert rest[i] == samples[i + 1];
          AppendRecordKeepsUnparsable(files, s.now, s.temperature, s.humidity, rest[i].now);
        }
        assert !UnparsableAt(files, samples[0].now);
        if i :| 0 <= i < |samples| && UnparsableAt(files, samples[i].now) {
          assert UnparsableAt(next, rest[i - 1].now);
        }
      }
    }
  }

  /**
   * A run of calls that does not raise writes exactly the day files of its
   * calls: the directory gains those files and every other file is unchanged.
   */
  lemma {:induction false} AppendAllWritesOnlyTouchedFiles(files: Files, samples: seq<Sample>)
    requires forall i :: 0 <= i < |samples| ==> samples[i].now.Valid()
    requires AppendAll(files, samples).Returned?
    ensures AppendAll(files, samples).value.Keys == files.Keys + TouchedFiles(samples)
    ensures forall p :: p in files && p !in TouchedFiles(samples) ==> AppendAll(files, samples).value[p] == files[p]
    decreases |samples|
  {
    if samples != [] {
      var next := AppendRecord(files, samples[0].now, samples[0].temperature, samples[0].humidity).value;
      AppendAllWritesOnlyTouchedFiles(next, samples[1..]);
    }
  }

  lemma ConcatAssociative<T>(a: seq<T>, b: seq<T>, c: seq<T>)
    ensures a + b + c == a + (b + c)
  {
  }

  /** One call on a day whose file is absent or parses appends exactly its record to that day's log. */
  lemma AppendRecordOnDay(files: Files, day: DateTime, s: Sample)
    requires day.Valid() && s.now.Valid() && s.now.SameDay(day)
    requires var path := GetSensorFile(day).json; path !in files || files[path].Records?
    ensures var path := GetSensorFile(day).json;
      var step := AppendRecord(files, s.now, s.temperature, s.humidity);
      && step.Returned?
      && path in step.value && step.value[path].Records?
      && ExistingLog(step.value, path) == ExistingLog(files, path) + [RecordOf(s)]
  {
    SameDaySameFiles(s.now, day);
    var path := GetSensorFile(day).json;
    var items := AppendRecord(files, s.now, s.temperature, s.humidity).value[path].items;
    var before := ExistingLog(files, path);
    assert items == items[..|before|] + [items[|before|]];
  }

  /**
   * N calls on one day whose file is absent or parses leave the earlier log
   * followed by the N new records in call order; on a fresh day, exactly them.
   */
  lemma {:induction false} AppendAllKeepsCallOrder(files: Files, day: DateTime, samples: seq<Sample>)
    requires day.Valid()
    requires forall i :: 0 <= i < |samples| ==> samples[i].now.Valid() && samples[i].now.SameDay(day)
    requires var path := GetSensorFile(day).json; path !in files || files[path].Records?
    ensures AppendAll(files, samples).Returned?
    ensures var path := GetSensorFile(day).json;
      var after := AppendAll(files, samples).value;
      && ExistingLog(after, path) == ExistingLog(files, path) + RecordsOf(samples)
      && (samples != [] ==> path in after && after[path].Records?)
    decreases |samples|
  {
    if samples != [] {
      var path := GetSensorFile(day).json;
      var s, rest := samples[0], samples[1..];
      AppendRecordOnDay(files, day, s);
      var next := AppendRecord(files, s.now, s.temperature, s.humidity).value;
      assert forall i :: 0 <= i < |rest| ==> rest[i].now.Valid() && rest[i].now.SameDay(day) by {
        forall i | 0 <= i < |rest| ensures rest[i].now.Valid() && rest[i].now.SameDay(day) {
          assert rest[i] == samples[i + 1];
        }
      }
      AppendAllKeepsCallOrder(next, day, rest);
      assert AppendAll(files, samples) == AppendAll(next, rest);
      calc {
        ExistingLog(AppendAll(files, samples).value, path);
        ExistingLog(next, path) + RecordsOf(rest);
        ExistingLog(files, path) + [RecordOf(s)] + RecordsOf(rest);
        { ConcatAssociative(ExistingLog(files, path), [RecordOf(s)], RecordsOf(rest)); }
        ExistingLog(files, path) + ([RecordOf(s)] + RecordsOf(rest));
        { assert RecordsOf(samples) == [RecordOf(s)] + RecordsOf(rest); }
        ExistingLog(files, path) + RecordsOf(samples);
      }
    }
  }

  // ---------------------------------------------------------------------------
  // sleep_duration

  const MicrosPerSecond: nat := 1000000

  /** Seconds and microseconds since midnight of `now`, in microseconds. */
  function MicrosSinceMidnight(now: DateTime): (t: nat)
    requires now.Valid()
    ensures t < 86400 * MicrosPerSecond
  {
    ((now.hour * 3600 + now.minute * 60 + now.second) * MicrosPerSecond + now.microsecond) as nat
  }

  /** A period boundary: a multiple of the period, counted from midnight. */
  predicate IsBoundary(t: int, period: int)
    requires period > 0
  {
    t % period == 0
  }

  /**
   * `sleep_duration(period_minutes, period_seconds)` called at `now`, in
   * microseconds: the wait until the next multiple of the period after `now`,
   * a full period at an exact boundary; `ValueError` for a period that is not positive.
   */
  function SleepDuration(periodMinutes: int, periodSeconds: int, now: DateTime): (r: Call<nat>)
    requires now.Valid()
    ensures r.Raised? <==> periodMinutes * 60 + periodSeconds <= 0
    ensures r.Raised? ==> r.error == ValueError
    ensures r.Returned? ==>
      var period := (periodMinutes * 60 + periodSeconds) * MicrosPerSecond;
      var t := MicrosSinceMidnight(now);
      && 0 < r.value <= period
      && t + r.value == (t / period + 1) * period
  {
    var totalPeriod := periodMinutes * 60 + periodSeconds;
    if totalPeriod <= 0 then Raised(ValueError)
    else
      var period := totalPeriod * MicrosPerSecond;
      var remainder := MicrosSinceMidnight(now) % period;
      Returned(if remainder != 0 then period - remainder else period)
  }

  lemma MulBelowOne(d: int, p: int)
    requires p > 0 && d * p < p
    ensures d < 1
  {
  }

  lemma MulAboveMinusOne(d: int, p: int)
    requires p > 0 && d * p > -p
    ensures d > -1
  {
  }

  /** Euclidean division is unique: `x == a * p + r` with `0 <= r < p` fixes `x / p` and `x % p`. */
  lemma DivModUnique(x: int, p: int, a: int, r: int)
    requires p > 0 && 0 <= r < p && x == a * p + r
    ensures x % p == r && x / p == a
  {
    var b, s := x / p, x % p;
    assert (a - b) * p == s - r;
    MulBelowOne(a - b, p);
    MulAboveMinusOne(a - b, p);
  }

  /** The first boundary strictly after `t` is `(t / period + 1) * period`. */
  lemma NextBoundaryAfter(t: int, period: int)
    requires period > 0
    ensures IsBoundary((t / period + 1) * period, period)
    ensures forall k :: t < k < (t / period + 1) * period ==> !IsBoundary(k, period)
  {
    var q := t / period;
    DivModUnique((q + 1) * period, period, q + 1, 0);
    forall k | t < k < (q + 1) * period
      ensures !IsBoundary(k, period)
    {
      DivModUnique(k, period, q, k - q * period);
    }
  }

  /**
   * The wake-up instant `now + result` is a period boundary, and no boundary
   * lies strictly between `now` and it: it is the first boundary after `now`.
   */
  lemma SleepEndsAtNextBoundary(periodMinutes: int, periodSeconds: int, now: DateTime)
    requires now.Valid() && periodMinutes * 60 + periodSeconds > 0
    ensures var period := (periodMinutes * 60 + periodSeconds) * MicrosPerSecond;
      var t := MicrosSinceMidnight(now);
      var wait := SleepDuration(periodMinutes, periodSeconds, now).value;
      && IsBoundary(t + wait, period)
      && forall k :: t < k < t + wait ==> !IsBoundary(k, period)
  {
    NextBoundaryAfter(MicrosSinceMidnight(now), (periodMinutes * 60 + periodSeconds) * MicrosPerSecond);
  }

  /** At an exact boundary the wait is a full period, not zero. */
  lemma SleepAtBoundaryIsFullPeriod(periodMinutes: int, periodSeconds: int, now: DateTime)
    requires now.Valid() && periodMinutes * 60 + periodSeconds > 0
    requires IsBoundary(MicrosSinceMidnight(now), (periodMinutes * 60 + periodSeconds) * MicrosPerSecond)
    ensures SleepDuration(periodMinutes, periodSeconds, now)
         == Returned((periodMinutes * 60 + periodSeconds) * MicrosPerSecond)
  {
  }

  /** One microsecond past a boundary the wait is one microsecond short of a period. */
  lemma SleepJustAfterBoundary(periodMinutes: int, periodSeconds: int, now: DateTime)
    requires now.Valid() && periodMinutes * 60 + periodSeconds > 0
    requires IsBoundary(MicrosSinceMidnight(now) - 1, (periodMinutes * 60 + periodSeconds) * MicrosPerSecond)
    ensures SleepDuration(periodMinutes, periodSeconds, now)
         == Returned((periodMinutes * 60 + periodSeconds) * MicrosPerSecond - 1)
  {
    var period := (periodMinutes * 60 + periodSeconds) * MicrosPerSecond;
    var t := MicrosSinceMidnight(now);
    DivModUnique(t, period, (t - 1) / period, 1);
  }

  /** The period `main` passes to `sleep_duration`: ten minutes. */
  const MainPeriodMinutes: int := 10
  const MainPeriodSeconds: int := 0

  /**
   * With the ten-minute period of `main`: at 12:00:00 the wait is 600 s, one
   * second later it is 599 s, and at no time of day does the call raise.
   */
  lemma MainPeriodWaits(now: DateTime)
    requires now.Valid()
    ensures SleepDuration(MainPeriodMinutes, MainPeriodSeconds, now).Returned?
    ensures SleepDuration(MainPeriodMinutes, MainPeriodSeconds, DateTime(2024, 6, 1, 12, 0, 0, 0))
         == Returned(600 * MicrosPerSecond)
    ensures SleepDuration(MainPeriodMinutes, MainPeriodSeconds, DateTime(2024, 6, 1, 12, 0, 1, 0))
         == Returned(599 * MicrosPerSecond)
  {
  }
}
