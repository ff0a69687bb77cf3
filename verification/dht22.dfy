/**
 * The retrying sensor reader (raspen_beere/dht22.py). A read script gives
 * the outcome of the i-th driver read of one call (`read(0)` is the first);
 * `time.sleep(2)` is counted, not performed.
 */
module Dht22 {
  import opened Calls

  const MaxAttempts: nat := 15
  const RetrySleepSeconds: nat := 2

  /** The driver as seen by one call: the outcomes of successive reads of each property. */
  datatype Device<T> = Device(temperature: nat -> Call<T>, humidity: nat -> Call<T>)

  /**
   * What `_try_get` promises about one call: every read but the last raised
   * `RuntimeError` and was followed by a sleep; the last read's value or
   * exception is the result, unless it also raised `RuntimeError` as the
   * fifteenth read, in which case the call slept once more and raised `TimeoutError`.
   */
  ghost predicate RetryBehaviour<T>(read: nat -> Call<T>, r: Call<T>, attempts: nat, sleeps: nat) {
    && 1 <= attempts <= MaxAttempts
    && (forall i :: 0 <= i < attempts - 1 ==> read(i).IsTransient())
    && if read(attempts - 1).IsTransient() then
         attempts == MaxAttempts && sleeps == MaxAttempts && r == Raised(TimeoutError)
       else
         sleeps == attempts - 1 && r == read(attempts - 1)
  }

  /** `_try_get(func)`: up to fifteen reads, a sleep after each `RuntimeError`. */
  method TryGet<T>(read: nat -> Call<T>) returns (r: Call<T>, attempts: nat, sleeps: nat)
    ensures RetryBehaviour(read, r, attempts, sleeps)
  {
    attempts, sleeps := 0, 0;
    for attempt := 0 to MaxAttempts
      invariant attempts == attempt && sleeps == attempt
      invariant forall i :: 0 <= i < attempt ==> read(i).IsTransient()
    {
      var outcome := read(attempt);
      attempts := attempts + 1;
      match outcome {
        case Returned(value) =>
          return Returned(value), attempts, sleeps;
        case Raised(e) =>
          if e != RuntimeError {
            return Raised(e), attempts, sleeps;
          }
          sleeps := sleeps + 1;
      }
    }
    r := Raised(TimeoutError);
  }

  /** `get_temperature()`: `_try_get` on the temperature reads. */
  method GetTemperature<T>(device: Device<T>) returns (r: Call<T>, attempts: nat, sleeps: nat)
    ensures RetryBehaviour(device.temperature, r, attempts, sleeps)
  {
    r, attempts, sleeps := TryGet(device.temperature);
  }

  /** `get_humidity()`: `_try_get` on the humidity reads. */
  method GetHumidity<T>(device: Device<T>) returns (r: Call<T>, attempts: nat, sleeps: nat)
    ensures RetryBehaviour(device.humidity, r, attempts, sleeps)
  {
    r, attempts, sleeps := TryGet(device.humidity);
  }

  /** The behaviour determines the call: one result, one number of reads and of sleeps. */
  lemma RetryBehaviourIsDeterministic<T>(read: nat -> Call<T>, r1: Call<T>, attempts1: nat, sleeps1: nat,
                                         r2: Call<T>, attempts2: nat, sleeps2: nat)
    requires RetryBehaviour(read, r1, attempts1, sleeps1)
    requires RetryBehaviour(read, r2, attempts2, sleeps2)
    ensures r1 == r2 && attempts1 == attempts2 && sleeps1 == sleeps2
  {
  }

  /** Fifteen `RuntimeError`s in a row: `TimeoutError` after fifteen reads and fifteen sleeps of 2 s. */
  lemma AllAttemptsTransient<T>(read: nat -> Call<T>, r: Call<T>, attempts: nat, sleeps: nat)
    requires forall i :: 0 <= i < MaxAttempts ==> read(i).IsTransient()
    requires RetryBehaviour(read, r, attempts, sleeps)
    ensures r == Raised(TimeoutError) && attempts == MaxAttempts
    ensures sleeps * RetrySleepSeconds == 30
  {
  }

  /** k < 15 `RuntimeError`s then a value: that value, after k sleeps and k + 1 reads. */
  lemma SuccessAfterTransients<T>(read: nat -> Call<T>, k: nat, v: T, r: Call<T>, attempts: nat, sleeps: nat)
    requires k < MaxAttempts
    requires forall i :: 0 <= i < k ==> read(i).IsTransient()
    requires read(k) == Returned(v)
    requires RetryBehaviour(read, r, attempts, sleeps)
    ensures r == Returned(v) && attempts == k + 1 && sleeps == k
  {
    assert !read(k).IsTransient();
  }

  /** Any exception other than `RuntimeError` ends the call at once and propagates. */
  lemma OtherErrorPropagates<T>(read: nat -> Call<T>, k: nat, e: Exception, r: Call<T>, attempts: nat, sleeps: nat)
    requires k < MaxAttempts && e != RuntimeError
    requires forall i :: 0 <= i < k ==> read(i).IsTransient()
    requires read(k) == Raised(e)
    requires RetryBehaviour(read, r, attempts, sleeps)
    ensures r == Raised(e) && attempts == k + 1 && sleeps == k
  {
    assert !read(k).IsTransient();
  }
}
