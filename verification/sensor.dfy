/**
 * The single-shot sensor reader (raspen_beere/sensor.py): one driver read
 * per call, `RuntimeError` turned into `None`, no retry and no sleep.
 */
module Sensor {
  import opened Wrappers
  import opened Calls
  import Dht22

  /** What the next access of each driver property does. */
  datatype Device<T> = Device(temperature: Call<T>, humidity: Call<T>)

  /** `get_temperature()`: the temperature read, `None` when the driver is not ready. */
  function GetTemperature<T>(device: Device<T>): (r: Call<Option<T>>)
    ensures r == Returned(None) <==> device.temperature.IsTransient()
    ensures r.Returned? && r.value.Some? <==> device.temperature.Returned?
    ensures device.temperature.Returned? ==> r.value.value == device.temperature.value
    ensures r.Raised? ==> r.error != RuntimeError && device.temperature == Raised(r.error)
  {
    match device.temperature
    case Raised(RuntimeError) => Returned(None)
    case Raised(e) => Raised(e)
    case Returned(temperature) => Returned(Some(temperature))
  }

  /** `get_humidity()`: the humidity read, `None` when the driver is not ready. */
  function GetHumidity<T>(device: Device<T>): (r: Call<Option<T>>)
    ensures r == Returned(None) <==> device.humidity.IsTransient()
    ensures r.Returned? && r.value.Some? <==> device.humidity.Returned?
    ensures device.humidity.Returned? ==> r.value.value == device.humidity.value
    ensures r.Raised? ==> r.error != RuntimeError && device.humidity == Raised(r.error)
  {
    match device.humidity
    case Raised(RuntimeError) => Returned(None)
    case Returned(humidity) => Returned(Some(humidity))
    case Raised(e) => Raised(e)
  }

  /**
   * The two disciplines agree when the first read is not transient: the
   * retrying reader then stops after that one read, without sleeping, with
   * the value or the exception the single-shot reader reports; when the
   * first read is transient only the single-shot reader gives up (with `None`).
   */
  lemma SingleShotAgreesWithFirstAttempt<T>(script: nat -> Call<T>, humidity: Call<T>,
                                            r: Call<T>, attempts: nat, sleeps: nat)
    requires Dht22.RetryBehaviour(script, r, attempts, sleeps)
    ensures var single := GetTemperature(Device(script(0), humidity));
      if script(0).IsTransient() then
        single == Returned(None) && attempts > 1 && sleeps >= 1
      else
        && attempts == 1 && sleeps == 0
        && (r.Returned? ==> single == Returned(Some(r.value)))
        && (r.Raised? ==> single == Raised(r.error))
  {
  }
}
