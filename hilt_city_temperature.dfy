/**
 * The city-temperature sensor of the dependency-injection unit: the same
 * snapshot repository as in `CityTemperature` (here an application-wide
 * singleton), and a view-model that projects only the calibrated value and
 * the bias. The range -5..15 and the event semantics are those of
 * `CityTemperature`.
 */
module HiltCityTemperature {
  import opened KotlinInt
  import opened Sensor
  import CityTemperature

  class CityTemperatureRepository {
    var data: SensorData

    ghost predicate Valid()
      reads this
    {
      CityTemperature.CityTemperatureRange.Contains(data.rawValue)
    }

    constructor ()
      ensures Valid()
      ensures data == SensorData(5, 0)
    {
      RepositoryCenters();
      data := SensorData(Center(CityTemperature.CityTemperatureRange), 0);
    }

    /** One iteration of the update loop; `delta` stands for `(-2..2).random()`. */
    method Tick(delta: int)
      requires Valid() && IsJitter(delta)
      modifies this
      ensures Valid()
      ensures data == CityTemperature.Step(old(data), CityTemperature.Tick(delta))
      ensures data.rawValue == NextJitterAsWritten(old(data).rawValue, delta, CityTemperature.CityTemperatureRange).value
    {
      CityTemperature.TickAsWritten(data, delta);
      data := SensorData(NextJitter(data.rawValue, delta, CityTemperature.CityTemperatureRange).value, data.bias);
    }

    method Calibrate(newBias: Int32)
      requires Valid()
      modifies this
      ensures Valid()
      ensures data == CityTemperature.Step(old(data), CityTemperature.Calibrate(newBias))
    {
      data := SensorData(data.rawValue, newBias);
    }
  }

  /** The injected view-model: flows of the calibrated value and of the bias. */
  class CityTemperatureViewModel {
    const repository: CityTemperatureRepository
    var calibratedValue: Int32
    var bias: Int32

    ghost predicate InSync()
      reads this, repository
    {
      calibratedValue == repository.data.CalibratedValue() && bias == repository.data.bias
    }

    constructor (repository: CityTemperatureRepository)
      ensures this.repository == repository
      ensures InSync()
    {
      this.repository := repository;
      calibratedValue := repository.data.CalibratedValue();
      bias := repository.data.bias;
    }

    /** The collectors of the two mapped flows receive the current snapshot. */
    method Collect()
      modifies this
      ensures InSync()
    {
      calibratedValue := repository.data.CalibratedValue();
      bias := repository.data.bias;
    }

    /** Sets the repository's bias to its current bias plus `incBias`. */
    method Calibrate(incBias: Int32)
      requires repository.Valid()
      modifies repository
      ensures repository.Valid()
      ensures repository.data == CityTemperature.Step(old(repository.data), CityTemperature.Calibrate(Plus(old(repository.data.bias), incBias)))
    {
      repository.Calibrate(Plus(repository.data.bias, incBias));
    }
  }
}
