/**
 * The polling room-temperature sensor: a repository whose `fetch` takes one
 * jitter step and whose `calibrate` replaces the bias, and a view-model that
 * copies the repository's three values into its own state holders.
 */
module RoomTemperature {
  import opened KotlinInt
  import opened Sensor

  const RoomTemperatureRange: IntRange := IntRange(15, 35)

  class RoomTemperatureRepository {
    var rawValue: Int32
    var bias: Int32

    /** Kotlin's `rawValue + bias`, wrapping on overflow. */
    function CalibratedValue(): (c: Int32)
      reads this
      ensures FitsInt(rawValue + bias) ==> c == rawValue + bias
      ensures (rawValue + bias - c) % IntModulus == 0
      ensures c == rawValue <==> bias == 0
    {
      CalibratedEqualsRawIffNoBias(SensorData(rawValue, bias));
      SensorData(rawValue, bias).CalibratedValue()
    }

    /** The raw value never leaves the room range. */
    ghost predicate Valid()
      reads this
    {
      RoomTemperatureRange.Contains(rawValue)
    }

    /** A new repository starts at the centre of the range, uncalibrated. */
    constructor ()
      ensures Valid()
      ensures rawValue == 25 && bias == 0 && CalibratedValue() == 25
    {
      RepositoryCenters();
      rawValue := Center(RoomTemperatureRange);
      bias := 0;
    }

    /** One poll of the simulated sensor; `delta` stands for `(-2..2).random()`. */
    method Fetch(delta: int)
      requires Valid() && IsJitter(delta)
      modifies this
      ensures Valid()
      ensures rawValue == NextJitter(old(rawValue), delta, RoomTemperatureRange).value
      ensures rawValue == NextJitterAsWritten(old(rawValue), delta, RoomTemperatureRange).value
      ensures -2 <= rawValue - old(rawValue) <= 2
      ensures bias == old(bias)
    {
      NextJitterAgreesInside(rawValue, delta, RoomTemperatureRange);
      rawValue := NextJitter(rawValue, delta, RoomTemperatureRange).value;
    }

    /** Replaces the bias; any `Int` is accepted. */
    method Calibrate(newBias: Int32)
      requires Valid()
      modifies this
      ensures Valid()
      ensures bias == newBias && rawValue == old(rawValue)
      ensures FitsInt(rawValue + newBias) ==> CalibratedValue() == rawValue + newBias
      ensures (rawValue + newBias - CalibratedValue()) % IntModulus == 0
    {
      bias := newBias;
    }
  }

  /**
   * The raw values of a repository that fetches with the steps `deltas`, one
   * entry per fetch: `Fetch` takes each from the one before it.
   */
  function FetchTrace(rawValue: Int32, deltas: seq<int>): (trace: seq<Int32>)
    requires RoomTemperatureRange.Contains(rawValue) && AllJitters(deltas)
    ensures |trace| == |deltas| + 1 && trace[0] == rawValue
    decreases |deltas|
  {
    if deltas == [] then [rawValue]
    else [rawValue] + FetchTrace(NextJitter(rawValue, deltas[0], RoomTemperatureRange).value, deltas[1..])
  }

  /**
   * Over any sequence of fetches the raw value stays in 15..35, and after the
   * n-th fetch it is the walk of the first n steps.
   */
  lemma {:induction false} FetchesStayInRange(rawValue: Int32, deltas: seq<int>, n: nat)
    requires RoomTemperatureRange.Contains(rawValue) && AllJitters(deltas) && n <= |deltas|
    ensures RoomTemperatureRange.Contains(FetchTrace(rawValue, deltas)[n])
    ensures FetchTrace(rawValue, deltas)[n] == JitterWalk(rawValue, deltas[..n], RoomTemperatureRange)
    decreases n
  {
    if n > 0 {
      var next := NextJitter(rawValue, deltas[0], RoomTemperatureRange).value;
      FetchesStayInRange(next, deltas[1..], n - 1);
      assert deltas[..n][1..] == deltas[1..][..n - 1];
    }
  }

  /**
   * The view-model's three state holders. The repository is the shared,
   * application-wide instance, handed in instead of fetched from a
   * service locator.
   */
  class RoomTemperatureViewModel {
    const repository: RoomTemperatureRepository
    var rawValue: Int32
    var calibratedValue: Int32
    var bias: Int32

    /** The holders show the repository's current values. */
    ghost predicate Mirrors()
      reads this, repository
    {
      && rawValue == repository.rawValue
      && calibratedValue == repository.CalibratedValue()
      && bias == repository.bias
    }

    /** The raw holder starts from the repository's calibrated value, not its raw value. */
    constructor (repository: RoomTemperatureRepository)
      ensures this.repository == repository
      ensures rawValue == repository.CalibratedValue()
      ensures calibratedValue == repository.CalibratedValue()
      ensures bias == repository.bias
      ensures Mirrors() <==> repository.bias == 0
    {
      this.repository := repository;
      rawValue := repository.CalibratedValue();
      calibratedValue := repository.CalibratedValue();
      bias := repository.bias;
    }

    /** Copies the repository's current values into the holders. */
    method Update()
      modifies this
      ensures Mirrors()
    {
      rawValue := repository.rawValue;
      calibratedValue := repository.CalibratedValue();
      bias := repository.bias;
    }

    /** Adds `incBias` to the repository's bias, then refreshes the holders. */
    method Calibrate(incBias: Int32)
      requires repository.Valid()
      modifies this, repository
      ensures repository.Valid()
      ensures repository.bias == Plus(old(repository.bias), incBias)
      ensures repository.rawValue == old(repository.rawValue)
      ensures Mirrors() && bias == Plus(old(repository.bias), incBias)
    {
      repository.Calibrate(Plus(repository.bias, incBias));
      Update();
    }
  }

  /**
   * A fresh repository calibrated to 2 and then fetched with a step of +2
   * reads raw 27, bias 2, calibrated 29.
   */
  method CalibrateThenFetch() returns (rawValue: Int32, bias: Int32, calibrated: Int32)
    ensures rawValue == 27 && bias == 2 && calibrated == 29
  {
    var repository := new RoomTemperatureRepository();
    repository.Calibrate(2);
    assert repository.CalibratedValue() == 27;
    repository.Fetch(2);
    rawValue, bias, calibrated := repository.rawValue, repository.bias, repository.CalibratedValue();
  }
}
