/**
 * The city-temperature sensor: a repository that holds one `SensorData`
 * snapshot, which a background tick and `calibrate` each replace whole, and a
 * view-model that projects the snapshot's three values.
 */
module CityTemperature {
  import opened KotlinInt
  import opened Sensor

  const CityTemperatureRange: IntRange := IntRange(-5, 15)

  /** The two things that replace the snapshot: one tick of the update loop, or a calibration. */
  datatype Event = Tick(delta: int) | Calibrate(newBias: Int32)

  predicate WellFormed(e: Event) {
    e.Tick? ==> IsJitter(e.delta)
  }

  predicate AllWellFormed(events: seq<Event>) {
    forall i :: 0 <= i < |events| ==> WellFormed(events[i])
  }

  /**
   * The snapshot after one event. A tick moves the raw value by a jitter
   * step inside the city range and keeps the bias; a calibration keeps the
   * raw value and installs the new bias.
   */
  function Step(s: SensorData, e: Event): (t: SensorData)
    requires WellFormed(e)
    ensures e.Tick? ==> CityTemperatureRange.Contains(t.rawValue) && t.bias == s.bias
    ensures e.Tick? && CityTemperatureRange.Contains(s.rawValue) ==> -2 <= t.rawValue - s.rawValue <= 2
    ensures e.Calibrate? ==> t.rawValue == s.rawValue && t.bias == e.newBias
  {
    match e
    case Tick(delta) => SensorData(NextJitter(s.rawValue, delta, CityTemperatureRange).value, s.bias)
    case Calibrate(newBias) => SensorData(s.rawValue, newBias)
  }

  /** Inside the city range the tick agrees with `nextJitter` exactly as written. */
  lemma TickAsWritten(s: SensorData, delta: int)
    requires CityTemperatureRange.Contains(s.rawValue) && IsJitter(delta)
    ensures Step(s, Tick(delta)).rawValue == NextJitterAsWritten(s.rawValue, delta, CityTemperatureRange).value
  {
    NextJitterAgreesInside(s.rawValue, delta, CityTemperatureRange);
  }

  /** The snapshot after a sequence of events. */
  function Run(s: SensorData, events: seq<Event>): (t: SensorData)
    requires AllWellFormed(events)
    decreases |events|
  {
    if events == [] then s else Run(Step(s, events[0]), events[1..])
  }

  /** The bias set by the last calibration among `events`, or `initial` if there is none. */
  function LastBias(initial: Int32, events: seq<Event>): (bias: Int32)
    decreases |events|
  {
    if events == [] then initial
    else if events[|events| - 1].Calibrate? then events[|events| - 1].newBias
    else LastBias(initial, events[..|events| - 1])
  }

  /** The steps of the ticks among `events`, in order. */
  function TickDeltas(events: seq<Event>): (ds: seq<int>)
    requires AllWellFormed(events)
    ensures AllJitters(ds)
    decreases |events|
  {
    if events == [] then []
    else (if events[0].Tick? then [events[0].delta] else []) + TickDeltas(events[1..])
  }

  /** Every reachable snapshot has its raw value in the city range. */
  lemma {:induction false} RunStaysInRange(s: SensorData, events: seq<Event>)
    requires AllWellFormed(events) && CityTemperatureRange.Contains(s.rawValue)
    ensures CityTemperatureRange.Contains(Run(s, events).rawValue)
    decreases |events|
  {
    if events != [] {
      RunStaysInRange(Step(s, events[0]), events[1..]);
    }
  }

  /** Calibrations never disturb the random walk: the raw value is the walk of the ticks alone. */
  lemma {:induction false} RunRawIsWalk(s: SensorData, events: seq<Event>)
    requires AllWellFormed(events)
    ensures Run(s, events).rawValue == JitterWalk(s.rawValue, TickDeltas(events), CityTemperatureRange)
    decreases |events|
  {
    if events != [] {
      RunRawIsWalk(Step(s, events[0]), events[1..]);
      assert events == [events[0]] + events[1..];
      if events[0].Tick? {
        assert TickDeltas(events) == [events[0].delta] + TickDeltas(events[1..]);
        assert TickDeltas(events)[1..] == TickDeltas(events[1..]);
      } else {
        assert TickDeltas(events) == TickDeltas(events[1..]);
      }
    }
  }

  /** Run over a concatenation is running the two parts one after the other. */
  lemma {:induction false} RunAppend(s: SensorData, events: seq<Event>, e: Event)
    requires AllWellFormed(events) && WellFormed(e)
    ensures AllWellFormed(events + [e])
    ensures Run(s, events + [e]) == Step(Run(s, events), e)
    decreases |events|
  {
    assert AllWellFormed(events + [e]) by {
      forall i | 0 <= i < |events + [e]| ensures WellFormed((events + [e])[i]) {
        if i < |events| { assert (events + [e])[i] == events[i]; }
      }
    }
    if events != [] {
      assert (events + [e])[1..] == events[1..] + [e];
      RunAppend(Step(s, events[0]), events[1..], e);
    }
  }

  /** The bias of the snapshot is the one the last calibration set; ticks never change it. */
  lemma {:induction false} RunBias(s: SensorData, events: seq<Event>)
    requires AllWellFormed(events)
    ensures Run(s, events).bias == LastBias(s.bias, events)
    decreases |events|
  {
    if events != [] {
      var init := events[..|events| - 1];
      var last := events[|events| - 1];
      assert AllWellFormed(init) by {
        forall i | 0 <= i < |init| ensures WellFormed(init[i]) { assert init[i] == events[i]; }
      }
      assert events == init + [last];
      RunAppend(s, init, last);
      RunBias(s, init);
    }
  }

  /** The view-model's `calibrate(+1)` followed by `calibrate(-1)` gives back the snapshot it started from. */
  lemma CalibrateUpThenDown(s: SensorData)
    ensures Step(Step(s, Calibrate(Plus(s.bias, 1))), Calibrate(Plus(Plus(s.bias, 1), -1))) == s
  {
    PlusCancels(s.bias, 1);
    assert Minus(0, 1) == -1;
  }

  /** `_data` of the repository; the update loop is started from outside, one `Tick` per iteration. */
  class CityTemperatureRepository {
    var data: SensorData

    ghost predicate Valid()
      reads this
    {
      CityTemperatureRange.Contains(data.rawValue)
    }

    /** The first snapshot is the centre of the range, uncalibrated. */
    constructor ()
      ensures Valid()
      ensures data == SensorData(5, 0)
    {
      RepositoryCenters();
      data := SensorData(Center(CityTemperatureRange), 0);
    }

    /** One iteration of the update loop; `delta` stands for `(-2..2).random()`. */
    method Tick(delta: int)
      requires Valid() && IsJitter(delta)
      modifies this
      ensures Valid()
      ensures data == Step(old(data), Event.Tick(delta))
      ensures data.rawValue == NextJitterAsWritten(old(data).rawValue, delta, CityTemperatureRange).value
    {
      TickAsWritten(data, delta);
      data := SensorData(NextJitter(data.rawValue, delta, CityTemperatureRange).value, data.bias);
    }

    /** Replaces the snapshot with one carrying the new bias. */
    method Calibrate(newBias: Int32)
      requires Valid()
      modifies this
      ensures Valid()
      ensures data == Step(old(data), Event.Calibrate(newBias))
    {
      data := SensorData(data.rawValue, newBias);
    }
  }

  /**
   * The view-model's `rawValue`, `calibratedValue` and `bias` flows: each
   * starts from the repository's current snapshot and is refreshed whenever
   * its collector receives the latest snapshot.
   */
  class CityTemperatureViewModel {
    const repository: CityTemperatureRepository
    var rawValue: Int32
    var calibratedValue: Int32
    var bias: Int32

    /** The three flows show the projections of the repository's current snapshot. */
    ghost predicate InSync()
      reads this, repository
    {
      && rawValue == repository.data.rawValue
      && calibratedValue == repository.data.CalibratedValue()
      && bias == repository.data.bias
    }

    constructor (repository: CityTemperatureRepository)
      ensures this.repository == repository
      ensures InSync()
    {
      this.repository := repository;
      rawValue := repository.data.rawValue;
      calibratedValue := repository.data.CalibratedValue();
      bias := repository.data.bias;
    }

    /** The collectors of the three mapped flows receive the current snapshot. */
    method Collect()
      modifies this
      ensures InSync()
    {
      rawValue := repository.data.rawValue;
      calibratedValue := repository.data.CalibratedValue();
      bias := repository.data.bias;
    }

    /** Sets the repository's bias to its current bias plus `incBias`; the flows follow on their next collection. */
    method Calibrate(incBias: Int32)
      requires repository.Valid()
      modifies repository
      ensures repository.Valid()
      ensures repository.data == Step(old(repository.data), Event.Calibrate(Plus(old(repository.data.bias), incBias)))
    {
      repository.Calibrate(Plus(repository.data.bias, incBias));
    }
  }
}
