/**
 * The sensor helpers shared by the temperature repositories: the immutable
 * reading `SensorData`, the centre of an `Int` range, and `nextJitter`, one
 * bounded random step clamped to a range. The same definitions appear in two
 * units of the course with identical text; this module serves both.
 */
module Sensor {
  import opened KotlinInt
  import opened Exceptions

  /** One reading: a raw value and the calibration offset applied to it. */
  datatype SensorData = SensorData(rawValue: Int32, bias: Int32) {
    /** Kotlin's `rawValue + bias`, which wraps around on overflow. */
    function CalibratedValue(): (c: Int32)
      ensures FitsInt(rawValue + bias) ==> c == rawValue + bias
      ensures (rawValue + bias - c) % IntModulus == 0
    {
      Plus(rawValue, bias)
    }
  }

  /** Kotlin's `start..endInclusive` over `Int`. */
  datatype IntRange = IntRange(start: Int32, endInclusive: Int32) {
    predicate IsEmpty() {
      start > endInclusive
    }

    predicate Contains(x: int) {
      start <= x <= endInclusive
    }
  }

  /** The calibrated value equals the raw value exactly when the bias is 0, wrap-around included. */
  lemma {:induction false} CalibratedEqualsRawIffNoBias(d: SensorData)
    ensures d.CalibratedValue() == d.rawValue <==> d.bias == 0
  {
    PlusIdentity(d.rawValue, d.bias);
  }

  // ---------------------------------------------------------------------
  // center()

  /**
   * `start + (endInclusive - start) / 2` exactly as written, in `Int`
   * arithmetic: the difference wraps when the range spans more than
   * `Int.MAX_VALUE` values.
   */
  function CenterAsWritten(range: IntRange): (c: Int32)
    ensures FitsInt(range.endInclusive - range.start) && !range.IsEmpty() ==> range.Contains(c)
  {
    Plus(range.start, Half(Minus(range.endInclusive, range.start)))
  }

  /** `center(Int.MIN_VALUE..0)` as written lies outside the range. */
  lemma CenterAsWrittenOverflows()
    ensures CenterAsWritten(IntRange(IntMin, 0)) == 0x4000_0000
    ensures !IntRange(IntMin, 0).Contains(CenterAsWritten(IntRange(IntMin, 0)))
  {
    assert Minus(0, IntMin) == IntMin;
    assert Half(IntMin) == -0x4000_0000;
    assert Plus(IntMin, -0x4000_0000) == 0x4000_0000;
  }

  /**
   * The centre computed without overflow (the difference in wider
   * arithmetic). For a non-empty range it lies in the range, no more than
   * one step nearer to `endInclusive` than to `start`; for an empty range
   * it lies between the two bounds, as the truncating division gives.
   */
  function Center(range: IntRange): (c: Int32)
    ensures !range.IsEmpty() ==> range.Contains(c)
    ensures !range.IsEmpty() ==> 0 <= (range.endInclusive - c) - (c - range.start) <= 1
    ensures range.IsEmpty() ==> range.endInclusive < c <= range.start
  {
    range.start + Half(range.endInclusive - range.start)
  }

  /** Where the difference fits in an `Int`, the written and the corrected centre agree. */
  lemma CenterAgrees(range: IntRange)
    requires FitsInt(range.endInclusive - range.start)
    ensures CenterAsWritten(range) == Center(range)
  {
  }

  /** The two ranges of the temperature repositories start at 25 and at 5. */
  lemma RepositoryCenters()
    ensures Center(IntRange(15, 35)) == 25 && CenterAsWritten(IntRange(15, 35)) == 25
    ensures Center(IntRange(-5, 15)) == 5 && CenterAsWritten(IntRange(-5, 15)) == 5
  {
  }

  // ---------------------------------------------------------------------
  // coerceIn and nextJitter

  /** Kotlin's `coerceIn(range)`: clamp into a non-empty range, throw on an empty one. */
  function CoerceIn(x: int, range: IntRange): (r: Result<Int32>)
    ensures r.Thrown? <==> range.IsEmpty()
    ensures r.Thrown? ==> r.exception.IllegalArgumentException?
    ensures r.Value? ==> range.Contains(r.value)
    ensures r.Value? && range.Contains(x) ==> r.value == x
    ensures r.Value? && x < range.start ==> r.value == range.start
    ensures r.Value? && x > range.endInclusive ==> r.value == range.endInclusive
  {
    if range.IsEmpty() then Thrown(IllegalArgumentException("Cannot coerce value to an empty range"))
    else if x < range.start then Value(range.start)
    else if x > range.endInclusive then Value(range.endInclusive)
    else Value(x)
  }

  /** A step drawn by `(-2..2).random()`. */
  predicate IsJitter(delta: int) {
    -2 <= delta <= 2
  }

  /** `(this + delta).coerceIn(range)` exactly as written: the sum wraps around in `Int`. */
  function NextJitterAsWritten(x: Int32, delta: int, range: IntRange): (r: Result<Int32>)
    requires IsJitter(delta)
    ensures r.Thrown? <==> range.IsEmpty()
    ensures r.Value? ==> range.Contains(r.value)
  {
    CoerceIn(Plus(x, delta), range)
  }

  /** At the top of `Int`, a positive step as written wraps to the bottom of the range. */
  lemma NextJitterAsWrittenOverflows()
    ensures NextJitterAsWritten(IntMax, 2, IntRange(0, IntMax)) == Value(0)
  {
    assert Plus(IntMax, 2) == IntMin + 1;
  }

  /**
   * The step with the sum computed without overflow. The result is in the
   * range, is exactly `x + delta` when that is in the range, moves at most
   * two from an `x` inside the range, and sticks at a bound it is pushed
   * against.
   */
  function NextJitter(x: Int32, delta: int, range: IntRange): (r: Result<Int32>)
    requires IsJitter(delta)
    ensures r.Thrown? <==> range.IsEmpty()
    ensures r.Value? ==> range.Contains(r.value)
    ensures r.Value? && range.Contains(x + delta) ==> r.value == x + delta
    ensures r.Value? && range.Contains(x) ==> -2 <= r.value - x <= 2
    ensures r.Value? && x == range.endInclusive && delta >= 0 ==> r.value == range.endInclusive
    ensures r.Value? && x == range.start && delta <= 0 ==> r.value == range.start
  {
    CoerceIn(x + delta, range)
  }

  /** Where `x + delta` fits in an `Int`, the written and the corrected step agree. */
  lemma NextJitterAgrees(x: Int32, delta: int, range: IntRange)
    requires IsJitter(delta)
    requires FitsInt(x + delta)
    ensures NextJitterAsWritten(x, delta, range) == NextJitter(x, delta, range)
  {
  }

  /** A range that keeps two steps away from both ends of `Int`, so no step from inside it can overflow. */
  predicate RoomForJitter(range: IntRange) {
    IntMin + 2 <= range.start && range.endInclusive <= IntMax - 2
  }

  /** For a value inside such a range, the written step is the corrected one. */
  lemma NextJitterAgreesInside(x: Int32, delta: int, range: IntRange)
    requires IsJitter(delta) && RoomForJitter(range) && range.Contains(x)
    ensures NextJitterAsWritten(x, delta, range) == NextJitter(x, delta, range)
  {
    NextJitterAgrees(x, delta, range);
  }

  // ---------------------------------------------------------------------
  // Repeated steps, as the polling loops take them

  predicate AllJitters(deltas: seq<int>) {
    forall i :: 0 <= i < |deltas| ==> IsJitter(deltas[i])
  }

  /** The value after taking the steps `deltas` one after another from `x`. */
  function JitterWalk(x: Int32, deltas: seq<int>, range: IntRange): (r: Int32)
    requires !range.IsEmpty() && AllJitters(deltas)
    decreases |deltas|
  {
    if deltas == [] then x
    else JitterWalk(NextJitter(x, deltas[0], range).value, deltas[1..], range)
  }

  /** One more step after a walk extends the walk: successive single steps trace `JitterWalk`. */
  lemma {:induction false} JitterWalkExtend(x: Int32, deltas: seq<int>, delta: int, range: IntRange)
    requires !range.IsEmpty() && AllJitters(deltas) && IsJitter(delta)
    ensures AllJitters(deltas + [delta])
    ensures JitterWalk(x, deltas + [delta], range) == NextJitter(JitterWalk(x, deltas, range), delta, range).value
    decreases |deltas|
  {
    assert AllJitters(deltas + [delta]) by {
      forall i | 0 <= i < |deltas + [delta]| ensures IsJitter((deltas + [delta])[i]) {
        if i < |deltas| { assert (deltas + [delta])[i] == deltas[i]; }
      }
    }
    if deltas != [] {
      assert (deltas + [delta])[1..] == deltas[1..] + [delta];
      JitterWalkExtend(NextJitter(x, deltas[0], range).value, deltas[1..], delta, range);
    }
  }

  /** A walk that starts in the range never leaves it; one that takes any step ends inside it. */
  lemma {:induction false} JitterWalkInRange(x: Int32, deltas: seq<int>, range: IntRange)
    requires !range.IsEmpty() && AllJitters(deltas)
    requires range.Contains(x) || deltas != []
    ensures range.Contains(JitterWalk(x, deltas, range))
    decreases |deltas|
  {
    if deltas != [] {
      JitterWalkInRange(NextJitter(x, deltas[0], range).value, deltas[1..], range);
    }
  }

  /** After n steps from inside the range the value has moved at most 2n. */
  lemma {:induction false} JitterWalkDistance(x: Int32, deltas: seq<int>, range: IntRange)
    requires !range.IsEmpty() && AllJitters(deltas) && range.Contains(x)
    ensures -2 * |deltas| <= JitterWalk(x, deltas, range) - x <= 2 * |deltas|
    decreases |deltas|
  {
    if deltas != [] {
      var next := NextJitter(x, deltas[0], range).value;
      JitterWalkDistance(next, deltas[1..], range);
    }
  }
}
