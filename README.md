# Verified model of the android_course sensor, grid and media logic

The android_course repository is a set of small Android teaching apps. Almost all of it is
Compose UI, navigation, dependency-injection wiring and build scripts. This project models the
three pieces of self-contained logic in it and proves what they promise:

- **Simulated temperature sensors** (units 0x02 and 0x04). `SensorData` is a reading with a raw
  value and a bias. `center()` is the midpoint of an `Int` range. `nextJitter` adds a random step
  of -2..2 and clamps the sum into a range with `coerceIn`. The room repository (module
  `RoomTemperature`) has `rawValue` and `bias` fields that `fetch` and `calibrate` change. Its view-model copies
  them into three state holders. The city repository (modules `CityTemperature` and
  `HiltCityTemperature`) holds one snapshot. A tick of its update loop replaces that snapshot,
  and so does `calibrate`. Its view-models project the snapshot into flows.
- **Grid click model** (unit 0x03, module `GridModel`). `AppModel` has nine click counters. A
  click cycles one counter through 0..4. A counter maps to a card text and to one of five tiles.
- **Media controls** (unit 0x04, module `Media`). `isAtEnd` tests whether the player is at the
  start or end of the clip. The video screen picks Pause, Play, or Continue and Restart from the
  player state.

Kotlin's `Int` is modelled as the 32-bit subset type `KotlinInt.Int32`. Its `+` and `-` wrap
around explicitly, and its `/` truncates toward zero. `Long` positions are `KotlinInt.Int64`.
Failure paths are results, not preconditions. `coerceIn` on an empty range throws
`IllegalArgumentException`. A card index off the board throws `IndexOutOfBoundsException`. Both
are `Exceptions.Result.Thrown` values.

Several things are parameters or constructor arguments in the model:

- The random step `(-2..2).random()` is a parameter `delta` with `-2 <= delta <= 2`.
- Each `while (true) { ...; delay(1000L) }` loop is one method call per iteration: `Tick` for the
  city repositories, `Update` for the refreshing room view-model.
- `Fetch` has no loop in the source. It runs once each time the room card's icon button is pressed.
- The shared repository is a constructor argument of each view-model. In the source, a service
  locator or Hilt hands it out.

Notes on the source:

- Each modelled repository's initial raw value is the centre of its constant range; no other initial value is ever used.
- `RoomTemperatureViewModel` fills its raw-value holder from the repository's
  `calibratedValue`, not from its `rawValue`. The model keeps this as written. The
  constructor's contract states that the holders mirror the repository exactly when the bias is 0.
- The definitions of `SensorData`, `center` and `nextJitter` are identical in both `Sensor.kt` files.
  The first unit's file also declares `SENSOR_TAG` and the interfaces `SensorValues` and
  `SensorFlows`. Both `CityTemperature.kt` repositories have identical update and calibration code.
  One module (`Sensor`) and one event semantics (`CityTemperature.Step`) serve both units. The
  Hilt unit keeps its own repository and view-model classes, because its view-model projects only
  two values.

## Model

| member | source | states |
|---|---|---|
| KotlinInt.Plus | Unit0x02/B_Models/src/main/kotlin/de/fh_aachen/android/models/sensors/Sensor.kt:34 | Kotlin `Int` addition: the true sum when it fits, otherwise a value congruent to it modulo 2^32 |
| KotlinInt.Minus | Unit0x02/B_Models/src/main/kotlin/de/fh_aachen/android/models/sensors/Sensor.kt:42 | Kotlin `Int` subtraction (`endInclusive - start`): the true difference when it fits, otherwise a value congruent to it modulo 2^32 |
| KotlinInt.Half | Unit0x02/B_Models/src/main/kotlin/de/fh_aachen/android/models/sensors/Sensor.kt:42 | `/ 2` truncates toward zero: non-negative input gives floor, negative input gives ceiling |
| KotlinInt.PlusCancels | Unit0x02/B_Models/src/main/kotlin/de/fh_aachen/android/models/sensors/CityTemperature.kt:63-65 | adding `inc` and then its wrapped negation `0 - inc` to an `Int` restores it, for every `inc` including `Int.MIN_VALUE` |
| KotlinInt.PlusIdentity | Unit0x02/B_Models/src/main/kotlin/de/fh_aachen/android/models/sensors/Sensor.kt:32-35 | adding an `Int` leaves a value unchanged exactly when the added value is 0 |
| Sensor.SensorData.CalibratedValue | Unit0x02/B_Models/src/main/kotlin/de/fh_aachen/android/models/sensors/Sensor.kt:32-35 | `calibratedValue` is `rawValue + bias` when that fits in `Int`, and congruent to it modulo 2^32 otherwise |
| Sensor.CalibratedEqualsRawIffNoBias | Unit0x04/A_ModelsWithHilt/src/main/kotlin/de/fh_aachen/android/models_with_hilt/sensors/Sensor.kt:7-10 | the calibrated value equals the raw value if and only if the bias is 0 |
| Sensor.CenterAsWritten | Unit0x02/B_Models/src/main/kotlin/de/fh_aachen/android/models/sensors/Sensor.kt:42 | `center()` as written in `Int` lies in a non-empty range whenever the width fits in `Int` |
| Sensor.CenterAsWrittenOverflows | Unit0x02/B_Models/src/main/kotlin/de/fh_aachen/android/models/sensors/Sensor.kt:42 | `center()` of `Int.MIN_VALUE..0` as written is 2^30, which is outside the range |
| Sensor.Center | Unit0x04/A_ModelsWithHilt/src/main/kotlin/de/fh_aachen/android/models_with_hilt/sensors/Sensor.kt:17 | an overflow-free centre: inside a non-empty range, at most one step nearer its end than its start; between the bounds of an empty range |
| Sensor.CenterAgrees | Unit0x02/B_Models/src/main/kotlin/de/fh_aachen/android/models/sensors/Sensor.kt:42 | the written and the overflow-free centre coincide whenever the range's width fits in `Int` |
| Sensor.RepositoryCenters | Unit0x02/B_Models/src/main/kotlin/de/fh_aachen/android/models/sensors/RoomTemperature.kt:14-17 | `center(15..35) = 25` and `center(-5..15) = 5`, the repositories' initial raw values |
| Sensor.CoerceIn | Unit0x02/B_Models/src/main/kotlin/de/fh_aachen/android/models/sensors/Sensor.kt:43 | `coerceIn` throws exactly on an empty range; otherwise the result is in the range, is the input when the input is inside, and is the nearer bound otherwise |
| Sensor.NextJitterAsWritten | Unit0x02/B_Models/src/main/kotlin/de/fh_aachen/android/models/sensors/Sensor.kt:43 | `nextJitter` as written throws exactly on an empty range, and otherwise returns a value inside the range |
| Sensor.NextJitterAsWrittenOverflows | Unit0x02/B_Models/src/main/kotlin/de/fh_aachen/android/models/sensors/Sensor.kt:43 | as written, `Int.MAX_VALUE` with step +2 in `0..Int.MAX_VALUE` wraps to 0 instead of staying at the top |
| Sensor.NextJitter | Unit0x04/A_ModelsWithHilt/src/main/kotlin/de/fh_aachen/android/models_with_hilt/sensors/Sensor.kt:18 | an overflow-free step: inside the range, exactly `x + d` when that is inside, within 2 of an inside `x`, stuck at a bound it is pushed against; throws exactly on an empty range |
| Sensor.NextJitterAgrees | Unit0x04/A_ModelsWithHilt/src/main/kotlin/de/fh_aachen/android/models_with_hilt/sensors/Sensor.kt:18 | the written and the overflow-free step coincide whenever `x + d` fits in `Int` |
| Sensor.NextJitterAgreesInside | Unit0x02/B_Models/src/main/kotlin/de/fh_aachen/android/models/sensors/Sensor.kt:43 | for a value inside a range at least 2 away from the `Int` limits, the written and the overflow-free step coincide |
| Sensor.JitterWalkExtend | Unit0x02/B_Models/src/main/kotlin/de/fh_aachen/android/models/sensors/Sensor.kt:43 | one more step after a walk is the walk extended by that step, so successive single steps trace the walk |
| Sensor.JitterWalkInRange | Unit0x02/B_Models/src/main/kotlin/de/fh_aachen/android/models/sensors/Sensor.kt:43 | any sequence of steps that starts in the range, or takes at least one step, ends in the range |
| Sensor.JitterWalkDistance | Unit0x04/A_ModelsWithHilt/src/main/kotlin/de/fh_aachen/android/models_with_hilt/sensors/Sensor.kt:18 | n steps from inside the range move the value by at most 2n |
| RoomTemperature.RoomTemperatureRepository.CalibratedValue | Unit0x02/B_Models/src/main/kotlin/de/fh_aachen/android/models/sensors/RoomTemperature.kt:23-24 | the repository's calibrated value is `rawValue + bias` when that fits and congruent to it modulo 2^32 otherwise, and equals `rawValue` exactly when the bias is 0 |
| RoomTemperature.RoomTemperatureRepository.constructor | Unit0x02/B_Models/src/main/kotlin/de/fh_aachen/android/models/sensors/RoomTemperature.kt:14-21 | a new repository has raw value 25, bias 0 and calibrated value 25, and satisfies the range invariant |
| RoomTemperature.RoomTemperatureRepository.Fetch | Unit0x02/B_Models/src/main/kotlin/de/fh_aachen/android/models/sensors/RoomTemperature.kt:26-29 | `fetch` applies `nextJitter` (written and corrected forms agree), keeps the raw value in 15..35, moves it at most 2, and leaves the bias alone |
| RoomTemperature.RoomTemperatureRepository.Calibrate | Unit0x02/B_Models/src/main/kotlin/de/fh_aachen/android/models/sensors/RoomTemperature.kt:31-34 | `calibrate(b)` accepts any `Int`, sets the bias to `b` and keeps the raw value, so the calibrated value is `rawValue + b` (modulo 2^32 on overflow) |
| RoomTemperature.FetchTrace | Unit0x02/B_Models/src/main/kotlin/de/fh_aachen/android/models/sensors/RoomTemperature.kt:26-27 | the raw values seen over successive fetches, one more than the number of fetches, starting from the current raw value |
| RoomTemperature.FetchesStayInRange | Unit0x02/B_Models/src/main/kotlin/de/fh_aachen/android/models/sensors/RoomTemperature.kt:26-27 | after the n-th of any sequence of fetches the raw value is still in 15..35 and equals the walk of the first n steps |
| RoomTemperature.RoomTemperatureViewModel.constructor | Unit0x02/B_Models/src/main/kotlin/de/fh_aachen/android/models/sensors/RoomTemperature.kt:37-47 | the raw holder starts from the repository's calibrated value; the other two start from the calibrated value and the bias; the holders mirror the repository exactly when the bias is 0 |
| RoomTemperature.RoomTemperatureViewModel.Update | Unit0x02/B_Models/src/main/kotlin/de/fh_aachen/android/models/sensors/RoomTemperature.kt:49-53 | `update` makes the three holders equal to the repository's raw value, calibrated value and bias |
| RoomTemperature.RoomTemperatureViewModel.Calibrate | Unit0x02/B_Models/src/main/kotlin/de/fh_aachen/android/models/sensors/RoomTemperature.kt:56-59 | `calibrate(inc)` sets the repository bias to old bias + `inc` (wrapping), keeps the raw value, and leaves the holders mirroring the repository |
| RoomTemperature.CalibrateThenFetch | Unit0x02/B_Models/src/main/kotlin/de/fh_aachen/android/models/sensors/RoomTemperature.kt:16-34 | a new repository calibrated to 2 and then fetched with step +2 reads raw 27, bias 2, calibrated 29 |
| CityTemperature.Step | Unit0x02/B_Models/src/main/kotlin/de/fh_aachen/android/models/sensors/CityTemperature.kt:35-44 | a tick keeps the bias and puts the raw value in -5..15, within 2 of an in-range value; a calibration keeps the raw value and installs the new bias |
| CityTemperature.TickAsWritten | Unit0x02/B_Models/src/main/kotlin/de/fh_aachen/android/models/sensors/CityTemperature.kt:35 | for an in-range snapshot the tick equals `nextJitter` exactly as written |
| CityTemperature.RunStaysInRange | Unit0x02/B_Models/src/main/kotlin/de/fh_aachen/android/models/sensors/CityTemperature.kt:33-39 | every snapshot reachable by ticks and calibrations keeps its raw value in -5..15 |
| CityTemperature.RunRawIsWalk | Unit0x02/B_Models/src/main/kotlin/de/fh_aachen/android/models/sensors/CityTemperature.kt:33-44 | in the model, calibrations never affect the raw value: it is the walk of the tick steps alone |
| CityTemperature.RunBias | Unit0x02/B_Models/src/main/kotlin/de/fh_aachen/android/models/sensors/CityTemperature.kt:42-44 | the snapshot's bias is the one set by the last calibration, or the initial one if there was none |
| CityTemperature.CalibrateUpThenDown | Unit0x02/B_Models/src/main/kotlin/de/fh_aachen/android/models/sensors/CityTemperature.kt:63-65 | the view-model's `calibrate(+1)` then `calibrate(-1)` restores the snapshot |
| CityTemperature.CityTemperatureRepository.constructor | Unit0x02/B_Models/src/main/kotlin/de/fh_aachen/android/models/sensors/CityTemperature.kt:24-25 | the first snapshot is raw 5, bias 0 |
| CityTemperature.CityTemperatureRepository.Tick | Unit0x02/B_Models/src/main/kotlin/de/fh_aachen/android/models/sensors/CityTemperature.kt:35 | one loop iteration replaces the snapshot by its tick, equal to `nextJitter` as written, keeping the range invariant |
| CityTemperature.CityTemperatureRepository.Calibrate | Unit0x02/B_Models/src/main/kotlin/de/fh_aachen/android/models/sensors/CityTemperature.kt:42-44 | `calibrate(b)` replaces the snapshot with the same raw value and bias `b` |
| CityTemperature.CityTemperatureViewModel.constructor | Unit0x02/B_Models/src/main/kotlin/de/fh_aachen/android/models/sensors/CityTemperature.kt:56-61 | the raw, calibrated and bias flows start at the repository's current snapshot's values |
| CityTemperature.CityTemperatureViewModel.Collect | Unit0x02/B_Models/src/main/kotlin/de/fh_aachen/android/models/sensors/CityTemperature.kt:56-61 | after collection, the three flows are the projections of the repository's current snapshot |
| CityTemperature.CityTemperatureViewModel.Calibrate | Unit0x02/B_Models/src/main/kotlin/de/fh_aachen/android/models/sensors/CityTemperature.kt:63-66 | `calibrate(inc)` sets the repository's bias to previous bias + `inc` (wrapping) and keeps the raw value |
| HiltCityTemperature.CityTemperatureRepository.constructor | Unit0x04/A_ModelsWithHilt/src/main/kotlin/de/fh_aachen/android/models_with_hilt/sensors/CityTemperature.kt:32-37 | the injected repository's first snapshot is raw 5, bias 0 |
| HiltCityTemperature.CityTemperatureRepository.Tick | Unit0x04/A_ModelsWithHilt/src/main/kotlin/de/fh_aachen/android/models_with_hilt/sensors/CityTemperature.kt:47 | one loop iteration replaces the snapshot by its tick, keeping the raw value in -5..15 and the bias |
| HiltCityTemperature.CityTemperatureRepository.Calibrate | Unit0x04/A_ModelsWithHilt/src/main/kotlin/de/fh_aachen/android/models_with_hilt/sensors/CityTemperature.kt:53-55 | `calibrate(b)` replaces the bias and keeps the raw value |
| HiltCityTemperature.CityTemperatureViewModel.constructor | Unit0x04/A_ModelsWithHilt/src/main/kotlin/de/fh_aachen/android/models_with_hilt/sensors/CityTemperature.kt:69-73 | the calibrated-value and bias flows start at the repository's current values |
| HiltCityTemperature.CityTemperatureViewModel.Collect | Unit0x04/A_ModelsWithHilt/src/main/kotlin/de/fh_aachen/android/models_with_hilt/sensors/CityTemperature.kt:70-73 | after collection both flows are projections of the current snapshot |
| HiltCityTemperature.CityTemperatureViewModel.Calibrate | Unit0x04/A_ModelsWithHilt/src/main/kotlin/de/fh_aachen/android/models_with_hilt/sensors/CityTemperature.kt:79-81 | `calibrate(inc)` adds `inc` to the repository's current bias |
| GridModel.CardText | Unit0x03/D_GridModel/src/main/kotlin/de/fh_aachen/android/grid_model/model/AppModel.kt:14-18 | 1 and 3 show "O", 2 and 4 show "X", everything else shows ""; the text is non-empty exactly for 1..4 |
| GridModel.CardImage | Unit0x03/D_GridModel/src/main/kotlin/de/fh_aachen/android/grid_model/model/AppModel.kt:20-27 | 1 shows the knight, 2 the builder, 3 the doctor and 4 the professor tile, each exactly for that counter; the background tile is shown exactly for counters outside 1..4 |
| GridModel.CardImagesDistinct | Unit0x03/D_GridModel/src/main/kotlin/de/fh_aachen/android/grid_model/model/AppModel.kt:20-27 | the five counter values 0..4 show five different tiles |
| GridModel.TextIffTile | Unit0x03/D_GridModel/src/main/kotlin/de/fh_aachen/android/grid_model/model/AppModel.kt:14-27 | a card shows text exactly when it shows a tile other than the background |
| GridModel.NextCount | Unit0x03/D_GridModel/src/main/kotlin/de/fh_aachen/android/grid_model/model/AppModel.kt:30 | a click keeps the counter in 0..4 and wraps to 0 exactly from 4 |
| GridModel.CountAfter | Unit0x03/D_GridModel/src/main/kotlin/de/fh_aachen/android/grid_model/model/AppModel.kt:29-31 | any number of clicks keeps a counter in 0..4 |
| GridModel.CountAfterIsModular | Unit0x03/D_GridModel/src/main/kotlin/de/fh_aachen/android/grid_model/model/AppModel.kt:29-31 | n clicks advance a counter to (count + n) % 5 |
| GridModel.FiveClicksRestore | Unit0x03/D_GridModel/src/main/kotlin/de/fh_aachen/android/grid_model/model/AppModel.kt:29-31 | five clicks restore a counter |
| GridModel.Clicked | Unit0x03/D_GridModel/src/main/kotlin/de/fh_aachen/android/grid_model/model/AppModel.kt:29-31 | a click on a valid board leaves nine counters, all in 0..4 |
| GridModel.ClicksCommute | Unit0x03/D_GridModel/src/main/kotlin/de/fh_aachen/android/grid_model/model/AppModel.kt:29-31 | clicks on two cells give the same board in either order |
| GridModel.FiveClicksRestoreBoard | Unit0x03/D_GridModel/src/main/kotlin/de/fh_aachen/android/grid_model/model/AppModel.kt:29-31 | five clicks on one cell give back the whole board |
| GridModel.AppModel.constructor | Unit0x03/D_GridModel/src/main/kotlin/de/fh_aachen/android/grid_model/model/AppModel.kt:8-12 | the model starts with user name "N.N.", `dim = 3` and nine counters, all 0 |
| GridModel.AppModel.CardTextOf | Unit0x03/D_GridModel/src/main/kotlin/de/fh_aachen/android/grid_model/model/AppModel.kt:14-18 | card text `CardText(clicks[index])` for an index on the board, an `IndexOutOfBoundsException` off it; on a valid board the text is empty exactly when the counter is 0 |
| GridModel.AppModel.CardImageOf | Unit0x03/D_GridModel/src/main/kotlin/de/fh_aachen/android/grid_model/model/AppModel.kt:20-27 | card tile `CardImage(clicks[index])` for an index on the board, an `IndexOutOfBoundsException` off it; on a valid board the tile is the background exactly when the counter is 0 |
| GridModel.AppModel.IsClicked | Unit0x03/D_GridModel/src/main/kotlin/de/fh_aachen/android/grid_model/model/AppModel.kt:29-31 | a click advances counter `index` modulo 5 and changes no other counter; an index off the board throws and changes nothing |
| Media.IsAtEnd | Unit0x04/B_Media/src/main/kotlin/de/fh_aachen/android/media/MainActivity.kt:72-73 | true at position 0; true at or past a positive duration; false strictly inside the clip; with a duration of 0 or less, true only at position 0; true only at position 0 or at or past a positive duration |
| Media.ControlsFor | Unit0x04/B_Media/src/main/kotlin/de/fh_aachen/android/media/MainActivity.kt:136-143 | Pause alone while playing; Play alone when stopped at start or end; Continue and Restart when stopped in between |
| Media.OnClick | Unit0x04/B_Media/src/main/kotlin/de/fh_aachen/android/media/MainActivity.kt:137-142 | every handler ends by playing, except Pause's; only Play and Restart seek to 0 |
| Media.ClickEffect | Unit0x04/B_Media/src/main/kotlin/de/fh_aachen/android/media/MainActivity.kt:137-142 | Pause stops the player and Continue starts it, both in place; Play and Restart play from position 0 |
| Media.OfferedControlToggles | Unit0x04/B_Media/src/main/kotlin/de/fh_aachen/android/media/MainActivity.kt:136-143 | every offered button reverses whether the player plays |
| Media.OnClickPosition | Unit0x04/B_Media/src/main/kotlin/de/fh_aachen/android/media/MainActivity.kt:137-142 | only Play and Restart change the position, and they set it to 0 |
| Media.AtEndRestartsFromZero | Unit0x04/B_Media/src/main/kotlin/de/fh_aachen/android/media/MainActivity.kt:138-139 | a stopped player at start or end can only be played from position 0 |
| Media.InBetweenMayContinue | Unit0x04/B_Media/src/main/kotlin/de/fh_aachen/android/media/MainActivity.kt:140-142 | a stopped player strictly inside the clip is offered Continue, which plays without seeking |

## Findings

| source | as written | input that shows it | evidently intended | confidence | as-written member | corrected member |
|---|---|---|---|---|---|---|
| Unit0x02/B_Models/src/main/kotlin/de/fh_aachen/android/models/sensors/Sensor.kt:42 (and Unit0x04/A_ModelsWithHilt/src/main/kotlin/de/fh_aachen/android/models_with_hilt/sensors/Sensor.kt:17) | `start + (endInclusive - start) / 2` in 32-bit `Int`: the difference overflows when the range is wider than `Int.MAX_VALUE` | `(Int.MIN_VALUE..0).center()` gives 1073741824 | the midpoint, which lies inside the range | high (not executed) | Sensor.CenterAsWrittenOverflows | Sensor.Center |
| Unit0x02/B_Models/src/main/kotlin/de/fh_aachen/android/models/sensors/Sensor.kt:43 (and Unit0x04/A_ModelsWithHilt/src/main/kotlin/de/fh_aachen/android/models_with_hilt/sensors/Sensor.kt:18) | `(this + delta).coerceIn(range)`: the sum wraps before clamping | `Int.MAX_VALUE.nextJitter(0..Int.MAX_VALUE)` with step +2 gives 0 | a value at or next to `Int.MAX_VALUE`, at most 2 from the input | high (not executed) | Sensor.NextJitterAsWrittenOverflows | Sensor.NextJitter |

Neither overflow can happen in the modelled repositories. Their ranges are 15..35 and -5..15, and
`Sensor.CenterAgrees`, `Sensor.NextJitterAgreesInside` and `CityTemperature.TickAsWritten` prove
that there the written and the corrected definitions agree. The repositories use the corrected
definitions, and their `Fetch` and `Tick` methods also state the written result.

## Left out

- Coroutine loops, `delay(1000L)`, `viewModelScope` and `SupervisorJob` are scheduling, so they are left out. One loop iteration is one call: `Tick`, or for `RoomTemperatureRefreshingViewModel` (RoomTemperature.kt:62-75) `RoomTemperatureViewModel.Update`, which is all its loop body does.
- CityTemperature.Step, CityTemperature.RunBias and CityTemperature.RunRawIsWalk assume that ticks and calibrations never interleave. In the source the tick runs on a background dispatcher. It reads `_data.value` twice and then writes a new snapshot. `calibrate` runs on the UI thread. A calibration that lands between the tick's read and its write is overwritten with the old bias. The model does not capture this lost update, so `RunBias` holds only for serialised events. In the other direction, `calibrate` reads `_data.value.rawValue` and then writes a new snapshot; a tick that lands between `calibrate`'s read of `rawValue` and its write is undone, so `RunRawIsWalk` also holds only for serialised events. `RunStaysInRange` is not affected, because both writers store in-range raw values. The Hilt unit's repository has the same race.
- `(-2..2).random()` is a library call, so it is left out. Its result is the parameter `delta`, constrained to -2..2.
- `StateFlow` `map`/`stateIn` sharing is concurrent delivery, so only its values are modelled. A view-model's flows are fields set at construction and refreshed by `Collect` (the latest, conflated snapshot). When the collector runs, and the fan-out to several subscribers, are not modelled. The view-models' `data` property is the repository's own snapshot and needs no separate member.
- The service locator and the Hilt/Dagger wiring (`@Singleton`, `@Inject`, `@HiltViewModel`) are container behaviour, so they are left out. Each view-model takes the shared repository as a constructor argument.
- The interfaces `SensorValues`, `SensorFlows` and `SensorFlow` are left out. The classes that implement them carry the members directly, because the model has no interfaces.
- The Hilt unit's private `cityTemperatureRange` (CityTemperature.kt:22 of that unit) has the same value as the other unit's, so both modules use `CityTemperature.CityTemperatureRange`.
- Logging calls are output only, so they are left out.
- The `IllegalArgumentException` message is kept only as its fixed prefix, because it prints the range as text.
- ExoPlayer itself is a foreign media library, so it is left out: playback, readiness, its listeners, `DisposableEffect` and the listener's writes to `isPlaying`/`isAtEnd`. `Media.Execute` abstracts the player to a position and a play-when-ready flag. `seekTo(p)` sets the position, and `play()`/`pause()` set the flag.
- `AppModel.userName` is modelled only as its initial value, because only the UI assigns it.
- Compose UI, navigation, theming, the Supabase client, the Python script and the Gradle build logic are left out, because they have no logic that a contract can state.
