# Electronic speed radar: detection and enforcement pipeline in Dafny

This project models the core of a simulated electronic speed-enforcement station (a Zephyr
application). Its pieces:

- **Speed, limit and status arithmetic** (`src/utils/calculations.h`). Speed in km/h comes from
  the time between the two sensors and their distance. The vehicle class comes from the axle count.
  The status (normal / warning / violation) uses an integer-floor warning threshold. The uint32
  cast of the speed and the uint32 product `limit * percent` are modelled with explicit wrap-around.
- **Mercosul plate validators** (`src/utils/plate_validator.h`). Four per-position character checks
  (letter = C `isalpha`, so lower case counts; digit = `0`-`9`). A dispatcher reports the first
  match in the order Brazil, Argentina, Paraguay, Uruguay, and `get_country_name` maps countries to names.
- **Sensor state machine** (`src/threads/sensor_thread.c`). A class with the five static fields.
  Three atomic steps change them: a sensor-1 edge, a sensor-2 edge (which puts a detection,
  non-blocking, on the 10-slot sensor queue) and one pass of the supervisor's axle-timeout check.
  Each step is also given as a pure function over a snapshot of the fields; the lemmas are about
  those functions.
- **Capture-result normalisation** (`src/threads/camera_thread.c`). The space-removal loop over the
  8-byte `clean_plate` buffer is a method with loop invariants. The mapping from a camera event
  (plate data, NULL data, error code, unknown type) or a failed capture start to the published
  `{plate, valid}` result is a function. `"ERR%03d"` formatting is modelled digit by digit.
- **Main thread** (`src/main.c`). `process_vehicle_detection` computes speed, limit and status and
  puts exactly one display message (with an empty plate) on the 10-slot display queue. On a
  violation it subscribes, publishes the trigger and waits for the result. The bus is an abstract
  answer that only selects the logged outcome. The main loop drains the sensor queue in FIFO order.

Files: `radar_types.dfy` (the records and enums of `src/types.h`, fixed-width integer types, C
strings as `string` without NUL), `msg_queue.dfy` (a bounded message queue with non-blocking put
and get), `calculations.dfy`, `plate_validator.dfy`, `sensor_thread.dfy`, `camera_thread.dfy`,
`radar_main.dfy`.

Where the design description and the code disagree, the model follows the code:

- The design says a second display record, carrying the plate, is sent after a valid capture or a
  capture error. `process_vehicle_detection` never does: the display queue is written once per
  detection, before the handshake, always with an empty plate (`RadarMain.DisplayedPlatesStayEmpty`).
- The design says the edge callbacks and the supervisor share one critical section. The code has no
  lock; the model treats each callback and each supervisor pass as one atomic step.

Behaviours of the code that the lemmas make explicit:

- The speed is timed from the most recent sensor-1 edge (`sensor1_last_trigger`). `sensor2_trigger_time`
  is written but never read (`SensorThread.Sensor2TriggerTimeNeverRead`).

- `axle_count` is a `uint8_t`: a 256th axle within the timeout wraps it to 0 while still counting,
  which breaks the "not idle implies at least one axle" invariant (`SensorThread.AxleCountWrapBreaksInvariant`).
- The incoming plate is cut to 7 characters before spaces are removed, so a spaced 8-character
  reading such as `"ABC 1D23"` is published as `"ABC1D2"` and is invalid (`CameraThread.SpacedPlateLosesTail`).
- Error code 1234 is published as `"ERR1234"`, which fits the Uruguayan format, but the result is
  marked invalid (`CameraThread.ErrorMarkerFitsUruguayFormat`).
- A zero time delta reads as 0 km/h and, with non-zero limits, is never a violation (`RadarMain.ZeroTimeNeverViolates`); with a zero limit, 0 km/h is a violation.

## Model

| member | source | states |
|---|---|---|
| `Calculations.CalculateSpeedKmh` | src/utils/calculations.h:25-38 | zero time gives 0; otherwise, where the uint32 cast does not truncate, the result is the floored quotient: speed·(t·1000) ≤ d·3600 < (speed+1)·(t·1000) |
| `Calculations.IntermediateFitsIn64Bits` | src/utils/calculations.h:36 | both operands of the division fit the 64-bit intermediate for all 32-bit inputs |
| `Calculations.SpeedExactFromFourMs` | src/utils/calculations.h:36-37 | from 4 ms up the cast never truncates and the result is exactly (d·3600) div (t·1000) |
| `Calculations.SpeedExactForSmallDistance` | src/utils/calculations.h:36-37 | when d·3600 < 2^32 the result is exactly the floored quotient for every non-zero time |
| `Calculations.SpeedTruncatedToUint32` | src/utils/calculations.h:37 | the uint32 cast does wrap below 4 ms: (1 ms, 2^32−1 mm) gives the true quotient minus 3·2^32 |
| `Calculations.SpeedAntitoneInTime` | src/utils/calculations.h:25-38 | for a fixed distance, a longer time never gives a higher speed (t ≥ 4 ms) |
| `Calculations.SpeedTestVectors` | tests/test_calculations.c:18-42 | (0,d)=0, (1000,1000)=3, (100,1000)=36, (60,1000)=60, (10,10000)>0 |
| `Calculations.ClassifyVehicle` | src/utils/calculations.h:46-49 | LIGHT iff at most 2 axles, HEAVY otherwise |
| `Calculations.ClassifyMonotone` | src/utils/calculations.h:46-49 | more axles never turn a heavy vehicle light |
| `Calculations.ClassifyAndLimitTestVectors` | tests/test_calculations.c:47-102 | 1 and 2 axles are light, 3, 4 and 10 heavy; limits 60/40 are picked by class |
| `Calculations.GetSpeedLimit` | src/utils/calculations.h:85-90 | the light limit for LIGHT, the heavy limit for HEAVY |
| `Calculations.WarningThreshold` | src/utils/calculations.h:67-68 | the threshold is the floor of the uint32-wrapped product divided by 100: 100·th ≤ (limit·percent) mod 2^32 < 100·th + 100; without a wrap, the floor of the true product |
| `Calculations.DetermineSpeedStatus` | src/utils/calculations.h:59-75 | VIOLATION iff speed ≥ limit; WARNING iff below the limit and at or above the threshold; NORMAL iff below both |
| `Calculations.StatusMonotoneInSpeed` | src/utils/calculations.h:59-75 | for fixed limit and percent, a higher speed never gets a less severe status |
| `Calculations.StatusTestVectors` | tests/test_calculations.c:67-86 | at limit 60 and 90 %: 50 normal, 55 warning, 60 and 80 violation |
| `Calculations.WarningThresholdFloors` | src/utils/calculations.h:68-72 | the threshold is floored, not rounded up: limit 55 at 90 % warns from 49 km/h |
| `Calculations.WarningProductWraps` | src/utils/calculations.h:68 | the uint32 product wraps for large limits: 50 000 000 at 90 % warns from 2 050 327 km/h |
| `PlateValidator.ValidateBrazilPlate` | src/utils/plate_validator.h:42-72 | true iff the plate is non-NULL and matches letter, letter, letter, digit, letter, digit, digit |
| `PlateValidator.ValidateArgentinaPlate` | src/utils/plate_validator.h:85-111 | true iff non-NULL and two letters, three digits, two letters |
| `PlateValidator.ValidateParaguayPlate` | src/utils/plate_validator.h:123-145 | true iff non-NULL and four letters, three digits |
| `PlateValidator.ValidateUruguayPlate` | src/utils/plate_validator.h:157-179 | true iff non-NULL and three letters, four digits |
| `PlateValidator.FormatsDisjoint` | src/utils/plate_validator.h:42-179 | no plate is accepted by two country validators |
| `PlateValidator.ValidateMercosulPlate` | src/utils/plate_validator.h:188-230 | valid iff some country validator accepts; the reported country is exactly the accepting one (hence the first in priority order), UNKNOWN when none accepts; a valid plate has length 7 |
| `PlateValidator.RejectsWrongLength` | src/utils/plate_validator.h:188-195 | NULL and every length other than 7 are rejected by every validator, with country UNKNOWN |
| `PlateValidator.CountryName` | src/utils/plate_validator.h:238-252 | the name is "Desconhecido" exactly for UNKNOWN |
| `PlateValidator.CountryNamesDistinct` | tests/test_plate_validator.c:137-149 | Brasil, Argentina, Paraguai, Uruguai, Desconhecido, and different countries have different names |
| `PlateValidator.BrazilTestVectors` | tests/test_plate_validator.c:18-32 | ABC1D23, XYZ9A99, AAA0A00 and lower-case abc1d23 are Brazilian |
| `PlateValidator.ArgentinaParaguayTestVectors` | tests/test_plate_validator.c:37-64 | AB123CD, XY999ZW are Argentinian; ABCD123, WXYZ999 Paraguayan |
| `PlateValidator.UruguayTestVectors` | tests/test_plate_validator.c:69-80 | ABC1234, XYZ9999 are Uruguayan |
| `PlateValidator.WrongLengthTestVectors` | tests/test_plate_validator.c:85-111 | ABC123, ABC1D234, the empty string and NULL are rejected with UNKNOWN |
| `PlateValidator.NoFormatTestVectors` | tests/test_plate_validator.c:85-111 | 1234567 and ABCDEFG are rejected with UNKNOWN |
| `PlateValidator.SpecialCharacterTestVectors` | tests/test_plate_validator.c:116-132 | AB@1D23 and ABC1D2# are rejected with UNKNOWN |
| `PlateValidator.HyphenTestVector` | tests/test_plate_validator.c:116-132 | ABC-D23 is rejected with UNKNOWN |
| `SensorThread.SensorMachine.constructor` | src/threads/sensor_thread.c:37-41 | the machine starts Idle with no axles and zero timestamps |
| `SensorThread.SensorMachine.Sensor1Edge` | src/threads/sensor_thread.c:52-91 | the new fields are exactly the sensor-1 step of the old fields |
| `SensorThread.SensorMachine.Sensor2Edge` | src/threads/sensor_thread.c:96-142 | the new fields are the sensor-2 step; the queue gets the emitted detection by a non-blocking put, or is unchanged; the detection is dropped iff the queue was full |
| `SensorThread.SensorMachine.SupervisorTick` | src/threads/sensor_thread.c:271-282 | the new fields are exactly one supervisor pass over the old fields |
| `SensorThread.SensorMachine.SimulateVehicleDetection` | src/threads/sensor_thread.c:209-225 | the queue gets the simulated detection by a non-blocking put |
| `SensorThread.SimulatedDetection` | src/threads/sensor_thread.c:209-222 | the message carries the requested class, 2 axles for light and 3 for heavy (which classify back to that class), and the floored time delta: delta·(speed·1000) ≤ D·3600 < (delta+1)·(speed·1000); a non-zero simulated time measures at least the requested speed |
| `SensorThread.SimulatedSpeedAtLeast` | src/threads/sensor_thread.c:211 | flooring the simulated time can only raise the measured speed |
| `SensorThread.Sensor1StartsCounting` | src/threads/sensor_thread.c:58-65 | sensor 1 in Idle: CountingAxles, one axle, both sensor-1 timestamps are now |
| `SensorThread.Sensor1WhileCounting` | src/threads/sensor_thread.c:67-81 | a gap over 2000 ms restarts at 1 axle, otherwise one more axle; both timestamps become now; the state stays |
| `SensorThread.IgnoredEdges` | src/threads/sensor_thread.c:83-105 | sensor 1 while measuring and sensor 2 while idle change nothing and emit nothing |
| `SensorThread.Sensor2StartsMeasuring` | src/threads/sensor_thread.c:107-112 | sensor 2 while counting: MeasuringSpeed and sensor2_trigger_time = now, nothing else changes |
| `SensorThread.Sensor2CompletesDetection` | src/threads/sensor_thread.c:114-137 | sensor 2 while measuring emits one detection (axles, class by ≤ 2, time from the latest sensor-1 edge) and resets to Idle with 0 axles |
| `SensorThread.SupervisorLeavesMeasurement` | src/threads/sensor_thread.c:274-281 | the supervisor changes the fields iff counting with a stale last axle, and then resets to Idle with 0 axles; MeasuringSpeed is never timed out |
| `SensorThread.Sensor2TriggerTimeNeverRead` | src/threads/sensor_thread.c:111 | machines differing only in sensor2_trigger_time take the same steps and emit the same detections |
| `SensorThread.StepsPreserveInvariant` | src/threads/sensor_thread.c:57-137 | every step keeps "Idle iff no axles" except a timely 256th axle |
| `SensorThread.AxleCountWrapBreaksInvariant` | src/threads/sensor_thread.c:76 | that 256th axle wraps the uint8_t count to 0 while still counting |
| `SensorThread.TwoAxleVehicleScenario` | src/threads/sensor_thread.c:52-137 | two timely axles then two sensor-2 edges give one light detection with 2 axles timed from the second axle, and Idle |
| `SensorThread.StaleAxleRestartsCount` | src/threads/sensor_thread.c:69-73 | a second axle after the timeout restarts the count at 1 |
| `SensorThread.TwoAxleVehicleRun` | src/threads/sensor_thread.c:52-137 | the same scenario through the class's methods puts exactly that detection on the queue |
| `CameraThread.Truncate` | src/threads/camera_thread.c:100-101 | the copy is the prefix of exactly min(7, length) characters |
| `CameraThread.NonSpaces` | src/threads/camera_thread.c:104-111 | the kept characters contain no space and all come from the input |
| `CameraThread.StrippedPlate` | src/threads/camera_thread.c:104-111 | at most 7 characters, no space |
| `CameraThread.StripSpaces` | src/threads/camera_thread.c:104-111 | the loop leaves in clean_plate exactly the first 7 non-space characters of the input, in order |
| `CameraThread.CleanedPlate` | src/threads/camera_thread.c:100-116 | the published plate has at most 7 characters and no space |
| `CameraThread.CleanedPlateIsFilteredPrefix` | src/threads/camera_thread.c:100-111 | the published plate is the first 7 incoming characters with their spaces removed |
| `CameraThread.CleanedPlateIdempotent` | src/threads/camera_thread.c:104-116 | cleaning twice is cleaning once; a space-free plate of at most 7 characters is unchanged |
| `CameraThread.SpacedPlateLosesTail` | src/threads/camera_thread.c:100-111 | "ABC 1D23" is cut before cleaning and published invalid as "ABC1D2" |
| `CameraThread.SpacesInsideShortReading` | src/threads/camera_thread.c:104-111 | every space of a short reading is removed: "A B C1D" is published as "ABC1D" |
| `CameraThread.FormatZeroPadded3` | src/threads/camera_thread.c:137 | "%03d": at least 3 characters; for n ≥ 0 digits that read back as n; for n < 0 a '-' then digits that read back as −n; padded only up to 3 characters (no leading zero beyond that); no NUL |
| `CameraThread.ErrorPlate` | src/threads/camera_thread.c:137 | "ERR" followed by a prefix of the formatted code, cut to exactly min(7, 3 + its length) characters |
| `CameraThread.ErrorCodeRoundTrip` | src/threads/camera_thread.c:137 | for codes 0..9999 the characters after "ERR" read back as the code |
| `CameraThread.ErrorPlateExamples` | src/threads/camera_thread.c:137 | codes 5 and 42 give ERR005 and ERR042 |
| `CameraThread.ErrorPlateKeepsSign` | src/threads/camera_thread.c:137 | code −5 gives ERR-05: the sign counts toward the width of 3 |
| `CameraThread.ErrorPlateCutsLongCode` | src/threads/camera_thread.c:137 | code 12345 gives ERR1234: the 8-byte buffer cuts the last digit |
| `CameraThread.EventResult` | src/threads/camera_thread.c:94-145 | timestamp is now, plate has at most 7 characters; a data event with a plate publishes the cleaned plate; valid iff the event carries a plate and the cleaned plate passes the Mercosul validator; a valid plate has 7 characters |
| `CameraThread.ProcessCameraEvent` | src/threads/camera_thread.c:94-145 | the thread's loop body publishes exactly EventResult |
| `CameraThread.DataEventExamples` | src/threads/camera_thread.c:98-119 | "ABC1D23" is published unchanged and valid |
| `CameraThread.GarbageDataEventExample` | src/threads/camera_thread.c:98-119 | "garbage" is published unchanged and invalid |
| `CameraThread.FailureEventResults` | src/threads/camera_thread.c:127-143 | NULL data or plate gives invalid "NULL"; an error gives invalid ERR code; an unknown type gives invalid "UNKNOWN" |
| `CameraThread.ErrorMarkerFitsUruguayFormat` | src/threads/camera_thread.c:134-137 | error 1234 is published as "ERR1234", which fits the Uruguayan format, still invalid |
| `CameraThread.CaptureStartResult` | src/threads/camera_thread.c:42-54 | a result is published at once iff the capture start fails; it carries "ERROR", is invalid, stamped now, and its plate is no Mercosul plate |
| `MsgQueue.BoundedQueue.constructor` | src/main.c:23-24 | a queue starts empty with the given capacity |
| `MsgQueue.BoundedQueue.Put` | src/main.c:75 | a non-blocking put appends the message iff the queue has room, else leaves it unchanged |
| `MsgQueue.BoundedQueue.Get` | src/main.c:133 | get returns the oldest message and removes it |
| `MsgQueue.PutResultBounded` | src/main.c:24 | a put never overfills the queue and grows it by one iff there was room |
| `MsgQueue.PutAllLength` | src/main.c:24 | a batch of puts fills the queue up to its capacity, keeping what was queued |
| `MsgQueue.PutAllFrom` | src/main.c:75 | every queued message after a batch was queued before or is part of the batch |
| `RadarMain.Enforce` | src/main.c:78-109 | no violation: no bus action; otherwise subscribe, then publish the one trigger, then wait iff the publication succeeded, and read iff the wait succeeded; a failed publication, a timeout and a failed read give their own outcomes; a delivered result registers its plate if valid and rejects it otherwise |
| `RadarMain.Radar.constructor` | src/main.c:23-24 | both queues start empty with capacity 10 |
| `RadarMain.Radar.ProcessVehicleDetection` | src/main.c:47-111 | the display queue gets exactly the detection's display message by a non-blocking put, whatever the bus answers; the handshake is Enforce of the detection's trigger |
| `RadarMain.Radar.Run` | src/main.c:131-136 | the sensor queue is drained oldest first; the display queue gets the display messages in that order; the k-th handshake belongs to the k-th detection |
| `RadarMain.ViolationIffAtClassLimit` | src/main.c:50-60 | the limit is the class's limit, a violation iff speed reaches it, and a trigger iff a violation |
| `RadarMain.TriggerCarriesDetection` | src/main.c:81-84 | the trigger carries the computed speed and the detection's class |
| `RadarMain.DisplayCarriesDecision` | src/main.c:68-73 | the display message copies speed, class, status and limit, with an empty plate |
| `RadarMain.ZeroTimeNeverViolates` | src/main.c:50-60 | a zero time delta gives 0 km/h, never a violation with non-zero limits, and no trigger |
| `RadarMain.DisplayedPlatesStayEmpty` | src/main.c:68-75 | the main loop adds one message per detection until the queue is full, and no message on the display queue ever carries a plate |
| `RadarMain.SubscribeBeforePublish` | src/main.c:86-90 | the only publication is the second action, right after the subscription |
| `RadarMain.ResponseOnlySelectsOutcome` | src/main.c:94-108 | timeout, failed read and delivered result share the subscribe-publish-wait prefix |
| `RadarMain.CapturedPlateRegisteredIff` | src/main.c:94-104 | a violation's plate is registered iff the camera result is valid; events without a plate are rejected |
| `RadarMain.HandshakeScenarios` | src/main.c:87-108 | a timeout logs a timeout after waiting; "garbage" is rejected; "ABC1D23" valid is registered; a failed publication never waits |

## Left out

- GPIO configuration, interrupt registration and device checks (`init_sensors`): hardware driver calls.
- The `k_sleep` polling, the demo loop choosing which vehicle to simulate, and the thread definitions: scheduling and timing. A supervisor pass is a method taking `now`; time comes in as a parameter.
- The missing lock between the edge callbacks and the supervisor: each callback and each supervisor pass is one atomic step, so the race is not modelled.
- The publish/subscribe bus (observer registration, publication, waiting, reading and their timeouts): an abstract `BusResponse` input stands for its answer. Idempotent re-subscription is therefore not modelled.
- `camera_api_capture` and the camera-service event type live in a header that is not part of this model: the event is an abstract datatype and the capture start's return code is an input.
- The camera-integration thread that reads the trigger channel, and the camera thread's own publication of its result: plumbing around the modelled functions.
- All logging. Where a branch only logs, the model returns an outcome value instead.
- The display thread (console rendering) and the Python simulation script.
- `SENSOR_STATE_COMPLETE` and the `default:` branches of the callbacks: the state is never assigned.
- `get_country_name` on an out-of-range enum value: the country is a datatype with only the five declared values.
- Characters are Dafny `char`, not bytes; the C-locale `isalpha`/`isdigit` are modelled on ASCII.
- The main loop blocks forever on an empty sensor queue; `RadarMain.Radar.Run` stops once the queue is empty.
- Calculations.CalculateSpeedKmh: its contract states the floored quotient only where the uint32 cast does not truncate; the truncated case is shown by `SpeedTruncatedToUint32` for one input.
