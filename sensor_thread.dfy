/** The detection state machine of src/threads/sensor_thread.c: the two sensor edge callbacks and
    the supervisor's axle-timeout check, each an atomic step over the machine's static fields, plus
    the arithmetic of the simulated detections. */
module SensorThread {
  import opened RadarTypes
  import opened MsgQueue
  import Calculations

  /** AXLE_TIMEOUT_MS: the longest gap between two axles of one vehicle. */
  const AXLE_TIMEOUT_MS: int := 2000

  /** The machine's fields (current_state, axle_count, last_axle_time, sensor1_last_trigger,
      sensor2_trigger_time) as one value. */
  datatype Snapshot = Snapshot(
    state: SensorState,
    axleCount: Uint8,
    lastAxleTime: Uptime,
    sensor1LastTrigger: Uptime,
    sensor2TriggerTime: Uptime)

  /** The static initialisers. */
  const INITIAL: Snapshot := Snapshot(Idle, 0, 0, 0, 0)

  /** The result of a sensor-2 edge: the next fields and the detection it emits, if any. */
  datatype Sensor2Step = Sensor2Step(next: Snapshot, emitted: Option<SensorDataMsg>)

  /** What a sensor-2 edge reports (the callback only logs these). */
  datatype Sensor2Outcome = IgnoredWhileIdle | MeasurementStarted | DetectionQueued | DetectionDropped

  /** The gap since the last axle is longer than the axle timeout. */
  predicate AxleGapExpired(lastAxleTime: Uptime, now: Uptime)
  {
    now - lastAxleTime > AXLE_TIMEOUT_MS
  }

  /** The machine's invariant: Idle exactly when no axle is counted. */
  predicate AxleCountConsistent(s: Snapshot)
  {
    (s.state == Idle ==> s.axleCount == 0) && (s.state != Idle ==> s.axleCount >= 1)
  }

  /** sensor1_callback. */
  function OnSensor1(s: Snapshot, now: Uptime): Snapshot
  {
    match s.state
    case Idle =>
      s.(state := CountingAxles, axleCount := 1, lastAxleTime := now, sensor1LastTrigger := now)
    case CountingAxles =>
      var count := if AxleGapExpired(s.lastAxleTime, now) then 1 else (s.axleCount + 1) % UINT8_MODULUS;
      s.(axleCount := count, lastAxleTime := now, sensor1LastTrigger := now)
    case MeasuringSpeed =>
      s
  }

  /** The detection a completing sensor-2 edge builds: the time since the most recent sensor-1 edge,
      cast to uint32, and the class of the counted axles. */
  function DetectionAt(s: Snapshot, now: Uptime): SensorDataMsg
  {
    SensorDataMsg((now - s.sensor1LastTrigger) % UINT32_MODULUS, Calculations.ClassifyVehicle(s.axleCount), s.axleCount)
  }

  /** sensor2_callback. */
  function OnSensor2(s: Snapshot, now: Uptime): Sensor2Step
  {
    match s.state
    case Idle =>
      Sensor2Step(s, None)
    case CountingAxles =>
      Sensor2Step(s.(state := MeasuringSpeed, sensor2TriggerTime := now), None)
    case MeasuringSpeed =>
      Sensor2Step(s.(state := Idle, axleCount := 0), Some(DetectionAt(s, now)))
  }

  /** The timeout check of sensor_thread_entry's supervisor loop. */
  function OnSupervisorTick(s: Snapshot, now: Uptime): Snapshot
  {
    if s.state == CountingAxles && AxleGapExpired(s.lastAxleTime, now) then
      s.(state := Idle, axleCount := 0)
    else
      s
  }

  /** The one step that can break the invariant: a 256th axle in a row wraps the uint8_t count to 0. */
  predicate AxleCountWraps(s: Snapshot, now: Uptime)
  {
    s.state == CountingAxles && s.axleCount == UINT8_MODULUS - 1 && !AxleGapExpired(s.lastAxleTime, now)
  }

  class SensorMachine {
    var state: SensorState
    var axleCount: Uint8
    var lastAxleTime: Uptime
    var sensor1LastTrigger: Uptime
    var sensor2TriggerTime: Uptime
    /** sensor_msgq, owned by the main thread. */
    const sensorQueue: BoundedQueue<SensorDataMsg>

    function Fields(): Snapshot
      reads this
    {
      Snapshot(state, axleCount, lastAxleTime, sensor1LastTrigger, sensor2TriggerTime)
    }

    constructor (sensorQueue: BoundedQueue<SensorDataMsg>)
      ensures Fields() == INITIAL && this.sensorQueue == sensorQueue
    {
      state, axleCount := Idle, 0;
      lastAxleTime, sensor1LastTrigger, sensor2TriggerTime := 0, 0, 0;
      this.sensorQueue := sensorQueue;
    }

    /** An edge on sensor 1 (the axle counter) at time `now`. */
    method Sensor1Edge(now: Uptime)
      modifies this
      ensures Fields() == OnSensor1(old(Fields()), now)
    {
      match state {
        case Idle =>
          state := CountingAxles;
          axleCount := 1;
          lastAxleTime := now;
          sensor1LastTrigger := now;
        case CountingAxles =>
          if now - lastAxleTime > AXLE_TIMEOUT_MS {
            axleCount := 1;
            sensor1LastTrigger := now;
          } else {
            axleCount := (axleCount + 1) % UINT8_MODULUS;
            sensor1LastTrigger := now;
          }
          lastAxleTime := now;
        case MeasuringSpeed =>
      }
    }

    /** An edge on sensor 2 at time `now`; a completed detection is put, non-blocking, on the sensor queue. */
    method Sensor2Edge(now: Uptime) returns (outcome: Sensor2Outcome)
      requires sensorQueue.Valid()
      modifies this, sensorQueue
      ensures sensorQueue.Valid()
      ensures Fields() == OnSensor2(old(Fields()), now).next
      ensures sensorQueue.items == match OnSensor2(old(Fields()), now).emitted
                                   case None => old(sensorQueue.items)
                                   case Some(msg) => PutResult(old(sensorQueue.items), sensorQueue.capacity, msg)
      ensures outcome == DetectionQueued <==>
                old(state) == MeasuringSpeed && old(|sensorQueue.items|) < sensorQueue.capacity
      ensures outcome == DetectionDropped <==>
                old(state) == MeasuringSpeed && old(|sensorQueue.items|) >= sensorQueue.capacity
    {
      match state {
        case Idle =>
          outcome := IgnoredWhileIdle;
        case CountingAxles =>
          state := MeasuringSpeed;
          sensor2TriggerTime := now;
          outcome := MeasurementStarted;
        case MeasuringSpeed =>
          var timeDelta := (now - sensor1LastTrigger) % UINT32_MODULUS;
          var msg := SensorDataMsg(timeDelta, if axleCount <= 2 then Light else Heavy, axleCount);
          var ok := sensorQueue.Put(msg);
          outcome := if ok then DetectionQueued else DetectionDropped;
          state := Idle;
          axleCount := 0;
      }
    }

    /** One pass of the supervisor loop at time `now`. */
    method SupervisorTick(now: Uptime)
      modifies this
      ensures Fields() == OnSupervisorTick(old(Fields()), now)
    {
      if state == CountingAxles {
        if now - lastAxleTime > AXLE_TIMEOUT_MS {
          state := Idle;
          axleCount := 0;
        }
      }
    }

    /** simulate_vehicle_detection: put the detection of a vehicle of the given class and speed. */
    method SimulateVehicleDetection(vehicleType: VehicleType, speedKmh: Uint32, distanceMm: Uint32)
      requires SimulationDefined(speedKmh, distanceMm)
      requires sensorQueue.Valid()
      modifies sensorQueue
      ensures sensorQueue.Valid()
      ensures sensorQueue.items ==
                PutResult(old(sensorQueue.items), sensorQueue.capacity, SimulatedDetection(vehicleType, speedKmh, distanceMm))
    {
      var timeDelta := (distanceMm * 3600) / (speedKmh * 1000);
      var axles := if vehicleType == Light then 2 else 3;
      var msg := SensorDataMsg(timeDelta, vehicleType, axles);
      var _ := sensorQueue.Put(msg);
    }
  }

  /** The demo's arithmetic is defined: a non-zero speed whose `* 1000` fits uint32, and a sensor
      distance whose `* 3600` fits the int of the configuration constant. */
  predicate SimulationDefined(speedKmh: Uint32, distanceMm: Uint32)
  {
    0 < speedKmh && speedKmh * 1000 < UINT32_MODULUS && distanceMm * 3600 < 0x8000_0000
  }

  /** The detection simulate_vehicle_detection builds: 2 axles for a light vehicle, 3 for a heavy one,
      and the time a vehicle at that speed would take over the sensor distance, floored. */
  function SimulatedDetection(vehicleType: VehicleType, speedKmh: Uint32, distanceMm: Uint32): (msg: SensorDataMsg)
    requires SimulationDefined(speedKmh, distanceMm)
    ensures msg.vehicleType == vehicleType && msg.axleCount == (if vehicleType == Light then 2 else 3)
    ensures msg.timeDeltaMs * (speedKmh * 1000) <= distanceMm * 3600 < (msg.timeDeltaMs + 1) * (speedKmh * 1000)
    ensures Calculations.ClassifyVehicle(msg.axleCount) == vehicleType
    ensures msg.timeDeltaMs > 0 ==> Calculations.CalculateSpeedKmh(msg.timeDeltaMs, distanceMm) >= speedKmh
  {
    var timeDelta := (distanceMm * 3600) / (speedKmh * 1000);
    var msg := SensorDataMsg(timeDelta, vehicleType, if vehicleType == Light then 2 else 3);
    SimulatedSpeedAtLeast(speedKmh, distanceMm, timeDelta);
    Calculations.FloorDivision(distanceMm * 3600, speedKmh * 1000);
    msg
  }

  /** Flooring the simulated time can only make the measured speed come out higher. */
  lemma SimulatedSpeedAtLeast(speedKmh: Uint32, distanceMm: Uint32, timeDelta: Uint32)
    requires SimulationDefined(speedKmh, distanceMm)
    requires timeDelta == (distanceMm * 3600) / (speedKmh * 1000)
    ensures timeDelta > 0 ==> Calculations.CalculateSpeedKmh(timeDelta, distanceMm) >= speedKmh
  {
    if timeDelta > 0 {
      var a := distanceMm * 3600;
      var q := FlooredRoundTrip(a, speedKmh, timeDelta);
      Calculations.SpeedExactForSmallDistance(timeDelta, distanceMm);
    }
  }

  /** With t = a / (v * 1000) > 0, the quotient a / (t * 1000) is at least v. */
  lemma FlooredRoundTrip(a: nat, v: nat, t: nat) returns (q: nat)
    requires v > 0 && t > 0 && t == a / (v * 1000)
    ensures q == a / (t * 1000) && q >= v
  {
    Calculations.FloorDivision(a, v * 1000);
    assert t * (v * 1000) <= a;
    Commute1000(t, v);
    Calculations.QuotientAtLeast(a, t * 1000, v);
    q := a / (t * 1000);
  }

  lemma Commute1000(t: nat, v: nat)
    ensures t * (v * 1000) == v * (t * 1000)
  {
  }

  // ---------------------------------------------------------------- properties of the steps

  /** Sensor 1 in Idle starts counting at one axle, with both sensor-1 timestamps set to now. */
  lemma Sensor1StartsCounting(s: Snapshot, now: Uptime)
    requires s.state == Idle
    ensures OnSensor1(s, now) == s.(state := CountingAxles, axleCount := 1, lastAxleTime := now, sensor1LastTrigger := now)
  {
  }

  /** Sensor 1 while counting: a late axle restarts the count at 1, a timely one adds one (mod 256);
      both timestamps move to now and the state stays. */
  lemma Sensor1WhileCounting(s: Snapshot, now: Uptime)
    requires s.state == CountingAxles
    ensures var t := OnSensor1(s, now);
      && t.state == CountingAxles && t.lastAxleTime == now && t.sensor1LastTrigger == now
      && t.sensor2TriggerTime == s.sensor2TriggerTime
      && (AxleGapExpired(s.lastAxleTime, now) ==> t.axleCount == 1)
      && (!AxleGapExpired(s.lastAxleTime, now) && s.axleCount < 255 ==> t.axleCount == s.axleCount + 1)
  {
  }

  /** Edges that the machine ignores: sensor 1 while measuring, sensor 2 while idle. */
  lemma IgnoredEdges(s: Snapshot, now: Uptime)
    ensures s.state == MeasuringSpeed ==> OnSensor1(s, now) == s
    ensures s.state == Idle ==> OnSensor2(s, now) == Sensor2Step(s, None)
  {
  }

  /** Sensor 2 while counting starts the measurement and records its own time, touching nothing else. */
  lemma Sensor2StartsMeasuring(s: Snapshot, now: Uptime)
    requires s.state == CountingAxles
    ensures OnSensor2(s, now) == Sensor2Step(s.(state := MeasuringSpeed, sensor2TriggerTime := now), None)
  {
  }

  /** Sensor 2 while measuring emits exactly one detection, timed from the most recent sensor-1 edge,
      and returns to Idle with no axles, whether or not the queue takes the detection. */
  lemma Sensor2CompletesDetection(s: Snapshot, now: Uptime)
    requires s.state == MeasuringSpeed
    ensures var step := OnSensor2(s, now);
      && step.next.state == Idle && step.next.axleCount == 0
      && step.emitted.Some?
      && step.emitted.value.axleCount == s.axleCount
      && (step.emitted.value.vehicleType == Light <==> s.axleCount <= 2)
      && (now >= s.sensor1LastTrigger && now - s.sensor1LastTrigger < UINT32_MODULUS ==>
            step.emitted.value.timeDeltaMs == now - s.sensor1LastTrigger)
  {
  }

  /** The supervisor never times out a measurement, and only resets a count whose last axle is stale. */
  lemma SupervisorLeavesMeasurement(s: Snapshot, now: Uptime)
    ensures s.state != CountingAxles ==> OnSupervisorTick(s, now) == s
    ensures OnSupervisorTick(s, now) != s <==> s.state == CountingAxles && AxleGapExpired(s.lastAxleTime, now)
    ensures OnSupervisorTick(s, now) != s ==> OnSupervisorTick(s, now).state == Idle && OnSupervisorTick(s, now).axleCount == 0
  {
  }

  /** sensor2_trigger_time is written but never read: two machines that differ only in it take the
      same steps and emit the same detections. */
  lemma Sensor2TriggerTimeNeverRead(s: Snapshot, t2: Uptime, now: Uptime)
    ensures OnSensor1(s.(sensor2TriggerTime := t2), now) == OnSensor1(s, now).(sensor2TriggerTime := t2)
    ensures OnSensor2(s.(sensor2TriggerTime := t2), now).emitted == OnSensor2(s, now).emitted
    ensures OnSensor2(s.(sensor2TriggerTime := t2), now).next.(sensor2TriggerTime := 0)
         == OnSensor2(s, now).next.(sensor2TriggerTime := 0)
    ensures OnSupervisorTick(s.(sensor2TriggerTime := t2), now) == OnSupervisorTick(s, now).(sensor2TriggerTime := t2)
  {
  }

  /** Every step keeps the axle-count invariant, except a 256th timely axle, which wraps the count. */
  lemma StepsPreserveInvariant(s: Snapshot, now: Uptime)
    requires AxleCountConsistent(s)
    ensures !AxleCountWraps(s, now) ==> AxleCountConsistent(OnSensor1(s, now))
    ensures AxleCountConsistent(OnSensor2(s, now).next)
    ensures AxleCountConsistent(OnSupervisorTick(s, now))
  {
  }

  /** The wrap is real: 255 counted axles plus one more leaves a counting machine with no axles. */
  lemma AxleCountWrapBreaksInvariant(s: Snapshot, now: Uptime)
    requires AxleCountWraps(s, now)
    ensures OnSensor1(s, now).state == CountingAxles && OnSensor1(s, now).axleCount == 0
    ensures !AxleCountConsistent(OnSensor1(s, now))
  {
  }

  /** Scenario: two axles within the timeout, then sensor 2 twice, give one light detection with
      two axles timed from the second axle, and the machine is Idle again. */
  lemma TwoAxleVehicleScenario(t0: Uptime, t1: Uptime, t2: Uptime, t3: Uptime)
    requires t0 <= t1 <= t2 <= t3 && t1 - t0 <= AXLE_TIMEOUT_MS && t3 - t1 < UINT32_MODULUS
    ensures var s1 := OnSensor1(OnSensor1(INITIAL, t0), t1);
      var s2 := OnSensor2(s1, t2).next;
      var step := OnSensor2(s2, t3);
      && step.emitted == Some(SensorDataMsg(t3 - t1, Light, 2))
      && step.next.state == Idle && step.next.axleCount == 0
  {
  }

  /** Scenario: a second sensor-1 edge after the timeout starts the count over at 1. */
  lemma StaleAxleRestartsCount(t0: Uptime, t1: Uptime)
    requires t1 - t0 > AXLE_TIMEOUT_MS
    ensures OnSensor1(OnSensor1(INITIAL, t0), t1).axleCount == 1
    ensures OnSensor1(OnSensor1(INITIAL, t0), t1).sensor1LastTrigger == t1
  {
  }

  /** Client of the class: the two-axle scenario driven through the callbacks themselves. */
  method TwoAxleVehicleRun(queue: BoundedQueue<SensorDataMsg>, t0: Uptime, t1: Uptime, t2: Uptime, t3: Uptime)
    requires queue.Valid() && |queue.items| < queue.capacity
    requires t0 <= t1 <= t2 <= t3 && t1 - t0 <= AXLE_TIMEOUT_MS && t3 - t1 < UINT32_MODULUS
    modifies queue
    ensures queue.items == old(queue.items) + [SensorDataMsg(t3 - t1, Light, 2)]
  {
    var machine := new SensorMachine(queue);
    machine.Sensor1Edge(t0);
    machine.Sensor1Edge(t1);
    var started := machine.Sensor2Edge(t2);
    assert queue.items == old(queue.items);
    var completed := machine.Sensor2Edge(t3);
    assert machine.state == Idle && completed == DetectionQueued;
  }
}
