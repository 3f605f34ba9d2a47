/** The main thread of src/main.c: per detection, the speed/limit/status decision, one non-blocking
    display message, and on a violation the trigger publication and the wait for the camera result,
    over detections taken from the sensor queue in FIFO order. The bus is abstracted to its answer. */
module RadarMain {
  import opened RadarTypes
  import opened MsgQueue
  import Calculations
  import CameraThread

  /** K_MSGQ_DEFINE capacities of sensor_msgq and display_msgq. */
  const SENSOR_QUEUE_CAPACITY: nat := 10
  const DISPLAY_QUEUE_CAPACITY: nat := 10

  /** The Kconfig constants the main thread reads. */
  datatype Config = Config(
    distanceMm: Uint32, lightLimitKmh: Uint32, heavyLimitKmh: Uint32, warningThresholdPercent: Uint32)

  /** Speed, applicable limit and status computed for one detection. */
  datatype SpeedDecision = SpeedDecision(speedKmh: Uint32, limitKmh: Uint32, status: SpeedStatus)

  /** The observable bus operations of one detection, in the order they happen. */
  datatype BusAction = AddResultObserver | PublishTrigger(trigger: CameraTriggerEvent) | WaitForResult | ReadResult

  /** How the bus answers: the trigger publication fails, the wait times out, reading the delivered
      result fails, or a result is read. */
  datatype BusResponse = PublishFailed | WaitTimedOut | ReadFailed | Delivered(result: CameraResultEvent)

  /** Which branch of process_vehicle_detection ran (the code only logs it). */
  datatype DetectionOutcome =
    | NoViolation
    | TriggerNotPublished
    | CaptureTimedOut
    | ResultUnreadable
    | PlateRegistered(plate: CString)
    | PlateRejected(plate: CString)

  datatype Handshake = Handshake(actions: seq<BusAction>, outcome: DetectionOutcome)

  /** Lines 50-60 of process_vehicle_detection. */
  function Decide(msg: SensorDataMsg, cfg: Config): SpeedDecision
  {
    var speed := Calculations.CalculateSpeedKmh(msg.timeDeltaMs, cfg.distanceMm);
    var limit := Calculations.GetSpeedLimit(msg.vehicleType, cfg.lightLimitKmh, cfg.heavyLimitKmh);
    SpeedDecision(speed, limit, Calculations.DetermineSpeedStatus(speed, limit, cfg.warningThresholdPercent))
  }

  /** The one display message of a detection: the decision and the class, with an empty plate. */
  function DisplayFor(msg: SensorDataMsg, cfg: Config): DisplayDataMsg
  {
    var d := Decide(msg, cfg);
    DisplayDataMsg(d.speedKmh, msg.vehicleType, d.status, d.limitKmh, "")
  }

  function DisplaysFor(msgs: seq<SensorDataMsg>, cfg: Config): (displays: seq<DisplayDataMsg>)
    ensures |displays| == |msgs|
    ensures forall i | 0 <= i < |msgs| :: displays[i] == DisplayFor(msgs[i], cfg)
  {
    seq(|msgs|, i requires 0 <= i < |msgs| => DisplayFor(msgs[i], cfg))
  }

  /** The trigger a detection publishes: only on a violation, with its speed and class. */
  function TriggerFor(msg: SensorDataMsg, cfg: Config): Option<CameraTriggerEvent>
  {
    var d := Decide(msg, cfg);
    if d.status == Violation then Some(CameraTriggerEvent(d.speedKmh, msg.vehicleType)) else None
  }

  /** The capture handshake of process_vehicle_detection (lines 78-109) for a given bus answer. */
  function Enforce(trigger: Option<CameraTriggerEvent>, response: BusResponse): (h: Handshake)
    ensures trigger.None? ==> h == Handshake([], NoViolation)
    ensures trigger.Some? ==> |h.actions| >= 2 && h.actions[0] == AddResultObserver && h.actions[1] == PublishTrigger(trigger.value)
    ensures forall t :: PublishTrigger(t) in h.actions ==> trigger == Some(t)
    ensures WaitForResult in h.actions <==> trigger.Some? && response != PublishFailed
    ensures h.outcome.PlateRegistered? <==> trigger.Some? && response.Delivered? && response.result.valid
    ensures ReadResult in h.actions <==> trigger.Some? && (response.ReadFailed? || response.Delivered?)
    ensures trigger.Some? && response == PublishFailed ==> h.outcome == TriggerNotPublished
    ensures trigger.Some? && response == WaitTimedOut ==> h.outcome == CaptureTimedOut
    ensures trigger.Some? && response == ReadFailed ==> h.outcome == ResultUnreadable
    ensures trigger.Some? && response.Delivered? ==>
              h.outcome == (if response.result.valid then PlateRegistered(response.result.plate) else PlateRejected(response.result.plate))
  {
    match trigger
    case None => Handshake([], NoViolation)
    case Some(t) =>
      var published := [AddResultObserver, PublishTrigger(t)];
      match response
      case PublishFailed => Handshake(published, TriggerNotPublished)
      case WaitTimedOut => Handshake(published + [WaitForResult], CaptureTimedOut)
      case ReadFailed => Handshake(published + [WaitForResult, ReadResult], ResultUnreadable)
      case Delivered(result) =>
        Handshake(published + [WaitForResult, ReadResult],
                  if result.valid then PlateRegistered(result.plate) else PlateRejected(result.plate))
  }

  class Radar {
    const config: Config
    const sensorQueue: BoundedQueue<SensorDataMsg>
    const displayQueue: BoundedQueue<DisplayDataMsg>

    ghost predicate Valid()
      reads this, sensorQueue, displayQueue
    {
      && sensorQueue.Valid() && sensorQueue.capacity == SENSOR_QUEUE_CAPACITY
      && displayQueue.Valid() && displayQueue.capacity == DISPLAY_QUEUE_CAPACITY
    }

    constructor (config: Config)
      ensures Valid() && this.config == config
      ensures sensorQueue.items == [] && displayQueue.items == []
      ensures fresh(sensorQueue) && fresh(displayQueue)
    {
      this.config := config;
      sensorQueue := new BoundedQueue<SensorDataMsg>(SENSOR_QUEUE_CAPACITY);
      displayQueue := new BoundedQueue<DisplayDataMsg>(DISPLAY_QUEUE_CAPACITY);
    }

    /** process_vehicle_detection: one display message, then the handshake if the detection is a violation. */
    method ProcessVehicleDetection(msg: SensorDataMsg, response: BusResponse) returns (h: Handshake)
      requires Valid()
      modifies displayQueue
      ensures Valid()
      ensures displayQueue.items == PutResult(old(displayQueue.items), DISPLAY_QUEUE_CAPACITY, DisplayFor(msg, config))
      ensures h == Enforce(TriggerFor(msg, config), response)
    {
      var speed := Calculations.CalculateSpeedKmh(msg.timeDeltaMs, config.distanceMm);
      var limit := Calculations.GetSpeedLimit(msg.vehicleType, config.lightLimitKmh, config.heavyLimitKmh);
      var status := Calculations.DetermineSpeedStatus(speed, limit, config.warningThresholdPercent);
      var displayMsg := DisplayDataMsg(speed, msg.vehicleType, status, limit, "");
      var _ := displayQueue.Put(displayMsg);
      var actions: seq<BusAction> := [];
      var outcome := NoViolation;
      if status == Violation {
        var trigger := CameraTriggerEvent(speed, msg.vehicleType);
        actions := actions + [AddResultObserver];
        actions := actions + [PublishTrigger(trigger)];
        if response == PublishFailed {
          outcome := TriggerNotPublished;
        } else {
          actions := actions + [WaitForResult];
          if response == WaitTimedOut {
            outcome := CaptureTimedOut;
          } else {
            actions := actions + [ReadResult];
            match response {
              case ReadFailed =>
                outcome := ResultUnreadable;
              case Delivered(result) =>
                outcome := if result.valid then PlateRegistered(result.plate) else PlateRejected(result.plate);
            }
          }
        }
      }
      h := Handshake(actions, outcome);
    }

    /** The main loop: take every queued detection, oldest first, and process it; `responses(k)` is
        how the bus answers for the k-th detection. */
    method Run(responses: nat -> BusResponse) returns (handshakes: seq<Handshake>)
      requires Valid()
      modifies sensorQueue, displayQueue
      ensures Valid()
      ensures sensorQueue.items == []
      ensures displayQueue.items ==
                PutAll(old(displayQueue.items), DISPLAY_QUEUE_CAPACITY, DisplaysFor(old(sensorQueue.items), config))
      ensures |handshakes| == |old(sensorQueue.items)|
      ensures forall k | 0 <= k < |handshakes| ::
                handshakes[k] == Enforce(TriggerFor(old(sensorQueue.items)[k], config), responses(k))
    {
      ghost var pending := sensorQueue.items;
      ghost var shown := displayQueue.items;
      handshakes := [];
      var k := 0;
      while sensorQueue.items != []
        invariant Valid()
        invariant 0 <= k <= |pending| && sensorQueue.items == pending[k..]
        invariant displayQueue.items == PutAll(shown, DISPLAY_QUEUE_CAPACITY, DisplaysFor(pending[..k], config))
        invariant |handshakes| == k
        invariant HandshakesFor(pending, responses, config, handshakes)
        decreases |sensorQueue.items|
      {
        var next := sensorQueue.Get();
        assert next == Some(pending[k]);
        ghost var before := displayQueue.items;
        var h := ProcessVehicleDetection(next.value, responses(k));
        DisplaysStep(pending, k, config, shown, before);
        HandshakesStep(pending, responses, config, handshakes, h, k);
        handshakes := handshakes + [h];
        k := k + 1;
      }
      assert pending[..k] == pending;
      assert pending == old(sensorQueue.items);
    }
  }

  /** The k-th handshake is the capture handshake of the k-th detection under the k-th bus answer. */
  ghost predicate HandshakesFor(pending: seq<SensorDataMsg>, responses: nat -> BusResponse, cfg: Config, handshakes: seq<Handshake>)
  {
    && |handshakes| <= |pending|
    && forall j | 0 <= j < |handshakes| :: handshakes[j] == Enforce(TriggerFor(pending[j], cfg), responses(j))
  }

  /** One more processed detection adds its handshake. */
  lemma HandshakesStep(pending: seq<SensorDataMsg>, responses: nat -> BusResponse, cfg: Config,
                       handshakes: seq<Handshake>, h: Handshake, k: nat)
    requires k == |handshakes| < |pending| && HandshakesFor(pending, responses, cfg, handshakes)
    requires h == Enforce(TriggerFor(pending[k], cfg), responses(k))
    ensures HandshakesFor(pending, responses, cfg, handshakes + [h])
  {
  }

  /** One more processed detection adds its display message to the batch of puts. */
  lemma DisplaysStep(pending: seq<SensorDataMsg>, k: nat, cfg: Config, shown: seq<DisplayDataMsg>, before: seq<DisplayDataMsg>)
    requires k < |pending|
    requires before == PutAll(shown, DISPLAY_QUEUE_CAPACITY, DisplaysFor(pending[..k], cfg))
    ensures PutResult(before, DISPLAY_QUEUE_CAPACITY, DisplayFor(pending[k], cfg))
         == PutAll(shown, DISPLAY_QUEUE_CAPACITY, DisplaysFor(pending[..k + 1], cfg))
  {
    var xs := DisplaysFor(pending[..k + 1], cfg);
    assert xs[..|xs| - 1] == DisplaysFor(pending[..k], cfg);
  }

  // ---------------------------------------------------------------- properties


  /** A detection is a violation exactly when its speed reaches the limit of its own class. */
  lemma ViolationIffAtClassLimit(msg: SensorDataMsg, cfg: Config)
    ensures var d := Decide(msg, cfg);
      && d.limitKmh == (if msg.vehicleType == Light then cfg.lightLimitKmh else cfg.heavyLimitKmh)
      && (d.status == Violation <==> d.speedKmh >= d.limitKmh)
      && (TriggerFor(msg, cfg).Some? <==> d.status == Violation)
  {
  }

  /** The trigger carries the decision's speed and the detection's class. */
  lemma TriggerCarriesDetection(msg: SensorDataMsg, cfg: Config)
    requires TriggerFor(msg, cfg).Some?
    ensures TriggerFor(msg, cfg).value == CameraTriggerEvent(Decide(msg, cfg).speedKmh, msg.vehicleType)
  {
  }

  /** The display message copies the decision and never carries a plate. */
  lemma DisplayCarriesDecision(msg: SensorDataMsg, cfg: Config)
    ensures var m := DisplayFor(msg, cfg);
      var d := Decide(msg, cfg);
      m.speedKmh == d.speedKmh && m.speedLimit == d.limitKmh && m.status == d.status
      && m.vehicleType == msg.vehicleType && m.plate == ""
  {
  }

  /** A zero time delta reads as 0 km/h, so with a non-zero limit it is never a violation. */
  lemma ZeroTimeNeverViolates(msg: SensorDataMsg, cfg: Config)
    requires msg.timeDeltaMs == 0 && cfg.lightLimitKmh > 0 && cfg.heavyLimitKmh > 0
    ensures Decide(msg, cfg).speedKmh == 0 && Decide(msg, cfg).status != Violation
    ensures TriggerFor(msg, cfg) == None
  {
  }

  /** The main loop shows at most one message per detection, and exactly one while the display queue
      has room; every message it shows has an empty plate, so no plate ever reaches the display. */
  lemma {:induction false} DisplayedPlatesStayEmpty(shown: seq<DisplayDataMsg>, msgs: seq<SensorDataMsg>, cfg: Config)
    requires |shown| <= DISPLAY_QUEUE_CAPACITY
    requires forall m | m in shown :: m.plate == ""
    ensures var after := PutAll(shown, DISPLAY_QUEUE_CAPACITY, DisplaysFor(msgs, cfg));
      && |after| == (if |shown| + |msgs| <= DISPLAY_QUEUE_CAPACITY then |shown| + |msgs| else DISPLAY_QUEUE_CAPACITY)
      && forall m | m in after :: m.plate == ""
  {
    var displays := DisplaysFor(msgs, cfg);
    PutAllLength(shown, DISPLAY_QUEUE_CAPACITY, displays);
    forall m | m in PutAll(shown, DISPLAY_QUEUE_CAPACITY, displays)
      ensures m.plate == ""
    {
      PutAllFrom(shown, DISPLAY_QUEUE_CAPACITY, displays, m);
    }
  }

  /** The handshake subscribes before it publishes, publishes at most one trigger, and waits only
      after a successful publication. */
  lemma {:induction false} SubscribeBeforePublish(trigger: Option<CameraTriggerEvent>, response: BusResponse, i: nat)
    requires i < |Enforce(trigger, response).actions| && Enforce(trigger, response).actions[i].PublishTrigger?
    ensures i == 1 && Enforce(trigger, response).actions[0] == AddResultObserver
    ensures forall j | 0 <= j < |Enforce(trigger, response).actions| && j != i ::
              !Enforce(trigger, response).actions[j].PublishTrigger?
  {
  }

  /** Once the trigger is out, a timeout, a failed read and a delivered result share the same
      subscribe-publish-wait prefix: the answer only decides whether a result is read and which
      outcome is logged (the display queue was already written before the handshake). */
  lemma ResponseOnlySelectsOutcome(trigger: Option<CameraTriggerEvent>, r1: BusResponse, r2: BusResponse)
    requires trigger.Some? && r1 != PublishFailed && r2 != PublishFailed
    ensures Enforce(trigger, r1).actions[..3] == Enforce(trigger, r2).actions[..3]
  {
  }

  /** End to end: a violation whose camera event carries a plate is registered exactly when the
      cleaned plate is a Mercosul plate; missing data, errors and unknown events are rejected. */
  lemma CapturedPlateRegisteredIff(msg: SensorDataMsg, cfg: Config, evt: CameraThread.CameraEvent, now: Uptime)
    requires TriggerFor(msg, cfg).Some?
    ensures var result := CameraThread.EventResult(evt, now);
      var h := Enforce(TriggerFor(msg, cfg), Delivered(result));
      && (h.outcome.PlateRegistered? <==> result.valid)
      && (!CameraThread.CarriesPlate(evt) ==> h.outcome == PlateRejected(result.plate))
  {
  }

  /** Scenarios: a violation with no answer times out; a malformed and a valid plate are told apart
      only by the outcome; a failed publication never waits. */
  lemma HandshakeScenarios(t: CameraTriggerEvent, now: Uptime)
    ensures Enforce(Some(t), WaitTimedOut) == Handshake([AddResultObserver, PublishTrigger(t), WaitForResult], CaptureTimedOut)
    ensures Enforce(Some(t), Delivered(CameraResultEvent("garbage", false, now))).outcome == PlateRejected("garbage")
    ensures Enforce(Some(t), Delivered(CameraResultEvent("ABC1D23", true, now))).outcome == PlateRegistered("ABC1D23")
    ensures Enforce(Some(t), PublishFailed).actions == [AddResultObserver, PublishTrigger(t)]
  {
  }
}
