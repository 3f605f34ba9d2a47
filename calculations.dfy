/** The pure speed, classification, limit and status arithmetic of src/utils/calculations.h. */
module Calculations {
  import opened RadarTypes

  /** calculate_speed_kmh: km/h = (mm * 3600) / (ms * 1000), floored, computed in 64 bits and
      then cast to uint32; a zero time gives 0 instead of dividing by zero. */
  function CalculateSpeedKmh(timeDeltaMs: Uint32, distanceMm: Uint32): (speed: Uint32)
    ensures timeDeltaMs == 0 ==> speed == 0
    ensures timeDeltaMs > 0 && distanceMm * 3600 < UINT32_MODULUS * (timeDeltaMs * 1000) ==>
              speed * (timeDeltaMs * 1000) <= distanceMm * 3600 < (speed + 1) * (timeDeltaMs * 1000)
  {
    if timeDeltaMs == 0 then 0
    else
      var wide := (distanceMm * 3600) / (timeDeltaMs * 1000);
      FloorDivision(distanceMm * 3600, timeDeltaMs * 1000);
      wide % UINT32_MODULUS
  }

  /** classify_vehicle: up to two axles is a light vehicle, anything more is heavy. */
  function ClassifyVehicle(axleCount: Uint8): (vehicleType: VehicleType)
    ensures vehicleType == Light <==> axleCount <= 2
  {
    if axleCount <= 2 then Light else Heavy
  }

  /** The warning threshold of determine_speed_status: (limit * percent) / 100 where the product
      is a uint32 and so wraps modulo 2^32. */
  function WarningThreshold(speedLimit: Uint32, warningThresholdPercent: Uint32): (threshold: Uint32)
    ensures threshold * 100 <= (speedLimit * warningThresholdPercent) % UINT32_MODULUS < threshold * 100 + 100
    ensures speedLimit * warningThresholdPercent < UINT32_MODULUS ==>
              threshold * 100 <= speedLimit * warningThresholdPercent < threshold * 100 + 100
  {
    ((speedLimit * warningThresholdPercent) % UINT32_MODULUS) / 100
  }

  /** determine_speed_status: the violation check comes first, then the warning threshold. */
  function DetermineSpeedStatus(speedKmh: Uint32, speedLimit: Uint32, warningThresholdPercent: Uint32): (status: SpeedStatus)
    ensures status == Violation <==> speedKmh >= speedLimit
    ensures status == Warning <==> speedKmh < speedLimit && speedKmh >= WarningThreshold(speedLimit, warningThresholdPercent)
    ensures status == Normal <==> speedKmh < speedLimit && speedKmh < WarningThreshold(speedLimit, warningThresholdPercent)
  {
    if speedKmh >= speedLimit then Violation
    else if speedKmh >= WarningThreshold(speedLimit, warningThresholdPercent) then Warning
    else Normal
  }

  /** get_speed_limit: the configured limit of the vehicle's class. */
  function GetSpeedLimit(vehicleType: VehicleType, lightLimit: Uint32, heavyLimit: Uint32): (limit: Uint32)
    ensures vehicleType == Light ==> limit == lightLimit
    ensures vehicleType == Heavy ==> limit == heavyLimit
  {
    if vehicleType == Light then lightLimit else heavyLimit
  }

  /** Severity order of the statuses, used to state monotonicity. */
  function Severity(status: SpeedStatus): nat
  {
    match status
    case Normal => 0
    case Warning => 1
    case Violation => 2
  }

  // ---------------------------------------------------------------- arithmetic helpers

  lemma FloorDivision(a: nat, b: nat)
    requires b > 0
    ensures (a / b) * b <= a < (a / b) * b + b
  {
  }

  /** A quotient bound: if q * b <= a then q <= a / b. */
  lemma QuotientAtLeast(a: nat, b: nat, q: nat)
    requires b > 0 && q * b <= a
    ensures q <= a / b
  {
    FloorDivision(a, b);
    if q > a / b {
      MultiplyMonotone(a / b + 1, q, b);
    }
  }

  lemma MultiplyMonotone(x: nat, y: nat, k: nat)
    requires x <= y
    ensures x * k <= y * k
  {
  }

  // ---------------------------------------------------------------- properties

  /** Both operands of the division fit the 64-bit intermediate for any 32-bit inputs. */
  lemma IntermediateFitsIn64Bits(timeDeltaMs: Uint32, distanceMm: Uint32)
    ensures distanceMm * 3600 < 0x1_0000_0000_0000_0000
    ensures timeDeltaMs * 1000 < 0x1_0000_0000_0000_0000
  {
  }

  /** From 4 ms up the quotient always fits 32 bits, so the cast truncates nothing
      and the result is exactly the floored speed. */
  lemma SpeedExactFromFourMs(timeDeltaMs: Uint32, distanceMm: Uint32)
    requires timeDeltaMs >= 4
    ensures distanceMm * 3600 < UINT32_MODULUS * (timeDeltaMs * 1000)
    ensures CalculateSpeedKmh(timeDeltaMs, distanceMm) == (distanceMm * 3600) / (timeDeltaMs * 1000)
  {
    MultiplyMonotone(4, timeDeltaMs, UINT32_MODULUS * 1000);
    var speed := CalculateSpeedKmh(timeDeltaMs, distanceMm);
    var b := timeDeltaMs * 1000;
    FloorDivision(distanceMm * 3600, b);
    QuotientAtLeast(distanceMm * 3600, b, speed);
    if speed < (distanceMm * 3600) / b {
      MultiplyMonotone(speed + 1, (distanceMm * 3600) / b, b);
    }
  }

  /** A distance term below 2^32 never needs truncating either, whatever the time. */
  lemma SpeedExactForSmallDistance(timeDeltaMs: Uint32, distanceMm: Uint32)
    requires timeDeltaMs > 0 && distanceMm * 3600 < UINT32_MODULUS
    ensures CalculateSpeedKmh(timeDeltaMs, distanceMm) == (distanceMm * 3600) / (timeDeltaMs * 1000)
  {
    FloorDivision(distanceMm * 3600, timeDeltaMs * 1000);
    MultiplyMonotone(1, timeDeltaMs * 1000, (distanceMm * 3600) / (timeDeltaMs * 1000));
  }

  /** Below 4 ms the uint32 cast does wrap: one millisecond over 2^32 - 1 mm. */
  lemma SpeedTruncatedToUint32()
    ensures (0xFFFF_FFFF * 3600) / 1000 == 15461882262
    ensures CalculateSpeedKmh(1, 0xFFFF_FFFF) == 15461882262 - 3 * UINT32_MODULUS
  {
  }

  /** The speed does not increase as the measured time grows (no truncation from 4 ms up). */
  lemma SpeedAntitoneInTime(t1: Uint32, t2: Uint32, distanceMm: Uint32)
    requires 4 <= t1 <= t2
    ensures CalculateSpeedKmh(t2, distanceMm) <= CalculateSpeedKmh(t1, distanceMm)
  {
    SpeedExactFromFourMs(t1, distanceMm);
    SpeedExactFromFourMs(t2, distanceMm);
    var s2 := CalculateSpeedKmh(t2, distanceMm);
    MultiplyMonotone(t1 * 1000, t2 * 1000, s2);
    assert s2 * (t1 * 1000) <= s2 * (t2 * 1000);
    QuotientAtLeast(distanceMm * 3600, t1 * 1000, s2);
  }

  /** The test vectors of calculate_speed_kmh. */
  lemma SpeedTestVectors(distanceMm: Uint32)
    ensures CalculateSpeedKmh(0, distanceMm) == 0
    ensures CalculateSpeedKmh(1000, 1000) == 3
    ensures CalculateSpeedKmh(100, 1000) == 36
    ensures CalculateSpeedKmh(60, 1000) == 60
    ensures CalculateSpeedKmh(10, 10000) > 0
  {
  }

  /** The test vectors of classify_vehicle and get_speed_limit. */
  lemma ClassifyAndLimitTestVectors()
    ensures ClassifyVehicle(1) == Light && ClassifyVehicle(2) == Light
    ensures ClassifyVehicle(3) == Heavy && ClassifyVehicle(4) == Heavy && ClassifyVehicle(10) == Heavy
    ensures GetSpeedLimit(Light, 60, 40) == 60 && GetSpeedLimit(Heavy, 60, 40) == 40
  {
  }

  /** More axles never make a vehicle lighter. */
  lemma ClassifyMonotone(a: Uint8, b: Uint8)
    requires a <= b
    ensures ClassifyVehicle(a) == Heavy ==> ClassifyVehicle(b) == Heavy
  {
  }

  /** The test vectors of determine_speed_status at limit 60 and 90 %. */
  lemma StatusTestVectors()
    ensures DetermineSpeedStatus(50, 60, 90) == Normal
    ensures DetermineSpeedStatus(55, 60, 90) == Warning
    ensures DetermineSpeedStatus(60, 60, 90) == Violation
    ensures DetermineSpeedStatus(80, 60, 90) == Violation
  {
  }

  /** The threshold is floored, never rounded up: at limit 55 and 90 % (49.5 km/h) 49 km/h already warns. */
  lemma WarningThresholdFloors()
    ensures WarningThreshold(55, 90) == 49
    ensures DetermineSpeedStatus(48, 55, 90) == Normal
    ensures DetermineSpeedStatus(49, 55, 90) == Warning
  {
  }

  /** The uint32 product wraps for large limits: 50 000 000 km/h at 90 % warns from 2 050 327 km/h,
      not from 45 000 000 km/h. */
  lemma WarningProductWraps()
    ensures 50_000_000 * 90 >= UINT32_MODULUS
    ensures WarningThreshold(50_000_000, 90) == 2_050_327
    ensures DetermineSpeedStatus(3_000_000, 50_000_000, 90) == Warning
  {
  }

  /** For fixed limit and percentage the status never decreases as the speed increases. */
  lemma StatusMonotoneInSpeed(s1: Uint32, s2: Uint32, speedLimit: Uint32, warningThresholdPercent: Uint32)
    requires s1 <= s2
    ensures Severity(DetermineSpeedStatus(s1, speedLimit, warningThresholdPercent))
         <= Severity(DetermineSpeedStatus(s2, speedLimit, warningThresholdPercent))
  {
  }
}
