/** Shared data model of the radar: the enums and message records of src/types.h,
    together with the fixed-width integer types the C code computes in. */
module RadarTypes {

  /** 2^8, 2^32: one past the largest uint8_t and uint32_t value. */
  const UINT8_MODULUS: int := 0x100
  const UINT32_MODULUS: int := 0x1_0000_0000

  type Uint8 = x: int | 0 <= x < 0x100
  type Uint32 = x: int | 0 <= x < 0x1_0000_0000
  type Int32 = x: int | -0x8000_0000 <= x < 0x8000_0000

  /** A kernel uptime in milliseconds (k_uptime_get): a non-negative int64. */
  type Uptime = t: int | 0 <= t < 0x8000_0000_0000_0000

  /** The characters of a NUL-terminated C string, up to (excluding) its terminator. */
  type CString = s: string | '\0' !in s

  /** A value that may be absent; `None` stands for a NULL pointer. */
  datatype Option<+T> = None | Some(value: T)

  datatype VehicleType = Light | Heavy

  /** Ordered by severity: Normal < Warning < Violation. */
  datatype SpeedStatus = Normal | Warning | Violation

  /** States of the detection state machine that are ever assigned. */
  datatype SensorState = Idle | CountingAxles | MeasuringSpeed

  /** sensor_data_msg_t: one completed detection, sensor thread -> main thread. */
  datatype SensorDataMsg = SensorDataMsg(timeDeltaMs: Uint32, vehicleType: VehicleType, axleCount: Uint8)

  /** display_data_msg_t: main thread -> display thread; `plate` is empty unless filled in. */
  datatype DisplayDataMsg = DisplayDataMsg(
    speedKmh: Uint32, vehicleType: VehicleType, status: SpeedStatus, speedLimit: Uint32, plate: CString)

  /** camera_trigger_event_t: published on a violation. */
  datatype CameraTriggerEvent = CameraTriggerEvent(speedKmh: Uint32, vehicleType: VehicleType)

  /** camera_result_event_t: the plate (at most 7 characters in an 8-byte buffer), its validity and a timestamp. */
  datatype CameraResultEvent = CameraResultEvent(plate: CString, valid: bool, timestamp: Uptime)
}
