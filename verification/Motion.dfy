/** The vocabulary of the motion core: points, velocities and the commands sent to devices. */
module Motion {
  import opened Wrappers

  // Coordinates are exact reals; rounding is not modelled.
  datatype Point = Point(x: real, y: real, z: real)

  datatype Velocity = Velocity(linear: real, angular: real)

  const ORIGIN := Point(0.0, 0.0, 0.0)
  const STILL := Velocity(0.0, 0.0)

  // The text a command carries to its device, before it is formatted.
  datatype Payload =
    | NoData
    | IoSet(channel: string, value: Option<real>)
    | IoRead(channel: string)
    | IoToggle(channel: string)
    | MotorStart(motor: string)
    | MotorStop(motor: string)
    | MotorSpeed(motor: string, speed: real)
    | MotorPosition(motor: string, target: Point)
    | MotorStatus(motor: string)
    | Delay(duration: int)
    | Condition(condition: string)

  // Durations are in nanoseconds.
  datatype MotionCommand = MotionCommand(
    id: string,
    deviceId: string,
    commandType: string,
    position: Point,
    velocity: Velocity,
    acceleration: Velocity,
    data: Payload,
    timeout: int
  )

  const SECOND := 1_000_000_000

  datatype AxisConfig = AxisConfig(
    deviceId: string, maxVelocity: real, maxAcceleration: real, minPosition: real, maxPosition: real, homePosition: real
  )

  // The configured axes, by axis ID.
  type Config = map<string, AxisConfig>
}
