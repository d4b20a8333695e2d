/** A simulated motor's bookkeeping: its letter, its speed setting, whether
    it is turning, and the hinge motor's target velocity. The angle-seeking
    control loop itself is not modelled; a rotation is seen through its
    start and its end. */
module SimMotors {
  import opened Wrappers
  import opened Dicts
  import opened MotorRegistry

  const MaxSpeed: real := 1000.0
  const MaxPercent: real := 100.0

  datatype Motor = Motor(letter: char, speed: real, isRotating: bool, targetVelocity: real)

  /** A started run: the motor while it runs, the requested amount (degrees,
      or seconds for a timed run) and the motor once the run is over. */
  datatype Run = Run(during: Motor, amount: real, after: Motor)

  /** Field defaults and `Awake`: full speed, still, zero target velocity. */
  function Initial(letter: char): (m: Motor)
    ensures m.letter == letter && m.speed == MaxSpeed && !m.isRotating && m.targetVelocity == 0.0
  {
    Motor(letter, MaxSpeed, false, 0.0)
  }

  /** `Awake` also registers the motor, but only when it has a letter. */
  function AwakeRegister(reg: Registry, id: MotorId, m: Motor): (r: Registry)
    requires Valid(reg)
    ensures Valid(r)
    ensures m.letter == NotFound ==> r == reg
    ensures m.letter != NotFound ==> GetMotor(r, m.letter) == Some(id)
  {
    if m.letter != NotFound then
      RegisterOverwrites(reg, m.letter, id, m.letter);
      RegisterMotor(reg, m.letter, id)
    else reg
  }

  /** `Mathf.Clamp(v, lo, hi)`: below `lo` gives `lo`, above `hi` gives `hi`. */
  function Clamp(v: real, lo: real, hi: real): (r: real)
    requires lo <= hi
    ensures lo <= r <= hi
    ensures lo <= v <= hi ==> r == v
    ensures v < lo ==> r == lo
    ensures v > hi ==> r == hi
  {
    if v < lo then lo else if v > hi then hi else v
  }

  /** `SetSpeed(percent)`: the percent is clamped to [-100, 100] and scaled to
      the maximum speed. */
  function SetSpeed(m: Motor, percent: real): (r: Motor)
    ensures r == m.(speed := r.speed)
    ensures -MaxSpeed <= r.speed <= MaxSpeed
    ensures -MaxPercent <= percent <= MaxPercent ==> r.speed == 10.0 * percent
    ensures percent >= MaxPercent ==> r.speed == MaxSpeed
    ensures percent <= -MaxPercent ==> r.speed == -MaxSpeed
  {
    m.(speed := MaxSpeed * Clamp(percent, -MaxPercent, MaxPercent) / 100.0)
  }

  /** `StopMotor`. */
  function StopMotor(m: Motor): (r: Motor)
    ensures !r.isRotating && r.targetVelocity == 0.0
    ensures r.letter == m.letter && r.speed == m.speed
  {
    m.(isRotating := false, targetVelocity := 0.0)
  }

  /** The signed velocity a forward or backward run asks for. */
  function Signed(speed: real, forward: bool): (v: real)
    ensures forward ==> v == speed
    ensures !forward ==> v == -speed
  {
    speed * (if forward then 1.0 else -1.0)
  }

  /** `RotateForever(forward)`. */
  function RotateForever(m: Motor, forward: bool): (r: Motor)
    ensures r.isRotating && r.targetVelocity == Signed(m.speed, forward)
    ensures r.letter == m.letter && r.speed == m.speed
  {
    m.(isRotating := true, targetVelocity := Signed(m.speed, forward))
  }

  /** `RunForSeconds(seconds, forward)`: turning at the signed speed while the
      wait lasts, stopped afterwards. */
  function RunForSeconds(m: Motor, seconds: real, forward: bool): (r: Run)
    ensures r.during == RotateForever(m, forward) && r.amount == seconds
    ensures !r.after.isRotating && r.after.targetVelocity == 0.0
    ensures r.after.letter == m.letter && r.after.speed == m.speed
  {
    var d := RotateForever(m, forward);
    Run(d, seconds, StopMotor(d))
  }

  /** `RotateByDegrees(degrees)`: marked turning while the control loop seeks
      the angle, stopped once it settles. */
  function RotateByDegrees(m: Motor, degrees: real): (r: Run)
    ensures r.during.isRotating && r.amount == degrees
    ensures !r.after.isRotating && r.after.targetVelocity == 0.0
    ensures r.after.letter == m.letter && r.after.speed == m.speed
  {
    var d := m.(isRotating := true);
    Run(d, degrees, StopMotor(d))
  }

  /** `RotateRotations(rotations)`: whole turns, as degrees. */
  function RotateRotations(m: Motor, rotations: real): (r: Run)
    ensures r.amount == rotations * 360.0
    ensures r == RotateByDegrees(m, r.amount)
  {
    RotateByDegrees(m, rotations * 360.0)
  }

  /** `SetMotorLabel`: store the letter and register this motor under it. */
  function SetMotorLabel(m: Motor, reg: Registry, id: MotorId, letter: char): (r: (Motor, Registry))
    requires Valid(reg)
    ensures r.0 == m.(letter := letter)
    ensures Valid(r.1) && GetMotor(r.1, letter) == Some(id)
  {
    RegisterOverwrites(reg, letter, id, letter);
    (m.(letter := letter), RegisterMotor(reg, letter, id))
  }

  /** Speed settings are odd in the percent: the opposite percent gives the
      opposite speed. */
  lemma SetSpeedOdd(m: Motor, percent: real)
    ensures SetSpeed(m, -percent).speed == -SetSpeed(m, percent).speed
  {
  }

  /** Forward and backward runs ask for opposite velocities. */
  lemma ForwardBackwardOpposite(m: Motor)
    ensures RotateForever(m, false).targetVelocity == -RotateForever(m, true).targetVelocity
  {
  }
}
