/** The differential drivetrain: two motors found by letter, a straight-line
    speed percent, and drive and turn commands in which the right motor is
    always told the opposite of the left. */
module Drivetrain {
  import opened Wrappers
  import opened Dicts
  import opened MotorRegistry
  import opened SimMotors

  /** The motors by identity; a destroyed motor is simply absent. */
  type Fleet = map<MotorId, Motor>

  datatype Controller = Controller(left: Option<MotorId>, right: Option<MotorId>, speedPercent: real)

  /** Field defaults: no motors, full speed. */
  const Initial := Controller(None, None, 100.0)

  /** Both motors are assigned and still exist. */
  predicate Assigned(d: Controller, fleet: Fleet)
  {
    d.left.Some? && d.right.Some? && d.left.value in fleet && d.right.value in fleet
  }

  /** `NullCheck`: true when a motor is missing (a destroyed Unity object
      compares equal to null). */
  function NullCheck(d: Controller, fleet: Fleet): (missing: bool)
    ensures missing <==> !Assigned(d, fleet)
  {
    d.left.None? || d.right.None? || d.left.value !in fleet || d.right.value !in fleet
  }

  /** Apply `f` to one motor of the fleet. */
  function Update(fleet: Fleet, id: MotorId, f: Motor -> Motor): (r: Fleet)
    requires id in fleet
    ensures r.Keys == fleet.Keys && r[id] == f(fleet[id])
    ensures forall other | other in fleet && other != id :: r[other] == fleet[other]
  {
    fleet[id := f(fleet[id])]
  }

  /** Apply `f` to the left motor, then `g` to the right one. */
  function Both(d: Controller, fleet: Fleet, f: Motor -> Motor, g: Motor -> Motor): (r: Fleet)
    requires Assigned(d, fleet)
    ensures r.Keys == fleet.Keys
    ensures forall other | other in fleet && other != d.left.value && other != d.right.value :: r[other] == fleet[other]
    ensures d.left != d.right ==> r[d.left.value] == f(fleet[d.left.value]) && r[d.right.value] == g(fleet[d.right.value])
    ensures d.left == d.right ==> r[d.left.value] == g(f(fleet[d.left.value]))
  {
    Update(Update(fleet, d.left.value, f), d.right.value, g)
  }

  /** `SetSpeedPercent`: the percent is recorded even with a motor missing;
      with both present each gets that speed. */
  function SetSpeedPercent(d: Controller, fleet: Fleet, percent: real): (r: (Controller, Fleet))
    ensures r.0 == d.(speedPercent := percent)
    ensures !Assigned(d, fleet) ==> r.1 == fleet
    ensures Assigned(d, fleet) ==> r.1 == Both(d, fleet, m => SetSpeed(m, percent), m => SetSpeed(m, percent))
  {
    var d1 := d.(speedPercent := percent);
    if NullCheck(d, fleet) then (d1, fleet)
    else (d1, Both(d, fleet, m => SetSpeed(m, percent), m => SetSpeed(m, percent)))
  }

  /** `AssignMotorsByLabel`: look both letters up, then re-apply the percent. */
  function AssignMotorsByLabel(d: Controller, fleet: Fleet, reg: Registry, leftLetter: char, rightLetter: char): (r: (Controller, Fleet))
    ensures r.0 == Controller(GetMotor(reg, leftLetter), GetMotor(reg, rightLetter), d.speedPercent)
  {
    SetSpeedPercent(d.(left := GetMotor(reg, leftLetter), right := GetMotor(reg, rightLetter)), fleet, d.speedPercent)
  }

  /** `CalcTurnSpeed(steer)`: the outer wheel keeps the percent; the inner one
      is faded and, past half steer, reversed. */
  function CalcTurnSpeed(speedPercent: real, steer: real): (r: (real, real))
    ensures steer >= 0.0 ==> r.0 == speedPercent
    ensures steer <= 0.0 ==> r.1 == speedPercent
    ensures 0.0 <= speedPercent && -100.0 <= steer <= 100.0 ==>
      -speedPercent <= r.0 <= speedPercent && -speedPercent <= r.1 <= speedPercent
  {
    if steer > 0.0 then (speedPercent, speedPercent * (1.0 - 2.0 * steer / 100.0))
    else if steer < 0.0 then (speedPercent * (1.0 + 2.0 * steer / 100.0), speedPercent)
    else (speedPercent, speedPercent)
  }

  /** What one motor is told to do. */
  datatype Order = Degrees(degrees: real) | Seconds(seconds: real, forward: bool) | Forever(forward: bool)

  /** The drivetrain's commands. */
  datatype Request =
    | DriveForDegrees(degrees: real)
    | DriveForSeconds(seconds: real, forward: bool)
    | StartDriving(forward: bool)
    | TurnForDegrees(steer: real, degrees: real)
    | TurnForSeconds(steer: real, seconds: real)
    | StartTurning(steer: real)

  /** The order the right motor gets for the left motor's order. */
  function Opposite(o: Order): (r: Order)
  {
    match o
    case Degrees(a) => Degrees(-a)
    case Seconds(s, f) => Seconds(s, !f)
    case Forever(f) => Forever(!f)
  }

  /** The orders for the left and the right motor. */
  function Orders(q: Request): (r: (Order, Order))
    ensures r.1 == Opposite(r.0)
  {
    match q
    case DriveForDegrees(a) => (Degrees(a), Degrees(-a))
    case DriveForSeconds(s, f) => (Seconds(s, f), Seconds(s, !f))
    case StartDriving(f) => (Forever(f), Forever(!f))
    case TurnForDegrees(_, a) => (Degrees(a), Degrees(-a))
    case TurnForSeconds(_, s) => (Seconds(s, true), Seconds(s, false))
    case StartTurning(_) => (Forever(true), Forever(false))
  }

  /** The steer of a turning request. */
  function Steer(q: Request): Option<real>
  {
    match q
    case TurnForDegrees(s, _) => Some(s)
    case TurnForSeconds(s, _) => Some(s)
    case StartTurning(s) => Some(s)
    case _ => None
  }

  /** A motor as it starts an order. */
  function Begin(m: Motor, o: Order): (r: Motor)
    ensures r.isRotating && r.letter == m.letter && r.speed == m.speed
  {
    match o
    case Degrees(a) => RotateByDegrees(m, a).during
    case Seconds(s, f) => RunForSeconds(m, s, f).during
    case Forever(f) => RotateForever(m, f)
  }

  /** A motor once a finite order has run out. */
  function End(m: Motor, o: Order): (r: Motor)
    ensures o.Forever? ==> r == m
    ensures !o.Forever? ==> !r.isRotating
  {
    match o
    case Degrees(a) => RotateByDegrees(m, a).after
    case Seconds(s, f) => RunForSeconds(m, s, f).after
    case Forever(_) => m
  }

  /** A command as it starts: nothing at all with a motor missing; otherwise a
      turn first sets the two wheel speeds, then both motors start their
      orders. */
  function Start(d: Controller, fleet: Fleet, q: Request): (r: Fleet)
    ensures !Assigned(d, fleet) ==> r == fleet
    ensures Assigned(d, fleet) ==> r.Keys == fleet.Keys
    ensures Assigned(d, fleet) ==> forall other | other in fleet && other != d.left.value && other != d.right.value ::
      r[other] == fleet[other]
    ensures Assigned(d, fleet) && d.left != d.right && Steer(q).None? ==>
      && r[d.left.value] == Begin(fleet[d.left.value], Orders(q).0)
      && r[d.right.value] == Begin(fleet[d.right.value], Orders(q).1)
    ensures Assigned(d, fleet) && d.left != d.right && Steer(q).Some? ==>
      var sp := CalcTurnSpeed(d.speedPercent, Steer(q).value);
      && r[d.left.value] == Begin(SetSpeed(fleet[d.left.value], sp.0), Orders(q).0)
      && r[d.right.value] == Begin(SetSpeed(fleet[d.right.value], sp.1), Orders(q).1)
  {
    if NullCheck(d, fleet) then fleet
    else
      var f1 := match Steer(q)
        case None => fleet
        case Some(s) =>
          var sp := CalcTurnSpeed(d.speedPercent, s);
          Both(d, fleet, m => SetSpeed(m, sp.0), m => SetSpeed(m, sp.1));
      var o := Orders(q);
      Both(d, f1, m => Begin(m, o.0), m => Begin(m, o.1))
  }

  /** `Stop`: with both motors present, re-apply the percent, then stop them. */
  function Stop(d: Controller, fleet: Fleet): (r: Fleet)
    ensures !Assigned(d, fleet) ==> r == fleet
    ensures Assigned(d, fleet) ==> r.Keys == fleet.Keys
    ensures Assigned(d, fleet) && d.left != d.right ==>
      && !r[d.left.value].isRotating && r[d.left.value].targetVelocity == 0.0
      && !r[d.right.value].isRotating && r[d.right.value].targetVelocity == 0.0
      && r[d.left.value].speed == SetSpeed(fleet[d.left.value], d.speedPercent).speed
      && r[d.right.value].speed == SetSpeed(fleet[d.right.value], d.speedPercent).speed
  {
    if NullCheck(d, fleet) then fleet
    else
      var f1 := SetSpeedPercent(d, fleet, d.speedPercent).1;
      Both(d, f1, StopMotor, StopMotor)
  }

  /** A finite command once both motors have finished: their runs end, then
      the drivetrain stops. A command that runs forever is left running. */
  function Finish(d: Controller, fleet: Fleet, q: Request): (r: Fleet)
    ensures !Assigned(d, fleet) ==> r == fleet
  {
    if NullCheck(d, fleet) then fleet
    else
      var o := Orders(q);
      if o.0.Forever? then fleet
      else Stop(d, Both(d, fleet, m => End(m, o.0), m => End(m, o.1)))
  }

  /** The first used slot, in enumeration order, whose motor is not among
      `alive`. */
  function FirstMissing(slots: seq<Slot<char, MotorId>>, alive: set<MotorId>): (r: Option<nat>)
    ensures r.None? <==> forall i | 0 <= i < |slots| && slots[i].Used? :: slots[i].value in alive
    ensures r.Some? ==> r.value < |slots| && slots[r.value].Used? && slots[r.value].value !in alive
    ensures r.Some? ==> forall i | 0 <= i < r.value && slots[i].Used? :: slots[i].value in alive
  {
    if |slots| == 0 then None
    else if slots[0].Used? && slots[0].value !in alive then Some(0)
    else match FirstMissing(slots[1..], alive)
      case None => None
      case Some(i) => Some(i + 1)
  }

  /** Some used slot before `n` holds motor `id`. */
  predicate RegisteredBefore(slots: seq<Slot<char, MotorId>>, n: int, id: MotorId)
  {
    exists i | 0 <= i < n && i < |slots| :: ValueAt(slots, i, id)
  }

  /** Where the enumeration of the registry's values stops: at the first
      destroyed motor, or at the end. */
  function StopLimit(slots: seq<Slot<char, MotorId>>, alive: set<MotorId>): (n: nat)
    ensures n <= |slots|
  {
    FirstMissing(slots, alive).GetOr(|slots|)
  }

  /** A run of `StopAllMotors` that may end early. */
  datatype StopOutcome = StopOutcome(fleet: Fleet, completed: bool)

  /** The loop over the registry's values: each motor is stopped in
      enumeration order, until a destroyed one makes `StopMotor` throw. */
  function StopValues(slots: seq<Slot<char, MotorId>>, fleet: Fleet): (r: StopOutcome)
    ensures r.fleet.Keys == fleet.Keys
    ensures r.completed <==> FirstMissing(slots, fleet.Keys).None?
    ensures forall id | id in fleet ::
      r.fleet[id] == if RegisteredBefore(slots, StopLimit(slots, fleet.Keys), id) then StopMotor(fleet[id]) else fleet[id]
    decreases |slots|
  {
    if |slots| == 0 then StopOutcome(fleet, true)
    else if slots[0].Used? && slots[0].value !in fleet then StopOutcome(fleet, false)
    else
      var rest := slots[1..];
      var f1 := if slots[0].Used? then fleet[slots[0].value := StopMotor(fleet[slots[0].value])] else fleet;
      var r := StopValues(rest, f1);
      assert StopLimit(slots, fleet.Keys) == StopLimit(rest, fleet.Keys) + 1;
      forall id | id in fleet
        ensures r.fleet[id] == if RegisteredBefore(slots, StopLimit(slots, fleet.Keys), id) then StopMotor(fleet[id]) else fleet[id]
      {
        RegisteredShift(slots, StopLimit(rest, fleet.Keys), id);
      }
      r
  }

  /** Registration before `n + 1` is registration in the first slot or in the
      rest before `n`. */
  lemma RegisteredShift(slots: seq<Slot<char, MotorId>>, n: nat, id: MotorId)
    requires |slots| > 0
    ensures RegisteredBefore(slots, n + 1, id) <==> ValueAt(slots, 0, id) || RegisteredBefore(slots[1..], n, id)
  {
    if RegisteredBefore(slots, n + 1, id) && !ValueAt(slots, 0, id) {
      var i :| 0 <= i < n + 1 && i < |slots| && ValueAt(slots, i, id);
      assert ValueAt(slots[1..], i - 1, id);
    }
    if RegisteredBefore(slots[1..], n, id) {
      var i :| 0 <= i < n && i < |slots[1..]| && ValueAt(slots[1..], i, id);
      assert ValueAt(slots, i + 1, id);
    }
  }

  /** `StopAllMotors`: every registered motor stops in enumeration order,
      then the drivetrain. A registered motor that has been destroyed makes
      `StopMotor` throw, since its hinge joint is gone: the motors before it
      are stopped, and neither the rest nor the drivetrain is. */
  function StopAll(d: Controller, fleet: Fleet, reg: Registry): (r: StopOutcome)
    ensures r.fleet.Keys == fleet.Keys
    ensures r.completed <==> forall i | 0 <= i < |reg.slots| && reg.slots[i].Used? :: reg.slots[i].value in fleet
    ensures r.completed ==>
      && (forall i | 0 <= i < |reg.slots| && reg.slots[i].Used? :: !r.fleet[reg.slots[i].value].isRotating)
      && (Assigned(d, fleet) ==> !r.fleet[d.left.value].isRotating && !r.fleet[d.right.value].isRotating)
    ensures !r.completed ==> forall id | id in fleet ::
      r.fleet[id] == if RegisteredBefore(reg.slots, StopLimit(reg.slots, fleet.Keys), id) then StopMotor(fleet[id]) else fleet[id]
  {
    var v := StopValues(reg.slots, fleet);
    if !v.completed then v
    else
      forall i | 0 <= i < |reg.slots| && reg.slots[i].Used? ensures !v.fleet[reg.slots[i].value].isRotating {
        assert ValueAt(reg.slots, i, reg.slots[i].value);
      }
      StopOutcome(Stop(d, v.fleet), true)
  }

  /** A motor registered under two letters and then cleared keeps one of
      them: once the motor is destroyed, `StopAllMotors` stops at that
      letter and never reaches the drivetrain. */
  lemma StaleLetterBreaksStopAll(d: Controller, fleet: Fleet, reg: Registry, m: MotorId, k1: char, k2: char)
    requires Valid(reg) && k1 != k2 && Holds(reg, k1, m) && Holds(reg, k2, m) && m !in fleet
    ensures !StopAll(d, fleet, ClearMotor(reg, Some(m))).completed
  {
    var c := ClearMotor(reg, Some(m));
    var f := FirstKeyOf(reg, m);
    var kept := if f == Some(k1) then k2 else k1;
    GetOfEntry(reg, kept, m);
    assert Get(c, kept) == Some(m) by {
      if f.Some? && f.value != NotFound {
        RemoveGet(reg, f.value, kept);
      }
    }
    var i :| 0 <= i < |c.slots| && c.slots[i] == Used(kept, m);
    assert c.slots[i].Used? && c.slots[i].value !in fleet;
  }

  /** The right motor's order, reversed again, is the left motor's. */
  lemma OppositeInvolutive(o: Order)
    ensures Opposite(Opposite(o)) == o
    ensures o != Opposite(o) || (o.Degrees? && o.degrees == 0.0)
  {
  }

  /** Straight ahead both wheels run at the percent. */
  lemma StraightTurn(sp: real)
    ensures CalcTurnSpeed(sp, 0.0) == (sp, sp)
  {
  }

  /** Steering right fades the right wheel, steering left the left one; full
      steer reverses the inner wheel and half steer stops it. */
  lemma TurnSpeeds(sp: real, steer: real)
    ensures steer > 0.0 ==> CalcTurnSpeed(sp, steer).0 == sp
    ensures steer < 0.0 ==> CalcTurnSpeed(sp, steer).1 == sp
    ensures CalcTurnSpeed(sp, 100.0) == (sp, -sp) && CalcTurnSpeed(sp, -100.0) == (-sp, sp)
    ensures CalcTurnSpeed(sp, 50.0) == (sp, 0.0) && CalcTurnSpeed(sp, -50.0) == (0.0, sp)
  {
  }

  /** Steering the other way swaps the wheels. */
  lemma TurnMirror(sp: real, steer: real)
    ensures CalcTurnSpeed(sp, -steer) == (CalcTurnSpeed(sp, steer).1, CalcTurnSpeed(sp, steer).0)
  {
  }

  /** Once a started command begins, both wheels turn, and the right motor
      always gets the opposite of the left one's order: a timed or endless
      command runs the right wheel the other way round at its own speed,
      so a straight drive on two motors of equal speed gives opposite
      target velocities. */
  lemma StartOpposes(d: Controller, fleet: Fleet, q: Request)
    requires Assigned(d, fleet) && d.left != d.right
    ensures var r := Start(d, fleet, q);
      && r[d.left.value].isRotating && r[d.right.value].isRotating
      && Orders(q).1 == Opposite(Orders(q).0)
    ensures var r := Start(d, fleet, q);
      !Orders(q).0.Degrees? ==>
      && r[d.left.value].targetVelocity == Signed(r[d.left.value].speed, Orders(q).0.forward)
      && r[d.right.value].targetVelocity == Signed(r[d.right.value].speed, !Orders(q).0.forward)
    ensures var r := Start(d, fleet, q);
      Steer(q).None? && !Orders(q).0.Degrees? && fleet[d.left.value].speed == fleet[d.right.value].speed ==>
      r[d.right.value].targetVelocity == -r[d.left.value].targetVelocity
  {
  }

  /** A finite turn leaves both wheels stopped at the straight-line speed,
      whatever the turn set them to. */
  lemma TurnRestoresSpeed(d: Controller, fleet: Fleet, steer: real, seconds: real)
    requires Assigned(d, fleet) && d.left != d.right
    ensures var r := Finish(d, Start(d, fleet, TurnForSeconds(steer, seconds)), TurnForSeconds(steer, seconds));
      && !r[d.left.value].isRotating && !r[d.right.value].isRotating
      && r[d.left.value].speed == SetSpeed(fleet[d.left.value], d.speedPercent).speed
      && r[d.right.value].speed == SetSpeed(fleet[d.right.value], d.speedPercent).speed
  {
    var q := TurnForSeconds(steer, seconds);
    var f1 := Start(d, fleet, q);
    assert Assigned(d, f1);
  }
}
