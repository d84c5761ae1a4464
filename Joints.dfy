/**
 Joint: one degree of freedom of a loaded body. Its limits are read once, when it is created; its
 position and velocity are read from the engine on every query; its control methods send motor
 commands to the engine.
 */
module Joints {
  import opened Engine

  /**
   A joint: its name, the engine id of its body (`bodies[bodyIndex]`), the body's index in the load
   result, its joint index and limits. `powerCoeff` is the field the constructor sets to 0;
   `powerCoef` is the differently spelt attribute the scene builder assigns, None while unset.
   */
  datatype Joint = Joint(
    name: string,
    body: int,
    bodyIndex: nat,
    jointIndex: nat,
    lowerLimit: real,
    upperLimit: real,
    powerCoeff: int,
    powerCoef: Option<real>)

  /** Joint.__init__: limits as getJointInfo reports them, power_coeff = 0, power_coef not set. */
  function NewJoint(name: string, body: int, bodyIndex: nat, jointIndex: nat, info: JointInfo): (j: Joint)
    ensures j.name == name && j.body == body && j.bodyIndex == bodyIndex && j.jointIndex == jointIndex
    ensures j.lowerLimit == info.lowerLimit && j.upperLimit == info.upperLimit
    ensures j.powerCoeff == 0 && j.powerCoef.None?
  {
    Joint(name, body, bodyIndex, jointIndex, info.lowerLimit, info.upperLimit, 0, None)
  }

  /** get_state (and its synonym current_position): the joint's (position, velocity). */
  function GetState(w: World, j: Joint): (r: Result<(real, real), PyError>)
    ensures r.Success? <==> (j.body, j.jointIndex) in w.jointStates
    ensures r.Success? ==> r.value == w.jointStates[(j.body, j.jointIndex)]
  {
    if (j.body, j.jointIndex) in w.jointStates then Success(w.jointStates[(j.body, j.jointIndex)])
    else Failure(EngineError)
  }

  /**
   The arithmetic of current_relative_position on a (position, velocity) pair: the position
   rescaled so that the limit range becomes [-1, 1], the velocity damped by 0.1. Python's float
   division by zero raises, so equal limits give ZeroDivisionError.
   */
  function RelativeState(j: Joint, pos: real, vel: real): (r: Result<(real, real), PyError>)
    ensures r.Failure? <==> j.upperLimit == j.lowerLimit
    ensures r.Failure? ==> r.error == ZeroDivisionError
    ensures r.Success? ==> r.value.1 * 10.0 == vel
  {
    var posMid := 0.5 * (j.lowerLimit + j.upperLimit);
    if j.upperLimit - j.lowerLimit == 0.0 then Failure(ZeroDivisionError)
    else Success((2.0 * (pos - posMid) / (j.upperLimit - j.lowerLimit), 0.1 * vel))
  }

  /** current_relative_position: read the state from the engine, then rescale it. */
  function CurrentRelativePosition(w: World, j: Joint): (r: Result<(real, real), PyError>)
    ensures (j.body, j.jointIndex) !in w.jointStates ==> r == Failure(EngineError)
    ensures (j.body, j.jointIndex) in w.jointStates ==>
      var (pos, vel) := w.jointStates[(j.body, j.jointIndex)];
      r == RelativeState(j, pos, vel)
  {
    match GetState(w, j)
    case Failure(e) => Failure(e)
    case Success((pos, vel)) => RelativeState(j, pos, vel)
  }

  /** The inverse rescaling: the position whose relative position is `rel`. */
  function PositionFromRelative(j: Joint, rel: real): real
    requires j.upperLimit != j.lowerLimit
  {
    0.5 * (j.lowerLimit + j.upperLimit) + rel * (j.upperLimit - j.lowerLimit) / 2.0
  }

  /** The rescaling is a bijection: PositionFromRelative undoes it and it undoes PositionFromRelative. */
  lemma RelativeRoundTrip(j: Joint, pos: real, rel: real, vel: real)
    requires j.upperLimit != j.lowerLimit
    ensures PositionFromRelative(j, RelativeState(j, pos, vel).value.0) == pos
    ensures RelativeState(j, PositionFromRelative(j, rel), vel).value.0 == rel
  {
    var l, u := j.lowerLimit, j.upperLimit;
    var d := u - l;
    var r := 2.0 * (pos - 0.5 * (l + u)) / d;
    assert r * d == 2.0 * (pos - 0.5 * (l + u));
    var p := 0.5 * (l + u) + rel * d / 2.0;
    assert 2.0 * (p - 0.5 * (l + u)) == rel * d;
  }

  /** The lower limit maps to -1, the upper limit to +1 and the midpoint to 0. */
  lemma RelativeLandmarks(j: Joint, vel: real)
    requires j.upperLimit != j.lowerLimit
    ensures RelativeState(j, j.lowerLimit, vel).value.0 == -1.0
    ensures RelativeState(j, j.upperLimit, vel).value.0 == 1.0
    ensures RelativeState(j, 0.5 * (j.lowerLimit + j.upperLimit), vel).value.0 == 0.0
  {
    var l, u := j.lowerLimit, j.upperLimit;
    var d := u - l;
    assert 2.0 * (l - 0.5 * (l + u)) == -d;
    assert (-d) / d == -1.0;
    assert 2.0 * (u - 0.5 * (l + u)) == d;
    assert d / d == 1.0;
  }

  /** With the limits in order, a position lies within them exactly when its relative position lies
      in [-1, 1], and the rescaling keeps the order of positions. */
  lemma RelativeWithinLimits(j: Joint, pos: real, pos2: real, vel: real)
    requires j.lowerLimit < j.upperLimit
    ensures var rel := RelativeState(j, pos, vel).value.0;
      j.lowerLimit <= pos <= j.upperLimit <==> -1.0 <= rel <= 1.0
    ensures pos < pos2 ==> RelativeState(j, pos, vel).value.0 < RelativeState(j, pos2, vel).value.0
  {
    var l, u := j.lowerLimit, j.upperLimit;
    var d := u - l;
    var rel := RelativeState(j, pos, vel).value.0;
    var rel2 := RelativeState(j, pos2, vel).value.0;
    assert rel * d == 2.0 * pos - (l + u);
    assert rel2 * d == 2.0 * pos2 - (l + u);
    ScaleKeepsOrder(-1.0, rel, d);
    assert -1.0 <= rel <==> l <= pos;
    ScaleKeepsOrder(rel, 1.0, d);
    assert rel <= 1.0 <==> pos <= u;
    ScaleKeepsOrder(rel2, rel, d);
  }

  /** Multiplying by a positive factor keeps the order of two reals. */
  lemma ScaleKeepsOrder(a: real, b: real, d: real)
    requires d > 0.0
    ensures a <= b <==> a * d <= b * d
  {
    assert b * d - a * d == (b - a) * d;
    if a <= b {
      assert (b - a) * d >= 0.0;
    } else {
      assert (a - b) * d > 0.0;
    }
  }

  /** disable_motor's command: velocity control with zero force, the joint's "off" state. */
  function DisableMotorCommand(j: Joint): Command {
    MotorControl(j.body, j.jointIndex, VelocityControl(None, Some(0.0)))
  }

  /** A command that leaves joint j's motor without force. */
  predicate TurnsMotorOff(c: Command, j: Joint) {
    c.MotorControl? && c.body == j.body && c.joint == j.jointIndex &&
    c.mode.VelocityControl? && c.mode.force == Some(0.0)
  }

  /** set_state: reset the joint's state outside the simulation, leaving its motor as it was. */
  method SetState(sim: Simulation, j: Joint, x: real, vx: real)
    modifies sim
    ensures sim.commands == old(sim.commands) + [ResetJointState(j.body, j.jointIndex, x, vx)]
  {
    sim.commands := sim.commands + [ResetJointState(j.body, j.jointIndex, x, vx)];
  }

  /** set_position: position control towards `position`. */
  method SetPosition(sim: Simulation, j: Joint, position: real)
    modifies sim
    ensures sim.commands == old(sim.commands) + [MotorControl(j.body, j.jointIndex, PositionControl(position))]
  {
    sim.commands := sim.commands + [MotorControl(j.body, j.jointIndex, PositionControl(position))];
  }

  /** set_velocity: velocity control towards `velocity`, force left at the engine's default. */
  method SetVelocity(sim: Simulation, j: Joint, velocity: real)
    modifies sim
    ensures sim.commands == old(sim.commands) + [MotorControl(j.body, j.jointIndex, VelocityControl(Some(velocity), None))]
  {
    sim.commands := sim.commands + [MotorControl(j.body, j.jointIndex, VelocityControl(Some(velocity), None))];
  }

  /** set_torque: torque control with the given force and no gain terms. */
  method SetTorque(sim: Simulation, j: Joint, torque: real)
    modifies sim
    ensures sim.commands == old(sim.commands) + [MotorControl(j.body, j.jointIndex, TorqueControl(torque))]
  {
    sim.commands := sim.commands + [MotorControl(j.body, j.jointIndex, TorqueControl(torque))];
  }

  /** set_motor_torque: a synonym of set_torque. */
  method SetMotorTorque(sim: Simulation, j: Joint, torque: real)
    modifies sim
    ensures sim.commands == old(sim.commands) + [MotorControl(j.body, j.jointIndex, TorqueControl(torque))]
  {
    SetTorque(sim, j, torque);
  }

  /** disable_motor: switch the joint's motor off. */
  method DisableMotor(sim: Simulation, j: Joint)
    modifies sim
    ensures sim.commands == old(sim.commands) + [DisableMotorCommand(j)]
    ensures TurnsMotorOff(sim.commands[|sim.commands| - 1], j)
  {
    sim.commands := sim.commands + [DisableMotorCommand(j)];
  }

  /** reset_position: hard-reset the joint's state, then switch its motor off, so a joint whose
      state was forced is left uncontrolled. */
  method ResetPosition(sim: Simulation, j: Joint, position: real, velocity: real)
    modifies sim
    ensures sim.commands == old(sim.commands) + [ResetJointState(j.body, j.jointIndex, position, velocity), DisableMotorCommand(j)]
    ensures TurnsMotorOff(sim.commands[|sim.commands| - 1], j)
  {
    sim.commands := sim.commands + [ResetJointState(j.body, j.jointIndex, position, velocity)];
    DisableMotor(sim, j);
  }

  /** reset_current_position: a synonym of reset_position. */
  method ResetCurrentPosition(sim: Simulation, j: Joint, position: real, velocity: real)
    modifies sim
    ensures sim.commands == old(sim.commands) + [ResetJointState(j.body, j.jointIndex, position, velocity), DisableMotorCommand(j)]
    ensures TurnsMotorOff(sim.commands[|sim.commands| - 1], j)
  {
    ResetPosition(sim, j, position, velocity);
  }
}
