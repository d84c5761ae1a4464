/**
 The physics engine, seen from the environment layer as plain data.

 What the engine reports after loading a model (the bodies, their base names, their joints and
 joint limits) and what it reports about the current simulation (poses, velocities, joint states)
 are values; what the environment asks the engine to do (load a file, drive a motor, reset a
 joint or a base pose) is appended to a command log.
 */
module Engine {

  datatype Option<T> = None | Some(value: T) {
    function GetOr(default: T): T {
      match this
      case Some(v) => v
      case None => default
    }
  }

  datatype Result<T, E> = Success(value: T) | Failure(error: E)

  /** The Python exceptions the modelled code can raise. */
  datatype PyError =
    | ZeroDivisionError
    | EngineError                       // the engine rejects an unknown body, link or joint
    | AttributeError(attribute: string) // a method that the object does not define

  /** What getJointInfo reports about one joint: its name, the name of its child link, its limits. */
  datatype JointInfo = JointInfo(jointName: string, partName: string, lowerLimit: real, upperLimit: real)

  /**
   One top-level body created by loadMJCF: its engine id, the base name getBodyInfo reports and
   its joints in the engine's index order (joint j is `joints[j]`).
   */
  datatype Body = Body(handle: int, baseName: string, joints: seq<JointInfo>)

  datatype Vec3 = Vec3(x: real, y: real, z: real)
  datatype Quaternion = Quaternion(a: real, b: real, c: real, d: real)
  datatype Pose = Pose(position: Vec3, orientation: Quaternion)
  /** What getLinkState reports about a link, asked with link velocities. */
  datatype LinkState = LinkState(pose: Pose, linearVelocity: Vec3, angularVelocity: Vec3)

  /**
   A snapshot of the simulation as the engine's queries would answer it: base pose and velocity
   per body id, link state per (body id, link index), (position, velocity) per (body id, joint
   index). A missing key is a query the engine rejects.
   */
  datatype World = World(
    basePoses: map<int, Pose>,
    baseVelocities: map<int, Vec3>,
    links: map<(int, int), LinkState>,
    jointStates: map<(int, int), (real, real)>)

  /** Motor control modes of setJointMotorControl2; None stands for an argument left at its default. */
  datatype ControlMode =
    | PositionControl(targetPosition: real)
    | VelocityControl(targetVelocity: Option<real>, force: Option<real>)
    | TorqueControl(torque: real)

  datatype LoadFlag = UseSelfCollisionExcludeAllParents

  datatype Command =
    | LoadMjcf(file: string, flags: set<LoadFlag>)
    | ResetJointState(body: int, joint: int, position: real, velocity: real)
    | MotorControl(body: int, joint: int, mode: ControlMode)
    | ResetBasePose(body: int, pose: Pose)

  /** The engine as the one shared mutable resource: every command sent to it, in order. */
  class Simulation {
    var commands: seq<Command>

    constructor ()
      ensures commands == []
    {
      commands := [];
    }
  }
}
