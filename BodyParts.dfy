/**
 BodyPart: one rigid body of a loaded model, either a body's base frame (link index -1) or one of
 its links. Its identity is fixed at creation; its pose and velocity are read from the engine on
 every query, here from a World snapshot.
 */
module BodyParts {
  import opened Engine

  /** A part: the engine id of its body (`bodies[bodyIndex]`), the body's index in the load result
      and the link index, -1 for the base frame. */
  datatype BodyPart = BodyPart(body: int, bodyIndex: nat, linkIndex: int)

  /** The 7-element array [x, y, z, a, b, c, d] the pose queries are flattened into. */
  function PoseFields(pose: Pose): seq<real> {
    [pose.position.x, pose.position.y, pose.position.z,
     pose.orientation.a, pose.orientation.b, pose.orientation.c, pose.orientation.d]
  }

  /** The pose the engine reports for (body, link): the base query for link -1, the link-state
      query for every other link; None when the engine rejects the query. */
  function SelectedPose(w: World, body: int, link: int): Option<Pose> {
    if link == -1 then
      if body in w.basePoses then Some(w.basePoses[body]) else None
    else
      if (body, link) in w.links then Some(w.links[(body, link)].pose) else None
  }

  /** state_fields_of_pose_of: the pose of (body, link) flattened to seven numbers. The base frame
      is read with the base query only; the link-state query is never asked about link -1. */
  function StateFieldsOfPoseOf(w: World, body: int, link: int): (r: Result<seq<real>, PyError>)
    ensures r.Success? <==> SelectedPose(w, body, link).Some?
    ensures r.Success? ==> r.value == PoseFields(SelectedPose(w, body, link).value)
  {
    match SelectedPose(w, body, link)
    case Some(pose) => Success(PoseFields(pose))
    case None => Failure(EngineError)
  }

  /** get_pose: the pose query of the part's own body and link. */
  function GetPose(w: World, part: BodyPart): (r: Result<seq<real>, PyError>)
    ensures r.Success? <==> SelectedPose(w, part.body, part.linkIndex).Some?
    ensures r.Success? ==> r.value == PoseFields(SelectedPose(w, part.body, part.linkIndex).value)
  {
    StateFieldsOfPoseOf(w, part.body, part.linkIndex)
  }

  /** current_position: the first three fields of the pose. */
  function CurrentPosition(w: World, part: BodyPart): (r: Result<seq<real>, PyError>)
    ensures r.Success? <==> SelectedPose(w, part.body, part.linkIndex).Some?
    ensures r.Success? ==>
      var p := SelectedPose(w, part.body, part.linkIndex).value.position;
      r.value == [p.x, p.y, p.z]
  {
    match GetPose(w, part)
    case Success(fields) => Success(fields[..3])
    case Failure(e) => Failure(e)
  }

  /** current_orientation: the remaining four fields of the pose. */
  function CurrentOrientation(w: World, part: BodyPart): (r: Result<seq<real>, PyError>)
    ensures r.Success? <==> SelectedPose(w, part.body, part.linkIndex).Some?
    ensures r.Success? ==>
      var q := SelectedPose(w, part.body, part.linkIndex).value.orientation;
      r.value == [q.a, q.b, q.c, q.d]
  {
    match GetPose(w, part)
    case Success(fields) => Success(fields[3..])
    case Failure(e) => Failure(e)
  }

  /** Position and orientation are the two halves of one pose query: together they give back the
      whole pose, the position is the pose's position and the orientation its quaternion. */
  lemma PositionAndOrientationSplitPose(w: World, part: BodyPart)
    ensures CurrentPosition(w, part).Success? <==> SelectedPose(w, part.body, part.linkIndex).Some?
    ensures CurrentOrientation(w, part).Success? <==> CurrentPosition(w, part).Success?
    ensures CurrentPosition(w, part).Success? ==>
      var p := SelectedPose(w, part.body, part.linkIndex).value;
      && CurrentPosition(w, part).value == [p.position.x, p.position.y, p.position.z]
      && CurrentOrientation(w, part).value == [p.orientation.a, p.orientation.b, p.orientation.c, p.orientation.d]
      && CurrentPosition(w, part).value + CurrentOrientation(w, part).value == GetPose(w, part).value
  {
  }

  /** The base frame's pose depends on the base query alone: worlds that agree on base poses give
      a base part the same pose whatever their link states. */
  lemma BaseFrameReadsOnlyBasePose(w1: World, w2: World, body: int)
    requires w1.basePoses == w2.basePoses
    ensures StateFieldsOfPoseOf(w1, body, -1) == StateFieldsOfPoseOf(w2, body, -1)
  {
  }

  /** A link's pose depends on the link-state query alone. */
  lemma LinkReadsOnlyLinkState(w1: World, w2: World, body: int, link: int)
    requires link != -1 && w1.links == w2.links
    ensures StateFieldsOfPoseOf(w1, body, link) == StateFieldsOfPoseOf(w2, body, link)
  {
  }

  /** speed as written: for a link, the unpacking of the link state names the angular velocity's
      last component `vy` too, after the linear one, so the middle field is the angular z. The
      base frame's speed is the base velocity. */
  function SpeedAsWritten(w: World, part: BodyPart): (r: Result<Vec3, PyError>)
    ensures part.linkIndex == -1 ==> (r.Success? <==> part.body in w.baseVelocities)
    ensures part.linkIndex != -1 ==> (r.Success? <==> (part.body, part.linkIndex) in w.links)
    ensures r.Success? && part.linkIndex == -1 ==> r.value == w.baseVelocities[part.body]
    ensures r.Success? && part.linkIndex != -1 ==>
      var state := w.links[(part.body, part.linkIndex)];
      r.value == Vec3(state.linearVelocity.x, state.angularVelocity.z, state.linearVelocity.z)
  {
    if part.linkIndex == -1 then
      if part.body in w.baseVelocities then Success(w.baseVelocities[part.body]) else Failure(EngineError)
    else
      if (part.body, part.linkIndex) in w.links then
        var LinkState(_, Vec3(vx, _, vz), Vec3(_, _, vy)) := w.links[(part.body, part.linkIndex)];
        Success(Vec3(vx, vy, vz))
      else Failure(EngineError)
  }

  /** speed as intended: the linear velocity, from the base-velocity query for link -1 and from the
      link state (asked with link velocities) otherwise. */
  function Speed(w: World, part: BodyPart): (r: Result<Vec3, PyError>)
    ensures part.linkIndex == -1 ==> (r.Success? <==> part.body in w.baseVelocities)
    ensures part.linkIndex != -1 ==> (r.Success? <==> (part.body, part.linkIndex) in w.links)
    ensures r.Success? && part.linkIndex == -1 ==> r.value == w.baseVelocities[part.body]
    ensures r.Success? && part.linkIndex != -1 ==> r.value == w.links[(part.body, part.linkIndex)].linearVelocity
  {
    if part.linkIndex == -1 then
      if part.body in w.baseVelocities then Success(w.baseVelocities[part.body]) else Failure(EngineError)
    else
      if (part.body, part.linkIndex) in w.links then
        var LinkState(_, velocity, _) := w.links[(part.body, part.linkIndex)];
        Success(velocity)
      else Failure(EngineError)
  }

  /** The written and the intended speed agree on every base frame, and on a link exactly when its
      linear y component equals its angular z component. */
  lemma SpeedAsWrittenAgreement(w: World, part: BodyPart)
    ensures part.linkIndex == -1 ==> SpeedAsWritten(w, part) == Speed(w, part)
    ensures part.linkIndex != -1 && (part.body, part.linkIndex) in w.links ==>
      var state := w.links[(part.body, part.linkIndex)];
      (SpeedAsWritten(w, part) == Speed(w, part) <==> state.linearVelocity.y == state.angularVelocity.z)
  {
  }

  /** A link moving at (1, 2, 3) while turning at (4, 5, 6): the written speed reports (1, 6, 3). */
  lemma SpeedDiscrepancy()
    ensures
      var pose := Pose(Vec3(0.0, 0.0, 0.0), Quaternion(0.0, 0.0, 0.0, 1.0));
      var link := BodyPart(7, 0, 2);
      var w := World(map[], map[], map[(7, 2) := LinkState(pose, Vec3(1.0, 2.0, 3.0), Vec3(4.0, 5.0, 6.0))], map[]);
      && SpeedAsWritten(w, link) == Success(Vec3(1.0, 6.0, 3.0))
      && Speed(w, link) == Success(Vec3(1.0, 2.0, 3.0))
  {
  }

  /** reset_pose: overwrite the pose of the part's body base, outside the simulation. */
  method ResetPose(sim: Simulation, part: BodyPart, position: Vec3, orientation: Quaternion)
    modifies sim
    ensures sim.commands == old(sim.commands) + [ResetBasePose(part.body, Pose(position, orientation))]
  {
    sim.commands := sim.commands + [ResetBasePose(part.body, Pose(position, orientation))];
  }

  /** reset_position as written: it asks the part for `get_orientation()`, a method BodyPart does
      not define, so the call raises before any command reaches the engine. */
  function ResetPositionAsWritten(w: World, part: BodyPart, position: Vec3): (r: Result<Command, PyError>)
    ensures r == Failure(AttributeError("get_orientation"))
  {
    Failure(AttributeError("get_orientation"))
  }

  /** reset_orientation as written: it asks for `get_position()`, which BodyPart does not define. */
  function ResetOrientationAsWritten(w: World, part: BodyPart, orientation: Quaternion): (r: Result<Command, PyError>)
    ensures r == Failure(AttributeError("get_position"))
  {
    Failure(AttributeError("get_position"))
  }

  /** reset_position as intended: move the base to `position`, keeping the orientation that
      current_orientation reports. */
  function ResetPositionCommand(w: World, part: BodyPart, position: Vec3): (r: Result<Command, PyError>)
    ensures r.Success? <==> SelectedPose(w, part.body, part.linkIndex).Some?
    ensures r.Success? ==>
      && r.value.ResetBasePose? && r.value.body == part.body
      && r.value.pose.position == position
      && r.value.pose.orientation == SelectedPose(w, part.body, part.linkIndex).value.orientation
  {
    match CurrentOrientation(w, part)
    case Success(q) => Success(ResetBasePose(part.body, Pose(position, Quaternion(q[0], q[1], q[2], q[3]))))
    case Failure(e) => Failure(e)
  }

  /** reset_orientation as intended: turn the base to `orientation`, keeping the position that
      current_position reports. */
  function ResetOrientationCommand(w: World, part: BodyPart, orientation: Quaternion): (r: Result<Command, PyError>)
    ensures r.Success? <==> SelectedPose(w, part.body, part.linkIndex).Some?
    ensures r.Success? ==>
      && r.value.ResetBasePose? && r.value.body == part.body
      && r.value.pose.orientation == orientation
      && r.value.pose.position == SelectedPose(w, part.body, part.linkIndex).value.position
  {
    match CurrentPosition(w, part)
    case Success(p) => Success(ResetBasePose(part.body, Pose(Vec3(p[0], p[1], p[2]), orientation)))
    case Failure(e) => Failure(e)
  }

  /** A part whose pose the engine knows: the intended reset moves it, the written one raises. */
  lemma ResetPositionDiscrepancy()
    ensures
      var pose := Pose(Vec3(0.0, 0.0, 1.0), Quaternion(0.0, 0.0, 0.0, 1.0));
      var w := World(map[7 := pose], map[], map[], map[]);
      var part := BodyPart(7, 0, -1);
      var target := Vec3(1.0, 2.0, 3.0);
      && ResetPositionAsWritten(w, part, target).Failure?
      && ResetPositionCommand(w, part, target) == Success(ResetBasePose(7, Pose(target, pose.orientation)))
      && ResetOrientationAsWritten(w, part, pose.orientation).Failure?
      && ResetOrientationCommand(w, part, pose.orientation) == Success(ResetBasePose(7, pose))
  {
  }

  /** reset_position with the intended behaviour: the command is sent when the current pose can be
      read, and nothing is sent otherwise. */
  method ResetPosition(sim: Simulation, w: World, part: BodyPart, position: Vec3) returns (r: Result<(), PyError>)
    modifies sim
    ensures r.Success? <==> ResetPositionCommand(w, part, position).Success?
    ensures sim.commands == old(sim.commands) +
      (if r.Success? then [ResetPositionCommand(w, part, position).value] else [])
  {
    var c := ResetPositionCommand(w, part, position);
    if c.Success? {
      sim.commands := sim.commands + [c.value];
      r := Success(());
    } else {
      r := Failure(c.error);
    }
  }

  /** reset_orientation with the intended behaviour. */
  method ResetOrientation(sim: Simulation, w: World, part: BodyPart, orientation: Quaternion) returns (r: Result<(), PyError>)
    modifies sim
    ensures r.Success? <==> ResetOrientationCommand(w, part, orientation).Success?
    ensures sim.commands == old(sim.commands) +
      (if r.Success? then [ResetOrientationCommand(w, part, orientation).value] else [])
  {
    var c := ResetOrientationCommand(w, part, orientation);
    if c.Success? {
      sim.commands := sim.commands + [c.value];
      r := Success(());
    } else {
      r := Failure(c.error);
    }
  }
}
