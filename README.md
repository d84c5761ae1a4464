# MuJoCo-XML environment scene builder, in Dafny

This project models the environment base class that loads a MuJoCo XML robot into the physics
engine and builds the robot's registries from what the engine reports. It covers three parts:

- `PybulletMujocoXmlEnv.addToScene`, which walks every loaded body and every joint of each body.
  It fills `parts` (part name to BodyPart), `jdict` (joint name to Joint), `ordered_joints` (the
  registered joints in walk order) and `robot_body`. It applies the joint policy:
  - `jointfix*` joints are welds and are skipped;
  - `ignore*` joints are registered with their motor switched off and no power coefficient;
  - every other joint gets `power_coef = 100.0`.
- `_reset`, which clears `ordered_joints` and the episode counters, loads the model (with the
  self-collision flag when the class turns it on) and rebuilds the registries on top of the
  previous `parts`, `jdict` and `robot_body`.
- The `BodyPart` pose queries and the `Joint` state queries and motor commands.

The engine is plain data:

- what the load reports (bodies, base names, joint names, child-link names, limits) is a
  `seq<Body>`;
- what the simulation reports (base poses, link states, velocities, joint states) is a `World`
  snapshot;
- every command sent to the engine is appended to the command log of a `Simulation` object.

Modules:

- `Engine` (Engine.dfy): the engine's data, its commands, and the `Simulation` command log.
- `BodyParts` (BodyParts.dfy): the `BodyPart` value; `state_fields_of_pose_of`, `speed`,
  `current_position`/`current_orientation`; the base-pose resets.
- `Joints` (Joints.dfy): the `Joint` value; `get_state`, `current_relative_position`; the motor
  command methods.
- `SceneGraph` (SceneGraph.dfy): the specification of addToScene. The walk is a sequence of
  encounters: a jointless body, or one joint of a body, in body-major then joint-index order.
  `Step` is one pass of the loop body. `Build` folds `Step` over the walk. Lemmas state what the
  registries hold afterwards.
- `MujocoEnv` (MujocoEnv.dfy): the class `PybulletMujocoXmlEnv` with its fields, `AddToScene`
  (the two nested loops, proved equal to `Build`) and `Reset`.

Behaviour of the code that one might expect to be otherwise:

- One might expect the fallback to always give a robot body when at least one body was loaded.
  In the code, the fallback sits inside the joint loop and fires only at body 0, joint 0, and
  only while `robot_body` is still None; on a reset after one that set `robot_body`, it never
  fires. When the first body has no joints the fallback never fires, so `robot_body` stays as
  it was (None on a first reset) unless a joint's link carries the robot's name
  (`SceneGraph.JointlessBodyNeverBecomesRoot`, `SceneGraph.BuildRootMatched`,
  `SceneGraph.BuildRootUnmatched`). When the fallback cannot fire, a part already stored under the
  robot's name carries over unless a body or link writes that name
  (`SceneGraph.BuildPartsUntouched`). When the fallback does fire, the part it stores
  under the robot's name is overwritten by any later writer of that name: a jointless body with
  that base name, or a joint whose link has that name (`SceneGraph.BuildPartsLastWriteWins`).
- `current_relative_position` divides by `upperLimit - lowerLimit`. With equal limits, Python's
  float division raises `ZeroDivisionError`. The model returns that error as a value rather than
  requiring distinct limits.

## Model

| member | source | states |
|---|---|---|
| BodyParts.StateFieldsOfPoseOf | pybulletgym/envs/gym_mujoco_xml_env.py:160-165 | succeeds exactly when the engine answers the query selected by the link index (base query for -1, link-state query otherwise), and then returns that pose's position then quaternion as seven numbers |
| BodyParts.BaseFrameReadsOnlyBasePose | pybulletgym/envs/gym_mujoco_xml_env.py:161-162 | a base frame (link -1) reads the base query alone: worlds with equal base poses give the same answer whatever their link states |
| BodyParts.LinkReadsOnlyLinkState | pybulletgym/envs/gym_mujoco_xml_env.py:163-164 | a link other than -1 reads the link-state query alone |
| BodyParts.GetPose | pybulletgym/envs/gym_mujoco_xml_env.py:167-168 | the pose query of the part's own body and link: succeeds exactly when the engine answers it, and is then that pose as seven numbers |
| BodyParts.CurrentPosition | pybulletgym/envs/gym_mujoco_xml_env.py:177-178 | succeeds exactly when the part's pose is known, and is then the pose's x, y, z |
| BodyParts.CurrentOrientation | pybulletgym/envs/gym_mujoco_xml_env.py:180-181 | succeeds exactly when the part's pose is known, and is then the pose's quaternion |
| BodyParts.PositionAndOrientationSplitPose | pybulletgym/envs/gym_mujoco_xml_env.py:167-181 | position and orientation succeed together, exactly when the part's pose is known; they are the pose's position and quaternion, and together they give back get_pose |
| BodyParts.SpeedAsWritten | pybulletgym/envs/gym_mujoco_xml_env.py:170-175 | speed as written: the base velocity for link -1; for a link, the linear x, the angular z and the linear z, because the unpacking assigns `vy` twice; failing exactly when that query is unanswered |
| BodyParts.Speed | pybulletgym/envs/gym_mujoco_xml_env.py:170-175 | speed as intended: the base velocity for link -1 and the link state's linear velocity otherwise, failing exactly when that query is unanswered |
| BodyParts.SpeedAsWrittenAgreement | pybulletgym/envs/gym_mujoco_xml_env.py:170-175 | the written and intended speeds agree on every base frame, and on a link exactly when its linear y equals its angular z |
| BodyParts.SpeedDiscrepancy | pybulletgym/envs/gym_mujoco_xml_env.py:174-175 | a link moving at (1, 2, 3) and turning at (4, 5, 6) has written speed (1, 6, 3) and intended speed (1, 2, 3) |
| BodyParts.ResetPose | pybulletgym/envs/gym_mujoco_xml_env.py:189-190 | appends one base-pose reset of the part's body with the given position and orientation |
| BodyParts.ResetPositionAsWritten | pybulletgym/envs/gym_mujoco_xml_env.py:183-184 | reset_position as written always fails with an AttributeError for get_orientation |
| BodyParts.ResetOrientationAsWritten | pybulletgym/envs/gym_mujoco_xml_env.py:186-187 | reset_orientation as written always fails with an AttributeError for get_position |
| BodyParts.ResetPositionCommand | pybulletgym/envs/gym_mujoco_xml_env.py:183-184 | the intended reset_position: succeeds exactly when the pose is known, and moves the body base to the new position while keeping the current orientation |
| BodyParts.ResetOrientationCommand | pybulletgym/envs/gym_mujoco_xml_env.py:186-187 | the intended reset_orientation: succeeds exactly when the pose is known, and turns the body base to the new orientation while keeping the current position |
| BodyParts.ResetPositionDiscrepancy | pybulletgym/envs/gym_mujoco_xml_env.py:183-187 | for a body whose pose the engine knows, both written resets raise while the intended ones produce the expected command |
| BodyParts.ResetPosition | pybulletgym/envs/gym_mujoco_xml_env.py:183-184 | sends the intended reset command exactly when it can be formed, and nothing otherwise |
| BodyParts.ResetOrientation | pybulletgym/envs/gym_mujoco_xml_env.py:186-187 | the same for the orientation reset |
| Joints.NewJoint | pybulletgym/envs/gym_mujoco_xml_env.py:200-206 | a new joint keeps its name, body and index, takes the limits the engine reports, has power_coeff 0 and no power_coef |
| Joints.GetState | pybulletgym/envs/gym_mujoco_xml_env.py:222-224 | the (position, velocity) the engine reports for the joint, failing exactly when the engine does not know the joint |
| Joints.RelativeState | pybulletgym/envs/gym_mujoco_xml_env.py:216-220 | fails with ZeroDivisionError exactly when the limits are equal; otherwise the velocity part is one tenth of the velocity |
| Joints.CurrentRelativePosition | pybulletgym/envs/gym_mujoco_xml_env.py:214-220 | an engine failure propagates; otherwise the result is the rescaling of the reported state |
| Joints.RelativeRoundTrip | pybulletgym/envs/gym_mujoco_xml_env.py:216-218 | with distinct limits the rescaling is a bijection: PositionFromRelative undoes it in both directions |
| Joints.RelativeLandmarks | pybulletgym/envs/gym_mujoco_xml_env.py:216-218 | the lower limit maps to -1, the upper limit to +1, the midpoint to 0 |
| Joints.RelativeWithinLimits | pybulletgym/envs/gym_mujoco_xml_env.py:216-218 | with ordered limits a position is within them if and only if its relative position is in [-1, 1], and the rescaling is strictly increasing |
| Joints.SetState | pybulletgym/envs/gym_mujoco_xml_env.py:208-209 | appends one joint-state reset for this joint |
| Joints.SetPosition | pybulletgym/envs/gym_mujoco_xml_env.py:226-227 | appends position control towards the target for this joint |
| Joints.SetVelocity | pybulletgym/envs/gym_mujoco_xml_env.py:229-230 | appends velocity control towards the target, with the force left at its default |
| Joints.SetTorque | pybulletgym/envs/gym_mujoco_xml_env.py:235-236 | appends torque control with the given force |
| Joints.SetMotorTorque | pybulletgym/envs/gym_mujoco_xml_env.py:232-233 | sends exactly what set_torque sends |
| Joints.DisableMotor | pybulletgym/envs/gym_mujoco_xml_env.py:245-246 | appends velocity control with zero force for this joint, which leaves the motor off |
| Joints.ResetPosition | pybulletgym/envs/gym_mujoco_xml_env.py:241-243 | appends the joint-state reset then the disable command, so the last command leaves the motor off |
| Joints.ResetCurrentPosition | pybulletgym/envs/gym_mujoco_xml_env.py:238-239 | sends exactly what reset_position sends |
| SceneGraph.HasPrefix | pybulletgym/envs/gym_mujoco_xml_env.py:85-89 | comparing the name's head slice with a prefix is exactly "the name starts with the prefix", also for names shorter than the prefix |
| SceneGraph.Initial | pybulletgym/envs/gym_mujoco_xml_env.py:45-58 | addToScene starts from each existing registry and from an empty one where the field is None; the robot body is the current one |
| SceneGraph.ActuatedJoint | pybulletgym/envs/gym_mujoco_xml_env.py:86 | the registered joint carries the encounter's joint name, body, body index and joint index |
| SceneGraph.EncountersDescribeBodies | pybulletgym/envs/gym_mujoco_xml_env.py:61-68 | every step of the walk is a jointless body with its base name, or an existing joint of a body with the engine's information |
| SceneGraph.EncountersAreOrdered | pybulletgym/envs/gym_mujoco_xml_env.py:61-67 | the walk visits (body, joint) pairs in strictly increasing lexicographic order |
| SceneGraph.JointEncountered | pybulletgym/envs/gym_mujoco_xml_env.py:67-68 | every joint of every body is visited |
| SceneGraph.BaseEncountered | pybulletgym/envs/gym_mujoco_xml_env.py:62-66 | every jointless body is visited as its base frame |
| SceneGraph.EncountersStartWithBodyZero | pybulletgym/envs/gym_mujoco_xml_env.py:61-67 | the walk starts with all of body 0's steps |
| SceneGraph.StepAppendsActuatedJoint | pybulletgym/envs/gym_mujoco_xml_env.py:85-91 | one loop pass appends at most its own registered joint to ordered_joints and at most its disable command |
| SceneGraph.RunAppendsActuatedJoints | pybulletgym/envs/gym_mujoco_xml_env.py:85-91 | the walk extends ordered_joints by exactly the non-weld joints in walk order, and sends exactly one disable command per ignore* joint, in the same order |
| SceneGraph.ActuatedJointsFollowPolicy | pybulletgym/envs/gym_mujoco_xml_env.py:85-93 | every registered joint comes from a non-weld joint of the walk, is no weld, has power_coeff 0, and has power_coef 100.0 unless its name starts with ignore, in which case it has none |
| SceneGraph.ActuatedJointsComplete | pybulletgym/envs/gym_mujoco_xml_env.py:85-87 | every non-weld joint of the walk is in ordered_joints |
| SceneGraph.ActuatedJointsOrdered | pybulletgym/envs/gym_mujoco_xml_env.py:61-87 | a walk in (body, joint) order yields ordered_joints in strictly increasing (body, joint) order |
| SceneGraph.BuildOrderedJoints | pybulletgym/envs/gym_mujoco_xml_env.py:55-93 | addToScene extends the given ordered_joints with exactly the non-weld joints; each one matches its body's engine data; they are in (body, joint) order; every non-weld (body, joint) pair is present; the commands are the disables of the ignore* joints |
| SceneGraph.StepParts | pybulletgym/envs/gym_mujoco_xml_env.py:66-82 | one pass writes the encountered part under its name, plus the robot name's base-frame part when the fallback fires |
| SceneGraph.StepJoints | pybulletgym/envs/gym_mujoco_xml_env.py:85-86 | one pass adds a non-weld joint under its name and leaves the joint dict unchanged otherwise |
| SceneGraph.StepRoot | pybulletgym/envs/gym_mujoco_xml_env.py:78-83 | one pass sets the robot body on a name match, else sets it to body 0's base frame at the first joint when unset, else keeps it |
| SceneGraph.PartsLastWriteWins | pybulletgym/envs/gym_mujoco_xml_env.py:62-76 | parts[name] is the part of the last step that writes that name, for the robot's name too when no first joint of body 0 comes after that step |
| SceneGraph.PartsUntouched | pybulletgym/envs/gym_mujoco_xml_env.py:45-76 | a name no step writes keeps its presence and value from the initial parts; for the robot's name this needs a robot body already set or no first joint of body 0 in the walk, since the fallback writes it |
| SceneGraph.JointsLastWriteWins | pybulletgym/envs/gym_mujoco_xml_env.py:85-86 | jdict[name] is the joint of the last non-weld step with that joint name |
| SceneGraph.JointsUntouched | pybulletgym/envs/gym_mujoco_xml_env.py:50-86 | a joint name no non-weld step registers keeps its presence and value |
| SceneGraph.RootLastMatch | pybulletgym/envs/gym_mujoco_xml_env.py:78-79 | the robot body is the part of the last step whose link carries the robot's name |
| SceneGraph.RootUnchanged | pybulletgym/envs/gym_mujoco_xml_env.py:78-83 | without a name match, and with the robot body already set or no first joint in the walk, the robot body is unchanged |
| SceneGraph.RootFallback | pybulletgym/envs/gym_mujoco_xml_env.py:81-83 | without a name match and with no robot body at the start, the first joint makes body 0's base frame the robot body, and it stays in parts under the robot name unless a later step writes that name |
| SceneGraph.BuildPartsLastWriteWins | pybulletgym/envs/gym_mujoco_xml_env.py:61-76 | over the bodies: for every name, the robot's included, parts[name] is the part at the last (body, link) position that writes the name |
| SceneGraph.BuildPartsUntouched | pybulletgym/envs/gym_mujoco_xml_env.py:45-76 | over the bodies: a name no body or link writes is left as it was, the robot's name included whenever the robot body is already set or body 0 is missing or jointless, so parts[robot_name] carries over on every reset after one that set the robot body |
| SceneGraph.BuildJointsLastWriteWins | pybulletgym/envs/gym_mujoco_xml_env.py:85-93 | over the bodies: jdict[name] is the joint at the last (body, joint) position registering the name, with power_coef 100.0 or none for ignore* |
| SceneGraph.BuildJointsUntouched | pybulletgym/envs/gym_mujoco_xml_env.py:50-86 | over the bodies: a weld name, or a name no joint registers, is left as it was |
| SceneGraph.BuildRootMatched | pybulletgym/envs/gym_mujoco_xml_env.py:78-79 | over the bodies: the robot body is the link at the last (body, joint) position named like the robot |
| SceneGraph.BuildRootUnmatched | pybulletgym/envs/gym_mujoco_xml_env.py:81-83 | over the bodies, with no name match: the robot body becomes body 0's base frame exactly when it was unset and body 0 has a joint, and it is kept otherwise; that part is in parts unless a jointless body carries the robot name |
| SceneGraph.JointlessBodyNeverBecomesRoot | pybulletgym/envs/gym_mujoco_xml_env.py:62-83 | a single jointless body named like the robot is recorded as a part but leaves the robot body unset, and registers no joints |
| SceneGraph.RunNames | pybulletgym/envs/gym_mujoco_xml_env.py:44-95 | the walk adds every written part name and, at most, the robot name through the fallback; it adds exactly the registered joint names; a set robot body stays set, and a first joint always leaves one set |
| SceneGraph.RebuildKeepsNames | pybulletgym/envs/gym_mujoco_xml_env.py:103-112 | rebuilding, as reset does, from a model of the same shape (even with new engine ids) leaves the same part names, joint names and ordered joint names |
| MujocoEnv.LoadFlags | pybulletgym/envs/gym_mujoco_xml_env.py:109-112 | the load carries the self-collision flag if and only if self-collision is on, and no other flag |
| MujocoEnv.CalcPotential | pybulletgym/envs/gym_mujoco_xml_env.py:122-123 | the base class's potential is 0 |
| MujocoEnv.PybulletMujocoXmlEnv.constructor | pybulletgym/envs/gym_mujoco_xml_env.py:21-36 | keeps model file, robot name and dimensions; the registries start unset and the episode counters do not exist yet |
| MujocoEnv.PybulletMujocoXmlEnv.AddToScene | pybulletgym/envs/gym_mujoco_xml_env.py:44-95 | the two loops return exactly Build from the current registries and send exactly its disable commands; the robot body field holds the result, and each existing registry field sees every write, as the in-place extension of the aliased dict or list does |
| MujocoEnv.PybulletMujocoXmlEnv.VisitBody | pybulletgym/envs/gym_mujoco_xml_env.py:61-93 | one outer-loop pass is the walk over that body's steps |
| MujocoEnv.PybulletMujocoXmlEnv.VisitJoint | pybulletgym/envs/gym_mujoco_xml_env.py:67-93 | one inner-loop pass, including the early continue for ignore* joints and power_coef on the shared joint object, is one Step |
| MujocoEnv.PybulletMujocoXmlEnv.Reset | pybulletgym/envs/gym_mujoco_xml_env.py:97-117 | frame, done and reward become 0 and the potential is calc_potential's; the engine receives the load and then addToScene's commands; the registries are Build over the loaded bodies with ordered_joints emptied and parts, jdict and the robot body kept |
| MujocoEnv.ResetOrderedJointsAreFresh | pybulletgym/envs/gym_mujoco_xml_env.py:103-112 | after a reset ordered_joints is exactly the new model's non-weld joints in walk order, whatever it held before; parts keeps its earlier names; jdict is the earlier names plus the registered ones |

## Left out

- Engine calls (loadMJCF, getBodyInfo, getJointInfo and the state queries) are not executed. Their answers are inputs: a `seq<Body>` for what a load reports, a `World` snapshot for what the simulation reports. The commands sent to the engine are appended to `Simulation.commands`.
- Python's UTF-8 decoding of the names the engine returns is left out. Names are already strings.
- The asset path (`os.path.join` with the package directory) is left out. The load command carries the model file name only.
- gym's action and observation spaces and `_seed` (random-number seeding) are left out. They are gym bookkeeping with no effect on the scene graph; the dimensions are kept as constants.
- Scene creation and `episode_restart` in `_reset` are left out. They belong to the scene module, which is not part of this model.
- `robot_specific_reset`, `calc_state` and `_reset`'s return value are left out. They are defined by the robot subclasses, which are not part of this model.
- `Camera`, `move_and_look_at`, `_render`, `HUD` and `Pose_Helper` (including `rpy`'s quaternion-to-Euler conversion) are left out. They are display helpers with no effect on the scene graph.
- `BodyPart.contact_list` is left out. It is a pass-through engine query.
- `BodyPart.initialPosition` and `initialOrientation` are left out. These are engine queries that the constructor makes and nothing in the core reads.
- MujocoEnv.PybulletMujocoXmlEnv.constructor: `self_collision` is a class attribute, False by default and overridden by robot subclasses; the model takes it as a constructor argument, since subclasses are not part of this model.
- The `dump` debug prints in addToScene are left out. `dump` is always 0.
- Joint and BodyPart are values, not objects, so object identity is not captured. `power_coef` is set on the one joint object that both `jdict` and `ordered_joints` hold; the model replaces both copies in the same pass, before anything else reads them.
- `AddToScene` writes the existing `parts`, `jdict` and `ordered_joints` fields back at the end of the walk instead of mutating them at each write. Nothing reads those fields during the walk, so only the final state is stated.
- Joints.RelativeState: Python floats are IEEE doubles; the model computes over exact reals, so rounding is not captured.
- The training script that drives an environment is not part of this model.

## Findings

| source | as written | input that shows it | evidently intended | confidence | as-written member | corrected member |
|---|---|---|---|---|---|---|
| pybulletgym/envs/gym_mujoco_xml_env.py:183-184 | `reset_position` calls `self.get_orientation()`, which BodyPart does not define, so every call raises AttributeError | any part, e.g. the base frame of body 7 with a known pose, moved to (1, 2, 3) | keep the current orientation (`current_orientation()`) and move the base to the new position | high (not executed) | BodyParts.ResetPositionAsWritten | BodyParts.ResetPositionCommand |
| pybulletgym/envs/gym_mujoco_xml_env.py:186-187 | `reset_orientation` calls `self.get_position()`, which BodyPart does not define, so every call raises AttributeError | any part, e.g. the base frame of body 7 with a known pose, turned to its own orientation | keep the current position (`current_position()`) and turn the base to the new orientation | high (not executed) | BodyParts.ResetOrientationAsWritten | BodyParts.ResetOrientationCommand |
| pybulletgym/envs/gym_mujoco_xml_env.py:174-175 | for a link, `speed` unpacks the link state into `(vx, vy, vz)` and then `(vr, vp, vy)`, so `vy` ends as the angular z and the result is (linear x, angular z, linear z) | a link moving at (1, 2, 3) while turning at (4, 5, 6) reports (1, 6, 3) | the linear velocity (1, 2, 3), as the base frame's branch returns | high (not executed) | BodyParts.SpeedAsWritten | BodyParts.Speed |
