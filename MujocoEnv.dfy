/**
 The environment base class for MuJoCo-XML robots: it loads a model into the engine and builds the
 robot's registries (parts, joints by name, joints in order, the robot body) by walking the loaded
 bodies, and its reset clears the per-episode counters and reloads the model.
 */
module MujocoEnv {
  import opened Engine
  import opened BodyParts
  import opened Joints
  import opened SceneGraph

  /** The load flags reset passes: the self-collision flag exactly when self-collision is on. */
  function LoadFlags(selfCollision: bool): (flags: set<LoadFlag>)
    ensures UseSelfCollisionExcludeAllParents in flags <==> selfCollision
    ensures |flags| <= 1
  {
    if selfCollision then {UseSelfCollisionExcludeAllParents} else {}
  }

  /** The potential of a state; the base class has none. */
  function CalcPotential(): (p: int)
    ensures p == 0
  {
    0
  }

  class PybulletMujocoXmlEnv {
    const modelXml: string
    const robotName: string
    const actionDim: nat
    const obsDim: nat
    /** The class-level switch a robot subclass turns on to load with self-collision; a constructor
        argument here, since subclasses are not part of this model. */
    const selfCollision: bool

    /** The registries; None until the first reset builds them. */
    var parts: Option<map<string, BodyPart>>
    var jdict: Option<map<string, Joint>>
    var orderedJoints: Option<seq<Joint>>
    var robotBody: Option<BodyPart>

    /** The episode counters and potential; None until the first reset sets them. */
    var frame: Option<int>
    var done: Option<int>
    var reward: Option<int>
    var potential: Option<int>

    constructor (modelXml: string, robotName: string, actionDim: nat, obsDim: nat, selfCollision: bool)
      ensures this.modelXml == modelXml && this.robotName == robotName
      ensures this.actionDim == actionDim && this.obsDim == obsDim && this.selfCollision == selfCollision
      ensures parts.None? && jdict.None? && orderedJoints.None? && robotBody.None?
      ensures frame.None? && done.None? && reward.None? && potential.None?
    {
      this.modelXml := modelXml;
      this.robotName := robotName;
      this.actionDim := actionDim;
      this.obsDim := obsDim;
      this.selfCollision := selfCollision;
      parts, jdict, orderedJoints, robotBody := None, None, None, None;
      frame, done, reward, potential := None, None, None, None;
    }

    /**
     addToScene: walk the loaded bodies and fill the registries. It starts from the environment's
     own dict and lists when they exist, and extends them in place, so those fields see every write;
     the robot body field is updated as the walk goes. The result is the scene graph Build
     describes, and the engine receives exactly Build's motor commands.
     */
    method AddToScene(sim: Simulation, bodies: seq<Body>)
      returns (partsOut: map<string, BodyPart>, jointsOut: map<string, Joint>,
               orderedOut: seq<Joint>, robotBodyOut: Option<BodyPart>)
      modifies this, sim
      ensures var r := Build(bodies, robotName, Initial(old(parts), old(jdict), old(orderedJoints), old(robotBody)));
        && partsOut == r.parts && jointsOut == r.joints && orderedOut == r.ordered && robotBodyOut == r.root
        && sim.commands == old(sim.commands) + r.commands
      ensures robotBody == robotBodyOut
      ensures parts == (if old(parts).Some? then Some(partsOut) else None)
      ensures jdict == (if old(jdict).Some? then Some(jointsOut) else None)
      ensures orderedJoints == (if old(orderedJoints).Some? then Some(orderedOut) else None)
      ensures frame == old(frame) && done == old(done) && reward == old(reward) && potential == old(potential)
    {
      var ps := if parts.Some? then parts.value else map[];
      var js := if jdict.Some? then jdict.value else map[];
      var ordered := if orderedJoints.Some? then orderedJoints.value else [];
      ghost var init := Initial(parts, jdict, orderedJoints, robotBody);
      ghost var log: seq<Command> := [];
      for i := 0 to |bodies|
        invariant Registries(ps, js, ordered, robotBody, log) == Run(robotName, init, Encounters(bodies[..i]))
        invariant sim.commands == old(sim.commands) + log
        modifies this`robotBody, sim
      {
        EncountersGrow(bodies, i);
        RunConcat(robotName, init, Encounters(bodies[..i]), BodyEncounters(i, bodies[i]));
        ps, js, ordered, log := VisitBody(sim, ps, js, ordered, i, bodies[i], old(sim.commands), log);
      }
      assert bodies[..|bodies|] == bodies;
      if parts.Some? {
        parts := Some(ps);
      }
      if jdict.Some? {
        jdict := Some(js);
      }
      if orderedJoints.Some? {
        orderedJoints := Some(ordered);
      }
      partsOut, jointsOut, orderedOut, robotBodyOut := ps, js, ordered, robotBody;
    }

    /**
     One pass of addToScene's outer loop, for body i: a jointless body records its base frame as a
     part, and every joint of the body takes one pass of the inner loop. The new state is the walk
     over the body's encounters.
     */
    method VisitBody(sim: Simulation, ps: map<string, BodyPart>, js: map<string, Joint>, ordered: seq<Joint>,
                     i: nat, b: Body, ghost c0: seq<Command>, ghost log: seq<Command>)
      returns (ps': map<string, BodyPart>, js': map<string, Joint>, ordered': seq<Joint>, ghost log': seq<Command>)
      requires sim.commands == c0 + log
      modifies this`robotBody, sim
      ensures Registries(ps', js', ordered', robotBody, log') ==
        Run(robotName, Registries(ps, js, ordered, old(robotBody), log), BodyEncounters(i, b))
      ensures sim.commands == c0 + log'
    {
      ghost var start := Registries(ps, js, ordered, robotBody, log);
      ghost var lines := BodyEncounters(i, b);
      ps', js', ordered', log' := ps, js, ordered, log;
      if |b.joints| == 0 {
        ps' := ps'[b.baseName := BodyPart(b.handle, i, -1)];
        RunSnoc(robotName, start, [], BaseOf(i, b.handle, b.baseName));
        assert [] + [BaseOf(i, b.handle, b.baseName)] == lines;
      } else {
        assert lines[..0] == [];
      }
      for j := 0 to |b.joints|
        invariant |b.joints| > 0 ==> Registries(ps', js', ordered', robotBody, log') == Run(robotName, start, lines[..j])
        invariant |b.joints| == 0 ==> Registries(ps', js', ordered', robotBody, log') == Run(robotName, start, lines)
        invariant sim.commands == c0 + log'
        modifies this`robotBody, sim
      {
        BodyEncountersGrow(i, b, j);
        RunSnoc(robotName, start, lines[..j], JointOf(i, b.handle, j, b.joints[j]));
        ps', js', ordered', log' := VisitJoint(sim, ps', js', ordered', i, b.handle, j, b.joints[j], c0, log');
      }
      assert |b.joints| > 0 ==> lines[..|b.joints|] == lines;
    }

    /**
     One pass of addToScene's inner loop, for joint j of body i: record the link as a part, settle
     the robot body, and register the joint unless it is a weld; an ignore* joint has its motor
     switched off and keeps no power coefficient, every other one gets power_coef 100. The new
     state is one Step of the walk.
     */
    method VisitJoint(sim: Simulation, ps: map<string, BodyPart>, js: map<string, Joint>, ordered: seq<Joint>,
                      i: nat, handle: int, j: nat, info: JointInfo, ghost c0: seq<Command>, ghost log: seq<Command>)
      returns (ps': map<string, BodyPart>, js': map<string, Joint>, ordered': seq<Joint>, ghost log': seq<Command>)
      requires sim.commands == c0 + log
      modifies this`robotBody, sim
      ensures Registries(ps', js', ordered', robotBody, log') ==
        Step(robotName, Registries(ps, js, ordered, old(robotBody), log), JointOf(i, handle, j, info))
      ensures sim.commands == c0 + log'
    {
      ghost var e := JointOf(i, handle, j, info);
      ghost var placed := PlaceJointPart(robotName, Registries(ps, js, ordered, robotBody, log), e);
      ps', js', ordered', log' := ps, js, ordered, log;
      ps' := ps'[info.partName := BodyPart(handle, i, j)];
      if info.partName == robotName {
        robotBody := Some(ps'[info.partName]);
      }
      if i == 0 && j == 0 && robotBody.None? {
        // nothing matched the robot name before the first joint: take body 0's base frame
        ps' := ps'[robotName := BodyPart(handle, 0, -1)];
        robotBody := Some(ps'[robotName]);
      }
      assert ps' == placed.parts && robotBody == placed.root;
      NameTestsBySlice(info.jointName);
      RegisterJointSteps(placed, e);
      if Head(info.jointName, 8) != "jointfix" {
        var jt := NewJoint(info.jointName, handle, i, j, info);
        js' := js'[info.jointName := jt];
        ordered' := ordered' + [jt];
        if Head(info.jointName, 6) == "ignore" {
          DisableMotor(sim, jt);
          log' := log' + [DisableMotorCommand(jt)];
          return;
        }
        // power_coef is set on the one joint object both the dict and the list hold
        jt := jt.(powerCoef := Some(100.0));
        js' := js'[info.jointName := jt];
        ordered' := ordered'[|ordered'| - 1 := jt];
      }
    }

    /**
     _reset: clear ordered_joints and the episode counters, load the model (with the
     self-collision flag when it is on), rebuild the registries on top of the previous parts, joint
     dict and robot body, and take the potential of the new state. `loaded` is what the engine's
     load returns.
     */
    method Reset(sim: Simulation, loaded: seq<Body>)
      modifies this, sim
      ensures frame == Some(0) && done == Some(0) && reward == Some(0)
      ensures potential == Some(CalcPotential())
      ensures var r := Build(loaded, robotName, Initial(old(parts), old(jdict), Some([]), old(robotBody)));
        && parts == Some(r.parts) && jdict == Some(r.joints) && orderedJoints == Some(r.ordered)
        && robotBody == r.root
        && sim.commands == old(sim.commands) + [LoadMjcf(modelXml, LoadFlags(selfCollision))] + r.commands
    {
      orderedJoints := Some([]);
      frame := Some(0);
      done := Some(0);
      reward := Some(0);
      sim.commands := sim.commands + [LoadMjcf(modelXml, LoadFlags(selfCollision))];
      var ps, js, ordered, root := AddToScene(sim, loaded);
      parts, jdict, orderedJoints, robotBody := Some(ps), Some(js), Some(ordered), root;
      potential := Some(CalcPotential());
    }
  }

  /** After a reset, ordered_joints holds exactly the joints of the model just loaded, in walk order,
      whatever it held before; parts and the joint dict keep earlier names and gain the new ones. */
  lemma ResetOrderedJointsAreFresh(loaded: seq<Body>, robotName: string,
                                   parts: Option<map<string, BodyPart>>, jdict: Option<map<string, Joint>>,
                                   root: Option<BodyPart>)
    ensures var r := Build(loaded, robotName, Initial(parts, jdict, Some([]), root));
      && r.ordered == ActuatedJoints(Encounters(loaded))
      && r.commands == DisableCommands(ActuatedJoints(Encounters(loaded)))
      && parts.GetOr(map[]).Keys <= r.parts.Keys
      && r.joints.Keys == jdict.GetOr(map[]).Keys + JointNames(Encounters(loaded))
  {
    var s := Initial(parts, jdict, Some([]), root);
    RunAppendsActuatedJoints(robotName, s, Encounters(loaded));
    RunNames(robotName, s, Encounters(loaded));
  }
}
