/**
 The scene graph that addToScene builds, as a specification: the walk over the loaded bodies is a
 sequence of encounters (a jointless body, or one joint of a body, in body-major then joint-index
 order), each encounter is one step on the registries, and the lemmas say what the registries
 hold after the walk.
 */
module SceneGraph {
  import opened Engine
  import opened BodyParts
  import opened Joints

  /** Python's `name[:n]`: the first n characters, or the whole name when it is shorter. */
  function Head(name: string, n: nat): string {
    if |name| <= n then name else name[..n]
  }

  /** The builder's prefix test `name[:len(prefix)] == prefix`, which is exactly "starts with". */
  function HasPrefix(name: string, prefix: string): (b: bool)
    ensures b <==> prefix <= name
  {
    Head(name, |prefix|) == prefix
  }

  /** Joints named jointfix* are welds: they never become registered joints. */
  predicate IsWeld(jointName: string) {
    HasPrefix(jointName, "jointfix")
  }

  /** The loop's own spelling of the two name tests: slices of length 8 and 6. */
  lemma NameTestsBySlice(jointName: string)
    ensures Head(jointName, 8) == "jointfix" <==> IsWeld(jointName)
    ensures Head(jointName, 6) == "ignore" <==> IsIgnored(jointName)
  {
  }

  /** Joints named ignore* are registered with their motor off and no power coefficient. */
  predicate IsIgnored(jointName: string) {
    HasPrefix(jointName, "ignore")
  }

  /** One step of the walk: a body without joints, or joint `jointIndex` of a body. */
  datatype Encounter =
    | BaseOf(bodyIndex: nat, handle: int, name: string)
    | JointOf(bodyIndex: nat, handle: int, jointIndex: nat, info: JointInfo)

  function BodyEncounters(i: nat, b: Body): seq<Encounter> {
    if |b.joints| == 0 then [BaseOf(i, b.handle, b.baseName)]
    else seq(|b.joints|, j requires 0 <= j < |b.joints| => JointOf(i, b.handle, j, b.joints[j]))
  }

  /** The inner loop's walk grows by one joint encounter per pass. */
  lemma BodyEncountersGrow(i: nat, b: Body, j: nat)
    requires j < |b.joints|
    ensures BodyEncounters(i, b)[..j + 1] == BodyEncounters(i, b)[..j] + [JointOf(i, b.handle, j, b.joints[j])]
  {
    assert BodyEncounters(i, b)[j] == JointOf(i, b.handle, j, b.joints[j]);
  }

  /** The walk over all loaded bodies, in the order addToScene's two loops visit them. */
  function Encounters(bodies: seq<Body>): seq<Encounter>
    decreases |bodies|
  {
    if bodies == [] then []
    else
      var n := |bodies| - 1;
      Encounters(bodies[..n]) + BodyEncounters(n, bodies[n])
  }

  /** The outer loop's walk grows by one body's encounters per pass. */
  lemma EncountersGrow(bodies: seq<Body>, i: nat)
    requires i < |bodies|
    ensures Encounters(bodies[..i + 1]) == Encounters(bodies[..i]) + BodyEncounters(i, bodies[i])
  {
    assert bodies[..i + 1][..i] == bodies[..i];
  }

  /** What addToScene returns: parts, joints, ordered joints and the robot body; plus the motor
      commands the walk sends to the engine. */
  datatype Registries = Registries(
    parts: map<string, BodyPart>,
    joints: map<string, Joint>,
    ordered: seq<Joint>,
    root: Option<BodyPart>,
    commands: seq<Command>)

  /** The registries addToScene starts from: the environment's own when they are set, else empty. */
  function Initial(parts: Option<map<string, BodyPart>>, joints: Option<map<string, Joint>>,
                   ordered: Option<seq<Joint>>, root: Option<BodyPart>): (s: Registries)
    ensures parts.Some? ==> s.parts == parts.value
    ensures parts.None? ==> s.parts == map[]
    ensures joints.Some? ==> s.joints == joints.value
    ensures joints.None? ==> s.joints == map[]
    ensures ordered.Some? ==> s.ordered == ordered.value
    ensures ordered.None? ==> s.ordered == []
    ensures s.root == root && s.commands == []
  {
    Registries(parts.GetOr(map[]), joints.GetOr(map[]), ordered.GetOr([]), root, [])
  }

  /** The part name an encounter writes into `parts`. */
  function PartName(e: Encounter): string {
    match e
    case BaseOf(_, _, name) => name
    case JointOf(_, _, _, info) => info.partName
  }

  /** The part an encounter writes: the base frame of a jointless body, the link of a joint. */
  function PartOf(e: Encounter): BodyPart {
    match e
    case BaseOf(i, h, _) => BodyPart(h, i, -1)
    case JointOf(i, h, j, _) => BodyPart(h, i, j)
  }

  predicate MatchesRoot(e: Encounter, robotName: string) {
    e.JointOf? && e.info.partName == robotName
  }

  predicate IsFirstJoint(e: Encounter) {
    e.JointOf? && e.bodyIndex == 0 && e.jointIndex == 0
  }

  /** An encounter that registers a joint: a joint that is not a weld. */
  predicate Actuates(e: Encounter) {
    e.JointOf? && !IsWeld(e.info.jointName)
  }

  /** The joint a registering encounter leaves in the registries, after the power policy. */
  function ActuatedJoint(e: Encounter): (jt: Joint)
    requires e.JointOf?
    ensures jt.name == e.info.jointName && jt.body == e.handle
    ensures jt.bodyIndex == e.bodyIndex && jt.jointIndex == e.jointIndex
  {
    var jt := NewJoint(e.info.jointName, e.handle, e.bodyIndex, e.jointIndex, e.info);
    if IsIgnored(jt.name) then jt else jt.(powerCoef := Some(100.0))
  }

  /** The first half of a joint's pass: record its link as a part, take it as the robot body when
      the link has the robot's name, and fall back to body 0's base frame at the first joint when
      no robot body is known yet. */
  function PlaceJointPart(robotName: string, s: Registries, e: Encounter): Registries
    requires e.JointOf?
  {
    var parts1 := s.parts[e.info.partName := PartOf(e)];
    var root1 := if e.info.partName == robotName then Some(PartOf(e)) else s.root;
    var fallback := e.bodyIndex == 0 && e.jointIndex == 0 && root1.None?;
    var parts2 := if fallback then parts1[robotName := BodyPart(e.handle, 0, -1)] else parts1;
    var root2 := if fallback then Some(BodyPart(e.handle, 0, -1)) else root1;
    s.(parts := parts2, root := root2)
  }

  /** The second half, for a joint that is not a weld: register it by name and in order, and
      switch its motor off when it is an ignore* joint. */
  function RegisterJoint(s: Registries, e: Encounter): Registries
    requires e.JointOf?
  {
    var jt := ActuatedJoint(e);
    s.(joints := s.joints[e.info.jointName := jt], ordered := s.ordered + [jt],
       commands := if IsIgnored(e.info.jointName) then s.commands + [DisableMotorCommand(jt)] else s.commands)
  }

  /** RegisterJoint spelt out the way addToScene performs it: the created joint is stored, then, for a
      joint that is not ignore*, its power coefficient is set on the stored copies. */
  lemma RegisterJointSteps(s: Registries, e: Encounter)
    requires e.JointOf?
    ensures var created := NewJoint(e.info.jointName, e.handle, e.bodyIndex, e.jointIndex, e.info);
      var powered := created.(powerCoef := Some(100.0));
      RegisterJoint(s, e) ==
        if IsIgnored(e.info.jointName) then
          s.(joints := s.joints[e.info.jointName := created], ordered := s.ordered + [created],
             commands := s.commands + [DisableMotorCommand(created)])
        else
          s.(joints := s.joints[e.info.jointName := created][e.info.jointName := powered],
             ordered := (s.ordered + [created])[|s.ordered| := powered])
  {
    var created := NewJoint(e.info.jointName, e.handle, e.bodyIndex, e.jointIndex, e.info);
    var powered := created.(powerCoef := Some(100.0));
    assert (s.ordered + [created])[|s.ordered| := powered] == s.ordered + [powered];
    assert s.joints[e.info.jointName := created][e.info.jointName := powered] == s.joints[e.info.jointName := powered];
  }

  /** One pass of addToScene's loop body. */
  function Step(robotName: string, s: Registries, e: Encounter): Registries {
    match e
    case BaseOf(_, _, name) =>
      s.(parts := s.parts[name := PartOf(e)])
    case JointOf(_, _, _, info) =>
      var placed := PlaceJointPart(robotName, s, e);
      if IsWeld(info.jointName) then placed else RegisterJoint(placed, e)
  }

  function Run(robotName: string, s: Registries, es: seq<Encounter>): Registries
    decreases |es|
  {
    if es == [] then s
    else Step(robotName, Run(robotName, s, es[..|es| - 1]), es[|es| - 1])
  }

  /** addToScene(bodies) started from registries s. */
  function Build(bodies: seq<Body>, robotName: string, s: Registries): Registries {
    Run(robotName, s, Encounters(bodies))
  }

  lemma RunSnoc(robotName: string, s: Registries, es: seq<Encounter>, e: Encounter)
    ensures Run(robotName, s, es + [e]) == Step(robotName, Run(robotName, s, es), e)
  {
    assert (es + [e])[..|es|] == es;
  }

  /** Walking a + b is walking a, then walking b from where a left off. */
  lemma {:induction false} RunConcat(robotName: string, s: Registries, a: seq<Encounter>, b: seq<Encounter>)
    ensures Run(robotName, s, a + b) == Run(robotName, Run(robotName, s, a), b)
    decreases |b|
  {
    if b == [] {
      assert a + b == a;
    } else {
      var n := |b| - 1;
      RunConcat(robotName, s, a, b[..n]);
      assert a + b == (a + b[..n]) + [b[n]];
      assert b == b[..n] + [b[n]];
      RunSnoc(robotName, s, a + b[..n], b[n]);
      RunSnoc(robotName, Run(robotName, s, a), b[..n], b[n]);
    }
  }

  // ---------------------------------------------------------------------------------------------
  // The walk's order

  /** Lexicographic order on (body index, link index). */
  predicate Precedes(i1: int, j1: int, i2: int, j2: int) {
    i1 < i2 || (i1 == i2 && j1 < j2)
  }

  /** An encounter's position in the walk: (body index, joint index), -1 for a jointless body. */
  function LinkOf(e: Encounter): int {
    if e.BaseOf? then -1 else e.jointIndex
  }

  /** Encounters in strictly increasing (body, link) order. */
  predicate InWalkOrder(es: seq<Encounter>) {
    forall k1, k2 :: 0 <= k1 < k2 < |es| ==>
      Precedes(es[k1].bodyIndex, LinkOf(es[k1]), es[k2].bodyIndex, LinkOf(es[k2]))
  }

  /** Joints in strictly increasing (body, joint) order. */
  predicate InJointOrder(js: seq<Joint>) {
    forall k1, k2 :: 0 <= k1 < k2 < |js| ==>
      Precedes(js[k1].bodyIndex, js[k1].jointIndex, js[k2].bodyIndex, js[k2].jointIndex)
  }

  /** The encounter describes body i of `bodies` faithfully. */
  predicate DescribesBody(bodies: seq<Body>, e: Encounter) {
    && e.bodyIndex < |bodies|
    && e.handle == bodies[e.bodyIndex].handle
    && match e
       case BaseOf(i, _, name) => |bodies[i].joints| == 0 && name == bodies[i].baseName
       case JointOf(i, _, j, info) => j < |bodies[i].joints| && info == bodies[i].joints[j]
  }

  lemma {:induction false} EncountersDescribeBodies(bodies: seq<Body>)
    ensures forall e :: e in Encounters(bodies) ==> DescribesBody(bodies, e)
    decreases |bodies|
  {
    if bodies != [] {
      var n := |bodies| - 1;
      EncountersDescribeBodies(bodies[..n]);
      forall e | e in Encounters(bodies) ensures DescribesBody(bodies, e) {
        if e in Encounters(bodies[..n]) {
          assert DescribesBody(bodies[..n], e);
        } else {
          assert e in BodyEncounters(n, bodies[n]);
        }
      }
    }
  }

  /** Encounters come in strictly increasing (body index, joint index) order. */
  lemma {:induction false} EncountersAreOrdered(bodies: seq<Body>)
    ensures InWalkOrder(Encounters(bodies))
    decreases |bodies|
  {
    if bodies != [] {
      var n := |bodies| - 1;
      var prefix := Encounters(bodies[..n]);
      var last := BodyEncounters(n, bodies[n]);
      EncountersAreOrdered(bodies[..n]);
      EncountersDescribeBodies(bodies[..n]);
      var es := Encounters(bodies);
      assert es == prefix + last;
      forall k1, k2 | 0 <= k1 < k2 < |es|
        ensures Precedes(es[k1].bodyIndex, LinkOf(es[k1]), es[k2].bodyIndex, LinkOf(es[k2]))
      {
        if k2 < |prefix| {
          assert es[k1] == prefix[k1] && es[k2] == prefix[k2];
        } else if k1 < |prefix| {
          assert es[k1] in prefix;
          assert DescribesBody(bodies[..n], es[k1]);
          assert es[k2] == last[k2 - |prefix|];
        } else {
          assert es[k1] == last[k1 - |prefix|] && es[k2] == last[k2 - |prefix|];
        }
      }
    }
  }

  /** Every joint of every body is encountered. */
  lemma {:induction false} JointEncountered(bodies: seq<Body>, i: nat, j: nat)
    requires i < |bodies| && j < |bodies[i].joints|
    ensures JointOf(i, bodies[i].handle, j, bodies[i].joints[j]) in Encounters(bodies)
    decreases |bodies|
  {
    var n := |bodies| - 1;
    assert Encounters(bodies) == Encounters(bodies[..n]) + BodyEncounters(n, bodies[n]);
    if i < n {
      assert bodies[..n][i] == bodies[i];
      JointEncountered(bodies[..n], i, j);
    } else {
      assert BodyEncounters(n, bodies[n])[j] == JointOf(i, bodies[i].handle, j, bodies[i].joints[j]);
    }
  }

  /** Every jointless body is encountered. */
  lemma {:induction false} BaseEncountered(bodies: seq<Body>, i: nat)
    requires i < |bodies| && |bodies[i].joints| == 0
    ensures BaseOf(i, bodies[i].handle, bodies[i].baseName) in Encounters(bodies)
    decreases |bodies|
  {
    var n := |bodies| - 1;
    assert Encounters(bodies) == Encounters(bodies[..n]) + BodyEncounters(n, bodies[n]);
    if i < n {
      assert bodies[..n][i] == bodies[i];
      BaseEncountered(bodies[..n], i);
    } else {
      assert BodyEncounters(n, bodies[n])[0] == BaseOf(i, bodies[i].handle, bodies[i].baseName);
    }
  }

  /** The walk starts with body 0. */
  lemma {:induction false} EncountersStartWithBodyZero(bodies: seq<Body>)
    requires |bodies| > 0
    ensures BodyEncounters(0, bodies[0]) <= Encounters(bodies)
    decreases |bodies|
  {
    var n := |bodies| - 1;
    if n == 0 {
      assert Encounters(bodies) == Encounters(bodies[..0]) + BodyEncounters(0, bodies[0]);
      assert bodies[..0] == [];
    } else {
      EncountersStartWithBodyZero(bodies[..n]);
      assert bodies[..n][0] == bodies[0];
    }
  }

  // ---------------------------------------------------------------------------------------------
  // ordered_joints and the joint policy

  /** The joints the walk registers, in encounter order: a reference definition, by the front. */
  function ActuatedJoints(es: seq<Encounter>): seq<Joint> {
    if es == [] then []
    else (if Actuates(es[0]) then [ActuatedJoint(es[0])] else []) + ActuatedJoints(es[1..])
  }

  /** The disable_motor commands for a sequence of registered joints: one per ignored joint. */
  function DisableCommands(js: seq<Joint>): seq<Command> {
    if js == [] then []
    else (if IsIgnored(js[0].name) then [DisableMotorCommand(js[0])] else []) + DisableCommands(js[1..])
  }

  lemma {:induction false} ActuatedJointsAppend(a: seq<Encounter>, b: seq<Encounter>)
    ensures ActuatedJoints(a + b) == ActuatedJoints(a) + ActuatedJoints(b)
    decreases |a|
  {
    if a != [] {
      assert (a + b)[1..] == a[1..] + b;
      ActuatedJointsAppend(a[1..], b);
    } else {
      assert a + b == b;
    }
  }

  lemma {:induction false} DisableCommandsAppend(a: seq<Joint>, b: seq<Joint>)
    ensures DisableCommands(a + b) == DisableCommands(a) + DisableCommands(b)
    decreases |a|
  {
    if a != [] {
      assert (a + b)[1..] == a[1..] + b;
      DisableCommandsAppend(a[1..], b);
    } else {
      assert a + b == b;
    }
  }

  lemma StepAppendsActuatedJoint(robotName: string, s: Registries, e: Encounter)
    ensures Step(robotName, s, e).ordered == s.ordered + ActuatedJoints([e])
    ensures Step(robotName, s, e).commands == s.commands + DisableCommands(ActuatedJoints([e]))
  {
    assert ActuatedJoints([e]) == (if Actuates(e) then [ActuatedJoint(e)] else []) + ActuatedJoints([]);
    if Actuates(e) {
      var jt := ActuatedJoint(e);
      assert DisableCommands([jt]) == (if IsIgnored(jt.name) then [DisableMotorCommand(jt)] else []) + DisableCommands([]);
    }
  }

  /** The walk appends to ordered_joints exactly the registered joints, in encounter order, and
      sends disable_motor for exactly the ignored ones among them, in the same order. */
  lemma {:induction false} RunAppendsActuatedJoints(robotName: string, s: Registries, es: seq<Encounter>)
    ensures Run(robotName, s, es).ordered == s.ordered + ActuatedJoints(es)
    ensures Run(robotName, s, es).commands == s.commands + DisableCommands(ActuatedJoints(es))
    decreases |es|
  {
    if es != [] {
      var n := |es| - 1;
      RunAppendsActuatedJoints(robotName, s, es[..n]);
      StepAppendsActuatedJoint(robotName, Run(robotName, s, es[..n]), es[n]);
      assert es[..n] + [es[n]] == es;
      ActuatedJointsAppend(es[..n], [es[n]]);
      DisableCommandsAppend(ActuatedJoints(es[..n]), ActuatedJoints([es[n]]));
    }
  }

  /** Every registered joint is a non-weld joint met in the walk, built with the power policy:
      no power coefficient for ignore*, 100.0 for every other; power_coeff stays 0. */
  lemma {:induction false} ActuatedJointsFollowPolicy(es: seq<Encounter>)
    ensures forall jt :: jt in ActuatedJoints(es) ==>
      exists e :: e in es && Actuates(e) && jt == ActuatedJoint(e)
    ensures forall jt :: jt in ActuatedJoints(es) ==>
      && !IsWeld(jt.name)
      && jt.powerCoeff == 0
      && jt.powerCoef == (if IsIgnored(jt.name) then None else Some(100.0))
    decreases |es|
  {
    if es != [] {
      ActuatedJointsFollowPolicy(es[1..]);
      forall jt | jt in ActuatedJoints(es)
        ensures exists e :: e in es && Actuates(e) && jt == ActuatedJoint(e)
      {
        if jt !in ActuatedJoints(es[1..]) {
          assert Actuates(es[0]) && jt == ActuatedJoint(es[0]);
        } else {
          var e :| e in es[1..] && Actuates(e) && jt == ActuatedJoint(e);
          assert e in es;
        }
      }
    }
  }

  /** Every non-weld joint met in the walk is registered. */
  lemma {:induction false} ActuatedJointsComplete(es: seq<Encounter>)
    ensures forall e :: e in es && Actuates(e) ==> ActuatedJoint(e) in ActuatedJoints(es)
    decreases |es|
  {
    if es != [] {
      ActuatedJointsComplete(es[1..]);
      forall e | e in es && Actuates(e) ensures ActuatedJoint(e) in ActuatedJoints(es) {
        if e != es[0] {
          assert e in es[1..];
        }
      }
    }
  }

  /** Each registered joint comes from a non-weld joint at some position of the walk. */
  lemma {:induction false} ActuatedJointSource(es: seq<Encounter>, k: nat) returns (m: nat)
    requires k < |ActuatedJoints(es)|
    ensures m < |es| && Actuates(es[m]) && ActuatedJoints(es)[k] == ActuatedJoint(es[m])
    decreases |es|
  {
    var rest := es[1..];
    var js := ActuatedJoints(es);
    if Actuates(es[0]) && k == 0 {
      m := 0;
    } else {
      var k' := if Actuates(es[0]) then k - 1 else k;
      assert js[k] == ActuatedJoints(rest)[k'];
      var m' := ActuatedJointSource(rest, k');
      assert rest[m'] == es[m' + 1];
      m := m' + 1;
    }
  }

  /** Registered joints keep the walk's strict (body, joint) order. */
  lemma {:induction false} ActuatedJointsOrdered(es: seq<Encounter>)
    requires InWalkOrder(es)
    ensures InJointOrder(ActuatedJoints(es))
    decreases |es|
  {
    if es != [] {
      var rest := es[1..];
      assert InWalkOrder(rest) by {
        forall k1, k2 | 0 <= k1 < k2 < |rest|
          ensures Precedes(rest[k1].bodyIndex, LinkOf(rest[k1]), rest[k2].bodyIndex, LinkOf(rest[k2]))
        {
          assert rest[k1] == es[k1 + 1] && rest[k2] == es[k2 + 1];
        }
      }
      ActuatedJointsOrdered(rest);
      var js := ActuatedJoints(es);
      var tail := ActuatedJoints(rest);
      if Actuates(es[0]) {
        assert js == [ActuatedJoint(es[0])] + tail;
        forall k1, k2 | 0 <= k1 < k2 < |js|
          ensures Precedes(js[k1].bodyIndex, js[k1].jointIndex, js[k2].bodyIndex, js[k2].jointIndex)
        {
          assert js[k2] == tail[k2 - 1];
          if k1 == 0 {
            var m := ActuatedJointSource(rest, k2 - 1);
            assert rest[m] == es[m + 1];
          } else {
            assert js[k1] == tail[k1 - 1];
          }
        }
      } else {
        assert js == tail;
      }
    }
  }

  /**
   ordered_joints after addToScene: the joints it held, followed by one joint per non-weld joint
   of the loaded bodies, each built from that joint's own data, in strictly increasing
   (body, joint) order, with every non-weld joint of every body among them; the commands sent are
   one disable_motor per ignored joint among them.
   */
  lemma BuildOrderedJoints(bodies: seq<Body>, robotName: string, s: Registries)
    ensures var r := Build(bodies, robotName, s);
      && r.ordered == s.ordered + ActuatedJoints(Encounters(bodies))
      && r.commands == s.commands + DisableCommands(ActuatedJoints(Encounters(bodies)))
    ensures var js := ActuatedJoints(Encounters(bodies));
      forall jt :: jt in js ==>
        && jt.bodyIndex < |bodies|
        && jt.jointIndex < |bodies[jt.bodyIndex].joints|
        && jt == ActuatedJoint(JointOf(jt.bodyIndex, bodies[jt.bodyIndex].handle, jt.jointIndex,
                                       bodies[jt.bodyIndex].joints[jt.jointIndex]))
    ensures InJointOrder(ActuatedJoints(Encounters(bodies)))
    ensures var js := ActuatedJoints(Encounters(bodies));
      forall i, j :: 0 <= i < |bodies| && 0 <= j < |bodies[i].joints| && !IsWeld(bodies[i].joints[j].jointName) ==>
        ActuatedJoint(JointOf(i, bodies[i].handle, j, bodies[i].joints[j])) in js
  {
    var es := Encounters(bodies);
    var js := ActuatedJoints(es);
    RunAppendsActuatedJoints(robotName, s, es);
    EncountersDescribeBodies(bodies);
    EncountersAreOrdered(bodies);
    ActuatedJointsFollowPolicy(es);
    ActuatedJointsComplete(es);
    ActuatedJointsOrdered(es);
    forall i, j | 0 <= i < |bodies| && 0 <= j < |bodies[i].joints| && !IsWeld(bodies[i].joints[j].jointName)
      ensures ActuatedJoint(JointOf(i, bodies[i].handle, j, bodies[i].joints[j])) in js
    {
      JointEncountered(bodies, i, j);
    }
    forall jt | jt in js
      ensures && jt.bodyIndex < |bodies|
              && jt.jointIndex < |bodies[jt.bodyIndex].joints|
              && jt == ActuatedJoint(JointOf(jt.bodyIndex, bodies[jt.bodyIndex].handle, jt.jointIndex,
                                             bodies[jt.bodyIndex].joints[jt.jointIndex]))
    {
      var e :| e in es && Actuates(e) && jt == ActuatedJoint(e);
      assert DescribesBody(bodies, e);
    }
  }

  // ---------------------------------------------------------------------------------------------
  // parts and joints: last write wins

  /** What one step does to `parts`: the encounter's own part, then the fallback root part. */
  lemma StepParts(robotName: string, s: Registries, e: Encounter)
    ensures var p1 := s.parts[PartName(e) := PartOf(e)];
      Step(robotName, s, e).parts ==
        if IsFirstJoint(e) && !MatchesRoot(e, robotName) && s.root.None?
        then p1[robotName := BodyPart(e.handle, 0, -1)] else p1
  {
  }

  /** What one step does to `joints`. */
  lemma StepJoints(robotName: string, s: Registries, e: Encounter)
    ensures Step(robotName, s, e).joints ==
      if Actuates(e) then s.joints[e.info.jointName := ActuatedJoint(e)] else s.joints
  {
  }

  /** What one step does to the robot body: a match takes it, else the fallback sets it once. */
  lemma StepRoot(robotName: string, s: Registries, e: Encounter)
    ensures Step(robotName, s, e).root ==
      if MatchesRoot(e, robotName) then Some(PartOf(e))
      else if IsFirstJoint(e) && s.root.None? then Some(BodyPart(e.handle, 0, -1))
      else s.root
  {
  }

  /** parts[name] is the part of the last encounter that writes it. For the robot name this needs
      the fallback not to fire after that encounter, which holds in every walk over loaded bodies,
      where the first joint of body 0 comes first. */
  lemma {:induction false} PartsLastWriteWins(robotName: string, s: Registries, es: seq<Encounter>, name: string, k: nat)
    requires k < |es| && PartName(es[k]) == name
    requires forall m :: k < m < |es| ==> PartName(es[m]) != name
    requires name != robotName || forall m :: k < m < |es| ==> !IsFirstJoint(es[m])
    ensures name in Run(robotName, s, es).parts && Run(robotName, s, es).parts[name] == PartOf(es[k])
    decreases |es|
  {
    var n := |es| - 1;
    StepParts(robotName, Run(robotName, s, es[..n]), es[n]);
    if k < n {
      PartsLastWriteWins(robotName, s, es[..n], name, k);
    }
  }

  /** A name no encounter writes keeps its entry, or its absence. The robot name is written also by
      the fallback, so for it the robot body must already be set or no first joint of body 0 come. */
  lemma {:induction false} PartsUntouched(robotName: string, s: Registries, es: seq<Encounter>, name: string)
    requires forall m :: 0 <= m < |es| ==> PartName(es[m]) != name
    requires name != robotName || s.root.Some? || forall m :: 0 <= m < |es| ==> !IsFirstJoint(es[m])
    ensures name in Run(robotName, s, es).parts <==> name in s.parts
    ensures name in s.parts ==> Run(robotName, s, es).parts[name] == s.parts[name]
    decreases |es|
  {
    if es != [] {
      var n := |es| - 1;
      RunNames(robotName, s, es[..n]);
      StepParts(robotName, Run(robotName, s, es[..n]), es[n]);
      PartsUntouched(robotName, s, es[..n], name);
    }
  }

  predicate RegistersJointNamed(e: Encounter, name: string) {
    Actuates(e) && e.info.jointName == name
  }

  /** joints[name] is the joint of the last non-weld encounter with that joint name. */
  lemma {:induction false} JointsLastWriteWins(robotName: string, s: Registries, es: seq<Encounter>, name: string, k: nat)
    requires k < |es| && RegistersJointNamed(es[k], name)
    requires forall m :: k < m < |es| ==> !RegistersJointNamed(es[m], name)
    ensures name in Run(robotName, s, es).joints && Run(robotName, s, es).joints[name] == ActuatedJoint(es[k])
    decreases |es|
  {
    var n := |es| - 1;
    StepJoints(robotName, Run(robotName, s, es[..n]), es[n]);
    if k < n {
      JointsLastWriteWins(robotName, s, es[..n], name, k);
    }
  }

  /** A joint name no non-weld encounter carries keeps its entry, or its absence. */
  lemma {:induction false} JointsUntouched(robotName: string, s: Registries, es: seq<Encounter>, name: string)
    requires forall m :: 0 <= m < |es| ==> !RegistersJointNamed(es[m], name)
    ensures name in Run(robotName, s, es).joints <==> name in s.joints
    ensures name in s.joints ==> Run(robotName, s, es).joints[name] == s.joints[name]
    decreases |es|
  {
    if es != [] {
      var n := |es| - 1;
      StepJoints(robotName, Run(robotName, s, es[..n]), es[n]);
      JointsUntouched(robotName, s, es[..n], name);
    }
  }

  // ---------------------------------------------------------------------------------------------
  // The robot body

  /** The last joint whose part carries the robot name decides the robot body. */
  lemma {:induction false} RootLastMatch(robotName: string, s: Registries, es: seq<Encounter>, k: nat)
    requires k < |es| && MatchesRoot(es[k], robotName)
    requires forall m :: k < m < |es| ==> !MatchesRoot(es[m], robotName)
    ensures Run(robotName, s, es).root == Some(PartOf(es[k]))
    decreases |es|
  {
    var n := |es| - 1;
    StepRoot(robotName, Run(robotName, s, es[..n]), es[n]);
    if k < n {
      RootLastMatch(robotName, s, es[..n], k);
    }
  }

  /** Without a match, the robot body changes only through the fallback, which needs an unset
      robot body and the first joint of body 0. */
  lemma {:induction false} RootUnchanged(robotName: string, s: Registries, es: seq<Encounter>)
    requires forall m :: 0 <= m < |es| ==> !MatchesRoot(es[m], robotName)
    requires s.root.Some? || forall m :: 0 <= m < |es| ==> !IsFirstJoint(es[m])
    ensures Run(robotName, s, es).root == s.root
    decreases |es|
  {
    if es != [] {
      var n := |es| - 1;
      RootUnchanged(robotName, s, es[..n]);
      StepRoot(robotName, Run(robotName, s, es[..n]), es[n]);
    }
  }

  /** Without a match, an unset robot body is set by the first joint of body 0 to that body's base
      frame, stored under the robot name unless a later encounter writes that name. */
  lemma {:induction false} RootFallback(robotName: string, s: Registries, es: seq<Encounter>, k: nat)
    requires forall m :: 0 <= m < |es| ==> !MatchesRoot(es[m], robotName)
    requires s.root.None? && k < |es| && IsFirstJoint(es[k])
    requires forall m :: 0 <= m < k ==> !IsFirstJoint(es[m])
    ensures Run(robotName, s, es).root == Some(BodyPart(es[k].handle, 0, -1))
    ensures (forall m :: k < m < |es| ==> PartName(es[m]) != robotName) ==>
      robotName in Run(robotName, s, es).parts &&
      Run(robotName, s, es).parts[robotName] == BodyPart(es[k].handle, 0, -1)
    decreases |es|
  {
    var n := |es| - 1;
    var before := Run(robotName, s, es[..n]);
    StepRoot(robotName, before, es[n]);
    StepParts(robotName, before, es[n]);
    if k < n {
      RootFallback(robotName, s, es[..n], k);
    } else {
      RootUnchanged(robotName, s, es[..n]);
    }
  }

  // ---------------------------------------------------------------------------------------------
  // The same properties over the loaded bodies

  /** (i, j) writes `name` into parts: jointless body i (j = -1) with that base name, or joint j
      of body i whose child link has that name. */
  predicate WritesPart(bodies: seq<Body>, i: int, j: int, name: string) {
    && 0 <= i < |bodies|
    && ((j == -1 && |bodies[i].joints| == 0 && bodies[i].baseName == name) ||
        (0 <= j < |bodies[i].joints| && bodies[i].joints[j].partName == name))
  }

  /** Joint j of body i is a registered joint named `name`. */
  predicate RegistersJoint(bodies: seq<Body>, i: int, j: int, name: string) {
    && 0 <= i < |bodies| && 0 <= j < |bodies[i].joints|
    && bodies[i].joints[j].jointName == name && !IsWeld(name)
  }

  /** Joint j of body i has a child link carrying `name`. */
  predicate JointPartIs(bodies: seq<Body>, i: int, j: int, name: string) {
    0 <= i < |bodies| && 0 <= j < |bodies[i].joints| && bodies[i].joints[j].partName == name
  }

  /** The position in the walk of the encounter for (i, j). */
  lemma EncounterAt(bodies: seq<Body>, i: nat, j: int) returns (k: nat)
    requires i < |bodies|
    requires (j == -1 && |bodies[i].joints| == 0) || (0 <= j < |bodies[i].joints|)
    ensures k < |Encounters(bodies)|
    ensures var e := Encounters(bodies)[k];
      && e.bodyIndex == i && LinkOf(e) == j && e.handle == bodies[i].handle
      && (j == -1 ==> e == BaseOf(i, bodies[i].handle, bodies[i].baseName))
      && (j != -1 ==> e == JointOf(i, bodies[i].handle, j, bodies[i].joints[j]))
  {
    var es := Encounters(bodies);
    if j == -1 {
      BaseEncountered(bodies, i);
      k :| 0 <= k < |es| && es[k] == BaseOf(i, bodies[i].handle, bodies[i].baseName);
    } else {
      JointEncountered(bodies, i, j);
      k :| 0 <= k < |es| && es[k] == JointOf(i, bodies[i].handle, j, bodies[i].joints[j]);
    }
  }

  /**
   parts after addToScene, for any name, the robot name included: the BodyPart of the last (in
   walk order) jointless body or joint that writes the name, addressed by that body and link. The
   fallback cannot overwrite it, since body 0's first joint comes no later than any writer.
   */
  lemma BuildPartsLastWriteWins(bodies: seq<Body>, robotName: string, s: Registries, name: string, i: nat, j: int)
    requires WritesPart(bodies, i, j, name)
    requires forall i2, j2 :: WritesPart(bodies, i2, j2, name) ==> !Precedes(i, j, i2, j2)
    ensures var r := Build(bodies, robotName, s);
      name in r.parts && r.parts[name] == BodyPart(bodies[i].handle, i, j)
  {
    var es := Encounters(bodies);
    var k := EncounterAt(bodies, i, j);
    EncountersDescribeBodies(bodies);
    EncountersAreOrdered(bodies);
    forall m | k < m < |es| ensures PartName(es[m]) != name && !IsFirstJoint(es[m]) {
      var e := es[m];
      assert e in es;
      assert DescribesBody(bodies, e);
      assert Precedes(i, j, e.bodyIndex, LinkOf(e));
      assert PartName(e) == name ==> WritesPart(bodies, e.bodyIndex, LinkOf(e), name);
    }
    PartsLastWriteWins(robotName, s, es, name, k);
  }

  /** A name no body or joint writes keeps the entry it had. For the robot name this holds whenever
      the fallback cannot fire: the robot body is already set (every reset after one that set it),
      or body 0 is missing or has no joints. */
  lemma BuildPartsUntouched(bodies: seq<Body>, robotName: string, s: Registries, name: string)
    requires forall i, j :: !WritesPart(bodies, i, j, name)
    requires name != robotName || s.root.Some? || |bodies| == 0 || |bodies[0].joints| == 0
    ensures var r := Build(bodies, robotName, s);
      && (name in r.parts <==> name in s.parts)
      && (name in s.parts ==> r.parts[name] == s.parts[name])
  {
    var es := Encounters(bodies);
    EncountersDescribeBodies(bodies);
    forall m | 0 <= m < |es| ensures PartName(es[m]) != name && (|bodies[0].joints| == 0 ==> !IsFirstJoint(es[m])) {
      assert es[m] in es;
      assert DescribesBody(bodies, es[m]);
      assert !WritesPart(bodies, es[m].bodyIndex, LinkOf(es[m]), name);
    }
    PartsUntouched(robotName, s, es, name);
  }

  /** joints after addToScene: each registered name maps to the Joint of its last joint in walk
      order, built with the power policy. */
  lemma BuildJointsLastWriteWins(bodies: seq<Body>, robotName: string, s: Registries, name: string, i: nat, j: nat)
    requires RegistersJoint(bodies, i, j, name)
    requires forall i2, j2 :: RegistersJoint(bodies, i2, j2, name) ==> !Precedes(i, j, i2, j2)
    ensures var r := Build(bodies, robotName, s);
      && name in r.joints
      && r.joints[name] == ActuatedJoint(JointOf(i, bodies[i].handle, j, bodies[i].joints[j]))
      && r.joints[name].powerCoef == (if IsIgnored(name) then None else Some(100.0))
  {
    var es := Encounters(bodies);
    var k := EncounterAt(bodies, i, j);
    EncountersDescribeBodies(bodies);
    EncountersAreOrdered(bodies);
    forall m | k < m < |es| ensures !RegistersJointNamed(es[m], name) {
      assert es[m] in es;
      var e := es[m];
      assert DescribesBody(bodies, e);
      assert Precedes(i, j, e.bodyIndex, LinkOf(e));
      assert RegistersJointNamed(e, name) ==> RegistersJoint(bodies, e.bodyIndex, LinkOf(e), name);
    }
    JointsLastWriteWins(robotName, s, es, name, k);
  }

  /** A name no registered joint carries keeps the entry it had in joints; in particular a
      jointfix* name never enters it. */
  lemma BuildJointsUntouched(bodies: seq<Body>, robotName: string, s: Registries, name: string)
    requires IsWeld(name) || forall i, j :: !RegistersJoint(bodies, i, j, name)
    ensures var r := Build(bodies, robotName, s);
      && (name in r.joints <==> name in s.joints)
      && (name in s.joints ==> r.joints[name] == s.joints[name])
  {
    var es := Encounters(bodies);
    EncountersDescribeBodies(bodies);
    forall m | 0 <= m < |es| ensures !RegistersJointNamed(es[m], name) {
      assert es[m] in es;
      assert DescribesBody(bodies, es[m]);
      if es[m].JointOf? {
        assert !RegistersJoint(bodies, es[m].bodyIndex, es[m].jointIndex, name);
      }
    }
    JointsUntouched(robotName, s, es, name);
  }

  /** The robot body after addToScene, when some joint's child link carries the robot name: the
      part of the last such joint, wherever it is in the walk. */
  lemma BuildRootMatched(bodies: seq<Body>, robotName: string, s: Registries, i: nat, j: nat)
    requires JointPartIs(bodies, i, j, robotName)
    requires forall i2, j2 :: JointPartIs(bodies, i2, j2, robotName) ==> !Precedes(i, j, i2, j2)
    ensures Build(bodies, robotName, s).root == Some(BodyPart(bodies[i].handle, i, j))
  {
    var es := Encounters(bodies);
    var k := EncounterAt(bodies, i, j);
    EncountersDescribeBodies(bodies);
    EncountersAreOrdered(bodies);
    forall m | k < m < |es| ensures !MatchesRoot(es[m], robotName) {
      assert es[m] in es;
      var e := es[m];
      assert DescribesBody(bodies, e);
      assert Precedes(i, j, e.bodyIndex, LinkOf(e));
      assert MatchesRoot(e, robotName) ==> JointPartIs(bodies, e.bodyIndex, LinkOf(e), robotName);
    }
    RootLastMatch(robotName, s, es, k);
  }

  /**
   The robot body after addToScene, when no joint's child link carries the robot name: the
   fallback base frame of body 0 if the robot body was unset and body 0 has a joint; otherwise
   whatever it was before, unset included. When the fallback fires, parts holds that base frame
   under the robot name unless a jointless body with that name comes later.
   */
  lemma BuildRootUnmatched(bodies: seq<Body>, robotName: string, s: Registries)
    requires forall i, j :: !JointPartIs(bodies, i, j, robotName)
    ensures var fires := s.root.None? && |bodies| > 0 && |bodies[0].joints| > 0;
      Build(bodies, robotName, s).root ==
        if fires then Some(BodyPart(bodies[0].handle, 0, -1)) else s.root
    ensures (s.root.None? && |bodies| > 0 && |bodies[0].joints| > 0 &&
             forall i :: !WritesPart(bodies, i, -1, robotName)) ==>
        robotName in Build(bodies, robotName, s).parts &&
        Build(bodies, robotName, s).parts[robotName] == BodyPart(bodies[0].handle, 0, -1)
  {
    var es := Encounters(bodies);
    EncountersDescribeBodies(bodies);
    forall m | 0 <= m < |es| ensures !MatchesRoot(es[m], robotName) {
      assert es[m] in es;
      assert DescribesBody(bodies, es[m]);
      if es[m].JointOf? {
        assert !JointPartIs(bodies, es[m].bodyIndex, es[m].jointIndex, robotName);
      }
    }
    if s.root.None? && |bodies| > 0 && |bodies[0].joints| > 0 {
      EncountersStartWithBodyZero(bodies);
      assert es[0] == BodyEncounters(0, bodies[0])[0];
      RootFallback(robotName, s, es, 0);
      if forall i :: !WritesPart(bodies, i, -1, robotName) {
        forall m | 0 < m < |es| ensures PartName(es[m]) != robotName {
          assert es[m] in es;
          assert DescribesBody(bodies, es[m]);
          if es[m].BaseOf? {
            assert !WritesPart(bodies, es[m].bodyIndex, -1, robotName);
          }
        }
      }
    } else {
      forall m | 0 <= m < |es| && s.root.None? ensures !IsFirstJoint(es[m]) {
        assert es[m] in es;
        assert DescribesBody(bodies, es[m]);
      }
      RootUnchanged(robotName, s, es);
    }
  }

  /** A jointless first body never becomes the robot body, even when its base name is the robot
      name: the fallback lives in the joint loop, so the robot body stays unset. */
  lemma JointlessBodyNeverBecomesRoot(robotName: string, handle: int, s: Registries)
    requires s.root.None?
    ensures var r := Build([Body(handle, robotName, [])], robotName, s);
      && r.root.None?
      && r.parts == s.parts[robotName := BodyPart(handle, 0, -1)]
      && r.joints == s.joints && r.ordered == s.ordered
  {
    var bodies := [Body(handle, robotName, [])];
    var e := BaseOf(0, handle, robotName);
    EncountersGrow(bodies, 0);
    assert bodies[..1] == bodies && bodies[..0] == [];
    assert Encounters(bodies) == [] + [e];
    RunSnoc(robotName, s, [], e);
  }

  // ---------------------------------------------------------------------------------------------
  // Names across resets

  /** The part names the encounters write. */
  function PartNames(es: seq<Encounter>): set<string> {
    set k | 0 <= k < |es| :: PartName(es[k])
  }

  /** The joint names the encounters register. */
  function JointNames(es: seq<Encounter>): set<string> {
    set k | 0 <= k < |es| && Actuates(es[k]) :: es[k].info.jointName
  }

  predicate HasFirstJoint(es: seq<Encounter>) {
    exists k :: 0 <= k < |es| && IsFirstJoint(es[k])
  }

  function NamesOf(js: seq<Joint>): seq<string> {
    seq(|js|, k requires 0 <= k < |js| => js[k].name)
  }

  /** One step's effect on the keys and on whether a robot body is set. */
  lemma StepNames(robotName: string, s: Registries, e: Encounter)
    ensures s.parts.Keys + {PartName(e)} <= Step(robotName, s, e).parts.Keys
    ensures Step(robotName, s, e).parts.Keys <=
      s.parts.Keys + {PartName(e)} + (if s.root.None? && IsFirstJoint(e) then {robotName} else {})
    ensures Step(robotName, s, e).joints.Keys ==
      s.joints.Keys + (if Actuates(e) then {e.info.jointName} else {})
    ensures s.root.Some? || IsFirstJoint(e) ==> Step(robotName, s, e).root.Some?
  {
    StepParts(robotName, s, e);
    StepJoints(robotName, s, e);
    StepRoot(robotName, s, e);
  }

  lemma NamesSnoc(es: seq<Encounter>)
    requires es != []
    ensures var n := |es| - 1;
      && PartNames(es) == PartNames(es[..n]) + {PartName(es[n])}
      && JointNames(es) == JointNames(es[..n]) + (if Actuates(es[n]) then {es[n].info.jointName} else {})
      && (HasFirstJoint(es) <==> HasFirstJoint(es[..n]) || IsFirstJoint(es[n]))
  {
    var n := |es| - 1;
    var prefix := es[..n];
    assert forall k :: 0 <= k < n ==> prefix[k] == es[k];
    forall x | x in PartNames(es) ensures x in PartNames(prefix) + {PartName(es[n])} {
      var k :| 0 <= k < |es| && PartName(es[k]) == x;
      if k < n {
        assert PartName(prefix[k]) == x;
      }
    }
    forall x | x in JointNames(es)
      ensures x in JointNames(prefix) + (if Actuates(es[n]) then {es[n].info.jointName} else {})
    {
      var k :| 0 <= k < |es| && Actuates(es[k]) && es[k].info.jointName == x;
      if k < n {
        assert Actuates(prefix[k]) && prefix[k].info.jointName == x;
      }
    }
    if HasFirstJoint(es) && !IsFirstJoint(es[n]) {
      var k :| 0 <= k < |es| && IsFirstJoint(es[k]);
      assert IsFirstJoint(prefix[k]);
    }
  }

  /** The keys after a walk: parts gains every written name and, at most, the robot name through
      the fallback; joints gains exactly the registered names; a set robot body stays set, and the
      first joint of body 0 always leaves one set. */
  lemma {:induction false} RunNames(robotName: string, s: Registries, es: seq<Encounter>)
    ensures s.parts.Keys + PartNames(es) <= Run(robotName, s, es).parts.Keys
    ensures Run(robotName, s, es).parts.Keys <=
      s.parts.Keys + PartNames(es) + (if s.root.None? && HasFirstJoint(es) then {robotName} else {})
    ensures Run(robotName, s, es).joints.Keys == s.joints.Keys + JointNames(es)
    ensures s.root.Some? || HasFirstJoint(es) ==> Run(robotName, s, es).root.Some?
    decreases |es|
  {
    if es == [] {
      assert PartNames(es) == {} && JointNames(es) == {} && !HasFirstJoint(es);
    } else {
      var n := |es| - 1;
      var before := Run(robotName, s, es[..n]);
      RunNames(robotName, s, es[..n]);
      StepNames(robotName, before, es[n]);
      NamesSnoc(es);
    }
  }

  /** Two loaded models of the same shape: same base names and joints, engine ids aside. */
  predicate SameShape(b1: seq<Body>, b2: seq<Body>) {
    && |b1| == |b2|
    && forall i :: 0 <= i < |b1| ==> b1[i].baseName == b2[i].baseName && b1[i].joints == b2[i].joints
  }

  function Erase(e: Encounter): Encounter {
    e.(handle := 0)
  }

  /** Two walks that differ only in engine ids. */
  predicate SameWalk(es1: seq<Encounter>, es2: seq<Encounter>) {
    |es1| == |es2| && forall k :: 0 <= k < |es1| ==> Erase(es1[k]) == Erase(es2[k])
  }

  lemma {:induction false} EncountersSameShape(b1: seq<Body>, b2: seq<Body>)
    requires SameShape(b1, b2)
    ensures SameWalk(Encounters(b1), Encounters(b2))
    decreases |b1|
  {
    if b1 != [] {
      var n := |b1| - 1;
      assert SameShape(b1[..n], b2[..n]) by {
        assert forall i :: 0 <= i < n ==> b1[..n][i] == b1[i] && b2[..n][i] == b2[i];
      }
      EncountersSameShape(b1[..n], b2[..n]);
      var p1, p2 := Encounters(b1[..n]), Encounters(b2[..n]);
      var l1, l2 := BodyEncounters(n, b1[n]), BodyEncounters(n, b2[n]);
      assert |l1| == |l2| && forall k :: 0 <= k < |l1| ==> Erase(l1[k]) == Erase(l2[k]);
      var es1, es2 := Encounters(b1), Encounters(b2);
      assert es1 == p1 + l1 && es2 == p2 + l2;
      forall k | 0 <= k < |es1| ensures Erase(es1[k]) == Erase(es2[k]) {
        if k < |p1| {
          assert es1[k] == p1[k] && es2[k] == p2[k];
        } else {
          assert es1[k] == l1[k - |p1|] && es2[k] == l2[k - |p1|];
        }
      }
    } else {
      assert b2 == [];
    }
  }

  /** Walks that differ only in engine ids write and register the same names. */
  lemma SameWalkSameNames(es1: seq<Encounter>, es2: seq<Encounter>)
    requires SameWalk(es1, es2)
    ensures PartNames(es1) == PartNames(es2)
    ensures JointNames(es1) == JointNames(es2)
    ensures HasFirstJoint(es1) <==> HasFirstJoint(es2)
  {
    assert forall k :: 0 <= k < |es1| ==> PartName(es1[k]) == PartName(Erase(es1[k])) == PartName(es2[k]);
    assert forall k :: 0 <= k < |es1| ==> (Actuates(es1[k]) <==> Actuates(es2[k])) by {
      forall k | 0 <= k < |es1| ensures Actuates(es1[k]) <==> Actuates(es2[k]) {
        assert Actuates(es1[k]) <==> Actuates(Erase(es1[k]));
        assert Actuates(es2[k]) <==> Actuates(Erase(es2[k]));
      }
    }
    assert forall k :: 0 <= k < |es1| && Actuates(es1[k]) ==> es1[k].info == Erase(es1[k]).info == es2[k].info;
    assert forall k :: 0 <= k < |es1| ==> (IsFirstJoint(es1[k]) <==> IsFirstJoint(es2[k]));
  }

  /** Walks that differ only in engine ids register joints with the same names, in the same order. */
  lemma {:induction false} SameWalkSameJointNames(es1: seq<Encounter>, es2: seq<Encounter>)
    requires SameWalk(es1, es2)
    ensures NamesOf(ActuatedJoints(es1)) == NamesOf(ActuatedJoints(es2))
    decreases |es1|
  {
    if es1 != [] {
      assert Erase(es1[0]) == Erase(es2[0]);
      assert SameWalk(es1[1..], es2[1..]) by {
        assert forall k :: 0 <= k < |es1| - 1 ==> es1[1..][k] == es1[k + 1] && es2[1..][k] == es2[k + 1];
      }
      SameWalkSameJointNames(es1[1..], es2[1..]);
      var h1 := if Actuates(es1[0]) then [ActuatedJoint(es1[0])] else [];
      var h2 := if Actuates(es2[0]) then [ActuatedJoint(es2[0])] else [];
      var t1, t2 := ActuatedJoints(es1[1..]), ActuatedJoints(es2[1..]);
      assert |NamesOf(t1)| == |NamesOf(t2)|;
      assert |h1| == |h2| && (|h1| == 1 ==> h1[0].name == h2[0].name);
      var j1, j2 := h1 + t1, h2 + t2;
      assert forall k :: 0 <= k < |t1| ==> t1[k].name == NamesOf(t1)[k] == NamesOf(t2)[k] == t2[k].name;
      assert forall k :: 0 <= k < |j1| ==> j1[k].name == j2[k].name;
    } else {
      assert es2 == [];
    }
  }

  /**
   Reset rebuilds on top of the previous parts, joints and robot body, with ordered_joints cleared.
   Loading a model of the same shape again, even with new engine ids, leaves the same part names,
   the same joint names and the same ordered joint names.
   */
  lemma RebuildKeepsNames(b1: seq<Body>, b2: seq<Body>, robotName: string, s0: Registries)
    requires SameShape(b1, b2) && s0.ordered == []
    ensures var r1 := Build(b1, robotName, s0);
      var r2 := Build(b2, robotName, Registries(r1.parts, r1.joints, [], r1.root, []));
      && r2.parts.Keys == r1.parts.Keys
      && r2.joints.Keys == r1.joints.Keys
      && NamesOf(r2.ordered) == NamesOf(r1.ordered)
  {
    var es1, es2 := Encounters(b1), Encounters(b2);
    var r1 := Build(b1, robotName, s0);
    var s1 := Registries(r1.parts, r1.joints, [], r1.root, []);
    EncountersSameShape(b1, b2);
    SameWalkSameNames(es1, es2);
    SameWalkSameJointNames(es1, es2);
    RunNames(robotName, s0, es1);
    RunNames(robotName, s1, es2);
    RunAppendsActuatedJoints(robotName, s0, es1);
    RunAppendsActuatedJoints(robotName, s1, es2);
    assert s0.ordered + ActuatedJoints(es1) == ActuatedJoints(es1);
    assert s1.ordered + ActuatedJoints(es2) == ActuatedJoints(es2);
  }
}
