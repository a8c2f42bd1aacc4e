/**
 * Values the IK solver component works with: the entity's model (skeleton and
 * reference pose), the solver's bones, controls and joints, the bookkeeping
 * records of the component, the `control/<bone>/...` property paths, and the
 * functions that say what one tick of the component does to the solver's bones.
 */
module IkTypes {
  import opened Wrappers
  import opened Geometry

  /** pragma::animation::BoneId: an index into the model's skeleton. */
  type BoneId = nat

  /** pragma::ik::BoneId: a dense index into the solver's bone list. */
  type IkBoneId = nat

  // ---------------------------------------------------------------------------
  // The entity's model
  // ---------------------------------------------------------------------------

  /**
   * The parts of the entity's model the component reads: the skeleton's bone
   * names, indexed by bone id, and the reference pose of each bone that has one.
   */
  datatype Model = Model(boneNames: seq<string>, reference: map<BoneId, ScaledTransform>)

  /** Skeleton::LookupBone: the id of the bone with this name, or -1 when there is none. */
  function LookupBone(names: seq<string>, name: string): (r: int)
    ensures -1 <= r < |names|
    ensures r == -1 <==> name !in names
    ensures r >= 0 ==> names[r] == name && name !in names[..r]
  {
    if names == [] then -1
    else
      var init := names[..|names| - 1];
      assert names == init + [names[|names| - 1]];
      var r := LookupBone(init, name);
      if r >= 0 then
        assert names[..r] == init[..r];
        r
      else if names[|names| - 1] == name then |names| - 1
      else -1
  }

  /** IkSolverComponent::GetReferenceBonePose: fails without a model or without a reference pose for the bone. */
  function GetReferenceBonePose(mdl: Option<Model>, boneId: BoneId): (r: Option<ScaledTransform>)
    ensures r.Some? <==> mdl.Some? && boneId in mdl.value.reference
    ensures r.Some? ==> r.value == mdl.value.reference[boneId]
  {
    if mdl.None? then None
    else if boneId in mdl.value.reference then Some(mdl.value.reference[boneId])
    else None
  }

  // ---------------------------------------------------------------------------
  // The solver's state
  // ---------------------------------------------------------------------------

  /** pragma::ik::Bone: what the component reads and writes of a solver bone. */
  datatype IkBone = IkBone(name: string, pos: Vec3, rot: Quat, radius: real, length: real, pinned: bool)

  /** RigConfigControl::Type. */
  datatype ControlType = Drag | State | OrientedDrag

  /** Only State and OrientedDrag controls carry a target orientation. */
  predicate HasRotation(t: ControlType)
  {
    t != Drag
  }

  /** A control of the solver: a goal for one bone. */
  datatype Control =
    | DragControl(targetPos: Vec3, maxForce: real, rigidity: real)
    | StateControl(targetPos: Vec3, targetRot: Quat, maxForce: real, rigidity: real)
    | OrientedDragControl(targetPos: Vec3, targetRot: Quat, maxForce: real, rigidity: real)
  {
    function Kind(): ControlType
    {
      match this
      case DragControl(_, _, _) => Drag
      case StateControl(_, _, _, _) => State
      case OrientedDragControl(_, _, _, _) => OrientedDrag
    }
  }

  /** The force limit a control stores: a negative request means unbounded (the float maximum). */
  function ClampMaxForce(maxForce: real): (r: real)
    ensures r >= 0.0
    ensures maxForce >= 0.0 ==> r == maxForce
    ensures maxForce < 0.0 ==> r == FloatMax
  {
    if maxForce < 0.0 then FloatMax else maxForce
  }

  /**
   * The control AddControl creates for a bone: it aims at the bone's current
   * position, and at its current orientation when the type has one.
   */
  function NewControl(t: ControlType, bone: IkBone, maxForce: real, rigidity: real): (c: Control)
    ensures c.Kind() == t
    ensures c.targetPos == bone.pos
    ensures HasRotation(t) ==> !c.DragControl? && c.targetRot == bone.rot
    ensures c.maxForce == ClampMaxForce(maxForce) && c.rigidity == rigidity
  {
    match t
    case Drag => DragControl(bone.pos, ClampMaxForce(maxForce), rigidity)
    case State => StateControl(bone.pos, bone.rot, ClampMaxForce(maxForce), rigidity)
    case OrientedDrag => OrientedDragControl(bone.pos, bone.rot, ClampMaxForce(maxForce), rigidity)
  }

  /** A joint or limit of the solver between two of its bones. */
  datatype Joint =
    | BallSocketJoint(bone0: IkBoneId, bone1: IkBoneId, anchor: Vec3)
    | SwingLimit(bone0: IkBoneId, bone1: IkBoneId, axisA: Vec3, axisB: Vec3, maxAngle: Radians)
    | TwistLimit(bone0: IkBoneId, bone1: IkBoneId, axisA: Vec3, axisB: Vec3, maxAngle: Radians)
    | SwivelHingeJoint(bone0: IkBoneId, bone1: IkBoneId, axisA: Vec3, axisB: Vec3)
    | TwistJoint(bone0: IkBoneId, bone1: IkBoneId, axisA: Vec3, axisB: Vec3)

  /**
   * pragma::ik::Solver as the component sees it: bones in id order, at most one
   * control per solver bone, the joints, and how many times its (numerical,
   * unmodelled) Solve has run.
   */
  datatype Solver = Solver(bones: seq<IkBone>, controls: map<IkBoneId, Control>, joints: seq<Joint>, solveCount: nat)

  /** A freshly created solver. */
  const EmptySolver := Solver([], map[], [], 0)

  // ---------------------------------------------------------------------------
  // Argument records with their default values
  // ---------------------------------------------------------------------------

  /** IkSolverComponent::ConstraintInfo. */
  datatype ConstraintInfo = ConstraintInfo(boneId0: BoneId, boneId1: BoneId, rigidity: real, maxForce: real)

  /** A default-constructed ConstraintInfo. */
  const DefaultConstraintInfo := ConstraintInfo(0, 0, 1000.0, -1.0)

  /** The two-bone ConstraintInfo constructor: the given bones, default rigidity and force limit. */
  function NewConstraintInfo(bone0: BoneId, bone1: BoneId): (c: ConstraintInfo)
    ensures c == DefaultConstraintInfo.(boneId0 := bone0, boneId1 := bone1)
    ensures c.rigidity == 1000.0 && c.maxForce < 0.0
  {
    ConstraintInfo(bone0, bone1, 1000.0, -1.0)
  }

  /** IkSolverComponent::JointInfo; maxAngle is in degrees. */
  datatype JointInfo = JointInfo(boneId0: BoneId, boneId1: BoneId, anchorPosition: Vec3,
                                 axisA: Vec3, axisB: Vec3, maxAngle: real, rigidity: real)

  /** A default-constructed JointInfo. */
  const DefaultJointInfo := JointInfo(0, 0, Zero, Zero, Zero, 0.0, 1.0)

  /** The two-bone JointInfo constructor: the given bones, every other field at its default. */
  function NewJointInfo(bone0: BoneId, bone1: BoneId): (j: JointInfo)
    ensures j == DefaultJointInfo.(boneId0 := bone0, boneId1 := bone1)
    ensures j.maxAngle == 0.0 && j.rigidity == 1.0
  {
    JointInfo(bone0, bone1, Zero, Zero, Zero, 0.0, 1.0)
  }

  /** The five joint adders of the component. */
  datatype JointKind = BallSocket | Swing | Twist | SwivelHinge | TwistAxis

  /** The solver joint an adder creates between the two resolved solver bones. */
  function MakeJoint(kind: JointKind, ik0: IkBoneId, ik1: IkBoneId, info: JointInfo): (j: Joint)
    ensures j.bone0 == ik0 && j.bone1 == ik1
    ensures kind == BallSocket <==> j.BallSocketJoint?
    ensures j.BallSocketJoint? ==> j.anchor == info.anchorPosition
    ensures !j.BallSocketJoint? ==> j.axisA == info.axisA && j.axisB == info.axisB
    ensures j.SwingLimit? || j.TwistLimit? ==> j.maxAngle == DegToRad(info.maxAngle)
  {
    match kind
    case BallSocket => BallSocketJoint(ik0, ik1, info.anchorPosition)
    case Swing => SwingLimit(ik0, ik1, info.axisA, info.axisB, DegToRad(info.maxAngle))
    case Twist => TwistLimit(ik0, ik1, info.axisA, info.axisB, DegToRad(info.maxAngle))
    case SwivelHinge => SwivelHingeJoint(ik0, ik1, info.axisA, info.axisB)
    case TwistAxis => TwistJoint(ik0, ik1, info.axisA, info.axisB)
  }

  // ---------------------------------------------------------------------------
  // Component bookkeeping records
  // ---------------------------------------------------------------------------

  /** IkSolverComponent::PinnedBoneInfo: a pinned bone and its last-seen animated pose. */
  datatype PinnedBoneInfo = PinnedBoneInfo(boneId: BoneId, ikBoneId: IkBoneId, oldPose: ScaledTransform)

  /** The value type of a dynamically registered property. */
  datatype MemberType = Vector3 | Quaternion | TransformMember

  /** A dynamically registered property: its path, its type and the bone it addresses. */
  datatype MemberInfo = MemberInfo(name: string, memberType: MemberType, userIndex: BoneId)

  /** The skeletal/solver id maps are mutual inverses. */
  ghost predicate MapsInverse(fwd: map<BoneId, IkBoneId>, rev: map<IkBoneId, BoneId>)
  {
    && (forall b :: b in fwd ==> fwd[b] in rev && rev[fwd[b]] == b)
    && (forall i :: i in rev ==> rev[i] in fwd && fwd[rev[i]] == i)
  }

  /** The reverse map covers exactly the solver ids below `count`. */
  ghost predicate DenseIds(rev: map<IkBoneId, BoneId>, count: nat)
  {
    && (forall i :: i in rev ==> i < count)
    && (forall i :: 0 <= i < count ==> i in rev)
  }

  /**
   * The control map points every controlled skeletal bone at the control of its
   * own solver bone, and every solver control has such an entry.
   */
  ghost predicate ControlsRecorded(ikControls: map<BoneId, IkBoneId>, fwd: map<BoneId, IkBoneId>,
                                   rev: map<IkBoneId, BoneId>, controls: map<IkBoneId, Control>)
  {
    && (forall b :: b in ikControls ==> b in fwd && ikControls[b] == fwd[b] && ikControls[b] in controls)
    && (forall i :: i in controls ==> i in rev && rev[i] in ikControls)
  }

  /** Every pinned entry names a mapped bone together with its solver id, and no bone is listed twice. */
  ghost predicate PinnedRecorded(pinned: seq<PinnedBoneInfo>, fwd: map<BoneId, IkBoneId>)
  {
    && (forall k :: 0 <= k < |pinned| ==> pinned[k].boneId in fwd && pinned[k].ikBoneId == fwd[pinned[k].boneId])
    && DistinctPinned(pinned)
  }

  /** Every joint connects two existing solver bones. */
  ghost predicate JointsInRange(joints: seq<Joint>, count: nat)
  {
    forall j :: 0 <= j < |joints| ==> joints[j].bone0 < count && joints[j].bone1 < count
  }

  /** No two entries of the pinned list name the same skeletal bone or the same solver bone. */
  ghost predicate DistinctPinned(pinned: seq<PinnedBoneInfo>)
  {
    forall j, k :: 0 <= j < k < |pinned| ==>
      pinned[j].boneId != pinned[k].boneId && pinned[j].ikBoneId != pinned[k].ikBoneId
  }

  /** Whether the pinned list has an entry for this skeletal bone. */
  predicate IsListed(pinned: seq<PinnedBoneInfo>, boneId: BoneId)
  {
    exists k :: 0 <= k < |pinned| && pinned[k].boneId == boneId
  }

  /** The pinned list without the entries for one skeletal bone. */
  function Unlisted(pinned: seq<PinnedBoneInfo>, boneId: BoneId): (r: seq<PinnedBoneInfo>)
    ensures |r| <= |pinned|
    ensures forall k :: 0 <= k < |r| ==> r[k] in pinned && r[k].boneId != boneId
  {
    if pinned == [] then []
    else if pinned[0].boneId == boneId then Unlisted(pinned[1..], boneId)
    else [pinned[0]] + Unlisted(pinned[1..], boneId)
  }

  /** Removing one bone's entries keeps every entry for any other bone. */
  lemma {:induction false} UnlistedKeepsOthers(pinned: seq<PinnedBoneInfo>, boneId: BoneId)
    ensures forall k :: 0 <= k < |pinned| && pinned[k].boneId != boneId ==> pinned[k] in Unlisted(pinned, boneId)
  {
    if pinned != [] {
      UnlistedKeepsOthers(pinned[1..], boneId);
      forall k | 0 <= k < |pinned| && pinned[k].boneId != boneId
        ensures pinned[k] in Unlisted(pinned, boneId)
      {
        if k > 0 {
          assert pinned[k] == pinned[1..][k - 1];
        }
      }
    }
  }

  /** Erasing the one entry of a bone from a list without repeats is removing it from the list. */
  lemma {:induction false} EraseIsUnlisted(pinned: seq<PinnedBoneInfo>, k: nat)
    requires DistinctPinned(pinned) && k < |pinned|
    ensures pinned[..k] + pinned[k + 1..] == Unlisted(pinned, pinned[k].boneId)
  {
    var b := pinned[k].boneId;
    if k == 0 {
      UnlistedAbsent(pinned[1..], b);
    } else {
      assert DistinctPinned(pinned[1..]) by {
        forall j, l | 0 <= j < l < |pinned[1..]|
          ensures pinned[1..][j].boneId != pinned[1..][l].boneId && pinned[1..][j].ikBoneId != pinned[1..][l].ikBoneId
        {
          assert pinned[1..][j] == pinned[j + 1] && pinned[1..][l] == pinned[l + 1];
        }
      }
      EraseIsUnlisted(pinned[1..], k - 1);
      assert pinned[1..][k - 1] == pinned[k];
      assert pinned[..k] + pinned[k + 1..] == [pinned[0]] + (pinned[1..][..k - 1] + pinned[1..][k..]);
    }
  }

  /** Removing a bone that has no entry leaves the list as it is. */
  lemma {:induction false} UnlistedAbsent(pinned: seq<PinnedBoneInfo>, boneId: BoneId)
    requires forall k :: 0 <= k < |pinned| ==> pinned[k].boneId != boneId
    ensures Unlisted(pinned, boneId) == pinned
  {
    if pinned != [] {
      UnlistedAbsent(pinned[1..], boneId);
      assert pinned == [pinned[0]] + pinned[1..];
    }
  }

  // ---------------------------------------------------------------------------
  // Property paths `control/<bone>/position|rotation|pose`
  // ---------------------------------------------------------------------------

  /** The three kinds of per-control properties. */
  datatype ControlProperty = Position | Rotation | Pose

  function PropertySuffix(p: ControlProperty): string
  {
    match p
    case Position => "position"
    case Rotation => "rotation"
    case Pose => "pose"
  }

  const ControlPrefix: string := "control/"

  /** The path under which the component registers a control property of a bone. */
  function PropertyName(boneName: string, p: ControlProperty): string
  {
    ControlPrefix + boneName + "/" + PropertySuffix(p)
  }

  /** A bone name that survives a round trip through a property path: non-empty and without a separator. */
  predicate PathSafeName(name: string)
  {
    name != [] && '/' !in name
  }

  /**
   * The properties AddControl registers for one control, in registration order:
   * the position always, the rotation and the combined pose only for a type with
   * an orientation.
   */
  function ControlMembers(boneName: string, boneId: BoneId, t: ControlType): (ms: seq<MemberInfo>)
    ensures |ms| == if HasRotation(t) then 3 else 1
    ensures ms[0] == MemberInfo(PropertyName(boneName, Position), Vector3, boneId)
    ensures HasRotation(t) ==> && ms[1] == MemberInfo(PropertyName(boneName, Rotation), Quaternion, boneId)
                               && ms[2] == MemberInfo(PropertyName(boneName, Pose), TransformMember, boneId)
    ensures forall m :: m in ms ==> m.userIndex == boneId
    ensures (exists m :: m in ms && m.name == PropertyName(boneName, Rotation)) <==> HasRotation(t)
    ensures (exists m :: m in ms && m.name == PropertyName(boneName, Pose)) <==> HasRotation(t)
  {
    var position := MemberInfo(PropertyName(boneName, Position), Vector3, boneId);
    if HasRotation(t) then
      [position,
       MemberInfo(PropertyName(boneName, Rotation), Quaternion, boneId),
       MemberInfo(PropertyName(boneName, Pose), TransformMember, boneId)]
    else
      assert PropertyName(boneName, Position)[|ControlPrefix| + |boneName| + 1] == 'p';
      assert PropertyName(boneName, Rotation)[|ControlPrefix| + |boneName| + 1] == 'r';
      assert PropertyName(boneName, Pose)[|ControlPrefix| + |boneName| + 2] == 'o';
      assert PropertyName(boneName, Position)[|ControlPrefix| + |boneName| + 2] == 'o';
      [position]
  }

  /** Where the path component starting at `from` ends: at the next separator or at the end. */
  function ComponentEnd(path: string, from: nat): (e: nat)
    requires from <= |path|
    ensures from <= e <= |path|
    ensures e < |path| ==> path[e] == '/'
    ensures forall k :: from <= k < e ==> path[k] != '/'
    decreases |path| - from
  {
    if from == |path| || path[from] == '/' then from else ComponentEnd(path, from + 1)
  }

  /** util::Path::GetComponent: the component at `offset` and the offset of the one after it. */
  function PathComponent(path: string, offset: nat): (string, nat)
    requires offset <= |path|
  {
    var e := ComponentEnd(path, offset);
    (path[offset..e], if e < |path| then e + 1 else e)
  }

  /** The path names bone `name`'s control: it is `control/<name>` followed by the end or a separator. */
  ghost predicate NamesControl(path: string, name: string)
  {
    && PathSafeName(name)
    && |path| >= |ControlPrefix| + |name|
    && path[..|ControlPrefix|] == ControlPrefix
    && path[|ControlPrefix|..|ControlPrefix| + |name|] == name
    && (|path| == |ControlPrefix| + |name| || path[|ControlPrefix| + |name|] == '/')
  }

  /**
   * IkSolverComponent::GetControlBoneName: the second path component when the
   * first one is `control` and the second one is not empty.
   */
  function GetControlBoneName(path: string): (r: Option<string>)
    ensures r.Some? <==> |path| > |ControlPrefix| && path[..|ControlPrefix|] == ControlPrefix && path[|ControlPrefix|] != '/'
    ensures r.Some? ==> NamesControl(path, r.value)
  {
    var first := PathComponent(path, 0);
    assert |path| > |ControlPrefix| && path[..|ControlPrefix|] == ControlPrefix ==> first.0 == "control" by {
      if |path| > |ControlPrefix| && path[..|ControlPrefix|] == ControlPrefix {
        assert path[7] == '/';
        assert ComponentEnd(path, 0) == 7;
      }
    }
    if first.0 != "control" then
      None
    else
      assert ComponentEnd(path, 0) == 7;
      var second := PathComponent(path, first.1);
      if second.0 == [] then None
      else
        assert path[..|ControlPrefix|] == path[..7] + [path[7]];
        Some(second.0)
  }

  /** Every property name the component registers for a path-safe bone name parses back to that name. */
  lemma ControlPropertyRoundTrip(boneName: string, p: ControlProperty)
    requires PathSafeName(boneName)
    ensures GetControlBoneName(PropertyName(boneName, p)) == Some(boneName)
  {
    var path := PropertyName(boneName, p);
    var n := |ControlPrefix|;
    assert path[..n] == ControlPrefix;
    assert path[n..n + |boneName|] == boneName;
    assert path[n + |boneName|] == '/';
    assert path[n] == boneName[0];
  }

  /**
   * IkSolverComponent::GetControlBoneId: the skeleton id of the bone a property
   * path names; nothing when the path is not a control path, when there is no
   * model, or when the skeleton has no bone of that name.
   */
  function GetControlBoneId(mdl: Option<Model>, path: string): (r: Option<BoneId>)
    ensures r.Some? <==> GetControlBoneName(path).Some? && mdl.Some?
                         && GetControlBoneName(path).value in mdl.value.boneNames
    ensures r.Some? ==> r.value < |mdl.value.boneNames|
                        && mdl.value.boneNames[r.value] == GetControlBoneName(path).value
  {
    var boneName := GetControlBoneName(path);
    if boneName.None? || mdl.None? then None
    else
      var boneId := LookupBone(mdl.value.boneNames, boneName.value);
      if boneId == -1 then None else Some(boneId)
  }

  /** In a skeleton with distinct path-safe names, a registered control path resolves to its own bone. */
  lemma ControlBoneIdOfRegisteredPath(mdl: Model, boneId: BoneId, p: ControlProperty)
    requires boneId < |mdl.boneNames| && PathSafeName(mdl.boneNames[boneId])
    requires forall j, k :: 0 <= j < k < |mdl.boneNames| ==> mdl.boneNames[j] != mdl.boneNames[k]
    ensures GetControlBoneId(Some(mdl), PropertyName(mdl.boneNames[boneId], p)) == Some(boneId)
  {
    ControlPropertyRoundTrip(mdl.boneNames[boneId], p);
  }

  // ---------------------------------------------------------------------------
  // One tick of the component, as functions of the state before it
  // ---------------------------------------------------------------------------

  /** Some pinned bone's animated pose differs, beyond the tolerances, from the pose last seen for it. */
  predicate AnyPinnedPoseChanged(pinned: seq<PinnedBoneInfo>, anim: map<BoneId, ScaledTransform>)
  {
    exists k :: 0 <= k < |pinned| && pinned[k].boneId in anim && PoseChanged(anim[pinned[k].boneId], pinned[k].oldPose)
  }

  /** Copies a pinned bone's animated position and rotation into its solver bone, when both exist. */
  function InjectPose(bones: seq<IkBone>, info: PinnedBoneInfo, anim: map<BoneId, ScaledTransform>): seq<IkBone>
  {
    if info.boneId in anim && info.ikBoneId < |bones| then
      bones[info.ikBoneId := bones[info.ikBoneId].(pos := anim[info.boneId].origin, rot := anim[info.boneId].rotation)]
    else bones
  }

  /** Two bones that differ at most in position and rotation. */
  predicate SameBoneShape(a: IkBone, b: IkBone)
  {
    a.name == b.name && a.radius == b.radius && a.length == b.length && a.pinned == b.pinned
  }

  /** The solver bones after every pinned entry, in list order, injected its animated pose. */
  function InjectPinnedPoses(bones: seq<IkBone>, pinned: seq<PinnedBoneInfo>, anim: map<BoneId, ScaledTransform>): (r: seq<IkBone>)
    ensures |r| == |bones|
    ensures forall i :: 0 <= i < |r| ==> SameBoneShape(r[i], bones[i])
    decreases |pinned|
  {
    if pinned == [] then bones
    else InjectPose(InjectPinnedPoses(bones, pinned[..|pinned| - 1], anim), pinned[|pinned| - 1], anim)
  }

  /** A pinned bone with an animated pose ends the injection at that pose, whatever its place in the list. */
  lemma {:induction false} InjectPinnedPosesAt(bones: seq<IkBone>, pinned: seq<PinnedBoneInfo>,
                                               anim: map<BoneId, ScaledTransform>, k: nat)
    requires DistinctPinned(pinned) && k < |pinned|
    requires pinned[k].boneId in anim && pinned[k].ikBoneId < |bones|
    ensures InjectPinnedPoses(bones, pinned, anim)[pinned[k].ikBoneId].pos == anim[pinned[k].boneId].origin
    ensures InjectPinnedPoses(bones, pinned, anim)[pinned[k].ikBoneId].rot == anim[pinned[k].boneId].rotation
  {
    var init := pinned[..|pinned| - 1];
    if k < |pinned| - 1 {
      assert init[k] == pinned[k];
      assert DistinctPinned(init);
      InjectPinnedPosesAt(bones, init, anim, k);
    }
  }

  /** A solver bone that no pinned entry refers to keeps its pose. */
  lemma {:induction false} InjectPinnedPosesElsewhere(bones: seq<IkBone>, pinned: seq<PinnedBoneInfo>,
                                                      anim: map<BoneId, ScaledTransform>, i: nat)
    requires i < |bones|
    requires forall k :: 0 <= k < |pinned| ==> pinned[k].ikBoneId != i
    ensures InjectPinnedPoses(bones, pinned, anim)[i] == bones[i]
    decreases |pinned|
  {
    if pinned != [] {
      InjectPinnedPosesElsewhere(bones, pinned[..|pinned| - 1], anim, i);
    }
  }

  /** A pinned entry after a tick: its last-seen pose becomes the animated pose, when there is one. */
  function RefreshPinned(info: PinnedBoneInfo, anim: map<BoneId, ScaledTransform>): PinnedBoneInfo
  {
    if info.boneId in anim then info.(oldPose := anim[info.boneId]) else info
  }

  /** The pinned list after a solving tick. */
  function RefreshedPinned(pinned: seq<PinnedBoneInfo>, anim: map<BoneId, ScaledTransform>): (r: seq<PinnedBoneInfo>)
    ensures |r| == |pinned|
    ensures forall k :: 0 <= k < |r| ==> r[k].boneId == pinned[k].boneId && r[k].ikBoneId == pinned[k].ikBoneId
  {
    seq(|pinned|, k requires 0 <= k < |pinned| => RefreshPinned(pinned[k], anim))
  }

  /** A solving tick keeps every pinned entry's bone ids, so the list stays a faithful record. */
  lemma RefreshedPinnedRecorded(pinned: seq<PinnedBoneInfo>, anim: map<BoneId, ScaledTransform>, fwd: map<BoneId, IkBoneId>)
    requires PinnedRecorded(pinned, fwd)
    ensures PinnedRecorded(RefreshedPinned(pinned, anim), fwd)
  {
  }

  /**
   * After a solving tick the last-seen poses are the animated ones, so the same
   * input (with unit rotations) no longer counts as a change.
   */
  lemma RefreshedPinnedUnchanged(pinned: seq<PinnedBoneInfo>, anim: map<BoneId, ScaledTransform>)
    requires forall b :: b in anim ==> Dot(anim[b].rotation, anim[b].rotation) == 1.0
    ensures !AnyPinnedPoseChanged(RefreshedPinned(pinned, anim), anim)
  {
    var r := RefreshedPinned(pinned, anim);
    forall k | 0 <= k < |r| && r[k].boneId in anim ensures !PoseChanged(anim[r[k].boneId], r[k].oldPose) {
      var p := anim[r[k].boneId];
      assert r[k].oldPose == p;
      assert DistanceSqr(p.origin, p.origin) == 0.0;
      assert DistanceSqr(p.scale, p.scale) == 0.0;
    }
  }

  /** What ResetIkBones does to one bone: a non-pinned bone with a skeletal id and a reference pose takes that pose. */
  function ResetBone(bone: IkBone, i: IkBoneId, rev: map<IkBoneId, BoneId>, mdl: Option<Model>): IkBone
  {
    if !bone.pinned && i in rev && GetReferenceBonePose(mdl, rev[i]).Some? then
      var pose := GetReferenceBonePose(mdl, rev[i]).value;
      bone.(pos := pose.origin, rot := pose.rotation)
    else bone
  }

  /** The solver bones after ResetIkBones. */
  function ResetBones(bones: seq<IkBone>, rev: map<IkBoneId, BoneId>, mdl: Option<Model>): (r: seq<IkBone>)
    ensures |r| == |bones|
    ensures forall i :: 0 <= i < |r| ==> SameBoneShape(r[i], bones[i])
    ensures forall i :: 0 <= i < |r| && bones[i].pinned ==> r[i] == bones[i]
    ensures forall i :: 0 <= i < |r| && !bones[i].pinned && i in rev && mdl.Some? && rev[i] in mdl.value.reference ==>
              r[i].pos == mdl.value.reference[rev[i]].origin && r[i].rot == mdl.value.reference[rev[i]].rotation
    ensures forall i :: 0 <= i < |r| && !(i in rev && GetReferenceBonePose(mdl, rev[i]).Some?) ==> r[i] == bones[i]
  {
    seq(|bones|, i requires 0 <= i < |bones| => ResetBone(bones[i], i, rev, mdl))
  }

  /** The solver bones at the end of a solving tick, before the numerical solve: injected, then reset if enabled. */
  function TickBones(bones: seq<IkBone>, pinned: seq<PinnedBoneInfo>, anim: map<BoneId, ScaledTransform>,
                     resetIkPose: bool, rev: map<IkBoneId, BoneId>, mdl: Option<Model>): seq<IkBone>
  {
    var injected := InjectPinnedPoses(bones, pinned, anim);
    if resetIkPose then ResetBones(injected, rev, mdl) else injected
  }

  /** A pinned solver bone ends a solving tick at its animated pose, whether or not the reset runs. */
  lemma TickPinnedBone(bones: seq<IkBone>, pinned: seq<PinnedBoneInfo>, anim: map<BoneId, ScaledTransform>,
                       resetIkPose: bool, rev: map<IkBoneId, BoneId>, mdl: Option<Model>, k: nat)
    requires DistinctPinned(pinned) && k < |pinned|
    requires pinned[k].boneId in anim && pinned[k].ikBoneId < |bones| && bones[pinned[k].ikBoneId].pinned
    ensures TickBones(bones, pinned, anim, resetIkPose, rev, mdl)[pinned[k].ikBoneId].pos == anim[pinned[k].boneId].origin
    ensures TickBones(bones, pinned, anim, resetIkPose, rev, mdl)[pinned[k].ikBoneId].rot == anim[pinned[k].boneId].rotation
  {
    InjectPinnedPosesAt(bones, pinned, anim, k);
  }
}
