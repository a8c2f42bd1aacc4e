/**
 * The bookkeeping layer of the IK solver entity component: the bimap between
 * skeletal and solver bone ids, the control registry with its dynamically
 * registered properties, the pinned-bone list, the joint adders and the
 * dirty-tracking tick.
 *
 * The entity's model and the animated component's current bone poses are
 * parameters of the operations that read them.  The solver is a value the
 * component owns and replaces (see IkTypes.Solver).
 */
module IkSolver {
  import opened Wrappers
  import opened Geometry
  import opened IkTypes

  /** The two solver bones a constraint connects, with the reference poses of their skeletal bones. */
  datatype ConstraintBones = ConstraintBones(bone0: IkBoneId, bone1: IkBoneId, pose0: ScaledTransform, pose1: ScaledTransform)

  class IkSolverComponent {
    /** m_boneIdToIkBoneId */
    var boneIdToIkBoneId: map<BoneId, IkBoneId>
    /** m_ikBoneIdToBoneId */
    var ikBoneIdToBoneId: map<IkBoneId, BoneId>
    /** m_ikControls: for each controlled skeletal bone, the solver bone whose control it is. */
    var ikControls: map<BoneId, IkBoneId>
    /** m_pinnedBones */
    var pinnedBones: seq<PinnedBoneInfo>
    /** m_updateRequired: the tick must run the solver. */
    var updateRequired: bool
    /** m_resetIkPose: non-pinned bones return to the reference pose before each solve. */
    var resetIkPose: bool
    /** m_ikSolver */
    var solver: Solver
    /** The dynamically registered control properties, in registration order. */
    var members: seq<MemberInfo>
    /** How many times EVENT_INITIALIZE_SOLVER was broadcast. */
    var initializeSolverEvents: nat
    /** How many times EVENT_ON_IK_UPDATED was invoked. */
    var ikUpdatedEvents: nat

    /**
     * The component's invariant: the two id maps are mutual inverses over
     * exactly the solver's bones; every control entry points at the control of
     * its own bone's solver bone and every solver control has an entry; every
     * pinned entry names a mapped bone with its solver id, without repeats; and
     * joints connect existing solver bones.
     */
    ghost predicate Valid()
      reads this
    {
      && MapsInverse(boneIdToIkBoneId, ikBoneIdToBoneId)
      && DenseIds(ikBoneIdToBoneId, |solver.bones|)
      && ControlsRecorded(ikControls, boneIdToIkBoneId, ikBoneIdToBoneId, solver.controls)
      && PinnedRecorded(pinnedBones, boneIdToIkBoneId)
      && JointsInRange(solver.joints, |solver.bones|)
    }

    /** A new component is clean, resets non-pinned bones on solve, and holds no bones, controls or pins. */
    constructor ()
      ensures Valid()
      ensures !updateRequired && resetIkPose
      ensures solver == EmptySolver
      ensures boneIdToIkBoneId == map[] && ikBoneIdToBoneId == map[] && ikControls == map[]
      ensures pinnedBones == [] && members == []
      ensures initializeSolverEvents == 0 && ikUpdatedEvents == 0
    {
      boneIdToIkBoneId := map[];
      ikBoneIdToBoneId := map[];
      ikControls := map[];
      pinnedBones := [];
      updateRequired := false;
      resetIkPose := true;
      solver := EmptySolver;
      members := [];
      initializeSolverEvents := 0;
      ikUpdatedEvents := 0;
    }

    /** Discards every control, bone mapping, pin and registered property and starts a fresh, empty solver. */
    method InitializeSolver()
      modifies this
      ensures Valid()
      ensures ikControls == map[] && boneIdToIkBoneId == map[] && ikBoneIdToBoneId == map[]
      ensures solver == EmptySolver && |solver.bones| == 0
      ensures pinnedBones == [] && members == []
      ensures initializeSolverEvents == old(initializeSolverEvents) + 1
      ensures updateRequired == old(updateRequired) && resetIkPose == old(resetIkPose)
      ensures ikUpdatedEvents == old(ikUpdatedEvents)
    {
      ikControls := map[];
      boneIdToIkBoneId := map[];
      ikBoneIdToBoneId := map[];
      solver := EmptySolver;
      pinnedBones := [];
      members := [];
      initializeSolverEvents := initializeSolverEvents + 1;
    }

    /** ResetIkRig rebuilds the solver from nothing. */
    method ResetIkRig()
      modifies this
      ensures Valid()
      ensures ikControls == map[] && boneIdToIkBoneId == map[] && ikBoneIdToBoneId == map[]
      ensures solver == EmptySolver && pinnedBones == [] && members == []
      ensures initializeSolverEvents == old(initializeSolverEvents) + 1
      ensures updateRequired == old(updateRequired) && resetIkPose == old(resetIkPose)
      ensures ikUpdatedEvents == old(ikUpdatedEvents)
    {
      InitializeSolver();
    }

    method SetResetSolver(resetSolver: bool)
      modifies this`resetIkPose
      ensures resetIkPose == resetSolver
    {
      resetIkPose := resetSolver;
    }

    /** Whether a solving tick resets the non-pinned bones to the reference pose first. */
    function ShouldResetSolver(): (r: bool)
      reads this
      ensures r <==> resetIkPose
    {
      resetIkPose
    }

    /** The number of solver bones: exactly the solver ids that have a skeletal bone. */
    function GetBoneCount(): (r: nat)
      reads this
      ensures Valid() ==> forall i: IkBoneId :: i < r <==> i in ikBoneIdToBoneId
    {
      |solver.bones|
    }

    /** The solver id of a skeletal bone; it maps back to the same skeletal bone. */
    function GetIkBoneId(boneId: BoneId): (r: Option<IkBoneId>)
      requires Valid()
      reads this
      ensures r.Some? <==> boneId in boneIdToIkBoneId
      ensures r.Some? ==> r.value < |solver.bones| && GetSkeletalBoneId(r.value) == Some(boneId)
    {
      if boneId in boneIdToIkBoneId then Some(boneIdToIkBoneId[boneId]) else None
    }

    /** The skeletal id of a solver bone: defined for exactly the solver's bones, and it maps back. */
    function GetSkeletalBoneId(ikBoneId: IkBoneId): (r: Option<BoneId>)
      requires Valid()
      reads this
      ensures r.Some? <==> ikBoneId < |solver.bones|
      ensures r.Some? ==> r.value in boneIdToIkBoneId && boneIdToIkBoneId[r.value] == ikBoneId
    {
      if ikBoneId in ikBoneIdToBoneId then Some(ikBoneIdToBoneId[ikBoneId]) else None
    }

    /** GetBone: the solver bone of a skeletal bone, present exactly for mapped bones. */
    function GetBone(boneId: BoneId): (r: Option<IkBone>)
      requires Valid()
      reads this
      ensures r.Some? <==> boneId in boneIdToIkBoneId
      ensures r.Some? ==> r.value in solver.bones && r.value == solver.bones[boneIdToIkBoneId[boneId]]
    {
      if boneId in boneIdToIkBoneId && boneIdToIkBoneId[boneId] < |solver.bones| then
        Some(solver.bones[boneIdToIkBoneId[boneId]])
      else None
    }

    /** GetIkBone goes through GetIkBoneId and the solver's bone lookup; it agrees with GetBone. */
    function GetIkBone(boneId: BoneId): (r: Option<IkBone>)
      requires Valid()
      reads this
      ensures r == GetBone(boneId)
    {
      var ikBoneId := GetIkBoneId(boneId);
      if ikBoneId.None? || ikBoneId.value >= |solver.bones| then None
      else Some(solver.bones[ikBoneId.value])
    }

    /** GetControl: the control of a skeletal bone, present exactly for controlled bones. */
    function GetControl(boneId: BoneId): (r: Option<Control>)
      requires Valid()
      reads this
      ensures r.Some? <==> boneId in ikControls
      ensures r.Some? ==> boneId in boneIdToIkBoneId && r.value == solver.controls[boneIdToIkBoneId[boneId]]
    {
      if boneId in ikControls then Some(solver.controls[ikControls[boneId]]) else None
    }

    /**
     * AddBone: returns the solver bone already mapped to `boneId` and changes
     * nothing, or appends a new solver bone, whose id is the previous bone count,
     * and records it in both id maps.
     */
    method AddBone(boneName: string, boneId: BoneId, pose: Transform, radius: real, length: real) returns (ikBoneId: IkBoneId)
      requires Valid()
      modifies this`solver, this`boneIdToIkBoneId, this`ikBoneIdToBoneId
      ensures Valid()
      ensures old(boneId in boneIdToIkBoneId) ==>
                && ikBoneId == old(boneIdToIkBoneId[boneId])
                && solver == old(solver)
                && boneIdToIkBoneId == old(boneIdToIkBoneId) && ikBoneIdToBoneId == old(ikBoneIdToBoneId)
      ensures old(boneId !in boneIdToIkBoneId) ==>
                && ikBoneId == old(|solver.bones|)
                && solver == old(solver).(bones := old(solver.bones) + [IkBone(boneName, pose.origin, pose.rotation, radius, length, false)])
                && boneIdToIkBoneId == old(boneIdToIkBoneId)[boneId := ikBoneId]
                && ikBoneIdToBoneId == old(ikBoneIdToBoneId)[ikBoneId := boneId]
      ensures GetIkBoneId(boneId) == Some(ikBoneId) && GetSkeletalBoneId(ikBoneId) == Some(boneId)
    {
      var existing := GetIkBoneId(boneId);
      if existing.Some? && existing.value < |solver.bones| {
        return existing.value;
      }
      ikBoneId := |solver.bones|;
      solver := solver.(bones := solver.bones + [IkBone(boneName, pose.origin, pose.rotation, radius, length, false)]);
      boneIdToIkBoneId := boneIdToIkBoneId[boneId := ikBoneId];
      ikBoneIdToBoneId := ikBoneIdToBoneId[ikBoneId := boneId];
    }

    /**
     * AddSkeletalBone: adds the skeleton bone at its reference pose, with radius
     * and length 1; nothing happens without a model, a skeleton bone of that id
     * or a reference pose for it.
     */
    method AddSkeletalBone(mdl: Option<Model>, boneId: BoneId)
      requires Valid()
      modifies this`solver, this`boneIdToIkBoneId, this`ikBoneIdToBoneId
      ensures Valid()
      ensures var available := mdl.Some? && boneId < |mdl.value.boneNames| && boneId in mdl.value.reference;
              if available && old(boneId !in boneIdToIkBoneId) then
                var pose := mdl.value.reference[boneId];
                && solver == old(solver).(bones := old(solver.bones) + [IkBone(mdl.value.boneNames[boneId], pose.origin, pose.rotation, 1.0, 1.0, false)])
                && boneIdToIkBoneId == old(boneIdToIkBoneId)[boneId := old(|solver.bones|)]
                && ikBoneIdToBoneId == old(ikBoneIdToBoneId)[old(|solver.bones|) := boneId]
              else
                && solver == old(solver)
                && boneIdToIkBoneId == old(boneIdToIkBoneId) && ikBoneIdToBoneId == old(ikBoneIdToBoneId)
    {
      if mdl.None? {
        return;
      }
      if boneId >= |mdl.value.boneNames| {
        return;
      }
      if boneId !in mdl.value.reference {
        return;
      }
      var pose := mdl.value.reference[boneId];
      var _ := AddBone(mdl.value.boneNames[boneId], boneId, Unscaled(pose), 1.0, 1.0);
    }

    /** The index of the pinned entry for `boneId` (the first one, as find_if), or nothing. */
    method FindPinned(boneId: BoneId) returns (r: Option<nat>)
      ensures r.Some? <==> IsListed(pinnedBones, boneId)
      ensures r.Some? ==> r.value < |pinnedBones| && pinnedBones[r.value].boneId == boneId
      ensures r.Some? ==> forall k :: 0 <= k < r.value ==> pinnedBones[k].boneId != boneId
    {
      var i := 0;
      while i < |pinnedBones|
        invariant 0 <= i <= |pinnedBones|
        invariant forall k :: 0 <= k < i ==> pinnedBones[k].boneId != boneId
      {
        if pinnedBones[i].boneId == boneId {
          return Some(i);
        }
        i := i + 1;
      }
      return None;
    }

    /**
     * SetBoneLocked: for a mapped bone, sets the solver bone's pinned flag; a
     * bone already in the pinned list is erased from it when unlocked and left
     * in it when locked; a bone not yet in the list gets one new entry with its
     * skeletal and solver ids, even when it is being unlocked.  An unmapped
     * bone changes nothing.
     */
    method SetBoneLocked(boneId: BoneId, locked: bool)
      requires Valid()
      modifies this`solver, this`pinnedBones
      ensures Valid()
      ensures old(boneId !in boneIdToIkBoneId) ==> solver == old(solver) && pinnedBones == old(pinnedBones)
      ensures old(boneId in boneIdToIkBoneId) ==>
                var ikBoneId := boneIdToIkBoneId[boneId];
                && solver == old(solver).(bones := old(solver.bones)[ikBoneId := old(solver.bones[ikBoneId]).(pinned := locked)])
                && pinnedBones ==
                     if old(IsListed(pinnedBones, boneId)) then
                       (if locked then old(pinnedBones) else Unlisted(old(pinnedBones), boneId))
                     else old(pinnedBones) + [PinnedBoneInfo(boneId, ikBoneId, IdentityPose)]
      ensures old(boneId in boneIdToIkBoneId) ==> (IsListed(pinnedBones, boneId) <==> locked || !old(IsListed(pinnedBones, boneId)))
    {
      var bone := GetBone(boneId);
      if bone.None? {
        return;
      }
      var ikBoneId := boneIdToIkBoneId[boneId];
      solver := solver.(bones := solver.bones[ikBoneId := solver.bones[ikBoneId].(pinned := locked)]);
      var found := FindPinned(boneId);
      if found.Some? {
        if !locked {
          EraseIsUnlisted(pinnedBones, found.value);
          pinnedBones := pinnedBones[..found.value] + pinnedBones[found.value + 1..];
          assert !IsListed(pinnedBones, boneId);
        }
        return;
      }
      ghost var before := pinnedBones;
      pinnedBones := pinnedBones + [PinnedBoneInfo(boneId, ikBoneId, IdentityPose)];
      assert pinnedBones[|before|].boneId == boneId;
      forall j | 0 <= j < |before|
        ensures pinnedBones[j].ikBoneId != ikBoneId
      {
        assert pinnedBones[j] == before[j];
      }
    }

    /**
     * GetConstraintBones: both skeletal bones are mapped and both have a
     * reference pose; yields their solver bones and reference poses.
     */
    function GetConstraintBones(mdl: Option<Model>, boneId0: BoneId, boneId1: BoneId): (r: Option<ConstraintBones>)
      requires Valid()
      reads this
      ensures r.Some? <==> && boneId0 in boneIdToIkBoneId && boneId1 in boneIdToIkBoneId
                           && GetReferenceBonePose(mdl, boneId0).Some? && GetReferenceBonePose(mdl, boneId1).Some?
      ensures r.Some? ==> && r.value.bone0 == boneIdToIkBoneId[boneId0] && r.value.bone1 == boneIdToIkBoneId[boneId1]
                          && r.value.bone0 < |solver.bones| && r.value.bone1 < |solver.bones|
      ensures r.Some? ==> && r.value.pose0 == GetReferenceBonePose(mdl, boneId0).value
                          && r.value.pose1 == GetReferenceBonePose(mdl, boneId1).value
    {
      if boneId0 !in boneIdToIkBoneId || boneId1 !in boneIdToIkBoneId then None
      else
        // Valid() keeps every mapped id inside the solver, so both solver bones exist.
        var ik0 := boneIdToIkBoneId[boneId0];
        var ik1 := boneIdToIkBoneId[boneId1];
        var refPose0 := GetReferenceBonePose(mdl, boneId0);
        var refPose1 := GetReferenceBonePose(mdl, boneId1);
        if refPose0.None? || refPose1.None? then None
        else Some(ConstraintBones(ik0, ik1, refPose0.value, refPose1.value))
    }

    /** The shared body of the joint adders: one new joint when both bones resolve, otherwise nothing. */
    method AddJoint(mdl: Option<Model>, info: JointInfo, kind: JointKind)
      requires Valid()
      modifies this`solver
      ensures Valid()
      ensures var cb := old(GetConstraintBones(mdl, info.boneId0, info.boneId1));
              solver == old(solver).(joints := old(solver.joints) +
                                       if cb.Some? then [MakeJoint(kind, cb.value.bone0, cb.value.bone1, info)] else [])
    {
      var cb := GetConstraintBones(mdl, info.boneId0, info.boneId1);
      if cb.None? {
        return;
      }
      solver := solver.(joints := solver.joints + [MakeJoint(kind, cb.value.bone0, cb.value.bone1, info)]);
    }

    method AddBallSocketJoint(mdl: Option<Model>, info: JointInfo)
      requires Valid()
      modifies this`solver
      ensures Valid()
      ensures var cb := old(GetConstraintBones(mdl, info.boneId0, info.boneId1));
              solver == old(solver).(joints := old(solver.joints) +
                                       if cb.Some? then [BallSocketJoint(cb.value.bone0, cb.value.bone1, info.anchorPosition)] else [])
    {
      AddJoint(mdl, info, BallSocket);
    }

    method AddSwingLimit(mdl: Option<Model>, info: JointInfo)
      requires Valid()
      modifies this`solver
      ensures Valid()
      ensures var cb := old(GetConstraintBones(mdl, info.boneId0, info.boneId1));
              solver == old(solver).(joints := old(solver.joints) +
                                       if cb.Some? then [SwingLimit(cb.value.bone0, cb.value.bone1, info.axisA, info.axisB, DegToRad(info.maxAngle))] else [])
    {
      AddJoint(mdl, info, Swing);
    }

    method AddTwistLimit(mdl: Option<Model>, info: JointInfo)
      requires Valid()
      modifies this`solver
      ensures Valid()
      ensures var cb := old(GetConstraintBones(mdl, info.boneId0, info.boneId1));
              solver == old(solver).(joints := old(solver.joints) +
                                       if cb.Some? then [TwistLimit(cb.value.bone0, cb.value.bone1, info.axisA, info.axisB, DegToRad(info.maxAngle))] else [])
    {
      AddJoint(mdl, info, Twist);
    }

    method AddSwivelHingeJoint(mdl: Option<Model>, info: JointInfo)
      requires Valid()
      modifies this`solver
      ensures Valid()
      ensures var cb := old(GetConstraintBones(mdl, info.boneId0, info.boneId1));
              solver == old(solver).(joints := old(solver.joints) +
                                       if cb.Some? then [SwivelHingeJoint(cb.value.bone0, cb.value.bone1, info.axisA, info.axisB)] else [])
    {
      AddJoint(mdl, info, SwivelHinge);
    }

    method AddTwistJoint(mdl: Option<Model>, info: JointInfo)
      requires Valid()
      modifies this`solver
      ensures Valid()
      ensures var cb := old(GetConstraintBones(mdl, info.boneId0, info.boneId1));
              solver == old(solver).(joints := old(solver.joints) +
                                       if cb.Some? then [TwistJoint(cb.value.bone0, cb.value.bone1, info.axisA, info.axisB)] else [])
    {
      AddJoint(mdl, info, TwistAxis);
    }

    /**
     * The guards of AddControl: a model, a skeleton bone of that id, a mapped
     * solver bone, and no control on that solver bone yet.
     */
    predicate CanAddControl(mdl: Option<Model>, boneId: BoneId)
      reads this
    {
      && mdl.Some? && boneId < |mdl.value.boneNames|
      && boneId in boneIdToIkBoneId && boneIdToIkBoneId[boneId] < |solver.bones|
      && boneIdToIkBoneId[boneId] !in solver.controls
    }

    /**
     * AddControl: when the guards hold, creates the control of the bone's solver
     * bone aimed at the bone's current pose, registers its properties under the
     * skeleton bone's name and records it; otherwise changes nothing.
     */
    method AddControl(mdl: Option<Model>, boneId: BoneId, t: ControlType, maxForce: real := -1.0, rigidity: real := 1.0)
      requires Valid()
      modifies this`solver, this`members, this`ikControls
      ensures Valid()
      ensures !old(CanAddControl(mdl, boneId)) ==>
                solver == old(solver) && members == old(members) && ikControls == old(ikControls)
      ensures old(CanAddControl(mdl, boneId)) ==>
                var ikBoneId := boneIdToIkBoneId[boneId];
                && solver == old(solver).(controls := old(solver.controls)[ikBoneId := NewControl(t, solver.bones[ikBoneId], maxForce, rigidity)])
                && ikControls == old(ikControls)[boneId := ikBoneId]
                && members == old(members) + ControlMembers(mdl.value.boneNames[boneId], boneId, t)
      ensures old(boneId in ikControls) ==> GetControl(boneId) == old(GetControl(boneId))
    {
      if mdl.None? {
        return;
      }
      if boneId >= |mdl.value.boneNames| {
        return;
      }
      var ikBoneId := GetIkBoneId(boneId);
      if ikBoneId.None? {
        return;
      }
      if ikBoneId.value >= |solver.bones| {
        return;
      }
      if ikBoneId.value in solver.controls {
        return;
      }
      var control := NewControl(t, solver.bones[ikBoneId.value], maxForce, rigidity);
      solver := solver.(controls := solver.controls[ikBoneId.value := control]);
      members := members + ControlMembers(mdl.value.boneNames[boneId], boneId, t);
      ikControls := ikControls[boneId := ikBoneId.value];
    }

    method AddDragControl(mdl: Option<Model>, boneId: BoneId, maxForce: real := -1.0, rigidity: real := 1.0)
      requires Valid()
      modifies this`solver, this`members, this`ikControls
      ensures Valid()
      ensures !old(CanAddControl(mdl, boneId)) ==>
                solver == old(solver) && members == old(members) && ikControls == old(ikControls)
      ensures old(CanAddControl(mdl, boneId)) ==>
                var ikBoneId := boneIdToIkBoneId[boneId];
                && solver == old(solver).(controls := old(solver.controls)[ikBoneId := NewControl(Drag, solver.bones[ikBoneId], maxForce, rigidity)])
                && ikControls == old(ikControls)[boneId := ikBoneId]
                && members == old(members) + ControlMembers(mdl.value.boneNames[boneId], boneId, Drag)
    {
      AddControl(mdl, boneId, Drag, maxForce, rigidity);
    }

    method AddStateControl(mdl: Option<Model>, boneId: BoneId, maxForce: real := -1.0, rigidity: real := 1.0)
      requires Valid()
      modifies this`solver, this`members, this`ikControls
      ensures Valid()
      ensures !old(CanAddControl(mdl, boneId)) ==>
                solver == old(solver) && members == old(members) && ikControls == old(ikControls)
      ensures old(CanAddControl(mdl, boneId)) ==>
                var ikBoneId := boneIdToIkBoneId[boneId];
                && solver == old(solver).(controls := old(solver.controls)[ikBoneId := NewControl(State, solver.bones[ikBoneId], maxForce, rigidity)])
                && ikControls == old(ikControls)[boneId := ikBoneId]
                && members == old(members) + ControlMembers(mdl.value.boneNames[boneId], boneId, State)
    {
      AddControl(mdl, boneId, State, maxForce, rigidity);
    }

    method AddOrientedDragControl(mdl: Option<Model>, boneId: BoneId, maxForce: real := -1.0, rigidity: real := 1.0)
      requires Valid()
      modifies this`solver, this`members, this`ikControls
      ensures Valid()
      ensures !old(CanAddControl(mdl, boneId)) ==>
                solver == old(solver) && members == old(members) && ikControls == old(ikControls)
      ensures old(CanAddControl(mdl, boneId)) ==>
                var ikBoneId := boneIdToIkBoneId[boneId];
                && solver == old(solver).(controls := old(solver.controls)[ikBoneId := NewControl(OrientedDrag, solver.bones[ikBoneId], maxForce, rigidity)])
                && ikControls == old(ikControls)[boneId := ikBoneId]
                && members == old(members) + ControlMembers(mdl.value.boneNames[boneId], boneId, OrientedDrag)
    {
      AddControl(mdl, boneId, OrientedDrag, maxForce, rigidity);
    }

    /** The `control/<bone>/position` getter: the control's target position, or nothing without a control. */
    function GetControlTargetPosition(boneId: BoneId): (r: Option<Vec3>)
      requires Valid()
      reads this
      ensures r.Some? <==> boneId in ikControls
      ensures r.Some? ==> r.value == GetControl(boneId).value.targetPos
    {
      if boneId in ikControls then Some(solver.controls[ikControls[boneId]].targetPos) else None
    }

    /** The `control/<bone>/rotation` getter, registered only for controls with an orientation. */
    function GetControlTargetRotation(boneId: BoneId): (r: Option<Quat>)
      requires Valid()
      requires boneId in ikControls ==> !solver.controls[ikControls[boneId]].DragControl?
      reads this
      ensures r.Some? <==> boneId in ikControls
      ensures r.Some? ==> r.value == GetControl(boneId).value.targetRot
    {
      if boneId in ikControls then Some(solver.controls[ikControls[boneId]].targetRot) else None
    }

    /** The `control/<bone>/pose` getter, registered only for controls with an orientation. */
    function GetControlTargetPose(boneId: BoneId): (r: Option<Transform>)
      requires Valid()
      requires boneId in ikControls ==> !solver.controls[ikControls[boneId]].DragControl?
      reads this
      ensures r.Some? <==> boneId in ikControls
      ensures r.Some? ==> r.value == Transform(GetControl(boneId).value.targetPos, GetControl(boneId).value.targetRot)
    {
      if boneId in ikControls then
        var c := solver.controls[ikControls[boneId]];
        Some(Transform(c.targetPos, c.targetRot))
      else None
    }

    /**
     * The `control/<bone>/position` setter: with a control, moves its target
     * and marks the component dirty; without one, does nothing.
     */
    method SetControlTargetPosition(boneId: BoneId, value: Vec3)
      requires Valid()
      modifies this`solver, this`updateRequired
      ensures Valid()
      ensures old(boneId !in ikControls) ==> solver == old(solver) && updateRequired == old(updateRequired)
      ensures old(boneId in ikControls) ==>
                && updateRequired
                && GetControlTargetPosition(boneId) == Some(value)
                && solver == old(solver).(controls := old(solver.controls)[ikControls[boneId] := old(GetControl(boneId)).value.(targetPos := value)])
    {
      if boneId !in ikControls {
        return;
      }
      var id := ikControls[boneId];
      solver := solver.(controls := solver.controls[id := solver.controls[id].(targetPos := value)]);
      updateRequired := true;
    }

    /** The `control/<bone>/rotation` setter: with a control, turns its target and marks the component dirty. */
    method SetControlTargetRotation(boneId: BoneId, value: Quat)
      requires Valid()
      requires boneId in ikControls ==> !solver.controls[ikControls[boneId]].DragControl?
      modifies this`solver, this`updateRequired
      ensures Valid()
      ensures old(boneId !in ikControls) ==> solver == old(solver) && updateRequired == old(updateRequired)
      ensures old(boneId in ikControls) ==>
                && updateRequired
                && solver == old(solver).(controls := old(solver.controls)[ikControls[boneId] := old(GetControl(boneId)).value.(targetRot := value)])
                && GetControlTargetRotation(boneId) == Some(value)
    {
      if boneId !in ikControls {
        return;
      }
      var id := ikControls[boneId];
      solver := solver.(controls := solver.controls[id := solver.controls[id].(targetRot := value)]);
      updateRequired := true;
    }

    /** The `control/<bone>/pose` setter: with a control, sets both targets and marks the component dirty. */
    method SetControlTargetPose(boneId: BoneId, value: Transform)
      requires Valid()
      requires boneId in ikControls ==> !solver.controls[ikControls[boneId]].DragControl?
      modifies this`solver, this`updateRequired
      ensures Valid()
      ensures old(boneId !in ikControls) ==> solver == old(solver) && updateRequired == old(updateRequired)
      ensures old(boneId in ikControls) ==>
                && updateRequired
                && solver == old(solver).(controls := old(solver.controls)[ikControls[boneId] :=
                                            old(GetControl(boneId)).value.(targetPos := value.origin, targetRot := value.rotation)])
                && GetControlTargetPose(boneId) == Some(value)
    {
      if boneId !in ikControls {
        return;
      }
      var id := ikControls[boneId];
      solver := solver.(controls := solver.controls[id := solver.controls[id].(targetPos := value.origin, targetRot := value.rotation)]);
      updateRequired := true;
    }

    /**
     * ResetIkBones: every non-pinned solver bone whose skeletal bone has a
     * reference pose takes that pose; pinned bones are left to the animation.
     */
    method ResetIkBones(mdl: Option<Model>)
      modifies this`solver
      ensures solver == old(solver).(bones := ResetBones(old(solver.bones), ikBoneIdToBoneId, mdl))
    {
      var numBones := |solver.bones|;
      var i := 0;
      while i < numBones
        invariant 0 <= i <= numBones && |solver.bones| == numBones
        invariant solver == old(solver).(bones := solver.bones)
        invariant forall k :: 0 <= k < numBones ==>
                    solver.bones[k] == if k < i then ResetBone(old(solver.bones)[k], k, ikBoneIdToBoneId, mdl) else old(solver.bones)[k]
      {
        var bone := solver.bones[i];
        if !bone.pinned && i in ikBoneIdToBoneId {
          var pose := GetReferenceBonePose(mdl, ikBoneIdToBoneId[i]);
          if pose.Some? {
            solver := solver.(bones := solver.bones[i := bone.(pos := pose.value.origin, rot := pose.value.rotation)]);
          }
        }
        i := i + 1;
      }
      assert solver.bones == ResetBones(old(solver.bones), ikBoneIdToBoneId, mdl);
    }

    /** The first pass of Solve: whether some pinned bone's animated pose moved beyond the tolerances. */
    method AnyPinnedBoneMoved(anim: map<BoneId, ScaledTransform>) returns (moved: bool)
      ensures moved <==> AnyPinnedPoseChanged(pinnedBones, anim)
    {
      moved := false;
      var i := 0;
      while i < |pinnedBones|
        invariant 0 <= i <= |pinnedBones|
        invariant moved <==> AnyPinnedPoseChanged(pinnedBones[..i], anim)
      {
        var info := pinnedBones[i];
        if info.boneId in anim && PoseChanged(anim[info.boneId], info.oldPose) {
          moved := true;
        }
        assert pinnedBones[..i + 1][i] == info;
        assert forall k :: 0 <= k < i ==> pinnedBones[..i + 1][k] == pinnedBones[..i][k];
        i := i + 1;
      }
      assert pinnedBones[..i] == pinnedBones;
    }

    /**
     * The second pass of Solve: each pinned bone with an animated pose moves its
     * solver bone there and remembers the pose as last seen.
     */
    method InjectPinnedBonePoses(anim: map<BoneId, ScaledTransform>)
      modifies this`pinnedBones, this`solver
      ensures pinnedBones == RefreshedPinned(old(pinnedBones), anim)
      ensures solver == old(solver).(bones := InjectPinnedPoses(old(solver.bones), old(pinnedBones), anim))
    {
      ghost var bones0 := solver.bones;
      ghost var pinned0 := pinnedBones;
      var i := 0;
      while i < |pinnedBones|
        invariant 0 <= i <= |pinnedBones| && |pinnedBones| == |pinned0|
        invariant forall k :: 0 <= k < |pinnedBones| ==>
                    pinnedBones[k] == if k < i then RefreshPinned(pinned0[k], anim) else pinned0[k]
        invariant solver == old(solver).(bones := InjectPinnedPoses(bones0, pinned0[..i], anim))
      {
        var info := pinnedBones[i];
        assert pinned0[..i + 1][..i] == pinned0[..i];
        if info.boneId in anim {
          var pose := anim[info.boneId];
          if info.ikBoneId < |solver.bones| {
            solver := solver.(bones := solver.bones[info.ikBoneId := solver.bones[info.ikBoneId].(pos := pose.origin, rot := pose.rotation)]);
          }
          pinnedBones := pinnedBones[i := info.(oldPose := pose)];
        }
        i := i + 1;
      }
      assert pinned0[..i] == pinned0;
      assert pinnedBones == RefreshedPinned(pinned0, anim);
    }

    /**
     * Solve, once per tick, given the animated poses of the bones that have one.
     * Clean and no pinned pose moved: the solver is skipped and nothing changes
     * but the update event.  Otherwise the flag is cleared, pinned bones take
     * their animated poses (remembered as last seen), non-pinned bones are reset
     * when enabled, the solver runs once and the update event fires once.
     */
    method Solve(mdl: Option<Model>, anim: map<BoneId, ScaledTransform>)
      requires Valid()
      modifies this`updateRequired, this`pinnedBones, this`solver, this`ikUpdatedEvents
      ensures Valid()
      ensures !updateRequired
      ensures ikUpdatedEvents == old(ikUpdatedEvents) + 1
      ensures !old(updateRequired) && !AnyPinnedPoseChanged(old(pinnedBones), anim) ==>
                solver == old(solver) && pinnedBones == old(pinnedBones)
      ensures old(updateRequired) || AnyPinnedPoseChanged(old(pinnedBones), anim) ==>
                && pinnedBones == RefreshedPinned(old(pinnedBones), anim)
                && solver == old(solver).(bones := TickBones(old(solver.bones), old(pinnedBones), anim, resetIkPose, ikBoneIdToBoneId, mdl),
                                          solveCount := old(solver.solveCount) + 1)
    {
      if !updateRequired {
        var moved := AnyPinnedBoneMoved(anim);
        if moved {
          updateRequired := true;
        }
      }

      if !updateRequired {
        ikUpdatedEvents := ikUpdatedEvents + 1;
        return;
      }
      updateRequired := false;

      ghost var pinned0 := pinnedBones;
      InjectPinnedBonePoses(anim);
      RefreshedPinnedRecorded(pinned0, anim, boneIdToIkBoneId);
      if resetIkPose {
        ResetIkBones(mdl);
      }
      solver := solver.(solveCount := solver.solveCount + 1);
      ikUpdatedEvents := ikUpdatedEvents + 1;
    }
  }
}
