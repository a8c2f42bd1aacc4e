# IK solver component and scene slots, modelled in Dafny

This project models two parts of the Pragma engine.

The first is the bookkeeping of the inverse-kinematics solver component (`IkSolverComponent`):
- the two-way map between skeletal bone ids and solver bone ids;
- the controls keyed by skeletal bone, their dynamically registered `control/<bone>/position|rotation|pose` properties and those properties' setters;
- the parser that recovers a bone from such a property path;
- the list of pinned bones;
- the joint adders, which add a joint only when `GetConstraintBones` resolves both bones;
- the dirty-tracking `Solve` tick, and `ResetIkBones` and `InitializeSolver`;
- the defaults of `ConstraintInfo`, `JointInfo` and the control adders.

The second is the client scene component's slot allocator:
- the 32-entry use-count and root-scene tables, and the scene count;
- `Create` and `OnRemove`;
- the one-bit slot masks;
- `GetByIndex` and `GetParentScene`;
- the `ValidRenderer` flag managed by `ReloadRenderTarget`, `Resize` and `IsValid`.

Files:
- `wrappers.dfy`: `Option`.
- `geometry.dfy`: vectors, quaternions and transforms over exact reals; the pose-change tolerance test used by `Solve`.
- `ik_types.dfy` (module `IkTypes`):
  - the skeleton as seen by the component, and the solver's bones, controls and joints as values;
  - the argument records and their defaults;
  - the property-path functions;
  - the functions that specify one `Solve` tick, and the lemmas about them.
- `ik_solver_component.dfy` (module `IkSolver`): the class `IkSolverComponent`. Its methods update its fields in place under the invariant `Valid()`:
  - the bone maps are inverse to each other and dense over the solver's bones;
  - every control and every pinned bone is recorded against a registered bone;
  - pinned entries are distinct;
  - joints name existing bones.
- `scene_component.dfy` (module `SceneSlots`): the class `SceneTables` (two arrays of 32 entries, `g_numScenes` with explicit 32-bit wrap-around, and whether the shared instance buffer exists) and the class `Scene`.

Inputs that come from outside the component are parameters:
- the entity's model: its skeleton's bone names and its reference pose;
- the animated component's object-space bone poses;
- whether entity and component creation succeeded;
- whether the renderer's reload succeeded.

The numerical solver is a value whose `Solve` only counts calls. Event broadcasts are counters.

## Model

| member | source | states |
|---|---|---|
| IkTypes.LookupBone | core/shared/src/entities/components/ik_solver_component.cpp:294-298 | a name resolves to the index of its first occurrence among the skeleton's bone names, and to -1 exactly when the skeleton has no such bone |
| IkTypes.GetReferenceBonePose | core/shared/src/entities/components/ik_solver_component.cpp:182-188 | a reference pose exists exactly when the entity has a model whose reference pose holds the bone, and it is that pose |
| IkTypes.ClampMaxForce | core/shared/src/entities/components/ik_solver_component.cpp:368 | a negative maximum force becomes the largest float; any other is kept; the result is never negative |
| IkTypes.NewControl | core/shared/src/entities/components/ik_solver_component.cpp:338-369 | a new control has the requested kind and targets the bone's current position, and also its rotation for state and oriented-drag controls; its maximum force is clamped and its rigidity kept |
| IkTypes.NewConstraintInfo | core/shared/include/pragma/entities/components/ik_solver_component.hpp:51-58 | a ConstraintInfo for two bones has rigidity 1000 and a negative (unlimited) maximum force |
| IkTypes.NewJointInfo | core/shared/include/pragma/entities/components/ik_solver_component.hpp:63-73 | a JointInfo for two bones has maximum angle 0 and rigidity 1 |
| IkTypes.MakeJoint | core/shared/src/entities/components/ik_solver_component.cpp:213-252 | each joint kind joins the two solver bones; a ball-socket joint carries the anchor; the others carry both axes; swing and twist limits carry the maximum angle converted from degrees to radians |
| IkTypes.Unlisted | core/shared/src/entities/components/ik_solver_component.cpp:170-172 | removing a bone's entries leaves no entry for that bone and adds none |
| IkTypes.UnlistedKeepsOthers | core/shared/src/entities/components/ik_solver_component.cpp:170-172 | removing a bone's entries keeps every entry for any other bone |
| IkTypes.EraseIsUnlisted | core/shared/src/entities/components/ik_solver_component.cpp:170-172 | erasing the one entry found for a bone from a distinct pinned list is the same as dropping every entry for that bone |
| IkTypes.UnlistedAbsent | core/shared/src/entities/components/ik_solver_component.cpp:167-172 | dropping a bone that is not listed leaves the pinned list as it was |
| IkTypes.ControlMembers | core/shared/src/entities/components/ik_solver_component.cpp:370-474 | a drag control registers one Vector3 property, `control/<bone>/position`; state and oriented-drag controls also register the Quaternion `rotation` and Transform `pose` properties; every property addresses the control's bone |
| IkTypes.ComponentEnd | core/shared/src/entities/components/ik_solver_component.cpp:278-282 | a path component ends at the next `/` or at the end of the path, with no `/` before it |
| IkTypes.GetControlBoneName | core/shared/src/entities/components/ik_solver_component.cpp:276-286 | a path names a bone exactly when its first component is `control` and its second is non-empty, and the bone name is that second component |
| IkTypes.ControlPropertyRoundTrip | core/shared/src/entities/components/ik_solver_component.cpp:375-377 | parsing any property name registered for a bone whose name is non-empty and contains no `/` gives back that bone's name |
| IkTypes.GetControlBoneId | core/shared/src/entities/components/ik_solver_component.cpp:287-300 | a path resolves to a bone id exactly when it names a bone, the entity has a model, and the skeleton has a bone of that name; the id is a valid bone index |
| IkTypes.ControlBoneIdOfRegisteredPath | core/shared/src/entities/components/ik_solver_component.cpp:287-300 | in a skeleton with distinct bone names, every property path registered for a bone whose name is non-empty and contains no `/` resolves back to that bone |
| IkTypes.InjectPinnedPoses | core/shared/src/entities/components/ik_solver_component.cpp:580-596 | injecting animated poses keeps the number of solver bones and each bone's name, radius, length and pinned flag |
| IkTypes.InjectPinnedPosesAt | core/shared/src/entities/components/ik_solver_component.cpp:580-596 | after injection, a pinned bone with an animated pose sits at that pose's position and rotation |
| IkTypes.InjectPinnedPosesElsewhere | core/shared/src/entities/components/ik_solver_component.cpp:580-596 | injection leaves every solver bone that no pinned entry refers to untouched |
| IkTypes.RefreshedPinned | core/shared/src/entities/components/ik_solver_component.cpp:596 | refreshing the last-seen poses keeps each entry's bone and solver bone |
| IkTypes.RefreshedPinnedRecorded | core/shared/src/entities/components/ik_solver_component.cpp:580-596 | refreshing the last-seen poses preserves the invariant that every pinned entry is distinct and recorded against its bone |
| IkTypes.RefreshedPinnedUnchanged | core/shared/src/entities/components/ik_solver_component.cpp:561-577 | right after a tick has recorded the animated poses, the same poses count as unchanged, so the next tick is clean |
| IkTypes.ResetBones | core/shared/src/entities/components/ik_solver_component.cpp:606-623 | resetting keeps every pinned bone and every bone without a reference pose, and moves each other bone to its reference position and rotation |
| IkTypes.TickPinnedBone | core/shared/src/entities/components/ik_solver_component.cpp:580-603 | before the numerical solve of a tick, each pinned bone with an animated pose sits at that pose, whether or not the rig is reset |
| IkSolver.IkSolverComponent.constructor | core/shared/include/pragma/entities/components/ik_solver_component.hpp:120-122 | a new component holds no bones, controls or pinned bones, needs no update, and resets the rig before solving |
| IkSolver.IkSolverComponent.InitializeSolver | core/shared/src/entities/components/ik_solver_component.cpp:114-128 | initialising clears the controls, both bone maps, the pinned bones and the registered properties, replaces the solver with an empty one, and broadcasts the initialise event once |
| IkSolver.IkSolverComponent.ResetIkRig | core/shared/src/entities/components/ik_solver_component.cpp:558 | resetting the rig is initialising the solver |
| IkSolver.IkSolverComponent.SetResetSolver | core/shared/src/entities/components/ik_solver_component.cpp:556-557 | the reset flag becomes the given value |
| IkSolver.IkSolverComponent.ShouldResetSolver | core/shared/src/entities/components/ik_solver_component.cpp:557 | reads back the reset flag that SetResetSolver sets |
| IkSolver.IkSolverComponent.GetBoneCount | core/shared/src/entities/components/ik_solver_component.cpp:148 | the solver's bone count covers exactly the solver ids that have a skeletal bone |
| IkSolver.IkSolverComponent.GetIkBoneId | core/shared/src/entities/components/ik_solver_component.cpp:269-275 | a skeletal bone has a solver bone exactly when it was added, and the reverse map gives it back |
| IkSolver.IkSolverComponent.GetSkeletalBoneId | core/shared/src/entities/components/ik_solver_component.cpp:301-307 | a solver bone id has a skeletal bone exactly when it is below the solver's bone count, and the forward map gives it back |
| IkSolver.IkSolverComponent.GetBone | core/shared/src/entities/components/ik_solver_component.cpp:156-162 | the solver bone of a skeletal bone exists exactly when the bone was added, and it is the solver's bone at the mapped id |
| IkSolver.IkSolverComponent.GetIkBone | core/shared/src/entities/components/ik_solver_component.cpp:308-314 | looking a bone up through its solver id gives the same bone as GetBone |
| IkSolver.IkSolverComponent.GetControl | core/shared/src/entities/components/ik_solver_component.cpp:149-155 | a bone has a control exactly when one was added for it, and it is the solver's control on the bone's solver bone |
| IkSolver.IkSolverComponent.AddBone | core/shared/src/entities/components/ik_solver_component.cpp:544-555 | adding a bone that is already present changes nothing; otherwise the solver gains one bone at the next id with the given pose, name, radius and length, and both maps record the pair |
| IkSolver.IkSolverComponent.AddSkeletalBone | core/shared/src/entities/components/ik_solver_component.cpp:129-144 | a skeletal bone is added with radius 1 and length 1 at its reference pose exactly when the entity has a model whose skeleton and reference pose hold it and it was not added before; otherwise nothing changes |
| IkSolver.IkSolverComponent.FindPinned | core/shared/src/entities/components/ik_solver_component.cpp:167 | the search finds the first pinned entry for the bone, and finds none exactly when the bone is not listed |
| IkSolver.IkSolverComponent.SetBoneLocked | core/shared/src/entities/components/ik_solver_component.cpp:163-181 | an unknown bone changes nothing; otherwise the solver bone's pinned flag becomes the argument; unlocking removes the bone's entry; a bone not yet listed is appended with its solver id, even when it is being unlocked |
| IkSolver.IkSolverComponent.GetConstraintBones | core/shared/src/entities/components/ik_solver_component.cpp:189-212 | two bones resolve exactly when both were added to the solver and the model's reference pose holds both; the result names their solver bones and reference poses |
| IkSolver.IkSolverComponent.AddJoint | core/shared/src/entities/components/ik_solver_component.cpp:213-252 | a joint is appended exactly when both bones resolve, and nothing else about the solver changes |
| IkSolver.IkSolverComponent.AddBallSocketJoint | core/shared/src/entities/components/ik_solver_component.cpp:213-220 | appends a ball-socket joint at the anchor when both bones resolve |
| IkSolver.IkSolverComponent.AddSwingLimit | core/shared/src/entities/components/ik_solver_component.cpp:221-228 | appends a swing limit with both axes and the maximum angle in radians when both bones resolve |
| IkSolver.IkSolverComponent.AddTwistLimit | core/shared/src/entities/components/ik_solver_component.cpp:229-236 | appends a twist limit with both axes and the maximum angle in radians when both bones resolve |
| IkSolver.IkSolverComponent.AddSwivelHingeJoint | core/shared/src/entities/components/ik_solver_component.cpp:237-244 | appends a swivel-hinge joint with both axes when both bones resolve |
| IkSolver.IkSolverComponent.AddTwistJoint | core/shared/src/entities/components/ik_solver_component.cpp:245-252 | appends a twist joint with both axes when both bones resolve |
| IkSolver.IkSolverComponent.AddControl | core/shared/src/entities/components/ik_solver_component.cpp:315-525 | without a model, a skeleton bone, a solver bone, or when the bone already has a control, nothing changes; otherwise a control of the requested kind is added on the bone's solver bone, recorded for the bone, and its properties are registered; an existing control is kept |
| IkSolver.IkSolverComponent.AddDragControl | core/shared/src/entities/components/ik_solver_component.cpp:145 | adds a drag control; the defaults are maximum force -1 (unlimited) and rigidity 1 |
| IkSolver.IkSolverComponent.AddStateControl | core/shared/src/entities/components/ik_solver_component.cpp:146 | adds a state control with the same defaults |
| IkSolver.IkSolverComponent.AddOrientedDragControl | core/shared/src/entities/components/ik_solver_component.cpp:147 | adds an oriented-drag control with the same defaults |
| IkSolver.IkSolverComponent.GetControlTargetPosition | core/shared/src/entities/components/ik_solver_component.cpp:399-406 | the position property reads the control's target position, and exists exactly when the bone has a control |
| IkSolver.IkSolverComponent.GetControlTargetRotation | core/shared/src/entities/components/ik_solver_component.cpp:426-433 | the rotation property reads the control's target rotation, and exists exactly when the bone has a control |
| IkSolver.IkSolverComponent.GetControlTargetPose | core/shared/src/entities/components/ik_solver_component.cpp:456-464 | the pose property reads the control's target position and rotation together |
| IkSolver.IkSolverComponent.SetControlTargetPosition | core/shared/src/entities/components/ik_solver_component.cpp:407-413 | without a control nothing changes; otherwise only the control's target position changes, and an update is requested |
| IkSolver.IkSolverComponent.SetControlTargetRotation | core/shared/src/entities/components/ik_solver_component.cpp:434-440 | without a control nothing changes; otherwise only the control's target rotation changes, and an update is requested |
| IkSolver.IkSolverComponent.SetControlTargetPose | core/shared/src/entities/components/ik_solver_component.cpp:465-473 | without a control nothing changes; otherwise the control's target position and rotation become the pose's, and an update is requested |
| IkSolver.IkSolverComponent.ResetIkBones | core/shared/src/entities/components/ik_solver_component.cpp:606-623 | the loop leaves the solver's bones as ResetBones states and changes nothing else |
| IkSolver.IkSolverComponent.AnyPinnedBoneMoved | core/shared/src/entities/components/ik_solver_component.cpp:563-575 | the scan reports a change exactly when some pinned bone's animated pose differs from its last-seen pose beyond the tolerances |
| IkSolver.IkSolverComponent.InjectPinnedBonePoses | core/shared/src/entities/components/ik_solver_component.cpp:583-598 | the loop moves each pinned solver bone to its animated pose and records that pose as last seen |
| IkSolver.IkSolverComponent.Solve | core/shared/src/entities/components/ik_solver_component.cpp:561-605 | a tick always clears the update request and raises the updated event once; a clean tick (no request, no pinned bone moved) changes nothing else; otherwise the pinned poses are injected and refreshed, the rig is reset when requested, and the solver runs once |
| SceneSlots.Inc32 | core/client/src/entites/components/c_scene_component.cpp:115 | incrementing a 32-bit count adds one, wrapping to zero at the top |
| SceneSlots.Dec32 | core/client/src/entites/components/c_scene_component.cpp:147 | decrementing a 32-bit count subtracts one, wrapping to the top below zero |
| SceneSlots.GetSceneFlag | core/client/src/entites/components/c_scene_component.cpp:241-244 | a slot's mask has exactly the slot's bit set |
| SceneSlots.LowestSetBitFrom | core/client/src/entites/components/c_scene_component.cpp:246-249 | the scan finds the lowest set bit at or above its start, or 32 when there is none |
| SceneSlots.GetSceneIndex | core/client/src/entites/components/c_scene_component.cpp:246-249 | a mask's index is its lowest set bit; a mask with no bit set gives 32 |
| SceneSlots.NoBitSetIsZero | core/client/src/entites/components/c_scene_component.cpp:246-249 | a mask with none of its 32 bits set is zero |
| SceneSlots.SceneFlagRoundTrip | core/client/src/entites/components/c_scene_component.cpp:241-249 | the index of a slot's mask is the slot |
| SceneSlots.SceneFlagsDisjoint | core/client/src/entites/components/c_scene_component.cpp:241-244 | masks of distinct slots share no bit |
| SceneSlots.FirstFreeSlot | core/client/src/entites/components/c_scene_component.cpp:100-104 | the free slot is the first slot whose use count is zero, and there is none exactly when every count is non-zero |
| SceneSlots.SceneTables.constructor | core/client/src/entites/components/c_scene_component.cpp:86-88 | at start every slot is unused and empty, and there are no scenes |
| SceneSlots.SceneTables.GetByIndex | core/client/src/entites/components/c_scene_component.cpp:236-239 | a slot's root scene, and null past the last slot |
| SceneSlots.SceneTables.FindFreeSlot | core/client/src/entites/components/c_scene_component.cpp:100-104 | the loop returns the lowest unused slot, or none when all 32 are in use |
| SceneSlots.SceneTables.Create | core/client/src/entites/components/c_scene_component.cpp:93-124 | a child shares its parent's slot; a root takes the lowest unused slot; when no slot is free or creation fails, nothing changes; otherwise the slot's count goes up by one, a root becomes the slot's scene, a child is marked as having a parent; when the parent is the root scene recorded in its slot, the child's parent scene is that parent |
| SceneSlots.Scene.constructor | core/client/src/entites/components/c_scene_component.cpp:126-131 | constructing a scene component adds one to the scene count; the scene holds no slot yet |
| SceneSlots.Scene.Setup | core/client/src/entites/components/c_scene_component.cpp:173-188 | setup records the slot and makes sure the shared instance buffer exists |
| SceneSlots.Scene.OnRemove | core/client/src/entites/components/c_scene_component.cpp:137-165 | a scene without a slot touches no table; otherwise its slot's count goes down by one, a root scene's slot is emptied, and the scene count goes down, releasing the shared buffer at zero |
| SceneSlots.Scene.GetParentScene | core/client/src/entites/components/c_scene_component.cpp:615-620 | a root scene has no parent; a child's parent is the root scene of its slot |
| SceneSlots.Scene.IsValid | core/client/src/entites/components/c_scene_component.cpp:613 | a scene is valid exactly when its ValidRenderer flag is set, which only a successful render-target reload sets |
| SceneSlots.Scene.GetWidth | core/client/src/entites/components/c_scene_component.cpp:624 | the render target's width, or 0 without a renderer |
| SceneSlots.Scene.GetHeight | core/client/src/entites/components/c_scene_component.cpp:625 | the render target's height, or 0 without a renderer |
| SceneSlots.Scene.ReloadRenderTarget | core/client/src/entites/components/c_scene_component.cpp:629-637 | the renderer is valid after a reload exactly when a renderer exists and its reload succeeded; a successful reload gives the render target the requested size |
| SceneSlots.Scene.Resize | core/client/src/entites/components/c_scene_component.cpp:569-574 | without a renderer, or without a forced reload when the size is unchanged, nothing changes; otherwise validity is the reload's outcome, and after a successful reload the size is the requested one, so repeating the call without a forced reload does nothing |

## Left out

- The numerical IK solver (pragma::ik::Solver) is not part of this model. Its `Solve` is a call counter that moves no bone, so what the model states about bone poses after a tick holds before the numerical solve. Its bones, controls and joints are plain values.
- UpdateSolverSettings, UpdateGlobalSolverSettings and their console variables: they only tune the numerical solver.
- Rig loading: UpdateIkRig, AddIkSolverByRig, AddIkSolverByChain, SetIkRigFile and UpdateIkRigFile. These read rig files and rig configurations that are not part of this model.
- AddFixedConstraint, AddHingeConstraint and AddBallSocketConstraint: their bodies are not part of this model, so only the ConstraintInfo defaults are modelled.
- Component registration, Lua bindings, GetMemberInfo and DoGetMemberIndex: the registered properties are modelled as a sequence of name, type and bone entries, without the engine's member registry.
- Floating point: poses, tolerances and forces are exact reals, so rounding is not modelled. The largest float is its exact value.
- util::Path normalisation (backslashes, repeated separators, `..`) is not modelled: property paths are split on `/` as written.
- Aliasing through GetIkSolver and the shared control pointers: the solver is a value owned by the component.
- The component before spawn, when it has no solver yet, is not modelled: the model always has a solver.
- Logging (spdlog) is left out.
- IkSolver.IkSolverComponent.GetControlTargetPosition: for a bone without a control the source's property getters write a default value, and the model answers None. A registered property always names a bone with a control, so no property read reaches that case. The same holds for GetControlTargetRotation and GetControlTargetPose.
- IkTypes.RefreshedPinnedUnchanged: proved only for animated poses with unit rotations, because the dot-product test of a non-unit quaternion with itself can fall below the tolerance.
- IkTypes.LookupBone: the skeleton's own lookup is not part of this model; it is taken to return the first bone with the name.
- The JointInfo rigidity is modelled as a field but not passed to any joint, as in the joint adders.
- Rendering: camera, fog, shadow and render-settings buffers, descriptor sets, world environment, render queues and the per-entity removal from a removed scene are left out. The shared instance buffer is modelled only as present or absent.
- Scene entity spawning is left out, and so is the renderer's own reload. Its outcome is a parameter. A successful reload is taken to give the render target the requested size, and a failed one to keep the old size; the renderer's code is not part of this model.
- SceneSlots.InvalidSceneIndex: the SceneIndex type is declared in a header that is not part of this model; the sentinel is taken as 255, the largest 8-bit value.
- SceneSlots.GetSceneIndex: the engine's lowest-set-bit helper is not part of this model, and its result for a zero mask is unknown; the model answers 32.
- SceneSlots.SceneTables.Create: requires a parent's slot to be below 32. The source's bounds-checked table access would throw for any other slot, and that exception is not modelled.
- SceneSlots.Scene.OnRemove: requires the scene's slot to be below 32 or the sentinel. For any other index the source's bounds-checked table access would throw, and that exception is not modelled; Create only hands out slots below 32.
- SceneSlots.Scene.OnRemove: the debug-only assertion on the use counts is left out; a count of zero wraps like the source's unsigned decrement.
