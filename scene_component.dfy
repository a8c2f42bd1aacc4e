/**
 * The scene-slot allocator of the client's scene component: a process-wide
 * table of 32 scene slots, each with a use count and, for a root scene, the
 * scene that owns it; the one-bit mask of a slot; and the per-scene flags for
 * a parent scene and a valid renderer.
 *
 * The global tables are one SceneTables object passed to the operations that
 * touch them.  Entity and component creation and the renderer's own reload are
 * outside the model; their outcomes are parameters.
 */
module SceneSlots {
  import opened Wrappers

  /** The number of scene slots: the size of g_sceneUseCount and g_scenes. */
  const MaxScenes: nat := 32

  /** std::numeric_limits<SceneIndex>::max(): the index of a scene that holds no slot. */
  const InvalidSceneIndex: nat := 255

  /** uint32_t. */
  newtype uint32 = x: int | 0 <= x < 0x1_0000_0000

  /** ++ on a uint32, wrapping at 2^32. */
  function Inc32(x: uint32): (r: uint32)
    ensures x < 0xFFFF_FFFF ==> r as int == x as int + 1
    ensures x == 0xFFFF_FFFF ==> r == 0
  {
    if x == 0xFFFF_FFFF then 0 else x + 1
  }

  /** -- on a uint32, wrapping below 0. */
  function Dec32(x: uint32): (r: uint32)
    ensures x > 0 ==> r as int == x as int - 1
    ensures x == 0 ==> r == 0xFFFF_FFFF
  {
    if x == 0 then 0xFFFF_FFFF else x - 1
  }

  /** The size of a renderer's render target. */
  datatype Extent = Extent(width: nat, height: nat)

  // ---------------------------------------------------------------------------
  // Slot masks
  // ---------------------------------------------------------------------------

  /** Whether bit `j` of a 32-bit mask is set. */
  predicate BitSet(flag: bv32, j: nat)
    requires j < 32
  {
    flag & ((1 as bv32) << j) != 0
  }

  /** GetSceneFlag: the mask of a slot has exactly the slot's bit set. */
  function GetSceneFlag(sceneIndex: nat): (flag: bv32)
    requires sceneIndex < MaxScenes
    ensures forall j :: 0 <= j < 32 ==> (BitSet(flag, j) <==> j == sceneIndex)
  {
    (1 as bv32) << sceneIndex
  }

  /** The lowest set bit of `flag` at or above `from`, or 32 when there is none. */
  function LowestSetBitFrom(flag: bv32, from: nat): (r: nat)
    requires from <= 32
    ensures from <= r <= 32
    ensures r < 32 ==> BitSet(flag, r)
    ensures forall j :: from <= j < r ==> !BitSet(flag, j)
    decreases 32 - from
  {
    if from == 32 then 32
    else if BitSet(flag, from) then from
    else LowestSetBitFrom(flag, from + 1)
  }

  /**
   * GetSceneIndex: the index of the lowest set bit of a mask.  For a mask with
   * no bit set the model answers 32, an index no slot has.
   */
  function GetSceneIndex(flag: bv32): (r: nat)
    ensures r <= 32
    ensures r < 32 <==> flag != 0
    ensures r < 32 ==> BitSet(flag, r) && forall j :: 0 <= j < r ==> !BitSet(flag, j)
  {
    var r := LowestSetBitFrom(flag, 0);
    assert r == 32 ==> flag == 0 by {
      if r == 32 {
        assert forall j :: 0 <= j < 32 ==> !BitSet(flag, j);
        NoBitSetIsZero(flag);
      }
    }
    r
  }

  /** A mask none of whose 32 bits is set is zero. */
  lemma NoBitSetIsZero(flag: bv32)
    requires forall j :: 0 <= j < 32 ==> !BitSet(flag, j)
    ensures flag == 0
  {
    assert !BitSet(flag, 0) && !BitSet(flag, 1) && !BitSet(flag, 2) && !BitSet(flag, 3);
    assert !BitSet(flag, 4) && !BitSet(flag, 5) && !BitSet(flag, 6) && !BitSet(flag, 7);
    assert !BitSet(flag, 8) && !BitSet(flag, 9) && !BitSet(flag, 10) && !BitSet(flag, 11);
    assert !BitSet(flag, 12) && !BitSet(flag, 13) && !BitSet(flag, 14) && !BitSet(flag, 15);
    assert !BitSet(flag, 16) && !BitSet(flag, 17) && !BitSet(flag, 18) && !BitSet(flag, 19);
    assert !BitSet(flag, 20) && !BitSet(flag, 21) && !BitSet(flag, 22) && !BitSet(flag, 23);
    assert !BitSet(flag, 24) && !BitSet(flag, 25) && !BitSet(flag, 26) && !BitSet(flag, 27);
    assert !BitSet(flag, 28) && !BitSet(flag, 29) && !BitSet(flag, 30) && !BitSet(flag, 31);
  }

  /** A slot's mask gives back the slot. */
  lemma SceneFlagRoundTrip(sceneIndex: nat)
    requires sceneIndex < MaxScenes
    ensures GetSceneIndex(GetSceneFlag(sceneIndex)) == sceneIndex
  {
    var flag := GetSceneFlag(sceneIndex);
    assert BitSet(flag, sceneIndex);
  }

  /** Distinct slots have distinct masks, which share no bit. */
  lemma SceneFlagsDisjoint(i: nat, j: nat)
    requires i < MaxScenes && j < MaxScenes && i != j
    ensures GetSceneFlag(i) & GetSceneFlag(j) == 0
  {
    var a, b := GetSceneFlag(i), GetSceneFlag(j);
    var both := a & b;
    forall k | 0 <= k < 32 ensures !BitSet(both, k) {
      assert !BitSet(a, k) || !BitSet(b, k);
    }
    NoBitSetIsZero(both);
  }

  // ---------------------------------------------------------------------------
  // The slot tables
  // ---------------------------------------------------------------------------

  /** The lowest slot whose use count is zero, as std::find(begin, end, 0) finds it. */
  function FirstFreeSlot(counts: seq<uint32>): (r: Option<nat>)
    ensures r.None? <==> 0 !in counts
    ensures r.Some? ==> r.value < |counts| && counts[r.value] == 0 && 0 !in counts[..r.value]
  {
    if counts == [] then None
    else if counts[0] == 0 then Some(0)
    else
      var rest := FirstFreeSlot(counts[1..]);
      assert counts == [counts[0]] + counts[1..];
      if rest.None? then None
      else
        assert counts[..rest.value + 1] == [counts[0]] + counts[1..][..rest.value];
        Some(rest.value + 1)
  }

  /** The process-wide scene tables g_sceneUseCount, g_scenes and g_numScenes, and the shared instance buffer. */
  class SceneTables {
    /** g_sceneUseCount: how many scenes use each slot. */
    const useCount: array<uint32>
    /** g_scenes: the root scene of each slot, or null. */
    const scenes: array<Scene?>
    /** g_numScenes: how many scene components exist. */
    var numScenes: uint32
    /** Whether g_entityInstanceIndexBuffer is allocated. */
    var hasInstanceIndexBuffer: bool

    ghost predicate Valid()
      reads this
    {
      useCount.Length == MaxScenes && scenes.Length == MaxScenes
    }

    /** The tables at program start: every slot unused and empty, no scenes. */
    constructor ()
      ensures Valid() && fresh(useCount) && fresh(scenes)
      ensures forall i :: 0 <= i < MaxScenes ==> useCount[i] == 0 && scenes[i] == null
      ensures numScenes == 0 && !hasInstanceIndexBuffer
    {
      useCount := new uint32[MaxScenes](_ => 0);
      scenes := new Scene?[MaxScenes](_ => null);
      numScenes := 0;
      hasInstanceIndexBuffer := false;
    }

    /** GetByIndex: the root scene of a slot; null past the last slot. */
    function GetByIndex(sceneIndex: nat): (r: Scene?)
      requires Valid()
      reads this, scenes
      ensures sceneIndex >= MaxScenes ==> r == null
      ensures sceneIndex < MaxScenes ==> r == scenes[sceneIndex]
    {
      if sceneIndex < scenes.Length then scenes[sceneIndex] else null
    }

    /** The search Create runs for a slot without a parent: the lowest unused slot. */
    method FindFreeSlot() returns (r: Option<nat>)
      requires Valid()
      ensures r == FirstFreeSlot(useCount[..])
      ensures r.Some? ==> r.value < MaxScenes && useCount[r.value] == 0
                          && forall k :: 0 <= k < r.value ==> useCount[k] != 0
      ensures r.None? ==> forall k :: 0 <= k < MaxScenes ==> useCount[k] != 0
    {
      var i := 0;
      while i < useCount.Length
        invariant 0 <= i <= useCount.Length
        invariant forall k :: 0 <= k < i ==> useCount[k] != 0
      {
        if useCount[i] == 0 {
          assert 0 !in useCount[..][..i];
          return Some(i);
        }
        i := i + 1;
      }
      assert 0 !in useCount[..];
      return None;
    }

    /**
     * Create: a child scene shares its parent's slot; a root scene takes the
     * lowest unused slot and fails, changing nothing, when all are in use.  It
     * also fails, changing nothing, when the scene entity or its component
     * cannot be created.  Otherwise the slot's use count goes up by one, a
     * root scene is recorded as the slot's scene, and a child scene is marked
     * as having a parent.
     */
    method Create(optParent: Scene?, entityCreated: bool, componentCreated: bool) returns (scene: Scene?)
      requires Valid()
      requires optParent != null ==> optParent.sceneIndex < MaxScenes
      modifies this, useCount, scenes
      ensures Valid()
      ensures var slot := if optParent != null then Some(optParent.sceneIndex) else FirstFreeSlot(old(useCount[..]));
              if slot.None? || !entityCreated || !componentCreated then
                && scene == null
                && useCount[..] == old(useCount[..]) && scenes[..] == old(scenes[..])
                && numScenes == old(numScenes) && hasInstanceIndexBuffer == old(hasInstanceIndexBuffer)
              else
                && scene != null && fresh(scene)
                && scene.sceneIndex == slot.value
                && scene.hasParentScene == (optParent != null)
                && !scene.validRenderer
                && useCount[..] == old(useCount[..])[slot.value := Inc32(old(useCount[slot.value]))]
                && scenes[..] == (if optParent == null then old(scenes[..])[slot.value := scene] else old(scenes[..]))
                && numScenes == Inc32(old(numScenes))
                && hasInstanceIndexBuffer
      ensures optParent != null && old(scenes[optParent.sceneIndex]) == optParent && scene != null ==>
                scene.GetParentScene(this) == optParent
    {
      var sceneIndex: nat;
      if optParent != null {
        sceneIndex := optParent.sceneIndex;
      } else {
        var free := FindFreeSlot();
        if free.None? {
          return null;
        }
        sceneIndex := free.value;
      }
      if !entityCreated || !componentCreated {
        return null;
      }
      scene := new Scene(this);
      useCount[sceneIndex] := Inc32(useCount[sceneIndex]);
      scene.Setup(this, sceneIndex);
      if optParent == null {
        scenes[sceneIndex] := scene;
      } else {
        scene.hasParentScene := true;
      }
    }
  }

  /** CSceneComponent: the slot a scene holds and its state flags. */
  class Scene {
    /** m_sceneIndex */
    var sceneIndex: nat
    /** StateFlags::HasParentScene */
    var hasParentScene: bool
    /** StateFlags::ValidRenderer */
    var validRenderer: bool
    /** The render target size of the scene's renderer, when it has one. */
    var renderer: Option<Extent>

    /** Constructing a scene component counts it in g_numScenes; it holds no slot yet. */
    constructor (tables: SceneTables)
      modifies tables`numScenes
      ensures sceneIndex == InvalidSceneIndex && !hasParentScene && !validRenderer && renderer.None?
      ensures tables.numScenes == Inc32(old(tables.numScenes))
    {
      sceneIndex := InvalidSceneIndex;
      hasParentScene := false;
      validRenderer := false;
      renderer := None;
      new;
      tables.numScenes := Inc32(tables.numScenes);
    }

    /** Setup: records the slot and makes sure the shared instance buffer exists. */
    method Setup(tables: SceneTables, index: nat)
      modifies this`sceneIndex, tables`hasInstanceIndexBuffer
      ensures sceneIndex == index && tables.hasInstanceIndexBuffer
    {
      sceneIndex := index;
      if !tables.hasInstanceIndexBuffer {
        tables.hasInstanceIndexBuffer := true;
      }
    }

    /**
     * OnRemove: a scene without a slot touches no table.  Otherwise its slot's
     * use count goes down by one, a root scene's slot is emptied, and the scene
     * count goes down, releasing the shared buffer when it reaches zero.
     */
    method OnRemove(tables: SceneTables)
      requires tables.Valid()
      requires sceneIndex < MaxScenes || sceneIndex == InvalidSceneIndex
      modifies tables, tables.useCount, tables.scenes
      ensures sceneIndex == InvalidSceneIndex ==>
                && tables.useCount[..] == old(tables.useCount[..]) && tables.scenes[..] == old(tables.scenes[..])
                && tables.numScenes == old(tables.numScenes)
                && tables.hasInstanceIndexBuffer == old(tables.hasInstanceIndexBuffer)
      ensures sceneIndex < MaxScenes ==>
                && tables.useCount[..] == old(tables.useCount[..])[sceneIndex := Dec32(old(tables.useCount[sceneIndex]))]
                && tables.scenes[..] == (if hasParentScene then old(tables.scenes[..]) else old(tables.scenes[..])[sceneIndex := null])
                && tables.numScenes == Dec32(old(tables.numScenes))
                && tables.hasInstanceIndexBuffer == (old(tables.hasInstanceIndexBuffer) && tables.numScenes != 0)
    {
      if sceneIndex == InvalidSceneIndex {
        return;
      }
      tables.useCount[sceneIndex] := Dec32(tables.useCount[sceneIndex]);
      if !hasParentScene {
        tables.scenes[sceneIndex] := null;
      }
      tables.numScenes := Dec32(tables.numScenes);
      if tables.numScenes == 0 {
        tables.hasInstanceIndexBuffer := false;
      }
    }

    /** GetParentScene: null for a root scene; for a child, the root scene of its slot. */
    function GetParentScene(tables: SceneTables): (r: Scene?)
      requires tables.Valid()
      reads this, tables, tables.scenes
      ensures !hasParentScene ==> r == null
      ensures hasParentScene && sceneIndex < MaxScenes ==> r == tables.scenes[sceneIndex]
      ensures hasParentScene && sceneIndex >= MaxScenes ==> r == null
    {
      if !hasParentScene then null else tables.GetByIndex(sceneIndex)
    }

    /** IsValid: whether the last render-target reload succeeded. */
    predicate IsValid()
      reads this
      ensures IsValid() <==> validRenderer
    {
      validRenderer
    }

    /** GetWidth: the render target's width, or 0 without a renderer. */
    function GetWidth(): (r: nat)
      reads this
      ensures renderer.None? ==> r == 0
      ensures renderer.Some? ==> r == renderer.value.width
    {
      if renderer.Some? then renderer.value.width else 0
    }

    /** GetHeight: the render target's height, or 0 without a renderer. */
    function GetHeight(): (r: nat)
      reads this
      ensures renderer.None? ==> r == 0
      ensures renderer.Some? ==> r == renderer.value.height
    {
      if renderer.Some? then renderer.value.height else 0
    }

    /**
     * ReloadRenderTarget: the renderer is invalid until a renderer exists and
     * its reload succeeds; `rendererReloads` is the outcome of that reload, which
     * gives the render target the requested size.
     */
    method ReloadRenderTarget(width: nat, height: nat, rendererReloads: bool)
      modifies this`validRenderer, this`renderer
      ensures IsValid() <==> old(renderer).Some? && rendererReloads
      ensures renderer == if IsValid() then Some(Extent(width, height)) else old(renderer)
    {
      validRenderer := false;
      if renderer.None? || !rendererReloads {
        return;
      }
      renderer := Some(Extent(width, height));
      validRenderer := true;
    }

    /**
     * Resize: nothing happens without a renderer, or when no reload is forced
     * and the size is the current one; otherwise the render target is reloaded.
     * After a successful reload the render target has the requested size, so
     * the same Resize without a forced reload does nothing.
     */
    method Resize(width: nat, height: nat, reload: bool, rendererReloads: bool)
      modifies this`validRenderer, this`renderer
      ensures old(renderer).None? || (!reload && width == old(GetWidth()) && height == old(GetHeight())) ==>
                validRenderer == old(validRenderer) && renderer == old(renderer)
      ensures old(renderer).Some? && (reload || width != old(GetWidth()) || height != old(GetHeight())) ==>
                && (IsValid() <==> rendererReloads)
                && renderer == if rendererReloads then Some(Extent(width, height)) else old(renderer)
      ensures old(renderer).Some? && rendererReloads ==> GetWidth() == width && GetHeight() == height
    {
      if renderer.None? || (!reload && width == GetWidth() && height == GetHeight()) {
        return;
      }
      ReloadRenderTarget(width, height, rendererReloads);
    }
  }
}
