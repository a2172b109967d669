/**
 * `UCineCameraCaptureComponent`: a cine camera that renders its view into
 * an offscreen target. Its fields are updated in place by the methods
 * below; the process-wide registry of deferred captures is the
 * `DeferredCaptures.Registry` object handed to the methods that use it.
 */
module CineCameraCapture {
  import opened Common
  import ArrayOps
  import opened Lens
  import opened CaptureRules
  import opened DeferredCaptures

  /** An opaque renderer view-state (`FSceneViewStateInterface`). */
  type Handle = nat

  /** A world as `GetWorld()` shows it to the component. */
  datatype World = World(id: WorldId, hasScene: bool, deltaTimeSeconds: real)

  /** An actor, with the primitive components `GetComponents` enumerates. */
  datatype Actor = Actor(id: ActorId, primitives: seq<PrimitiveId>)

  /** The engine calls `CaptureScene` makes. */
  datatype CaptureEvent =
    | SendAllEndOfFrameUpdates(world: WorldId)
    | UpdateSceneCaptureContents(capture: CaptureId)
    | InefficiencyWarning

  /** The handles present in the slots, in slot order. */
  function PresentHandles(slots: seq<Option<Handle>>): (r: seq<Handle>)
    ensures forall h :: h in r <==> Some(h) in slots
    ensures |r| <= |slots|
  {
    if slots == [] then []
    else
      var init, last := slots[..|slots| - 1], slots[|slots| - 1];
      assert slots == init + [last];
      PresentHandles(init) + (if last.Some? then [last.value] else [])
  }

  /** No handle sits in two slots. */
  predicate DistinctHandles(slots: seq<Option<Handle>>) {
    forall j, k :: 0 <= j < k < |slots| && slots[j].Some? && slots[k].Some? ==> slots[j].value != slots[k].value
  }

  /** When no handle sits in two slots, each present handle is listed once. */
  lemma {:induction false} PresentHandlesDistinct(slots: seq<Option<Handle>>)
    requires DistinctHandles(slots)
    ensures ArrayOps.NoDup(PresentHandles(slots))
  {
    if slots != [] {
      var init, last := slots[..|slots| - 1], slots[|slots| - 1];
      assert DistinctHandles(init) by {
        forall j, k | 0 <= j < k < |init| && init[j].Some? && init[k].Some?
          ensures init[j].value != init[k].value
        {
          assert init[j] == slots[j] && init[k] == slots[k];
        }
      }
      PresentHandlesDistinct(init);
      if last.Some? {
        forall j | 0 <= j < |init| && init[j].Some?
          ensures init[j] != last
        {
          assert init[j] == slots[j];
        }
      }
    }
  }

  class CineCameraCaptureComponent {
    const id: CaptureId

    var captureEveryFrame: bool
    var captureOnMovement: bool
    var alwaysPersistRenderingState: bool
    var captureSortPriority: Int32
    var primitiveRenderMode: PrimitiveRenderMode

    var hiddenComponents: seq<PrimitiveId>
    var showOnlyComponents: seq<PrimitiveId>
    var showOnlyActors: seq<ActorId>

    var showFlagSettings: seq<ShowFlagSetting>
    var showFlags: ShowFlags

    // Lens state; `lens` and `postProcessSettings` belong to the cine camera.
    var lens: LensConfig
    var postProcessSettings: DepthOfFieldSettings
    var cameraLensPostProcessSettings: DepthOfFieldSettings
    var currentFocusDistance: real
    var lastFocusDistance: real
    var resetInterpolation: bool

    /** One optional view state per view index (`ViewStates`). */
    var viewStates: array<Option<Handle>>
    /** The next handle the renderer allocates; handles are never reused. */
    var nextHandle: Handle
    /** Handles destroyed and handed to the renderer for deferred release. */
    ghost var released: set<Handle>

    /** Every slot holds a handle that was allocated and not yet released,
        and no handle sits in two slots. */
    ghost predicate Valid()
      reads this, viewStates
    {
      && (forall k :: 0 <= k < viewStates.Length && viewStates[k].Some? ==>
            viewStates[k].value < nextHandle && viewStates[k].value !in released)
      && DistinctHandles(viewStates[..])
      && (forall h :: h in released ==> h < nextHandle)
    }

    /** The constructor's defaults: capture every frame and on movement, no
        persistent rendering state, priority 0, and the game show flags with
        motion blur, separate translucency and HMD distortion off. */
    constructor (id: CaptureId, gameShowFlags: ShowFlags, lens: LensConfig,
                 postProcessSettings: DepthOfFieldSettings, resetInterpolation: bool)
      ensures Valid() && fresh(viewStates)
      ensures this.id == id && captureEveryFrame && captureOnMovement && !alwaysPersistRenderingState
      // The source never assigns the render mode here: the zero-initialised
      // object holds the enumeration's first value.
      ensures captureSortPriority == 0 && primitiveRenderMode == LegacySceneCapture
      ensures hiddenComponents == [] && showOnlyComponents == [] && showOnlyActors == [] && showFlagSettings == []
      ensures showFlags == gameShowFlags["MotionBlur" := false]["SeparateTranslucency" := false]["HMDDistortion" := false]
      ensures this.lens == lens && this.postProcessSettings == postProcessSettings
      ensures this.resetInterpolation == resetInterpolation
      ensures viewStates.Length == 0 && released == {}
    {
      this.id := id;
      captureEveryFrame := true;
      captureOnMovement := true;
      alwaysPersistRenderingState := false;
      captureSortPriority := 0;
      primitiveRenderMode := LegacySceneCapture;
      hiddenComponents := [];
      showOnlyComponents := [];
      showOnlyActors := [];
      showFlagSettings := [];
      showFlags := gameShowFlags["MotionBlur" := false]["SeparateTranslucency" := false]["HMDDistortion" := false];
      this.lens := lens;
      this.postProcessSettings := postProcessSettings;
      cameraLensPostProcessSettings := postProcessSettings;
      currentFocusDistance := 0.0;
      lastFocusDistance := 0.0;
      this.resetInterpolation := resetInterpolation;
      viewStates := new Option<Handle>[0];
      nextHandle := 0;
      released := {};
    }

    // ---------------------------------------------------------------------
    // Show flags and serialization

    /** `UpdateShowFlags`: start from the archetype's flags when there is an
        archetype, then apply `showFlagSettings` in order. */
    method UpdateShowFlags(archetype: Option<ShowFlags>)
      modifies this`showFlags
      ensures showFlags == ApplyShowFlagSettings(
                if archetype.Some? then archetype.value else old(showFlags), showFlagSettings)
    {
      if archetype.Some? {
        showFlags := archetype.value;
      }
      ghost var base := showFlags;
      for k := 0 to |showFlagSettings|
        invariant showFlags == ApplyShowFlagSettings(base, showFlagSettings[..k])
      {
        assert showFlagSettings[..k + 1][..k] == showFlagSettings[..k];
        var setting := showFlagSettings[k];
        if setting.name in showFlags {
          showFlags := showFlags[setting.name := setting.enabled];
        }
      }
      assert showFlagSettings[..|showFlagSettings|] == showFlagSettings;
    }

    /** `Serialize`: the version upgrades applied to the loaded or saved state. */
    method Serialize(archiveVersion: int, versions: RenderingVersions, isLoading: bool)
      modifies this`primitiveRenderMode, this`showFlags
      ensures primitiveRenderMode == UpgradedRenderMode(archiveVersion, versions,
                |showOnlyActors|, |showOnlyComponents|, old(primitiveRenderMode))
      ensures showFlags == LoadedShowFlags(old(showFlags), archiveVersion, versions, isLoading)
    {
      if archiveVersion < versions.addedUseShowOnlyList {
        if |showOnlyActors| > 0 || |showOnlyComponents| > 0 {
          primitiveRenderMode := UseShowOnlyList;
        }
      }
      if isLoading {
        if archiveVersion < versions.motionBlurAndTaaSupport {
          showFlags := showFlags["TemporalAA" := false];
          showFlags := showFlags["MotionBlur" := false];
        }
      }
    }

    // ---------------------------------------------------------------------
    // Lens

    /** The state one call of `UpdateCameraLensCapture` leaves behind. */
    twostate predicate LensUpdated(deltaTime: real, inputs: LensInputs)
      reads this
    {
      var dof, base := cameraLensPostProcessSettings, postProcessSettings;
      && lens == inputs.recalcDerivedData(old(lens))
      && !resetInterpolation
      && dof.dofMethod == base.dofMethod
      && (lens.focusMethod == FocusNone ==>
            && !dof.overrideMethod && !dof.overrideFstop
            && !dof.overrideFocalDistance && !dof.overrideSensorWidth
            && dof.fstop == base.fstop && dof.focalDistance == base.focalDistance
            && dof.sensorWidth == base.sensorWidth
            && currentFocusDistance == old(currentFocusDistance)
            && lastFocusDistance == old(lastFocusDistance))
      && (lens.focusMethod != FocusNone ==>
            var target := ClampFocusDistance(inputs.desiredFocusDistance,
                            MinFocusDistanceInWorldUnits(lens.minimumFocusDistance, inputs.worldToMetersScale));
            && dof.overrideMethod && dof.overrideFstop
            && dof.overrideFocalDistance && dof.overrideSensorWidth
            && dof.fstop == lens.currentAperture && dof.focalDistance == currentFocusDistance
            && dof.sensorWidth == lens.sensorWidth
            && currentFocusDistance ==
                 (if lens.smoothFocusChanges && !old(resetInterpolation)
                  then inputs.interpTo(old(lastFocusDistance), target, deltaTime, lens.focusSmoothingInterpSpeed)
                  else target)
            && lastFocusDistance == currentFocusDistance)
    }

    /** `UpdateCameraLensCapture`: the base class first recalculates the
        lens settings (`RecalcDerivedData`, given by `inputs`); then, without a focus method, the four
        depth-of-field overrides are off; with one they are on, the focus
        distance is the desired one clamped to the minimum focus distance,
        smoothed unless smoothing is off or a reset is pending, and
        remembered as the last focus distance. The reset flag ends cleared. */
    method UpdateCameraLensCapture(deltaTime: real, inputs: LensInputs)
      modifies this`lens, this`cameraLensPostProcessSettings, this`currentFocusDistance,
               this`lastFocusDistance, this`resetInterpolation
      ensures LensUpdated(deltaTime, inputs)
    {
      lens := inputs.recalcDerivedData(lens);
      cameraLensPostProcessSettings := postProcessSettings;
      if lens.focusMethod == FocusNone {
        cameraLensPostProcessSettings := cameraLensPostProcessSettings.(
          overrideMethod := false, overrideFstop := false,
          overrideFocalDistance := false, overrideSensorWidth := false);
      } else {
        cameraLensPostProcessSettings := cameraLensPostProcessSettings.(
          overrideMethod := true, dofMethod := postProcessSettings.dofMethod);
        cameraLensPostProcessSettings := cameraLensPostProcessSettings.(
          overrideFstop := true, fstop := lens.currentAperture);
        currentFocusDistance := inputs.desiredFocusDistance;
        var minFocusDistInWorldUnits := MinFocusDistanceInWorldUnits(lens.minimumFocusDistance, inputs.worldToMetersScale);
        currentFocusDistance := ClampFocusDistance(currentFocusDistance, minFocusDistInWorldUnits);
        if lens.smoothFocusChanges {
          if !resetInterpolation {
            currentFocusDistance := inputs.interpTo(lastFocusDistance, currentFocusDistance,
                                                    deltaTime, lens.focusSmoothingInterpSpeed);
          }
        }
        lastFocusDistance := currentFocusDistance;
        cameraLensPostProcessSettings := cameraLensPostProcessSettings.(
          overrideFocalDistance := true, focalDistance := currentFocusDistance);
        cameraLensPostProcessSettings := cameraLensPostProcessSettings.(
          overrideSensorWidth := true, sensorWidth := lens.sensorWidth);
      }
      resetInterpolation := false;
    }

    // ---------------------------------------------------------------------
    // Capturing

    /** The outcome of `CaptureSceneDeferred`: with a world that has a scene
        and a visible component, the lens is updated with the world's frame
        time and the component is registered once for that world; otherwise
        nothing changes. */
    twostate predicate CaptureRequested(registry: Registry, world: Option<World>, visible: bool, inputs: LensInputs)
      reads this, registry
    {
      if world.Some? && world.value.hasScene && visible then
        && LensUpdated(world.value.deltaTimeSeconds, inputs)
        && registry.pending == ArrayOps.AddUnique(old(registry.pending), Entry(world.value.id, id))
        && multiset(registry.pending)[Entry(world.value.id, id)] == 1
      else
        && lens == old(lens)
        && cameraLensPostProcessSettings == old(cameraLensPostProcessSettings)
        && currentFocusDistance == old(currentFocusDistance)
        && lastFocusDistance == old(lastFocusDistance)
        && resetInterpolation == old(resetInterpolation)
        && registry.pending == old(registry.pending)
    }

    /** `CaptureSceneDeferred`. */
    method CaptureSceneDeferred(registry: Registry, world: Option<World>, visible: bool, inputs: LensInputs)
      requires registry.Valid()
      modifies registry, this`lens, this`cameraLensPostProcessSettings, this`currentFocusDistance,
               this`lastFocusDistance, this`resetInterpolation
      ensures registry.Valid()
      ensures CaptureRequested(registry, world, visible, inputs)
    {
      if world.Some? && world.value.hasScene && visible {
        UpdateCameraLensCapture(world.value.deltaTimeSeconds, inputs);
        registry.AddUnique(world.value.id, id);
      }
    }

    /** `TickComponent`: requests a deferred capture only when capturing every frame. */
    method TickComponent(registry: Registry, world: Option<World>, visible: bool, inputs: LensInputs)
      requires registry.Valid()
      modifies registry, this`lens, this`cameraLensPostProcessSettings, this`currentFocusDistance,
               this`lastFocusDistance, this`resetInterpolation
      ensures registry.Valid()
      ensures captureEveryFrame ==> CaptureRequested(registry, world, visible, inputs)
      ensures !captureEveryFrame ==> unchanged(this) && unchanged(registry)
    {
      if captureEveryFrame {
        CaptureSceneDeferred(registry, world, visible, inputs);
      }
    }

    /** `SendRenderTransform_Concurrent`: requests a deferred capture only
        when capturing on movement. */
    method SendRenderTransformConcurrent(registry: Registry, world: Option<World>, visible: bool, inputs: LensInputs)
      requires registry.Valid()
      modifies registry, this`lens, this`cameraLensPostProcessSettings, this`currentFocusDistance,
               this`lastFocusDistance, this`resetInterpolation
      ensures registry.Valid()
      ensures captureOnMovement ==> CaptureRequested(registry, world, visible, inputs)
      ensures !captureOnMovement ==> unchanged(this) && unchanged(registry)
    {
      if captureOnMovement {
        CaptureSceneDeferred(registry, world, visible, inputs);
      }
    }

    /** `CaptureScene`: with a world that has a scene and a visible
        component, finishes the world's end-of-frame updates and then renders
        this component at once; warns whenever the component also captures
        every frame. */
    method CaptureScene(world: Option<World>, visible: bool) returns (events: seq<CaptureEvent>)
      ensures var renders := world.Some? && world.value.hasScene && visible;
              && |events| == (if renders then 2 else 0) + (if captureEveryFrame then 1 else 0)
              && (UpdateSceneCaptureContents(id) in events <==> renders)
              && (renders ==> events[..2] == [SendAllEndOfFrameUpdates(world.value.id), UpdateSceneCaptureContents(id)])
              && (!renders ==> forall w :: SendAllEndOfFrameUpdates(w) !in events)
              && (InefficiencyWarning in events <==> captureEveryFrame)
    {
      events := [];
      if world.Some? && world.value.hasScene && visible {
        events := events + [SendAllEndOfFrameUpdates(world.value.id)];
        events := events + [UpdateSceneCaptureContents(id)];
      }
      if captureEveryFrame {
        events := events + [InefficiencyWarning];
      }
    }

    // ---------------------------------------------------------------------
    // View states

    /** `GetViewState`: grows the slots with empty ones to cover
        `viewIndex`; returns a handle exactly when capturing every frame or
        persisting the rendering state, allocating a fresh one if the slot
        is empty, and otherwise releases the slot's handle. */
    method GetViewState(viewIndex: nat) returns (viewState: Option<Handle>)
      requires Valid()
      modifies this`viewStates, this`nextHandle, this`released, viewStates
      ensures Valid()
      ensures viewStates == old(viewStates) || fresh(viewStates)
      ensures viewStates.Length == if viewIndex < old(viewStates.Length) then old(viewStates.Length) else viewIndex + 1
      ensures forall k :: 0 <= k < viewStates.Length && k != viewIndex ==>
                viewStates[k] == if k < old(viewStates.Length) then old(viewStates[k]) else None
      ensures viewStates[viewIndex] == viewState
      ensures viewState.Some? <==> captureEveryFrame || alwaysPersistRenderingState
      ensures var prior := if viewIndex < old(viewStates.Length) then old(viewStates[viewIndex]) else None;
              if (captureEveryFrame || alwaysPersistRenderingState) && prior.None? then
                && viewState == Some(old(nextHandle)) && nextHandle == old(nextHandle) + 1
                && released == old(released)
              else if !(captureEveryFrame || alwaysPersistRenderingState) && prior.Some? then
                && released == old(released) + {prior.value} && nextHandle == old(nextHandle)
              else
                && viewState == prior && released == old(released) && nextHandle == old(nextHandle)
    {
      if viewIndex >= viewStates.Length {
        var grown := new Option<Handle>[viewIndex + 1](_ => None);
        forall k | 0 <= k < viewStates.Length {
          grown[k] := viewStates[k];
        }
        viewStates := grown;
      }
      viewState := viewStates[viewIndex];
      if (captureEveryFrame || alwaysPersistRenderingState) && viewState.None? {
        viewStates[viewIndex] := Some(nextHandle);
        viewState := Some(nextHandle);
        nextHandle := nextHandle + 1;
      } else if !captureEveryFrame && viewState.Some? && !alwaysPersistRenderingState {
        released := released + {viewState.value};
        viewStates[viewIndex] := None;
        viewState := None;
      }
    }

    /** `OnUnregister`: destroys every view state; the slots stay, empty. */
    method OnUnregister()
      requires Valid()
      modifies viewStates, this`released
      ensures Valid()
      ensures forall k :: 0 <= k < viewStates.Length ==> viewStates[k].None?
      ensures released == old(released) + set h | h in PresentHandles(old(viewStates[..]))
    {
      ghost var before := viewStates[..];
      for k := 0 to viewStates.Length
        invariant forall j :: 0 <= j < k ==> viewStates[j].None?
        invariant forall j :: k <= j < viewStates.Length ==> viewStates[j] == before[j]
        invariant released == old(released) + set h | h in PresentHandles(before[..k])
        invariant Valid()
      {
        assert before[..k + 1][..k] == before[..k];
        if viewStates[k].Some? {
          released := released + {viewStates[k].value};
        }
        viewStates[k] := None;
      }
      assert before[..viewStates.Length] == before;
    }

    /** `AddReferencedObjects`: visits every present view state once, in slot order. */
    method AddReferencedObjects() returns (visited: seq<Handle>)
      requires Valid()
      ensures forall h :: h in visited <==> exists k :: 0 <= k < viewStates.Length && viewStates[k] == Some(h)
      ensures ArrayOps.NoDup(visited)
      ensures visited == PresentHandles(viewStates[..])
    {
      visited := [];
      for k := 0 to viewStates.Length
        invariant visited == PresentHandles(viewStates[..k])
      {
        assert viewStates[..k + 1][..k] == viewStates[..k];
        if viewStates[k].Some? {
          visited := visited + [viewStates[k].value];
        }
      }
      assert viewStates[..viewStates.Length] == viewStates[..];
      PresentHandlesDistinct(viewStates[..]);
    }

    // ---------------------------------------------------------------------
    // Visibility lists

    /** `HideComponent`: adds a non-null component to the hidden list unless already there. */
    method HideComponent(component: Option<PrimitiveId>)
      modifies this`hiddenComponents
      ensures component.None? ==> hiddenComponents == old(hiddenComponents)
      ensures component.Some? ==> hiddenComponents == ArrayOps.AddUnique(old(hiddenComponents), component.value)
    {
      if component.Some? {
        hiddenComponents := ArrayOps.AddUnique(hiddenComponents, component.value);
      }
    }

    /** `HideActorComponents`: adds each of a non-null actor's primitive components
        to the hidden list unless already there. */
    method HideActorComponents(actor: Option<Actor>)
      modifies this`hiddenComponents
      ensures actor.None? ==> hiddenComponents == old(hiddenComponents)
      ensures actor.Some? ==> hiddenComponents == ArrayOps.AddAllUnique(old(hiddenComponents), actor.value.primitives)
    {
      if actor.Some? {
        var primitives := actor.value.primitives;
        for k := 0 to |primitives|
          invariant hiddenComponents == ArrayOps.AddAllUnique(old(hiddenComponents), primitives[..k])
        {
          assert primitives[..k + 1][..k] == primitives[..k];
          hiddenComponents := ArrayOps.AddUnique(hiddenComponents, primitives[k]);
        }
        assert primitives[..|primitives|] == primitives;
      }
    }

    /** `ShowOnlyComponent`: switches to the show-only list and appends a non-null component. */
    method ShowOnlyComponent(component: Option<PrimitiveId>)
      modifies this`primitiveRenderMode, this`showOnlyComponents
      ensures component.None? ==> unchanged(this)
      ensures component.Some? ==>
                primitiveRenderMode == UseShowOnlyList &&
                showOnlyComponents == old(showOnlyComponents) + [component.value]
    {
      if component.Some? {
        primitiveRenderMode := UseShowOnlyList;
        showOnlyComponents := showOnlyComponents + [component.value];
      }
    }

    /** `ShowOnlyActorComponents`: switches to the show-only list and appends
        each of a non-null actor's primitive components, duplicates included. */
    method ShowOnlyActorComponents(actor: Option<Actor>)
      modifies this`primitiveRenderMode, this`showOnlyComponents
      ensures actor.None? ==> unchanged(this)
      ensures actor.Some? ==>
                primitiveRenderMode == UseShowOnlyList &&
                showOnlyComponents == old(showOnlyComponents) + actor.value.primitives
    {
      if actor.Some? {
        primitiveRenderMode := UseShowOnlyList;
        var primitives := actor.value.primitives;
        for k := 0 to |primitives|
          invariant primitiveRenderMode == UseShowOnlyList
          invariant showOnlyComponents == old(showOnlyComponents) + primitives[..k]
        {
          assert primitives[..k + 1] == primitives[..k] + [primitives[k]];
          showOnlyComponents := showOnlyComponents + [primitives[k]];
        }
        assert primitives[..|primitives|] == primitives;
      }
    }

    /** `RemoveShowOnlyComponent`: removes every occurrence of the component. */
    method RemoveShowOnlyComponent(component: Option<PrimitiveId>)
      modifies this`showOnlyComponents
      ensures component.None? ==> showOnlyComponents == old(showOnlyComponents)
      ensures component.Some? ==> showOnlyComponents == ArrayOps.Remove(old(showOnlyComponents), component.value)
    {
      if component.Some? {
        showOnlyComponents := ArrayOps.Remove(showOnlyComponents, component.value);
      }
    }

    /** `RemoveShowOnlyActorComponents`: removes every occurrence of each of a
        non-null actor's primitive components. */
    method RemoveShowOnlyActorComponents(actor: Option<Actor>)
      modifies this`showOnlyComponents
      ensures actor.None? ==> showOnlyComponents == old(showOnlyComponents)
      ensures actor.Some? ==> showOnlyComponents == ArrayOps.RemoveAll(old(showOnlyComponents), actor.value.primitives)
    {
      if actor.Some? {
        var primitives := actor.value.primitives;
        for k := 0 to |primitives|
          invariant showOnlyComponents == ArrayOps.RemoveAll(old(showOnlyComponents), primitives[..k])
        {
          assert primitives[..k + 1][..k] == primitives[..k];
          showOnlyComponents := ArrayOps.Remove(showOnlyComponents, primitives[k]);
        }
        assert primitives[..|primitives|] == primitives;
      }
    }

    /** `ClearShowOnlyComponents`: empties the show-only list; its argument is ignored. */
    method ClearShowOnlyComponents(component: Option<PrimitiveId>)
      modifies this`showOnlyComponents
      ensures showOnlyComponents == []
    {
      showOnlyComponents := [];
    }

    /** `ClearHiddenComponents`: empties the hidden list. */
    method ClearHiddenComponents()
      modifies this`hiddenComponents
      ensures hiddenComponents == []
    {
      hiddenComponents := [];
    }
  }
}
