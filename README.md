# Cine-camera scene capture: a verified model

This project models the bookkeeping of `UCineCameraCaptureComponent`, an
Unreal Engine component that is a cine camera rendering its view into an
offscreen render target. The parts modelled are these:

- **The deferred-capture registry.** The process-wide multimap from world to
  weakly referenced components waiting to be rendered. `TickComponent` and
  `SendRenderTransform_Concurrent` add the component to it through
  `CaptureSceneDeferred`, at most once per world. `UpdateDeferredCaptures`
  drains one world's entries. It sorts them valid-first by descending
  `CaptureSortPriority`, renders the valid ones and forgets the world.
- **The view-state slots.** `ViewStates` is an array of optional renderer view
  states, one per view index. `GetViewState` grows it and allocates or
  destroys a slot's state. `OnUnregister` destroys them all.
  `AddReferencedObjects` visits the present ones.
- **The visibility lists.** Hide, show-only, remove and clear operations on
  `HiddenComponents` and `ShowOnlyComponents`, and the switch to the
  show-only render mode.
- **The lens update.** `UpdateCameraLensCapture` sets the depth-of-field
  overrides and clamps the focus distance to the minimum focus distance. It
  smooths the distance unless a reset is pending and keeps
  `LastFocusDistance`.
- **Small pure rules.** The show-flag merge of `UpdateShowFlags`, the version
  upgrades of `Serialize`, and `CanEditChange`.

The modules follow the component's structure:

- `Common` holds the shared types.
- `ArrayOps` holds the `TArray` operations the component relies on.
- `DeferredCaptures` holds the registry, its comparator and the flush.
- `Lens` holds the lens data and the clamp.
- `CaptureRules` holds the pure rules.
- `CineCameraCapture` holds the component class.

Modelling choices:

- **Weak pointers.** A weak pointer to a component is valid exactly when its
  id is a key of the `Liveness` map passed to the flush. The map's value is
  the component's `CaptureSortPriority` at flush time.
- **The registry.** The process-wide static map is a `Registry` object that
  the component's methods receive.
- **Render and engine calls.** A render call is an element of the flush's
  `rendered` result. The engine calls `CaptureScene` makes are elements of
  its `events` result.
- **Destroying a view state.** It moves the handle into the ghost set
  `released`. That set stands for deferred cleanup by the renderer.
- **Show flags.** They are a map from flag name to value. A setting's name
  resolves exactly when it is a key.

Two further notes on the flush and on `CaptureScene`:

- **No tie-break.** The engine's `TArray::Sort` is unstable, and the
  comparator (CineCameraCaptureComponent.cpp:260-271) has no secondary key.
  So the model promises no order among captures of equal priority.
- **The warning.** `CaptureScene` warns whenever `bCaptureEveryFrame` is set
  (CineCameraCaptureComponent.cpp:196-199), even when it renders nothing.

## Model

| member | source | states |
|---|---|---|
| `ArrayOps.AddUnique` | CineCameraCaptureComponent.cpp:327-333 | `AddUnique` keeps the old list as a prefix and makes the element present. It leaves every other element's count unchanged and never makes a second copy, so a duplicate-free list stays duplicate-free |
| `ArrayOps.NoDupOccursOnce` | CineCameraCaptureComponent.cpp:183 | in a duplicate-free list (which the registry's `AddUnique` keeps) every present entry occurs exactly once |
| `ArrayOps.AddAllUnique` | CineCameraCaptureComponent.cpp:341-344 | adding each of an actor's components with `AddUnique` keeps the old list as a prefix and makes all of them present, with one copy of each that was new. Other counts stay unchanged, and no duplicates appear |
| `ArrayOps.Remove` | CineCameraCaptureComponent.cpp:376 | `Remove` leaves no occurrence of the argument and keeps every other element's count. The length drops by the number of occurrences removed |
| `ArrayOps.RemoveDistributes` | CineCameraCaptureComponent.cpp:376 | `Remove` distributes over concatenation, so the elements it keeps stay in their order |
| `ArrayOps.RemoveAll` | CineCameraCaptureComponent.cpp:385-388 | removing each of an actor's components leaves none of them and keeps every other element's count |
| `DeferredCaptures.CapturesFor` | CineCameraCaptureComponent.cpp:258-259 | `MultiFind` returns exactly the components registered for the world, without duplicates when the registry has none |
| `DeferredCaptures.WithoutWorld` | CineCameraCaptureComponent.cpp:282 | `Remove(World)` keeps exactly the entries of other worlds and preserves freedom from duplicates |
| `DeferredCaptures.FlushForgetsOnlyItsWorld` | CineCameraCaptureComponent.cpp:281-282 | after removing a world, nothing is pending for it, and every other world has the same pending captures in the same order |
| `DeferredCaptures.RendersBefore` | CineCameraCaptureComponent.cpp:260-271 | the sort's comparator lambda: only a valid pointer sorts before anything, a valid one sorts before every invalid one, and two valid ones compare by `CaptureSortPriority`, higher first |
| `DeferredCaptures.RendersBeforeStrictWeakOrder` | CineCameraCaptureComponent.cpp:260-271 | the comparator is a strict weak order, as `TArray::Sort` needs of its predicate. It is irreflexive, asymmetric and transitive, and so is incomparability: two invalid pointers, or two valid ones of equal priority |
| `DeferredCaptures.ComparatorAgreesWithOrder` | CineCameraCaptureComponent.cpp:260-271 | a sequence is priority-ordered (valid before invalid, non-increasing priority) exactly when no element follows one the comparator lambda puts it before |
| `DeferredCaptures.SortCaptures` | CineCameraCaptureComponent.cpp:258-271 | sorting with the comparator gives a permutation of the pending captures. Every valid capture precedes every invalid one, and valid captures come in non-increasing priority. Equal priorities may come in any order |
| `DeferredCaptures.InsertionPoint` | CineCameraCaptureComponent.cpp:260-271 | a step of the model's insertion sort, which stands for the engine's `TArray::Sort`: it finds the first element the new capture sorts before under the comparator |
| `DeferredCaptures.LiveOnly` | CineCameraCaptureComponent.cpp:273-279 | the render loop's `IsValid` check keeps exactly the valid captures, each as often as it occurred |
| `DeferredCaptures.LiveOnlyKeepsOrder` | CineCameraCaptureComponent.cpp:273-279 | skipping invalid captures keeps the priority order, so rendering follows non-increasing `CaptureSortPriority` |
| `DeferredCaptures.Registry.constructor` | CineCameraCaptureComponent.cpp:12 | the registry starts empty and duplicate-free |
| `DeferredCaptures.Registry.AddUnique` | CineCameraCaptureComponent.cpp:181-183 | registering a (world, component) pair leaves it registered exactly once, however often it was registered before |
| `DeferredCaptures.Registry.UpdateDeferredCaptures` | CineCameraCaptureComponent.cpp:250-283 | with no world or an empty registry, nothing changes and nothing renders. Otherwise it renders only valid captures, each registered valid capture exactly once, in non-increasing priority. It then removes that world's entries and keeps the other worlds' entries, so nothing stays pending for that world |
| `DeferredCaptures.ScenarioFirstFlush` | CineCameraCaptureComponent.cpp:250-283 | the flush contract alone determines the outcome for A (priority 10), B (priority 20) and a destroyed C: B then A, and the world's entries are gone |
| `DeferredCaptures.FlushScenario` | CineCameraCaptureComponent.cpp:250-283 | registering A, B, A again and a soon-destroyed C, then flushing, renders `[B, A]`. A second flush renders nothing |
| `Lens.MinFocusDistanceInWorldUnits` | CineCameraCaptureComponent.cpp:227 | the millimetre minimum converts to world units at `worldToMetersScale / 1000` per millimetre and stays non-negative for non-negative inputs |
| `Lens.ClampFocusDistance` | CineCameraCaptureComponent.cpp:228 | the clamped distance is never below the minimum or the desired distance. It is one of the two, and it is the desired distance whenever that is not below the minimum |
| `CaptureRules.ApplyShowFlagSettings` | CineCameraCaptureComponent.cpp:63-70 | applying the settings changes no flag's existence, and leaves every flag no setting names at its base value |
| `CaptureRules.LastSettingWins` | CineCameraCaptureComponent.cpp:63-70 | the last setting naming a resolvable flag decides that flag's value |
| `CaptureRules.UpgradedRenderMode` | CineCameraCaptureComponent.cpp:89-95 | the render mode only ever changes to the show-only-list mode. It ends in that mode exactly when it was already there, or when the archive predates that mode and a show-only list is non-empty |
| `CaptureRules.LoadedShowFlags` | CineCameraCaptureComponent.cpp:97-109 | loading an archive older than motion-blur/TAA support switches both flags off. Nothing else changes, and saving or newer archives change nothing |
| `CaptureRules.CanEditChange` | CineCameraCaptureComponent.cpp:114-133 | `HiddenActors` is editable exactly when the show-only list is not in use, and `ShowOnlyActors` exactly when it is. Every other property, and a null property, is editable |
| `CaptureRules.ExactlyOneActorListEditable` | CineCameraCaptureComponent.cpp:120-128 | in every render mode exactly one of the two actor lists is editable |
| `CineCameraCapture.PresentHandles` | CineCameraCaptureComponent.cpp:315-322 | the visited view states are exactly the handles present in some slot |
| `CineCameraCapture.PresentHandlesDistinct` | CineCameraCaptureComponent.cpp:315-322 | when no handle sits in two slots, each present view state is visited once |
| `CineCameraCapture.CineCameraCaptureComponent.constructor` | CineCameraCaptureComponent.cpp:14-40 | the defaults are as follows. It captures every frame and on movement, and does not persist rendering state. Priority is 0 and there are no view states. The game show flags have motion blur, separate translucency and HMD distortion off |
| `CineCameraCapture.CineCameraCaptureComponent.UpdateShowFlags` | CineCameraCaptureComponent.cpp:55-71 | the flags become the archetype's flags (or stay as they were without an archetype), with the settings applied in order |
| `CineCameraCapture.CineCameraCaptureComponent.Serialize` | CineCameraCaptureComponent.cpp:83-110 | the render mode and show flags after serializing are the upgrade rules applied to the old state |
| `CineCameraCapture.CineCameraCaptureComponent.UpdateCameraLensCapture` | CineCameraCaptureComponent.cpp:202-248 | the lens settings become `RecalcDerivedData`'s result. Then, with focus method None, all four depth-of-field overrides end off. Otherwise all four end on. The focal distance is then the desired distance clamped to the minimum, smoothed only when smoothing is on and no reset is pending, and equal to `LastFocusDistance`. The reset flag ends cleared |
| `CineCameraCapture.CineCameraCaptureComponent.CaptureSceneDeferred` | CineCameraCaptureComponent.cpp:173-185 | with a world that has a scene and a visible component, it updates the lens with the world's frame time and registers the component exactly once for that world. Otherwise nothing changes |
| `CineCameraCapture.CineCameraCaptureComponent.TickComponent` | CineCameraCaptureComponent.cpp:152-160 | a tick requests a deferred capture exactly when `bCaptureEveryFrame` is set, and otherwise changes nothing |
| `CineCameraCapture.CineCameraCaptureComponent.SendRenderTransformConcurrent` | CineCameraCaptureComponent.cpp:162-170 | a transform update requests a deferred capture exactly when `bCaptureOnMovement` is set, and otherwise changes nothing |
| `CineCameraCapture.CineCameraCaptureComponent.CaptureScene` | CineCameraCaptureComponent.cpp:187-200 | with a world that has a scene and a visible component, it finishes end-of-frame updates and then renders this component. Otherwise it does neither. It warns exactly when `bCaptureEveryFrame` is set |
| `CineCameraCapture.CineCameraCaptureComponent.GetViewState` | CineCameraCaptureComponent.cpp:290-309 | the slots grow to cover the index, new slots are empty and the other slots are unchanged. The result is non-null exactly when `bCaptureEveryFrame \|\| bAlwaysPersistRenderingState`. The slot array is the old one or a fresh one, never another component's. A fresh handle is allocated only for an empty slot that needs one. A handle is released only when one exists and none is needed. Otherwise the existing value is returned |
| `CineCameraCapture.CineCameraCaptureComponent.OnUnregister` | CineCameraCaptureComponent.cpp:73-81 | every slot ends empty, and exactly the handles that were present are released |
| `CineCameraCapture.CineCameraCaptureComponent.AddReferencedObjects` | CineCameraCaptureComponent.cpp:311-325 | it visits exactly the non-null slots' view states, in slot order, each once |
| `CineCameraCapture.CineCameraCaptureComponent.HideComponent` | CineCameraCaptureComponent.cpp:327-333 | a null component changes nothing. Otherwise the component is added to the hidden list unless already there |
| `CineCameraCapture.CineCameraCaptureComponent.HideActorComponents` | CineCameraCaptureComponent.cpp:335-346 | a null actor changes nothing. Otherwise each of its components is added to the hidden list unless already there |
| `CineCameraCapture.CineCameraCaptureComponent.ShowOnlyComponent` | CineCameraCaptureComponent.cpp:348-356 | a null component changes nothing. Otherwise the mode switches to the show-only list and the component is appended, even if already present |
| `CineCameraCapture.CineCameraCaptureComponent.ShowOnlyActorComponents` | CineCameraCaptureComponent.cpp:358-372 | a null actor changes nothing. Otherwise the mode switches to the show-only list and all its components are appended in order |
| `CineCameraCapture.CineCameraCaptureComponent.RemoveShowOnlyComponent` | CineCameraCaptureComponent.cpp:374-377 | every occurrence of the component is removed from the show-only list |
| `CineCameraCapture.CineCameraCaptureComponent.RemoveShowOnlyActorComponents` | CineCameraCaptureComponent.cpp:379-390 | a null actor changes nothing. Otherwise every occurrence of each of its components is removed from the show-only list |
| `CineCameraCapture.CineCameraCaptureComponent.ClearShowOnlyComponents` | CineCameraCaptureComponent.cpp:392-395 | the show-only list ends empty, whatever the (ignored) argument |
| `CineCameraCapture.CineCameraCaptureComponent.ClearHiddenComponents` | CineCameraCaptureComponent.cpp:397-400 | the hidden list ends empty |

## Left out

- The critical section around the registry insert (CineCameraCaptureComponent.cpp:181-182) and the parallel calls of `SendRenderTransform_Concurrent`: concurrency is not modelled. Insertion is a sequential method.
- Deferred cleanup of view states by the renderer (`FDeferredCleanupInterface`, CineCameraCaptureComponent.h:41-44): destroying a view state only moves its handle into the `released` set.
- The `Super::` calls of the base classes (tick, register, unregister, serialize, transform update, reference collection): the base classes are not part of this model.
- `RecalcDerivedData` is an input to the lens update: an arbitrary function on the lens settings, applied before they are read. What it computes is not modelled.
- `GetDesiredFocusDistance`, `GetComponentLocation`, `GetWorldToMetersScale` and `FMath::FInterpTo` are inputs to the lens update, not computed. No claim is made about what interpolation returns.
- Floating-point rounding: focus distances, apertures and scales are reals.
- Only the depth-of-field part of `FPostProcessSettings` is modelled. The rest of the copy at CineCameraCaptureComponent.cpp:206 is left out.
- `UpdateSceneCaptureContents` (CineCameraCaptureComponent.cpp:285-288) and the scene's rendering: each render call is an element of the flush's `rendered` result.
- `World->SendAllEndOfFrameUpdates`, `Scene->UpdateSceneCaptureContents` and the `FMessageLog` warning in `CaptureScene`: these are elements of its `events` result.
- `OnRegister` (CineCameraCaptureComponent.cpp:42-53): base registration and the editor-only `CaptureSceneDeferred` are left out. Its remaining effect is `UpdateShowFlags`, which is modelled.
- `PostEditChangeProperty`, the `FArchive` I/O itself and `PostProcessSettings.OnAfterLoad`: editor and serialization plumbing.
- The constructor's engine-typed fields: projection matrix, clip plane, capture source, LOD factor, view distance, stereo pass and tick registration.
- `RequiresGameThreadEndOfFrameUpdates` and `GetViewOwner`: inline members that return a constant.
- `GetComponents`: an actor's primitive components are given as the `primitives` sequence of the `Actor` value.
- The numeric values of `FRenderingObjectVersion::AddedbUseShowOnlyList` and `FRenderingObjectVersion::MotionBlurAndTAASupportInSceneCapture2d` are engine constants and not part of this model. They are the `RenderingVersions` parameter.
- The order in which `MultiFind` returns a world's entries is not modelled: the flush sorts them, and its contract holds for any order.
- The component's own `CaptureSortPriority` field is not linked to the `Liveness` map. The caller supplies the priorities that valid weak pointers read at flush time.
- CineCameraCapture.CineCameraCaptureComponent.RemoveShowOnlyComponent: list entries are plain ids, not `TWeakObjectPtr`s, so a null argument removes nothing. The engine's weak-pointer equality also treats every stale entry as equal to null, so it would remove those.
- CineCameraCapture.CineCameraCaptureComponent.GetViewState: the view index is a natural number. The source indexes `ViewStates` with any `int32`, and a negative index is out of range there. Growth beyond `int32` sizes is not modelled.
