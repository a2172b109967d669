/**
 * The lens data the capture feeds into its depth-of-field post-process
 * settings, and the focus-distance clamp. Floating-point values are reals.
 */
module Lens {

  /** `ECameraFocusMethod`. */
  datatype FocusMethod = FocusNone | Manual | Tracking

  /** The lens, focus and filmback settings inherited from the cine camera. */
  datatype LensConfig = LensConfig(
    focusMethod: FocusMethod,
    smoothFocusChanges: bool,
    focusSmoothingInterpSpeed: real,
    minimumFocusDistance: real,  // millimetres
    currentAperture: real,
    sensorWidth: real)

  /** The depth-of-field part of `FPostProcessSettings`: four override flags and their values. */
  datatype DepthOfFieldSettings = DepthOfFieldSettings(
    overrideMethod: bool, dofMethod: nat,
    overrideFstop: bool, fstop: real,
    overrideFocalDistance: bool, focalDistance: real,
    overrideSensorWidth: bool, sensorWidth: real)

  /** What the engine supplies to one lens update: the base class's
      `RecalcDerivedData` as its effect on the lens settings, the desired
      focus distance at the component's location (`GetDesiredFocusDistance`),
      the world scale (`GetWorldToMetersScale`) and the interpolator
      `FMath::FInterpTo` (current, target, delta time, speed). */
  datatype LensInputs = LensInputs(
    recalcDerivedData: LensConfig -> LensConfig,
    desiredFocusDistance: real,
    worldToMetersScale: real,
    interpTo: (real, real, real, real) -> real)

  /** The minimum focus distance, given in millimetres, in world units:
      `worldToMetersScale` units make a metre, a thousand millimetres. */
  function MinFocusDistanceInWorldUnits(minimumFocusDistanceMm: real, worldToMetersScale: real): (r: real)
    ensures r * 1000.0 == minimumFocusDistanceMm * worldToMetersScale
    ensures minimumFocusDistanceMm >= 0.0 && worldToMetersScale >= 0.0 ==> r >= 0.0
  {
    minimumFocusDistanceMm * (worldToMetersScale / 1000.0)
  }

  /** `FMath::Max(desired, minimum)`: never below the minimum, and the
      desired distance itself whenever it is not below the minimum. */
  function ClampFocusDistance(desired: real, minimum: real): (r: real)
    ensures r >= minimum && r >= desired
    ensures r == desired || r == minimum
    ensures desired >= minimum ==> r == desired
  {
    if desired >= minimum then desired else minimum
  }
}
