/**
 * Types shared by the model of the cine-camera scene-capture component.
 */
module Common {

  /** A pointer that may be null. */
  datatype Option<+T> = None | Some(value: T)

  /** The engine's `int32`, the type of `CaptureSortPriority`. */
  newtype Int32 = x: int | -0x8000_0000 <= x < 0x8000_0000

  /** Identity of a `UWorld`. */
  type WorldId = nat

  /** Identity of a `UCineCameraCaptureComponent`. */
  type CaptureId = nat

  /** Identity of a `UPrimitiveComponent`. */
  type PrimitiveId = nat

  /** Identity of an `AActor`. */
  type ActorId = nat
}
