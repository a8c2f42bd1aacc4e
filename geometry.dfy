/**
 * The engine's vector, quaternion and transform values.  Components are exact
 * reals: the model keeps the comparisons and constants the engine uses but not
 * the rounding of 32-bit floats.
 */
module Geometry {

  datatype Vec3 = Vec3(x: real, y: real, z: real)

  datatype Quat = Quat(w: real, x: real, y: real, z: real)

  /** umath::Transform: an origin and a rotation. */
  datatype Transform = Transform(origin: Vec3, rotation: Quat)

  /** umath::ScaledTransform: an origin, a rotation and a per-axis scale. */
  datatype ScaledTransform = ScaledTransform(origin: Vec3, rotation: Quat, scale: Vec3)

  const Zero := Vec3(0.0, 0.0, 0.0)
  const One := Vec3(1.0, 1.0, 1.0)
  const IdentityRotation := Quat(1.0, 0.0, 0.0, 0.0)

  /** A default-constructed ScaledTransform: no translation, no rotation, unit scale. */
  const IdentityPose := ScaledTransform(Zero, IdentityRotation, One)

  /** The largest finite 32-bit float, (2 - 2^-23) * 2^127: "unbounded" for a force limit. */
  const FloatMax: real := 340282346638528859811704183484516925440.0

  function DistanceSqr(a: Vec3, b: Vec3): real
  {
    (a.x - b.x) * (a.x - b.x) + (a.y - b.y) * (a.y - b.y) + (a.z - b.z) * (a.z - b.z)
  }

  function Dot(p: Quat, q: Quat): real
  {
    p.w * q.w + p.x * q.x + p.y * q.y + p.z * q.z
  }

  /** Squared-distance threshold above which a position or scale counts as moved. */
  const DistanceTolerance: real := 0.00001

  /** Dot-product threshold below which a rotation counts as turned. */
  const RotationTolerance: real := 0.99999

  /** The per-tick test of whether a pinned bone's animated pose left its last-seen pose. */
  predicate PoseChanged(current: ScaledTransform, last: ScaledTransform)
  {
    || DistanceSqr(current.origin, last.origin) > DistanceTolerance
    || Dot(current.rotation, last.rotation) < RotationTolerance
    || DistanceSqr(current.scale, last.scale) > DistanceTolerance
  }

  /** An angle in radians obtained from a value in degrees; the conversion itself stays symbolic. */
  datatype Radians = DegToRad(degrees: real)

  /** Drops the scale, as passing a ScaledTransform where a Transform is expected does. */
  function Unscaled(t: ScaledTransform): Transform
  {
    Transform(t.origin, t.rotation)
  }
}
