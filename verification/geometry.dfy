/** Vectors, rotations and poses. Positions are modelled translation-only with
    real components; rotations are carried as values but never composed. */
module Geometry {

  datatype Vec3 = Vec3(x: real, y: real, z: real)

  datatype Vec2 = Vec2(x: real, y: real)

  /** A rotation as the engine stores it; the model never does quaternion algebra. */
  datatype Quat = Quat(w: real, x: real, y: real, z: real)

  /** A position together with a rotation. */
  datatype Pose = Pose(pos: Vec3, rot: Quat)

  const Zero := Vec3(0.0, 0.0, 0.0)

  const Identity := Quat(1.0, 0.0, 0.0, 0.0)

  function Add(a: Vec3, b: Vec3): Vec3 {
    Vec3(a.x + b.x, a.y + b.y, a.z + b.z)
  }

  function Sub(a: Vec3, b: Vec3): Vec3 {
    Vec3(a.x - b.x, a.y - b.y, a.z - b.z)
  }

  function Scale(a: Vec3, k: real): Vec3 {
    Vec3(a.x * k, a.y * k, a.z * k)
  }

  /** Component-wise sum of a sequence of vectors. */
  function Sum(vs: seq<Vec3>): Vec3 {
    if |vs| == 0 then Zero else Add(vs[0], Sum(vs[1..]))
  }
}
