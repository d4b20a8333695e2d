/** The placements moved by connection previews, kept apart from the
    translation-only scene: each transform's own pose, looked up by node id.
    The rotation and alignment arithmetic is not modelled; it is supplied as
    functions. */
module Poses {
  import opened Geometry
  import opened Hierarchy

  type PoseStore = map<Id, Pose>

  const Rest := Pose(Zero, Identity)

  /** The pose of `id`, with an unrecorded transform at rest. */
  function PoseOf(p: PoseStore, id: Id): Pose
  {
    if id in p then p[id] else Rest
  }

  /** A transform's local axes. */
  datatype LocalAxis = Up | Right | Forward

  /** The rotation and alignment arithmetic the builder uses:
      `align(p, root, a, b)` is the placement of `root` that brings connector
      `a` onto connector `b` (`SnapPartToHole`); `turn` rotates a pose about
      one of its own axes; `slide` moves a pose a number of unit steps along
      its up axis. */
  datatype Motion = Motion(
    align: (PoseStore, Id, Id, Id) -> Pose,
    turn: (Pose, LocalAxis, real) -> Pose,
    slide: (Pose, int) -> Pose)

  /** `SnapPartToHole`: only `root` moves. */
  function Snap(p: PoseStore, m: Motion, root: Id, a: Id, b: Id): (r: PoseStore)
    ensures PoseOf(r, root) == m.align(p, root, a, b)
    ensures forall id | id != root :: PoseOf(r, id) == PoseOf(p, id)
  {
    p[root := m.align(p, root, a, b)]
  }

  /** Setting one pose leaves every other pose alone. */
  function SetPose(p: PoseStore, id: Id, q: Pose): (r: PoseStore)
    ensures PoseOf(r, id) == q
    ensures forall other | other != id :: PoseOf(r, other) == PoseOf(p, other)
  {
    p[id := q]
  }
}
