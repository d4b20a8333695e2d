/** Move mode: locking drags to one axis, and deleting parts under the
    cursor (newer rules with control-hub protection, older unconditional). */
module MoveRules {
  import opened Wrappers
  import opened Geometry
  import opened Text
  import opened Hierarchy

  /** `Axis`; the source's `Axis.None` is `Free` here. */
  datatype Axis = Free | X | Y | Z

  /** The keys that went down this frame. */
  datatype AxisKeys = AxisKeys(x: bool, y: bool, z: bool, escape: bool)

  /** `HandleAxisLockHotkeys`: only the first pressed key of X, Y, Z, Escape
      counts; X, Y and Z toggle their own lock and Escape releases it. */
  function AxisLock(lock: Axis, k: AxisKeys): (r: Axis)
    ensures k.x ==> (r == X <==> lock != X)
    ensures !k.x && k.y ==> (r == Y <==> lock != Y)
    ensures !k.x && !k.y && k.z ==> (r == Z <==> lock != Z)
    ensures k.x || k.y || k.z ==> r == Free || r == lock || (r == X && k.x) || (r == Y && !k.x) || (r == Z && !k.x && !k.y)
    ensures !k.x && !k.y && !k.z ==> r == if k.escape then Free else lock
  {
    if k.x then (if lock == X then Free else X)
    else if k.y then (if lock == Y then Free else Y)
    else if k.z then (if lock == Z then Free else Z)
    else if k.escape then Free
    else lock
  }

  /** The axis a frame's keys select: the first of X, Y, Z held down. */
  function Pressed(k: AxisKeys): Axis
  {
    if k.x then X else if k.y then Y else if k.z then Z else Free
  }

  /** Pressing an axis key twice releases the lock, unless the lock started on
      that very axis, in which case it comes back on. */
  lemma AxisToggleTwice(lock: Axis, k: AxisKeys)
    requires k.x || k.y || k.z
    ensures AxisLock(lock, k) != lock
    ensures AxisLock(AxisLock(lock, k), k) == if lock == Pressed(k) then lock else Free
  {
  }

  /** The locked drag: with an axis locked only that coordinate follows the
      pointer; the others keep the part's current position. */
  function LockedDrag(lock: Axis, current: Vec3, target: Vec3): (r: Vec3)
    ensures lock == Free ==> r == target
    ensures r.x == (if lock == Free || lock == X then target.x else current.x)
    ensures r.y == (if lock == Free || lock == Y then target.y else current.y)
    ensures r.z == (if lock == Free || lock == Z then target.z else current.z)
  {
    match lock
    case Free => target
    case X => Vec3(target.x, current.y, current.z)
    case Y => Vec3(current.x, target.y, current.z)
    case Z => Vec3(current.x, current.y, target.z)
  }

  /** Dragging through a sequence of pointer targets, one per frame. */
  function DragPath(lock: Axis, start: Vec3, targets: seq<Vec3>): (r: Vec3)
    decreases |targets|
  {
    if |targets| == 0 then start
    else DragPath(lock, LockedDrag(lock, start, targets[0]), targets[1..])
  }

  /** However long a locked drag goes on, the two unlocked coordinates stay
      where they were when the drag began. */
  lemma {:induction false} DragPathKeepsOthers(lock: Axis, start: Vec3, targets: seq<Vec3>)
    requires lock != Free
    ensures var r := DragPath(lock, start, targets);
      && (lock != X ==> r.x == start.x)
      && (lock != Y ==> r.y == start.y)
      && (lock != Z ==> r.z == start.z)
    decreases |targets|
  {
    if |targets| > 0 {
      DragPathKeepsOthers(lock, LockedDrag(lock, start, targets[0]), targets[1..]);
    }
  }

  const ControlHubMarker := "ControlHub"

  /** The node the newer `HandleDeletion` destroys for a part hit under the
      cursor, if any: in a group with more than one child the hit itself
      unless its name mentions the control hub; in a group with at most one
      child the whole group unless it holds the control hub. */
  function DeletionVictim(s: Scene, hit: Id): (v: Option<Id>)
    requires Wf(s) && hit in s.nodes
    ensures v.Some? ==> v.value in s.nodes && InSubtree(s, hit, v.value)
    ensures |s.nodes[GroupRoot(s, hit)].children| > 1 && v.Some? ==> v.value == hit
    ensures |s.nodes[GroupRoot(s, hit)].children| <= 1 && v.Some? ==> v.value == GroupRoot(s, hit)
    ensures |s.nodes[GroupRoot(s, hit)].children| > 1 ==>
      (v.Some? <==> !Contains(s.nodes[hit].name, ControlHubMarker))
    ensures |s.nodes[GroupRoot(s, hit)].children| <= 1 ==> (v.Some? <==> !HasControlHub(s, hit))
  {
    var g := GroupRoot(s, hit);
    if |s.nodes[g].children| > 1 then
      if !Contains(s.nodes[hit].name, ControlHubMarker) then Some(hit) else None
    else if !HasControlHub(s, hit) then Some(g)
    else None
  }

  /** `HandleDeletion` (newer): Backspace or Delete over a part. */
  function Delete(s: Scene, pressed: bool, hit: Option<Id>): (r: Scene)
    requires Wf(s) && (hit.Some? ==> hit.value in s.nodes)
    ensures Wf(r)
    ensures !pressed || hit.None? ==> r == s
    ensures forall y :: y in r.nodes ==> y in s.nodes
  {
    if !pressed || hit.None? then s
    else match DeletionVictim(s, hit.value)
      case None => s
      case Some(v) => Destroy(s, v)
  }

  /** The control hub of the hit part's group survives a deletion, unless the
      part hit is a different node that holds the hub inside it. */
  lemma DeleteSparesControlHub(s: Scene, pressed: bool, hit: Id, c: Id)
    requires Wf(s) && hit in s.nodes && c in s.nodes
    requires c in s.nodes[GroupRoot(s, hit)].children && s.nodes[c].name == ControlHubName
    requires c == hit || !InSubtree(s, c, hit)
    ensures c in Delete(s, pressed, Some(hit)).nodes
  {
    var g := GroupRoot(s, hit);
    var cs := ChildrenOf(s, g);
    assert Contains(s.nodes[c].name, ControlHubMarker) by {
      assert OccursAt(s.nodes[c].name, ControlHubMarker, 0);
    }
    if |cs| <= 1 {
      assert HasControlHub(s, hit) by {
        var i :| 0 <= i < |cs| && cs[i] == c;
      }
    }
  }

  /** `HandleDeletion` (older): Escape or Delete destroys whatever part is
      under the cursor, with no protection. */
  function OldDelete(s: Scene, pressed: bool, hit: Option<Id>): (r: Scene)
    requires Wf(s) && (hit.Some? ==> hit.value in s.nodes)
    ensures Wf(r)
    ensures !pressed || hit.None? ==> r == s
    ensures pressed && hit.Some? ==>
      forall y :: y in r.nodes <==> y in s.nodes && !InSubtree(s, y, hit.value)
  {
    if !pressed || hit.None? then s else Destroy(s, hit.value)
  }

  /** The older deletion removes a part even when it is the control hub. */
  lemma OldDeleteRemovesHub(s: Scene, hit: Id)
    requires Wf(s) && hit in s.nodes && s.nodes[hit].name == ControlHubName
    ensures hit !in OldDelete(s, true, Some(hit)).nodes
  {
  }
}
