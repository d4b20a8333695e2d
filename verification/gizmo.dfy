/** The on-screen handles shown while a connection is previewed, and the
    adjustment each handle requests when clicked. */
module Gizmo {
  import opened Wrappers
  import opened Hierarchy

  /** `GizmoHandler.ActionType`. */
  datatype Handle = RotateLeft | RotateRight | MoveUp | MoveDown

  /** What a click asks the connection controller to do: turn the hole about
      its up axis by some degrees, or slide it along that axis by some steps. */
  datatype Request = Rotate(degrees: real) | Slide(steps: int)

  /** The newer manager: the hole the handles hang on, the live handles and
      whether the first selection was the hole side. */
  datatype Manager = Manager(hole: Option<Id>, handles: seq<Handle>, firstIsHole: bool)

  const Initial := Manager(None, [], false)

  /** `ClearHandles`: every live handle goes; the hole and side are kept. */
  function ClearHandles(g: Manager): (r: Manager)
    ensures r.handles == [] && r.hole == g.hole && r.firstIsHole == g.firstIsHole
  {
    g.(handles := [])
  }

  /** `ShowHandles`: the old handles are cleared, then two sliding handles for
      an axle and always the two turning handles. */
  function ShowHandles(g: Manager, hole: Id, firstIsHole: bool, isAxle: bool): (r: Manager)
    ensures r.hole == Some(hole) && r.firstIsHole == firstIsHole
    ensures |r.handles| == if isAxle then 4 else 2
    ensures RotateLeft in r.handles && RotateRight in r.handles
    ensures (MoveUp in r.handles || MoveDown in r.handles) <==> isAxle
    ensures forall i, j | 0 <= i < j < |r.handles| :: r.handles[i] != r.handles[j]
  {
    var slides := if isAxle then [MoveUp, MoveDown] else [];
    Manager(Some(hole), ClearHandles(g).handles + slides + [RotateLeft, RotateRight], firstIsHole)
  }

  /** The sign applied to every request: reversed when the hole side was
      picked first. */
  function Multiplier(firstIsHole: bool): (m: int)
    ensures m == 1 || m == -1
    ensures m == -1 <==> firstIsHole
  {
    if firstIsHole then -1 else 1
  }

  /** `OnHandleClicked` in the newer manager. */
  function OnHandleClicked(g: Manager, h: Handle): (r: Request)
    ensures h.RotateLeft? || h.RotateRight? <==> r.Rotate?
    ensures r.Rotate? ==> r.degrees == 45.0 || r.degrees == -45.0
    ensures r.Slide? ==> r.steps == 1 || r.steps == -1
  {
    var m := Multiplier(g.firstIsHole);
    match h
    case RotateLeft => Rotate(-45.0 * m as real)
    case RotateRight => Rotate(45.0 * m as real)
    case MoveUp => Slide(1 * m)
    case MoveDown => Slide(-1 * m)
  }

  /** The older manager: five handles with the up handle twice, and a fixed
      mapping that ignores which side was picked first. */
  datatype OldManager = OldManager(hole: Option<Id>, handles: seq<Handle>)

  function OldClearHandles(g: OldManager): (r: OldManager)
    ensures r.handles == [] && r.hole == g.hole
  {
    g.(handles := [])
  }

  function OldShowHandles(g: OldManager, hole: Id): (r: OldManager)
    ensures r.hole == Some(hole) && |r.handles| == 5
    ensures multiset(r.handles) == multiset{RotateLeft, RotateRight, MoveUp, MoveUp, MoveDown}
  {
    OldManager(Some(hole), OldClearHandles(g).handles + [RotateLeft, RotateRight, MoveUp, MoveUp, MoveDown])
  }

  function OldOnHandleClicked(h: Handle): (r: Request)
    ensures h.RotateLeft? || h.RotateRight? <==> r.Rotate?
  {
    match h
    case RotateLeft => Rotate(45.0)
    case RotateRight => Rotate(-45.0)
    case MoveUp => Slide(1)
    case MoveDown => Slide(-1)
  }

  function Negate(r: Request): Request
  {
    match r
    case Rotate(d) => Rotate(-d)
    case Slide(n) => Slide(-n)
  }

  /** The handles of each pair always request opposite adjustments, in both
      managers. */
  lemma PairsAreOpposite(g: Manager)
    ensures OnHandleClicked(g, RotateLeft) == Negate(OnHandleClicked(g, RotateRight))
    ensures OnHandleClicked(g, MoveUp) == Negate(OnHandleClicked(g, MoveDown))
    ensures OldOnHandleClicked(RotateLeft) == Negate(OldOnHandleClicked(RotateRight))
    ensures OldOnHandleClicked(MoveUp) == Negate(OldOnHandleClicked(MoveDown))
  {
  }

  /** The newer turning handles agree with the older ones exactly when the hole
      was picked first and are reversed otherwise; its sliding handles agree
      exactly when the peg was picked first. */
  lemma NewerAgainstOlder(g: Manager, h: Handle)
    ensures (h.RotateLeft? || h.RotateRight?) ==>
      OnHandleClicked(g, h) == if g.firstIsHole then OldOnHandleClicked(h) else Negate(OldOnHandleClicked(h))
    ensures (h.MoveUp? || h.MoveDown?) ==>
      OnHandleClicked(g, h) == if g.firstIsHole then Negate(OldOnHandleClicked(h)) else OldOnHandleClicked(h)
  {
  }
}
