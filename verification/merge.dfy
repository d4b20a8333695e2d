/** Merging two part groups after a connection is committed (`MergeGroup`),
    built from three scene edits: moving one node's children under another
    while keeping their world positions, destroying the emptied node, and
    re-anchoring a group on its first child. */
module Merge {
  import opened Wrappers
  import opened Geometry
  import opened Text
  import opened Hierarchy

  /** The record of node `y` after every child of `from` is re-parented under
      `to` with `SetParent(to, worldPositionStays: true)`. The moved subtrees
      are re-ranked below `to`. */
  function Moved(s: Scene, from: Id, to: Id, y: Id): Node
    requires Wf(s) && from in s.nodes && to in s.nodes && y in s.nodes
  {
    var n := s.nodes[y];
    var shift := s.nodes[to].depth + 1;
    if y == to then n.(children := n.children + s.nodes[from].children)
    else if y == from then n.(children := [])
    else if y in s.nodes[from].children then
      n.(parent := Some(to), local := Sub(World(s, y), World(s, to)), depth := n.depth + shift)
    else if InSubtree(s, y, from) then n.(depth := n.depth + shift)
    else n
  }

  ghost predicate IsMove(s: Scene, from: Id, to: Id, r: Scene)
    requires Wf(s) && from in s.nodes && to in s.nodes
  {
    && (forall y :: y in r.nodes <==> y in s.nodes)
    && (forall y | y in s.nodes :: r.nodes[y] == Moved(s, from, to, y))
  }

  /** Every child of `from`, in order, is moved under `to` without changing
      any world position. */
  function MoveChildren(s: Scene, from: Id, to: Id): (r: Scene)
    requires Wf(s) && from in s.nodes && to in s.nodes && !InSubtree(s, to, from)
    ensures Wf(r) && IsMove(s, from, to, r)
    ensures forall y | y in r.nodes :: World(r, y) == World(s, y)
  {
    var r := Scene(map y | y in s.nodes :: Moved(s, from, to, y));
    forall y | y in r.nodes ensures ParentOk(r, y) && ChildrenOk(r, y) {
      MoveParentOk(s, from, to, r, y);
      MoveChildrenOk(s, from, to, r, y);
    }
    forall y | y in r.nodes ensures y in s.nodes && LocalAgrees(s, r, _ => Zero, y) {
      MoveLocal(s, from, to, r, y);
    }
    WorldShift(s, r, _ => Zero);
    r
  }

  lemma MoveLocal(s: Scene, from: Id, to: Id, r: Scene, y: Id)
    requires Wf(s) && from in s.nodes && to in s.nodes && IsMove(s, from, to, r)
    requires y in r.nodes
    ensures y in s.nodes && LocalAgrees(s, r, _ => Zero, y)
  {
    var _ := ParentOf(s, y);
    var _ := ChildrenOf(s, from);
  }

  lemma MoveParentOk(s: Scene, from: Id, to: Id, r: Scene, y: Id)
    requires Wf(s) && from in s.nodes && to in s.nodes && !InSubtree(s, to, from)
    requires IsMove(s, from, to, r) && y in r.nodes
    ensures ParentOk(r, y)
  {
    var cs := ChildrenOf(s, from);
    var _ := ParentOf(s, y);
    if y in cs {
      assert r.nodes[y].parent == Some(to);
    } else if s.nodes[y].parent.Some? {
      var q := s.nodes[y].parent.value;
      UnmovedParent(s, from, to, y, q);
      assert r.nodes[q] == Moved(s, from, to, q);
    }
  }

  /** The parent of a node that keeps its parent keeps listing it, and stays
      ranked below it. */
  lemma UnmovedParent(s: Scene, from: Id, to: Id, y: Id, q: Id)
    requires Wf(s) && from in s.nodes && to in s.nodes && !InSubtree(s, to, from)
    requires y in s.nodes && y !in s.nodes[from].children && s.nodes[y].parent == Some(q)
    ensures q in s.nodes && q != from
    ensures y in Moved(s, from, to, q).children
    ensures Moved(s, from, to, q).depth < Moved(s, from, to, y).depth
  {
    var _ := ParentOf(s, y);
    var cs := ChildrenOf(s, from);
    assert q != from;
    MovedDepth(s, from, to, y);
    MovedDepth(s, from, to, q);
    if y == from {
      SubtreeDepth(s, q, from);
    } else if !InSubtree(s, y, from) {
      assert !InSubtree(s, q, from);
    }
  }

  /** Nodes strictly inside the moved subtrees sink by the same amount; every
      other node keeps its rank. */
  lemma MovedDepth(s: Scene, from: Id, to: Id, y: Id)
    requires Wf(s) && from in s.nodes && to in s.nodes && !InSubtree(s, to, from) && y in s.nodes
    ensures Moved(s, from, to, y).depth ==
      s.nodes[y].depth + if y != from && InSubtree(s, y, from) then s.nodes[to].depth + 1 else 0
  {
    var cs := ChildrenOf(s, from);
    if y in cs {
      var _ := ParentOf(s, y);
      assert InSubtree(s, y, from);
    }
  }

  lemma MoveChildrenOk(s: Scene, from: Id, to: Id, r: Scene, y: Id)
    requires Wf(s) && from in s.nodes && to in s.nodes && !InSubtree(s, to, from)
    requires IsMove(s, from, to, r) && y in r.nodes
    ensures ChildrenOk(r, y)
  {
    if y == to {
      MoveTargetChildrenOk(s, from, to, r);
    } else if y != from {
      var ks := ChildrenOf(s, y);
      var cs := ChildrenOf(s, from);
      assert r.nodes[y].children == ks;
      forall i | 0 <= i < |ks| ensures ks[i] in r.nodes && r.nodes[ks[i]].parent == Some(y) {
        assert ks[i] !in cs;
        assert r.nodes[ks[i]] == Moved(s, from, to, ks[i]);
      }
    }
  }

  lemma MoveTargetChildrenOk(s: Scene, from: Id, to: Id, r: Scene)
    requires Wf(s) && from in s.nodes && to in s.nodes && !InSubtree(s, to, from)
    requires IsMove(s, from, to, r)
    ensures ChildrenOk(r, to)
  {
    var a := ChildrenOf(s, to);
    var cs := ChildrenOf(s, from);
    var ks := r.nodes[to].children;
    assert ks == a + cs;
    forall i | 0 <= i < |ks| ensures ks[i] in r.nodes && r.nodes[ks[i]].parent == Some(to) {
      MovedParent(s, from, to, r, ks[i]);
    }
    forall k | k in a ensures k !in cs {
      assert s.nodes[k].parent == Some(to);
    }
    DistinctConcat(a, cs);
  }

  /** After the move, a former child of `from` hangs under `to`; every other
      node keeps its parent. */
  lemma MovedParent(s: Scene, from: Id, to: Id, r: Scene, y: Id)
    requires Wf(s) && from in s.nodes && to in s.nodes && !InSubtree(s, to, from)
    requires IsMove(s, from, to, r) && y in s.nodes
    ensures y in r.nodes
    ensures r.nodes[y].parent == if y in s.nodes[from].children then Some(to) else s.nodes[y].parent
  {
    var cs := ChildrenOf(s, from);
    if y in cs {
      var _ := ParentOf(s, y);
      assert InSubtree(s, y, from);
    }
    assert r.nodes[y] == Moved(s, from, to, y);
  }

  lemma DistinctConcat(a: seq<Id>, b: seq<Id>)
    requires forall i, j | 0 <= i < j < |a| :: a[i] != a[j]
    requires forall i, j | 0 <= i < j < |b| :: b[i] != b[j]
    requires forall k | k in a :: k !in b
    ensures forall i, j | 0 <= i < j < |a + b| :: (a + b)[i] != (a + b)[j]
  {
    forall i, j | 0 <= i < j < |a + b| ensures (a + b)[i] != (a + b)[j] {
      if i < |a| && j >= |a| {
        assert (a + b)[i] in a && (a + b)[j] == b[j - |a|];
      }
    }
  }

  /** Re-anchoring: the group jumps to its first child and every child is
      shifted back by the same offset. */
  function Reanchor(s: Scene, t: Id): (r: Scene)
    requires Wf(s) && t in s.nodes
    ensures Wf(r)
    ensures forall y :: y in r.nodes <==> y in s.nodes
    ensures forall y | y in r.nodes :: r.nodes[y] == s.nodes[y].(local := r.nodes[y].local)
    ensures |s.nodes[t].children| > 0 ==>
      var c := s.nodes[t].children[0]; c in r.nodes && r.nodes[c].local == Zero
    ensures forall y | y in r.nodes && y != t :: World(r, y) == World(s, y)
  {
    var cs := ChildrenOf(s, t);
    if |cs| == 0 then s
    else
      var off := s.nodes[cs[0]].local;
      var r := Scene(map y | y in s.nodes :: Anchored(s, t, off, y));
      var delta := y => if y == t then off else Zero;
      ReanchorWf(s, t, off, r);
      forall y | y in r.nodes ensures y in s.nodes && LocalAgrees(s, r, delta, y) {
        ReanchorLocal(s, t, off, r, y);
      }
      WorldShift(s, r, delta);
      r
  }

  function Anchored(s: Scene, t: Id, off: Vec3, y: Id): Node
    requires y in s.nodes && t in s.nodes
  {
    if y == t then s.nodes[y].(local := Add(s.nodes[y].local, off))
    else if y in s.nodes[t].children then s.nodes[y].(local := Sub(s.nodes[y].local, off))
    else s.nodes[y]
  }

  lemma ReanchorWf(s: Scene, t: Id, off: Vec3, r: Scene)
    requires Wf(s) && t in s.nodes
    requires r == Scene(map y | y in s.nodes :: Anchored(s, t, off, y))
    ensures Wf(r)
  {
    forall y | y in r.nodes ensures ParentOk(r, y) {
      var _ := ParentOf(s, y);
    }
    forall y | y in r.nodes ensures ChildrenOk(r, y) {
      var _ := ChildrenOf(s, y);
    }
  }

  lemma ReanchorLocal(s: Scene, t: Id, off: Vec3, r: Scene, y: Id)
    requires Wf(s) && t in s.nodes
    requires r == Scene(map y | y in s.nodes :: Anchored(s, t, off, y))
    requires y in r.nodes
    ensures y in s.nodes && LocalAgrees(s, r, y => if y == t then off else Zero, y)
  {
    var _ := ParentOf(s, y);
    var _ := ChildrenOf(s, t);
  }

  /** Destroying a node that has no children removes exactly that node. */
  function DestroyLeaf(s: Scene, x: Id): (r: Scene)
    requires Wf(s) && x in s.nodes && s.nodes[x].children == []
    ensures Wf(r)
    ensures forall y :: y in r.nodes <==> y in s.nodes && y != x
    ensures forall y | y in r.nodes :: World(r, y) == World(s, y)
    ensures forall y | y in r.nodes ::
      r.nodes[y] == if Some(y) == s.nodes[x].parent
                    then s.nodes[y].(children := Without(s.nodes[y].children, x))
                    else s.nodes[y]
  {
    forall y | y in s.nodes && y != x ensures !InSubtree(s, y, x) {
      if InSubtree(s, y, x) {
        SubtreeOfLeaf(s, y, x);
      }
    }
    Destroy(s, x)
  }

  lemma {:induction false} WithoutAppend(a: seq<Id>, b: seq<Id>, x: Id)
    ensures Without(a + b, x) == Without(a, x) + Without(b, x)
  {
    if |a| > 0 {
      assert (a + b)[1..] == a[1..] + b;
      WithoutAppend(a[1..], b, x);
    } else {
      assert a + b == b;
    }
  }

  lemma {:induction false} WithoutAbsent(a: seq<Id>, x: Id)
    requires x !in a
    ensures Without(a, x) == a
  {
    if |a| > 0 {
      WithoutAbsent(a[1..], x);
    }
  }

  /** Moving every child of `from` under `to` and destroying `from`: no other
      node is lost, `to` lists its old children (minus `from`) followed by the
      moved ones, and no world position changes. */
  function PourInto(s: Scene, from: Id, to: Id): (r: Scene)
    requires Wf(s) && from in s.nodes && to in s.nodes && !InSubtree(s, to, from)
    ensures Wf(r)
    ensures forall y :: y in r.nodes <==> y in s.nodes && y != from
    ensures r.nodes[to].children == Without(s.nodes[to].children, from) + s.nodes[from].children
    ensures forall y | y in r.nodes :: World(r, y) == World(s, y)
  {
    var moved := MoveChildren(s, from, to);
    var cs := ChildrenOf(s, from);
    var a := ChildrenOf(s, to);
    assert to != from;
    assert moved.nodes[from] == Moved(s, from, to, from);
    assert moved.nodes[to] == Moved(s, from, to, to);
    var r := DestroyLeaf(moved, from);
    PourTargetChildren(s, from, to, a, cs, moved.nodes[from].parent == Some(to));
    r
  }

  /** The children `to` lists once `from` is gone: whether or not `from` was
      among them, they are its old children without `from`, then the moved ones. */
  lemma PourTargetChildren(s: Scene, from: Id, to: Id, a: seq<Id>, cs: seq<Id>, wasChild: bool)
    requires Wf(s) && from in s.nodes && to in s.nodes && from != to
    requires a == s.nodes[to].children && cs == s.nodes[from].children
    requires wasChild == (s.nodes[from].parent == Some(to))
    ensures (if wasChild then Without(a + cs, from) else a + cs) == Without(a, from) + cs
  {
    var _ := ChildrenOf(s, to);
    var _ := ParentOf(s, from);
    var _ := ChildrenOf(s, from);
    assert from !in cs;
    WithoutAbsent(cs, from);
    WithoutAppend(a, cs, from);
    if !wasChild {
      assert from !in a;
      WithoutAbsent(a, from);
    }
  }

  datatype MergeError = WouldCycle

  /** The group that receives the parts and the one that is emptied, given the
      two group roots: a group with a control hub among its direct children
      receives (the first one if both have one); otherwise the group with more
      parts receives, the first one on a tie. */
  function ChooseTarget(s: Scene, ga: Id, gb: Id): (td: (Id, Id))
    requires Wf(s) && ga in s.nodes && gb in s.nodes
    ensures td == (ga, gb) || td == (gb, ga)
    ensures GroupHasHub(s, ga) ==> td == (ga, gb)
    ensures !GroupHasHub(s, ga) && GroupHasHub(s, gb) ==> td == (gb, ga)
    ensures !GroupHasHub(s, ga) && !GroupHasHub(s, gb) ==>
      (td == (ga, gb) <==> |s.nodes[ga].children| >= |s.nodes[gb].children|)
  {
    PickTarget(s, ga, gb, GroupHasHub(s, ga), GroupHasHub(s, gb))
  }

  /** The target choice as written: the hub test is `HasControlHub` applied to
      each group root, which climbs from the group root to its own group root
      before looking for the hub. */
  function ChooseTargetAsWritten(s: Scene, ga: Id, gb: Id): (td: (Id, Id))
    requires Wf(s) && ga in s.nodes && gb in s.nodes
    ensures td == (ga, gb) || td == (gb, ga)
    ensures HasControlHub(s, ga) ==> td == (ga, gb)
    ensures !HasControlHub(s, ga) && HasControlHub(s, gb) ==> td == (gb, ga)
    ensures !HasControlHub(s, ga) && !HasControlHub(s, gb) ==>
      (td == (ga, gb) <==> |s.nodes[ga].children| >= |s.nodes[gb].children|)
  {
    PickTarget(s, ga, gb, HasControlHub(s, ga), HasControlHub(s, gb))
  }

  function PickTarget(s: Scene, ga: Id, gb: Id, aHub: bool, bHub: bool): (td: (Id, Id))
    requires Wf(s) && ga in s.nodes && gb in s.nodes
  {
    if aHub || bHub then
      (if aHub then (ga, gb) else (gb, ga))
    else if |s.nodes[ga].children| >= |s.nodes[gb].children| then (ga, gb)
    else (gb, ga)
  }

  /** Standard merge: every child of the donor moves under the target keeping
      its world position, the donor is destroyed, and the target is re-anchored
      on its first child. Merging a group with itself changes nothing. */
  function StandardMerge(s: Scene, t: Id, d: Id): (r: Result<Scene, MergeError>)
    requires Wf(s) && t in s.nodes && d in s.nodes
    ensures t == d ==> r == Success(s)
    ensures r.Failure? <==> t != d && InSubtree(s, t, d)
    ensures r.Success? ==> Wf(r.value)
  {
    if t == d then Success(s)
    else if InSubtree(s, t, d) then Failure(WouldCycle)
    else Success(Reanchor(PourInto(s, d, t), t))
  }

  /** The standard merge as written: with no guard for a donor that is the
      target itself, the group's children are re-parented onto the group and
      the whole group is then destroyed. */
  function StandardMergeAsWritten(s: Scene, t: Id, d: Id): (r: Result<Scene, MergeError>)
    requires Wf(s) && t in s.nodes && d in s.nodes
    ensures t != d ==> r == StandardMerge(s, t, d)
    ensures t == d ==> r.Success? && Wf(r.value)
  {
    if t == d then Success(Destroy(s, d)) else StandardMerge(s, t, d)
  }

  /** Motor-hub merge: every part of `group` is moved under the hub, keeping
      its world position, and the emptied group is destroyed. */
  function HubMerge(s: Scene, hub: Id, group: Id): (r: Result<Scene, MergeError>)
    requires Wf(s) && hub in s.nodes && group in s.nodes
    ensures r.Failure? <==> InSubtree(s, hub, group)
    ensures r.Success? ==> Wf(r.value)
  {
    if InSubtree(s, hub, group) then Failure(WouldCycle)
    else Success(PourInto(s, group, hub))
  }

  /** `MergeGroup(mover, root)`: a motor hub within reach above the mover
      receives the root's group; failing that, a hub above the root receives
      the mover's group; otherwise the standard merge of the two group roots,
      with the control-hub test made on each group's own children and a merge
      of a group with itself refused. */
  function MergeGroup(s: Scene, mover: Id, root: Id): (r: Result<Scene, MergeError>)
    requires Wf(s) && mover in s.nodes && root in s.nodes
    ensures r.Success? ==> Wf(r.value)
    ensures (RotatingHub(s, mover).None? && RotatingHub(s, root).None?
             && GroupRoot(s, mover) == GroupRoot(s, root)) ==> r == Success(s)
  {
    match RotatingHub(s, mover)
    case Some(hub) => HubMerge(s, hub, GroupRoot(s, root))
    case None =>
      match RotatingHub(s, root)
      case Some(hub) => HubMerge(s, hub, GroupRoot(s, mover))
      case None =>
        var td := ChooseTarget(s, GroupRoot(s, mover), GroupRoot(s, root));
        StandardMerge(s, td.0, td.1)
  }

  /** `MergeGroup` as written: no guard against a group merged with itself,
      and the doubled climb in the control-hub test. */
  function MergeGroupAsWritten(s: Scene, mover: Id, root: Id): (r: Result<Scene, MergeError>)
    requires Wf(s) && mover in s.nodes && root in s.nodes
    ensures r.Success? ==> Wf(r.value)
    ensures RotatingHub(s, mover).Some? || RotatingHub(s, root).Some? ==> r == MergeGroup(s, mover, root)
  {
    match RotatingHub(s, mover)
    case Some(hub) => HubMerge(s, hub, GroupRoot(s, root))
    case None =>
      match RotatingHub(s, root)
      case Some(hub) => HubMerge(s, hub, GroupRoot(s, mover))
      case None =>
        var td := ChooseTargetAsWritten(s, GroupRoot(s, mover), GroupRoot(s, root));
        StandardMergeAsWritten(s, td.0, td.1)
  }

  /** When both parts already share a group root, the unguarded merge destroys
      that group together with both parts; the guarded one leaves the scene
      alone. */
  lemma SelfMergeDestroysGroup(s: Scene, mover: Id, root: Id)
    requires Wf(s) && mover in s.nodes && root in s.nodes
    requires RotatingHub(s, mover).None? && RotatingHub(s, root).None?
    requires GroupRoot(s, mover) == GroupRoot(s, root)
    ensures var r := MergeGroupAsWritten(s, mover, root);
      r.Success? && mover !in r.value.nodes && root !in r.value.nodes
      && GroupRoot(s, mover) !in r.value.nodes
    ensures MergeGroup(s, mover, root) == Success(s)
  {
  }

  /** Standard merge keeps every part: the donor is the only node that goes
      and the target lists its own parts (without the donor) followed by the
      donor's, so with the donor not among them the counts add up. */
  lemma StandardMergeKeepsParts(s: Scene, t: Id, d: Id)
    requires Wf(s) && t in s.nodes && d in s.nodes && t != d && !InSubtree(s, t, d)
    ensures var r := StandardMerge(s, t, d).value;
      && (forall y :: y in r.nodes <==> y in s.nodes && y != d)
      && r.nodes[t].children == Without(s.nodes[t].children, d) + s.nodes[d].children
      && (d !in s.nodes[t].children ==>
            |r.nodes[t].children| == |s.nodes[t].children| + |s.nodes[d].children|)
  {
    if d !in s.nodes[t].children {
      WithoutAbsent(s.nodes[t].children, d);
    }
  }

  /** Standard merge moves nothing in the world except the target itself, and
      the target's first part ends up at the target's origin. */
  lemma StandardMergeKeepsWorld(s: Scene, t: Id, d: Id)
    requires Wf(s) && t in s.nodes && d in s.nodes && t != d && !InSubtree(s, t, d)
    ensures var r := StandardMerge(s, t, d).value;
      && (forall y | y in r.nodes && y != t :: y in s.nodes && World(r, y) == World(s, y))
      && (r.nodes[t].children != [] ==> r.nodes[r.nodes[t].children[0]].local == Zero)
  {
  }

  /** Hub merge keeps every part and every world position. */
  lemma HubMergeKeepsParts(s: Scene, hub: Id, group: Id)
    requires Wf(s) && hub in s.nodes && group in s.nodes && !InSubtree(s, hub, group)
    ensures var r := HubMerge(s, hub, group).value;
      && (forall y :: y in r.nodes <==> y in s.nodes && y != group)
      && r.nodes[hub].children == Without(s.nodes[hub].children, group) + s.nodes[group].children
      && (forall y | y in r.nodes :: World(r, y) == World(s, y))
  {
  }

  /** A builder scene with two groups under a common "Robot" root: the first
      group holds the control hub, the second holds two beams. */
  function TwoGroups(): (s: Scene)
  {
    Scene(map[
      0 := Node("Robot", "", "", None, [1, 3], Zero, 0),
      1 := Node("Group", "", "", Some(0), [2], Zero, 1),
      2 := Node("ControlHub", "", "Parts", Some(1), [], Zero, 2),
      3 := Node("Group", "", "", Some(0), [4, 5], Zero, 1),
      4 := Node("Beam", "", "Parts", Some(3), [], Zero, 2),
      5 := Node("Beam", "", "Parts", Some(3), [], Zero, 2)])
  }

  lemma TwoGroupsWf()
    ensures Wf(TwoGroups())
  {
    var s := TwoGroups();
    forall id | id in s.nodes ensures ParentOk(s, id) && ChildrenOk(s, id) {
      TwoGroupsNodeOk(id);
    }
  }

  lemma TwoGroupsNodeOk(id: Id)
    requires id in TwoGroups().nodes
    ensures ParentOk(TwoGroups(), id) && ChildrenOk(TwoGroups(), id)
  {
    var s := TwoGroups();
    assert s.nodes.Keys == {0, 1, 2, 3, 4, 5};
    if id == 0 {
    } else if id == 1 {
    } else if id == 2 {
    } else if id == 3 {
    } else if id == 4 {
    } else {
      assert id == 5;
    }
  }

  /** In that scene both group roots climb to "Robot", whose children are the
      two groups and not the hub. */
  lemma TwoGroupsClimb()
    ensures Wf(TwoGroups())
    ensures GroupRoot(TwoGroups(), 1) == 0 && GroupRoot(TwoGroups(), 3) == 0
    ensures !GroupHasHub(TwoGroups(), 0) && GroupHasHub(TwoGroups(), 1)
  {
    TwoGroupsWf();
    var s := TwoGroups();
    assert !Contains("Robot", GroupMarker) by {
      assert "Robot"[0] != GroupMarker[0];
      assert !OccursAt("Robot", GroupMarker, 0);
    }
    assert GroupRootWithin(s, 0, 2) == 0;
    var cs := ChildrenOf(s, 0);
    assert cs == [1, 3];
    assert s.nodes[ChildrenOf(s, 1)[0]].name == ControlHubName;
  }

  /** With the groups under a common root, the test as written climbs from each
      group root to "Robot" and finds no hub there, so the larger hub-less
      group receives and the hub's own group is emptied and destroyed; the
      test on each group's own children makes the hub group receive. */
  lemma HubTestClimbsTooFar()
    ensures Wf(TwoGroups())
    ensures GroupHasHub(TwoGroups(), 1) && !HasControlHub(TwoGroups(), 1)
    ensures ChooseTargetAsWritten(TwoGroups(), 1, 3) == (3, 1)
    ensures ChooseTarget(TwoGroups(), 1, 3) == (1, 3)
  {
    TwoGroupsClimb();
  }
}
