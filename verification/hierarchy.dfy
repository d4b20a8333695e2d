/** The builder scene as an arena of transforms. Each node records its parent,
    its ordered children and its position relative to the parent; `depth`
    (strictly larger than the parent's) ranks the hierarchy so that world
    positions are well defined. Frames are translation-only. */
module Hierarchy {
  import opened Wrappers
  import opened Geometry
  import opened Text

  type Id = nat

  datatype Node = Node(
    name: string,
    tag: string,
    layer: string,
    parent: Option<Id>,
    children: seq<Id>,
    local: Vec3,
    depth: nat)

  datatype Scene = Scene(nodes: map<Id, Node>)

  const PartsLayer := "Parts"
  const GroupMarker := "Group"
  const MotorHubName := "MotorHub"
  const ControlHubName := "ControlHub"
  const AxlePosMarker := "AxlePos"

  /** The parent link of `id` is reciprocated and ranks below it. */
  predicate ParentOk(s: Scene, id: Id)
    requires id in s.nodes
  {
    match s.nodes[id].parent
    case None => true
    case Some(p) =>
      p in s.nodes && s.nodes[p].depth < s.nodes[id].depth && id in s.nodes[p].children
  }

  /** The children of `id` exist, point back at it, and are listed once. */
  predicate ChildrenOk(s: Scene, id: Id)
    requires id in s.nodes
  {
    var cs := s.nodes[id].children;
    && (forall i | 0 <= i < |cs| :: cs[i] in s.nodes && s.nodes[cs[i]].parent == Some(id))
    && (forall i, j | 0 <= i < j < |cs| :: cs[i] != cs[j])
  }

  predicate Wf(s: Scene) {
    && (forall id {:trigger ParentOk(s, id)} | id in s.nodes :: ParentOk(s, id))
    && (forall id {:trigger ChildrenOk(s, id)} | id in s.nodes :: ChildrenOk(s, id))
  }

  /** The parent of `t`, with the facts well-formedness gives about it. */
  function ParentOf(s: Scene, t: Id): (p: Option<Id>)
    requires Wf(s) && t in s.nodes
    ensures p == s.nodes[t].parent
    ensures p.Some? ==>
      p.value in s.nodes && s.nodes[p.value].depth < s.nodes[t].depth && t in s.nodes[p.value].children
  {
    assert ParentOk(s, t);
    s.nodes[t].parent
  }

  /** The children of `t`, with the facts well-formedness gives about them. */
  function ChildrenOf(s: Scene, t: Id): (cs: seq<Id>)
    requires Wf(s) && t in s.nodes
    ensures cs == s.nodes[t].children
    ensures forall i | 0 <= i < |cs| :: cs[i] in s.nodes && s.nodes[cs[i]].parent == Some(t)
    ensures forall i, j | 0 <= i < j < |cs| :: cs[i] != cs[j]
  {
    assert ChildrenOk(s, t);
    s.nodes[t].children
  }

  /** World position: the sum of local offsets along the parent chain. */
  function World(s: Scene, id: Id): Vec3
    requires Wf(s) && id in s.nodes
    decreases s.nodes[id].depth
  {
    var n := s.nodes[id];
    match ParentOf(s, id)
    case None => n.local
    case Some(p) => Add(n.local, World(s, p))
  }

  /** Is `y` the node `r` or one of its descendants? */
  predicate InSubtree(s: Scene, y: Id, r: Id)
    requires Wf(s) && y in s.nodes
    decreases s.nodes[y].depth
  {
    y == r || match ParentOf(s, y)
              case None => false
              case Some(p) => InSubtree(s, p, r)
  }

  /** The `n`-th ancestor of `t`, if the chain is that long. */
  function Up(s: Scene, t: Id, n: nat): (r: Option<Id>)
    requires Wf(s) && t in s.nodes
    ensures r.Some? ==> r.value in s.nodes && InSubtree(s, t, r.value)
    decreases n
  {
    if n == 0 then Some(t)
    else match ParentOf(s, t)
      case None => None
      case Some(p) => Up(s, p, n - 1)
  }

  /** `GetGroupRoot`: climb at most three parents and stop at the first whose
      name contains "Group"; otherwise the last node reached. */
  function GroupRoot(s: Scene, t: Id): (r: Id)
    requires Wf(s) && t in s.nodes
    ensures r in s.nodes && InSubtree(s, t, r)
  {
    GroupRootWithin(s, t, 3)
  }

  function GroupRootWithin(s: Scene, t: Id, k: nat): (r: Id)
    requires Wf(s) && t in s.nodes
    ensures r in s.nodes && InSubtree(s, t, r)
    decreases k
  {
    if k == 0 then t
    else match ParentOf(s, t)
      case None => t
      case Some(p) =>
        if Contains(s.nodes[p].name, GroupMarker) then p else GroupRootWithin(s, p, k - 1)
  }

  /** The ancestor `j` levels up exists and its name contains "Group". */
  predicate MarkedUp(s: Scene, t: Id, j: nat)
    requires Wf(s) && t in s.nodes
  {
    match Up(s, t, j)
    case None => false
    case Some(a) => Contains(s.nodes[a].name, GroupMarker)
  }

  /** Climbing from `t` for at most `k` levels ends at `r`, `m` levels up:
      no ancestor passed on the way is marked, and the climb ended because
      `r` is marked, because `k` levels were used, or because `r` is a root. */
  predicate ClimbEndsAt(s: Scene, t: Id, k: nat, m: nat, r: Id)
    requires Wf(s) && t in s.nodes && r in s.nodes
  {
    && m <= k
    && Up(s, t, m) == Some(r)
    && (forall j: nat | 1 <= j < m :: !MarkedUp(s, t, j))
    && ((1 <= m && MarkedUp(s, t, m)) || m == k || s.nodes[r].parent.None?)
  }

  /** `GetGroupRoot` is the first marked ancestor one to three levels up, or
      the highest node the bounded climb reaches. */
  lemma {:induction false} GroupRootIsFirstMarked(s: Scene, t: Id, k: nat)
    requires Wf(s) && t in s.nodes
    ensures exists m: nat :: ClimbEndsAt(s, t, k, m, GroupRootWithin(s, t, k))
    decreases k
  {
    var r := GroupRootWithin(s, t, k);
    if k == 0 || s.nodes[t].parent.None? {
      assert ClimbEndsAt(s, t, k, 0, r);
    } else {
      var p := s.nodes[t].parent.value;
      if Contains(s.nodes[p].name, GroupMarker) {
        assert Up(s, t, 1) == Some(p);
        assert ClimbEndsAt(s, t, k, 1, r);
      } else {
        GroupRootIsFirstMarked(s, p, k - 1);
        var m: nat :| ClimbEndsAt(s, p, k - 1, m, r);
        forall j: nat | 1 <= j <= m + 1
          ensures MarkedUp(s, t, j) == MarkedUp(s, p, j - 1)
        {
          assert Up(s, t, j) == Up(s, p, j - 1);
        }
        assert Up(s, t, m + 1) == Up(s, p, m);
        assert ClimbEndsAt(s, t, k, m + 1, r);
      }
    }
  }

  /** `GetPartRoot`: the nearest ancestor-or-self on the "Parts" layer. */
  function PartRoot(s: Scene, t: Id): (r: Option<Id>)
    requires Wf(s) && t in s.nodes
    ensures r.Some? ==>
      r.value in s.nodes && InSubtree(s, t, r.value) && s.nodes[r.value].layer == PartsLayer
    decreases s.nodes[t].depth
  {
    if s.nodes[t].layer == PartsLayer then Some(t)
    else match ParentOf(s, t)
      case None => None
      case Some(p) => PartRoot(s, p)
  }

  /** `GetAxlePos`: the first direct child whose name contains "AxlePos",
      otherwise the node itself. */
  function AxlePos(s: Scene, root: Id): (r: Id)
    requires Wf(s) && root in s.nodes
    ensures r in s.nodes
    ensures r == root || (r in s.nodes[root].children && Contains(s.nodes[r].name, AxlePosMarker))
    ensures r != root <==> exists c | c in s.nodes[root].children && c in s.nodes :: Contains(s.nodes[c].name, AxlePosMarker)
  {
    var cs := ChildrenOf(s, root);
    match FirstNamed(s, cs, AxlePosMarker)
    case None => root
    case Some(c) =>
      var _ := ParentOf(s, c);
      c
  }

  /** The first id in `ids` whose node name contains `marker`. */
  function FirstNamed(s: Scene, ids: seq<Id>, marker: string): (r: Option<Id>)
    requires forall i | 0 <= i < |ids| :: ids[i] in s.nodes
    ensures r.None? <==> forall i | 0 <= i < |ids| :: !Contains(s.nodes[ids[i]].name, marker)
    ensures r.Some? ==> r.value in ids && Contains(s.nodes[r.value].name, marker)
  {
    if |ids| == 0 then None
    else if Contains(s.nodes[ids[0]].name, marker) then Some(ids[0])
    else FirstNamed(s, ids[1..], marker)
  }

  /** `GetRotatingHub`: among the node and its ancestors, at most four nodes
      are examined and each only while it still has a parent; the first named
      exactly "MotorHub" is returned. */
  function RotatingHub(s: Scene, h: Id): (r: Option<Id>)
    requires Wf(s) && h in s.nodes
    ensures r.Some? ==>
      r.value in s.nodes && s.nodes[r.value].name == MotorHubName
      && s.nodes[r.value].parent.Some? && InSubtree(s, h, r.value)
  {
    HubWithin(s, h, 4)
  }

  function HubWithin(s: Scene, h: Id, k: nat): (r: Option<Id>)
    requires Wf(s) && h in s.nodes
    ensures r.Some? ==>
      r.value in s.nodes && s.nodes[r.value].name == MotorHubName
      && s.nodes[r.value].parent.Some? && InSubtree(s, h, r.value)
    decreases k
  {
    if k == 0 then None
    else match ParentOf(s, h)
      case None => None
      case Some(p) => if s.nodes[h].name == MotorHubName then Some(h) else HubWithin(s, p, k - 1)
  }

  /** `HasControlHub`: the group of `t` has a direct child named "ControlHub". */
  predicate HasControlHub(s: Scene, t: Id)
    requires Wf(s) && t in s.nodes
  {
    GroupHasHub(s, GroupRoot(s, t))
  }

  /** Some direct child of `g` is named exactly "ControlHub". */
  predicate GroupHasHub(s: Scene, g: Id)
    requires Wf(s) && g in s.nodes
  {
    var cs := ChildrenOf(s, g);
    exists i | 0 <= i < |cs| :: s.nodes[cs[i]].name == ControlHubName
  }

  /** A descendant sits at least as deep as its ancestor. */
  lemma {:induction false} SubtreeDepth(s: Scene, y: Id, x: Id)
    requires Wf(s) && y in s.nodes && x in s.nodes
    ensures InSubtree(s, y, x) ==> s.nodes[x].depth <= s.nodes[y].depth
    decreases s.nodes[y].depth
  {
    if y != x && ParentOf(s, y).Some? {
      SubtreeDepth(s, s.nodes[y].parent.value, x);
    }
  }

  /** A proper descendant exists only below a node that has children. */
  lemma {:induction false} SubtreeOfLeaf(s: Scene, y: Id, x: Id)
    requires Wf(s) && y in s.nodes && x in s.nodes && InSubtree(s, y, x) && y != x
    ensures |s.nodes[x].children| > 0
    decreases s.nodes[y].depth
  {
    var p := s.nodes[y].parent.value;
    assert ParentOk(s, y);
    if p != x {
      SubtreeOfLeaf(s, p, x);
    }
  }

  /** `ids` without `x`. */
  function Without(ids: seq<Id>, x: Id): (r: seq<Id>)
    ensures forall y :: y in r <==> y in ids && y != x
    ensures |r| <= |ids|
    ensures (forall i, j | 0 <= i < j < |ids| :: ids[i] != ids[j]) ==> forall i, j | 0 <= i < j < |r| :: r[i] != r[j]
  {
    if |ids| == 0 then []
    else if ids[0] == x then Without(ids[1..], x)
    else
      var t := Without(ids[1..], x);
      assert (forall i, j | 0 <= i < j < |ids| :: ids[i] != ids[j]) ==> ids[0] !in ids[1..];
      [ids[0]] + t
  }

  /** `Object.Destroy`, taken as immediate: the node and all its descendants
      leave the scene and the parent forgets the node. */
  function Destroy(s: Scene, x: Id): (r: Scene)
    requires Wf(s) && x in s.nodes
    ensures Wf(r)
    ensures forall y :: y in r.nodes <==> y in s.nodes && !InSubtree(s, y, x)
    ensures forall y | y in r.nodes :: World(r, y) == World(s, y)
    ensures forall y | y in r.nodes ::
      r.nodes[y] == if Some(y) == s.nodes[x].parent
                    then s.nodes[y].(children := Without(s.nodes[y].children, x))
                    else s.nodes[y]
  {
    var p := s.nodes[x].parent;
    var r := Scene(map y | y in s.nodes && !InSubtree(s, y, x) ::
      if Some(y) == p then s.nodes[y].(children := Without(s.nodes[y].children, x)) else s.nodes[y]);
    DestroyWf(s, x, r);
    WorldShift(s, r, y => Zero);
    r
  }

  lemma DestroyWf(s: Scene, x: Id, r: Scene)
    requires Wf(s) && x in s.nodes
    requires r == Scene(map y | y in s.nodes && !InSubtree(s, y, x) ::
      if Some(y) == s.nodes[x].parent then s.nodes[y].(children := Without(s.nodes[y].children, x)) else s.nodes[y])
    ensures Wf(r)
  {
    forall id | id in r.nodes
      ensures ParentOk(r, id) && ChildrenOk(r, id)
    {
      DestroyNodeOk(s, x, r, id);
    }
  }

  lemma DestroyNodeOk(s: Scene, x: Id, r: Scene, id: Id)
    requires Wf(s) && x in s.nodes
    requires forall y :: y in r.nodes <==> y in s.nodes && !InSubtree(s, y, x)
    requires forall y | y in r.nodes ::
      r.nodes[y] == if Some(y) == s.nodes[x].parent
                    then s.nodes[y].(children := Without(s.nodes[y].children, x))
                    else s.nodes[y]
    requires id in r.nodes
    ensures ParentOk(r, id) && ChildrenOk(r, id)
  {
    DestroyParentOk(s, x, r, id);
    DestroyChildrenOk(s, x, r, id);
  }

  lemma DestroyParentOk(s: Scene, x: Id, r: Scene, id: Id)
    requires Wf(s) && x in s.nodes
    requires forall y :: y in r.nodes <==> y in s.nodes && !InSubtree(s, y, x)
    requires forall y | y in r.nodes ::
      r.nodes[y] == if Some(y) == s.nodes[x].parent
                    then s.nodes[y].(children := Without(s.nodes[y].children, x))
                    else s.nodes[y]
    requires id in r.nodes
    ensures ParentOk(r, id)
  {
    var n := s.nodes[id];
    assert ParentOk(s, id);
    if n.parent.Some? {
      var q := n.parent.value;
      assert !InSubtree(s, id, x);
      assert !InSubtree(s, q, x);
      assert q in r.nodes;
      assert id != x;
      assert id in r.nodes[q].children;
    }
  }

  lemma DestroyChildrenOk(s: Scene, x: Id, r: Scene, id: Id)
    requires Wf(s) && x in s.nodes
    requires forall y :: y in r.nodes <==> y in s.nodes && !InSubtree(s, y, x)
    requires forall y | y in r.nodes ::
      r.nodes[y] == if Some(y) == s.nodes[x].parent
                    then s.nodes[y].(children := Without(s.nodes[y].children, x))
                    else s.nodes[y]
    requires id in r.nodes
    ensures ChildrenOk(r, id)
  {
    var n := s.nodes[id];
    assert ChildrenOk(s, id);
    var cs := r.nodes[id].children;
    forall i | 0 <= i < |cs| ensures cs[i] in r.nodes && r.nodes[cs[i]].parent == Some(id) {
      var c := cs[i];
      assert c in n.children && c != x;
      assert s.nodes[c].parent == Some(id);
      assert !InSubtree(s, id, x);
      assert !InSubtree(s, c, x);
    }
  }

  /** The positions of the survivors of an edit are read against the old scene:
      if each node's new offset, added to the old world position of its new
      parent shifted by `delta`, gives its own old world position shifted by
      `delta`, then every world position moves by exactly `delta`. */
  predicate LocalAgrees(s: Scene, r: Scene, delta: Id -> Vec3, y: Id)
    requires Wf(s) && y in r.nodes && y in s.nodes
  {
    var n := r.nodes[y];
    match n.parent
    case None => n.local == Add(World(s, y), delta(y))
    case Some(p) =>
      p in s.nodes && Add(n.local, Add(World(s, p), delta(p))) == Add(World(s, y), delta(y))
  }

  lemma WorldShift(s: Scene, r: Scene, delta: Id -> Vec3)
    requires Wf(s) && Wf(r)
    requires forall y | y in r.nodes :: y in s.nodes && LocalAgrees(s, r, delta, y)
    ensures forall y | y in r.nodes :: World(r, y) == Add(World(s, y), delta(y))
  {
    forall y | y in r.nodes ensures World(r, y) == Add(World(s, y), delta(y)) {
      WorldShiftAt(s, r, delta, y);
    }
  }

  lemma {:induction false} WorldShiftAt(s: Scene, r: Scene, delta: Id -> Vec3, y: Id)
    requires Wf(s) && Wf(r)
    requires forall z | z in r.nodes :: z in s.nodes && LocalAgrees(s, r, delta, z)
    requires y in r.nodes
    ensures World(r, y) == Add(World(s, y), delta(y))
    decreases r.nodes[y].depth
  {
    assert LocalAgrees(s, r, delta, y);
    match ParentOf(r, y)
    case None =>
    case Some(p) =>
      WorldShiftAt(s, r, delta, p);
  }
}
