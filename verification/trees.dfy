/** Immutable snapshots of a transform hierarchy, used where a whole subtree
    is saved, rebuilt or copied: the robot and block-code save files and the
    simulation copy of the robot. */
module Trees {
  import opened Wrappers
  import opened Geometry
  import opened Text

  /** One game object: its name, tag and layer name, its pose relative to
      its parent, the inputs of its block-input component when it has one,
      and its children in sibling order. */
  datatype Tree = Tree(
    name: string,
    tag: string,
    layer: string,
    local: Pose,
    inputs: Option<map<string, string>>,
    children: seq<Tree>)

  const Untagged := "Untagged"
  const DefaultLayer := "Default"

  /** A fresh empty game object at its parent's origin. */
  function NewObject(n: string): (t: Tree)
    ensures t.name == n && |t.children| == 0 && t.inputs.None?
  {
    Tree(n, Untagged, DefaultLayer, Pose(Zero, Identity), None, [])
  }

  /** `Transform.Find` with a plain name: the first direct child so named. */
  function FindChild(cs: seq<Tree>, n: string): (r: Option<nat>)
    ensures r.Some? ==> r.value < |cs| && cs[r.value].name == n
    ensures r.Some? ==> forall j | 0 <= j < r.value :: cs[j].name != n
    ensures r.None? <==> forall j | 0 <= j < |cs| :: cs[j].name != n
  {
    if |cs| == 0 then None
    else if cs[0].name == n then Some(0)
    else match FindChild(cs[1..], n)
      case None => None
      case Some(i) => Some(i + 1)
  }

  /** `GetComponentsInChildren<Transform>(true)`: the subtree in pre-order,
      the root first. */
  function PreOrder(t: Tree): (r: seq<Tree>)
    decreases t
  {
    [t] + PreOrderAll(t.children)
  }

  function PreOrderAll(cs: seq<Tree>): (r: seq<Tree>)
    decreases cs
  {
    if |cs| == 0 then [] else PreOrder(cs[0]) + PreOrderAll(cs[1..])
  }

  /** Does some object of the subtree, the root included, carry name `n`. */
  predicate HasNamed(t: Tree, n: string)
  {
    exists u | u in PreOrder(t) :: u.name == n
  }

  /** Pre-order is a listing of the subtree: the root comes first and every
      child's listing is part of its parent's. */
  lemma {:induction false} PreOrderHasChildren(t: Tree, i: nat)
    requires i < |t.children|
    ensures PreOrder(t)[0] == t
    ensures forall u | u in PreOrder(t.children[i]) :: u in PreOrder(t)
  {
    PreOrderAllHas(t.children, i);
  }

  lemma {:induction false} PreOrderAllHas(cs: seq<Tree>, i: nat)
    requires i < |cs|
    ensures forall u | u in PreOrder(cs[i]) :: u in PreOrderAll(cs)
    decreases i
  {
    if i > 0 {
      PreOrderAllHas(cs[1..], i - 1);
      assert cs[1..][i - 1] == cs[i];
    }
  }
}
