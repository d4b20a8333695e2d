/** Copying the built robot into the simulation: the first group of the
    robot that holds a ControlHub is copied under the target root as
    "Robot", replacing an earlier copy, centred on its children and lifted
    out of the ground. Positions are translation-only: an object's world
    position is its parent's plus its local position. */
module SimRobot {
  import opened Wrappers
  import opened Geometry
  import opened Text
  import opened Trees

  const RobotWord := "Robot"
  const ControlHubName := "ControlHub"
  const PlaneName := "Plane"

  /** The first of `us` whose name contains `w`. */
  function FirstContaining(us: seq<Tree>, w: string): (r: Option<nat>)
    ensures r.Some? ==> r.value < |us| && Contains(us[r.value].name, w)
    ensures r.Some? ==> forall j | 0 <= j < r.value :: !Contains(us[j].name, w)
    ensures r.None? <==> forall j | 0 <= j < |us| :: !Contains(us[j].name, w)
  {
    if |us| == 0 then None
    else if Contains(us[0].name, w) then Some(0)
    else match FirstContaining(us[1..], w)
      case None => None
      case Some(i) => Some(i + 1)
  }

  /** `FindRobot`: the first object of the subtree in pre-order, the root
      itself included, whose name contains "Robot". */
  function FindRobot(root: Tree): (r: Option<Tree>)
    ensures r.Some? ==> r.value in PreOrder(root) && Contains(r.value.name, RobotWord)
    ensures r.None? <==> forall u | u in PreOrder(root) :: !Contains(u.name, RobotWord)
  {
    match FirstContaining(PreOrder(root), RobotWord)
    case None => None
    case Some(i) => Some(PreOrder(root)[i])
  }

  /** The group to copy: the first child of the robot with an object named
      ControlHub anywhere in its subtree, the child itself included. */
  function GroupToCopy(robot: Tree): (r: Option<nat>)
    ensures r.Some? ==> r.value < |robot.children| && HasNamed(robot.children[r.value], ControlHubName)
    ensures r.Some? ==> forall j | 0 <= j < r.value :: !HasNamed(robot.children[j], ControlHubName)
    ensures r.None? <==> forall j | 0 <= j < |robot.children| :: !HasNamed(robot.children[j], ControlHubName)
  {
    FirstWithHub(robot.children)
  }

  function FirstWithHub(gs: seq<Tree>): (r: Option<nat>)
    ensures r.Some? ==> r.value < |gs| && HasNamed(gs[r.value], ControlHubName)
    ensures r.Some? ==> forall j | 0 <= j < r.value :: !HasNamed(gs[j], ControlHubName)
    ensures r.None? <==> forall j | 0 <= j < |gs| :: !HasNamed(gs[j], ControlHubName)
  {
    if |gs| == 0 then None
    else if HasNamed(gs[0], ControlHubName) then Some(0)
    else match FirstWithHub(gs[1..])
      case None => None
      case Some(i) => Some(i + 1)
  }

  /** The sibling list with the first object, in pre-order, whose name
      contains "Robot" removed together with its subtree; nothing when no
      such object is there. */
  function RemoveRobot(cs: seq<Tree>): (r: Option<seq<Tree>>)
    decreases cs
  {
    if |cs| == 0 then None
    else if Contains(cs[0].name, RobotWord) then Some(cs[1..])
    else match RemoveRobot(cs[0].children)
      case Some(k) => Some([cs[0].(children := k)] + cs[1..])
      case None =>
        match RemoveRobot(cs[1..])
        case None => None
        case Some(rest) => Some([cs[0]] + rest)
  }

  /** Removal finds something exactly when the search does. */
  lemma {:induction false} RemoveRobotFinds(cs: seq<Tree>)
    ensures RemoveRobot(cs).None? <==> forall u | u in PreOrderAll(cs) :: !Contains(u.name, RobotWord)
    decreases cs
  {
    if |cs| > 0 {
      RemoveRobotFinds(cs[0].children);
      RemoveRobotFinds(cs[1..]);
      assert PreOrderAll(cs) == [cs[0]] + PreOrderAll(cs[0].children) + PreOrderAll(cs[1..]);
    }
  }

  /** The target root after the copy is placed: an earlier robot found
      under it is destroyed first, and the copy becomes its last child.
      When the target root's own name contains "Robot" it is the object
      destroyed, and nothing is left. */
  function Place(target: Tree, copy: Tree): (r: Option<Tree>)
    ensures r.None? <==> Contains(target.name, RobotWord)
    ensures r.Some? ==> r.value == target.(children := r.value.children)
    ensures r.Some? ==> |r.value.children| > 0 && r.value.children[|r.value.children| - 1] == copy
  {
    if Contains(target.name, RobotWord) then None
    else
      var kept := match RemoveRobot(target.children) case None => target.children case Some(k) => k;
      Some(target.(children := kept + [copy]))
  }

  /** Spawning twice under a target with no robot leaves only the second
      copy: the first is the one the second spawn finds and removes. */
  lemma SecondSpawnReplacesFirst(target: Tree, first: Tree, second: Tree)
    requires FindRobot(target).None?
    requires Contains(first.name, RobotWord)
    ensures Place(target, first).Some?
    ensures Place(Place(target, first).value, second) == Some(target.(children := target.children + [second]))
  {
    assert target in PreOrder(target);
    var t1 := Place(target, first).value;
    RemoveRobotFinds(target.children);
    assert forall u | u in PreOrderAll(target.children) :: u in PreOrder(target);
    assert t1.children == target.children + [first];
    RemoveRobotAfter(target.children, first);
  }

  /** Removal passes over siblings without a robot and takes the next one
      whose name contains "Robot". */
  lemma {:induction false} RemoveRobotAfter(cs: seq<Tree>, c: Tree)
    requires RemoveRobot(cs).None? && Contains(c.name, RobotWord)
    ensures RemoveRobot(cs + [c]) == Some(cs)
    decreases cs
  {
    if |cs| == 0 {
      assert [] + [c] == [c];
    } else {
      assert (cs + [c])[1..] == cs[1..] + [c];
      RemoveRobotAfter(cs[1..], c);
      assert [cs[0]] + cs[1..] == cs;
    }
  }

  /** The mean of the children's world positions, for a group whose own
      world position is `g`. */
  function MeanChildWorld(g: Vec3, cs: seq<Tree>): (avg: Vec3)
    requires |cs| > 0
  {
    Scale(Sum(ChildWorlds(g, cs)), 1.0 / (|cs| as real))
  }

  function ChildWorlds(g: Vec3, cs: seq<Tree>): (ws: seq<Vec3>)
  {
    Shift(g, LocalPositions(cs))
  }

  /** Every vector moved by `k`. */
  function Shift(k: Vec3, vs: seq<Vec3>): (ws: seq<Vec3>)
    ensures |ws| == |vs|
  {
    if |vs| == 0 then [] else [Add(k, vs[0])] + Shift(k, vs[1..])
  }

  lemma {:induction false} ShiftAt(k: Vec3, vs: seq<Vec3>, i: nat)
    requires i < |vs|
    ensures Shift(k, vs)[i] == Add(k, vs[i])
  {
    if i > 0 {
      ShiftAt(k, vs[1..], i - 1);
    }
  }

  /** `CenterGroupOnChildren` for a group whose parent sits at world
      position `p`: the group moves to the mean of its children's world
      positions and each child is moved back by the same offset. */
  function CenterGroupOnChildren(p: Vec3, grp: Tree): (r: Tree)
    ensures |grp.children| == 0 ==> r == grp
    ensures |r.children| == |grp.children|
    ensures forall i | 0 <= i < |grp.children| :: r.children[i] == grp.children[i].(local := r.children[i].local)
  {
    if |grp.children| == 0 then grp
    else
      var world := Add(p, grp.local.pos);
      var avg := MeanChildWorld(world, grp.children);
      var offset := Sub(world, avg);
      grp.(local := grp.local.(pos := Sub(avg, p)),
           children := seq(|grp.children|, i requires 0 <= i < |grp.children| =>
             var c := grp.children[i];
             c.(local := c.local.(pos := Add(c.local.pos, offset)))))
  }

  /** Centring keeps every child where it was in the world and puts the
      group at the mean of its children's world positions. */
  lemma CenterKeepsChildren(p: Vec3, grp: Tree, i: nat)
    requires i < |grp.children|
    ensures var r := CenterGroupOnChildren(p, grp);
      Add(Add(p, r.local.pos), r.children[i].local.pos) == Add(Add(p, grp.local.pos), grp.children[i].local.pos)
    ensures var r := CenterGroupOnChildren(p, grp);
      Add(p, r.local.pos) == MeanChildWorld(Add(p, grp.local.pos), grp.children)
  {
  }

  /** Scaling the sum of vectors that all exceed a common vector by their
      own part: the sum of `k + v_i` is `n k` plus the sum of the `v_i`. */
  lemma {:induction false} SumShift(k: Vec3, vs: seq<Vec3>)
    ensures Sum(Shift(k, vs)) == Add(Scale(k, |vs| as real), Sum(vs))
  {
    if |vs| > 0 {
      SumShift(k, vs[1..]);
      var m := (|vs| - 1) as real;
      assert |vs| as real == m + 1.0;
      assert Shift(k, vs)[1..] == Shift(k, vs[1..]);
      VectorStep(k, vs[0], Sum(vs[1..]), m);
    } else {
      assert Scale(k, 0.0) == Zero;
    }
  }

  /** One step of the sum above, component by component. */
  lemma VectorStep(k: Vec3, a: Vec3, t: Vec3, m: real)
    ensures Add(Add(k, a), Add(Scale(k, m), t)) == Add(Scale(k, m + 1.0), Add(a, t))
  {
    assert k.x * (m + 1.0) == k.x * m + k.x;
    assert k.y * (m + 1.0) == k.y * m + k.y;
    assert k.z * (m + 1.0) == k.z * m + k.z;
  }

  /** Moving `n` vectors that add up to `s` by the offset from their mean
      back to `w` makes them add up to nothing, component by component. */
  lemma CentreComponent(w: real, s: real, n: real)
    requires n > 0.0
    ensures (w - (w * n + s) * (1.0 / n)) * n + s == 0.0
  {
    assert (w * n + s) * (1.0 / n) * n == w * n + s by {
      assert (1.0 / n) * n == 1.0;
    }
  }

  lemma CentreVector(w: Vec3, s: Vec3, n: real)
    requires n > 0.0
    ensures Add(Scale(Sub(w, Scale(Add(Scale(w, n), s), 1.0 / n)), n), s) == Zero
  {
    CentreComponent(w.x, s.x, n);
    CentreComponent(w.y, s.y, n);
    CentreComponent(w.z, s.z, n);
  }

  /** After centring, the children's local positions add up to zero: the
      group sits exactly in their middle. */
  lemma CenteredChildrenAverageZero(p: Vec3, grp: Tree)
    requires |grp.children| > 0
    ensures var r := CenterGroupOnChildren(p, grp);
      Sum(LocalPositions(r.children)) == Zero
  {
    var r := CenterGroupOnChildren(p, grp);
    var n := |grp.children| as real;
    var world := Add(p, grp.local.pos);
    var before := LocalPositions(grp.children);
    var s := Sum(before);
    SumShift(world, before);
    var avg := Scale(Add(Scale(world, n), s), 1.0 / n);
    assert avg == MeanChildWorld(world, grp.children);
    var offset := Sub(world, avg);
    SumShift(offset, before);
    forall i | 0 <= i < |grp.children|
      ensures LocalPositions(r.children)[i] == Shift(offset, before)[i]
    {
      ShiftAt(offset, before, i);
    }
    assert LocalPositions(r.children) == Shift(offset, before);
    CentreVector(world, s, n);
  }

  function LocalPositions(cs: seq<Tree>): (ps: seq<Vec3>)
    ensures |ps| == |cs| && forall i | 0 <= i < |cs| :: ps[i] == cs[i].local.pos
  {
    seq(|cs|, i requires 0 <= i < |cs| => cs[i].local.pos)
  }

  /** The ground height: the world height of the simulation root's Plane
      child when there is one, else 0. */
  function GroundY(simRoot: Tree, simWorld: Vec3): (y: real)
    ensures FindChild(simRoot.children, PlaneName).None? ==> y == 0.0
  {
    match FindChild(simRoot.children, PlaneName)
    case None => 0.0
    case Some(i) => simWorld.y + simRoot.children[i].local.pos.y
  }

  /** How far the copy is raised: by the depth its bounds reach below the
      ground, and not at all when they do not. */
  function Lift(groundY: real, bottom: real): (d: real)
    ensures d >= 0.0 && bottom + d >= groundY
    ensures bottom >= groundY ==> d == 0.0
    ensures bottom < groundY ==> bottom + d == groundY
  {
    var offset := groundY - bottom;
    if offset > 0.0 then offset else 0.0
  }

  /** The result of a spawn: the target root afterwards (nothing when it
      was itself destroyed), the copy as placed, and the registered position
      when the copy had to be lifted. */
  datatype Spawned = Spawned(target: Option<Tree>, copy: Tree, regPos: Option<Vec3>)

  /** `SpawnSimulationRobot`: nothing happens without a robot under the
      building root or without a group holding a ControlHub; otherwise that
      group is copied as "Robot", centred on its children, lifted above the
      ground, and placed under the target root. The copy's lowest rendered
      point is given by `bottom`, evaluated on the centred copy at world
      position `targetWorld` plus its local position. */
  function SpawnSimulationRobot(building: Tree, target: Tree, targetWorld: Vec3,
                                groundY: real, bottom: (Tree, Vec3) -> real): (r: Option<Spawned>)
    ensures r.None? <==> FindRobot(building).None? || GroupToCopy(FindRobot(building).value).None?
    ensures r.Some? ==>
      var robot := FindRobot(building).value;
      var g := robot.children[GroupToCopy(robot).value];
      && r.value.copy.name == RobotWord
      && r.value.copy.children == CenterGroupOnChildren(targetWorld, g).children
      && r.value.target == Place(target, r.value.copy)
  {
    match FindRobot(building)
    case None => None
    case Some(robot) =>
      match GroupToCopy(robot)
      case None => None
      case Some(k) =>
        var centred := CenterGroupOnChildren(targetWorld, robot.children[k].(name := RobotWord));
        var low := bottom(centred, Add(targetWorld, centred.local.pos));
        var d := Lift(groundY, low);
        var copy := centred.(local := centred.local.(pos := Add(centred.local.pos, Vec3(0.0, d, 0.0))));
        var reg := if d > 0.0 then Some(Add(targetWorld, copy.local.pos)) else None;
        Some(Spawned(Place(target, copy), copy, reg))
  }
}
