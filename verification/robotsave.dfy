/** The robot save file: saving walks Robot → groups → parts, descending
    only into a part's MotorHub, and loading rebuilds that hierarchy from
    prefabs. The JSON text and its encryption are left out; a save file is
    its parsed record. */
module RobotSave {
  import opened Wrappers
  import opened Geometry
  import opened Text
  import opened Trees

  /** One saved part: the prefab it came from, its local pose, whether it
      carries a MotorHub, and the parts saved under that hub. */
  datatype PartData = PartData(
    prefabName: string,
    position: Vec3,
    rotation: Quat,
    isMotorHub: bool,
    childParts: seq<PartData>)

  /** One saved group: its name, its parts and its local pose. */
  datatype GroupData = GroupData(groupName: string, parts: seq<PartData>, position: Vec3, rotation: Quat)

  datatype RobotData = RobotData(groups: seq<GroupData>)

  const RobotName := "Robot"
  const MotorHubName := "MotorHub"
  const PartsLayer := "Parts"

  /** The save text as `LoadRobot` receives it: null or empty, or a text
      that parses to a record or to null. */
  datatype SaveText = Blank | Parsed(data: Option<RobotData>)

  /** `SavePart`: the cleaned name and local pose; with a MotorHub child,
      every Parts-layer child of the hub is saved the same way. */
  function SavePart(t: Tree): (r: PartData)
    ensures r.prefabName == StripClone(t.name) && r.position == t.local.pos && r.rotation == t.local.rot
    ensures r.isMotorHub <==> FindChild(t.children, MotorHubName).Some?
    ensures !r.isMotorHub ==> r.childParts == []
    ensures r.isMotorHub ==> |r.childParts| <= |t.children[FindChild(t.children, MotorHubName).value].children|
    decreases t
  {
    var hub := FindChild(t.children, MotorHubName);
    PartData(StripClone(t.name), t.local.pos, t.local.rot, hub.Some?,
             if hub.None? then [] else SaveHubChildren(t.children[hub.value].children))
  }

  /** The Parts-layer children of a MotorHub, saved in sibling order. */
  function SaveHubChildren(cs: seq<Tree>): (r: seq<PartData>)
    ensures |r| <= |cs|
    decreases cs
  {
    if |cs| == 0 then []
    else (if cs[0].layer == PartsLayer then [SavePart(cs[0])] else []) + SaveHubChildren(cs[1..])
  }

  /** Every object of a sequence saved as a part, in order. */
  function SaveParts(cs: seq<Tree>): (r: seq<PartData>)
    ensures |r| == |cs|
    ensures forall i | 0 <= i < |cs| :: r[i] == SavePart(cs[i])
  {
    if |cs| == 0 then [] else [SavePart(cs[0])] + SaveParts(cs[1..])
  }

  /** A group: its name and local pose, and one part record per direct
      child in sibling order, whatever the child's layer. */
  function SaveGroup(g: Tree): (r: GroupData)
    ensures r.groupName == g.name && r.position == g.local.pos && r.rotation == g.local.rot
    ensures |r.parts| == |g.children|
    ensures forall i | 0 <= i < |g.children| :: r.parts[i] == SavePart(g.children[i])
  {
    GroupData(g.name, SaveParts(g.children), g.local.pos, g.local.rot)
  }

  /** `SaveRobot` on the build root: nothing (the empty text) without a
      Robot child; otherwise one group record per child of the first one. */
  function SaveRobot(root: Tree): (r: Option<RobotData>)
    ensures r.None? <==> FindChild(root.children, RobotName).None?
    ensures r.Some? ==>
      var robot := root.children[FindChild(root.children, RobotName).value];
      && |r.value.groups| == |robot.children|
      && forall i | 0 <= i < |robot.children| :: r.value.groups[i] == SaveGroup(robot.children[i])
  {
    match FindChild(root.children, RobotName)
    case None => None
    case Some(k) =>
      var robot := root.children[k];
      Some(RobotData(seq(|robot.children|, i requires 0 <= i < |robot.children| => SaveGroup(robot.children[i]))))
  }

  /** `LoadPart`: a record with an empty name or no prefab of that name is
      skipped; otherwise the prefab is instantiated, named without the clone
      suffix and posed, and for a hub record with a MotorHub child the child
      records are loaded under that hub after its own children. */
  function LoadPart(d: PartData, prefabs: string -> Option<Tree>): (r: Option<Tree>)
    ensures r.None? <==> d.prefabName == [] || prefabs(d.prefabName).None?
    decreases d
  {
    if d.prefabName == [] then None
    else match prefabs(d.prefabName)
      case None => None
      case Some(pf) =>
        var part := pf.(name := StripClone(pf.name + CloneSuffix), local := Pose(d.position, d.rotation));
        if !d.isMotorHub then Some(part)
        else match FindChild(part.children, MotorHubName)
          case None => Some(part)
          case Some(h) =>
            var hub := part.children[h];
            Some(part.(children := part.children[h := hub.(children := hub.children + LoadParts(d.childParts, prefabs))]))
  }

  /** The records loaded in order, the skipped ones left out. */
  function LoadParts(ds: seq<PartData>, prefabs: string -> Option<Tree>): (r: seq<Tree>)
    ensures |r| <= |ds|
    decreases ds
  {
    if |ds| == 0 then []
    else match LoadPart(ds[0], prefabs)
      case None => LoadParts(ds[1..], prefabs)
      case Some(t) => [t] + LoadParts(ds[1..], prefabs)
  }

  /** A group object named after the record, cleaned, posed as saved. */
  function LoadGroup(g: GroupData, prefabs: string -> Option<Tree>): (r: Tree)
    ensures r.name == StripClone(g.groupName) && r.local == Pose(g.position, g.rotation)
    ensures r.children == LoadParts(g.parts, prefabs)
  {
    NewObject(StripClone(g.groupName)).(local := Pose(g.position, g.rotation), children := LoadParts(g.parts, prefabs))
  }

  function LoadGroups(gs: seq<GroupData>, prefabs: string -> Option<Tree>): (r: seq<Tree>)
    ensures |r| == |gs| && forall i | 0 <= i < |gs| :: r[i] == LoadGroup(gs[i], prefabs)
  {
    seq(|gs|, i requires 0 <= i < |gs| => LoadGroup(gs[i], prefabs))
  }

  /** `LoadRobot`: empty text leaves the build alone; any other text
      replaces every child of the build root by one new Robot object, which
      stays empty when the text parses to null and otherwise holds one group
      per record. */
  function LoadRobot(root: Tree, text: SaveText, prefabs: string -> Option<Tree>): (r: Tree)
    ensures text.Blank? ==> r == root
    ensures text.Parsed? ==>
      && r == root.(children := r.children)
      && |r.children| == 1 && r.children[0].name == RobotName
      && r.children[0].local == Pose(Zero, Identity)
      && (text.data.None? ==> r.children[0].children == [])
      && (text.data.Some? ==> r.children[0].children == LoadGroups(text.data.value.groups, prefabs))
  {
    match text
    case Blank => root
    case Parsed(data) =>
      var groups := match data case None => [] case Some(d) => LoadGroups(d.groups, prefabs);
      root.(children := [NewObject(RobotName).(children := groups)])
  }

  /** A prefab library as `Resources.Load` sees it: each prefab is named
      after the key it is loaded by. */
  ghost predicate NamedByKey(prefabs: string -> Option<Tree>)
  {
    forall n :: prefabs(n).Some? ==> prefabs(n).value.name == n
  }

  /** A name that cleaning leaves alone. */
  predicate Clean(n: string)
  {
    Trimmed(n) && !Contains(n, CloneSuffix)
  }

  /** A part record that loads back to itself: a clean name with a prefab
      of the Parts layer, a MotorHub on the prefab exactly when the record
      says so, no Parts-layer objects already under the prefab's hub, and
      child records only on hubs, each again of this kind. */
  predicate Restorable(d: PartData, prefabs: string -> Option<Tree>)
    decreases d
  {
    && d.prefabName != [] && Clean(d.prefabName)
    && prefabs(d.prefabName).Some?
    && var pf := prefabs(d.prefabName).value;
    && pf.layer == PartsLayer
    && (FindChild(pf.children, MotorHubName).Some? <==> d.isMotorHub)
    && (d.isMotorHub ==> SaveHubChildren(pf.children[FindChild(pf.children, MotorHubName).value].children) == [])
    && (!d.isMotorHub ==> d.childParts == [])
    && forall c | c in d.childParts :: Restorable(c, prefabs)
  }

  /** Saving the hub's children saves each part of the sequence in turn. */
  lemma {:induction false} SaveHubChildrenAppend(a: seq<Tree>, b: seq<Tree>)
    ensures SaveHubChildren(a + b) == SaveHubChildren(a) + SaveHubChildren(b)
    decreases a
  {
    if |a| == 0 {
      assert a + b == b;
    } else {
      SaveHubChildrenHead(a, b);
      SaveHubChildrenAppend(a[1..], b);
      var h := if a[0].layer == PartsLayer then [SavePart(a[0])] else [];
      Associative(h, SaveHubChildren(a[1..]), SaveHubChildren(b));
    }
  }

  /** The first object of `a + b` is saved, if at all, before the rest. */
  lemma SaveHubChildrenHead(a: seq<Tree>, b: seq<Tree>)
    requires |a| > 0
    ensures SaveHubChildren(a + b)
         == (if a[0].layer == PartsLayer then [SavePart(a[0])] else []) + SaveHubChildren(a[1..] + b)
  {
    assert (a + b)[0] == a[0];
    assert (a + b)[1..] == a[1..] + b;
  }

  lemma Associative<T>(x: seq<T>, y: seq<T>, z: seq<T>)
    ensures x + (y + z) == (x + y) + z
  {
  }

  /** Do all objects of a sequence sit on the Parts layer. */
  predicate AllParts(cs: seq<Tree>)
  {
    forall i | 0 <= i < |cs| :: cs[i].layer == PartsLayer
  }

  /** Under a hub whose children are all of the Parts layer, every child is
      saved, in order. */
  lemma {:induction false} SaveHubChildrenAllParts(cs: seq<Tree>)
    requires AllParts(cs)
    ensures SaveHubChildren(cs) == SaveParts(cs)
  {
    if |cs| > 0 {
      SaveHubChildrenAllParts(cs[1..]);
    }
  }

  /** Replacing one child by an object of the same name keeps the first
      child of every name where it was. */
  lemma {:induction false} FindChildAfterUpdate(cs: seq<Tree>, h: nat, u: Tree, n: string)
    requires h < |cs| && u.name == cs[h].name
    ensures FindChild(cs[h := u], n) == FindChild(cs, n)
    decreases |cs|
  {
    if |cs| > 0 && cs[0].name != n && h > 0 {
      assert cs[h := u][1..] == cs[1..][h - 1 := u];
      FindChildAfterUpdate(cs[1..], h - 1, u, n);
    }
  }

  /** The part a restorable record loads as: its prefab, named by the key,
      posed as saved. */
  lemma LoadedPart(d: PartData, prefabs: string -> Option<Tree>)
    requires NamedByKey(prefabs) && Restorable(d, prefabs)
    ensures LoadPart(d, prefabs).Some?
    ensures var pf := prefabs(d.prefabName).value;
      pf.(name := StripClone(pf.name + CloneSuffix), local := Pose(d.position, d.rotation))
      == pf.(local := Pose(d.position, d.rotation))
  {
    var pf := prefabs(d.prefabName).value;
    StripCloneOfCopy(pf.name);
    StripCloneFixed(pf.name);
  }

  /** Loading a restorable part and saving it gives the record back. */
  lemma {:induction false} PartRoundTrip(d: PartData, prefabs: string -> Option<Tree>)
    requires NamedByKey(prefabs) && Restorable(d, prefabs)
    ensures LoadPart(d, prefabs).Some?
    ensures LoadPart(d, prefabs).value.layer == PartsLayer
    ensures SavePart(LoadPart(d, prefabs).value) == d
    decreases d, 1
  {
    LoadedPart(d, prefabs);
    var pf := prefabs(d.prefabName).value;
    var part := pf.(local := Pose(d.position, d.rotation));
    var t := LoadPart(d, prefabs).value;
    assert StripClone(d.prefabName) == d.prefabName by {
      StripCloneFixed(d.prefabName);
    }
    if d.isMotorHub {
      var h := FindChild(part.children, MotorHubName).value;
      var hub := part.children[h];
      var loaded := LoadParts(d.childParts, prefabs);
      var hub' := hub.(children := hub.children + loaded);
      assert t == part.(children := part.children[h := hub']);
      FindChildAfterUpdate(part.children, h, hub', MotorHubName);
      PartsRoundTrip(d.childParts, prefabs);
      SaveHubChildrenAllParts(loaded);
      SaveHubChildrenAppend(hub.children, loaded);
      assert SaveHubChildren(hub'.children) == d.childParts;
    } else {
      assert t == part;
    }
  }

  /** Loading a sequence of restorable parts keeps every one, each of the
      Parts layer, and saving them gives the records back. */
  lemma {:induction false} PartsRoundTrip(ds: seq<PartData>, prefabs: string -> Option<Tree>)
    requires NamedByKey(prefabs) && forall c | c in ds :: Restorable(c, prefabs)
    ensures AllParts(LoadParts(ds, prefabs))
    ensures SaveParts(LoadParts(ds, prefabs)) == ds
    decreases ds, 0
  {
    if |ds| > 0 {
      var d, tail := ds[0], ds[1..];
      assert ds == [d] + tail;
      PartRoundTrip(d, prefabs);
      assert forall c | c in tail :: c in ds;
      PartsRoundTrip(tail, prefabs);
      LoadPartsCons(d, tail, prefabs);
      ConsParts(LoadPart(d, prefabs).value, LoadParts(tail, prefabs));
    }
  }

  /** A record that loads is followed by the loads of its siblings. */
  lemma LoadPartsCons(d: PartData, ds: seq<PartData>, prefabs: string -> Option<Tree>)
    requires LoadPart(d, prefabs).Some?
    ensures LoadParts([d] + ds, prefabs) == [LoadPart(d, prefabs).value] + LoadParts(ds, prefabs)
  {
    assert ([d] + ds)[1..] == ds;
  }

  /** Saving a part in front of others. */
  lemma ConsParts(t: Tree, rest: seq<Tree>)
    requires t.layer == PartsLayer && AllParts(rest)
    ensures AllParts([t] + rest)
    ensures SaveParts([t] + rest) == [SavePart(t)] + SaveParts(rest)
  {
    assert ([t] + rest)[1..] == rest;
  }

  /** Loading a save whose groups have clean names and whose parts are all
      restorable, then saving again, gives the same save. */
  lemma RobotRoundTrip(root: Tree, data: RobotData, prefabs: string -> Option<Tree>)
    requires NamedByKey(prefabs)
    requires forall g | g in data.groups :: Clean(g.groupName)
    requires forall g, p | g in data.groups && p in g.parts :: Restorable(p, prefabs)
    ensures SaveRobot(LoadRobot(root, Parsed(Some(data)), prefabs)) == Some(data)
  {
    var r := LoadRobot(root, Parsed(Some(data)), prefabs);
    assert FindChild(r.children, RobotName) == Some(0);
    var groups := r.children[0].children;
    var saved := SaveRobot(r).value;
    assert |saved.groups| == |data.groups|;
    forall i | 0 <= i < |data.groups|
      ensures saved.groups[i] == data.groups[i]
    {
      var g := data.groups[i];
      assert g in data.groups;
      StripCloneFixed(g.groupName);
      PartsRoundTrip(g.parts, prefabs);
      assert groups[i] == LoadGroup(g, prefabs);
      assert saved.groups[i] == SaveGroup(groups[i]);
    }
    assert saved.groups == data.groups;
  }

  /** A text that parses to null leaves an empty Robot, which saves as a
      robot with no groups. */
  lemma NullTextEmptiesRobot(root: Tree, prefabs: string -> Option<Tree>)
    ensures SaveRobot(LoadRobot(root, Parsed(None), prefabs)) == Some(RobotData([]))
  {
    var r := LoadRobot(root, Parsed(None), prefabs);
    assert FindChild(r.children, RobotName) == Some(0);
  }

  /** A skipped record does not stop its siblings from loading: the loaded
      list is the loaded parts of each half in turn. */
  lemma {:induction false} LoadPartsAppend(a: seq<PartData>, b: seq<PartData>, prefabs: string -> Option<Tree>)
    ensures LoadParts(a + b, prefabs) == LoadParts(a, prefabs) + LoadParts(b, prefabs)
    decreases a
  {
    if |a| == 0 {
      assert a + b == b;
    } else {
      assert (a + b)[1..] == a[1..] + b;
      LoadPartsAppend(a[1..], b, prefabs);
    }
  }

  /** A record that cannot be loaded contributes nothing and its siblings
      still load. */
  lemma SkippedPartVanishes(a: seq<PartData>, d: PartData, b: seq<PartData>, prefabs: string -> Option<Tree>)
    requires d.prefabName == [] || prefabs(d.prefabName).None?
    ensures LoadParts(a + [d] + b, prefabs) == LoadParts(a, prefabs) + LoadParts(b, prefabs)
  {
    var ad := a + [d];
    LoadPartsAppend(ad, b, prefabs);
    LoadPartsAppend(a, [d], prefabs);
    var one := LoadParts([d], prefabs);
    assert one == [] by {
      assert [d][1..] == [];
    }
    var la := LoadParts(a, prefabs);
    assert LoadParts(ad, prefabs) == la + one;
    assert la + one == la;
  }
}
