/** The older connection controller. It has the same three selection states
    as the newer one, but a connector's part root is simply its parent, the
    group is the part root's parent, there is no group check, no panel and
    no gizmo. The arrow keys turn the part holding the hole, F flips the hole
    connector end over end, and cancel restores only the moving part. */
module OldHoleFsm {
  import opened Wrappers
  import opened Geometry
  import opened Hierarchy
  import opened Connectors
  import opened Merge
  import opened MoveRules
  import opened Poses
  import HoleFsm

  /** The controller's fields that the connection logic reads and writes.
      `saved` is the moving part's pose when the preview started. */
  datatype Controller = Controller(
    scene: Scene,
    poses: PoseStore,
    mode: HoleFsm.Mode,
    lock: Axis,
    state: HoleFsm.HoleState,
    first: Option<Id>,
    second: Option<Id>,
    movingRoot: Option<Id>,
    saved: Pose)

  /** One frame's input: a click and what it hit on the connector layer, and
      the keys that went down. */
  datatype Keys = Keys(
    select: bool,
    hit: Option<Id>,
    escape: bool,
    enter: bool,
    keypadEnter: bool,
    up: bool,
    down: bool,
    left: bool,
    right: bool,
    flip: bool)

  /** A missing parent dereferenced, or a merge that would put a group inside
      itself. */
  datatype Fault = NullReference | MergeRefused

  predicate Inv(c: Controller)
  {
    && Wf(c.scene)
    && HoleFsm.Holds(c.scene, c.first) && HoleFsm.Holds(c.scene, c.second)
    && HoleFsm.Holds(c.scene, c.movingRoot)
    && (c.state != HoleFsm.PreviewAdjust ==> c.second.None? && c.movingRoot.None?)
    && (c.state == HoleFsm.SelectingFirst ==> c.first.None?)
    && (c.state == HoleFsm.SelectingSecond ==> c.first.Some?)
    && (c.state == HoleFsm.PreviewAdjust ==> c.first.Some? && c.second.Some? && c.movingRoot.Some?)
  }

  function Tag(s: Scene, id: Id): string
    requires id in s.nodes
  {
    s.nodes[id].tag
  }

  /** `ClearAllHoleState`: forget both choices and the moving part. */
  function ClearAllHoleState(c: Controller): (r: Controller)
    ensures r.state == HoleFsm.SelectingFirst && r.first.None? && r.second.None? && r.movingRoot.None?
    ensures r == c.(state := r.state, first := None, second := None, movingRoot := None)
  {
    c.(first := None, second := None, movingRoot := None, state := HoleFsm.SelectingFirst)
  }

  /** `MoveMode`: unlock and leave the connection session; no pose is restored. */
  function MoveMode(c: Controller): (r: Controller)
    requires Inv(c)
    ensures Inv(r) && r.mode == HoleFsm.Move && r.lock == Free && r.state == HoleFsm.SelectingFirst
    ensures r.poses == c.poses && r.scene == c.scene
  {
    ClearAllHoleState(c.(mode := HoleFsm.Move, lock := Free))
  }

  /** `HolesMode`: selection starts over; no pose is restored. */
  function HolesMode(c: Controller): (r: Controller)
    requires Inv(c)
    ensures Inv(r) && r.mode == HoleFsm.Holes && r.state == HoleFsm.SelectingFirst && r.lock == c.lock
    ensures r.poses == c.poses && r.scene == c.scene
  {
    ClearAllHoleState(c.(mode := HoleFsm.Holes))
  }

  /** `GetPartRoot`: the connector's parent, whatever it is. */
  function PartRootOf(s: Scene, h: Id): (r: Option<Id>)
    requires Wf(s) && h in s.nodes
    ensures r.Some? ==> r.value in s.nodes && h in s.nodes[r.value].children
    ensures r.None? <==> s.nodes[h].parent.None?
  {
    ParentOf(s, h)
  }

  /** `PreviewSnap`: when no part is moving yet, take the first connector's
      parent as the moving part and remember its pose; then align it. */
  function PreviewSnap(c: Controller, m: Motion, a: Id, b: Id): (r: Result<Controller, Fault>)
    requires Wf(c.scene) && a in c.scene.nodes && b in c.scene.nodes && c.movingRoot.None?
    ensures r.Failure? <==> c.scene.nodes[a].parent.None?
    ensures r.Success? ==>
      var root := c.scene.nodes[a].parent.value;
      && r.value == c.(movingRoot := Some(root), saved := PoseOf(c.poses, root), poses := r.value.poses)
      && PoseOf(r.value.poses, root) == m.align(c.poses, root, a, b)
      && forall id | id != root :: PoseOf(r.value.poses, id) == PoseOf(c.poses, id)
  {
    match PartRootOf(c.scene, a)
    case None => Failure(NullReference)
    case Some(root) =>
      Success(c.(movingRoot := Some(root), saved := PoseOf(c.poses, root),
                 poses := Snap(c.poses, m, root, a, b)))
  }

  /** The second click landed on `h`, a connector other than the first: a
      complementary tag starts the preview, any other makes `h` the new first
      choice. Nothing looks at the groups. */
  function SecondHit(c: Controller, m: Motion, h: Id): (r: Result<Controller, Fault>)
    requires Inv(c) && c.state == HoleFsm.SelectingSecond && h in c.scene.nodes && c.first != Some(h)
    ensures r.Success? ==> Inv(r.value) && r.value.scene == c.scene
    ensures !AreComplementary(Tag(c.scene, c.first.value), Tag(c.scene, h)) ==> r == Success(c.(first := Some(h)))
    ensures AreComplementary(Tag(c.scene, c.first.value), Tag(c.scene, h)) ==>
      && (r.Failure? <==> c.scene.nodes[c.first.value].parent.None?)
      && (r.Success? ==> r.value.state == HoleFsm.PreviewAdjust && r.value.second == Some(h)
                         && r.value.first == c.first)
  {
    var f := c.first.value;
    if AreComplementary(Tag(c.scene, f), Tag(c.scene, h)) then
      match PreviewSnap(c.(second := Some(h)), m, f, h)
      case Failure(e) => Failure(e)
      case Success(c1) => Success(c1.(state := HoleFsm.PreviewAdjust))
    else Success(c.(first := Some(h)))
  }

  /** The arrow keys turn `hr` by 90 degrees each: up and down about its right
      axis, left and right about its forward axis, in that order. */
  function TurnKeys(p: PoseStore, m: Motion, hr: Id, k: Keys): (r: PoseStore)
    ensures forall id | id != hr :: PoseOf(r, id) == PoseOf(p, id)
    ensures !k.up && !k.down && !k.left && !k.right ==> r == p
    ensures k.up && !k.down && !k.left && !k.right ==>
      PoseOf(r, hr) == m.turn(PoseOf(p, hr), Right, 90.0)
  {
    var p1 := if k.up then SetPose(p, hr, m.turn(PoseOf(p, hr), Right, 90.0)) else p;
    var p2 := if k.down then SetPose(p1, hr, m.turn(PoseOf(p1, hr), Right, -90.0)) else p1;
    var p3 := if k.left then SetPose(p2, hr, m.turn(PoseOf(p2, hr), Forward, 90.0)) else p2;
    if k.right then SetPose(p3, hr, m.turn(PoseOf(p3, hr), Forward, -90.0)) else p3
  }

  /** The part the arrow keys turn: the parent of whichever chosen connector
      is a hole, the first one preferred. */
  function HoleRoot(c: Controller): (r: Option<Id>)
    requires Inv(c) && c.state == HoleFsm.PreviewAdjust
    ensures r.Some? ==> r.value in c.scene.nodes
  {
    var f := c.first.value;
    var sc := c.second.value;
    if IsHole(Tag(c.scene, f)) then PartRootOf(c.scene, f)
    else if IsHole(Tag(c.scene, sc)) then PartRootOf(c.scene, sc)
    else None
  }

  /** The connector F flips: whichever chosen connector is a hole, the first
      one preferred. */
  function FlipTarget(c: Controller): (r: Option<Id>)
    requires Inv(c) && c.state == HoleFsm.PreviewAdjust
    ensures r.Some? ==> (r == c.first || r == c.second) && IsHole(Tag(c.scene, r.value))
  {
    var f := c.first.value;
    var sc := c.second.value;
    if IsHole(Tag(c.scene, f)) then Some(f)
    else if IsHole(Tag(c.scene, sc)) then Some(sc)
    else None
  }

  /** `HandlePreviewRotationKeys`: arrow keys turn the hole's part with no
      re-alignment; F turns the hole connector half a turn about its right
      axis and re-aligns the moving part. */
  function RotationKeys(c: Controller, m: Motion, k: Keys): (r: Controller)
    requires Inv(c) && c.state == HoleFsm.PreviewAdjust
    ensures r == c.(poses := r.poses)
    ensures !k.up && !k.down && !k.left && !k.right && !k.flip ==> r == c
  {
    var p1 := match HoleRoot(c)
      case None => c.poses
      case Some(hr) => TurnKeys(c.poses, m, hr, k);
    if k.flip then
      match FlipTarget(c)
      case None => c.(poses := p1)
      case Some(ph) =>
        var p2 := SetPose(p1, ph, m.turn(PoseOf(p1, ph), Right, 180.0));
        c.(poses := Snap(p2, m, c.movingRoot.value, c.first.value, c.second.value))
    else c.(poses := p1)
  }

  /** `CancelPreview(true)`: put the moving part back; nothing else. */
  function CancelPreview(c: Controller): (r: Controller)
    requires Inv(c) && c.state == HoleFsm.PreviewAdjust
    ensures r == c.(poses := r.poses, movingRoot := None)
    ensures PoseOf(r.poses, c.movingRoot.value) == c.saved
    ensures forall id | id != c.movingRoot.value :: PoseOf(r.poses, id) == PoseOf(c.poses, id)
  {
    c.(poses := SetPose(c.poses, c.movingRoot.value, c.saved), movingRoot := None)
  }

  /** `MergeGroup` of the older controller: the groups are the two parts'
      parents; one group already is a no-op; a missing parent on one side is
      dereferenced; otherwise the larger group (the mover's on a tie) takes
      in the other's parts and is re-anchored. */
  function MergeGroup(s: Scene, mover: Id, root: Id): (r: Result<Scene, Fault>)
    requires Wf(s) && mover in s.nodes && root in s.nodes
    ensures s.nodes[mover].parent == s.nodes[root].parent ==> r == Success(s)
    ensures r == Failure(NullReference) <==>
      s.nodes[mover].parent != s.nodes[root].parent
      && (s.nodes[mover].parent.None? || s.nodes[root].parent.None?)
    ensures r.Success? ==> Wf(r.value)
  {
    var ga := ParentOf(s, mover);
    var gb := ParentOf(s, root);
    if ga == gb then Success(s)
    else if ga.None? || gb.None? then Failure(NullReference)
    else
      var td := PickTarget(s, ga.value, gb.value, false, false);
      match StandardMerge(s, td.0, td.1)
      case Failure(_) => Failure(MergeRefused)
      case Success(r) => Success(r)
  }

  /** `CommitSnap`: align once more, then merge the moving part's group with
      the group of the second connector's parent, then start over. */
  function CommitSnap(c: Controller, m: Motion): (r: Result<Controller, Fault>)
    requires Inv(c) && c.state == HoleFsm.PreviewAdjust
    ensures r.Success? ==> Inv(r.value) && r.value.state == HoleFsm.SelectingFirst
    ensures r.Success? ==>
      var target := PartRootOf(c.scene, c.second.value);
      target.Some? && MergeGroup(c.scene, c.movingRoot.value, target.value) == Success(r.value.scene)
  {
    var c1 := c.(poses := Snap(c.poses, m, c.movingRoot.value, c.first.value, c.second.value));
    match PartRootOf(c.scene, c.second.value)
    case None => Failure(NullReference)
    case Some(target) =>
      match MergeGroup(c.scene, c.movingRoot.value, target)
      case Failure(e) => Failure(e)
      case Success(s) => Success(ClearAllHoleState(c1.(scene := s)))
  }

  /** `HandleHoleFSM`, one frame. Cancel is only Escape and is checked before
      any key of the frame acts. */
  function HandleHoleFsm(c: Controller, m: Motion, k: Keys): (r: Result<Controller, Fault>)
    requires Inv(c) && HoleFsm.Holds(c.scene, k.hit)
    ensures r.Success? ==> Inv(r.value)
  {
    match c.state
    case SelectingFirst =>
      if k.escape then Success(ClearAllHoleState(c))
      else if k.select && k.hit.Some? then Success(c.(first := k.hit, state := HoleFsm.SelectingSecond))
      else Success(c)
    case SelectingSecond =>
      if k.escape then Success(ClearAllHoleState(c))
      else if !k.select || k.hit.None? || k.hit == c.first then Success(c)
      else SecondHit(c, m, k.hit.value)
    case PreviewAdjust =>
      if k.escape then Success(ClearAllHoleState(CancelPreview(c)))
      else
        var c1 := RotationKeys(c, m, k);
        if k.enter || k.keypadEnter then CommitSnap(c1, m) else Success(c1)
  }

  /** A frame in connector mode; a hit on a node no longer in the scene counts
      as no hit. */
  function Step(c: Controller, m: Motion, k: Keys): (r: Result<Controller, Fault>)
    requires Inv(c)
    ensures r.Success? ==> Inv(r.value)
  {
    HandleHoleFsm(c, m, if HoleFsm.Holds(c.scene, k.hit) then k else k.(hit := None))
  }

  /** With no hub involved and parents that are the group roots, the older
      merge does what the newer one does. */
  lemma MergeMatchesNewer(s: Scene, mover: Id, root: Id)
    requires Wf(s) && mover in s.nodes && root in s.nodes
    requires s.nodes[mover].parent == Some(GroupRoot(s, mover))
    requires s.nodes[root].parent == Some(GroupRoot(s, root))
    requires RotatingHub(s, mover).None? && RotatingHub(s, root).None?
    requires !GroupHasHub(s, GroupRoot(s, mover)) && !GroupHasHub(s, GroupRoot(s, root))
    ensures MergeGroup(s, mover, root).Success? <==> Merge.MergeGroup(s, mover, root).Success?
    ensures MergeGroup(s, mover, root).Success? ==>
      MergeGroup(s, mover, root).value == Merge.MergeGroup(s, mover, root).value
  {
    var ga := GroupRoot(s, mover);
    var gb := GroupRoot(s, root);
    assert ParentOf(s, mover) == Some(ga) && ParentOf(s, root) == Some(gb);
    assert ChooseTarget(s, ga, gb) == PickTarget(s, ga, gb, false, false);
  }

  /** Two complementary connectors of one group still start a preview: the
      older controller has no group check, where the newer one would take the
      click as a new first choice. */
  lemma SameGroupStillPreviews(c: Controller, m: Motion, k: Keys, h: Id)
    requires Inv(c) && c.state == HoleFsm.SelectingSecond && !k.escape
    requires k.select && k.hit == Some(h) && h in c.scene.nodes && c.first != Some(h)
    requires AreComplementary(Tag(c.scene, c.first.value), Tag(c.scene, h))
    requires c.scene.nodes[c.first.value].parent.Some?
    requires GroupRoot(c.scene, c.first.value) == GroupRoot(c.scene, h)
    ensures Step(c, m, k).Success? && Step(c, m, k).value.state == HoleFsm.PreviewAdjust
    ensures !HoleFsm.Joinable(c.scene, c.first.value, h)
  {
  }

  /** Escape during a preview puts the moving part back where it started and
      leaves every other pose as it is. */
  lemma CancelRestoresMover(c: Controller, m: Motion, k: Keys)
    requires Inv(c) && c.state == HoleFsm.PreviewAdjust && k.escape
    ensures Step(c, m, k).Success?
    ensures var r := Step(c, m, k).value;
      && PoseOf(r.poses, c.movingRoot.value) == c.saved
      && (forall id | id != c.movingRoot.value :: PoseOf(r.poses, id) == PoseOf(c.poses, id))
      && r.state == HoleFsm.SelectingFirst && r.scene == c.scene
  {
  }

  /** When the hole is on the stationary part, an up arrow turns that part
      and a later Escape does not turn it back. */
  lemma CancelKeepsTurnedHolePart(c: Controller, m: Motion, k: Keys, esc: Keys)
    requires Inv(c) && c.state == HoleFsm.PreviewAdjust
    requires !k.escape && !k.enter && !k.keypadEnter && !k.flip
    requires k.up && !k.down && !k.left && !k.right
    requires esc.escape
    requires HoleRoot(c).Some? && HoleRoot(c).value != c.movingRoot.value
    ensures Step(c, m, k).Success?
    ensures var c1 := Step(c, m, k).value;
      && Step(c1, m, esc).Success?
      && PoseOf(Step(c1, m, esc).value.poses, HoleRoot(c).value)
         == m.turn(PoseOf(c.poses, HoleRoot(c).value), Right, 90.0)
  {
    var hr := HoleRoot(c).value;
    var c1 := Step(c, m, k).value;
    assert c1 == RotationKeys(c, m, k);
    assert PoseOf(c1.poses, hr) == m.turn(PoseOf(c.poses, hr), Right, 90.0);
    CancelRestoresMover(c1, m, esc);
  }

  /** F turns the hole connector itself; when that connector is not the
      moving part, Escape leaves it turned. */
  lemma CancelKeepsFlippedHole(c: Controller, m: Motion, k: Keys, esc: Keys)
    requires Inv(c) && c.state == HoleFsm.PreviewAdjust
    requires !k.escape && !k.enter && !k.keypadEnter && k.flip
    requires !k.up && !k.down && !k.left && !k.right
    requires esc.escape
    requires FlipTarget(c).Some? && FlipTarget(c).value != c.movingRoot.value
    ensures Step(c, m, k).Success?
    ensures var c1 := Step(c, m, k).value;
      && Step(c1, m, esc).Success?
      && PoseOf(Step(c1, m, esc).value.poses, FlipTarget(c).value)
         == m.turn(PoseOf(c.poses, FlipTarget(c).value), Right, 180.0)
  {
    var ph := FlipTarget(c).value;
    var c1 := Step(c, m, k).value;
    assert c1 == RotationKeys(c, m, k);
    assert PoseOf(c1.poses, ph) == m.turn(PoseOf(c.poses, ph), Right, 180.0);
    CancelRestoresMover(c1, m, esc);
  }

  /** Return or keypad Enter during a preview merges the groups of the two
      parts and starts selection over. */
  lemma ConfirmMerges(c: Controller, m: Motion, k: Keys)
    requires Inv(c) && c.state == HoleFsm.PreviewAdjust && !k.escape && (k.enter || k.keypadEnter)
    ensures Step(c, m, k).Success? ==>
      var r := Step(c, m, k).value;
      var target := PartRootOf(c.scene, c.second.value);
      && target.Some? && MergeGroup(c.scene, c.movingRoot.value, target.value) == Success(r.scene)
      && r.state == HoleFsm.SelectingFirst
  {
    var c1 := RotationKeys(c, m, k);
    assert Step(c, m, k) == CommitSnap(c1, m);
  }
}
