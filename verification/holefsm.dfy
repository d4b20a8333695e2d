/** The newer connection controller: choosing a connector on the moving part,
    choosing a complementary connector on another group, previewing the joint
    with adjustable hole pose, then merging the groups on confirm or restoring
    the snapshot on cancel. */
module HoleFsm {
  import opened Wrappers
  import opened Geometry
  import opened Text
  import opened Hierarchy
  import opened Connectors
  import opened Merge
  import opened Gizmo
  import opened ActionUi
  import opened MoveRules
  import opened Poses
  import MotorLabels

  datatype Mode = Move | Holes

  datatype HoleState = SelectingFirst | SelectingSecond | PreviewAdjust

  /** The controller's state together with the scene, the pose store and the
      three companion managers it drives. `first`/`second` are the two chosen
      connectors, `hole` the connector the preview turns and slides, and
      `movingRoot` the part root whose group is being placed; the two saved
      poses are the snapshot taken when the preview starts. `variant` says
      whether the hub swap and the merge run as written or corrected. */
  datatype Builder = Builder(
    variant: Variant,
    scene: Scene,
    poses: PoseStore,
    mode: Mode,
    lock: Axis,
    state: HoleState,
    first: Option<Id>,
    second: Option<Id>,
    hole: Option<Id>,
    movingRoot: Option<Id>,
    savedGroup: Pose,
    savedHole: Pose,
    panel: Panel,
    gizmo: Manager,
    labels: MotorLabels.Dialog)

  /** One frame's input: a click and what it hit on the connector layer, the
      keys that went down, clicks on the confirm/cancel panel and on a gizmo
      handle. */
  datatype Frame = Frame(
    select: bool,
    hit: Option<Id>,
    escape: bool,
    enter: bool,
    keypadEnter: bool,
    up: bool,
    down: bool,
    left: bool,
    right: bool,
    confirmClicked: bool,
    cancelClicked: bool,
    handle: Option<Handle>)

  /** Where the source dereferences a missing object: a connector with no part
      root on the "Parts" layer above it, or a merge that would put a group
      inside itself. */
  datatype Fault = NullPartRoot | MergeRefused

  const AxleMarker := "Axle"

  predicate Holds(s: Scene, o: Option<Id>) { o.Some? ==> o.value in s.nodes }

  /** What every reachable state satisfies. */
  predicate Inv(b: Builder)
  {
    && Wf(b.scene)
    && Holds(b.scene, b.first) && Holds(b.scene, b.second) && Holds(b.scene, b.movingRoot)
    && (b.state != PreviewAdjust ==> b.gizmo.handles == [] && b.second.None? && b.movingRoot.None?)
    && (b.state == SelectingFirst ==> b.first.None?)
    && (b.state == SelectingSecond ==> b.first.Some?)
    && (b.state == PreviewAdjust ==>
          b.first.Some? && b.second.Some? && b.movingRoot.Some? && b.hole.Some? && Holds(b.scene, b.hole))
  }

  /** The state at start-up: move mode, no lock, nothing chosen, panel hidden. */
  function Start(v: Variant, s: Scene, p: PoseStore): (b: Builder)
    requires Wf(s)
    ensures Inv(b) && b.variant == v && b.state == SelectingFirst && !b.panel.visible
    ensures b.mode == Move && b.lock == Free && b.first.None? && b.gizmo.handles == []
  {
    Builder(v, s, p, Move, Free, SelectingFirst, None, None, None, None, Rest, Rest,
            Awake(Panel(true, false, false)), Initial, MotorLabels.Start())
  }

  function Tag(s: Scene, id: Id): string
    requires id in s.nodes
  {
    s.nodes[id].tag
  }

  /** `ClearAllHoleState`: handles go, both choices and the moving root are
      forgotten and selection starts over. The `hole` reference and the
      snapshot are kept. */
  function ClearAllHoleState(b: Builder): (r: Builder)
    ensures r.state == SelectingFirst && r.first.None? && r.second.None? && r.movingRoot.None?
    ensures r.gizmo.handles == [] && r.gizmo.hole == b.gizmo.hole
    ensures r.scene == b.scene && r.poses == b.poses && r.panel == b.panel && r.hole == b.hole
    ensures r.mode == b.mode && r.lock == b.lock && r.labels == b.labels && r.variant == b.variant
    ensures r.savedGroup == b.savedGroup && r.savedHole == b.savedHole
    ensures Wf(b.scene) ==> Inv(r)
  {
    b.(gizmo := ClearHandles(b.gizmo), first := None, second := None,
       movingRoot := None, state := SelectingFirst)
  }

  /** `MoveMode`: unlock, leave the connection session without restoring any
      preview pose, and leave motor-letter assign mode, which closes its
      dialog. */
  function MoveMode(b: Builder): (r: Builder)
    requires Inv(b)
    ensures Inv(r) && r.mode == Move && r.lock == Free && r.state == SelectingFirst
    ensures r.poses == b.poses && r.scene == b.scene
    ensures !r.labels.assignMode && r.labels.taken == b.labels.taken
    ensures b.labels.assignMode ==> !r.labels.modalOpen && r.labels.target.None?
  {
    ClearAllHoleState(b.(mode := Move, lock := Free, labels := MotorLabels.SetAssignMode(b.labels, false)))
  }

  /** `HolesMode`: selection starts over, again without restoring poses, and
      assign mode is left as in `MoveMode`. */
  function HolesMode(b: Builder): (r: Builder)
    requires Inv(b)
    ensures Inv(r) && r.mode == Holes && r.state == SelectingFirst && r.lock == b.lock
    ensures r.poses == b.poses && r.scene == b.scene
    ensures !r.labels.assignMode && r.labels.taken == b.labels.taken
    ensures b.labels.assignMode ==> !r.labels.modalOpen && r.labels.target.None?
  {
    ClearAllHoleState(b.(mode := Holes, state := SelectingFirst, labels := MotorLabels.SetAssignMode(b.labels, false)))
  }

  /** `IsCancelPressed`: Escape, or else a pending panel cancel, which is then
      consumed. The panel is not polled when Escape is down. */
  function CancelPressed(b: Builder, f: Frame): (r: (bool, Builder))
    ensures r.1 == b.(panel := r.1.panel)
    ensures r.0 <==> f.escape || b.panel.cancelRequested
    ensures r.1.panel == if f.escape then b.panel else ConsumeCancel(b.panel).1
  {
    if f.escape then (true, b)
    else
      var (c, p) := ConsumeCancel(b.panel);
      (c, b.(panel := p))
  }

  /** `IsConfirmPressed`: Return or keypad Enter, or else a pending panel
      confirm, which is then consumed. */
  function ConfirmPressed(b: Builder, f: Frame): (r: (bool, Builder))
    ensures r.1 == b.(panel := r.1.panel)
    ensures r.0 <==> f.enter || f.keypadEnter || b.panel.confirmRequested
    ensures r.1.panel == if f.enter || f.keypadEnter then b.panel else ConsumeConfirm(b.panel).1
  {
    if f.enter || f.keypadEnter then (true, b)
    else
      var (c, p) := ConsumeConfirm(b.panel);
      (c, b.(panel := p))
  }

  /** Re-align the moving group so the first connector meets the second. */
  function SnapGroup(b: Builder, m: Motion): (r: Builder)
    requires Inv(b) && b.state == PreviewAdjust
    ensures r == b.(poses := r.poses)
    ensures var g := GroupRoot(b.scene, b.movingRoot.value);
      forall id | id != g :: PoseOf(r.poses, id) == PoseOf(b.poses, id)
  {
    var g := GroupRoot(b.scene, b.movingRoot.value);
    b.(poses := Snap(b.poses, m, g, b.first.value, b.second.value))
  }

  /** `MoveHoleAlongAxis`: slide the hole, then re-align the moving group. */
  function MoveHoleAlongAxis(b: Builder, m: Motion, direction: int): (r: Builder)
    requires Inv(b) && b.state == PreviewAdjust
    ensures r == b.(poses := r.poses)
    ensures var g := GroupRoot(b.scene, b.movingRoot.value);
      forall id | id != g && id != b.hole.value :: PoseOf(r.poses, id) == PoseOf(b.poses, id)
  {
    var h := b.hole.value;
    SnapGroup(b.(poses := SetPose(b.poses, h, m.slide(PoseOf(b.poses, h), direction))), m)
  }

  /** `RotateHoleAroundAxis("up", angle)`: turn the hole about its up axis,
      then re-align the moving group. */
  function RotateHoleAroundAxis(b: Builder, m: Motion, angle: real): (r: Builder)
    requires Inv(b) && b.state == PreviewAdjust
    ensures r == b.(poses := r.poses)
    ensures var g := GroupRoot(b.scene, b.movingRoot.value);
      forall id | id != g && id != b.hole.value :: PoseOf(r.poses, id) == PoseOf(b.poses, id)
  {
    var h := b.hole.value;
    SnapGroup(b.(poses := SetPose(b.poses, h, m.turn(PoseOf(b.poses, h), Up, angle))), m)
  }

  /** Carry out what a gizmo handle asks for. */
  function ApplyRequest(b: Builder, m: Motion, q: Request): (r: Builder)
    requires Inv(b) && b.state == PreviewAdjust
    ensures r == b.(poses := r.poses)
    ensures var g := GroupRoot(b.scene, b.movingRoot.value);
      forall id | id != g && id != b.hole.value :: PoseOf(r.poses, id) == PoseOf(b.poses, id)
  {
    match q
    case Rotate(d) => RotateHoleAroundAxis(b, m, d)
    case Slide(n) => MoveHoleAlongAxis(b, m, n)
  }

  /** `HandlePreviewRotationKeys`: for an axle hole the up and down arrows
      slide it one step, and the left and right arrows turn it by 45 and -45
      degrees, in that order. */
  function RotationKeys(b: Builder, m: Motion, f: Frame): (r: Builder)
    requires Inv(b) && b.state == PreviewAdjust
    ensures r == b.(poses := r.poses)
    ensures var g := GroupRoot(b.scene, b.movingRoot.value);
      forall id | id != g && id != b.hole.value :: PoseOf(r.poses, id) == PoseOf(b.poses, id)
    ensures !f.up && !f.down && !f.left && !f.right ==> r == b
  {
    var h := b.hole.value;
    var axle := Contains(Tag(b.scene, h), AxleMarker) || Contains(b.scene.nodes[h].name, AxleMarker);
    var b1 := if axle && f.up then MoveHoleAlongAxis(b, m, 1) else b;
    var b2 := if axle && f.down then MoveHoleAlongAxis(b1, m, -1) else b1;
    var b3 := if f.left then RotateHoleAroundAxis(b2, m, 45.0) else b2;
    if f.right then RotateHoleAroundAxis(b3, m, -45.0) else b3
  }

  /** `CancelPreview(true)`: put the moving group and the hole back where the
      snapshot found them and forget the moving root. */
  function CancelPreview(b: Builder): (r: Builder)
    requires Inv(b) && b.state == PreviewAdjust
    ensures r == b.(poses := r.poses, movingRoot := None)
    ensures var g := GroupRoot(b.scene, b.movingRoot.value);
      && PoseOf(r.poses, b.hole.value) == b.savedHole
      && (g != b.hole.value ==> PoseOf(r.poses, g) == b.savedGroup)
      && forall id | id != g && id != b.hole.value :: PoseOf(r.poses, id) == PoseOf(b.poses, id)
  {
    var g := GroupRoot(b.scene, b.movingRoot.value);
    b.(poses := SetPose(SetPose(b.poses, g, b.savedGroup), b.hole.value, b.savedHole),
       movingRoot := None)
  }

  /** The hub swap as corrected: when the first connector's group holds the
      control hub the two connectors change places, so the hub side stays put. */
  function HubSwap(s: Scene, first: Id, second: Id): (r: (Id, Id))
    requires Wf(s) && first in s.nodes && second in s.nodes
    ensures r == (first, second) || r == (second, first)
    ensures HasControlHub(s, first) ==> HasControlHub(s, r.1)
  {
    if HasControlHub(s, first) then (second, first) else (first, second)
  }

  /** The hub swap as written: the new first connector is the raw hit, which
      skips the axle redirection already applied to the second. */
  function HubSwapAsWritten(s: Scene, first: Id, second: Id, hit: Id): (r: (Id, Id))
    requires Wf(s) && first in s.nodes && second in s.nodes
    ensures !HasControlHub(s, first) ==> r == (first, second)
    ensures HasControlHub(s, first) ==> r == (hit, first)
  {
    if HasControlHub(s, first) then (hit, first) else (first, second)
  }

  /** For an axle whose hit connector has an "AxlePos" child, the swap as
      written makes the raw hit the moving connector instead of its "AxlePos"
      child; without the redirection the two agree. */
  lemma HubSwapSkipsRedirect(s: Scene, first: Id, hit: Id)
    requires Wf(s) && first in s.nodes && hit in s.nodes
    requires HasControlHub(s, first)
    ensures HubSwapAsWritten(s, first, hit, hit) == HubSwap(s, first, hit)
    ensures (exists c | c in s.nodes[hit].children && c in s.nodes :: Contains(s.nodes[c].name, AxlePosMarker)) ==>
      var redirected := AxlePos(s, hit);
      && HubSwapAsWritten(s, first, redirected, hit).0 == hit
      && HubSwap(s, first, redirected).0 == redirected
      && redirected != hit
  {
  }

  /** The hub swap the variant uses; `hit` is the raw second click. */
  function Swapped(v: Variant, s: Scene, first: Id, second: Id, hit: Id): (r: (Id, Id))
    requires Wf(s) && first in s.nodes && second in s.nodes && hit in s.nodes
    ensures v.Corrected? ==> r == HubSwap(s, first, second)
    ensures v.AsWritten? ==> r == HubSwapAsWritten(s, first, second, hit)
    ensures r.0 in s.nodes && r.1 in s.nodes
  {
    if v.AsWritten? then HubSwapAsWritten(s, first, second, hit) else HubSwap(s, first, second)
  }

  /** The merge the variant uses. */
  function Merged(v: Variant, s: Scene, mover: Id, root: Id): (r: Result<Scene, MergeError>)
    requires Wf(s) && mover in s.nodes && root in s.nodes
    ensures v.Corrected? ==> r == MergeGroup(s, mover, root)
    ensures v.AsWritten? ==> r == MergeGroupAsWritten(s, mover, root)
    ensures r.Success? ==> Wf(r.value)
  {
    if v.AsWritten? then MergeGroupAsWritten(s, mover, root) else MergeGroup(s, mover, root)
  }

  /** `PreviewSnap`: when no preview is live, record the moving part root and
      snapshot its group's pose and the hole's pose; then align. A connector
      with no part root above it is a fault. */
  function PreviewSnap(b: Builder, m: Motion, a: Id, c: Id): (r: Result<Builder, Fault>)
    requires Wf(b.scene) && a in b.scene.nodes && c in b.scene.nodes && b.hole.Some?
    requires Holds(b.scene, b.movingRoot)
    ensures r.Failure? <==> b.movingRoot.None? && PartRoot(b.scene, a).None?
    ensures r.Success? && b.movingRoot.None? ==>
      var root := PartRoot(b.scene, a).value;
      var g := GroupRoot(b.scene, root);
      && r.value.movingRoot == Some(root)
      && r.value.savedGroup == PoseOf(b.poses, g)
      && r.value.savedHole == PoseOf(b.poses, b.hole.value)
      && PoseOf(r.value.poses, g) == m.align(b.poses, g, a, c)
      && (forall id | id != g :: PoseOf(r.value.poses, id) == PoseOf(b.poses, id))
      && r.value == b.(movingRoot := r.value.movingRoot, savedGroup := r.value.savedGroup,
                       savedHole := r.value.savedHole, poses := r.value.poses)
    ensures r.Success? && b.movingRoot.Some? ==>
      r.value == b.(poses := Snap(b.poses, m, GroupRoot(b.scene, b.movingRoot.value), a, c))
  {
    if b.movingRoot.None? then
      match PartRoot(b.scene, a)
      case None => Failure(NullPartRoot)
      case Some(root) =>
        var g := GroupRoot(b.scene, root);
        Success(b.(movingRoot := Some(root),
                   savedGroup := PoseOf(b.poses, g),
                   savedHole := PoseOf(b.poses, b.hole.value),
                   poses := Snap(b.poses, m, g, a, c)))
    else
      Success(b.(poses := Snap(b.poses, m, GroupRoot(b.scene, b.movingRoot.value), a, c)))
  }

  /** Do two connectors join, by tag and by belonging to different groups? */
  predicate Joinable(s: Scene, a: Id, h: Id)
    requires Wf(s) && a in s.nodes && h in s.nodes
  {
    AreComplementary(Tag(s, a), Tag(s, h)) && GroupRoot(s, a) != GroupRoot(s, h)
  }

  /** The second click landed on `h`, a connector other than the first. */
  function SecondHit(b: Builder, m: Motion, h: Id): (r: Result<Builder, Fault>)
    requires Inv(b) && b.state == SelectingSecond && h in b.scene.nodes && b.first != Some(h)
    ensures r.Success? ==> Inv(r.value)
    ensures !Joinable(b.scene, b.first.value, h) ==> r == Success(b.(first := Some(h)))
    ensures r.Success? && Joinable(b.scene, b.first.value, h) ==>
      && r.value.state == PreviewAdjust && r.value.scene == b.scene
      && r.value.panel == SetVisible(b.panel, true)
      && r.value.gizmo.hole == r.value.hole && r.value.gizmo.handles != []
  {
    var f := b.first.value;
    var s := b.scene;
    if !Joinable(s, f, h) then Success(b.(first := Some(h)))
    else
      var firstIsHole := IsHole(Tag(s, f));
      var isAxle := Tag(s, f) == AxleTag || Tag(s, h) == AxleTag;
      var f1 := if isAxle then AxlePos(s, f) else f;
      var s1 := if isAxle then AxlePos(s, h) else h;
      var (f2, s2) := Swapped(b.variant, s, f1, s1, h);
      var holeId := if firstIsHole then f2 else s2;
      var b1 := b.(first := Some(f2), second := Some(s2), hole := Some(holeId));
      match PreviewSnap(b1, m, f2, s2)
      case Failure(e) => Failure(e)
      case Success(b2) =>
        Success(b2.(gizmo := ShowHandles(b2.gizmo, holeId, firstIsHole, isAxle),
                    panel := SetVisible(b2.panel, true),
                    state := PreviewAdjust))
  }

  /** `CommitSnap`: a last alignment, then the merge of the moving part's group
      with the second connector's, then a fresh start. */
  function CommitSnap(b: Builder, m: Motion): (r: Result<Builder, Fault>)
    requires Inv(b) && b.state == PreviewAdjust
    ensures r.Success? ==> r.value.state == SelectingFirst && r.value.movingRoot.None?
    ensures r.Success? ==>
      var target := PartRoot(b.scene, b.second.value);
      target.Some? && Merged(b.variant, b.scene, b.movingRoot.value, target.value) == Success(r.value.scene)
  {
    var b1 := SnapGroup(b, m);
    match PartRoot(b.scene, b.second.value)
    case None => Failure(NullPartRoot)
    case Some(target) =>
      match Merged(b.variant, b.scene, b.movingRoot.value, target)
      case Failure(_) => Failure(MergeRefused)
      case Success(s) => Success(ClearAllHoleState(b1.(scene := s)))
  }

  /** The adjusting state: keys and handles adjust the preview; cancel
      restores it; confirm merges. */
  function AdjustFrame(b: Builder, m: Motion, f: Frame): (r: Result<Builder, Fault>)
    requires Inv(b) && b.state == PreviewAdjust
    ensures r.Success? ==> Inv(r.value)
    ensures !f.escape && !f.enter && !f.keypadEnter && !b.panel.confirmRequested && !b.panel.cancelRequested ==>
      r == Success(RotationKeys(b, m, f))
  {
    var b1 := RotationKeys(b, m, f);
    var (cancel, b2) := CancelPressed(b1, f);
    if cancel then
      var b3 := ClearAllHoleState(CancelPreview(b2));
      Success(b3.(gizmo := ClearHandles(b3.gizmo), panel := SetVisible(b3.panel, false)))
    else
      var (confirm, b4) := ConfirmPressed(b2, f);
      if confirm then
        match CommitSnap(b4, m)
        case Failure(e) => Failure(e)
        case Success(b5) => Success(b5.(panel := SetVisible(b5.panel, false), gizmo := ClearHandles(b5.gizmo)))
      else Success(b4)
  }

  /** `HandleHoleFSM`, one frame. */
  function HandleHoleFsm(b: Builder, m: Motion, f: Frame): (r: Result<Builder, Fault>)
    requires Inv(b) && Holds(b.scene, f.hit)
    ensures r.Success? ==> Inv(r.value)
  {
    match b.state
    case SelectingFirst =>
      var (cancel, b1) := CancelPressed(b, f);
      if cancel then Success(ClearAllHoleState(b1))
      else if f.select && f.hit.Some? then Success(b1.(first := f.hit, state := SelectingSecond))
      else Success(b1)
    case SelectingSecond =>
      var (cancel, b1) := CancelPressed(b, f);
      if cancel then Success(ClearAllHoleState(b1))
      else if !f.select || f.hit.None? || f.hit == b1.first then Success(b1)
      else SecondHit(b1, m, f.hit.value)
    case PreviewAdjust =>
      AdjustFrame(b, m, f)
  }

  /** Clicks on the panel and on a live gizmo handle, delivered before the
      frame's update. */
  function Events(b: Builder, m: Motion, f: Frame): (r: Builder)
    requires Inv(b)
    ensures Inv(r) && r == b.(panel := r.panel, poses := r.poses)
    ensures r.panel.visible == b.panel.visible
    ensures r.panel.cancelRequested <==> b.panel.cancelRequested || f.cancelClicked
    ensures r.panel.confirmRequested <==> b.panel.confirmRequested || f.confirmClicked
    ensures b.state == PreviewAdjust ==>
      var g := GroupRoot(b.scene, b.movingRoot.value);
      forall id | id != g && id != b.hole.value :: PoseOf(r.poses, id) == PoseOf(b.poses, id)
  {
    var p1 := if f.confirmClicked then OnConfirmClicked(b.panel) else b.panel;
    var p2 := if f.cancelClicked then OnCancelClicked(p1) else p1;
    var b1 := b.(panel := p2);
    match f.handle
    case Some(h) =>
      if h in b1.gizmo.handles then ApplyRequest(b1, m, OnHandleClicked(b1.gizmo, h)) else b1
    case None => b1
  }

  /** A frame in connector mode: events, then the state machine. A raycast
      only reports live objects, so a hit on a node no longer in the scene
      counts as no hit. */
  function Step(b: Builder, m: Motion, f: Frame): (r: Result<Builder, Fault>)
    requires Inv(b)
    ensures r.Success? ==> Inv(r.value)
  {
    var e := Events(b, m, f);
    HandleHoleFsm(e, m, if Holds(e.scene, f.hit) then f else f.(hit := None))
  }

  /** Frames one after another, stopping at the first fault. */
  function Run(b: Builder, m: Motion, fs: seq<Frame>): (r: Result<Builder, Fault>)
    requires Inv(b)
    ensures r.Success? ==> Inv(r.value)
    decreases |fs|
  {
    if |fs| == 0 then Success(b)
    else match Step(b, m, fs[0])
      case Failure(e) => Failure(e)
      case Success(b1) => Run(b1, m, fs[1..])
  }

  /** No pending click, key or panel request that could end a preview. */
  predicate Quiet(f: Frame)
  {
    !f.escape && !f.enter && !f.keypadEnter && !f.confirmClicked && !f.cancelClicked
  }

  /** In the second selection, a click on nothing or on the first connector
      again changes nothing. */
  lemma SecondIgnoresSameOrNothing(b: Builder, m: Motion, f: Frame)
    requires Inv(b) && b.state == SelectingSecond && Quiet(f) && !b.panel.cancelRequested
    requires f.hit.None? || f.hit == b.first
    ensures Step(b, m, f) == Success(b)
  {
  }

  /** In the second selection, a click on a connector that cannot join the
      first one makes it the new first choice and nothing else changes. */
  lemma SecondRestarts(b: Builder, m: Motion, f: Frame, h: Id)
    requires Inv(b) && b.state == SelectingSecond && Quiet(f) && !b.panel.cancelRequested
    requires f.select && f.hit == Some(h) && h in b.scene.nodes && b.first != Some(h)
    requires !Joinable(b.scene, b.first.value, h)
    ensures Step(b, m, f) == Success(b.(first := Some(h)))
  {
  }

  /** In the second selection, a click on a joinable connector starts the
      preview with the panel shown and the handles up; the only way it can
      fail is a connector with no part root. */
  lemma SecondPreviews(b: Builder, m: Motion, f: Frame, h: Id)
    requires Inv(b) && b.state == SelectingSecond && !f.escape && !f.cancelClicked && !b.panel.cancelRequested
    requires f.select && f.hit == Some(h) && h in b.scene.nodes && b.first != Some(h)
    requires Joinable(b.scene, b.first.value, h)
    ensures Step(b, m, f).Failure? ==> Step(b, m, f).error == NullPartRoot
    ensures Step(b, m, f).Success? ==>
      var r := Step(b, m, f).value;
      r.state == PreviewAdjust && r.panel == Panel(true, false, false) && r.gizmo.handles != []
      && r.scene == b.scene
  {
  }

  /** For peg joints, when the first connector's group holds the control hub
      the two connectors change places, so the hub's group is the stationary
      side; otherwise the first click stays the moving side. */
  lemma HubSideStays(b: Builder, m: Motion, f: Frame, h: Id)
    requires Inv(b) && b.state == SelectingSecond && !f.escape && !f.cancelClicked && !b.panel.cancelRequested
    requires f.select && f.hit == Some(h) && h in b.scene.nodes && b.first != Some(h)
    requires Joinable(b.scene, b.first.value, h)
    requires Tag(b.scene, b.first.value) != AxleTag && Tag(b.scene, h) != AxleTag
    ensures Step(b, m, f).Success? ==>
      var r := Step(b, m, f).value;
      if HasControlHub(b.scene, b.first.value)
      then r.first == Some(h) && r.second == b.first && HasControlHub(r.scene, r.second.value)
      else r.first == b.first && r.second == Some(h)
  {
  }

  /** For axle joints the connectors are first redirected to their "AxlePos"
      children. When the first side's group holds the control hub, the
      corrected swap moves the hit's redirected connector, while the swap as
      written moves the raw hit. */
  lemma AxleSwapFollowsVariant(b: Builder, m: Motion, f: Frame, h: Id)
    requires Inv(b) && b.state == SelectingSecond && !f.escape && !f.cancelClicked && !b.panel.cancelRequested
    requires f.select && f.hit == Some(h) && h in b.scene.nodes && b.first != Some(h)
    requires Joinable(b.scene, b.first.value, h)
    requires Tag(b.scene, b.first.value) == AxleTag || Tag(b.scene, h) == AxleTag
    requires HasControlHub(b.scene, AxlePos(b.scene, b.first.value))
    ensures Step(b, m, f).Success? ==>
      var r := Step(b, m, f).value;
      && r.second == Some(AxlePos(b.scene, b.first.value))
      && r.first == Some(if b.variant.AsWritten? then h else AxlePos(b.scene, h))
  {
  }

  /** `b` is a live preview whose snapshot was taken from the poses `p0`, and
      since then only the moving group and the hole have moved. */
  ghost predicate PreviewOf(b: Builder, p0: PoseStore)
  {
    && Inv(b) && b.state == PreviewAdjust
    && !b.panel.confirmRequested && !b.panel.cancelRequested
    && SnapshotOf(b, p0)
  }

  /** The snapshot in `b` holds the poses `p0` had for the moving group and
      the hole, and every other pose is still as in `p0`. */
  ghost predicate SnapshotOf(b: Builder, p0: PoseStore)
    requires Inv(b) && b.state == PreviewAdjust
  {
    var g := GroupRoot(b.scene, b.movingRoot.value);
    && b.savedGroup == PoseOf(p0, g)
    && b.savedHole == PoseOf(p0, b.hole.value)
    && forall id | id != g && id != b.hole.value :: PoseOf(b.poses, id) == PoseOf(p0, id)
  }

  /** Restoring from a snapshot of `p0` gives back every pose of `p0`. */
  lemma CancelPreviewRestores(b: Builder, p0: PoseStore)
    requires Inv(b) && b.state == PreviewAdjust && SnapshotOf(b, p0)
    ensures forall id :: PoseOf(CancelPreview(b).poses, id) == PoseOf(p0, id)
  {
    var g := GroupRoot(b.scene, b.movingRoot.value);
    var r := CancelPreview(b);
    forall id ensures PoseOf(r.poses, id) == PoseOf(p0, id) {
      if id != g && id != b.hole.value {
        assert PoseOf(r.poses, id) == PoseOf(b.poses, id);
      }
    }
  }

  /** A cancelling frame in the adjusting state: the keys still act, then the
      preview is restored and selection starts over. */
  lemma AdjustCancels(b: Builder, m: Motion, f: Frame)
    requires Inv(b) && b.state == PreviewAdjust && (f.escape || b.panel.cancelRequested)
    ensures AdjustFrame(b, m, f).Success?
    ensures var r := AdjustFrame(b, m, f).value;
      && r.poses == CancelPreview(RotationKeys(b, m, f)).poses
      && r.state == SelectingFirst && r.first.None? && r.second.None? && r.movingRoot.None?
      && r.gizmo.handles == [] && !r.panel.visible && r.scene == b.scene
  {
  }

  /** A confirming frame in the adjusting state merges the two groups. */
  lemma AdjustConfirms(b: Builder, m: Motion, f: Frame)
    requires Inv(b) && b.state == PreviewAdjust && !f.escape && !b.panel.cancelRequested
    requires f.enter || f.keypadEnter || b.panel.confirmRequested
    ensures AdjustFrame(b, m, f).Success? ==>
      var r := AdjustFrame(b, m, f).value;
      var target := PartRoot(b.scene, b.second.value);
      && target.Some? && Merged(b.variant, b.scene, b.movingRoot.value, target.value) == Success(r.scene)
      && r.state == SelectingFirst && r.gizmo.handles == [] && !r.panel.visible
  {
    var b1 := RotationKeys(b, m, f);
    assert b1 == b.(poses := b1.poses);
  }

  /** Starting a preview snapshots the poses it found. */
  lemma PreviewSnapshots(b: Builder, m: Motion, f: Frame, h: Id)
    requires Inv(b) && b.state == SelectingSecond && !f.escape && !f.cancelClicked && !b.panel.cancelRequested
    requires f.select && f.hit == Some(h) && h in b.scene.nodes && b.first != Some(h)
    requires Joinable(b.scene, b.first.value, h)
    ensures Step(b, m, f).Success? ==> PreviewOf(Step(b, m, f).value, b.poses)
  {
  }

  /** The events of a frame keep the snapshot. */
  lemma EventsKeepSnapshot(b: Builder, m: Motion, f: Frame, p0: PoseStore)
    requires Inv(b) && b.state == PreviewAdjust && SnapshotOf(b, p0)
    ensures Events(b, m, f).state == PreviewAdjust && SnapshotOf(Events(b, m, f), p0)
  {
    var e := Events(b, m, f);
    var g := GroupRoot(b.scene, b.movingRoot.value);
    forall id | id != g && id != b.hole.value ensures PoseOf(e.poses, id) == PoseOf(p0, id) {
    }
  }

  /** Adjusting keys keep the snapshot. */
  lemma KeysKeepSnapshot(b: Builder, m: Motion, f: Frame, p0: PoseStore)
    requires Inv(b) && b.state == PreviewAdjust && SnapshotOf(b, p0)
    ensures SnapshotOf(RotationKeys(b, m, f), p0)
  {
    var r := RotationKeys(b, m, f);
    var g := GroupRoot(b.scene, b.movingRoot.value);
    forall id | id != g && id != b.hole.value ensures PoseOf(r.poses, id) == PoseOf(p0, id) {
    }
  }

  /** A quiet frame during a preview keeps it live with the same snapshot,
      whatever arrows or handles it adjusts. */
  lemma QuietKeepsPreview(b: Builder, m: Motion, f: Frame, p0: PoseStore)
    requires PreviewOf(b, p0) && Quiet(f)
    ensures Step(b, m, f).Success? && PreviewOf(Step(b, m, f).value, p0)
  {
    var e := Events(b, m, f);
    EventsKeepSnapshot(b, m, f, p0);
    var f1 := if Holds(e.scene, f.hit) then f else f.(hit := None);
    assert Step(b, m, f) == AdjustFrame(e, m, f1);
    KeysKeepSnapshot(e, m, f1, p0);
  }

  lemma {:induction false} QuietRunKeepsPreview(b: Builder, m: Motion, fs: seq<Frame>, p0: PoseStore)
    requires PreviewOf(b, p0)
    requires forall i | 0 <= i < |fs| :: Quiet(fs[i])
    ensures Run(b, m, fs).Success? && PreviewOf(Run(b, m, fs).value, p0)
    decreases |fs|
  {
    if |fs| > 0 {
      QuietKeepsPreview(b, m, fs[0], p0);
      QuietRunKeepsPreview(Step(b, m, fs[0]).value, m, fs[1..], p0);
    }
  }

  /** Cancelling a preview puts every pose back to the snapshot and starts
      selection over with the handles and the panel gone. */
  lemma CancelRestores(b: Builder, m: Motion, f: Frame, p0: PoseStore)
    requires PreviewOf(b, p0) && (f.escape || f.cancelClicked)
    ensures Step(b, m, f).Success?
    ensures var r := Step(b, m, f).value;
      && (forall id :: PoseOf(r.poses, id) == PoseOf(p0, id))
      && r.state == SelectingFirst && r.first.None? && r.second.None? && r.movingRoot.None?
      && r.gizmo.handles == [] && !r.panel.visible && r.scene == b.scene
  {
    var e := Events(b, m, f);
    EventsKeepSnapshot(b, m, f, p0);
    var f1 := if Holds(e.scene, f.hit) then f else f.(hit := None);
    assert Step(b, m, f) == AdjustFrame(e, m, f1);
    AdjustCancels(e, m, f1);
    KeysKeepSnapshot(e, m, f1, p0);
    CancelPreviewRestores(RotationKeys(e, m, f1), p0);
  }

  /** The whole round trip: choose a joinable connector, adjust for any number
      of quiet frames, cancel, and every pose is what it was before the
      preview began. */
  lemma PreviewCancelRoundTrip(b: Builder, m: Motion, start: Frame, h: Id, fs: seq<Frame>, cancel: Frame)
    requires Inv(b) && b.state == SelectingSecond && !start.escape && !start.cancelClicked && !b.panel.cancelRequested
    requires start.select && start.hit == Some(h) && h in b.scene.nodes && b.first != Some(h)
    requires Joinable(b.scene, b.first.value, h)
    requires forall i | 0 <= i < |fs| :: Quiet(fs[i])
    requires cancel.escape
    ensures Run(b, m, [start] + fs + [cancel]).Success? ==>
      forall id :: PoseOf(Run(b, m, [start] + fs + [cancel]).value.poses, id) == PoseOf(b.poses, id)
  {
    var all := [start] + fs + [cancel];
    assert all == [start] + (fs + [cancel]);
    RunAppend(b, m, [start], fs + [cancel]);
    RunSingle(b, m, start);
    if Step(b, m, start).Success? {
      var b1 := Step(b, m, start).value;
      PreviewSnapshots(b, m, start, h);
      QuietRunKeepsPreview(b1, m, fs, b.poses);
      var bn := Run(b1, m, fs).value;
      RunAppend(b1, m, fs, [cancel]);
      RunSingle(bn, m, cancel);
      CancelRestores(bn, m, cancel, b.poses);
    }
  }

  /** Running one frame is one step. */
  lemma RunSingle(b: Builder, m: Motion, f: Frame)
    requires Inv(b)
    ensures Run(b, m, [f]) == Step(b, m, f)
  {
    assert [f][1..] == [];
  }

  /** Running two batches of frames is running the first, then the second. */
  lemma {:induction false} RunAppend(b: Builder, m: Motion, xs: seq<Frame>, ys: seq<Frame>)
    requires Inv(b)
    ensures Run(b, m, xs).Failure? ==> Run(b, m, xs + ys) == Run(b, m, xs)
    ensures Run(b, m, xs).Success? ==> Run(b, m, xs + ys) == Run(Run(b, m, xs).value, m, ys)
    decreases |xs|
  {
    if |xs| == 0 {
      assert xs + ys == ys;
    } else {
      assert (xs + ys)[0] == xs[0];
      assert (xs + ys)[1..] == xs[1..] + ys;
      match Step(b, m, xs[0])
      case Failure(_) =>
      case Success(b1) => RunAppend(b1, m, xs[1..], ys);
    }
  }

  /** Confirming a preview merges the moving part's group with the second
      connector's and starts selection over. */
  lemma ConfirmMerges(b: Builder, m: Motion, f: Frame, p0: PoseStore)
    requires PreviewOf(b, p0) && !f.escape && !f.cancelClicked && (f.enter || f.keypadEnter || f.confirmClicked)
    ensures Step(b, m, f).Success? ==>
      var r := Step(b, m, f).value;
      var target := PartRoot(b.scene, b.second.value);
      && target.Some? && Merged(b.variant, b.scene, b.movingRoot.value, target.value) == Success(r.scene)
      && r.state == SelectingFirst && r.gizmo.handles == [] && !r.panel.visible
  {
    var e := Events(b, m, f);
    var f1 := if Holds(e.scene, f.hit) then f else f.(hit := None);
    assert Step(b, m, f) == AdjustFrame(e, m, f1);
    AdjustConfirms(e, m, f1);
  }
}
