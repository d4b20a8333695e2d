/** The guided tutorial: a list of steps shown one at a time on a card,
    with Next, Back and Skip buttons, a click blocker, a highlight frame,
    input gating and a completion condition per step; the shown index is
    saved as progress. Both managers are modelled, the older one differing
    in its blocker rule, its highlight rule and in having no UI-button
    notification. Mouse, keyboard and raycast polling are abstracted into
    completion events. */
module Tutorial {
  import opened Wrappers

  datatype CompletionMode = ClickTarget | ClickByTag | PressKey | EnterTrigger | Timed | ManualNext

  /** One step of the tutorial; keys are numbered, 0 standing for no key. */
  datatype Step = Step(
    title: string,
    body: string,
    worldTarget: string,
    uiTargetName: string,
    blockOtherClicks: bool,
    completionMode: CompletionMode,
    requiredTag: string,
    requiredKey: nat,
    waitSeconds: real,
    disableAllPlayerInputs: bool,
    allowActions: seq<string>)

  const NoKey: nat := 0

  /** A freshly authored step: it blocks other clicks, completes on a
      click on its target, and switches off every player input. */
  function NewStep(): (s: Step)
    ensures s.blockOtherClicks && s.disableAllPlayerInputs
    ensures s.completionMode == ClickTarget && s.requiredKey == NoKey && s.waitSeconds == 0.0
    ensures s.title == s.body == s.worldTarget == s.uiTargetName == s.requiredTag == []
    ensures s.allowActions == []
  {
    Step("", "", "", "", true, ClickTarget, "", NoKey, 0.0, true, [])
  }

  /** Which of the two managers. */
  datatype Manager = Older | Newer

  datatype Highlight = NoFrame | UiFrame(target: string) | WorldFrame(target: string)

  /** What the player sees: whether the tutorial card is up, its text, the
      Next and Back buttons, the full-screen click blocker and the frame. */
  datatype Card = Card(shown: bool, title: string, body: string, nextShown: bool,
                       backShown: bool, blocker: bool, highlight: Highlight)

  /** What the manager works with: its steps, the action names of the
      player input when there is one, and which object names the scene can
      resolve. */
  datatype Scene = Scene(steps: seq<Step>, actions: Option<set<string>>, resolves: string -> bool)

  /** The manager's state: which `ShowStep` it runs, the step index, the
      running flag, the saved progress, the card, the enabled input actions,
      the step whose completion is awaited, and the trigger flag set by
      `SignalStepDone`. */
  datatype Tut = Tut(variant: Variant, index: int, running: bool, saved: int, card: Card,
                     enabled: set<string>, waiting: Option<Step>, signalled: bool)

  /** A frame's outcome for the awaited step: a click on the step's target,
      a click on an object with a tag, a key press, the time since the step
      was shown, or a frame with nothing of these. */
  datatype Completion = ClickedTarget | ClickedTag(tag: string) | PressedKey(key: nat) | Waited(seconds: real) | Idle

  /** The user's and the game's inputs to the manager. */
  datatype Event = NextClicked | BackClicked | SkipClicked | UiButton(id: string) | Signal | Frame(c: Completion)

  /** `Mathf.Clamp` on integers: below the range gives its lower end, else
      above it gives its upper end. */
  function Clamp(v: int, lo: int, hi: int): (r: int)
    ensures lo <= hi ==> lo <= r <= hi
    ensures lo <= v <= hi ==> r == v
    ensures r == lo || r == v || r == hi
  {
    if v < lo then lo else if v > hi then hi else v
  }

  function Max(a: int, b: int): (r: int)
    ensures r >= a && r >= b && (r == a || r == b)
  {
    if a >= b then a else b
  }

  /** The actions left enabled when only `names` may be used: every listed
      name the input knows, unknown names skipped. */
  function Allowed(names: seq<string>, actions: set<string>): (r: set<string>)
    ensures forall n :: n in r <==> n in names && n in actions
  {
    if |names| == 0 then {}
    else (if names[0] in actions then {names[0]} else {}) + Allowed(names[1..], actions)
  }

  /** `SetPlayerInputs` with unknown action names skipped: no player input
      leaves the actions as they are; a gating step enables only its listed
      actions, any other step enables them all. */
  function Gate(s: Step, actions: Option<set<string>>, enabled: set<string>): (r: set<string>)
    ensures actions.None? ==> r == enabled
    ensures actions.Some? ==> r <= actions.value
    ensures actions.Some? && !s.disableAllPlayerInputs ==> r == actions.value
    ensures actions.Some? && s.disableAllPlayerInputs ==>
      forall n :: n in r <==> n in s.allowActions && n in actions.value
  {
    match actions
    case None => enabled
    case Some(all) => if s.disableAllPlayerInputs then Allowed(s.allowActions, all) else all
  }

  /** The enabling loop as written: `FindAction(name, true)` throws on an
      unknown name, so the loop stops there with the names before it
      enabled and reports that it did not finish. */
  datatype Gated = Gated(enabled: set<string>, finished: bool)

  function AllowedAsWritten(names: seq<string>, actions: set<string>): (r: Gated)
    ensures r.finished <==> forall i | 0 <= i < |names| :: names[i] in actions
    ensures r.finished ==> r.enabled == Allowed(names, actions)
    ensures r.enabled <= actions
  {
    if |names| == 0 then Gated({}, true)
    else if names[0] !in actions then Gated({}, false)
    else
      var g := AllowedAsWritten(names[1..], actions);
      Gated({names[0]} + g.enabled, g.finished)
  }

  /** The blocker: the newer manager turns it off for a step with a UI
      target, otherwise it follows the step's `blockOtherClicks`. */
  function Blocker(m: Manager, s: Step): (b: bool)
  {
    if m == Newer && s.uiTargetName != [] then false else s.blockOtherClicks
  }

  /** The frame: a UI target first, else a world target. The newer manager
      looks a target up only when its name is set and shows no frame when
      the UI name does not resolve; the older one holds object references,
      read here as the names of the objects they refer to. */
  function Frame(m: Manager, s: Step, resolves: string -> bool): (h: Highlight)
    ensures h.UiFrame? ==> h.target == s.uiTargetName && resolves(s.uiTargetName)
    ensures h.WorldFrame? ==> h.target == s.worldTarget && resolves(s.worldTarget)
  {
    match m
    case Newer =>
      if s.uiTargetName != [] then (if resolves(s.uiTargetName) then UiFrame(s.uiTargetName) else NoFrame)
      else if s.worldTarget != [] && resolves(s.worldTarget) then WorldFrame(s.worldTarget)
      else NoFrame
    case Older =>
      if s.uiTargetName != [] && resolves(s.uiTargetName) then UiFrame(s.uiTargetName)
      else if s.worldTarget != [] && resolves(s.worldTarget) then WorldFrame(s.worldTarget)
      else NoFrame
  }

  /** The card for step `s` shown as step number `i`; whether the card
      itself is up is not `ShowStep`'s business. */
  function CardFor(m: Manager, s: Step, i: int, resolves: string -> bool, shown: bool): (c: Card)
  {
    Card(shown, s.title, s.body, s.completionMode == ManualNext, i > 0, Blocker(m, s), Frame(m, s, resolves))
  }

  /** `EndTutorial`: not running, progress saved as the number of steps,
      frame and blocker off, every input action enabled again, and no
      completion awaited (the manager's object is switched off). Only the
      newer manager takes the card down; the older one has no card object
      and leaves the text where it was. */
  function End(m: Manager, sc: Scene, t: Tut): (r: Tut)
    ensures !r.running && r.saved == |sc.steps| && r.index == t.index && r.variant == t.variant
    ensures !r.card.blocker && r.card.highlight == NoFrame && r.waiting.None?
    ensures m == Newer ==> !r.card.shown
    ensures m == Older ==> r.card.shown == t.card.shown
    ensures r.card.title == t.card.title && r.card.body == t.card.body
    ensures sc.actions.Some? ==> r.enabled == sc.actions.value
    ensures sc.actions.None? ==> r.enabled == t.enabled
    ensures r.signalled == t.signalled
  {
    t.(running := false, saved := |sc.steps|,
       card := t.card.(shown := m == Older && t.card.shown, blocker := false, highlight := NoFrame),
       enabled := if sc.actions.Some? then sc.actions.value else t.enabled,
       waiting := None)
  }

  /** `ShowStep`: the tutorial ends when it is not running or `i` is not a
      step; otherwise step `i` is put on the card, Next offered only for a
      ManualNext step and Back only after the first step, the inputs
      gated, `i` saved as progress and its completion awaited. */
  function ShowStep(m: Manager, sc: Scene, t: Tut, i: int): (r: Tut)
    ensures r.index == t.index && r.signalled == t.signalled && r.variant == t.variant
    ensures !t.running || i < 0 || i >= |sc.steps| ==> r == End(m, sc, t)
    ensures t.running && 0 <= i < |sc.steps| ==>
      var s := sc.steps[i];
      && r.running && r.saved == i && r.waiting == Some(s)
      && r.card.title == s.title && r.card.body == s.body
      && (r.card.nextShown <==> s.completionMode == ManualNext)
      && (r.card.backShown <==> i > 0)
      && (m == Newer && s.uiTargetName != [] ==> !r.card.blocker)
      && (m == Older || s.uiTargetName == [] ==> r.card.blocker == s.blockOtherClicks)
      && r.enabled == Gate(s, sc.actions, t.enabled)
      && r.card.shown == t.card.shown
  {
    if !t.running || i < 0 || i >= |sc.steps| then End(m, sc, t)
    else
      var s := sc.steps[i];
      t.(card := CardFor(m, s, i, sc.resolves, t.card.shown), enabled := Gate(s, sc.actions, t.enabled),
         saved := i, waiting := Some(s))
  }

  /** `ShowStep` as written: an unknown allowed action name throws out of
      the gating loop after the text was set, so the buttons, the blocker,
      the frame, the saved progress and the awaited completion stay as
      they were. */
  function ShowStepAsWritten(m: Manager, sc: Scene, t: Tut, i: int): (r: Tut)
    ensures r.index == t.index && r.signalled == t.signalled && r.variant == t.variant
    ensures !t.running || i < 0 || i >= |sc.steps| ==> r == End(m, sc, t)
    ensures t.running && 0 <= i < |sc.steps| ==> r.running && r.card.title == sc.steps[i].title && r.card.body == sc.steps[i].body
    ensures (&& t.running && 0 <= i < |sc.steps| && sc.actions.Some? && sc.steps[i].disableAllPlayerInputs
             && exists k | 0 <= k < |sc.steps[i].allowActions| :: sc.steps[i].allowActions[k] !in sc.actions.value) ==>
      && r.saved == t.saved && r.waiting == t.waiting
      && r.card.(title := t.card.title, body := t.card.body) == t.card
      && r.enabled <= sc.actions.value
    ensures (&& 0 <= i < |sc.steps| && sc.actions.Some?
             && forall k | 0 <= k < |sc.steps[i].allowActions| :: sc.steps[i].allowActions[k] in sc.actions.value) ==>
      r == ShowStep(m, sc, t, i)
    ensures sc.actions.None? ==> r == ShowStep(m, sc, t, i)
  {
    if !t.running || i < 0 || i >= |sc.steps| then End(m, sc, t)
    else
      var s := sc.steps[i];
      if sc.actions.Some? && s.disableAllPlayerInputs && !AllowedAsWritten(s.allowActions, sc.actions.value).finished then
        t.(card := t.card.(title := s.title, body := s.body),
           enabled := AllowedAsWritten(s.allowActions, sc.actions.value).enabled)
      else ShowStep(m, sc, t, i)
  }

  /** Every action name a step allows is one the player input has, so
      the gating loop as written never throws. */
  predicate Known(sc: Scene)
  {
    sc.actions.Some? ==>
      forall i, k | 0 <= i < |sc.steps| && 0 <= k < |sc.steps[i].allowActions| ::
        sc.steps[i].allowActions[k] in sc.actions.value
  }

  /** `ShowStep` in the version the state's variant names; on a scene
      whose allowed names are all known the two agree. */
  function Show(m: Manager, sc: Scene, t: Tut, i: int): (r: Tut)
    ensures r.index == t.index && r.signalled == t.signalled && r.variant == t.variant
    ensures r.running == (t.running && 0 <= i < |sc.steps|)
    ensures r.card.shown == t.card.shown || r == End(m, sc, t)
    ensures Known(sc) ==> r == ShowStep(m, sc, t, i)
  {
    if t.variant == AsWritten then
      if 0 <= i < |sc.steps| && sc.actions.Some? && Known(sc) then
        KnownActionsAgree(m, sc, t, i);
        ShowStepAsWritten(m, sc, t, i)
      else ShowStepAsWritten(m, sc, t, i)
    else ShowStep(m, sc, t, i)
  }

  /** `StartTutorial`: running, the index clamped into the steps, and that
      step shown; with no steps the tutorial ends at once. The newer
      manager puts its card up first; the older one has no card to put up. */
  function StartTutorial(m: Manager, sc: Scene, t: Tut, start: int): (r: Tut)
    ensures r.index == Clamp(start, 0, |sc.steps| - 1) && r.variant == t.variant
    ensures |sc.steps| > 0 ==> r.running && 0 <= r.index < |sc.steps|
    ensures |sc.steps| > 0 && (t.variant == Corrected || Known(sc)) ==> r.saved == r.index
    ensures 0 <= start < |sc.steps| ==> r.index == start
    ensures start >= |sc.steps| > 0 ==> r.index == |sc.steps| - 1
    ensures |sc.steps| == 0 ==> r == End(m, sc, r)
    ensures m == Newer ==> (r.card.shown <==> |sc.steps| > 0)
    ensures m == Older ==> r.card.shown == t.card.shown
  {
    var i := Clamp(start, 0, |sc.steps| - 1);
    Show(m, sc, t.(running := true, index := i, card := t.card.(shown := m == Newer || t.card.shown)), i)
  }

  /** `Start` as written: resume at the saved progress, clamped. */
  function StartAsWritten(m: Manager, sc: Scene, t: Tut): (r: Tut)
    ensures 0 <= t.saved < |sc.steps| ==> r.running && r.index == t.saved
    ensures t.saved >= |sc.steps| > 0 ==> r.running && r.index == |sc.steps| - 1
    ensures t.saved < 0 && |sc.steps| > 0 ==> r.running && r.index == 0
    ensures |sc.steps| == 0 ==> !r.running
  {
    StartTutorial(m, sc, t.(index := t.saved), t.saved)
  }

  /** `Start` with the end of the tutorial remembered: saved progress of
      at least the number of steps, as `EndTutorial` saves it, keeps the
      tutorial ended; any other resumes at the saved step. */
  function Start(m: Manager, sc: Scene, t: Tut): (r: Tut)
    ensures t.saved >= |sc.steps| ==> !r.running && r.saved == |sc.steps|
    ensures 0 <= t.saved < |sc.steps| ==> r.running && r.index == t.saved
    ensures 0 <= t.saved < |sc.steps| && (t.variant == Corrected || Known(sc)) ==> r.saved == t.saved
  {
    if t.saved >= |sc.steps| then End(m, sc, t.(index := t.saved))
    else StartTutorial(m, sc, t.(index := t.saved), t.saved)
  }

  /** `OnNextClicked`: one step on; past the last step the tutorial ends. */
  function Next(m: Manager, sc: Scene, t: Tut): (r: Tut)
    ensures r.index == t.index + 1 && r.variant == t.variant
    ensures r.running <==> t.running && 0 <= t.index + 1 < |sc.steps|
    ensures t.index + 1 >= |sc.steps| ==> r == End(m, sc, t.(index := t.index + 1))
    ensures r.running && (t.variant == Corrected || Known(sc)) ==>
      r.saved == r.index && r.waiting == Some(sc.steps[r.index])
  {
    var t1 := t.(index := t.index + 1);
    if t1.index >= |sc.steps| then End(m, sc, t1) else Show(m, sc, t1, t1.index)
  }

  /** `OnBackClicked`: one step back, but never before the first. */
  function Back(m: Manager, sc: Scene, t: Tut): (r: Tut)
    ensures r.index == Max(0, t.index - 1) && r.index >= 0 && r.variant == t.variant
    ensures t.index > 0 ==> r.index == t.index - 1
    ensures r.running <==> t.running && r.index < |sc.steps|
    ensures r.running && (t.variant == Corrected || Known(sc)) ==>
      r.saved == r.index && r.waiting == Some(sc.steps[r.index])
  {
    var i := Max(0, t.index - 1);
    Show(m, sc, t.(index := i), i)
  }

  /** The awaited step finishes on this frame's outcome: a click on its
      target, a click on an object with its tag, its key, its time, or a
      frame after the trigger was signalled; a ManualNext step never
      finishes this way, as nothing ever raises the flag it waits for. */
  predicate Finishes(s: Step, c: Completion, signalled: bool)
  {
    match s.completionMode
    case ClickTarget => c == ClickedTarget
    case ClickByTag => c == ClickedTag(s.requiredTag)
    case PressKey => c == PressedKey(s.requiredKey)
    case EnterTrigger => signalled
    case Timed => c.Waited? && c.seconds >= s.waitSeconds
    case ManualNext => false
  }

  /** Showing step `i` throws out of the gating loop: the as-written
      variant, a running tutorial, a step that gates the input, and an
      allowed name the input lacks. */
  predicate Throws(sc: Scene, t: Tut, i: int)
  {
    && t.variant == AsWritten && t.running && 0 <= i < |sc.steps| && sc.actions.Some?
    && sc.steps[i].disableAllPlayerInputs
    && !AllowedAsWritten(sc.steps[i].allowActions, sc.actions.value).finished
  }

  /** The completion coroutine: when the awaited step finishes it clears
      the trigger flag if it waited for it and goes to the next step. A
      throw while showing that step ends the coroutine itself, so then
      nothing is awaited. */
  function Complete(m: Manager, sc: Scene, t: Tut, c: Completion): (r: Tut)
    ensures t.waiting.None? ==> r == t
    ensures t.waiting.Some? && !Finishes(t.waiting.value, c, t.signalled) ==> r == t
    ensures t.waiting.Some? && Finishes(t.waiting.value, c, t.signalled) ==>
      && r.index == t.index + 1
      && (r.running <==> t.running && 0 <= t.index + 1 < |sc.steps|)
      && (Throws(sc, t, t.index + 1) ==> r.waiting.None?)
  {
    match t.waiting
    case None => t
    case Some(s) =>
      if Finishes(s, c, t.signalled) then
        var t1 := t.(signalled := if s.completionMode == EnterTrigger then false else t.signalled);
        var n := Next(m, sc, t1);
        if Throws(sc, t1, t1.index + 1) then n.(waiting := None) else n
      else t
  }

  /** The states in which the current index names a step whenever the
      tutorial runs. */
  predicate Wf(sc: Scene, t: Tut)
  {
    t.running ==> 0 <= t.index < |sc.steps|
  }

  /** `NotifyUIButtonClicked` (newer manager only): the tutorial goes on
      exactly when it is running, the step waits for a click on its target
      and the button is that target. */
  function NotifyUIButtonClicked(sc: Scene, t: Tut, id: string): (r: Tut)
    requires Wf(sc, t)
    ensures var go := t.running && sc.steps[t.index].completionMode == ClickTarget
                      && sc.steps[t.index].uiTargetName == id;
      && (go ==> r == Next(Newer, sc, t))
      && (!go ==> r == t)
  {
    if !t.running then t
    else
      var s := sc.steps[t.index];
      if s.completionMode != ClickTarget then t
      else if s.uiTargetName == id then Next(Newer, sc, t)
      else t
  }

  /** One event: the three buttons, a UI button press (ignored by the
      older manager, which has no such hook), the trigger signal, and a
      frame with its completion outcome. */
  function Handle(m: Manager, sc: Scene, t: Tut, e: Event): (r: Tut)
    requires Wf(sc, t)
  {
    match e
    case NextClicked => Next(m, sc, t)
    case BackClicked => Back(m, sc, t)
    case SkipClicked => End(m, sc, t)
    case UiButton(id) => if m == Newer then NotifyUIButtonClicked(sc, t, id) else t
    case Signal => t.(signalled := true)
    case Frame(c) => Complete(m, sc, t, c)
  }

  /** The manager's invariant: while running, the current step is on the
      card (the newer manager's card up), saved as progress, gated and
      awaited; once ended, progress is the number of steps, the newer
      manager's card is down, frame and blocker are off, nothing is awaited
      and every input is enabled. */
  predicate Inv(m: Manager, sc: Scene, t: Tut)
  {
    && (t.running ==>
          && 0 <= t.index < |sc.steps|
          && t.saved == t.index
          && t.card == CardFor(m, sc.steps[t.index], t.index, sc.resolves, t.card.shown)
          && (m == Newer ==> t.card.shown)
          && t.waiting == Some(sc.steps[t.index])
          && (sc.actions.Some? ==> t.enabled == Gate(sc.steps[t.index], sc.actions, t.enabled)))
    && (!t.running ==>
          && t.saved == |sc.steps|
          && (m == Newer ==> !t.card.shown) && !t.card.blocker && t.card.highlight == NoFrame
          && t.waiting.None?
          && (sc.actions.Some? ==> t.enabled == sc.actions.value))
  }

  /** `Start` sets the invariant up from any saved progress, in the
      corrected variant and in the as-written one on a scene whose allowed
      names are all known. */
  lemma StartEstablishesInv(m: Manager, sc: Scene, t: Tut)
    requires t.variant == Corrected || Known(sc)
    ensures Inv(m, sc, Start(m, sc, t))
  {
  }

  /** Every event keeps the invariant, in the corrected variant and in the
      as-written one on a scene whose allowed names are all known
      (`UnknownActionBreaksInv` shows the as-written one losing it
      otherwise). */
  lemma HandleKeepsInv(m: Manager, sc: Scene, t: Tut, e: Event)
    requires Inv(m, sc, t) && (t.variant == Corrected || Known(sc))
    ensures Wf(sc, t) && Inv(m, sc, Handle(m, sc, t, e))
  {
    if e.Frame? && t.waiting.Some? && Finishes(t.waiting.value, e.c, t.signalled) {
      var s := t.waiting.value;
      var t1 := t.(signalled := if s.completionMode == EnterTrigger then false else t.signalled);
      assert Inv(m, sc, t1);
    }
  }

  /** Next then Back, from any step but the last, gives back the same
      state. */
  lemma NextThenBack(m: Manager, sc: Scene, t: Tut)
    requires Inv(m, sc, t) && t.running && t.index + 1 < |sc.steps|
    requires t.variant == Corrected || Known(sc)
    ensures Back(m, sc, Next(m, sc, t)) == t
  {
  }

  /** Back then Next, from any step but the first, gives back the same
      state. */
  lemma BackThenNext(m: Manager, sc: Scene, t: Tut)
    requires Inv(m, sc, t) && t.running && t.index > 0
    requires t.variant == Corrected || Known(sc)
    ensures Next(m, sc, Back(m, sc, t)) == t
  {
  }

  /** Quitting and starting again resumes exactly where the tutorial was. */
  lemma ResumeRestoresStep(m: Manager, sc: Scene, t: Tut)
    requires Inv(m, sc, t) && t.running
    requires t.variant == Corrected || Known(sc)
    ensures Start(m, sc, t) == t
  {
  }

  /** A ManualNext step is left only through the buttons: no frame
      outcome completes it. */
  lemma ManualNextOnlyByButton(m: Manager, sc: Scene, t: Tut, c: Completion)
    requires Inv(m, sc, t) && t.running && sc.steps[t.index].completionMode == ManualNext
    ensures Complete(m, sc, t, c) == t
    ensures t.card.nextShown
  {
  }

  /** In the older manager the blocker always follows the step's own
      flag, UI target or not. */
  lemma OlderBlockerFollowsStep(sc: Scene, t: Tut)
    requires Inv(Older, sc, t) && t.running
    ensures t.card.blocker == sc.steps[t.index].blockOtherClicks
  {
  }

  /** The older manager's navigation: Next moves one on and ends past the
      last step, saving the number of steps and leaving the card's
      visibility as it was; Back never goes before the first step. */
  lemma OlderNavigation(sc: Scene, t: Tut)
    requires Inv(Older, sc, t) && t.running
    requires t.variant == Corrected || Known(sc)
    ensures var n := Next(Older, sc, t);
      && n.index == t.index + 1
      && (n.running <==> t.index + 1 < |sc.steps|)
      && (!n.running ==> n.saved == |sc.steps| && n.card.shown == t.card.shown
                         && !n.card.blocker && n.card.highlight == NoFrame)
    ensures var b := Back(Older, sc, t);
      && b.running && b.index == Max(0, t.index - 1) && b.saved == b.index
      && (b.card.backShown <==> b.index > 0)
  {
  }

  /** Resuming after the end, as written: the progress saved at the end
      is clamped back onto the last step, so a finished or skipped
      tutorial reopens on its last step, with the newer manager's card up
      again. */
  lemma ResumeAfterEndReopens(m: Manager, sc: Scene, t: Tut)
    requires Inv(m, sc, t) && !t.running && |sc.steps| > 0
    ensures var r := StartAsWritten(m, sc, t);
      && r.running && r.index == |sc.steps| - 1
      && (m == Newer ==> r.card.shown)
      && (m == Older ==> r.card.shown == t.card.shown)
    ensures !Start(m, sc, t).running
  {
  }

  /** With a step that allows an action the player input does not have,
      Next in the as-written variant stops after setting the text: the
      step's progress is not saved, the previous step's completion is
      still awaited and the invariant is lost, whereas with unknown names
      skipped the step is shown in full. */
  lemma UnknownActionBreaksInv()
    ensures var s := NewStep().(allowActions := ["Missing"]);
      var s0 := NewStep().(completionMode := ManualNext);
      var sc := Scene([s0, s], Some({"Move"}), (n: string) => true);
      var t := Tut(AsWritten, 0, true, 0, CardFor(Newer, s0, 0, sc.resolves, true), {}, Some(s0), false);
      var n := Next(Newer, sc, t);
      var c := Next(Newer, sc, t.(variant := Corrected));
      && Inv(Newer, sc, t) && Inv(Newer, sc, t.(variant := Corrected))
      && n.running && n.index == 1 && n.saved == 0 && n.waiting == Some(s0) && n.card.nextShown
      && !Inv(Newer, sc, n)
      && c.running && c.index == 1 && c.saved == 1 && c.waiting == Some(s) && !c.card.nextShown
      && Inv(Newer, sc, c)
  {
    var s := NewStep().(allowActions := ["Missing"]);
    assert !AllowedAsWritten(s.allowActions, {"Move"}).finished by {
      assert s.allowActions[0] !in {"Move"};
    }
  }

  /** When every allowed name is known, `ShowStep` as written and with
      unknown names skipped agree. */
  lemma KnownActionsAgree(m: Manager, sc: Scene, t: Tut, i: int)
    requires 0 <= i < |sc.steps| && sc.actions.Some?
    requires forall n | n in sc.steps[i].allowActions :: n in sc.actions.value
    ensures ShowStepAsWritten(m, sc, t, i) == ShowStep(m, sc, t, i)
  {
    var s := sc.steps[i];
    assert forall k | 0 <= k < |s.allowActions| :: s.allowActions[k] in sc.actions.value by {
      forall k | 0 <= k < |s.allowActions|
        ensures s.allowActions[k] in sc.actions.value
      {
        assert s.allowActions[k] in s.allowActions;
      }
    }
  }
}
