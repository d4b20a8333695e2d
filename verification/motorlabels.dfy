/** The motor-letter assignment dialog: in assign mode a click on a motor
    opens a modal with six letter buttons A to F; a letter can be previewed
    when it is free or already this motor's, and confirming moves the motor's
    claim to the previewed letter. */
module MotorLabels {
  import opened Wrappers
  import opened Dicts

  /** A motor label component, by identity. */
  type LabelId = nat

  const LetterCount := 6
  const NoLetter: char := '\0'
  const Unassigned: char := '?'

  /** The letter on button `i`: 'A' + i. */
  function LetterAt(i: nat): (c: char)
    requires i < LetterCount
    ensures 'A' <= c <= 'F'
  {
    (('A' as int) + i) as char
  }

  /** The dialog's state: `taken` maps each claimed letter to its owner in
      enumeration order, `shown` is the letter each label displays,
      `selectable` the six letter buttons' interactable flags. */
  datatype Dialog = Dialog(
    assignMode: bool,
    modalOpen: bool,
    target: Option<LabelId>,
    taken: Dict<char, LabelId>,
    preview: char,
    shown: map<LabelId, char>,
    selectable: seq<bool>,
    confirmEnabled: bool)

  /** Letters have one owner each and owners one letter each. */
  predicate Inv(u: Dialog)
  {
    Valid(u.taken) && Injective(u.taken) && |u.selectable| == LetterCount
  }

  /** After `Awake`: not assigning, modal hidden, nothing claimed. */
  function Start(): (u: Dialog)
    ensures Inv(u) && !u.assignMode && !u.modalOpen && u.target.None? && |u.taken.slots| == 0
  {
    Dialog(false, false, None, Empty(), NoLetter, map[], seq(LetterCount, _ => true), true)
  }

  /** May `l` take letter `c`: nobody owns it, or `l` does. */
  predicate Free(taken: Dict<char, LabelId>, c: char, l: Option<LabelId>)
  {
    Get(taken, c).None? || Get(taken, c) == l
  }

  /** `PrepareLetterButtons`: a button is interactable exactly when its letter
      is free for the current target; confirm starts disabled. */
  function PrepareLetterButtons(u: Dialog): (r: Dialog)
    ensures r == u.(selectable := r.selectable, confirmEnabled := false)
    ensures |r.selectable| == LetterCount
    ensures forall i | 0 <= i < LetterCount :: r.selectable[i] <==> Free(u.taken, LetterAt(i), u.target)
  {
    u.(selectable := seq(LetterCount, i requires 0 <= i < LetterCount =>
                           !(HasKey(u.taken, LetterAt(i)) && Get(u.taken, LetterAt(i)) != u.target)),
       confirmEnabled := false)
  }

  /** `CloseModal`: hide the modal, drop the preview and the target. */
  function CloseModal(u: Dialog): (r: Dialog)
    ensures !r.modalOpen && r.preview == NoLetter && r.target.None?
    ensures r == u.(modalOpen := false, preview := NoLetter, target := None)
  {
    u.(modalOpen := false, preview := NoLetter, target := None)
  }

  /** `OnMotorClicked`: outside assign mode nothing happens; inside it the
      clicked label becomes the target and the modal opens with no preview. */
  function OnMotorClicked(u: Dialog, l: LabelId): (r: Dialog)
    requires Inv(u)
    ensures Inv(r) && r.taken == u.taken && r.shown == u.shown
    ensures !u.assignMode ==> r == u
    ensures u.assignMode ==>
      && r.target == Some(l) && r.preview == NoLetter && r.modalOpen && !r.confirmEnabled
      && forall i | 0 <= i < LetterCount :: r.selectable[i] <==> Free(u.taken, LetterAt(i), Some(l))
  {
    if !u.assignMode then u
    else PrepareLetterButtons(u.(target := Some(l), preview := NoLetter)).(modalOpen := true)
  }

  /** `SetAssignMode`: the current value is a no-op; leaving assign mode
      closes the modal. */
  function SetAssignMode(u: Dialog, enable: bool): (r: Dialog)
    ensures enable == u.assignMode ==> r == u
    ensures enable != u.assignMode ==> r.assignMode == enable && r.taken == u.taken
    ensures enable != u.assignMode && !enable ==> r == CloseModal(u.(assignMode := false))
    ensures enable != u.assignMode && enable ==> r == u.(assignMode := true)
  {
    if enable == u.assignMode then u
    else
      var u1 := u.(assignMode := enable);
      if !enable then CloseModal(u1) else u1
  }

  /** `ToggleAssignMode`, the set-motor button. */
  function ToggleAssignMode(u: Dialog): (r: Dialog)
    ensures r.assignMode == !u.assignMode && r.taken == u.taken
  {
    SetAssignMode(u, !u.assignMode)
  }

  /** `HighlightSelectedButton`: confirm becomes enabled when `c` is the
      letter of an interactable button. */
  function HighlightSelectedButton(u: Dialog, c: char): (r: Dialog)
    requires |u.selectable| == LetterCount
    ensures r == u.(confirmEnabled := r.confirmEnabled)
    ensures r.confirmEnabled <==>
      u.confirmEnabled || exists i | 0 <= i < LetterCount :: LetterAt(i) == c && u.selectable[i]
  {
    u.(confirmEnabled := u.confirmEnabled || exists i | 0 <= i < LetterCount :: LetterAt(i) == c && u.selectable[i])
  }

  /** `OnLetterPreview`: with no target, or a letter owned by another label,
      nothing happens; otherwise the letter is previewed and shown on the
      target. */
  function OnLetterPreview(u: Dialog, c: char): (r: Dialog)
    requires Inv(u)
    ensures Inv(r) && r.taken == u.taken && r.target == u.target
    ensures u.target.None? || !Free(u.taken, c, u.target) ==> r == u
    ensures u.target.Some? && Free(u.taken, c, u.target) ==>
      r.preview == c && r.shown == u.shown[u.target.value := c]
  {
    match u.target
    case None => u
    case Some(t) =>
      if Get(u.taken, c).Some? && Get(u.taken, c) != u.target then u
      else HighlightSelectedButton(u.(preview := c, shown := u.shown[t := c]), c)
  }

  /** The taken letters after `t` claims `c`: its old claim, the first found,
      is released and `c` is mapped to `t`. */
  function Claim(taken: Dict<char, LabelId>, t: LabelId, c: char): (r: Dict<char, LabelId>)
    requires Valid(taken)
  {
    var released := match FirstKeyOf(taken, t)
      case None => taken
      case Some(k) => Remove(taken, k);
    Set(released, c, t)
  }

  /** `ConfirmSelection`: with no target or no preview only the modal
      closes; otherwise the target's claim moves to the previewed letter. */
  function ConfirmSelection(u: Dialog): (r: Dialog)
    requires Inv(u)
    ensures r == CloseModal(u.(taken := r.taken))
    ensures u.target.None? || u.preview == NoLetter ==> r.taken == u.taken
    ensures u.target.Some? && u.preview != NoLetter ==> r.taken == Claim(u.taken, u.target.value, u.preview)
  {
    if u.target.None? || u.preview == NoLetter then CloseModal(u)
    else CloseModal(u.(taken := Claim(u.taken, u.target.value, u.preview)))
  }

  /** `CancelSelection`: the target shows its committed letter again, or '?'
      when it has none; the claims stay as they were. */
  function CancelSelection(u: Dialog): (r: Dialog)
    requires Inv(u)
    ensures Inv(r) && r.taken == u.taken
    ensures !r.modalOpen && r.target.None? && r.preview == NoLetter
    ensures u.target.Some? ==>
      r.shown == u.shown[u.target.value := FirstKeyOf(u.taken, u.target.value).GetOr(Unassigned)]
    ensures u.target.None? ==> r.shown == u.shown
  {
    match u.target
    case None => CloseModal(u)
    case Some(t) =>
      CloseModal(u.(shown := u.shown[t := FirstKeyOf(u.taken, t).GetOr(Unassigned)]))
  }

  /** A claim keeps every letter with one owner and every owner with one
      letter; afterwards `c` is `t`'s, `t`'s old letter is free, and every
      other letter keeps its owner. */
  lemma ClaimKeepsOneEach(taken: Dict<char, LabelId>, t: LabelId, c: char, other: char)
    requires Valid(taken) && Injective(taken)
    ensures var r := Claim(taken, t, c);
      && Valid(r) && Injective(r)
      && Get(r, c) == Some(t)
      && FirstKeyOf(r, t) == Some(c)
      && (other != c ==>
            Get(r, other) == if Get(taken, other) == Some(t) then None else Get(taken, other))
  {
    var released := match FirstKeyOf(taken, t)
      case None => taken
      case Some(k) => Remove(taken, k);
    assert Valid(released) && Injective(released) && !HasValue(released, t) by {
      match FirstKeyOf(taken, t)
      case None =>
      case Some(k) =>
        RemoveInjective(taken, k);
        RemoveOwner(taken, k, t);
    }
    assert Get(released, other) == if Get(taken, other) == Some(t) then None else Get(taken, other) by {
      match FirstKeyOf(taken, t)
      case None =>
        if Get(taken, other) == Some(t) {
          HoldsHasValue(taken, other, t);
        }
      case Some(k) =>
        RemoveGet(taken, k, other);
        if other == k {
          GetOfEntry(taken, k, t);
        } else if Get(taken, other) == Some(t) {
          SameValueSameKey(taken, other, k, t);
        }
    }
    var r := Set(released, c, t);
    SetGet(released, c, t, c);
    SetGet(released, c, t, other);
    SetInjective(released, c, t);
    OnlyOwner(r, t, c);
  }

  /** In an injective dictionary the one entry holding `v` is the first. */
  lemma OnlyOwner(d: Dict<char, LabelId>, v: LabelId, k: char)
    requires Injective(d) && Holds(d, k, v)
    ensures FirstKeyOf(d, v) == Some(k)
  {
    HoldsHasValue(d, k, v);
    var f := FirstKeyOf(d, v);
    SameValueSameKey(d, f.value, k, v);
  }

  /** Confirming a preview keeps the invariant and hands the letter over. */
  lemma ConfirmKeepsInv(u: Dialog)
    requires Inv(u)
    ensures Inv(ConfirmSelection(u))
    ensures u.target.Some? && u.preview != NoLetter ==>
      var r := ConfirmSelection(u);
      Get(r.taken, u.preview) == u.target && FirstKeyOf(r.taken, u.target.value) == Some(u.preview)
  {
    if u.target.Some? && u.preview != NoLetter {
      ClaimKeepsOneEach(u.taken, u.target.value, u.preview, u.preview);
    }
  }

  /** Confirm stays disabled after a motor click until a letter on an
      interactable button is previewed, and that preview enables it. */
  lemma ConfirmEnabledByPreview(u: Dialog, l: LabelId, c: char)
    requires Inv(u) && u.assignMode
    ensures var v := OnMotorClicked(u, l);
      && !v.confirmEnabled
      && (OnLetterPreview(v, c).confirmEnabled <==>
            exists i | 0 <= i < LetterCount :: LetterAt(i) == c && Free(u.taken, c, Some(l)))
  {
    var v := OnMotorClicked(u, l);
    if Free(u.taken, c, Some(l)) {
      assert OnLetterPreview(v, c) == HighlightSelectedButton(v.(preview := c, shown := v.shown[l := c]), c);
      if exists i | 0 <= i < LetterCount :: LetterAt(i) == c {
        var i :| 0 <= i < LetterCount && LetterAt(i) == c;
        assert v.selectable[i];
      }
    }
  }
}
