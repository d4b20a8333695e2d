/** The part-list filter: four category toggles of which at most one is on,
    and a part list showing either every part or only the parts of the
    chosen category. */
module PartFilter {

  datatype Category = All | Structure | Connector | Motion | Electronics

  /** The four toggles' on states. */
  datatype Toggles = Toggles(structure: bool, connector: bool, motion: bool, electronics: bool)
  {
    function IsOn(c: Category): bool
    {
      match c
      case All => false
      case Structure => structure
      case Connector => connector
      case Motion => motion
      case Electronics => electronics
    }

    function With(c: Category, on: bool): (t: Toggles)
      ensures t.IsOn(c) == (on && c != All)
      ensures forall d | d != c :: t.IsOn(d) == IsOn(d)
    {
      match c
      case All => this
      case Structure => this.(structure := on)
      case Connector => this.(connector := on)
      case Motion => this.(motion := on)
      case Electronics => this.(electronics := on)
    }
  }

  /** The filter's state: the chosen category, the re-entrancy flag, the
      toggles, and each list item's category and active flag. */
  datatype Filter = Filter(current: Category, updating: bool, toggles: Toggles,
                           items: seq<Category>, shown: seq<bool>)

  /** The toggles agree with the chosen category: exactly its toggle is on,
      none when it is All; the list has one active flag per item. */
  predicate Inv(f: Filter)
  {
    && !f.updating
    && (forall c: Category :: f.toggles.IsOn(c) <==> c != All && c == f.current)
    && |f.shown| == |f.items|
  }

  /** `SetOtherTogglesOff`: only the toggle of `except` stays on. */
  function SetOtherTogglesOff(except: Category): (t: Toggles)
    ensures forall c: Category :: t.IsOn(c) <==> c != All && c == except
  {
    Toggles(except == Structure, except == Connector, except == Motion, except == Electronics)
  }

  /** `FilterPartList`: an item is active when every category is shown or
      it belongs to the chosen one. */
  function FilterPartList(f: Filter): (r: Filter)
    ensures r == f.(shown := r.shown)
    ensures |r.shown| == |f.items|
    ensures forall i | 0 <= i < |f.items| :: r.shown[i] <==> f.current == All || f.items[i] == f.current
  {
    f.(shown := seq(|f.items|, i requires 0 <= i < |f.items| => f.current == All || f.items[i] == f.current))
  }

  /** `OnToggleChanged`: ignored while the toggles are being set; turning a
      toggle on chooses its category and turns the others off (their change
      events arrive while `updating` is set and are ignored); turning off
      the chosen category's toggle goes back to All. The list is filtered
      afterwards. */
  function OnToggleChanged(f: Filter, selected: Category, isOn: bool): (r: Filter)
    ensures f.updating ==> r == f
    ensures !f.updating && isOn ==>
      r.current == selected && forall c: Category :: r.toggles.IsOn(c) <==> c != All && c == selected
    ensures !f.updating && !isOn ==>
      r.toggles == f.toggles && r.current == (if f.current == selected then All else f.current)
    ensures !f.updating ==> r == FilterPartList(r) && r.updating == f.updating
  {
    if f.updating then f
    else
      var f1 := if isOn then f.(current := selected, toggles := SetOtherTogglesOff(selected))
                else if f.current == selected then f.(current := All)
                else f;
      FilterPartList(f1)
  }

  /** A click on one of the four toggles: it flips, and its change event
      runs. */
  function Click(f: Filter, selected: Category): (r: Filter)
    requires selected != All
  {
    var on := !f.toggles.IsOn(selected);
    OnToggleChanged(f.(toggles := f.toggles.With(selected, on)), selected, on)
  }

  /** A click keeps at most one toggle on, in step with the chosen
      category. */
  lemma ClickKeepsInv(f: Filter, selected: Category)
    requires Inv(f) && selected != All
    ensures Inv(Click(f, selected))
  {
    var on := !f.toggles.IsOn(selected);
    var t := f.toggles.With(selected, on);
    if !on {
      assert f.current == selected;
      forall c: Category
        ensures t.IsOn(c) <==> c != All && c == All
      {
      }
    }
  }

  /** Clicking a toggle that is off shows exactly its category's parts;
      clicking it again shows every part. */
  lemma ClickTwiceShowsAll(f: Filter, selected: Category)
    requires Inv(f) && selected != All && !f.toggles.IsOn(selected)
    ensures var once := Click(f, selected);
      && once.current == selected
      && (forall i | 0 <= i < |f.items| :: once.shown[i] <==> f.items[i] == selected)
    ensures var twice := Click(Click(f, selected), selected);
      && twice.current == All
      && (forall c: Category :: !twice.toggles.IsOn(c))
      && (forall i | 0 <= i < |f.items| :: twice.shown[i])
  {
    ClickKeepsInv(f, selected);
    ClickKeepsInv(Click(f, selected), selected);
  }
}
