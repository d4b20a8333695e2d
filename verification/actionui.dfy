/** The confirm / cancel panel shown during a connection preview. A click
    raises a request flag; the connection controller polls it once per frame
    and each request is delivered at most once. */
module ActionUi {
  datatype Panel = Panel(visible: bool, confirmRequested: bool, cancelRequested: bool)

  /** `SetVisible`: showing or hiding the panel drops any pending request. */
  function SetVisible(p: Panel, visible: bool): (r: Panel)
    ensures r.visible == visible && !r.confirmRequested && !r.cancelRequested
  {
    Panel(visible, false, false)
  }

  /** `Awake`: the panel starts hidden with nothing pending, whatever it held. */
  function Awake(p: Panel): (r: Panel)
    ensures r == Panel(false, false, false)
  {
    SetVisible(p, false)
  }

  function OnConfirmClicked(p: Panel): (r: Panel)
    ensures r.confirmRequested && r.cancelRequested == p.cancelRequested && r.visible == p.visible
  {
    p.(confirmRequested := true)
  }

  function OnCancelClicked(p: Panel): (r: Panel)
    ensures r.cancelRequested && r.confirmRequested == p.confirmRequested && r.visible == p.visible
  {
    p.(cancelRequested := true)
  }

  /** `ConsumeConfirm`: reports whether a confirm was pending and clears it. */
  function ConsumeConfirm(p: Panel): (r: (bool, Panel))
    ensures r.0 == p.confirmRequested
    ensures !r.1.confirmRequested
    ensures r.1.cancelRequested == p.cancelRequested && r.1.visible == p.visible
  {
    if !p.confirmRequested then (false, p) else (true, p.(confirmRequested := false))
  }

  /** `ConsumeCancel`: reports whether a cancel was pending and clears it. */
  function ConsumeCancel(p: Panel): (r: (bool, Panel))
    ensures r.0 == p.cancelRequested
    ensures !r.1.cancelRequested
    ensures r.1.confirmRequested == p.confirmRequested && r.1.visible == p.visible
  {
    if !p.cancelRequested then (false, p) else (true, p.(cancelRequested := false))
  }

  /** One click, one delivery: the first poll after a click fires and the next
      one does not. */
  lemma ConfirmFiresOnce(p: Panel)
    ensures var (first, q) := ConsumeConfirm(OnConfirmClicked(p));
      first && ConsumeConfirm(q) == (false, q)
    ensures var (first, q) := ConsumeCancel(OnCancelClicked(p));
      first && ConsumeCancel(q) == (false, q)
  {
  }

  /** Polling with nothing pending changes nothing. */
  lemma ConsumeIdle(p: Panel)
    ensures !p.confirmRequested ==> ConsumeConfirm(p) == (false, p)
    ensures !p.cancelRequested ==> ConsumeCancel(p) == (false, p)
  {
  }

  /** The two requests do not interfere: consuming one leaves the other
      deliverable, in either order. */
  lemma RequestsIndependent(p: Panel)
    ensures ConsumeCancel(ConsumeConfirm(p).1).0 == p.cancelRequested
    ensures ConsumeConfirm(ConsumeCancel(p).1).0 == p.confirmRequested
    ensures ConsumeCancel(ConsumeConfirm(p).1).1 == ConsumeConfirm(ConsumeCancel(p).1).1
  {
  }

  /** A request made before the panel is shown or hidden is never delivered. */
  lemma SetVisibleDropsRequests(p: Panel, v: bool)
    ensures ConsumeConfirm(SetVisible(p, v)).0 == false
    ensures ConsumeCancel(SetVisible(p, v)).0 == false
  {
  }
}
