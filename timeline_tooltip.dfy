/** The tooltip of one `TimelineEntry` dot: hovering shows it, a click locks
    it open, and while it is locked hovering is ignored. */
module TimelineTooltip {

  /** The three pointer handlers on the dot. */
  datatype PointerEvent = MouseEnter | MouseLeave | Click

  /** The two state variables of a `TimelineEntry`. */
  datatype TooltipState = TooltipState(showTooltip: bool, isTooltipLocked: bool) {
    /** The tooltip is rendered when either flag is set. */
    predicate Visible() {
      showTooltip || isTooltipLocked
    }
  }

  /** Both state variables start out false. */
  const Initial := TooltipState(false, false)

  /** The transition of one handler. Hover events never touch the lock and
      are ignored while it is set; while unlocked the tooltip is drawn exactly
      after a mouse-enter. A click flips the lock and only the lock. */
  function Next(s: TooltipState, ev: PointerEvent): (r: TooltipState)
    ensures ev != Click ==> r.isTooltipLocked == s.isTooltipLocked
    ensures ev != Click && s.isTooltipLocked ==> r == s
    ensures ev != Click && !s.isTooltipLocked ==> (r.Visible() <==> ev == MouseEnter)
    ensures ev == Click ==> r.showTooltip == s.showTooltip && r.isTooltipLocked == !s.isTooltipLocked
  {
    match ev
    case MouseEnter => if s.isTooltipLocked then s else s.(showTooltip := true)
    case MouseLeave => if s.isTooltipLocked then s else s.(showTooltip := false)
    case Click => s.(isTooltipLocked := !s.isTooltipLocked)
  }

  /** The state after handling `evs` in order. */
  function Run(s: TooltipState, evs: seq<PointerEvent>): TooltipState
    decreases evs
  {
    if evs == [] then s else Run(Next(s, evs[0]), evs[1..])
  }

  function Clicks(evs: seq<PointerEvent>): nat {
    if evs == [] then 0 else (if evs[0] == Click then 1 else 0) + Clicks(evs[1..])
  }

  /** While locked, no sequence of hover events changes anything. */
  lemma {:induction false} LockedIgnoresHover(s: TooltipState, evs: seq<PointerEvent>)
    requires s.isTooltipLocked
    requires Click !in evs
    ensures Run(s, evs) == s
    ensures Run(s, evs).Visible()
    decreases evs
  {
    if evs != [] {
      assert evs[0] in evs;
      assert forall e :: e in evs[1..] ==> e in evs;
      LockedIgnoresHover(Next(s, evs[0]), evs[1..]);
    }
  }

  /** Every click toggles the lock: the lock is flipped exactly when the
      number of clicks is odd. Hover never touches it. */
  lemma {:induction false} ClicksToggleLock(s: TooltipState, evs: seq<PointerEvent>)
    ensures Run(s, evs).isTooltipLocked == (s.isTooltipLocked != (Clicks(evs) % 2 == 1))
    decreases evs
  {
    if evs != [] {
      ClicksToggleLock(Next(s, evs[0]), evs[1..]);
    }
  }

  /** While unlocked, the tooltip follows the pointer: after a non-empty run of
      hover events it is visible exactly when the last one was a mouse-enter. */
  lemma {:induction false} UnlockedFollowsPointer(s: TooltipState, evs: seq<PointerEvent>)
    requires !s.isTooltipLocked
    requires evs != [] && Click !in evs
    ensures !Run(s, evs).isTooltipLocked
    ensures Run(s, evs).Visible() <==> evs[|evs| - 1] == MouseEnter
    decreases evs
  {
    assert evs[0] in evs;
    if |evs| > 1 {
      assert forall e :: e in evs[1..] ==> e in evs;
      UnlockedFollowsPointer(Next(s, evs[0]), evs[1..]);
    }
  }

  /** The dot's tooltip state as the component holds it. */
  class EntryTooltip {
    var showTooltip: bool
    var isTooltipLocked: bool

    function State(): TooltipState
      reads this
    {
      TooltipState(showTooltip, isTooltipLocked)
    }

    /** Whether the tooltip is drawn. */
    predicate IsVisible()
      reads this
    {
      State().Visible()
    }

    constructor ()
      ensures State() == Initial && !IsVisible()
    {
      showTooltip, isTooltipLocked := false, false;
    }

    /** Mouse-enter shows the tooltip unless it is locked. */
    method OnMouseEnter()
      modifies this
      ensures State() == Next(old(State()), MouseEnter)
    {
      if !isTooltipLocked {
        showTooltip := true;
      }
    }

    /** Mouse-leave hides the tooltip unless it is locked. */
    method OnMouseLeave()
      modifies this
      ensures State() == Next(old(State()), MouseLeave)
    {
      if !isTooltipLocked {
        showTooltip := false;
      }
    }

    /** A click flips the lock. */
    method OnClick()
      modifies this
      ensures State() == Next(old(State()), Click)
      ensures IsVisible() <== isTooltipLocked
    {
      isTooltipLocked := !isTooltipLocked;
    }
  }
}
