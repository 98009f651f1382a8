/**
 * The mobile menu (script.js): two `active` classes, one on the navigation menu
 * and one on its toggle button. A toggle click flips both; a click on a menu link,
 * or a click anywhere outside both elements, removes both.
 */
module MobileMenu {

  datatype Flags = Flags(menuActive: bool, toggleActive: bool)

  const Closed := Flags(false, false)

  /** The toggle's listener: `classList.toggle('active')` on the menu and on the toggle. */
  function Toggled(f: Flags): (r: Flags)
    ensures r != f
    ensures f.menuActive == f.toggleActive <==> r.menuActive == r.toggleActive
  {
    Flags(!f.menuActive, !f.toggleActive)
  }

  /** The document's listener: it closes the menu only for a click outside both elements. */
  function AfterDocumentClick(f: Flags, inMenu: bool, inToggle: bool): (r: Flags)
    ensures inMenu || inToggle ==> r == f
    ensures !inMenu && !inToggle ==> r == Closed
  {
    if !inMenu && !inToggle then Closed else f
  }

  /** Where a click lands: on the toggle, on a menu link, elsewhere in the menu, or outside both. */
  datatype Target = OnToggle | OnLink | InMenu | Outside

  /**
   * The whole effect of one click: the target's own listener first, then the document's
   * listener as the event bubbles up.
   */
  function Click(f: Flags, t: Target): (r: Flags)
    ensures t == OnToggle ==> r == Toggled(f)
    ensures t == OnLink || t == Outside ==> r == Closed
    ensures t == InMenu ==> r == f
  {
    match t
    case OnToggle => AfterDocumentClick(Toggled(f), false, true)
    case OnLink => AfterDocumentClick(Closed, true, false)
    case InMenu => AfterDocumentClick(f, true, false)
    case Outside => AfterDocumentClick(f, false, false)
  }

  /** The flags after a sequence of clicks, each applied in order. */
  function Run(f: Flags, clicks: seq<Target>): Flags
    decreases |clicks|
  {
    if clicks == [] then f else Run(Click(f, clicks[0]), clicks[1..])
  }

  /** Two toggle clicks restore the flags. */
  lemma ToggleTwiceRestores(f: Flags)
    ensures Run(f, [OnToggle, OnToggle]) == f
  {
    assert [OnToggle, OnToggle][1..] == [OnToggle];
  }

  /** Closing twice is closing once, from any state. */
  lemma CloseIdempotent(f: Flags, t: Target, u: Target)
    requires t == OnLink || t == Outside
    requires u == OnLink || u == Outside
    ensures Run(f, [t, u]) == Run(f, [t]) == Closed
  {
    assert [t, u][1..] == [u];
    assert [u][1..] == [] && [t][1..] == [];
    assert Run(f, [t]) == Run(Closed, []) == Closed;
    assert Run(f, [t, u]) == Run(Closed, [u]) == Run(Closed, []);
  }

  /** One more click on the end of a sequence acts on the flags the sequence left. */
  lemma {:induction false} RunSnoc(f: Flags, clicks: seq<Target>, t: Target)
    ensures Run(f, clicks + [t]) == Click(Run(f, clicks), t)
    decreases |clicks|
  {
    if clicks == [] {
      assert [] + [t] == [t];
    } else {
      assert (clicks + [t])[1..] == clicks[1..] + [t];
      RunSnoc(Click(f, clicks[0]), clicks[1..], t);
    }
  }

  /** A sequence whose last click is on a link or outside always leaves the menu closed. */
  lemma LastCloseWins(f: Flags, clicks: seq<Target>, t: Target)
    requires t == OnLink || t == Outside
    ensures Run(f, clicks + [t]) == Closed
  {
    RunSnoc(f, clicks, t);
  }

  /** Flags that start equal stay equal, whatever the clicks. */
  lemma {:induction false} EqualFlagsStayEqual(f: Flags, clicks: seq<Target>)
    requires f.menuActive == f.toggleActive
    ensures Run(f, clicks).menuActive == Run(f, clicks).toggleActive
    decreases |clicks|
  {
    if clicks != [] {
      EqualFlagsStayEqual(Click(f, clicks[0]), clicks[1..]);
    }
  }

  /** The two elements' `active` classes, changed in place by the three listeners. */
  class Menu {
    var menuActive: bool
    var toggleActive: bool

    function State(): Flags
      reads this
    {
      Flags(menuActive, toggleActive)
    }

    constructor (initial: Flags)
      ensures State() == initial
    {
      menuActive := initial.menuActive;
      toggleActive := initial.toggleActive;
    }

    /** The toggle's click listener. */
    method OnToggleClick()
      modifies this
      ensures State() == Toggled(old(State()))
    {
      menuActive := !menuActive;
      toggleActive := !toggleActive;
    }

    /** A menu link's click listener. */
    method OnLinkClick()
      modifies this
      ensures State() == Closed
    {
      menuActive := false;
      toggleActive := false;
    }

    /** The document's click listener, given whether the target lies in the menu or the toggle. */
    method OnDocumentClick(inMenu: bool, inToggle: bool)
      modifies this
      ensures State() == AfterDocumentClick(old(State()), inMenu, inToggle)
    {
      if !inMenu && !inToggle {
        menuActive := false;
        toggleActive := false;
      }
    }

    /** One click, dispatched to the target's listener and then to the document's. */
    method Dispatch(t: Target)
      modifies this
      ensures State() == Click(old(State()), t)
    {
      match t
      case OnToggle =>
        OnToggleClick();
        OnDocumentClick(false, true);
      case OnLink =>
        OnLinkClick();
        OnDocumentClick(true, false);
      case InMenu =>
        OnDocumentClick(true, false);
      case Outside =>
        OnDocumentClick(false, false);
    }
  }
}
