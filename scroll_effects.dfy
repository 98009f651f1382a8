/**
 * The four `scroll` listeners of script.js, as functions of the page's visual state,
 * the vertical offset and the viewport width: the navbar's `scrolled` class, the mobile
 * bar's transform (touched only on narrow viewports), the back-to-top button's
 * visibility (the button exists only if the viewport was wide at load), and the
 * one-shot listener that fades out the scroll indicator.
 */
module ScrollEffects {
  import opened Common

  const NavbarThreshold := 100
  const IndicatorThreshold := 200
  const MobileBarThreshold := 300
  const BackToTopThreshold := 500
  const MobileMaxWidth := 768

  const BarShown := "translateY(0)"
  const BarHidden := "translateY(100%)"

  /**
   * The scroll indicator: whether its `{ once: true }` listener is still registered,
   * whether its opacity was set to 0, whether the 300 ms hide timer is pending, and
   * whether `display: none` was applied.
   */
  datatype Indicator = Indicator(listening: bool, faded: bool, hideScheduled: bool, removed: bool)

  /** What the listeners write: `backToTop` is the button's visibility, `None` if it was never created. */
  datatype Page = Page(navbarScrolled: bool, barTransform: string, backToTop: Option<bool>, indicator: Option<Indicator>)

  datatype ScrollEvent = ScrollEvent(offset: int, width: int)

  const FreshIndicator := Indicator(true, false, false, false)

  /** The state at load: the back-to-top button is created, hidden, only on a viewport wider than 768. */
  function AtLoad(width: int, navbarScrolled: bool, barTransform: string, hasIndicator: bool): (p: Page)
    ensures p.backToTop.Some? <==> width > MobileMaxWidth
    ensures p.backToTop.Some? ==> !p.backToTop.value
    ensures p.indicator.Some? <==> hasIndicator
    ensures hasIndicator ==> p.indicator.value.listening && !p.indicator.value.faded
    ensures hasIndicator ==> !p.indicator.value.hideScheduled && !p.indicator.value.removed
    ensures p.navbarScrolled == navbarScrolled && p.barTransform == barTransform
  {
    Page(navbarScrolled, barTransform,
         if width > MobileMaxWidth then Some(false) else None,
         if hasIndicator then Some(FreshIndicator) else None)
  }

  /**
   * The indicator's listener runs on the first scroll event only. If that offset exceeds
   * 200 it sets the opacity to 0 and schedules the 300 ms hide; otherwise it only unregisters.
   */
  function IndicatorAfterScroll(ind: Indicator, offset: int): (r: Indicator)
    ensures !r.listening
    ensures !ind.listening ==> r == ind
    ensures ind.listening ==> (r.faded <==> ind.faded || offset > IndicatorThreshold)
    ensures ind.listening && offset > IndicatorThreshold ==> r.faded && r.hideScheduled
    ensures ind.listening && offset <= IndicatorThreshold ==> r == ind.(listening := false)
    ensures r.removed == ind.removed
  {
    if !ind.listening then ind
    else if offset > IndicatorThreshold then Indicator(false, true, true, ind.removed)
    else ind.(listening := false)
  }

  /** The navbar listener: `scrolled` is added above 100 and removed otherwise, whatever it was. */
  function NavbarAfterScroll(offset: int): (scrolled: bool)
    ensures scrolled <==> offset > NavbarThreshold
  {
    offset > NavbarThreshold
  }

  /** The mobile bar listener: only a viewport of at most 768 pixels has its transform written. */
  function BarAfterScroll(transform: string, offset: int, width: int): (r: string)
    ensures width > MobileMaxWidth ==> r == transform
    ensures width <= MobileMaxWidth ==> (r == BarShown <==> offset > MobileBarThreshold)
    ensures width <= MobileMaxWidth ==> (r == BarHidden <==> offset <= MobileBarThreshold)
  {
    if width <= MobileMaxWidth then
      (if offset > MobileBarThreshold then BarShown else BarHidden)
    else transform
  }

  /** The back-to-top listener, registered only if the button was created. */
  function BackToTopAfterScroll(button: Option<bool>, offset: int): (r: Option<bool>)
    ensures r.Some? <==> button.Some?
    ensures r.Some? ==> (r.value <==> offset > BackToTopThreshold)
  {
    match button
    case None => None
    case Some(_) => Some(offset > BackToTopThreshold)
  }

  /** One scroll event: the four listeners each update their own element. */
  function OnScroll(p: Page, e: ScrollEvent): (r: Page)
    ensures r.navbarScrolled == NavbarAfterScroll(e.offset)
    ensures r.barTransform == BarAfterScroll(p.barTransform, e.offset, e.width)
    ensures r.backToTop == BackToTopAfterScroll(p.backToTop, e.offset)
    ensures r.indicator.Some? <==> p.indicator.Some?
    ensures p.indicator.Some? ==> r.indicator.value == IndicatorAfterScroll(p.indicator.value, e.offset)
  {
    Page(NavbarAfterScroll(e.offset),
         BarAfterScroll(p.barTransform, e.offset, e.width),
         BackToTopAfterScroll(p.backToTop, e.offset),
         if p.indicator.Some? then Some(IndicatorAfterScroll(p.indicator.value, e.offset)) else None)
  }

  /** The indicator's 300 ms timer fires: the indicator is taken out of the layout. */
  function OnHideTimer(p: Page): (r: Page)
    requires p.indicator.Some? && p.indicator.value.hideScheduled
    ensures r.indicator.Some? && r.indicator.value.removed && !r.indicator.value.hideScheduled
    ensures r.indicator.value.faded == p.indicator.value.faded
    ensures r.indicator == Some(p.indicator.value.(hideScheduled := false, removed := true))
    ensures r.(indicator := p.indicator) == p
  {
    p.(indicator := Some(p.indicator.value.(hideScheduled := false, removed := true)))
  }

  /** A sequence of scroll events, in order. */
  function ScrollRun(p: Page, events: seq<ScrollEvent>): Page
    decreases |events|
  {
    if events == [] then p else ScrollRun(OnScroll(p, events[0]), events[1..])
  }

  /** Firing the listeners again at the same offset and width changes nothing. */
  lemma OnScrollIdempotent(p: Page, e: ScrollEvent)
    ensures OnScroll(OnScroll(p, e), e) == OnScroll(p, e)
  {
  }

  /** The state after the listeners does not depend on the state before, apart from what exists and the wide-viewport bar. */
  lemma OnScrollForgets(p: Page, q: Page, e: ScrollEvent)
    requires p.backToTop.Some? <==> q.backToTop.Some?
    ensures OnScroll(p, e).navbarScrolled == OnScroll(q, e).navbarScrolled
    ensures OnScroll(p, e).backToTop == OnScroll(q, e).backToTop
    ensures e.width <= MobileMaxWidth ==> OnScroll(p, e).barTransform == OnScroll(q, e).barTransform
  {
  }

  lemma {:induction false} ScrollRunSnoc(p: Page, events: seq<ScrollEvent>, e: ScrollEvent)
    ensures ScrollRun(p, events + [e]) == OnScroll(ScrollRun(p, events), e)
    decreases |events|
  {
    if events == [] {
      assert [] + [e] == [e];
    } else {
      assert (events + [e])[1..] == events[1..] + [e];
      ScrollRunSnoc(OnScroll(p, events[0]), events[1..], e);
    }
  }

  /** After any sequence of scrolls, the navbar and the back-to-top button reflect the last offset only. */
  lemma LastScrollDecides(p: Page, events: seq<ScrollEvent>, e: ScrollEvent)
    ensures ScrollRun(p, events + [e]).navbarScrolled <==> e.offset > NavbarThreshold
    ensures p.backToTop.Some? ==> ScrollRun(p, events + [e]).backToTop == Some(e.offset > BackToTopThreshold)
  {
    ScrollRunSnoc(p, events, e);
    if p.backToTop.Some? {
      BackToTopPersists(p, events);
    }
  }

  /** The back-to-top button, once created, stays; once absent, never appears. */
  lemma {:induction false} BackToTopPersists(p: Page, events: seq<ScrollEvent>)
    ensures ScrollRun(p, events).backToTop.Some? <==> p.backToTop.Some?
    decreases |events|
  {
    if events != [] {
      BackToTopPersists(OnScroll(p, events[0]), events[1..]);
    }
  }

  /** Once its listener has run, the indicator is untouched by any further scrolling. */
  lemma {:induction false} SpentIndicatorUnchanged(p: Page, events: seq<ScrollEvent>)
    requires p.indicator.Some? && !p.indicator.value.listening
    ensures ScrollRun(p, events).indicator == p.indicator
    decreases |events|
  {
    if events != [] {
      SpentIndicatorUnchanged(OnScroll(p, events[0]), events[1..]);
    }
  }

  /**
   * One-shot: from load, after any non-empty run of scrolls, the indicator has faded,
   * and its hide has been scheduled, exactly when the FIRST scroll event was past 200,
   * whatever came after.
   */
  lemma IndicatorOneShot(p: Page, events: seq<ScrollEvent>)
    requires p.indicator == Some(FreshIndicator)
    requires events != []
    ensures ScrollRun(p, events).indicator.Some?
    ensures !ScrollRun(p, events).indicator.value.listening
    ensures ScrollRun(p, events).indicator.value.faded <==> events[0].offset > IndicatorThreshold
    ensures ScrollRun(p, events).indicator.value.hideScheduled <==> events[0].offset > IndicatorThreshold
    ensures !ScrollRun(p, events).indicator.value.removed
  {
    var q := OnScroll(p, events[0]);
    assert ScrollRun(p, events) == ScrollRun(q, events[1..]);
    SpentIndicatorUnchanged(q, events[1..]);
  }
}
