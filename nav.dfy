/**
 * The navigation bar: which item is active, whether the mobile menu is open,
 * and whether the bar is shown on narrow screens, where it hides while the
 * hero section is on screen. Browser events (resize, intersection with the
 * hero, clicks, key presses, the end of the suppression timer) are the
 * methods of `NavBar`; the geometry they read is passed in.
 */
module Navigation {
  import opened Wrappers

  /** The widest viewport that still counts as mobile is one pixel below this. */
  const DesktopWidth := 1024

  /** The targets of the five navigation items, in display order. */
  const Items: seq<string> := ["#hero", "#skills", "#experience", "#project", "#contact"]

  /** An element's bounding rectangle, vertically. */
  datatype Rect = Rect(top: real, bottom: real)

  /** The hero overlaps the viewport of height `innerHeight`. */
  predicate HeroOnScreen(innerHeight: int, hero: Rect) {
    hero.bottom > 0.0 && hero.top < innerHeight as real
  }

  /**
   * `setInitial`: the bar is shown on wide viewports, and on narrow ones
   * exactly when the hero is off screen.
   */
  function InitialVisible(width: int, innerHeight: int, hero: Rect): (visible: bool)
    ensures width >= DesktopWidth ==> visible
    ensures width < DesktopWidth ==> (visible <==> !HeroOnScreen(innerHeight, hero))
  {
    if width >= DesktopWidth then true
    else !(hero.bottom > 0.0 && hero.top < innerHeight as real)
  }

  /**
   * The intersection observer's decision: on narrow viewports the bar is
   * shown exactly when the hero is not intersecting, on wide ones always.
   */
  function ObservedVisible(width: int, isIntersecting: bool): (visible: bool)
    ensures visible <==> width >= DesktopWidth || !isIntersecting
  {
    if width < DesktopWidth then !isIntersecting else true
  }

  /**
   * The observer and `setInitial` agree whenever the observer's verdict
   * matches the measured overlap of the hero with the viewport.
   */
  lemma ObserverAgreesWithInitial(width: int, innerHeight: int, hero: Rect, isIntersecting: bool)
    requires isIntersecting == HeroOnScreen(innerHeight, hero)
    ensures ObservedVisible(width, isIntersecting) == InitialVisible(width, innerHeight, hero)
  {
  }

  /** `(href || '').replace(/^#/, '')`: exactly one leading '#' is dropped. */
  function HashId(href: string): (id: string)
    ensures |href| > 0 && href[0] == '#' ==> id == href[1..]
    ensures !(|href| > 0 && href[0] == '#') ==> id == href
  {
    if |href| > 0 && href[0] == '#' then href[1..] else href
  }

  /** Prefixing a '#' and stripping it again gives back the id, even one that starts with '#'. */
  lemma HashIdRoundTrip(id: string)
    ensures HashId("#" + id) == id
  {
    assert ("#" + id)[1..] == id;
  }

  /** Every navigation item names a non-empty id, and no two name the same one. */
  lemma ItemIds()
    ensures forall i :: 0 <= i < |Items| ==> HashId(Items[i]) != []
    ensures forall i, j :: 0 <= i < j < |Items| ==> HashId(Items[i]) != HashId(Items[j])
  {
    assert HashId(Items[0]) == "hero";
    assert HashId(Items[1]) == "skills";
    assert HashId(Items[2]) == "experience";
    assert HashId(Items[3]) == "project";
    assert HashId(Items[4]) == "contact";
  }

  /** `Math.ceil`. */
  function Ceil(x: real): (n: int)
    ensures n as real - 1.0 < x <= n as real
  {
    -((-x).Floor)
  }

  /** The gap left between the header and the section scrolled to, in pixels. */
  const HeaderGap := 8

  /** How the page is scrolled. */
  datatype Scroll = ScrollTo(top: real) | ScrollIntoView | NoScroll

  /**
   * The scroll for a found element whose top is `elTop` in the viewport:
   * with a header of non-zero rounded-up height the section lands 8 pixels
   * below it; without one (or one of zero height) the element is aligned to
   * the top of the viewport.
   */
  function ScrollTarget(elTop: real, scrollY: real, header: Option<real>): (s: Scroll)
    ensures s != NoScroll
    ensures s.ScrollTo? <==> header.Some? && Ceil(header.value) != 0
    ensures s.ScrollTo? ==> s.top == elTop + scrollY - Ceil(header.value) as real - HeaderGap as real
  {
    var headerHeight := if header.Some? then Ceil(header.value) else 0;
    if headerHeight != 0 then ScrollTo(elTop + scrollY - headerHeight as real - HeaderGap as real)
    else ScrollIntoView
  }

  /** A header of positive height always gets its offset: the section never hides under it. */
  lemma ScrollClearsHeader(elTop: real, scrollY: real, height: real)
    requires height > 0.0
    ensures ScrollTarget(elTop, scrollY, Some(height)).ScrollTo?
    ensures ScrollTarget(elTop, scrollY, Some(height)).top + height + HeaderGap as real <= elTop + scrollY
  {
  }

  /**
   * The state of one `Nav` component. `width` is the viewport width the last
   * resize reported (what `window.innerWidth` reads between resizes);
   * `timerPending` says whether the single suppression timer slot holds a
   * timer that has not fired yet.
   */
  class NavBar {
    const heroPresent: bool
    var open: bool
    var navVisible: bool
    var isMobile: bool
    var suppressAutoHide: bool
    var activeIndex: int
    var timerPending: bool
    var width: int

    /**
     * `isMobile` follows the width; on wide viewports and without a hero the
     * bar is shown; suppression lasts exactly as long as its timer; the
     * active index names one of the items.
     */
    ghost predicate Valid()
      reads this
    {
      && isMobile == (width < DesktopWidth)
      && (!isMobile ==> navVisible)
      && (!heroPresent ==> navVisible)
      && suppressAutoHide == timerPending
      && 0 <= activeIndex < |Items|
    }

    /**
     * Mounting: the resize effect sets `isMobile`, and the hero effect either
     * shows the bar (no hero) or runs `setInitial`.
     */
    constructor (hero: Option<Rect>, width: int, innerHeight: int)
      ensures heroPresent == hero.Some? && this.width == width
      ensures !open && !suppressAutoHide && !timerPending && activeIndex == 0
      ensures isMobile == (width < DesktopWidth)
      ensures navVisible == (hero.None? || InitialVisible(width, innerHeight, hero.value))
      ensures Valid()
    {
      heroPresent := hero.Some?;
      open := false;
      suppressAutoHide := false;
      timerPending := false;
      activeIndex := 0;
      this.width := width;
      isMobile := width < DesktopWidth;
      navVisible := hero.None? || InitialVisible(width, innerHeight, hero.value);
    }

    /**
     * The hero effect's body when it (re)runs: `setInitial` when the hero
     * exists, otherwise the bar is shown.
     */
    method RunHeroEffect(innerHeight: int, hero: Rect)
      modifies this`navVisible
      ensures navVisible == (!heroPresent || InitialVisible(width, innerHeight, hero))
    {
      if !heroPresent {
        navVisible := true;
        return;
      }
      navVisible := InitialVisible(width, innerHeight, hero);
    }

    /**
     * A window resize: `isMobile` is recomputed and `setInitial` runs,
     * whatever the suppression.
     */
    method Resize(newWidth: int, innerHeight: int, hero: Rect)
      requires Valid()
      modifies this
      ensures Valid()
      ensures width == newWidth && isMobile == (newWidth < DesktopWidth)
      ensures navVisible == (!heroPresent || InitialVisible(newWidth, innerHeight, hero))
      ensures open == old(open) && activeIndex == old(activeIndex)
      ensures suppressAutoHide == old(suppressAutoHide) && timerPending == old(timerPending)
    {
      width := newWidth;
      isMobile := newWidth < DesktopWidth;
      RunHeroEffect(innerHeight, hero);
    }

    /**
     * The observer reports whether the hero intersects the viewport. Without
     * a hero there is no observer, and while suppressed the report is
     * ignored; both leave everything unchanged.
     */
    method Intersection(isIntersecting: bool)
      requires Valid()
      modifies this
      ensures Valid()
      ensures !heroPresent || old(suppressAutoHide) ==> navVisible == old(navVisible)
      ensures heroPresent && !old(suppressAutoHide) ==> navVisible == ObservedVisible(width, isIntersecting)
      ensures open == old(open) && isMobile == old(isMobile) && width == old(width)
      ensures suppressAutoHide == old(suppressAutoHide) && timerPending == old(timerPending)
      ensures activeIndex == old(activeIndex)
    {
      if !heroPresent || suppressAutoHide {
        return;
      }
      navVisible := ObservedVisible(width, isIntersecting);
    }

    /**
     * `scrollToHash(href, idx)`, called by a click on item `idx`.
     * `targetTop` is the top of the element with the href's id, `None` when
     * there is none; `header` is the header's height when it is rendered;
     * `innerHeight` and `hero` are the geometry when the hero effect runs
     * again because suppression switched on.
     */
    method ScrollToHash(href: string, idx: Option<int>, targetTop: Option<real>, scrollY: real,
                        header: Option<real>, innerHeight: int, hero: Rect)
      returns (scroll: Scroll)
      requires Valid()
      requires idx.Some? ==> 0 <= idx.value < |Items|
      modifies this
      ensures Valid()
      ensures isMobile == old(isMobile) && width == old(width)
      // an empty id: back to the top, first item active, menu closed
      ensures HashId(href) == [] ==>
                && scroll == ScrollTo(0.0) && activeIndex == 0 && !open
                && suppressAutoHide == old(suppressAutoHide) && timerPending == old(timerPending)
                && navVisible == old(navVisible)
      // no such element: nothing changes
      ensures HashId(href) != [] && targetTop.None? ==>
                && scroll == NoScroll && open == old(open) && activeIndex == old(activeIndex)
                && suppressAutoHide == old(suppressAutoHide) && timerPending == old(timerPending)
                && navVisible == old(navVisible)
      // a found element: suppressed, scrolled to, made active, menu closed
      ensures HashId(href) != [] && targetTop.Some? ==>
                && suppressAutoHide && timerPending
                && scroll == ScrollTarget(targetTop.value, scrollY, header)
                && activeIndex == idx.GetOr(old(activeIndex))
                && !open
                && navVisible == if old(suppressAutoHide) then old(navVisible)
                                 else !heroPresent || InitialVisible(width, innerHeight, hero)
    {
      var id := HashId(href);
      if id == [] {
        scroll := ScrollTo(0.0);
        activeIndex := 0;
        open := false;
        return;
      }
      if targetTop.None? {
        scroll := NoScroll;
        return;
      }
      var wasSuppressed := suppressAutoHide;
      suppressAutoHide := true;
      // the pending timer, if any, is cleared and a fresh one set
      timerPending := true;
      scroll := ScrollTarget(targetTop.value, scrollY, header);
      activeIndex := idx.GetOr(activeIndex);
      open := false;
      if !wasSuppressed {
        // `suppressAutoHide` changed, so the hero effect runs again
        RunHeroEffect(innerHeight, hero);
      }
    }

    /**
     * The 800 ms suppression timer fires: suppression ends and the hero
     * effect runs again with the geometry at that moment.
     */
    method SuppressExpired(innerHeight: int, hero: Rect)
      requires Valid() && timerPending
      modifies this
      ensures Valid()
      ensures !suppressAutoHide && !timerPending
      ensures navVisible == (!heroPresent || InitialVisible(width, innerHeight, hero))
      ensures open == old(open) && isMobile == old(isMobile) && width == old(width)
      ensures activeIndex == old(activeIndex)
    {
      suppressAutoHide := false;
      timerPending := false;
      RunHeroEffect(innerHeight, hero);
    }

    /** A key press anywhere in the document: Escape closes the menu. */
    method KeyDown(key: string)
      requires Valid()
      modifies this`open
      ensures Valid()
      ensures open == (old(open) && key != "Escape")
    {
      if key == "Escape" {
        open := false;
      }
    }

    /** The backdrop or the menu's close button is clicked. */
    method CloseMenu()
      requires Valid()
      modifies this`open
      ensures Valid() && !open
    {
      open := false;
    }

    /** The hamburger button is clicked. */
    method ToggleMenu()
      requires Valid()
      modifies this`open
      ensures Valid() && open == !old(open)
    {
      open := !open;
    }
  }
}
