/**
 * initializeThemeToggle: the `data-theme` attribute of the document element and the
 * value saved under the key 'theme'.
 */
module Theme {
  import opened Wrappers

  /** `localStorage.getItem('theme') || 'dark'`: a missing or empty saved value gives 'dark'. */
  function InitialTheme(saved: Option<string>): (t: string)
    ensures t != ""
    ensures saved.Some? && saved.value != "" ==> t == saved.value
    ensures saved.None? || saved.value == "" ==> t == "dark"
  {
    OrDefault(saved, "dark")
  }

  /** The theme a click switches to: 'dark' becomes 'light', anything else becomes 'dark'. */
  function NextTheme(current: string): (t: string)
    ensures t == "light" || t == "dark"
    ensures t == "light" <==> current == "dark"
  {
    if current == "dark" then "light" else "dark"
  }

  /** On the two known themes two clicks restore the theme. */
  lemma ToggleTwiceRestores(t: string)
    requires t == "dark" || t == "light"
    ensures NextTheme(NextTheme(t)) == t
  {
  }

  /** After one click any theme, even an unknown saved one, is one of the two known themes. */
  lemma ToggleSettles(t: string)
    ensures NextTheme(NextTheme(NextTheme(t))) == NextTheme(t)
  {
  }

  class ThemeToggle {
    /** The `#themeToggle` button exists, so the click listener was added. */
    const hasButton: bool
    /** The `data-theme` attribute of the document element. */
    var dataTheme: string
    /** The value saved under 'theme'. */
    var stored: Option<string>

    constructor (saved: Option<string>, hasButton: bool)
      ensures this.hasButton == hasButton
      ensures dataTheme == InitialTheme(saved) && stored == saved
    {
      this.hasButton := hasButton;
      dataTheme := InitialTheme(saved);
      stored := saved;
    }

    method OnClick()
      modifies this`dataTheme, this`stored
      ensures hasButton ==> dataTheme == NextTheme(old(dataTheme)) && stored == Some(dataTheme)
      ensures !hasButton ==> dataTheme == old(dataTheme) && stored == old(stored)
    {
      if hasButton {
        var newTheme := NextTheme(dataTheme);
        dataTheme := newTheme;
        stored := Some(newTheme);
      }
    }
  }
}

/** initializeBackToTop: the button is shown strictly below 300 px of scrolling. */
module BackToTop {

  const Threshold: int := 300

  predicate ShowsButton(pageYOffset: int) {
    pageYOffset > Threshold
  }

  /** Scrolling further down never hides a shown button; 300 itself does not show it. */
  lemma ShowsButtonMonotone(y: int, z: int)
    requires y <= z && ShowsButton(y)
    ensures ShowsButton(z) && !ShowsButton(Threshold)
  {
  }

  class BackToTopButton {
    /** The `#backToTop` element exists, so the scroll listener was added. */
    const present: bool
    /** The button has the class `visible`. */
    var visible: bool

    constructor (present: bool, visible: bool)
      ensures this.present == present && this.visible == visible
    {
      this.present := present;
      this.visible := visible;
    }

    method OnScroll(pageYOffset: int)
      modifies this`visible
      ensures present ==> visible == ShowsButton(pageYOffset)
      ensures !present ==> visible == old(visible)
    {
      if present {
        visible := ShowsButton(pageYOffset);
      }
    }
  }
}

/** initializeTouchGestures: a horizontal swipe longer than 50 px is logged as left or right. */
module Gestures {

  const SwipeThreshold: int := 50

  datatype Swipe = SwipeLeft | SwipeRight | NoSwipe

  function Abs(x: int): int {
    if x < 0 then -x else x
  }

  /** handleGesture's classification of diff = touchStartX - touchEndX. */
  function ClassifySwipe(startX: int, endX: int): (r: Swipe)
    ensures r == NoSwipe <==> -SwipeThreshold <= startX - endX <= SwipeThreshold
    ensures r == SwipeLeft <==> startX - endX > SwipeThreshold
    ensures r == SwipeRight <==> endX - startX > SwipeThreshold
  {
    var diff := startX - endX;
    if Abs(diff) > SwipeThreshold then
      if diff > 0 then SwipeLeft else SwipeRight
    else NoSwipe
  }

  /** Reversing a swipe reverses its direction. */
  lemma SwipeMirror(a: int, b: int)
    ensures ClassifySwipe(a, b) == SwipeLeft <==> ClassifySwipe(b, a) == SwipeRight
    ensures ClassifySwipe(a, b) == NoSwipe <==> ClassifySwipe(b, a) == NoSwipe
  {
  }

  class TouchTracker {
    var touchStartX: int
    var touchEndX: int
    /** The swipes handleGesture has logged. */
    var logged: seq<Swipe>

    constructor ()
      ensures touchStartX == 0 && touchEndX == 0 && logged == []
    {
      touchStartX := 0;
      touchEndX := 0;
      logged := [];
    }

    method OnTouchStart(screenX: int)
      modifies this`touchStartX
      ensures touchStartX == screenX
    {
      touchStartX := screenX;
    }

    method OnTouchEnd(screenX: int)
      modifies this`touchEndX, this`logged
      ensures touchEndX == screenX
      ensures ClassifySwipe(touchStartX, screenX) == NoSwipe ==> logged == old(logged)
      ensures ClassifySwipe(touchStartX, screenX) != NoSwipe ==>
                logged == old(logged) + [ClassifySwipe(touchStartX, screenX)]
    {
      touchEndX := screenX;
      var swipe := ClassifySwipe(touchStartX, touchEndX);
      if swipe != NoSwipe {
        logged := logged + [swipe];
      }
    }
  }
}

/** isInViewport: the element's bounding rectangle lies entirely inside the window. */
module Viewport {

  datatype Rect = Rect(top: int, left: int, bottom: int, right: int)

  /** `window.innerHeight || document.documentElement.clientHeight`: 0 falls back to the document's size. */
  function Extent(inner: int, client: int): int {
    if inner != 0 then inner else client
  }

  predicate IsInViewport(r: Rect, innerHeight: int, innerWidth: int, clientHeight: int, clientWidth: int) {
    r.top >= 0 && r.left >= 0
    && r.bottom <= Extent(innerHeight, clientHeight)
    && r.right <= Extent(innerWidth, clientWidth)
  }

  /** A rectangle nested inside one that is in the viewport is in the viewport. */
  lemma NestedInViewport(outer: Rect, inner: Rect, ih: int, iw: int, ch: int, cw: int)
    requires IsInViewport(outer, ih, iw, ch, cw)
    requires outer.top <= inner.top && outer.left <= inner.left
    requires inner.bottom <= outer.bottom && inner.right <= outer.right
    ensures IsInViewport(inner, ih, iw, ch, cw)
  {
  }

  /** The point (x, y) lies in the window: `[0, width] x [0, height]` with the `||` fallback. */
  predicate InBox(x: int, y: int, ih: int, iw: int, ch: int, cw: int) {
    0 <= x <= Extent(iw, cw) && 0 <= y <= Extent(ih, ch)
  }

  /** Every point of a rectangle in the viewport lies in the window. */
  lemma InViewportContainsPoints(r: Rect, ih: int, iw: int, ch: int, cw: int, x: int, y: int)
    requires IsInViewport(r, ih, iw, ch, cw)
    requires r.left <= x <= r.right && r.top <= y <= r.bottom
    ensures InBox(x, y, ih, iw, ch, cw)
  {
  }

  /**
   * For a bounding rectangle (top <= bottom, left <= right), the test holds exactly when
   * every point of the rectangle lies in the window.
   */
  lemma InViewportIffPointsInside(r: Rect, ih: int, iw: int, ch: int, cw: int)
    requires r.top <= r.bottom && r.left <= r.right
    ensures IsInViewport(r, ih, iw, ch, cw) <==>
            forall x, y :: r.left <= x <= r.right && r.top <= y <= r.bottom ==> InBox(x, y, ih, iw, ch, cw)
  {
    if forall x, y :: r.left <= x <= r.right && r.top <= y <= r.bottom ==> InBox(x, y, ih, iw, ch, cw) {
      assert InBox(r.left, r.top, ih, iw, ch, cw);
      assert InBox(r.right, r.bottom, ih, iw, ch, cw);
    }
  }
}

/** The smooth-scrolling handler of `a[href^="#"]` anchors. */
module Anchors {
  import opened Wrappers

  /** The fixed header's height subtracted from the target's offsetTop. */
  const HeaderOffset: int := 100

  /** An element with an id, and its offsetTop. */
  datatype Element = Element(id: string, offsetTop: int)

  datatype AnchorOutcome =
    | ScrollTo(top: int)     // window.scrollTo({top, behavior: 'smooth'})
    | NoTarget               // querySelector found nothing
    | SelectorError          // querySelector('#') throws

  /** document.querySelector('#id'): the first element in document order with that id. */
  function ElementById(elements: seq<Element>, id: string): (r: Option<nat>)
    ensures r.Some? ==> r.value < |elements| && elements[r.value].id == id
    ensures r.Some? ==> forall j :: 0 <= j < r.value ==> elements[j].id != id
    ensures r.None? ==> forall j :: 0 <= j < |elements| ==> elements[j].id != id
  {
    if |elements| == 0 then None
    else if elements[0].id == id then Some(0)
    else match ElementById(elements[1..], id)
      case None => None
      case Some(k) => Some(k + 1)
  }

  /** The click on an anchor whose href is '#' followed by `id`. */
  function AnchorClick(id: string, elements: seq<Element>): (r: AnchorOutcome)
    ensures r == SelectorError <==> id == ""
    ensures id != "" && ElementById(elements, id).Some? ==>
              r == ScrollTo(elements[ElementById(elements, id).value].offsetTop - HeaderOffset)
    ensures r.ScrollTo? ==> exists j :: 0 <= j < |elements| && elements[j].id == id
                                        && r.top == elements[j].offsetTop - HeaderOffset
    ensures r == NoTarget <==> id != "" && forall j :: 0 <= j < |elements| ==> elements[j].id != id
  {
    if id == "" then SelectorError
    else match ElementById(elements, id)
      case None => NoTarget
      case Some(k) => ScrollTo(elements[k].offsetTop - HeaderOffset)
  }

  /** The target is not clamped: an element less than 100 px from the top gives a negative scroll position. */
  lemma NoClamping(id: string, top: int)
    requires id != "" && top < HeaderOffset
    ensures AnchorClick(id, [Element(id, top)]) == ScrollTo(top - HeaderOffset)
    ensures AnchorClick(id, [Element(id, top)]).top < 0
  {
  }
}
