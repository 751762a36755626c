# Scroll, navigation and reveal logic of the Logivue site script, in Dafny

This project models the state and string logic of `scroll-animate_Version2.js`. That is the
browser script of a static company-profile site. The DOM is reduced to plain data:

- sections are `(id, offsetTop, offsetHeight)` integers;
- navigation links are their hrefs;
- class lists become booleans or sets;
- timers become integer delays;
- observer callbacks become given batches of entries.

The modules follow the script's features:

- `Navigation` (navigation.dfy) models initializeNavigation. The class `NavMenu` holds the
  menu's `open` class, the toggle's `active` class, `aria-expanded`, the body's overflow and
  the `active` flags of the `.nav-link` elements. Its methods are the click, Escape and
  scroll handlers. The scroll handler is proved against the function `AfterScroll`, and the
  lemmas about that function state what the scroll resolver promises.
- `Reveal` (reveal.dfy) covers initializeScrollAnimations, animateSection and the stagger
  schedules of the team, project and contact entrances.
- `LazyImages` (lazy_images.dfy) covers initializeLazyLoading.
- `Counters` (counters.dfy) covers the frame rule and the final text of initializeCounters.
  The current value is kept exact: after k frames it is k * target / 125.
- `Konami` (konami.dfy) covers the key matcher of initializeEasterEggs.
- widgets.dfy holds five small modules:
  - `Theme`: initializeThemeToggle;
  - `BackToTop`: the back-to-top button;
  - `Gestures`: handleGesture of initializeTouchGestures;
  - `Viewport`: isInViewport;
  - `Anchors`: the scroll target of the `a[href^="#"]` anchor handler.
- `NumberFormat` (format.dfy) covers formatNumber.
- `Search` (search.dfy) covers initializeSearch: the query gate, performSearch and
  getSearchSnippet.
- `Text` and `Wrappers` are helpers: integer-to-string conversion, `Option`, and `OrDefault` for `s || d` on strings.

Behaviour of the script worth knowing:

- The scroll resolver leaves active the link of the LAST section, in document order, that
  contains `scrollY + 150` and has a link. The handler's `forEach` never stops, and every
  match clears all links again.
- Sections are never unobserved, and nothing guards the reveal callback. So a section that
  intersects again gets `visible` again (a no-op) and its entrance routine runs again.
  Only images are unobserved after their first load.
- The reveal delay is `index * 100`, where `index` is the entry's position in the batch.
  That position counts the non-intersecting entries too.
- The Konami index falls back to 0 on any mismatch, with no fallback to a shorter partial
  match. So the code fires only when its ten keys arrive from index 0: a stray ArrowUp in
  front of it keeps it from firing.
- formatNumber inserts no comma between the '-' sign and the first digit: `\B` fails
  there, because the sign is not a word character.
- initializeSearch and initializeThemeToggle are defined but neither start-up block calls
  them. initializeTouchGestures is called, at line 723.

## Model

| member | source | states |
|---|---|---|
| Navigation.LinkFor | scroll-animate_Version2.js:267 | the link `.nav-link[href="#id"]` selects is the first in document order with that href; there is none exactly when no link has it |
| Navigation.LastMatchWins | scroll-animate_Version2.js:257-273 | if section i contains the reference point and has a link, and no later section does both, the resolver picks section i's link |
| Navigation.ScrollMatchLeavesOneActive | scroll-animate_Version2.js:257-273 | after a scroll with such a section i, exactly one link is active: the one for the last matching section |
| Navigation.NoMatchKeepsActive | scroll-animate_Version2.js:261-273 | when no section contains `scrollY + 150` with a link, the active flags stay as they were (the last match sticks) |
| Navigation.ChangeNeedsMatch | scroll-animate_Version2.js:266-271 | the scroll handler changes the active flags only if some section contains the point and has a link |
| Navigation.AfterScrollKeepsAtMostOne | scroll-animate_Version2.js:252-273 | the scroll handler never leaves two links active if at most one was before |
| Navigation.ActivatedIsOnlyActive | scroll-animate_Version2.js:252-255 | clearing all links and then activating link k leaves k as the only active link |
| Navigation.NavMenu.constructor | scroll-animate_Version2.js:191-196 | handlers are wired only when both `.nav-toggle` and `.nav-links` exist; initialisation changes no state |
| Navigation.NavMenu.OpenMenu | scroll-animate_Version2.js:238-243 | afterwards: `open`, toggle `active`, `aria-expanded="true"`, body overflow `hidden` |
| Navigation.NavMenu.CloseMenu | scroll-animate_Version2.js:245-250 | afterwards: all four reversed, with overflow `''`; on a closed, consistent menu it changes nothing (idempotent) |
| Navigation.NavMenu.ToggleMenu | scroll-animate_Version2.js:229-236 | flips `open` and leaves the other three fields mirroring it |
| Navigation.NavMenu.OnToggleClick | scroll-animate_Version2.js:198-201 | a toggle click flips the menu when wired and does nothing otherwise |
| Navigation.NavMenu.OnDocumentClick | scroll-animate_Version2.js:204-208 | a click outside both elements closes the menu; any other click changes nothing |
| Navigation.NavMenu.OnKeyDown | scroll-animate_Version2.js:219-223 | Escape closes the menu; other keys change nothing |
| Navigation.NavMenu.UpdateActiveNavLink | scroll-animate_Version2.js:252-255 | the loop removes `active` from every link, then link k gets it |
| Navigation.NavMenu.OnLinkClick | scroll-animate_Version2.js:211-216 | a link click closes the menu and leaves that link as the only active one, whatever the scroll position |
| Navigation.NavMenu.OnScroll | scroll-animate_Version2.js:257-273 | the scroll loop leaves the flags equal to `AfterScroll` of the old flags; with no handlers wired, nothing changes |
| Reveal.EntranceFor | scroll-animate_Version2.js:82-97 | 'about', 'team', 'projects' and 'contact' select their own routine; every other id selects none |
| Reveal.AnimateTeamMembers | scroll-animate_Version2.js:141-156 | member i rises in (opacity and translateY) after `i*200` ms |
| Reveal.AnimateProjects | scroll-animate_Version2.js:161-169 | project i gets `animate-fade-up` after `i*300` ms |
| Reveal.AnimateContactItems | scroll-animate_Version2.js:174-186 | contact item i gets `animate-fade-left` iff i is even and `animate-fade-right` iff i is odd, after `i*200` ms |
| Reveal.StaggerGap | scroll-animate_Version2.js:144-154 | in a schedule with step s, item j starts `(j-i)*s` ms after item i, and delays never decrease (the third member starts 400 ms after the first) |
| Reveal.EveryIntersectionScheduled | scroll-animate_Version2.js:59-76 | every intersecting entry at batch position i gets a reveal after `i*100` ms, even if its section was revealed before |
| Reveal.OnlyIntersectionsScheduled | scroll-animate_Version2.js:60-71 | every scheduled reveal comes from an intersecting entry at the batch position its delay names |
| Reveal.SectionObserver.constructor | scroll-animate_Version2.js:52-57 | the observer starts with nothing pending and nothing dispatched |
| Reveal.SectionObserver.OnIntersect | scroll-animate_Version2.js:59-72 | the callback appends exactly `RevealsFor(entries)` to the pending reveals |
| Reveal.SectionObserver.Fire | scroll-animate_Version2.js:63-69 | a reveal adds `visible` (no flag is ever cleared) and dispatches the section's entrance routine, once per reveal |
| LazyImages.LoadedByMeansIntersecting | scroll-animate_Version2.js:323-330 | a batch loads an image exactly when one of its entries for that image intersects |
| LazyImages.LoadedSetHoldsLoadedBy | scroll-animate_Version2.js:325-328 | the images a batch unobserves are exactly the images it loads |
| LazyImages.ImageLoader.constructor | scroll-animate_Version2.js:320-333 | every `img[data-src]` starts observed, and none is loaded yet |
| LazyImages.ImageLoader.OnIntersect | scroll-animate_Version2.js:322-331 | src := data-src, `lazy` dropped and image unobserved for each intersecting entry; nothing loaded by an earlier batch is loaded again |
| Counters.CeilDiv | scroll-animate_Version2.js:114 | `Math.ceil(a / b)` is the least integer r with `a <= r*b` |
| Counters.FinalText | scroll-animate_Version2.js:116-120 | the final text is `"100%"` exactly when the target is 100; for any other number it is `String(target)`; an unparsable target gives "NaN" |
| Counters.RunningExactly | scroll-animate_Version2.js:111-112 | a counter keeps requesting frames exactly while its target is positive and fewer than 125 increments are done |
| Counters.FrameTextBounds | scroll-animate_Version2.js:113-114 | the values shown while running lie in `[1, target]`, never decrease, and reach the target on the 125th frame |
| Counters.Counter.constructor | scroll-animate_Version2.js:106-109 | a counter starts at zero increments |
| Counters.Counter.Update | scroll-animate_Version2.js:111-122 | one updateCounter call: while running it adds an increment and shows its ceiling; otherwise it shows the final text and stays stopped, so a later call (on a re-reveal) writes the same text |
| Konami.NextIndex | scroll-animate_Version2.js:530-540 | the index stays in `[0, 10)`; any mismatched key resets it to 0; a matching key advances it by one, except the tenth, which resets it to 0 |
| Konami.IndexAfter | scroll-animate_Version2.js:528-540 | after any key sequence the index is in `[0, 10)` |
| Konami.IndexIsMatchedSuffix | scroll-animate_Version2.js:528-540 | an index of i means the last i keys spell the first i codes |
| Konami.FiringMeansFullCode | scroll-animate_Version2.js:531-536 | the egg fires only on a key that completes the ten codes in a row |
| Konami.CodePrefixAdvances | scroll-animate_Version2.js:523-533 | from index 0, the first n codes take the index to n |
| Konami.FullCodeFires | scroll-animate_Version2.js:523-536 | from index 0, the full code fires on its last key and the index resets to 0 |
| Konami.NoOverlapFallback | scroll-animate_Version2.js:537-539 | a third ArrowUp resets the index to 0, not 1, although the code begins with ArrowUp |
| Konami.StrayArrowUpBlocks | scroll-animate_Version2.js:530-539 | an ArrowUp followed by the full code does not fire: the third ArrowUp in a row resets the index, and no later key of the code is ArrowUp |
| Konami.KonamiListener.constructor | scroll-animate_Version2.js:528 | the listener starts at index 0 |
| Konami.KonamiListener.KeyDown | scroll-animate_Version2.js:530-540 | the listener moves by `NextIndex` and counts one egg exactly when the tenth code arrives |
| Theme.InitialTheme | scroll-animate_Version2.js:365-366 | a missing or empty saved theme gives 'dark'; any other saved value is kept |
| Theme.NextTheme | scroll-animate_Version2.js:370-371 | a click gives 'light' exactly from 'dark' and 'dark' from anything else |
| Theme.ToggleTwiceRestores | scroll-animate_Version2.js:371 | on 'dark' and 'light' two clicks restore the theme |
| Theme.ToggleSettles | scroll-animate_Version2.js:371 | after one click, even from an unknown saved theme, clicks alternate between the two themes |
| Theme.ThemeToggle.constructor | scroll-animate_Version2.js:360-366 | data-theme starts as the saved theme or 'dark' |
| Theme.ThemeToggle.OnClick | scroll-animate_Version2.js:368-376 | a click sets data-theme and the saved value to `NextTheme`; without the button nothing changes |
| BackToTop.ShowsButtonMonotone | scroll-animate_Version2.js:283-287 | the button shows strictly above 300 px: at 300 it is hidden, and scrolling further down keeps it shown |
| BackToTop.BackToTopButton.constructor | scroll-animate_Version2.js:278-281 | the button keeps its markup state until the first scroll |
| BackToTop.BackToTopButton.OnScroll | scroll-animate_Version2.js:281-288 | after a scroll the button has `visible` exactly when `pageYOffset > 300` |
| Gestures.ClassifySwipe | scroll-animate_Version2.js:395-408 | no swipe when `abs(start-end) <= 50`; a left swipe exactly when `start-end > 50`; a right swipe exactly when `end-start > 50` |
| Gestures.SwipeMirror | scroll-animate_Version2.js:397-406 | swapping start and end swaps left and right |
| Gestures.TouchTracker.constructor | scroll-animate_Version2.js:383-384 | both positions start at 0 |
| Gestures.TouchTracker.OnTouchStart | scroll-animate_Version2.js:386-388 | touchstart records the start position |
| Gestures.TouchTracker.OnTouchEnd | scroll-animate_Version2.js:390-393 | touchend records the end position and logs the swipe, if there is one |
| Viewport.NestedInViewport | scroll-animate_Version2.js:696-704 | a rectangle nested inside one that is in the viewport is in the viewport |
| Viewport.InViewportContainsPoints | scroll-animate_Version2.js:696-704 | a rectangle in the viewport has every point within `[0,width] x [0,height]` (inner size, or client size when the inner size is 0) |
| Viewport.InViewportIffPointsInside | scroll-animate_Version2.js:696-704 | for a rectangle with top <= bottom and left <= right, the test holds exactly when every point of it lies in the window box `[0,width] x [0,height]` |
| Anchors.ElementById | scroll-animate_Version2.js:342 | the lookup finds the first element in document order with that id, or none if no element has it |
| Anchors.AnchorClick | scroll-animate_Version2.js:339-355 | a bare '#' and only it is a selector error; otherwise the first element with the id decides and the target is its `offsetTop - 100`; there is no target exactly when no element has the id |
| Anchors.NoClamping | scroll-animate_Version2.js:345-347 | an element less than 100 px from the top gives a negative scroll position |
| NumberFormat.FormatNumber | scroll-animate_Version2.js:712-714 | the replacement, applied over the whole decimal rendering with the sign, only inserts commas: deleting them gives back `String(n)` |
| NumberFormat.ReplaceDigits | scroll-animate_Version2.js:713 | on a bare digit string, the `\B` and lookahead test at each position puts a comma exactly before digit i when `0 < i < n` and `n - i` is a multiple of 3 |
| NumberFormat.ReplaceSigned | scroll-animate_Version2.js:713 | after a '-' sign the replacement is the same as on the bare digits: no comma goes right after the sign |
| NumberFormat.ScanIsGrouped | scroll-animate_Version2.js:713 | the regex replacement, decided position by position, equals grouping the digits by threes from the right |
| NumberFormat.ScanAppendGroup | scroll-animate_Version2.js:713 | adding three digits to a non-empty run adds one comma in front of them and leaves the earlier output unchanged |
| NumberFormat.ScanShort | scroll-animate_Version2.js:713 | a run of at most three digits gets no comma |
| NumberFormat.GroupedStripsToDigits | scroll-animate_Version2.js:713 | deleting the commas gives back the digits |
| NumberFormat.GroupedIsWellGrouped | scroll-animate_Version2.js:713 | the first group has 1-3 digits and every later group exactly 3 |
| NumberFormat.FormatNonNegative | scroll-animate_Version2.js:712-714 | for a non-negative integer, the output without commas is its decimal digits; the groups are well formed; there is no comma exactly below 1000 |
| NumberFormat.FormatNegative | scroll-animate_Version2.js:712-714 | on the signed rendering, neither the position before the '-' nor the one after it gets a comma, so a negative integer formats as '-' followed by its formatted magnitude, whose groups are well formed |
| Text.NatToString | scroll-animate_Version2.js:713 | `toString` of a non-negative integer gives digits with no leading zero |
| Text.IntToString | scroll-animate_Version2.js:117 | `String(n)` is the digits of n, with a leading '-' exactly when n is negative |
| Text.NatToStringValue | scroll-animate_Version2.js:713 | reading the digits back gives the number |
| Text.IntToStringInjective | scroll-animate_Version2.js:117 | `String(n)` differs for different integers |
| Search.IndexOf | scroll-animate_Version2.js:456 | `indexOf` gives the first index where the query occurs, and -1 exactly when it does not occur |
| Search.Substring | scroll-animate_Version2.js:459 | `substring` with ordered in-range bounds is the slice between them |
| Search.GetSearchSnippet | scroll-animate_Version2.js:455-460 | when the content holds the query, so does the snippet; found or not, the snippet is at most `|q|+103` characters long |
| Search.SnippetAroundMatch | scroll-animate_Version2.js:455-460 | for a match at i, the snippet is `content[max(0,i-50) .. min(len,i+|q|+50))` plus "...", holds the query and has length at most `|q|+103` |
| Search.OnQuery | scroll-animate_Version2.js:423-430 | a search runs exactly when the trimmed, lower-cased query is longer than 2; otherwise results are cleared |
| Search.TitleOf | scroll-animate_Version2.js:443 | a missing or empty heading gives the title 'Section' |
| Search.Results | scroll-animate_Version2.js:440-450 | performSearch never returns more results than there are sections; which sections give results is stated by `ResultsComplete` and `ResultsSound` |
| Search.ResultsComplete | scroll-animate_Version2.js:440-450 | every section whose text holds the query has a result |
| Search.ResultsSound | scroll-animate_Version2.js:440-450 | every result comes from a section whose text holds the query, and its snippet holds the query |
| Search.CollectResults | scroll-animate_Version2.js:435-450 | the loop collects exactly `Results`: one entry per matching section, in document order |
| Search.SearchBox.constructor | scroll-animate_Version2.js:414-418 | the listener is wired only when both the input and the results element exist |
| Search.SearchBox.OnInput | scroll-animate_Version2.js:421-425 | each input replaces the pending timer with one for the new query |
| Search.SearchBox.OnTimer | scroll-animate_Version2.js:425-431 | the timer clears the results for a short query, and otherwise shows the results or "No results found" |

## Left out

- Real DOM, layout and rendering are not modelled. Section geometry, rectangles and touch
  positions are given as integers.
- Floating-point code is not modelled: the scroll progress bar (lines 41-45, which divides
  by zero when the document is no taller than the window), the parallax transforms
  (lines 306-312), and the float accumulation of counter values. Floats and pixel values
  are integers here.
- Counters.Counter.Update: `current` is the exact rational `steps * target / 125`.
  The script accumulates the double `target / 125` instead, and rounding changes what is
  shown, and overshoot is the rule rather than the exception. Of the targets 1 to 1000,
  963 show target + 1 on some frame before the final text, because the float sum lands
  a hair above an integer. 490 of them need a 126th frame, because 125 additions fall
  just short of the target. Target 100 is one of these: 125 additions of 0.8 stay below
  100, and its 126th frame shows "101" before "100%". parseInt of `data-count` is not modelled: the parsed
  value is given, with `None` standing for NaN.
- Counters.FrameTextBounds: the bounds `[1, target]` and arrival on frame 125 hold for the
  exact-rational value only, not for the script's float sum.
- Timers are not modelled as time. `setTimeout` and `requestAnimationFrame` are recorded as
  pending callbacks with integer delays, and `SectionObserver.Fire` runs them in whatever
  order the caller picks. debounce and throttle (lines 669-693) are about timing only and
  are left out. The search box's 300 ms debounce is modelled only as "the last input
  wins".
- IntersectionObserver geometry (threshold 0.15, root margin -50px) is not modelled.
  Callbacks receive given batches of entries.
- Reveal.SectionObserver.Fire: records which entrance routine runs but does not run it.
  The routine's schedules are the separate methods `AnimateTeamMembers`,
  `AnimateProjects` and `AnimateContactItems`, whose inputs are item counts. The count-up
  of the 'about' counters is `Counters.Counter.Update`. Applying an item effect to an
  element's style or class list is not modelled.
- LazyImages.ImageLoader.OnIntersect: takes entries only for images still observed. A
  batch holding two intersecting entries for one image copies data-src twice within that
  batch. What is proved is that an image loaded in one batch is never loaded in a later one.
- The easter egg's styling, its notification and its 5 s reset are not modelled: firing
  is counted only.
- The loading screen, showNotification and its injected CSS, displaySearchResults'
  markup, performance monitoring, service-worker registration, trackEvent and gtag
  analytics, the CSP meta tag, the error and unhandledrejection listeners, the console
  logging outside handleGesture and getRandomNumber (Math.random) are I/O or foreign
  calls and are left out. handleGesture's two `console.log` calls are modelled as the
  `logged` list of `Gestures.TouchTracker`.
  The search display is modelled only as which results are listed.
- `window.scrollTo` and `scrollIntoView` smooth scrolling are left out. Only the target
  position is modelled, and the back-to-top click and scrollToSection are not.
- `localStorage` is a field of `ThemeToggle`. Its persistence across page loads is not
  modelled.
- Unicode-aware `toLowerCase` and `trim` are not modelled. Queries and section texts are
  taken as already lower-cased and trimmed.
- Anchors.AnchorClick: CSS selector syntax is modelled only for a bare '#' (a selector
  error). Every other id is looked up literally, so ids are assumed to be plain CSS
  identifiers: no leading digit or '-' followed by a digit, no whitespace, no backslash,
  and no punctuation other than '-' and '_'. `querySelector('#' + id)` throws on other
  ids (`#1a`, `#-1`, `#a!b`, `#a/b`) or reads them as another selector. For example,
  `#a.b` means id "a" with class "b", and `#a b` means a `b` element inside `#a`. The
  model would scroll to the element whose id is literally "a.b".
- Navigation.NavMenu.OnScroll: the link lookup `.nav-link[href="#id"]` is modelled as a
  literal comparison of the href with "#" + id (`Navigation.HrefFor`). Inside the quoted
  attribute value a quote or a raw newline makes `querySelector` throw. A backslash
  starts a CSS escape (`\62` stands for 'b'), so the selector looks for a different
  href than the literal one. Section ids with these characters are assumed absent.
- formatNumber is modelled for integers only. On a non-integer the same regular
  expression would also group the digits after the decimal point.
- NumberFormat.FormatNonNegative: holds for integers below 10^21. JavaScript renders larger
  magnitudes in exponent form ("1e+21"), which the pattern does not group. Integers above
  2^53 are not even represented exactly.
- Text.IntToString: is JavaScript's `String(n)` only for magnitudes below 10^21. Larger
  numbers are rendered in exponent form, which is not modelled.
- Search.OnQuery: counts characters as Unicode scalar values. JavaScript's `length` counts
  UTF-16 code units, so a query with a character outside the Basic Multilingual Plane
  (an emoji, say) is longer in the script. "😀a" has length 3 there and is searched, but
  it is cleared here.
- Search.SnippetAroundMatch: positions and the 50-character window count Unicode scalar
  values. `indexOf` and `substring` count UTF-16 code units, so the script's window can
  differ and can split a surrogate pair.
