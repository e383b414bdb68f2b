# Portfolio page controllers, modelled in Dafny

This project models the interactive core of a one-page portfolio site
(`js/main.js`). The DOM is replaced by plain fields, sets, maps and strings;
each controller's event handlers become methods; timer- and observer-driven
loops become explicit tick functions with lemmas about where they end.

- **Navigation** (`navigation.dfy`): the bar's scrolled look (strictly past a
  page offset of 50), the mobile menu (open class, toggle's active class, body
  scroll lock) driven by toggle, close, resize, nav-link click and outside
  click, and the scroll-spy callback over the document's anchors.
- **Scroll reveal** (`scroll_animations.dfy`): ready/observed marks, the
  staggered `animate-in` timers of one observer batch, and the firing of a
  timer.
- **Loading animations** (`loading_animations.dfy`): the typing effect and the
  experience counters, with `String(n)` and `parseInt` in `number_text.dfy`.
- **Performance optimizer** (`performance.dfy`): lazy images and the preload
  hints.
- **Accessibility** (`accessibility.dfy`) and the application root's
  `closeMobileMenu` wire (`app.dfy`).
- **Theme manager** (`theme.dfy`).

Shared pieces: `wrappers.dfy` (`Option`), `dom.dfy` (a text element,
observer entries, the set of intersecting targets of a batch, and the
assumption made about a batch's entries).

Three behaviours of the code that the model keeps as they are:

- The scrolled look starts strictly past an offset of 50
  (`pageYOffset > 50`), so an offset of exactly 50 is not scrolled
  (`HandleScroll`).
- Highlighting is exclusive only among the `.nav-link` anchors. The spy
  clears `active` from the nav links only, then highlights the first anchor
  of the whole document whose href is `#<section id>`. So at most one nav
  link is active (`SpyBatchKeepsOneNavLink`), while an anchor outside the nav
  links, once highlighted, keeps its `active` class.
- The second critical resource is the Google Fonts stylesheet URL. It does
  not end in `.css`, so the code preloads it with `as="font"`
  (`CriticalDestinations`).

Environment inputs are parameters: the page offset, the window width, whether
a click lands inside the bar, whether a link's target exists, the pressed
key, the stored theme (`localStorage.getItem('theme')`), the
`prefers-color-scheme: light` answer, and observer batches. Timers are not
modelled as time. The reveal timers are a pending list that fires in any
order. Each interval is run tick by tick until it clears itself.

## Model

| member | source | states |
|---|---|---|
| Navigation.NavigationController.constructor | js/main.js:85-94 | the controller starts with the menu closed, the toggle inactive, the scroll lock off and the bar not scrolled, with the document's anchors and nav links fixed |
| Navigation.NavigationController.HandleScroll | js/main.js:124-135 | the bar is scrolled exactly when the offset is strictly greater than 50 (50 itself is not); the background is the 0.95 variant when scrolled and the 0.9 variant otherwise |
| Navigation.NavigationController.ToggleMobileMenu | js/main.js:197-207 | the open flag and the toggle's active flag both flip; afterwards the body scroll lock is on exactly when the menu is open; a consistent menu stays consistent |
| Navigation.NavigationController.CloseMobileMenu | js/main.js:209-213 | the menu is closed, the toggle inactive and the lock off, whatever the state before, so closing twice is the same as closing once |
| Navigation.NavigationController.HandleResize | js/main.js:137-142 | a width above 768 closes the menu; a width of 768 or less changes nothing |
| Navigation.NavigationController.HandleNavLinkClick | js/main.js:215-225 | a click whose target exists closes the menu; one whose target is missing changes nothing |
| Navigation.NavigationController.HandleDocumentClick | js/main.js:188-193 | a click outside the bar closes the menu; a click inside it changes nothing |
| Navigation.NavigationController.OnSectionsIntersect | js/main.js:145-158 | the loop over entries, with the inner loop that clears `active` from every nav link, leaves exactly the active set the batch specification gives |
| Navigation.FindAnchor | js/main.js:147 | the lookup finds nothing exactly when no anchor has that href; otherwise it returns the first anchor in document order whose href matches |
| Navigation.SpyStep | js/main.js:146-157 | a non-intersecting entry changes nothing; an intersecting one leaves no nav link active except the section's `#<id>` anchor, makes that anchor active, and keeps every anchor outside the nav links as it was |
| Navigation.SpyBatch | js/main.js:145-158 | a batch never takes `active` away from an anchor that is not a nav link |
| Navigation.SpyBatchGainsOnlyTargets | js/main.js:149-156 | every link a batch newly highlights is the `#<id>` anchor of one of the batch's intersecting sections |
| Navigation.SpyBatchQuiet | js/main.js:149 | a batch with no intersecting entry leaves the active set unchanged |
| Navigation.SpyBatchLastWins | js/main.js:150-156 | after a batch, the only nav link that can be active is the `#<id>` anchor of the last intersecting section |
| Navigation.SpyBatchLastHighlighted | js/main.js:154-156 | after a batch, the `#<id>` anchor of the last intersecting section is active whenever the document has one |
| Navigation.SpyBatchKeepsOneNavLink | js/main.js:150-156 | if at most one nav link was active, at most one is active after any batch |
| ScrollAnimations.ScrollAnimator.constructor | js/main.js:266-269 | at setup every target is marked ready and observed, and nothing is pending or animated |
| ScrollAnimations.ScrollAnimator.OnIntersect | js/main.js:252-264 | the callback appends the batch's staggered timers to the pending ones and unobserves exactly the intersecting targets; no element is ever in two stages (observed, pending, animated) at once |
| ScrollAnimations.ScrollAnimator.Fire | js/main.js:256-258 | a firing timer adds `animate-in` to an element that did not have it, so each element is revealed at most once |
| ScrollAnimations.Staggered | js/main.js:253-263 | a batch sets at most one timer per entry, each delayed by a multiple of 100 ms |
| ScrollAnimations.StaggeredMember | js/main.js:253-258 | a timer is set exactly for each intersecting entry, at 100 ms times its position among all entries of the batch |
| ScrollAnimations.StaggeredOrdered | js/main.js:253-258 | timer delays strictly increase in batch order and stay below 100 ms times the batch size |
| ScrollAnimations.StaggeredDistinct | js/main.js:252-263 | a batch with distinct targets gives no element two timers |
| NumberText.IntText | js/main.js:493 | `String(n)` is non-empty, starts with `-` exactly for a negative number, and is digits after that |
| NumberText.ParseInt | js/main.js:480 | `parseInt` gives a number only for a text that contains a digit, and NaN for a text with no digit |
| NumberText.NatText | js/main.js:493 | the decimal text of a natural number is non-empty and all digits |
| NumberText.NatTextValue | js/main.js:493 | the digits written for a number read back as that number |
| NumberText.ParseIntText | js/main.js:480 | `parseInt` of the counter's text (`String(n)` then `+`) gives back `n` |
| LoadingAnimations.TypingTick | js/main.js:519-525 | one tick keeps what is shown as a prefix and adds at most one character (the character at `i` while `i` is in range); `i` goes up by one; the interval keeps running exactly while `i` is below the length |
| LoadingAnimations.TypingProgress | js/main.js:517-526 | after k ticks the element shows its starting text plus the first min(k, length) characters, and the interval still runs exactly while k < max(length, 1) |
| LoadingAnimations.TypeText | js/main.js:517-526 | the interval fires max(length, 1) times and leaves the element's text followed by the whole typed text |
| LoadingAnimations.SetupTypingEffect | js/main.js:505-515 | when the subtitle exists it is cleared and ends up showing exactly its original text again |
| LoadingAnimations.CounterTick | js/main.js:487-494 | a running counter stays below its target; the interval clears exactly when the value plus target/50 reaches the target, and the value is then the target |
| LoadingAnimations.CounterProgress | js/main.js:480-494 | each tick adds target/50; a positive target is reached and clamped at exactly the 50th tick, a target of zero or less at the first; the interval runs until then |
| LoadingAnimations.CounterBounded | js/main.js:487-493 | from the first tick on, the value never exceeds the target and its floor never decreases |
| LoadingAnimations.AnimateCounter | js/main.js:484-496 | the interval fires 50 times for a positive target and once otherwise; the displayed numbers never decrease or exceed the target; the last one is the target and the text ends as the target followed by `+` |
| LoadingAnimations.RunCounter | js/main.js:476-502 | the target is read from the counter's text, and the final text reads back as the same number |
| Performance.LazyImageLoader.constructor | js/main.js:541-558 | every lazy image is observed when the browser has IntersectionObserver, and none otherwise |
| Performance.LazyImageLoader.OnIntersect | js/main.js:546-555 | each intersecting image takes its `data-src` when that is non-empty and otherwise keeps its `src`, loses `lazy` and is unobserved; every other image is untouched |
| Performance.LoadedSrc | js/main.js:550 | the image keeps its `src` or takes its `data-src`, and takes the `data-src` only when it is non-empty; an image with an empty `src` gets a source exactly when it has a non-empty `data-src` |
| Performance.LoadedSrcIdempotent | js/main.js:550 | loading an image twice is the same as loading it once; a non-empty `data-src` wins, otherwise `src` stays |
| Performance.CriticalDestinations | js/main.js:563-572 | the site stylesheet is preloaded as `style`, the Google Fonts URL as `font` |
| Performance.PreloadDestination | js/main.js:572 | the `as` value is `style` or `font`, and `style` exactly when the resource ends in `.css` |
| Performance.SetupPreloading | js/main.js:561-576 | one link per resource is appended in order after the existing head; its `as` is `style` exactly when the resource ends in `.css` and `font` otherwise |
| Accessibility.KeyboardNavigation.constructor | js/main.js:592-598 | keyboard mode starts off |
| Accessibility.KeyboardNavigation.OnKeyDown | js/main.js:605-618 | Tab turns keyboard mode on and other keys leave it as it was; a close is requested exactly for Escape with the menu open |
| Accessibility.KeyboardNavigation.OnMouseDown | js/main.js:620-622 | a mousedown turns keyboard mode off |
| App.OnKeyDown | js/main.js:752-758 | Escape with the menu open closes it (menu, toggle and lock all cleared); any other key, or Escape with the menu closed, leaves the navigation untouched |
| Theme.ResolveTheme | js/main.js:698-709 | the resolved theme is never empty, and is dark, light or the stored value |
| Theme.ResolutionOrder | js/main.js:698-709 | a non-empty stored theme wins; without one the theme is light exactly when the system prefers light, and dark otherwise; a stored dark stays dark whatever the system says |
| Theme.Toggled | js/main.js:693 | dark becomes light, and every other value becomes dark |
| Theme.ToggleInvolution | js/main.js:692-693 | toggling lands on dark or light and changes the theme; toggling twice restores it exactly when it was dark or light |
| Theme.ThemeManager.constructor | js/main.js:666-675 | starting from dark, the resolved theme becomes current and is written to the attribute |
| Theme.ThemeManager.CheckSystemPreference | js/main.js:698-710 | a stored theme is taken, otherwise light when the system prefers it, otherwise the current theme stays; the attribute equals the result |
| Theme.ThemeManager.ToggleTheme | js/main.js:692-696 | the new theme is the toggled old one; the attribute and the stored value both equal it |

## Left out

- Debounce and throttle of the scroll and resize handlers: asynchronous event timing. Each handler is modelled as if it runs once per event that gets through.
- Smooth scrolling (`smoothScrollTo`, the anchor-click handler, the initial hash jump): `requestAnimationFrame` with floating-point cubic easing. A nav-link click is modelled only by its effect on the menu.
- Ripple, tilt, glow and hover styles of buttons, cards, skill badges and project links: constant style writes and float geometry formatted into CSS.
- The hero fade-in stagger (200 ms per element): one-shot style writes on timers, with nothing to prove beyond the delays themselves.
- IntersectionObserver itself, `querySelector` and element lookup other than the scroll-spy anchor search. Only the callbacks are modelled, over abstract entries. For the reveal callback, it is assumed as a precondition that every entry names an observed element and that no element appears twice in a batch. The browser does not promise the second half: entries queue until the callback runs, so a batch can hold two entries for one element, and that case is not modelled.
- The counter's own observer is left out. `RunCounter` is the run that starts when the counter first intersects. A second intersecting entry in the same batch could start a second interval, and that is not modelled.
- `optimizeAnimations`, the focus/blur `focus-visible` listeners, the ARIA attributes, the hidden theme-toggle button and the injected stylesheet: one-shot DOM mutations and environment reads.
- The skip link and the `main-content` id swap (js/main.js:651-661) are not performed by the model, but they do change what the scroll-spy sees. `document.querySelector` reads the live document, which after startup begins with the skip link `a[href="#main-content"]`, while the hero section is renamed `main-content`. When the hero intersects, the spy then clears every nav link and marks the skip link active. The model shows this only when `NavigationController.anchors` is taken as the document after startup, skip link first.
- `PortfolioApp` construction order, its try/catch guard, the resize hook that does nothing, and the online/offline banner with its 3-second removal timer.
- LoadingAnimations.TypingProgress: counts the text in Unicode characters, while `text.length` and `text.charAt(i)` count UTF-16 code units. A character outside the Basic Multilingual Plane (an emoji, say) takes two ticks in the page and one in the model, and the page shows a lone surrogate in between. The final text is the same.
- LoadingAnimations.TypeText: the same difference: the page's interval fires once per UTF-16 code unit, so for text outside the Basic Multilingual Plane it fires more often than the model's max(length, 1) ticks.
- Timer periods (the typing interval of 100 ms after an 800 ms start delay, the counter interval of 30 ms): wall-clock time. The typing and counter runs are modelled as counts of ticks.
- NumberText.IntText, NumberText.ParseIntText, LoadingAnimations.RunCounter: numbers are exact integers, while in the page they are doubles. From 1e21 `String` writes exponent form (`"1e+21"`, which `parseInt` reads back as 1), and past 2^53 `parseInt` rounds to the nearest double (`"9007199254740993+"` reads as 9007199254740992). So in the page the round trip from `String(n) + "+"` back to `n` holds only for |n| <= 2^53.
- AnimateCounter: uses exact rational arithmetic for `current`, so float rounding is not modelled. In doubles, adding target/50 fifty times can fall just short of the target and take a 51st tick.
- RunCounter: requires the counter's text to parse. With NaN the interval would never clear and would keep showing `NaN+`.
- NumberText.ParseInt: reads base ten only. The `0x` prefix that makes `parseInt` switch to hexadecimal is not modelled.
- Local storage and `matchMedia` are method parameters. The storage entry is a field of the theme manager, not a shared store.
