# saimon.ca front-end core in Dafny

This project models the interactive core of the saimon.ca marketing site
(`src/main.js`, class `SaimonApp`) and proves properties of that model:

- **Contact form validation** (`contact_form.dfy`, module `ContactForm`). This covers the three-field
  table and the else-if chain that picks a field's message: required-and-blank, then the email pattern
  `^[^\s@]+@[^\s@]+\.[^\s@]+$`, then the minimum length. It also covers how the messages are built and
  how the error elements and inputs are updated. ECMAScript `trim()` and `\s` are modelled by the
  WhiteSpace and LineTerminator code points of ECMAScript. The email regex is modelled twice: once as
  the regular expression's own shape (`MatchesEmailRegex`) and once as a scanning predicate
  (`ValidEmail`). The two are proved equivalent.
- **Background particles** (`particles.dfy`, module `Particles`). `createParticles` sizes and fills the
  position and velocity buffers from a sequence of random draws. `animateParticles` advances every
  coordinate by its velocity and mirrors it when it passes ±25. The buffers are arrays that the methods
  update in place, and the per-frame step is proved against the pure function `StepAll`.
- **Navigation** (`navigation.dfy`, module `Navigation`):
  - The mobile-menu state machine has five handlers: the button, a menu link, an outside click,
    Escape, and a resize to at least 1024 px. It is a pure transition function `HandleMenu`, and the
    class `MobileMenu` follows it field by field.
  - The throttled scroll handler highlights the nav link of the section under `scrollY + 100`. It is a
    fold `Highlight` over the sections, and the class `NavBar` runs it as nested loops on an array of
    flags.
- **Carousel drag scrolling** (`carousel.dfy`, module `Carousel`). Mouse down, leave, up and move update
  the closure state `isDown`/`startX`/`scrollLeft`, the element's `scrollLeft` and the cursor. The
  element's `offsetLeft` is read at each press and move, so it is a field of those events. Scrolling by
  wheel, touch or keyboard is the `Scrolled` event.
- **Throttle** (`throttle.dfy`, module `Throttling`). This is `throttle(func, limit)`. The timer that
  clears `inThrottle` is an explicit event.
- **Animation-frame bookkeeping** (`frame_loop.dfy`, module `FrameLoop`). This covers `animate`
  re-registering itself with `requestAnimationFrame`, `destroy`, and the page's `visibilitychange`
  handler. Pending frame callbacks are a set of handles. A set with more than one handle means more than
  one self-perpetuating chain is running.

Browser effects are modelled as explicit inputs:
- `Math.random` is a sequence of draws passed to the particle constructor.
- Mouse positions, `window.innerWidth`, `window.scrollY`, section geometry and key names are handler
  parameters.
- Timer expiry is the `TimerFired` event.
- `requestAnimationFrame` handles come from a counter.

Two facts about the particles that are easy to misread in the code:

- Reduced motion creates 50 particles instead of 200 (`src/main.js:173`), a quarter of the full
  count. `ReducedMotionCount` states this.
- Coordinates are not confined to ±25. The wrap test runs after the velocity is added, and the wrap
  only negates. So a coordinate can sit at up to `25 + |v|`, where `v` is the coordinate's velocity.
  `Particles.OverhangWitness` gives concrete draws for which a freshly created particle leaves
  [-25, 25] after one step. The proved bound is `25 + |v|`.

## Model

| member | source | states |
|---|---|---|
| ContactForm.TrimStart | src/main.js:467 | the start-trim never lengthens the value (what it removes is stated by `TrimStartDropsSpace`) |
| ContactForm.TrimEnd | src/main.js:467 | the end-trim never lengthens the value (what it removes is stated by `TrimEndDropsSpace`) |
| ContactForm.Trim | src/main.js:467 | `value.trim()` never lengthens the value (when it is empty is stated by `TrimEmptyIffBlank`) |
| ContactForm.TrimStartDropsSpace | src/main.js:467 | leading trim removes exactly a prefix of white space and leaves a result that does not start with white space |
| ContactForm.TrimEndDropsSpace | src/main.js:467 | trailing trim removes exactly a suffix of white space and leaves a result that does not end with white space |
| ContactForm.TrimEmptyIffBlank | src/main.js:467 | `value.trim()` is empty if and only if every character of the value is white space |
| ContactForm.ValidEmail | src/main.js:471-472 | every accepted address has at least five characters and neither starts nor ends with `@`; `ValidEmailIffRegex` ties it to the pattern |
| ContactForm.ValidEmailMatchesRegex | src/main.js:471-472 | every string the scanning check accepts matches `^[^\s@]+@[^\s@]+\.[^\s@]+$` |
| ContactForm.RegexMatchIsValidEmail | src/main.js:471-472 | every string matching the email regex is accepted by the scanning check |
| ContactForm.ValidEmailIffRegex | src/main.js:471-472 | the scanning check and the regex agree on every string |
| ContactForm.EmailExamples | src/main.js:471-472 | `a@b` is rejected (no dot after the `@`); `a@b.c` and `a@b.c.d` are accepted; a leading space or a doubled `@` is rejected |
| ContactForm.NameRequiredText | src/main.js:468 | the required message for `name` is "Name is required." (capitalised first letter) |
| ContactForm.EmailRequiredText | src/main.js:468 | the required message for `email` is "Email is required." |
| ContactForm.MessageRequiredText | src/main.js:468 | the required message for `message` is "Message is required." |
| ContactForm.MinLengthText | src/main.js:476-477 | the length message for `message` is "Message must be at least 10 characters." |
| ContactForm.FieldMessage | src/main.js:467-479 | the message is always empty, the required text, the invalid-address text or the minimum-length text; a field that is optional, plain text and without a minimum never gets one |
| ContactForm.NameMessage | src/main.js:454-479 | the name field's message is the required message exactly when the name is blank, and empty otherwise |
| ContactForm.EmailMessage | src/main.js:454-479 | the email field's message is the required message when the email is blank, the invalid-address message when it is non-blank but fails the pattern, and empty otherwise |
| ContactForm.MessageMessage | src/main.js:454-479 | the message field's message is the required message when blank, the minimum-length message when non-blank but shorter than 10 characters (untrimmed length), and empty otherwise |
| ContactForm.FormValidIff | src/main.js:460-491 | the form is valid if and only if the name is not blank, the email is not blank and matches the pattern, and the message is not blank and at least 10 characters long |
| ContactForm.PaddingMeetsMinimum | src/main.js:467-478 | "hi" padded with eight spaces passes the length check, because the length is taken before trimming |
| ContactForm.SpacesAloneAreMissing | src/main.js:467-469 | ten spaces report "required" rather than passing the length check, because the blank test comes first |
| ContactForm.FormView.constructor | src/main.js:463-464 | the view holds the three input values in field order, and each field's error text, error visibility and input flag as the page has them before validation |
| ContactForm.FormView.ValidateForm | src/main.js:453-492 | the result is whether every field's message is empty; for each field, the error element is hidden and the input unflagged exactly when its message is empty, and otherwise the message text is shown; the previous error text is kept when hidden |
| Particles.ReducedMotionCount | src/main.js:173 | reduced motion creates a quarter of the particles (50 against 200) |
| Particles.Wrap | src/main.js:583-585 | the wrap keeps a coordinate's magnitude, and leaves a coordinate within ±25 unchanged |
| Particles.Advance | src/main.js:578-585 | one frame of one coordinate has the magnitude of position plus velocity |
| Particles.StepAll | src/main.js:577-586 | one frame of the buffer keeps its length, and each coordinate has the magnitude of its position plus its velocity |
| Particles.OverhangWitness | src/main.js:578-585 | a position and a velocity drawn within their spawn ranges can still leave [-25, 25] after one step |
| Particles.AdvanceKeepsSettled | src/main.js:578-585 | one step keeps a coordinate settled: within ±25, or within `25 + abs(v)` while heading back toward the origin |
| Particles.DriftKeepsSettled | src/main.js:577-586 | any number of steps keeps a settled coordinate settled |
| Particles.DriftBound | src/main.js:577-586 | a coordinate that starts within ±25 stays within `25 + abs(v)` after any number of frames |
| Particles.FramesAt | src/main.js:577-586 | after n frames each coordinate is its own n-step drift, independent of the others |
| Particles.FramesBound | src/main.js:577-586 | after n frames every coordinate of a field spawned within ±25 is within `25 + abs(v)` |
| Particles.ParticleField.constructor | src/main.js:172-186 | creates `3 × count` coordinates (count 50 or 200); each position is `(r - 0.5) × 50` and each velocity is `(r - 0.5) × 0.02` of its own draw, in the order of the calls to `Math.random`; all lie in [-25, 25) and [-0.01, 0.01) |
| Particles.ParticleField.Step | src/main.js:574-589 | the positions become the one-frame step of the old positions; the velocities are unchanged; the rotation grows by 0.001; every coordinate stays within `25 + abs(v)` |
| Particles.AnimateParticles | src/main.js:571-590 | nothing changes when there is no particle system or reduced motion is on; otherwise one step is taken in place with the unchanged velocities |
| Navigation.Toggled | src/main.js:268-282 | a button click flips the menu's visibility and flips whether `aria-expanded` reads "true" |
| Navigation.Closed | src/main.js:288-296 | the closing code leaves the menu hidden with `aria-expanded` "false", and leaves the icons alone when they are missing |
| Navigation.HandleMenu | src/main.js:268-342 | a button click always flips the menu; every other event either changes nothing or closes the menu |
| Navigation.HandleKeepsConsistent | src/main.js:267-342 | every menu event keeps `aria-expanded` equal to "true" exactly when the menu is shown, and keeps the icons showing the matching glyph |
| Navigation.RunKeepsConsistent | src/main.js:267-342 | every sequence of menu events keeps that consistency |
| Navigation.ReachableMenusConsistent | src/main.js:267-342 | every state reachable from the initial hidden, collapsed menu is consistent |
| Navigation.CloseIdempotent | src/main.js:288-296 | closing leaves the menu hidden with `aria-expanded` "false", and closing twice is closing once |
| Navigation.ToggleTwice | src/main.js:268-282 | two button clicks restore the state |
| Navigation.EscapeOnHiddenMenu | src/main.js:314-315 | a key other than Escape, or Escape while the menu is hidden, changes nothing |
| Navigation.ClosingEventsAgree | src/main.js:285-342 | a menu-link click, an outside click, a resize to at least 1024 px and Escape on a shown menu all produce the same closed state, which equals the state itself when the menu is already hidden |
| Navigation.MobileMenu.constructor | src/main.js:261-267 | the menu starts in the given view with the button unfocused |
| Navigation.MobileMenu.Close | src/main.js:288-296 | the view becomes the closed view |
| Navigation.MobileMenu.OnButtonClick | src/main.js:268-282 | the view follows the button-click transition |
| Navigation.MobileMenu.OnMenuLinkClick | src/main.js:285-297 | the view follows the link-click transition |
| Navigation.MobileMenu.OnDocumentClick | src/main.js:300-311 | the view closes exactly when the click lands outside both the button and the menu |
| Navigation.MobileMenu.OnKeyDown | src/main.js:314-328 | Escape on a shown menu closes it and focuses the button; anything else changes nothing |
| Navigation.MobileMenu.OnWindowResize | src/main.js:331-342 | a resize to a width of at least 1024 closes the menu; narrower resizes change nothing |
| Navigation.FindAnchor | src/main.js:373 | `querySelector('a[href="#id"]')` finds the first anchor with that href in document order, or none when no anchor has it |
| Navigation.LastCovering | src/main.js:367-371 | finds the last section with `top <= pos < top + height`, or none when no section covers the position |
| Navigation.SectionStep | src/main.js:367-377 | one section's work never clears an anchor outside the nav-link list, and newly highlights only the anchor found for a covering section |
| Navigation.Highlight | src/main.js:367-378 | the pass over the sections keeps one flag per anchor (its effect is stated by `HighlightNavLink` and `HighlightOtherAnchor`) |
| Navigation.HighlightNavLink | src/main.js:363-379 | after the scroll pass, a nav link is highlighted exactly when it is the first anchor linking to the last covering section; with no covering section its highlight is unchanged |
| Navigation.HighlightOtherAnchor | src/main.js:372-376 | an anchor outside the nav-link list is never cleared; it ends highlighted when it already was or some covering section's lookup found it |
| Navigation.AtMostOneNavLinkHighlighted | src/main.js:363-379 | when some section covers the position, at most one nav link is highlighted afterwards |
| Navigation.NavBar.constructor | src/main.js:260 | captures the anchor table once, at setup, with the highlight flags the markup starts with |
| Navigation.NavBar.OnScroll | src/main.js:363-379 | the flags become the scroll pass over the sections at `scrollY + 100` |
| Carousel.HandleDrag | src/main.js:503-526 | the carousel is held after a press, and stays held until a mouse-up or mouse-leave; only a move while held (or a scroll from elsewhere) changes `scrollLeft`; only a press changes the start point and the snapshot |
| Carousel.DragScrollsByTwiceTheDelta | src/main.js:503-526 | after a press at x0 and moves over a carousel that stays in place, the carousel is still held and `scrollLeft` is the pressed value minus twice the distance from x0 to the last pointer position |
| Carousel.MovesWhileDown | src/main.js:520-526 | while held, moves keep the snapshot and start point, and `scrollLeft` depends only on the last move |
| Carousel.MoveBackRestores | src/main.js:503-526 | pressing and moving back to the press point restores the original `scrollLeft` |
| Carousel.LayoutShiftDuringDrag | src/main.js:503-526 | when the carousel moves in the page between press and move, `scrollLeft` changes by twice the change in the pointer's position relative to the carousel |
| Carousel.PressSnapshotsLiveScroll | src/main.js:503-526 | a press snapshots the element's current `scrollLeft`, including a scroll made by other means before it; a scroll made by other means during the drag is overwritten by the next move |
| Carousel.MovesWhileUp | src/main.js:520-521 | moves while not held change nothing |
| Carousel.ReleaseEndsDrag | src/main.js:510-521 | mouse-up or mouse-leave ends the drag with the grab cursor and keeps `scrollLeft`; later moves change nothing |
| Carousel.CarouselView.constructor | src/main.js:499-501 | the carousel starts not held, with the given scroll position and cursor |
| Carousel.CarouselView.OnMouseDown | src/main.js:503-508 | follows the press transition (held, grabbing cursor, start point and scroll snapshot taken) |
| Carousel.CarouselView.OnMouseLeave | src/main.js:510-513 | follows the leave transition (released, grab cursor) |
| Carousel.CarouselView.OnMouseUp | src/main.js:515-518 | follows the release transition (released, grab cursor) |
| Carousel.CarouselView.OnMouseMove | src/main.js:520-526 | follows the move transition (ignored unless held) |
| Carousel.CarouselView.Scroll | src/main.js:507 | stands for the browser scrolling the element by wheel, touch or keyboard (no source line performs it); it sets `scrollLeft`, which the press at this line then reads |
| Throttling.ThrottleStep | src/main.js:640-643 | a call runs the function exactly when the throttle is open; after a call the throttle is always closed, and after the timer it is always open |
| Throttling.RunsBoundedByFirings | src/main.js:635-646 | over any sequence of calls and timer expiries, the wrapped function runs at most once per timer expiry plus once for an initially open throttle |
| Throttling.AtMostOneRunPerInterval | src/main.js:640-644 | calls with no timer expiry in between run the wrapped function at most once |
| Throttling.Throttle.constructor | src/main.js:636 | the throttle starts open with no run and no timer |
| Throttling.Throttle.Invoke | src/main.js:637-645 | runs the function and closes the throttle (arming the timer) exactly when it was open; otherwise does nothing |
| Throttling.Throttle.TimerFires | src/main.js:643 | reopens the throttle without running the function |
| FrameLoop.AnimationFrames.constructor | src/main.js:10 | no frame is registered at first |
| FrameLoop.AnimationFrames.RequestFrame | src/main.js:530 | registers a fresh handle |
| FrameLoop.AnimationFrames.CancelFrame | src/main.js:675-679 | removes the handle from the pending set |
| FrameLoop.AnimationFrames.Animate | src/main.js:529-530 | registers a fresh frame and records it, adding one chain |
| FrameLoop.AnimationFrames.RunFrame | src/main.js:529-530 | running a pending frame replaces it by a fresh one, keeping the number of chains |
| FrameLoop.AnimationFrames.OnVisibilityChange | src/main.js:675-683 | hiding cancels the recorded frame only; showing adds one chain whatever is already pending |
| FrameLoop.AnimationFrames.Destroy | src/main.js:649-652 | cancels the recorded frame only |
| FrameLoop.AnimationFrames.Restart | src/main.js:675-683 | corrected show: with at most one pending chain, cancels the recorded frame and animates, leaving exactly one chain |
| FrameLoop.AnimationFrames.OnVisibilityChangeGuarded | src/main.js:675-683 | corrected handler: hiding leaves nothing pending; showing leaves exactly one chain |
| FrameLoop.AnimationFrames.RunFrameGuarded | src/main.js:529-530 | with one chain, running its frame keeps exactly one chain |
| FrameLoop.HideShowDestroyTwice | src/main.js:649-683 | setup, hide, show leaves one chain; destroying twice leaves none |
| FrameLoop.ShowWithoutHideDoublesChains | src/main.js:675-683 | as written, a show without a preceding hide runs two chains, and a later hide stops only one |
| FrameLoop.ShowWithoutHideGuarded | src/main.js:675-683 | with the corrected handler the same events leave one chain, and the hide stops it |

## Left out

- The three.js scenes, renderers, camera and lighting, are not modelled (`initializeScenes` and the scene builders), nor is the unused `GLTFLoader` import (src/main.js:2). Neither are the hero, fan and card spins and the rendering in `animate` (src/main.js:532-568, apart from the particle step at src/main.js:547-548), `handleResize` (src/main.js:592-622), the loading screen, smooth scrolling, the IntersectionObserver reveal effects or the contact form's `fetch` submission (src/main.js:413-450). They are rendering, network and library calls with no state logic of their own beyond what is modelled here. The project's tailwind and vite configuration files are build settings and are not modelled.
- Particles: buffer values are `Float32Array` elements, but the model computes on exact reals, so float32 rounding is not modelled. Which scene (hero or about) receives the particle system and the material are not modelled either; the points object's rotation is modelled only as its y angle (`ParticleField.rotationY`, src/main.js:589).
- Particles.AnimateParticles: the `time` argument is unused by the source and is dropped.
- `Math.random`, `Date.now`, `setTimeout`'s clock and `requestAnimationFrame`'s scheduling are inputs or events, not modelled sources of values.
- Throttling: the 100 ms interval is not modelled. Elapsed time is not modelled either; the timer expiry is an explicit event. Forwarding of `this` and `arguments` is not modelled.
- FrameLoop: the per-frame work (rendering and the particle step) is not composed with the frame bookkeeping. The loop counts chains and does not run the particle model. `destroy`'s disposal of scenes and renderers (src/main.js:654-667) is not modelled.
- ContactForm.TrimStart, ContactForm.TrimEnd, ContactForm.Trim: the functions' own contracts bound only the length; which characters are removed is stated by the lemmas `TrimStartDropsSpace`, `TrimEndDropsSpace` and `TrimEmptyIffBlank`, because stating it on the functions makes the later proofs too costly.
- Navigation.Highlight: its own contract states only the length; its effect is stated by `HighlightNavLink`, `HighlightOtherAnchor` and `AtMostOneNavLinkHighlighted`.
- ContactForm: lengths are counted in code points, while `value.length` counts UTF-16 code units. A message containing characters outside the Basic Multilingual Plane can pass the 10-character check in the source with fewer code points than the model requires. Capitalisation uses ASCII upper-casing, which is enough for the three fixed field names. A missing input or error element would throw in the source; the model assumes all three are present.
- Navigation.FindAnchor, Navigation.NavBar.OnScroll: section ids are assumed to contain no `"`, `\` or line break. The source builds the CSS selector `a[href="#${section.id}"]` (src/main.js:373) from the id. With a `"` or line break in the id the selector is invalid, `querySelector` throws, and the scroll pass stops partway; because the throw happens inside `func.apply` (src/main.js:641), before `inThrottle = true`, the throttle also stays open. With a `\` the id is CSS-unescaped, so a different anchor, or none, is found. The model compares the id literally and always finishes the pass.
- Navigation: the case where the menu button or the menu element is missing (src/main.js:267, no handlers installed) is not modelled. Button focus is a flag. Clicking a nav link for smooth scrolling (src/main.js:346-360) is not modelled. Anchors are only the lookup table `Anchor(href, navLink)`: the nav-link list captured at setup, and the anchors found by `querySelector`.
- Carousel: the browser's clamping of `scrollLeft` to the scrollable range is not modelled, so `scrollLeft` is an unbounded integer. Scrolling by wheel, touch or keyboard is the single event `Scrolled`, with no model of how far it scrolls. `preventDefault` and fractional pointer coordinates are not modelled either.

## Findings

| source | as written | input that shows it | evidently intended | confidence | as-written member | corrected member |
|---|---|---|---|---|---|---|
| src/main.js:675-683 | when the page becomes visible, the handler calls `animate()` unconditionally, without cancelling the pending frame | the page is set up while its tab is hidden, so `animate()` runs once at src/main.js:35 and its frame stays pending; then the tab is shown. Two frame chains now run, so every animation advances twice per frame, and a later hide cancels only the most recently recorded frame | showing the page re-arms exactly one frame chain, and hiding it stops all animation | medium, not executed | FrameLoop.ShowWithoutHideDoublesChains | FrameLoop.ShowWithoutHideGuarded |
