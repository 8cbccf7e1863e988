# Portfolio page script, modelled in Dafny

`app.js` wires a one-page portfolio site to the browser. It handles the mobile menu
toggle, smooth scrolling from the navigation links, highlighting the link of the section
in view, hiding the fixed header when the page scrolls down, validating the contact form,
and a "toast" notification system. This project replaces the DOM by plain values and
models the decision rules and state changes of that script:

- `text.dfy` (module `Text`): `String.prototype.trim`, over the ECMAScript whitespace and
  line-terminator code points.
- `email.dfy` (module `Email`): `isValidEmail` as a hand-written matcher built on first and
  last index searches. It is proved equivalent to the language of the pattern
  `^[a-zA-Z0-9._%+-]+@[a-zA-Z0-9.-]+\.[a-zA-Z]{2,}$`, written as "there is a split into
  local part, `@`, domain, `.`, top-level domain".
- `contact_form.dfy` (module `ContactForm`): the submit handler's validation chain. Its
  verdict is either the trimmed fields or the first failing check's notice and the field
  that gets the focus.
- `navigation.dfy` (module `Navigation`): links `(href, active)` and sections
  `(id, top, height)` as values. It says which links become active for an id, and which
  section holds a scroll position.
- `header.dfy` (module `HeaderScroll`): the header's hide rule and the value stored as
  `lastScrollTop`.
- `notifications.dfy` (module `Notifications`): the body's children, each either a
  notification `(id, type, message, exiting)` or some other element. It holds the
  severity colour switch and the three changes the notification code makes to the
  children: replace every notification by a new one, mark one as leaving, detach one.
- `page.dfy` (module `Page`): the state the script changes in place, as classes.
  - `MobileMenu`: the two `active` flags.
  - `NavBar`: the links.
  - `StickyHeader`: `lastScrollTop` and whether the header is hidden.
  - `Notifier`: the children and the pending timers and click handlers.
  - `Site`: ties the four together and dispatches clicks the way propagation does.
- `options.dfy` (module `Options`): an optional value.

Every timer's firing and every registered outside-click handler becomes an explicit event
method, which may be called only while that timer or handler is pending. Each kind of
pending timer or handler is a set of notification ids, or a multiset for the detach
timer, which can be scheduled twice. The listeners of elements (the menu toggle, the
navigation links, a notification's close button) are methods of `Page.Site` that the
click on that element calls; a close button can be clicked only while its notification
is attached. A notification is identified by the order in which it was created.

Two behaviours of the code worth stating:

- An outside-click handler deregisters itself only when it fires. Closing a notification
  or letting it time out leaves the handler registered (app.js:308-312 against 319).
  `showNotification` cancels none of the superseded notification's timers or handlers.
- Such a stale handler or timer acts only on its own detached node, so it does nothing
  to the current notification. `Page.Notifier.OnDocumentClick` states this: only the
  attached notification can change.

## Model

| member | source | states |
|---|---|---|
| Text.IsTrimmable | app.js:132-134 | the ECMAScript WhiteSpace and LineTerminator code points, the characters `trim` strips |
| Text.LeadingBlanks | app.js:132-134 | the count of leading characters that `trim` strips: all of them are whitespace, and the next is not |
| Text.TrailingBlanks | app.js:132-134 | the same count for the trailing characters |
| Text.Trim | app.js:132-134 | the result is no longer than the input and neither starts nor ends with whitespace; it is empty exactly when the input is all whitespace |
| Text.TrimIsSlice | app.js:132-134 | the input is whitespace, then the trimmed string, then whitespace |
| Text.TrimIdempotent | app.js:132-134 | trimming twice equals trimming once |
| Email.SplitsAsEmail | app.js:196 | one reading of the pattern: a local part of one or more `[a-zA-Z0-9._%+-]`, the `@`, a domain of one or more `[a-zA-Z0-9.-]`, the `.`, and two or more letters to the end |
| Email.MatchesEmailPattern | app.js:196 | the language of the pattern: some split of the string reads as SplitsAsEmail; the reference that IsValidEmailMatchesPattern and ContactForm.Validate use |
| Email.IndexOf | app.js:196 | finds the first occurrence of a character, or reports that there is none |
| Email.LastIndexOf | app.js:196 | finds the last occurrence of a character, or reports that there is none |
| Email.FirstIndexIs | app.js:196 | an occurrence with none before it is the one IndexOf finds |
| Email.LastIndexIs | app.js:196 | an occurrence with none after it is the one LastIndexOf finds |
| Email.IsDomainAndTld | app.js:196 | the part after the `@`: split at its last `.`, one or more domain characters, then two or more letters to the end; DomainAndTldAfterAt relates it to the pattern |
| Email.IsValidEmail | app.js:195-198 | `isValidEmail`: a non-empty local part before the first `@`, then IsDomainAndTld; IsValidEmailMatchesPattern proves it equal to the pattern's language |
| Email.IsValidEmailMatchesPattern | app.js:195-198 | the matcher accepts a string if and only if the string is in the language of the e-mail pattern |
| Email.ValidEmailIsMatch | app.js:195-198 | an accepted string splits as local part, `@`, domain, `.`, two or more letters |
| Email.MatchIsValidEmail | app.js:195-198 | every such split is accepted by the matcher |
| Email.AtIsFirst | app.js:196 | in a string matching the pattern, the `@` that ends the local part is the first `@` |
| Email.DomainAndTldAfterAt | app.js:196 | what follows that `@` is accepted as domain and top-level domain, splitting at the last `.` |
| Email.ValidEmailHasOneAt | app.js:195-198 | an accepted string holds exactly one `@` |
| ContactForm.ThanksNotice | app.js:178 | the success text, with the trimmed name inserted after "Thank you, " |
| ContactForm.Validate | app.js:132-161 | accepted if and only if no trimmed field is empty and the trimmed address matches the pattern, with the trimmed values; otherwise each of the four notices holds exactly when its check is the first to fail, in the order name, e-mail, message, address format, with the focus on that field |
| Navigation.Activated | app.js:66-75 | same number of links, same hrefs in the same order, and a link is active if and only if its href is `#` followed by the id |
| Navigation.ActivatedIdempotent | app.js:66-75 | activating the same id twice equals activating it once |
| Navigation.ActivatedForgetsFlags | app.js:68-73 | the result depends on the hrefs only, not on the previous flags |
| Navigation.Covers | app.js:89 | the range test: the section's top is at or above the position, which lies above its bottom |
| Navigation.LastCovering | app.js:84-92 | the index of a section holding the position, with no later section holding it; none only when no section holds it |
| Navigation.CurrentSectionId | app.js:82-94 | "" when no section holds the position; a non-empty result is the id of a section holding it; any covering section whose id is not the result is followed by a later covering section |
| HeaderScroll.HidesHeader | app.js:354 | the hide test: the offset grew since the last event and is past 100; OnScroll sets the hidden flag exactly to it |
| HeaderScroll.StoredScrollTop | app.js:362 | the stored offset is the larger of the scroll offset and 0, so it is never negative |
| Notifications.ColoursOf | app.js:253-265 | success, error and every other type each get their own colour pair, if and only if |
| Notifications.OthersOf | app.js:205-208 | the children left once every notification is removed: no notification, and no more children than before |
| Notifications.OthersOfKeeps | app.js:205-208 | a child is kept if and only if it was a child and is not a notification, so none is lost and none added |
| Notifications.OthersOfNoNotice | app.js:205-208 | a body with no notification child is left exactly as it was |
| Notifications.NoticesOf | app.js:205 | the `.custom-notification` children: only notifications, and every notification child is among them |
| Notifications.NoticesAreChildren | app.js:205 | every listed notification is a child of the body |
| Notifications.IsAttached | app.js:329 | `notification.parentNode` is set: some child of the body is the notification `id` (also at line 337) |
| Notifications.AttachedId | app.js:329 | with at most one notification child, names the attached one, and any attached id is that one |
| Notifications.OnlyOneAttached | app.js:329 | with at most one notification child, an attached notification is the only attached one |
| Notifications.Detach | app.js:337-338 | no child with the id remains, and the result is no longer |
| Notifications.OthersOfConcat | app.js:205-208 | removing notifications distributes over concatenation |
| Notifications.NoticesOfConcat | app.js:205 | selecting notifications distributes over concatenation |
| Notifications.OthersOfOthers | app.js:205-208 | removing notifications twice equals removing them once |
| Notifications.NoticesOfNone | app.js:205 | a body with no notification child yields no notification |
| Notifications.NoticesOfOthers | app.js:205-208 | once the notifications are removed, no notification is left |
| Notifications.ShowLeavesOnlyNew | app.js:204-208 | after the removals and the append (line 293), the new notification is the only one and the only attached id; the other children are those of before, in order; all ids stay below the next one |
| Notifications.MarkExiting | app.js:333-334 | the exit styles applied to the notification `id`; its effect is stated by MarkExitingMarks and MarkExitingKeeps |
| Notifications.MarkExitingMarks | app.js:333-334 | the same number of children; the notification `id` keeps its type and message and is now leaving; every other child is unchanged |
| Notifications.MarkExitingKeeps | app.js:333-334 | applying the exit styles keeps the other children, the number of notifications and which ids are attached |
| Notifications.MarkExitingAbsent | app.js:329 | marking a notification that is not attached changes nothing |
| Notifications.DetachFacts | app.js:336-341 | after detaching, the node is not attached; the other children are kept; the number of notifications does not grow; a node that was not attached leaves the body unchanged |
| Notifications.DetachKeeps | app.js:337-338 | a child remains if and only if it was a child and is not the notification `id`, so nothing is added |
| Notifications.DetachLeavesNone | app.js:336-341 | with at most one notification, detaching the attached one leaves no notification child |
| Notifications.DetachKeepsIdsBelow | app.js:336-341 | detaching keeps every id below a bound that held before |
| Notifications.DetachIdempotent | app.js:336-341 | a second detach of the same node changes nothing, so removing twice detaches once |
| Page.InsideNotice | app.js:316 | `notification.contains(e.target)`: the target is the notification `id` or its close button |
| Page.NamesSection | app.js:31-37 | the href starts with `#`, has a non-empty id after it, and some section has that id, so `getElementById` finds it |
| Page.Fired | app.js:315-321 | the registered handlers that act on a click are exactly those whose notification does not contain the target |
| Page.MobileMenu.constructor | app.js:8-9 | the menu as loaded: neither flag set |
| Page.MobileMenu.Toggle | app.js:14-19 | both flags flip, and they stay equal |
| Page.MobileMenu.Close | app.js:38-42 | both flags are cleared |
| Page.MobileMenu.OnDocumentClick | app.js:382-394 | an open menu closes on a click outside the toggle and the menu; otherwise nothing changes |
| Page.NavBar.constructor | app.js:10 | the links and the sections as given |
| Page.NavBar.UpdateActiveNavLink | app.js:66-75 | the loop leaves the links equal to Activated of the old links |
| Page.NavBar.CurrentSection | app.js:78-92 | the loop's result is the id of the last section holding the position, or "" when none does |
| Page.NavBar.HighlightActiveNavLink | app.js:78-97 | the links are activated for the current section at `scrollY + 150`; they do not change when that id is empty |
| Page.StickyHeader.constructor | app.js:345 | `lastScrollTop` starts at 0 and the header is shown |
| Page.StickyHeader.OnScroll | app.js:351-363 | hidden if and only if the offset grew and is past 100; the stored offset is StoredScrollTop of the new one; `lastScrollTop >= 0` is kept |
| Page.Notifier.constructor | app.js:4-10 | the page as loaded: its elements in order, no notification, no timer or handler pending |
| Page.Notifier.Show | app.js:201-326 | every notification child removed and exactly one new one appended with the given type and message; the other children kept in order; its auto-remove and handler-registering timers start; nothing else changes |
| Page.Notifier.Remove | app.js:328-342 | a notification that is not attached: nothing changes; an attached one: marked as leaving and one detach timer scheduled |
| Page.Notifier.AutoTimeout | app.js:303-305 | the 5000 ms timer fires, is no longer pending, and removes its notification |
| Page.Notifier.GraceElapsed | app.js:323-325 | the 500 ms timer fires and its handler becomes registered |
| Page.Notifier.DetachTimerFires | app.js:336-341 | one detach timer fires; the node leaves the body if it is still attached; afterwards it is not attached, the other children are kept, and when it was attached no notification is left |
| Page.Notifier.CloseClicked | app.js:308-312 | the auto-remove timer is cancelled and the notification removed; its outside-click handler stays registered |
| Page.Notifier.OnDocumentClick | app.js:315-321 | every fired handler cancels its timer and deregisters; only the attached notification, if its handler fired, is removed |
| Page.Site.constructor | app.js:4-372 | menu closed, header shown, links and sections as given, no notification, nothing pending |
| Page.Site.ToggleClick | app.js:13-20 | the click stops at the toggle: both menu flags flip, the notifications are untouched |
| Page.Site.DocumentClick | app.js:382-394 | the menu closes unless the click is inside it, and the outside-click handlers act as Notifier.OnDocumentClick states |
| Page.Site.CloseButtonClick | app.js:308-312 | the clicked notification is marked leaving with its timer cancelled; the click then bubbles: the menu closes, the superseded notifications' handlers deregister, and the clicked one's own handler stays |
| Page.Site.NavLinkClick | app.js:23-63 | a link naming a section closes the menu and activates that section's links; any other link changes nothing |
| Page.Site.SubmitContact | app.js:115-161 | the verdict is Validate of the three values; a rejection shows its notice as an error notification; an acceptance starts the sending timer and leaves the notifications alone |
| Page.Site.SendingDone | app.js:174-178 | the sending timer fires and a success notification thanks the trimmed name |

## Left out

- Building the notification's elements, inline styles, hover opacity, `console` output, the injected stylesheet and the page-load fade (app.js:211-247, 268-290, 376-379, 397-416). They are presentation only.
- The notification's entrance frame (app.js:296-298). It changes a style only.
- Real time. Timers, `requestAnimationFrame` and the scroll throttle `ticking` (app.js:100-109) are not modelled as time. Each timer's firing is an event method. The caller decides when a scroll event runs highlighting.
- The initial highlight after 500 ms (app.js:367-370): it is a call to `Page.NavBar.HighlightActiveNavLink`.
- `window.scrollTo`, `getBoundingClientRect`, `pageYOffset` and the smooth-scroll arithmetic (app.js:44-54). They depend on floating-point layout values. The model's coordinates are integers: the sections' offsets, the highlight's `scrollY` and the header's scroll offset.
- `Page.StickyHeader.OnScroll`: the scroll offset is an `int`, while `window.pageYOffset || document.documentElement.scrollTop` (app.js:352) is a floating-point number that can be fractional (an offset of 100.5 hides the header), so fractional offsets are not represented. The `||` fallback is folded into the one parameter: the caller passes the offset the expression yields.
- `Page.Site.NavLinkClick`: `getElementById` is approximated by the sections' ids. A hash link to an element of another kind is treated as naming nothing.
- The submit button's label and opacity, and `form.reset` (app.js:164-169, 180-186). They are presentation. `focus()` is not modelled as a call; the verdict's `focus` field names the field that gets it.
- `Page.Site.SubmitContact`: the disabled state of the submit button is not modelled. In the source, disabling it (app.js:168) blocks a second submission until the sending timer restores it (app.js:185). The model lets `SubmitContact` run again while `sending` is not empty, so it admits submissions the page does not.
- The missing-inputs guard (app.js:126-129). The three input values are parameters, so the inputs are always present.
- The presence guards on the page's elements: `if (navToggle && navMenu)` (app.js:13, 39, 386), `if (header)` (app.js:348) and `if (contactForm)` (app.js:114). The model assumes the toggle, the menu, the header and the form all exist, so each guard is taken as true.
- `Text.Trim` works on Unicode code points (`char`), not on JavaScript's UTF-16 code units. Every whitespace code point that `trim` strips lies in the Basic Multilingual Plane, so the result is the same.
- `Page.Site.DocumentClick`: the document's click listeners are modelled as a set, not as an ordered list. The order does not matter, because at most one notification is attached and every other handler acts on a detached node.
- `Page.Site.DocumentClick` and `Page.Site.CloseButtonClick` require a clicked notification to be attached, because a detached node cannot be clicked. A click on the text of a notification is an `InNotice` target, and a click on any element the model does not name is `Elsewhere`.
- The sections are read once, as a constant of `Page.NavBar`, where the source queries them on every highlight (app.js:79). The layout is assumed not to change.
