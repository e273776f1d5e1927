# Zwier site scripts: the rule-bearing parts, modelled in Dafny

`scripts.js` enhances a Webflow marketing site: smooth scrolling, a cursor
follower, popups, carousels and marquees. Most of it wires third-party
libraries to the DOM. This project models the parts of it that carry a
rule of their own, with DOM elements represented as plain values (an
element's class set, an inline style string, an `Option` for an element a
query may not find):

- **Cookie lookup** (`CookieService.getCookie`): `document.cookie` is split
  on `"; "`, the first row that starts with `name=` is cut on `=`, and its
  second piece is returned, or null. `split`, `join`, `indexOf` and `find`
  are modelled with JavaScript's semantics. The main result is a round trip:
  for a jar of cookies whose names and values hold no `;` or `=`, reading a
  name back finds exactly the first cookie of that name. So a name that is
  only a prefix of a stored name never matches.
- **Exit-intent popup**: the page-load guard, the `shown` latch, the
  3-second timer and the top-edge `mouseout` listener. This is a class whose
  methods follow a pure step function. Lemmas over any sequence of events
  show that the cookie is written at most once, and that the popup is shown
  exactly when a trigger fired on an armed page.
- **Form record** (submit handler → `dataLayer`): the core entries with
  their fallbacks, then the fields in document order. A loop builds the
  record. Lemmas describe the result key by key: the last contributing field
  wins, and a core entry survives unless a field uses the same key.
- **Supervisor and room alternation**: 1-based parity decides the classes.
  Every supervisor class is forced with `classList.toggle(c, force)`. The
  rich text and the button, however, are looked up by the very classes a
  desktop run removes from them (`rich-text`, `button-secondary_red`). So
  when the handler re-runs on resize, `even`, the title/h4/label colours and
  the side wrapper follow the last viewport, while the rich text and the
  button keep the white desktop look from the first desktop run on (see
  Findings).
- **FAQ accordion**: a recursive method that re-enters the click handler for
  every open item, proved equal to a closed-form next state. A click on a
  closed item leaves exactly that item open; a click on an open item closes
  only that item. Once at most one item is open, every later click keeps it
  so.
- **CMS grid layout** (`applyGridStyles`): the decision table from item
  count and viewport width to the four grid styles and the items'
  `gridColumn`. For two to six items, the chosen template leaves no ragged
  last row.
- **"Show more"**: the load pass and the click handler over the items'
  `display`. The load pass hides the items from index 5 on and leaves the
  first five as they are; after `k ≥ 1` clicks exactly the items below
  `5 + 5k` are shown. The button is hidden once that limit covers every
  item, and otherwise keeps the display it started with.
- **Marquee sign rules**: base direction, playback sign per scroll
  direction, status text, timeline start/end offsets, initial `xPercent`,
  track geometry and the viewport step for the speed multiplier.

Observations that the model makes explicit:

- In the form handler, a field named `event`, `form_name`, `form_type` or
  `form_id` overwrites the core entry, because fields are stored after the
  core keys. So `event` is `"purchase_form"` only when no non-empty field
  carries that name.
- `formData` is a plain object literal. A field named `__proto__` passes the
  handler's test, but the assignment reaches the inherited `__proto__`
  setter, which ignores a string, so no entry is stored under that key.
- jQuery's `.data()` converts the attribute text `"false"`, `"null"`, `"0"`
  and `"NaN"` to falsy values. A form with `data-type="0"` is therefore
  recorded as `"unspecified"`.
- `getCookie` cuts a value at its second `=`. A value that itself contains
  `=` is returned truncated. The cookies this script reads (`"true"`) never
  contain one.
- The marquee starts with playback sign = base direction and status
  `"normal"`. After a scroll update, `"normal"` means the sign is the
  opposite of the base direction.
- The supervisor handler's desktop test is `min-width: 991px`. The grid
  helper's is `innerWidth >= 992`. Both are parameters here, so the model
  takes no side on which one a given viewport satisfies.

## Model

| member | source | states |
|---|---|---|
| CookieService.IndexOf | scripts.js:225-226 | the result is an occurrence of the separator at or after `from`, and no earlier one exists; None means there is no occurrence at all |
| CookieService.Split | scripts.js:225-226 | at least one piece; joining the pieces with the separator gives the input back; no piece contains the separator; there are two or more pieces exactly when the separator occurs |
| CookieService.SplitOfJoin | scripts.js:225-226 | splitting rows joined by a separator returns the rows, provided no row contains the separator's first character |
| CookieService.FindRow | scripts.js:227 | the index of the first row starting with the prefix; None exactly when no row does |
| CookieService.GetCookie | scripts.js:224-229 | None exactly when no `"; "`-row starts with `name=`; a value never contains `=`; for a name without `=`, the value is what follows `name=` in the first matching row, up to the next `=` or the end |
| CookieService.GetCookieOfSerialized | scripts.js:224-229 | on a jar of plain cookies, `getCookie` returns the value of the first cookie with exactly that name, and None when there is none (a name that is only a prefix does not match) |
| ExitIntentPopup.Armed | scripts.js:237-238 | armed exactly when the element exists and the first `"; "`-row starting with `exitIntentShown=`, if there is one, holds nothing before its end or its next `=` (the lookup is falsy) |
| ExitIntentPopup.Show | scripts.js:242-248 | the popup ends shown; the first call sets `display: flex`, writes the cookie once and detaches the listener; on a shown popup nothing changes; a consistent armed state stays consistent |
| ExitIntentPopup.Step | scripts.js:250-257 | an event either changes nothing or shows the popup, and it changes something only on a popup not yet shown, for the timer on an armed page or for a top-band mouseout while the listener is attached; consistency is kept |
| ExitIntentPopup.RunKeepsConsistent | scripts.js:240-248 | under any events, the cookie is written at most once, and exactly when the popup is shown; a shown popup displays `flex` and has no listener |
| ExitIntentPopup.ShownIffTriggered | scripts.js:237-258 | from page load, the popup ends up shown exactly when the page was armed and some event was the timer or a mouseout leaving through the top band |
| ExitIntentPopup.ShownIsLatched | scripts.js:242-244 | once shown, no later event changes anything |
| ExitIntentPopup.UnarmedStaysIdle | scripts.js:237-238 | on a page that is not armed, no event changes anything |
| ExitIntentPopup.RecordedCookieDisarms | scripts.js:238 | with `exitIntentShown=true` in the jar, the next page load is not armed |
| ExitIntentPopup.NoCookieArms | scripts.js:237-238 | with no `exitIntentShown` cookie and the element present, the page is armed |
| ExitIntentPopup.EmptyCookieArms | scripts.js:237-238 | an `exitIntentShown` cookie stored with an empty value reads as not set, so a page with the element is armed |
| ExitIntentPopup.ExitPopup.constructor | scripts.js:237-240 | the page-load state: not shown, no cookie written, the listener attached exactly when armed |
| ExitIntentPopup.ExitPopup.ShowPopup | scripts.js:242-248 | first call: shown, `display: flex`, one cookie write, listener removed; later calls change nothing |
| ExitIntentPopup.ExitPopup.TimerFires | scripts.js:257 | the 3-second timer calls `showPopup` on an armed page |
| ExitIntentPopup.ExitPopup.HandleMouseOut | scripts.js:250-254 | while the listener is attached, calls `showPopup` only when there is no `toElement`, no `relatedTarget` and `clientY < 10` |
| FormDataLayer.CoreRecord | scripts.js:272-275 | exactly the four core keys: `event` is `purchase_form`; `form_name` defaults to `unknown_form`; `form_type` defaults to `unspecified`; `form_id` is taken from `data-id`, then `id`, then `unspecified` (each under JavaScript truthiness) |
| FormDataLayer.WithFields | scripts.js:278-285 | the starting keys are kept; every new key is the key of a contributing field (a non-empty key other than `__proto__`, and a non-empty value); without a contributing field the record is unchanged |
| FormDataLayer.Record | scripts.js:269-285 | the record holds the four core keys; any other key comes from a contributing field; without a contributing field it is exactly the core record |
| FormDataLayer.LastWriterWins | scripts.js:278-285 | under a key, the record holds the value of the last field that has a non-empty key other than `__proto__` and a non-empty value |
| FormDataLayer.UnwrittenKeyKept | scripts.js:278-285 | a key that no contributing field uses keeps its starting entry, or stays absent |
| FormDataLayer.WithFieldsKeys | scripts.js:278-285 | the record's keys are the starting keys plus the keys of the contributing fields |
| FormDataLayer.CoreEntryKept | scripts.js:272-285 | a core entry, `event` included, survives unless a contributing field uses its key |
| FormDataLayer.BuildRecord | scripts.js:269-285 | the loop builds exactly the record described by the core entries and the fields in document order |
| FormDataLayer.DataLayer.OnSubmit | scripts.js:268-289 | a submission appends that record to the data layer and changes nothing else |
| AlternatingStyles.StyleSupervisor | scripts.js:397-433 | `even` is set exactly on desktop at an even 1-based position, and no other supervisor class changes; odd supervisors change nothing else; at even positions every restyled element keeps all classes other than its pair; the title/h4/label pair (`white`/`default-text-color`) has exactly one class set, the desktop one exactly on desktop, and the side wrapper's `reverse-border` follows desktop; the rich text (button) gets exactly one of `rich-text-white`/`rich-text` (`button-secondary_red-white`/`button-secondary_red`) when it still carries `rich-text` (`button-secondary_red`), and is untouched otherwise |
| AlternatingStyles.ResizeBackLeavesRichTextWhite | scripts.js:404-429 | an even supervisor styled on desktop and then on a narrow viewport keeps `rich-text-white` and `button-secondary_red-white` as written, where the intended restyling returns to `rich-text` and `button-secondary_red` |
| AlternatingStyles.ResizeRunsAsWritten | scripts.js:548-556 | after re-runs on resize, `even`, the title/h4/label colours and the side wrapper are as for the last viewport; a rich text or button found at first shows the desktop look if any run was on desktop and the narrow look otherwise; one not found is never touched |
| AlternatingStyles.StyleSupervisorIntended | scripts.js:397-433 | the intended restyling: like StyleSupervisor, but the rich text and button pairs are forced on every run; every restyled element keeps all classes other than its pair |
| AlternatingStyles.LaterRunWins | scripts.js:397-433 | with the intended restyling, styling twice gives the result of the second viewport alone |
| AlternatingStyles.LastResizeDecides | scripts.js:548-556 | with the intended restyling, after any number of re-runs on resize the supervisor is styled as for the last viewport |
| AlternatingStyles.HandleSupervisorStyles | scripts.js:390-444 | each supervisor is restyled for its own index; the interactions engine is re-initialised exactly when there are at least two supervisors and Webflow is present |
| AlternatingStyles.InitRoomsAlternating | scripts.js:447-457 | rooms at even 1-based positions get `reverse-border` on the image wrap and `reverse` on the tag (where present); odd rooms are untouched |
| AlternatingStyles.ReverseRoom | scripts.js:451-454 | each part the room has stays present and gains its class (`reverse-border` on the image wrap, `reverse` on the tag), and nothing else changes |
| AlternatingStyles.NeighboursAlternate | scripts.js:449-455 | on rooms that did not have the class before, of two neighbouring tags exactly one is reversed |
| FaqToggle.OpenItems | scripts.js:489 | the open items, each exactly once, in document order |
| FaqToggle.AfterClick | scripts.js:487-494 | clicking a closed item leaves that item the only open one; clicking an open item closes it and changes nothing else; classes other than `open` never change |
| FaqToggle.ClicksKeepAtMostOneOpen | scripts.js:487-494 | any sequence of clicks on existing items keeps at most one item open |
| FaqToggle.ClickTwiceRestores | scripts.js:487-494 | with nothing open, clicking an item twice restores every item |
| FaqToggle.Accordion.Click | scripts.js:487-494 | the re-entrant handler, which clicks each open item before opening its own, ends in the state `AfterClick` describes |
| ShowMore.AfterClicks | scripts.js:569-581 | after the load pass, items below 5 are untouched and the rest are `none`; after k ≥ 1 clicks, items below `5 + 5k` are `block` and the rest are `none` |
| ShowMore.ButtonAfter | scripts.js:580-584 | after k clicks, the button is hidden exactly when `items.length ≤ 5 + 5k`, and otherwise keeps its starting display |
| ShowMore.ShowMoreList.constructor | scripts.js:560-585 | the load pass hides items from index 5 on and leaves the rest; with a button and at most 5 items, it hides the button |
| ShowMore.ShowMoreList.Click | scripts.js:574-582 | `currentlyVisible` grows by 5; every item below the new limit is `block` and the others are unchanged; the button is hidden once the limit reaches the item count |
| CmsGridLayout.Layout | scripts.js:504-529 | below 992 px, or for a count outside 1..6, all four styles are empty; on desktop one item is `flex` and centred, 2 and 4 items get `repeat(2, 1fr)`, 3, 5 and 6 items get `repeat(3, 1fr)`; `display` is `grid` exactly for 2..6 items on desktop; `justifyContent` is set only for a single item; `gridTemplateRows` is `auto auto` for five items on desktop and empty otherwise |
| CmsGridLayout.ItemColumns | scripts.js:523-532 | the item count is unchanged; below 992 px every item's `gridColumn` is cleared; on desktop every item keeps its `gridColumn` except the fourth of five, which gets `span 2` |
| CmsGridLayout.OnlyFourthOfFiveSpans | scripts.js:519-532 | an item ends with `span 2` only when it is the fourth of five items on a desktop viewport |
| CmsGridLayout.FullRows | scripts.js:510-524 | starting from items without a span, for 2..6 items on desktop the items fill a whole number of rows of the chosen column template |
| CmsGridLayout.ItemColumnsIdempotent | scripts.js:497-534 | re-applying at the same width changes no item |
| CmsGridLayout.CmsGrid.ApplyGridStyles | scripts.js:497-534 | the grid ends with the styles `Layout` gives for its item count and width, and its items with the columns `ItemColumns` gives |
| MarqueeDirection.BaseDirection | scripts.js:613 | the base direction is +1 exactly for `"right"`, otherwise -1 |
| MarqueeDirection.SpeedMultiplier | scripts.js:616-617 | 0.25 exactly below 479 px, 1 exactly from 991 px, 0.5 in between |
| MarqueeDirection.SpeedMultiplierMonotone | scripts.js:616-617 | a wider viewport never gets a smaller multiplier |
| MarqueeDirection.TimeScale | scripts.js:657-662 | the playback sign is ±1, and it equals the base exactly when the scroll direction is not 1 |
| MarqueeDirection.Status | scripts.js:663-666 | the status is `normal` exactly when the scroll direction is 1, and `inverted` otherwise |
| MarqueeDirection.UpdateRules | scripts.js:657-666 | a change of scroll direction flips only the sign; after an update `normal` means playing against the base direction |
| MarqueeDirection.ScrollStart | scripts.js:678-679 | the timeline starts at `-base × scrollSpeed` |
| MarqueeDirection.ScrollEnd | scripts.js:680 | the timeline ends at `base × scrollSpeed`, the mirror of the start |
| MarqueeDirection.InitialXPercent | scripts.js:646-648 | the items start a full width (100 %) on the base-direction side |
| MarqueeDirection.TrackFor | scripts.js:623-624 | the track reaches `scrollSpeed` % past both edges of its parent |
| MarqueeDirection.TrackCoversTimeline | scripts.js:623-684 | in pixels, with the margin and width taken as percentages of the parent's width and the timeline's offsets as percentages of the viewport's width, the track reaches equally far past both edges of the parent, and for a positive `scrollSpeed` that overhang covers the largest shift exactly when the parent is at least as wide as the viewport |
| MarqueeDirection.Marquee.constructor | scripts.js:649-651 | playback starts at the base direction with status `normal` |
| MarqueeDirection.Marquee.OnScrollUpdate | scripts.js:657-667 | the sign and status become `TimeScale` and `Status` of the scroll direction; the sign stays ±base |

## Left out

- Swiper construction, the gallery's readiness wait and the repeated re-centering. Their behaviour depends on the slider library's internals, on image-load promises, on timers and on animation frames.
- Lenis, GSAP and ScrollTrigger: the marquee tween, its duration (a floating-point product of widths), phase continuity on a sign flip, and the timeline itself. Only the sign, step and offset rules are modelled.
- Marquee content cloning (`duplicate`) is DOM copying with no rule beyond "clone n times". `parseFloat`/`parseInt` of the attributes, including `NaN` results, is not modelled: the speeds are taken as reals.
- The cursor follower: a per-frame floating-point smoothing loop.
- `setCookie`: it needs the clock (`Date`) for the expiry. The popup records each call as one cookie write. The jar lemmas take the written cookie as `exitIntentShown=true`.
- The resize debounce and the start-up ordering through `requestAnimationFrame`/`setTimeout` are timing only. Their effect is covered by ResizeRunsAsWritten and ItemColumnsIdempotent.
- Plain DOM plumbing: the `localStorage` flag, the copyright year, editor video muting, nav underline and smooth scroll, lightbox video controls, the corner popup, `console.log`.
- Missing elements: `applyGridStyles` returns early without `.room-grid`, and the marquee skips a marquee without its targets. The model starts from an existing grid and marquee.
- FormDataLayer.CoreRecord: models only the truthiness of jQuery's `.data()` conversion. The value is kept as its attribute text, whereas jQuery would push a number, a boolean or a parsed JSON object.
- Field values: `.val()` is taken as a string. A multiple select's array value is not modelled.
- Supervisor lookups: each supervisor has at most one rich-text and one button candidate. If the text column held a second element carrying `rich-text` or `button-secondary_red`, a later run would find that one instead; this is not modelled.

## Findings

| source | as written | input that shows it | evidently intended | confidence | as-written member | corrected member |
|---|---|---|---|---|---|---|
| scripts.js:404-429 | the rich text and the button are selected by `.rich-text` and `.button-secondary_red`, the very classes a desktop run removes, so a later run on a narrow viewport (the resize handler at scripts.js:554) no longer finds them | an even (second) supervisor whose rich text carries `rich-text` and whose button carries `button-secondary_red`, styled on desktop and then on a narrow viewport: they keep `rich-text-white` and `button-secondary_red-white` | every run restyles both, so the last viewport decides their look as it does for the titles and the side wrapper | medium, not executed | AlternatingStyles.ResizeBackLeavesRichTextWhite | AlternatingStyles.LaterRunWins |
