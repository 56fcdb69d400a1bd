# Gym site script: a verified model of its logic

The site's script (`app.js`) fills a single marketing page from a content document and wires
up a few widgets. Most of it writes HTML strings into the page. This project models the parts
whose behaviour can be stated as logic, and proves properties about them:

- **Countdown** (`countdown.dfy`): the remaining milliseconds until an offer's deadline are
  split into days, hours, minutes and seconds. At the deadline the text becomes "Offer ended"
  and the tick stops rescheduling itself. `CountdownWidget` is the element plus its pending tick.
- **Compare slider** (`compare.dfy`): the pointer offset is clamped to the box, turned into a
  reveal percentage, and split into the clip inset and the handle position. It works on reals.
- **Content loader** (`loader.dfy`): the JSON file is tried first; on any failure the script
  falls back to the Markdown file. From that file it takes the first fenced block labelled json,
  as `/```json([\s\S]*?)```/` does.
- **Default substitution** (`defaults.dfy`): the `field || 'default'` and `setText` rules for the
  page texts, and the hero media choice.
- **Theme toggle** (`theme.dfy`), **mobile nav** (`nav.dfy`) and **schedule tabs**
  (`schedule.dfy`): classes whose fields are the attributes, classes and storage the handlers change.

The outside world enters as plain inputs:
- fetch results are `Response` values and JSON parsing is a function parameter;
- the clock is an integer millisecond reading (and a year for the footer);
- local storage is one optional field;
- element geometry is a pair of reals.

Where the code's behaviour is easy to misread, the model follows the code as written:
- The Markdown fallback does not check the response status. A non-ok answer's body is still
  searched for a block.
- A nav-link click closes the menu only when the link's target element exists. Otherwise
  `scrollIntoView` is called on null, which throws before `open` is removed. An href that is
  not a valid selector (such as "#" or an absolute URL) makes `querySelector` itself throw, so
  the menu stays open too. `FollowLink`'s `targetFound == false` covers both cases.
- The first schedule key is selected with `if(keys[0])`. An empty-string first key therefore
  gets an active button but no rendered pane.
- A saved theme value other than "dark" or "light" reads as light for the icon ('☀️') and
  toggles to "dark".

## Model

| member | source | states |
|---|---|---|
| Decimal.NatToString | app.js:49 | the numeral shown for a count is non-empty, all digits, with no leading zero except for 0 itself |
| Decimal.ValueOfNatToString | app.js:49 | reading a shown numeral back gives the original number |
| Countdown.Decompose | app.js:45-48 | floor division and remainder give hours < 24, minutes < 60, seconds < 60 |
| Countdown.DecomposeWindow | app.js:45-48 | d·86400000 + h·3600000 + m·60000 + s·1000 ≤ diff < that sum + 1000 |
| Countdown.DecomposeUnique | app.js:45-48 | any in-range d, h, m, s inside that one-second window are exactly the ones computed, so the decomposition is the unique such one |
| Countdown.Format | app.js:49 | the countdown text is non-empty and begins with a digit |
| Countdown.Render | app.js:44-49 | the text is "Offer ended" if and only if the deadline has been reached (diff ≤ 0) |
| Countdown.RenderOneHourOneMinuteOneSecond | app.js:44-49 | 3661000 ms remaining renders "0d 1h 1m 1s" |
| Countdown.CountdownWidget.Start | app.js:40-53 | starting unhides the element and runs the first tick at once: the text is the rendering of target − now and a further tick is pending exactly when now < target |
| Countdown.CountdownWidget.Tick | app.js:42-51 | one tick at clock reading now shows the rendering of target − now; the next tick is scheduled only while now < target, so a tick is pending exactly when the text is not "Offer ended" |
| Countdown.CountdownWidget.Run | app.js:42-51 | successive scheduled ticks stop at the first reading at or past the deadline; the text is the rendering of target minus the last reading (the widget's invariant ties the text to the remaining time of the last tick); every earlier reading was before it; a pending widget given any reading runs at least one tick; it stops early only by ending; an ended widget runs no more ticks and keeps "Offer ended"; when no tick runs, the text, the pending flag and the remaining time are unchanged |
| Compare.Clamp | app.js:68 | the offset lies in [0, width] and equals px − left when that is already inside |
| Compare.SetX | app.js:66-72 | clip inset + handle position == 100; a zero-width box gives NaN |
| Compare.RevealInBounds | app.js:68-71 | on a box of positive width both percentages lie in [0, 100] |
| Compare.LeftEdgeRevealsNothing | app.js:68-71 | at or left of the left edge the handle is at 0% and the inset is 100% |
| Compare.RightEdgeRevealsAll | app.js:68-71 | at or right of the right edge the handle is at 100% and the inset is 0% |
| Compare.InsideFollowsPointer | app.js:68-69 | inside the box the percentage is (px − left) / width · 100 |
| Compare.RevealMonotone | app.js:68-69 | moving the pointer right never moves the handle left |
| ContentLoader.IndexOf | app.js:96 | finds the first occurrence of a pattern at or after a position, or reports that there is none |
| ContentLoader.ExtractJsonBlock | app.js:96-97 | an extracted block lies between an opening "```json" and a later "```" of the file |
| ContentLoader.ExtractIsLeftmostLazyMatch | app.js:96-97 | extraction fails exactly when no "```json" has a later "```"; otherwise it returns the text between the leftmost opening and its nearest closing fence, which is the regular expression's match |
| ContentLoader.BlockHasNoFence | app.js:96-98 | an extracted block never contains "```" |
| ContentLoader.EmptyBlockExample | app.js:96-98 | "```json```" yields the empty block |
| ContentLoader.Load | app.js:86-101 | every load starts by fetching the JSON file |
| ContentLoader.PrimaryWins | app.js:87-91 | an ok JSON response that parses is returned as parsed, after exactly the JSON fetch and body read; the Markdown file is not touched |
| ContentLoader.FallbackOnlyAfterPrimaryFails | app.js:87-94 | the Markdown file is fetched if and only if the first attempt failed (network error, status not ok, or parse error), and never before the JSON fetch; a body is read as JSON if and only if the response was ok |
| ContentLoader.NoBlockFailsWithoutParsing | app.js:95-98 | a fallback file without a json block fails with "No JSON block found in content.md", and nothing is parsed from it |
| ContentLoader.LoadFallback | app.js:92-99 | the fallback starts by fetching content.md and never refetches the JSON file; a block is parsed if and only if the fetch succeeded and a block was extracted; whatever it loads comes from the Markdown file |
| ContentLoader.FallbackDecides | app.js:92-99 | after a failed first attempt, a failed content.md fetch fails the load; an extracted block that parses is loaded from the Markdown file; one that does not parse fails with a parse error |
| ContentLoader.LoadedDocumentIsParsed | app.js:86-101 | a loaded document is the parse of the ok JSON body, or the parse of the extracted block after the first attempt failed |
| Defaults.OrDefault | app.js:80 | an absent or empty value yields the default; a present non-empty value is passed through verbatim |
| Defaults.SetText | app.js:80 | a filled-in text is shown as is; the element is emptied exactly when the text is absent or empty |
| Defaults.RenderPage | app.js:109-272 | the elements with a non-empty default are never blank; the footer copy names the brand the logo shows; the nav call-to-action always shows the same label and link as the first hero call-to-action |
| Defaults.EachFieldDefaultsAlone | app.js:109-272 | for any document, each element shows its own field when it is filled in and its literal default otherwise, whatever the other fields hold |
| Defaults.HeadShownVerbatim | app.js:109-131 | filled-in meta, hero, call-to-action and about fields are shown verbatim; the logo and the footer use the brand |
| Defaults.HeadBlankDefaults | app.js:109-131 | with those fields absent: "Gym Website", "Premium gym website", "[Gym Name]", "Start Free Trial"/#pricing, "Book a Session"/#contact; the headline, subtext and about text are emptied |
| Defaults.OfferShownVerbatim | app.js:236-237 | filled-in offer text and offer call-to-action are shown verbatim |
| Defaults.OfferBlankDefaults | app.js:236-237 | with them absent: the 20%-off text, "Claim Offer" and #contact |
| Defaults.FooterShownVerbatim | app.js:268-272 | filled-in footer fields are shown verbatim, after their address/phone/email labels |
| Defaults.FooterBlankDefaults | app.js:268-272 | with them absent: an empty headline, bare labels, "Book Your Free Trial" and # |
| Defaults.ChooseHeroMedia | app.js:123-128 | a video is used when given, else an image when given, else the media area is left alone |
| Theme.InitialTheme | app.js:6 | the saved theme when present and non-empty, otherwise "dark" |
| Theme.Flip | app.js:10 | a click gives "light" exactly from "dark", and "dark" from anything else |
| Theme.IconFor | app.js:8 | the icon is the moon exactly for "dark", and the sun for every other theme |
| Theme.FlipTwice | app.js:10 | two clicks restore "dark" and "light"; any other value goes to "dark" and then "light" |
| Theme.ThemeToggle.Load | app.js:6-8 | the attribute takes the initial theme, and the icon is the moon exactly for "dark" |
| Theme.ThemeToggle.Toggle | app.js:9-14 | the theme flips, storage holds exactly the new value, and the icon follows |
| Theme.ToggleTwiceFromNothingSaved | app.js:6-14 | with nothing saved the page starts dark; two clicks persist "light" then "dark" and end dark |
| Nav.AriaValue | app.js:20 | the attribute text is "true" exactly when the menu is open |
| Nav.MobileNav.ToggleMenu | app.js:17-21 | `open` is negated and aria-expanded equals the new state |
| Nav.MobileNav.FollowLink | app.js:24-28 | a link whose target exists closes the menu; one whose target is missing leaves it unchanged; aria-expanded is untouched |
| Nav.OpenThenFollowLeavesAriaStale | app.js:17-28 | opening the menu and then following a link leaves it closed while aria-expanded still reads "true" |
| Nav.MobileNav.FollowLinkSynced | app.js:24-28 | the corrected click also writes aria-expanded, so the attribute keeps mirroring `open` |
| Nav.OpenThenFollowSyncedKeepsAria | app.js:17-28 | with the corrected click the same two steps leave the menu closed and aria-expanded "false" |
| Schedule.FirstIndex | app.js:191 | the button found for a key is the first one with that data-key; none exactly when no button has it |
| Schedule.ActiveMarks | app.js:190-191 | one mark per button; a marked button carries the selected key, and no earlier button does |
| Schedule.PaneItems | app.js:192 | a key of the schedule gives its entries unchanged and in order; a missing key gives nothing |
| Schedule.ExactlyOneActive | app.js:189-191 | after selecting a key that has a tab exactly one button is active, and with distinct keys it is that key's button; a key without a tab leaves none active |
| Schedule.ScheduleTabs.Mount | app.js:197-201 | one button per key in key order with only the first active; the first key is then selected unless it is empty |
| Schedule.ScheduleTabs.RenderSchedule | app.js:189-196 | the active marks become exactly the selected button's, and the pane holds the key's entries in their original order, or nothing for a missing key |

## Findings

| source | as written | input that shows it | evidently intended | confidence | as-written member | corrected member |
|---|---|---|---|---|---|---|
| app.js:24-28 | a nav-link click removes `open` from the nav but does not update the hamburger's aria-expanded | click the hamburger (aria-expanded becomes "true"), then click a nav link: the menu is closed but aria-expanded still reads "true" | aria-expanded mirrors the menu state after every change, as the hamburger handler at app.js:20 keeps it | medium, not executed | Nav.OpenThenFollowLeavesAriaStale | Nav.MobileNav.FollowLinkSynced |

## Left out

- HTML templating into `innerHTML` (cards, slides, pricing, blog, FAQ, trainers, testimonials,
  app.js:133-265; also the `||` defaults inside those templates): this is presentation only.
  The pane is modelled as its list of schedule entries, not as markup.
- `fetch`, `r.json()`, `r.text()` and `JSON.parse`: browser I/O and a foreign parser. Their
  outcomes are inputs, and a rejected `r.text()` counts as a failed fallback fetch.
- Non-string JSON values in text fields (numbers, booleans) are not modelled. A field is absent,
  empty or a string.
- A schedule value that is `null`, and the way `Object.keys` orders integer-like keys: the key
  order is given as an input.
- Schedule keys with characters that CSS escapes or rejects in `[data-key="…"]` are not modelled.
  These include a double quote, a backslash and a newline. They make the button lookup miss or
  throw.
- `requestAnimationFrame` and `setTimeout` timing, and `new Date(...)` parsing: clock readings
  are integer milliseconds. An unparsable deadline (NaN difference) is not modelled.
- The `if(data.offers?.deadline)` guard that starts the countdown is not modelled. It needs the
  date parsing above.
- Slider `scrollBy`, smooth scrolling, `getBoundingClientRect`, and touch and mouse event
  plumbing: these are DOM geometry. The formatting of percentages as CSS text is also left out.
- The FAQ accordion's `open` toggle, the about stats list and the benefits list: DOM building
  with no state beyond a class toggle.
- `alert` and `console.error` when loading fails, the `getFullYear` value (an input here), the
  unused `setHTML`, and guarded lookups of optional elements, which are assumed present.
- Errors thrown by the rendering pass after a successful load: they also reach the `alert`,
  which is not modelled.
- Schedule.ScheduleTabs.Mount: the schedule pane is assumed to start empty. When no key is
  rendered (no keys, or an empty first key) the page keeps whatever markup `#schedule-content`
  already held, which the model does not represent.
- Compare.SetX: JavaScript floating point is modelled as exact real arithmetic.
