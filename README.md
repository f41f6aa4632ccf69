# Portfolio components: a verified model

The portfolio site has four small pieces of real logic. This project models each of them in Dafny and proves what they do:

- **Contact form** (`contact.dfy`, module `Contact`).
  - The endpoint URL built from the configured base.
  - `validate` with its honeypot check, and the hand-written shape check for the email regular expression.
  - The single-field `handleChange`.
  - `handleSubmit` in its two halves, split at the `await`:
    - `HandleSubmit` validates, shows the first error or sets `sending`, and returns the payload.
    - `Complete` classifies the outcome, clears the form on success, and resets `sending` in `finally`.
    - `HandleChange` can run in between, as it can while the request is in flight.
  - The HTTP exchange is an input (`FetchOutcome`).
  - Lengths are counted as JavaScript's `.length` counts them, in UTF-16 code units (`Utf16Length`).
  - `jstext.dfy` (module `JsText`) holds the JavaScript string behaviour the form relies on: `trim`, the `\s` class and decimal rendering.
- **Hero** (`typing.dfy`, module `Typewriter`).
  - The `TypingText` typewriter, as a pure transition system (`Scheduled`, `Step`, `Run`).
  - A class `TypingText` whose `Fire` method performs one timer firing.
  - The pure clamp arithmetic of the orbit panel's `measure`.
- **Navigation bar** (`nav.dfy`, module `Navigation`).
  - A class `NavBar` whose methods are the component's events: resize, hero intersection, a click on an item (`scrollToHash`), the end of the 800 ms suppression, Escape, and the menu buttons.
  - Pure decision functions for visibility and scroll target.
- **Skills** (`skills.dfy`, module `Skills`).
  - The `categories` and `filtered` memos.
  - The per-card stagger arithmetic.
  - A class for the `selected`/`animateStart` toggle.

The typewriter is modelled as the code behaves, which differs from how such an effect is usually described:
- When `pos` reaches the end of the text, the typing timer is cleared before it fires. `display` therefore never shows the whole text (`TypingBounds`).
- A one-character text never shows anything.
- The empty text stops after two firings (`EmptyTextHalts`).
- For longer texts the cycle returns to "first character shown, `pos` 1" every `2 * |text|` firings (`CyclePeriod`).
- Changing the `text` prop does not restart the cycle. The model fixes the props for the component's life.

In `measure`, the radius clamp to [44, 260] never takes effect. Sizes are clamped to [140, 520] first, so the radius is always between 50 and 187 (`RadiusClampNeverBinds`).

## Model

| member | source | states |
|---|---|---|
| Contact.StripTrailingSlashes | component/Contact.jsx:6 | the result is a prefix of the input, everything removed is '/', and no '/' is left at the end |
| Contact.StripTrailingSlashesIdempotent | component/Contact.jsx:6 | stripping trailing slashes twice gives the same as once |
| Contact.ContactUrl | component/Contact.jsx:6-7 | the URL ends in "/contacts"; what precedes it is the configured base minus a run of trailing slashes, and never ends in '/' (empty when the base is unset, empty or all slashes) |
| Contact.Form.With | component/Contact.jsx:37 | `{...s, [name]: value}` sets the named field and no other |
| Contact.Errors.Cleared | component/Contact.jsx:38 | `{...prev, [name]: undefined}` removes the named field's error and keeps every other |
| Contact.MatchesEmailPattern | component/Contact.jsx:27 | the language of `^[^\s@]+@[^\s@]+\.[^\s@]+$`: a non-empty run without white space or '@', then '@', a non-empty run, '.', a non-empty run, the last two also without white space or '@'; related to the check by `EmailCheckMatchesPattern` |
| Contact.IndexOf | component/Contact.jsx:27 | the first index of the character, or the length when absent |
| Contact.IsValidEmail | component/Contact.jsx:27-28 | `re.test` written out by hand: one '@' after a non-empty start, no white space, and a dot strictly inside the part after the '@'; `EmailCheckMatchesPattern` proves it accepts exactly the pattern's language |
| Contact.EmailCheckMatchesPattern | component/Contact.jsx:27 | the hand-written email check accepts exactly the language of `^[^\s@]+@[^\s@]+\.[^\s@]+$` |
| Contact.ValidEmailMatches | component/Contact.jsx:27 | every string the check accepts matches the pattern |
| Contact.MatchIsValidEmail | component/Contact.jsx:27 | every string matching the pattern is accepted by the check |
| Contact.EmailError | component/Contact.jsx:25-29 | "Please enter your email" for an empty trimmed email, "Please enter a valid email" when it does not match the pattern, no error otherwise |
| Contact.Validate | component/Contact.jsx:22-33 | `validate(values)`; what each check decides is the contract of `ValidateChecks` |
| Contact.ValidateChecks | component/Contact.jsx:22-33 | the name error is present iff the trimmed name is empty; the email error as above; the message error iff the trimmed message is under 8 UTF-16 code units (the empty message included); "Spam detected" iff the honeypot is non-empty |
| Contact.AstralMessageLength | component/Contact.jsx:30 | a message of four characters outside the Basic Multilingual Plane has `.length` 8 and passes the length check |
| Contact.ValidationPassesExactly | component/Contact.jsx:22-33 | no error at all iff name non-empty, email matches, message at least 8 UTF-16 code units and honeypot empty (both directions) |
| Contact.SubjectNeverValidated | component/Contact.jsx:22-33 | changing the subject never changes the errors |
| Contact.FirstTruthy | component/Contact.jsx:64 | `find(Boolean)` returns the first non-empty element of the list (every element before it is empty), and nothing exactly when every element is empty |
| Contact.Errors.Values | component/Contact.jsx:63-64 | `Object.values(errs)` in insertion order: at most four texts, empty exactly when no check failed, led by the name error, else the email, else the message, else the honeypot error |
| Contact.ValidationStatusText | component/Contact.jsx:64-65 | the first error text, or else 'Validation error': never empty, the first non-empty value when there is one, the fallback when every value is empty |
| Contact.ValidationStatusIsFirstError | component/Contact.jsx:61-66 | when validation fails the status text is the first failing check's message in the order name, email, message, honey; the fallback never shows |
| Contact.JsValue.TruthyOr | component/Contact.jsx:87 | `value ?? d` is truthy iff the value is truthy, or it is null or undefined and `d` is truthy |
| Contact.Accepted | component/Contact.jsx:87 | `res.ok && (data?.ok ?? true)`, stated without `??`: an OK response whose `ok` field is absent, null or truthy |
| Contact.OrElse | component/Contact.jsx:92 | JavaScript `or` on two texts gives the first when it is non-empty, else the second, and is empty only when both are |
| Contact.Classify | component/Contact.jsx:76-99 | success iff the response is ok and its `ok` field is absent, null or truthy, with the thank-you text; otherwise `error`, else `message`, else "Server returned <status>"; fixed texts for a non-JSON body and a network failure; the text is never empty |
| Contact.ContactForm.constructor | component/Contact.jsx:16-19 | an empty form, no errors, no status, not sending |
| Contact.ContactForm.HandleChange | component/Contact.jsx:35-40 | only the named field changes, only its error is cleared, the status is reset, `sending` is untouched |
| Contact.ContactForm.HandleSubmit | component/Contact.jsx:58-79 | the status is reset and the errors become `validate(form)`; a request is made iff there are none, carrying the form as it is at submit time, with `sending` set; on failure the status is the first error and `sending` is unchanged; the form is never changed |
| Contact.ContactForm.Complete | component/Contact.jsx:80-102 | once the request settles, the status is the classified outcome, the form (as edited meanwhile) is emptied only on success, the errors are untouched and `sending` is false whatever the outcome |
| JsText.IsSpace | component/Contact.jsx:24-27 | the ECMAScript white space and line terminators: what `\s` matches and `trim` removes (predicate; used by the trim and pattern contracts) |
| JsText.TrimStart | component/Contact.jsx:24 | the leading half of `trim`; what it keeps is the contract of `TrimStartSpec` |
| JsText.TrimEnd | component/Contact.jsx:24 | the trailing half of `trim`; what it keeps is the contract of `TrimEndSpec` |
| JsText.Trim | component/Contact.jsx:23-30 | `trim`; what it keeps is the contract of `TrimSpec` |
| JsText.TrimStartSpec | component/Contact.jsx:24 | a suffix not starting with white space, everything removed being white space |
| JsText.TrimEndSpec | component/Contact.jsx:24 | a prefix not ending with white space, everything removed being white space |
| JsText.TrimSpec | component/Contact.jsx:23-30 | `trim` gives a contiguous piece of the input with only white space on either side of it; empty iff the input is all white space, otherwise starting and ending with non-space |
| JsText.Utf16Length | component/Contact.jsx:30 | `.length`: one code unit for a character in the Basic Multilingual Plane and two for one above it; between the number of characters and twice it, and equal to it exactly when every character is in the Basic Multilingual Plane |
| JsText.Utf16LengthAppend | component/Contact.jsx:30 | `.length` of a concatenation is the sum of the lengths, so with the one-character case it fixes the count for every text |
| JsText.Decimal | component/Contact.jsx:92 | the rendering of a status code is non-empty, all digits and without a leading zero |
| JsText.DecimalRoundTrip | component/Contact.jsx:92 | reading the rendered digits back gives the number |
| Typewriter.SlicePrefix | component/Hero.jsx:38 | `text.slice(0, pos)` is a prefix of the text, the first `pos` characters when `pos` is in range |
| Typewriter.Scheduled | component/Hero.jsx:35-65 | the timer the effect sets: a typing tick below the end, the pause at the end, a deleting tick above zero, the restart pause at or below zero, none when typing past the end |
| Typewriter.Apply | component/Hero.jsx:36-63 | the four callbacks: a tick shows `text.slice(0, pos)`, the first `pos` characters, and moves `pos` one step in its direction; the end pause turns to deleting one position back; the start pause turns to typing at 1; pauses keep `display` |
| Typewriter.Delay | component/Hero.jsx:40-63 | the timeouts: `typeSpeed`, `pause`, `deleteSpeed` and the fixed 250 ms; the time of each phase is stated by `TypePhase`, `DeletePhase` and `CyclePeriod` |
| Typewriter.Step | component/Hero.jsx:35-65 | a firing happens exactly when a timer is scheduled |
| Typewriter.StepPreservesInv | component/Hero.jsx:35-64 | every firing keeps `display` a prefix of the text and, for a non-empty text, `pos` in `[0, len]` and `display` shorter than the text |
| Typewriter.RunPreservesInv | component/Hero.jsx:35-64 | the invariant holds after any number of firings |
| Typewriter.TypingBounds | component/Hero.jsx:38-53 | from mount on, `display` is a prefix of the text, `pos` stays in `[0, len]` and `display` never equals a non-empty text |
| Typewriter.NeverHalts | component/Hero.jsx:35-65 | for a non-empty text a timer is always pending |
| Typewriter.EmptyTextHalts | component/Hero.jsx:35-65 | for the empty text, after two firings the state is `("", 1, false)` and no timer is set again |
| Typewriter.TypePhase | component/Hero.jsx:35-41 | typing from `pos` takes `len - pos` ticks of `typeSpeed` and ends showing all but the last character with `pos == len` |
| Typewriter.TypeToBack | component/Hero.jsx:35-49 | typing to the end and the pause turn to deleting at `len - 1`, taking the ticks plus `pause` |
| Typewriter.DeletePhase | component/Hero.jsx:50-55 | deleting from `pos` takes `pos` ticks of `deleteSpeed` and ends showing the first character with `pos == 0` |
| Typewriter.DeleteToLoop | component/Hero.jsx:50-64 | deleting down and the 250 ms restart lead back to typing at `pos == 1` |
| Typewriter.CyclePeriod | component/Hero.jsx:31-68 | for texts of two or more characters the state recurs every `2 * len` firings, a cycle lasting `(len - 1) * (typeSpeed + deleteSpeed) + pause + 250` ms |
| Typewriter.ReachesLoop | component/Hero.jsx:18-68 | from mount the recurring state is reached after `2 * len + 1` firings |
| Typewriter.TypingText.constructor | component/Hero.jsx:18-29 | mounting starts at `("", 0, false)` with the effect's first timer pending |
| Typewriter.TypingText.Fire | component/Hero.jsx:31-68 | a firing while mounted moves the state as `Step` does and schedules the next timer; after unmount nothing changes |
| Typewriter.TypingText.Unmount | component/Hero.jsx:24-28 | unmounting clears the pending timer and changes no state |
| Typewriter.Width | component/Hero.jsx:95 | the first non-zero of `clientWidth` and `offsetWidth`: the client width when non-zero, else the offset width; zero only when both are |
| Typewriter.NinetyPercent | component/Hero.jsx:96 | `Math.round(w * 0.9)`: the nearest integer to 0.9 w, a half rounding up |
| Typewriter.Measure | component/Hero.jsx:92-101 | without an element nothing changes; otherwise size in [140, 520], radius in [44, 260], speed 12 iff the width is under 420, else 16 |
| Typewriter.RadiusClampNeverBinds | component/Hero.jsx:96-98 | the radius is always the rounded 36% of the size, between 50 and 187 |
| Typewriter.MeasureMonotone | component/Hero.jsx:95-100 | a wider element never gives a smaller size, radius or period |
| Navigation.HeroOnScreen | component/Nav.jsx:128-129 | `heroIsVisible`: the hero's bottom is below the top of the viewport and its top above the viewport's bottom (predicate; used by `InitialVisible` and `ObserverAgreesWithInitial`) |
| Navigation.InitialVisible | component/Nav.jsx:123-131 | `setInitial` shows the bar on wide viewports, and on narrow ones exactly when the hero is off screen |
| Navigation.ObservedVisible | component/Nav.jsx:141-145 | the observer shows the bar iff the viewport is wide or the hero is not intersecting |
| Navigation.ObserverAgreesWithInitial | component/Nav.jsx:123-146 | observer and `setInitial` agree when the intersection report matches the measured overlap |
| Navigation.HashId | component/Nav.jsx:166 | exactly one leading '#' is removed |
| Navigation.HashIdRoundTrip | component/Nav.jsx:166 | stripping a prefixed '#' gives the id back |
| Navigation.ItemIds | component/Nav.jsx:41-48 | the five items name non-empty, pairwise different ids |
| Navigation.Ceil | component/Nav.jsx:188 | `Math.ceil`: the least integer not below the input |
| Navigation.ScrollTarget | component/Nav.jsx:186-194 | a found element is always scrolled to: to `elTop + scrollY - ceil(header) - 8` iff the header height rounds up to non-zero, else aligned by `scrollIntoView` |
| Navigation.ScrollClearsHeader | component/Nav.jsx:188-191 | with a header of positive height the section lands at least the header height plus 8 px below the top |
| Navigation.NavBar.constructor | component/Nav.jsx:101-132 | on mount `isMobile` follows the width and the bar is shown when there is no hero, else as `setInitial` decides |
| Navigation.NavBar.RunHeroEffect | component/Nav.jsx:113-132 | the hero effect shows the bar without a hero and runs `setInitial` otherwise |
| Navigation.NavBar.Resize | component/Nav.jsx:102-110 | a resize recomputes `isMobile` and re-runs `setInitial` regardless of suppression; menu, active item and suppression unchanged |
| Navigation.NavBar.Intersection | component/Nav.jsx:134-146 | ignored without a hero or while suppressed; otherwise the observer's decision; nothing else changes |
| Navigation.NavBar.ScrollToHash | component/Nav.jsx:164-199 | an empty id scrolls to 0, activates item 0 and closes the menu; a missing element changes nothing; a found one suppresses auto-hide with one fresh timer, scrolls to `ScrollTarget`, activates `idx` (kept when absent), closes the menu and re-runs the hero effect when suppression switched on |
| Navigation.NavBar.SuppressExpired | component/Nav.jsx:182-184 | the timer's end lifts suppression and re-runs the hero effect |
| Navigation.NavBar.KeyDown | component/Nav.jsx:50-57 | Escape closes the menu; any other key leaves it |
| Navigation.NavBar.CloseMenu | component/Nav.jsx:414 | the backdrop (and the close button at line 433) closes the menu |
| Navigation.NavBar.ToggleMenu | component/Nav.jsx:319 | the hamburger flips `open` |
| Skills.FirstIndex | component/Skills.jsx:123 | the first position of a value in a list |
| Skills.FirstIndexPrefix | component/Skills.jsx:123 | a first occurrence inside a prefix is the first occurrence overall |
| Skills.Distinct | component/Skills.jsx:123 | `Array.from(new Set(xs))` has no repeats and the same elements as `xs` |
| Skills.DistinctOrder | component/Skills.jsx:123 | it lists them in the order of their first occurrences |
| Skills.CategoryList | component/Skills.jsx:123 | `SKILLS.map((s) => s.category)` |
| Skills.Categories | component/Skills.jsx:122-125 | 'All' first, then exactly the categories some skill has, without repeats |
| Skills.CategoriesInFirstUseOrder | component/Skills.jsx:122-125 | the categories after 'All' follow the order of first use in the skill list |
| Skills.CategoriesDistinct | component/Skills.jsx:122-125 | when no skill is in a category named 'All', no tab repeats |
| Skills.SkillTabs | component/Skills.jsx:15-26 | the tabs for this skill list are All, Frontend, Database, Backend, Programming Languages |
| Skills.DistinctSkillCategories | component/Skills.jsx:15-26 | the distinct categories of this skill list, in order |
| Skills.KeepCategory | component/Skills.jsx:129 | the filter keeps, in order, exactly the skills of that category, each as often as in the input |
| Skills.Filtered | component/Skills.jsx:127-130 | 'All' shows every skill; any other tab shows that category's skills |
| Skills.FilterPartition | component/Skills.jsx:122-130 | each skill's category is a tab, and a skill is listed under a non-'All' tab iff that tab is its category |
| Skills.TabTotalCons | component/Skills.jsx:129 | a skill added in front adds one card under each tab naming its category |
| Skills.OccursOnce | component/Skills.jsx:123 | a value in a repeat-free list occurs once |
| Skills.NotOccurs | component/Skills.jsx:123 | a value not in a list occurs zero times |
| Skills.EmptyTabs | component/Skills.jsx:129 | no skills give no cards under any tab |
| Skills.TabTotalCovers | component/Skills.jsx:122-130 | repeat-free tabs covering every category list each skill exactly once in total |
| Skills.TabsCoverAllSkills | component/Skills.jsx:122-130 | the lists under the non-'All' tabs add up to the whole skill list |
| Skills.CardAt | component/Skills.jsx:243-265 | a card enters `80 * idx` ms late; while animating it is shown, its bar fills to the proficiency and its donut plays 60 ms after it; before that the bar is empty, the donut waits with delay 0 and the card is hidden |
| Skills.Cards | component/Skills.jsx:242-265 | one card per filtered skill, the i-th built from the i-th skill at position i |
| Skills.Stagger | component/Skills.jsx:243-265 | card delays start at 0 and grow by 80 ms; while animating each donut starts 60 ms after its card and each bar fills to the proficiency; otherwise bars are empty, donuts wait with delay 0 and cards are hidden |
| Skills.SkillsSection.constructor | component/Skills.jsx:118-119 | mount on 'All' with the animation reset and its timer pending |
| Skills.SkillsSection.SelectTab | component/Skills.jsx:133-137 | the tab becomes `c` and the cards shown are the `filtered` memo for it; a different tab resets the animation and replaces the timer; the same tab changes nothing |
| Skills.SkillsSection.TimerFires | component/Skills.jsx:135 | the 80 ms timer starts the animation and clears itself |

## Left out

- The `fetch` call, JSON parsing, `res.text()` and console logging are not modelled. Their results enter `Complete` as a `FetchOutcome`.
- Contact.ContactForm.HandleSubmit: a second submit while `sending` is not excluded; the disabled button is markup. Two requests in flight at once and the order in which they settle are not modelled beyond calling `Complete` once per outcome.
- The `NonJson` outcome admits any body text. After `res.json()` has failed the body may already be consumed, in which case `res.text()` rejects and only "<non-readable>" is shown. The texts the page can really show are a subset of those the model allows.
- `error` and `message` fields of the response body that are not strings are not modelled. They are taken as absent or as a string.
- `spawnConfetti` (random positions, DOM nodes, animation events) is not modelled.
- Contact.Errors.Cleared: an error set to `undefined` and a missing key are the same value here. The `subject: undefined` key that `handleChange` adds for the subject field is not represented; nothing reads it.
- Typewriter.Step: `text.length` and `text.slice` count UTF-16 code units in the source and characters here. The two agree for every text in the Basic Multilingual Plane, which includes the only text the page passes ("Web developer"). A slice through a surrogate pair cannot be represented in a Dafny string.
- Typewriter.TypingText.Fire: the props are fixed for the component's life. The effect re-running on a change of `text` or the speeds is not modelled.
- The order of timers across different components, and wall-clock time itself, are not modelled. `Fire`, `SuppressExpired` and `TimerFires` are each one firing, in any order the caller chooses.
- Typewriter.Measure: `w * 0.9` and `size * 0.36` are computed exactly in integers with half-up rounding, not in binary floating point. Widths are whole pixels.
- The orbit panel's entrance timer, resize listener and `ResizeObserver` wiring are not modelled. Each measurement is one call of `Measure`.
- The `typeof window === 'undefined'` server-rendering guards are not modelled. The model always runs in a browser.
- Navigation.NavBar.Intersection: the 0.01 threshold is not modelled. `isIntersecting` is an input as the observer reports it.
- The body scroll lock, focus management, observer and listener installation and removal, and unmounting of the navigation bar are not modelled.
- The `console.warn` for a missing target is not modelled.
- Markup, styles, framer-motion variants, the donut SVG geometry and `app/page.js` are not modelled.
