# Exami website: the interactive logic, modelled in Dafny

The Exami marketing site consists of static pages plus a handful of scripts.
This project models the parts of those scripts whose behaviour can be stated
exactly, and proves properties of them.

- **The drag-to-merge hero** (`components/about/HeroAbout.tsx`, module `Hero`).
  Dropping the draggable token within 60 pixels of the drop zone, on both axes, merges them.
  A fixed schedule of four timers then moves the view flags forward one at a time.
  The flags control which parts of the hero are rendered.
- **The floating navbar** (`components/floating-navbar.js`, module `Navbar`).
  The bar is visible near the top of the page and when scrolling up, and hidden when scrolling down.
  The scroll position is sampled at most once per animation frame, behind the `ticking` latch.
- **The theme toggle** (`lib/theme-toggle.js`, module `Theme`).
  The theme is a string kept in step with the root's `data-theme` attribute and the stored `theme` item.
  `toggle` flips between dark and light.
- **`cn`** (`lib/utils.js`, module `ClassNames`).
  It assembles a class attribute from strings, arrays and objects that map class names to truthiness.
- **The site-wide script** (`app.js`, module `Site`). It covers:
  - the e-mail check;
  - the waitlist and survey handlers, with their mock persistence in local storage;
  - the mobile menu;
  - the one-shot reveal and progress-bar observers.
- **The home-page script** (`js/index.js`, module `HomePage`). It covers:
  - the staggered hero delays;
  - its own waitlist form, which reports storage failures where `app.js` swallows them;
  - the colour lookup of `showMessage`;
  - the bento-grid reveal.

Shared modules:

- `Text`: JavaScript's whitespace class, `trim`, `String(n)` and `parseInt`.
- `Email`: the pattern `^[^\s@]+@[^\s@]+\.[^\s@]+$` as a predicate, and how that predicate can be stated without regular expressions.
- `Dom`: the element state the scripts touch, and intersection-observer entries.
- `Storage`: `localStorage`. Text items are kept apart from list items, and either access may throw.
- `Wrappers`: `Option`.

The two waitlist handlers are modelled separately, because they differ:

- `Site.SubmitWaitlist`: a storage failure is ignored and the thanks are shown anyway.
- `HomePage.WaitlistForm.HandleSubmit`: a storage failure is reported as "Something went wrong".

Some facts about the code shape the model:

- **Hero timers.** The hero has five flags. A close drop sets `isMerged` at once; timers at 200, 1000, 1500 and 2200 ms after the drop set the other four (`HeroAbout.tsx:40-54`).
- **No observer fallback.** Neither script has a fallback when `IntersectionObserver` is missing.
  `app.js` creates its observers, when there are items to observe (`app.js:109`, `app.js:224`), without checking that `IntersectionObserver` exists; the bento grid skips its setup (`js/index.js:112`).
  The only `index * 100` stagger is the home page's hero delay (`js/index.js:20`).
- **Bento reveal.** The bento reveal never unobserves its items, so it can fire again.
  Its effect is idempotent (`HomePage.BentoRevealTwice`).
- **Storage failures.** The home-page form reports storage failures (`js/index.js:76-78`); `app.js` swallows them.
- **Fire once.** The reveal and progress observers unobserve an element when they schedule its timer.
  Each keeps a ghost set `fired` of the elements that have had their timer, disjoint from the observed ones.
  Since the browser reports only observed targets, an element never gets a timer in a later batch.
  Within one batch, a repeated intersecting entry for the same element gets another timer, as in the source, because `unobserve` does not remove the entries already delivered.
  For the reveal observer that is harmless: adding `reveal-visible` twice is adding it once.

Each observer callback returns the timers it schedules instead of running them.
Running a timer is a separate method (`Site.Fire`, `HomePage.FireHeroTimer`).
The small scenario methods combine the two, for example `Site.ProgressBarReplay` and `Hero.MergeExample`.

## Model

| member | source | states |
|---|---|---|
| Hero.CenterX | components/about/HeroAbout.tsx:26-29 | The horizontal centre `left + width/2` is as far from the left edge as from the right edge. |
| Hero.CenterY | components/about/HeroAbout.tsx:26-29 | The vertical centre `top + height/2` is as far from the top edge as from the bottom edge. |
| Hero.Merges | components/about/HeroAbout.tsx:32-37 | A drop merges iff both centre differences lie strictly between -60 and 60. |
| Hero.MergeIsSymmetric | components/about/HeroAbout.tsx:32-37 | Swapping the drop zone and the token does not change the outcome. |
| Hero.ThresholdIsExclusive | components/about/HeroAbout.tsx:36-37 | A distance of exactly 60 on either axis is a miss. |
| Hero.DropExamples | components/about/HeroAbout.tsx:26-37 | Centres (40, 30) apart merge; centres (100, 150) apart do not. |
| Hero.MergeSchedule | components/about/HeroAbout.tsx:40-54 | Four timers, in the order piecesMoving, piecesFading, showSimpleMessage, showDescription. All delays are 0 under reduced motion; otherwise the delays strictly increase. |
| Hero.ScheduleFiresInOrder | components/about/HeroAbout.tsx:40-54 | No timer has a shorter delay than one created before it, so the timers fire in list order. |
| Hero.SetFlag | components/about/HeroAbout.tsx:41-53 | A timer callback sets its own flag to true and leaves every other flag as it was. |
| Hero.Phase | components/about/HeroAbout.tsx:38-54 | Every phase after the merge has `isMerged` set. |
| Hero.PhaseFlags | components/about/HeroAbout.tsx:6-10 | After k timers have fired, exactly the first k scheduled flags are set, plus `isMerged`. |
| Hero.PhasesMoveForward | components/about/HeroAbout.tsx:38-54 | A later phase has every flag an earlier phase has: flags are never reset. |
| Hero.PhaseRendering | components/about/HeroAbout.tsx:101-330 | Once merged, the token is gone (line 232). The puzzle zone and centre image show before the fade and not after (lines 105, 179). The message needs three timers (lines 272, 284); the description needs all four (line 306). |
| Hero.HeroAbout.constructor | components/about/HeroAbout.tsx:6-15 | All five flags start false and no timer is pending. |
| Hero.HeroAbout.HandleDragEnd | components/about/HeroAbout.tsx:19-56 | A missing ref or a miss changes nothing. A hit sets `isMerged` at once and appends the schedule to the pending timers. Flags only move forward. |
| Hero.HeroAbout.SetTrue | components/about/HeroAbout.tsx:41-53 | The setter call of one timer sets exactly that flag. |
| Hero.HeroAbout.FireNextTimer | components/about/HeroAbout.tsx:40-54 | The next pending timer sets its flag and is removed. The hero stays in a valid phase. |
| Hero.MergeExample | components/about/HeroAbout.tsx:19-56 | A hit followed by all four timers leaves all five flags set. Only the closing texts are rendered. |
| Navbar.ScrollProgress | components/floating-navbar.js:185-186 | The progress is 0 when the scrollable height is at most 0. Otherwise it is the quotient `scrollY / height`, which is never negative. |
| Navbar.InitialProgress | components/floating-navbar.js:30 | The unguarded quotient of `init` compares false (NaN or Infinity) exactly when the scrollable height is 0. |
| Navbar.NearTop | components/floating-navbar.js:208 | A position below 50 is near the top, whatever the progress. A NaN or infinite progress and an `undefined` position compare false, so together they are not near; neither is a progress of at least 0.05 at a position of at least 50. |
| Navbar.NextVisible | components/floating-navbar.js:203-221 | Near the top (progress < 0.05 or position < 50) the bar becomes visible. Otherwise it becomes visible on a negative delta and hidden on a positive one. A zero delta or a missing position leaves it as it was. |
| Navbar.ApplyVisibility | components/floating-navbar.js:223-230 | Exactly one of the two state classes is present, the one matching `visible`. Other classes are kept. |
| Navbar.ScrollExamples | components/floating-navbar.js:207-221 | Moving from 40 to 30 keeps the bar visible. Moving from 500 to 520, away from the top, hides it. |
| Navbar.FloatingNav.constructor | components/floating-navbar.js:5-31 | The bar starts visible, with `lastScrollY` the initial position and one frame requested. |
| Navbar.FloatingNav.OnScroll | components/floating-navbar.js:181-195 | `ticking` is set and exactly one frame is pending. A scroll while `ticking` requests nothing. |
| Navbar.FloatingNav.RunFrame | components/floating-navbar.js:183-192 | The frame applies `NextVisible` to the sampled position. `lastScrollY` becomes that position, `ticking` is cleared and no frame is pending. Of the bar element only its classes may change. |
| Navbar.FloatingNav.UpdateVisibility | components/floating-navbar.js:203-231 | With the bar absent, nothing changes. Otherwise `visible` and the class list follow `NextVisible` and `ApplyVisibility`. |
| Navbar.FloatingNav.Destroy | components/floating-navbar.js:233-237 | The bar leaves the document. The state and the latch are kept. |
| Theme.PreferredTheme | lib/theme-toggle.js:23-28 | 'dark' iff `matchMedia` exists and the dark-scheme query matches; otherwise 'light'. |
| Theme.InitialTheme | lib/theme-toggle.js:4 | A stored non-empty theme wins; otherwise the preferred theme. |
| Theme.Toggled | lib/theme-toggle.js:50 | 'light' iff the theme was 'dark'; every other theme turns into 'dark'. |
| Theme.ToggleTwice | lib/theme-toggle.js:49-53 | Toggling 'dark' or 'light' twice restores it. |
| Theme.ToggleSettles | lib/theme-toggle.js:49-53 | From any theme, after the first toggle, toggling alternates. |
| Theme.ThemeToggle.constructor | lib/theme-toggle.js:3-11 | The initial theme is chosen by the priority rule and applied with `setTheme`. |
| Theme.ThemeToggle.GetStoredTheme | lib/theme-toggle.js:30-36 | The stored item, or `None` when it is missing or reading throws. |
| Theme.ThemeToggle.SetTheme | lib/theme-toggle.js:38-47 | The field, the attribute and (when writes succeed) the stored item all hold the new theme. A failed write changes nothing else. |
| Theme.ThemeToggle.Toggle | lib/theme-toggle.js:49-53 | Returns `Toggled(old theme)` and applies it to all three places. The root's classes, styles, text and `hidden` are kept. |
| Theme.ThemeToggle.GetCurrentTheme | lib/theme-toggle.js:55-57 | Returns the current theme. |
| Theme.ThemeToggle.OnSystemChange | lib/theme-toggle.js:13-19 | A system change applies only when `matchMedia` exists and no theme is stored; otherwise nothing changes. Either way the root's classes, styles, text and `hidden` are kept. |
| Theme.SystemChangeAfterFirstVisit | lib/theme-toggle.js:3-19 | Working storage records the initial theme, so a later system change never applies. |
| Theme.ToggleRoundTrip | lib/theme-toggle.js:49-57 | `getCurrentTheme` reports what `toggle` returned, and a second toggle undoes the first. |
| ClassNames.TruthyElementsKept | lib/utils.js:10-11 | From an array argument, exactly the truthy elements are kept. |
| ClassNames.TruthyElementsAppend | lib/utils.js:11 | Filtering distributes over concatenation, so the element order is kept. |
| ClassNames.TruthyKeysKept | lib/utils.js:12-17 | From an object argument, exactly the keys with truthy values are taken. |
| ClassNames.PushTruthyKeys | lib/utils.js:13-17 | The inner loop appends the truthy keys, in key order, to what was already collected. |
| ClassNames.Cn | lib/utils.js:5-22 | The result is every argument's contribution, in argument order, joined by single spaces. |
| ClassNames.ContributionsAppend | lib/utils.js:7-19 | Arguments contribute independently: splitting the argument list splits the collected names. |
| ClassNames.SingleArgument | lib/utils.js:8-18 | A string argument is kept verbatim, even "". Null, undefined, numbers and booleans add nothing. |
| ClassNames.SplitJoin | lib/utils.js:21 | The output is the names separated by single spaces and nothing else: splitting it at spaces gives the names back. |
| ClassNames.NoArguments | lib/utils.js:5-21 | `cn()` is "". |
| ClassNames.NestedArrayArgument | lib/utils.js:11 | A nested array is kept whole and written with `String`: `cn([["a","b"]])` is "a,b". |
| ClassNames.NoDeduplication | lib/utils.js:20-21 | A repeated class name is kept twice. |
| Text.TrimStart | app.js:38 | The result is the suffix after the leading whitespace: what was dropped is all whitespace, and the result does not start with whitespace. |
| Text.TrimEnd | app.js:38 | The result is the prefix before the trailing whitespace: what was dropped is all whitespace, and the result does not end with whitespace. |
| Text.Trim | app.js:38 | The result is the input with whitespace removed at both ends only: it sits in the input at some offset with nothing but whitespace around it, and it neither starts nor ends with whitespace. It is empty iff the input is all whitespace, and a trimmed input is returned unchanged. |
| Text.TrimIdempotent | js/index.js:55 | Trimming twice is trimming once. |
| Text.NatToString | lib/utils.js:21 | `String(n)`, as `join` writes a number: a non-empty digit string, with a leading 0 only for 0. It is also the numeral that `parseInt` at app.js:114 reads back. |
| Text.DecimalRoundTrip | lib/utils.js:21 | Reading the digits `String(n)` writes gives back `n`. |
| Text.DigitPrefix | app.js:114 | The longest prefix made of digits. |
| Text.ParseInt | app.js:114 | `parseInt` of an empty or whitespace-only string is NaN; the recursion skips the leading whitespace (see `ParseIntTrimsStart`). |
| Text.ParseZero | app.js:114 | The fallback `'0'` parses to 0. |
| Text.ParseSigned | app.js:114 | `parseInt` after the whitespace is NaN iff no digit follows the optional sign. |
| Text.ParseIntTrimsStart | app.js:114 | Skipping leading whitespace one character at a time is the same as trimming it first. |
| Text.ParseIntOfNumeral | app.js:114 | `parseInt(String(n) + rest)` is `n` when `rest` does not start with a digit. |
| Text.DigitPrefixOfNumeral | app.js:114 | The digit prefix of a numeral followed by a non-digit is the numeral. |
| Email.IsValidEmail | app.js:31-33 | The pattern, as used by `isValidEmail` here and in `js/index.js:81-83`: a match is at least five characters long and neither starts nor ends with '@'. |
| Email.MatchHasShape | app.js:31-33 | Every string the pattern matches has the address shape: no whitespace, exactly one '@' after a non-empty local part, and a dot inside the domain. |
| Email.ShapeHasMatch | app.js:31-33 | Every string with the address shape matches the pattern. |
| Email.ValidEmailIffShape | app.js:297-299 | The pattern holds iff the string has the address shape. `validEmail` in the survey uses the same pattern. |
| Email.EmptyIsInvalid | app.js:41 | The empty string fails the pattern, so `!email ||` adds nothing to the check. |
| Email.NoDotIsInvalid | js/index.js:81-83 | A string without a '.' never matches. |
| Email.LeadingAtSignIsInvalid | app.js:31-33 | A string whose only '@' is its first character never matches. |
| Email.AcceptedExample | app.js:31-33 | "user@example.com" is accepted. |
| Email.RejectedExamples | app.js:31-33 | "user@", "user@example", "@example.com" and "" are rejected. |
| Storage.LocalStorage.ReadText | lib/theme-toggle.js:30-36 | Some(item) iff reading works and the item exists. |
| Storage.LocalStorage.ReadList | app.js:48 | A missing item reads as []. A stored array reads as its records. The result is None, which stands for the thrown error, exactly when the store is unreadable or the item is not an array. |
| Storage.LocalStorage.SetText | lib/theme-toggle.js:42-46 | The item is written iff writes succeed; nothing else changes. |
| Storage.LocalStorage.Append | app.js:47-51 | The append succeeds iff reading, parsing and writing succeed. It then adds the record at the end of the list; otherwise nothing changes. |
| Storage.AppendGrowsByOne | app.js:47-50 | A successful append grows the list by exactly one record, at its end, and leaves the earlier records in place. |
| Site.MessageColor | app.js:28 | Red for 'error', green for 'success', `inherit` for every other type. |
| Site.ShowMessage | app.js:24-29 | With the element present: it shows the text, unhides the element and sets the colour. Without it: no-op. `showSurveyMessage` (lines 290-295) is the same. |
| Site.ColorOverwritten | app.js:54-57 | After "Submitting..." and the thanks, only the second colour remains. |
| Site.SubmitWaitlist | app.js:35-59 | An invalid or empty address shows one error and stores nothing. Otherwise the record is appended when storage works. A storage failure is swallowed, and "Submitting..." and then the thanks are shown either way. The message box keeps its classes and attributes. |
| Site.SubmitSurvey | app.js:301-327 | A missing field is reported before the address is checked, then an invalid address. In both cases nothing is stored. Otherwise one record is appended when storage works, and the thanks are shown either way. The message box keeps its classes and attributes. |
| Site.SignupAppendsOne | app.js:47-50 | With working storage, a valid signup adds exactly one `{email, role, ts}` record, at the end of the earlier ones. |
| Site.MobileMenu.constructor | app.js:69-71 | The menu holds the hamburger and `#primary-nav`, found only when both exist. |
| Site.MobileMenu.OnHamburgerClick | app.js:72-75 | `open` is toggled and `aria-expanded` records the new state. The nav's other classes, its attributes and styles, and the hamburger's other attributes, classes and styles are kept. |
| Site.MobileMenu.OnNavClick | app.js:76-82 | Clicking a link closes the menu and sets `aria-expanded` to false. Any other target changes nothing. The hamburger's classes, the nav's attributes and both styles are kept. |
| Site.TimeoutDelay | app.js:115-117 | `setTimeout` uses a NaN or negative delay as 0 and any other delay as given. |
| Site.RevealDelay | app.js:114 | A missing or empty `data-reveal-delay` gives 0 ms. |
| Site.RevealDelayOfNumeral | app.js:114 | A numeral, with or without a unit after it, gives that many milliseconds. |
| Site.RevealTimer | app.js:112-117 | An entry gets a timer iff it intersects; the timer adds `reveal-visible` to its target after the target's `data-reveal-delay`. |
| Site.RevealObserver.constructor | app.js:122 | Every reveal item is observed and none has fired. |
| Site.RevealObserver.OnEntries | app.js:110-121 | Each intersecting entry gets its `RevealTimer`, and its target is unobserved and counted as fired. Other entries get nothing. A timer goes only to an element that has not fired before, and fired elements stay unobserved. The callback writes nothing to the elements. |
| Site.ProgressTimer | app.js:227-233 | An entry gets a timer iff it intersects; after 200 ms the timer writes back the width its bar had. |
| Site.Dropped | app.js:230 | An intersecting bar's width becomes 0% and its other styles are kept; any other entry leaves the styles alone. |
| Site.ProgressObserver.constructor | app.js:239 | Every progress bar is observed and none has fired. |
| Site.ProgressObserver.OnEntry | app.js:226-236 | An intersecting bar drops to 0%, is unobserved, is counted as fired and gets its `ProgressTimer`. Other entries change nothing. The bar's classes and attributes are kept. |
| Site.ProgressObserver.OnEntries | app.js:225-237 | The per-entry rule over a whole batch: every bar ends `Dropped` and gets its `ProgressTimer`. A timer goes only to a bar that has not fired before, and fired bars stay unobserved. Classes and attributes are kept. |
| Site.Fire | app.js:115-117 | A reveal timer adds its class. A progress timer writes its width back. Only the target's classes and styles may change. |
| Site.ProgressBarReplay | app.js:223-240 | A bar that comes into view shows 0%, is no longer observed, and has its width back once its timer runs. |
| Site.RevealOnce | app.js:108-123 | A reveal element with a numeric delay gets a timer of that many milliseconds. It is unobserved and has `reveal-visible` once the timer runs. |
| Dom.IntersectingTargetsMembers | app.js:110-121 | A target is among the targets a batch unobserves iff some entry for it intersects. |
| HomePage.HeroDelay | js/index.js:20 | The attribute text when present and non-empty; otherwise `index * 100`. |
| HomePage.ExplicitZeroIsKept | js/index.js:20 | An explicit "0" is kept, not replaced by the stagger. |
| HomePage.DefaultStaggerIncreases | js/index.js:19-20 | Without the attribute, later elements wait longer, by 100 ms per position. |
| HomePage.AnimateHeroElements | js/index.js:16-27 | One timer per element, in document order, each with its `HeroDelay`. |
| HomePage.Revealed | js/index.js:23-24 | A revealed element has opacity 1 and `translateY(0)`. Its other styles are kept. |
| HomePage.RevealedIdempotent | js/index.js:113-119 | Revealing twice is revealing once. |
| HomePage.FireHeroTimer | js/index.js:22-25 | A hero timer reveals its target. Only the target's styles may change. |
| HomePage.IndexColor | js/index.js:91-97 | The own keys give their colours. A name inherited from `Object.prototype` gives no colour; every other name falls back to the info colour. |
| HomePage.IndexColorAgrees | js/index.js:91-97 | For every type that is not an inherited name, the lookup gives the same colour as `app.js`'s conditional, so unknown types fall back to the info colour. |
| HomePage.ColorWritten | js/index.js:97 | Assigning a looked-up colour writes it to `color`. The value of an inherited name is not a colour, and the assignment leaves the styles as they were. |
| HomePage.WaitlistForm.constructor | js/index.js:39-46 | The form and the message element are looked up; the handler is attached only when the form exists. |
| HomePage.WaitlistForm.ShowMessage | js/index.js:85-98 | With the element present: it shows the text, unhides the element and writes the looked-up colour (`ColorWritten`); classes and attributes are kept. Without it: no-op. |
| HomePage.WaitlistForm.HandleSubmit | js/index.js:52-79 | An invalid address shows one error and stores nothing. Otherwise "Submitting..." is shown first. Then comes success with exactly one `{email, role, timestamp}` record appended, or, on a storage or parse failure, "Something went wrong" with nothing stored. The message element keeps its classes and attributes. |
| HomePage.WaitlistForm.StoreAndReport | js/index.js:65-78 | The `try` block: success iff the append worked; otherwise the error message. The message element keeps its classes and attributes. |
| HomePage.BentoReveal.Hidden | js/index.js:123-125 | The three hiding styles are set and the other styles are kept. |
| HomePage.BentoReveal.constructor | js/index.js:111-128 | Every item is hidden and observed, also when it is listed twice. Only the items' styles may change. |
| HomePage.BentoReveal.OnEntries | js/index.js:113-120 | Every target with an intersecting entry in the batch is revealed, even when it appears twice. Other targets keep their styles. Only the targets' styles may change. |
| HomePage.BentoRevealTwice | js/index.js:111-129 | A hidden item revealed by two batches ends in the same state as after the first. |

## Left out

- **Not part of this model:**
  - `js/base.js`: the cursor, the link check and the nav background;
  - `components/footer.js`;
  - `src/about-hero-entry.tsx`;
  - `tailwind.config.js` and `vite.config.js`.
- **Other parts of `app.js`:**
  - the footer year (lines 3-4);
  - smooth anchor scrolling (7-18);
  - the reduced-motion scroll style (63-66);
  - the page transition and its `URL`-based internal-link check (86-105);
  - tilt and spotlight effects (126-176), which are floating-point cursor-position math that only sets styles;
  - the counters (179-220), which depend on easing, `requestAnimationFrame` and `toLocaleString`;
  - the early-access form's timed button text (243-266);
  - mockup hover (269-284).
- **`form.reset()`** (app.js:58, app.js:325, js/index.js:75): form fields are not modelled.
- **`HeroAnimations.setupFloatingAnimation`** (js/index.js:29-34) and the initialisation order (js/index.js:133-144) are not modelled.
- **HeroAbout.tsx:** framer-motion `animate`/`transition` props, drag constraints and styling are not modelled. Only the flags that select what is rendered are.
- **floating-navbar.js:** the HTML `render` builds, its dropdown and login handlers (33-175), the container creation (18-24) and the export lines are not modelled.
- **Time.** There is no clock.
  - `setTimeout` callbacks and animation frames are timers the model returns or keeps in order, and they run when a method is called.
  - The interleaving of timers from different scripts is not modelled.
  - Nor are the 600 ms `await`s, since nothing else runs in between in the model.
- **IntersectionObserver.**
  - Each entry's `isIntersecting` is an input; thresholds (0.12, 0.5, 0.1) and viewport geometry are not modelled.
  - The bento grid's `'IntersectionObserver' in window` guard (js/index.js:112) is taken as true.
- **Site.ProgressObserver.OnEntries:** requires each target to appear at most once in a batch. The browser can queue two entries for one bar before the callback runs; the second would save "0%" as the width to restore. That case is not modelled.
- **Observed targets.** Both one-shot observers require every entry of a batch to name an observed target, as the browser guarantees; `unobserve` within a callback does not drop the later entries of the same batch, and the model processes them as the source does.
- **Inherited names.** The names `HomePage.IndexColor` treats as inherited are those of `Object.prototype` in current browsers. The non-colour value they give is not modelled beyond the write being ignored.
- **JSON.**
  - Stored lists are kept as records, not JSON text.
  - `Unparsable` stands for any item that `JSON.parse` rejects or that is not an array (pushing onto it throws).
  - An item holding "" reads as `[]` through `|| '[]'`; it is represented by a missing key.
- **Storage.**
  - Text items and list items are kept in separate maps, so a list key holding arbitrary text is written as `Unparsable`.
  - Races between tabs are not modelled.
- **Numbers.**
  - Geometry and scroll progress use real numbers, not IEEE doubles.
  - Scroll positions are non-negative integers.
  - `cn`'s numeric arguments are integers.
- **HomePage.HeroDelay:** keeps the attribute text as `setTimeout` receives it. The conversion `setTimeout` applies to a string delay is not modelled.
- **Site.TimeoutDelay:** delays above 2147483647 ms, which browsers do not honour as written, are kept as written.
- **`cn`:**
  - objects are lists of own enumerable properties in `Object.keys` order;
  - symbols, functions and BigInt values are not modelled;
  - an object argument is written as `[object Object]`, whatever its `toString` does.
- **Strings.** Strings are sequences of Unicode scalar values, not UTF-16 code units. This does not change the e-mail check: a surrogate is neither whitespace nor '@'.
