# work.ink redirector — a Dafny model

The redirector hands a destination URL from an origin page to the work.ink
gate page. It waits out the gate's "Just a moment" challenge, clicks the
"AGREE" consent button if one shows up, and then sends the browser to the
destination. The repository ships it twice, with the same logic:

- `workink.user.js`, a userscript whose origin is `my-site.co/refresh`;
- `main.js`, an obfuscated loader whose origin is `workink.vercel.app/refresh`. It reads its strings from an index table and picks its store from a longer list of backends.

One model covers both variants. A `Config` value carries the strings, and
`Constants.LoaderConfig` is built from the loader's table through the
lookup `_0x`. The modules follow the program's structure:

| file | module | what it models |
|---|---|---|
| `common.dfy` | `Common` | `Option`, JavaScript truthiness of a string that may be null, prefix test |
| `text.dfy` | `Text` | `trim()` with JavaScript's whitespace set, ASCII `toUpperCase`, the consent-label test, case-insensitive substring search |
| `constants.dfy` | `Constants` | the loader's string table, `_0x(i)`, the two configurations |
| `url.dfy` | `Url` | `URLSearchParams.get`, `decodeURIComponent`, `encodeURIComponent`, `new URL(…).href`, as uninterpreted functions; `extractUrlParamFromSearch` |
| `host.dfy` | `Browser` | the store slot and the ordered log of browser calls (`Host` class) |
| `backends.dfy` | `Backends` | which store backend each variant picks, the `Host` that choice opens, and how a `localStorage` or `GM_getValue` read behaves |
| `handoff.dfy` | `Handoff` | branch dispatch, the origin branch, destination acquisition on the gate |
| `locator.dfy` | `Locator` | `findAgreeButton` over a document snapshot |
| `title.dfy` | `TitleStage` | `titleIndicatesWaiting` and the waiting stage (observer, 500 ms poll, 120000 ms timeout, `redirected` flag) |
| `redirect.dfy` | `Redirect` | `finalRedirect` |
| `search.dfy` | `SearchStage` | `clickAgreeIfPresentThenRedirect`: the `resolved` flag, the mutation observer and the 250 ms poll loop |
| `gate.dfy` | `Gate` | the gate branch end to end |

Every part whose source changes state step by step is a class or a method
with a loop:

- `Browser.Host` keeps the slot and the log.
- `TitleStage.TitleWatcher` and `SearchStage.SearchRunner` keep their stage's closure variables.
- Their methods are each proved equal to a pure function: `TitleStage.Run` and `SearchStage.SearchRun`.
- Lemmas about those functions carry the properties.

**The search stage calls `finalRedirect` twice.** This happens when the
mutation observer finds the button while the poll loop is asleep. The
callback sets `resolved`, clicks and calls `finalRedirect`. The loop then
wakes. It does not look at `resolved` before calling `findAgreeButton`
again (workink.user.js:247-254). If the button is still present, it clicks
again and calls `finalRedirect` a second time. Otherwise the `while` guard
ends the loop, and workink.user.js:258-259 calls `finalRedirect` again.
main.js:152-157 has the same structure.

The helper's own comment (workink.user.js:208) and its early `return`s
read as one click and one redirect, but the code can make two. The model
follows the code, and `SearchStage.FinalCalls` and
`Gate.DestinationAssignedOnceOrTwice` prove the one-or-two count.

Functions that only compute, such as `Handoff.Acquire`, `SearchStage.Loop`,
`Locator.FindAgree` and `Text.Trim`, carry no contract of their own. Their
rows in the table name the lemmas that state their properties.

## Model

| member | source | states |
|---|---|---|
| Text.TrimStartSpec | workink.user.js:149-151 | trimming the front removes a leading run made only of JavaScript whitespace, and the rest does not start with whitespace |
| Text.TrimEndSpec | workink.user.js:149-151 | trimming the back removes a trailing run made only of whitespace, and the rest does not end with whitespace |
| Text.ConsentLabelIff | workink.user.js:149 | a text passes the `trim().toUpperCase() === 'AGREE'` test exactly when it is whitespace, then "agree" in some ASCII letter case, then whitespace |
| Text.ContainsIgnoreCaseIff | workink.user.js:263-266 | the case-insensitive scan finds the pattern exactly when some window of the text equals it up to case |
| Text.UpperIsLabelIff | workink.user.js:149 | `toUpperCase()` gives "AGREE" exactly when the text is five letters spelling a-g-r-e-e, each in either case |
| Text.Trim | workink.user.js:149 | `trim()`; no contract of its own: TrimStartSpec and TrimEndSpec state what it removes and keeps |
| Text.IsConsentLabel | workink.user.js:149 | the `trim().toUpperCase() === 'AGREE'` test; no contract of its own: ConsentLabelIff states exactly which texts pass |
| Constants.VariantsDifferOnlyInOriginHost | main.js:5-16 | the configuration read from the table equals the userscript's literals except the origin host `workink.vercel.app` |
| Constants.TableMatchesSharedLiterals | main.js:14-15 | table entries 8 and 9 are the consent label "AGREE" and the title pattern "Just a"; indices outside the table give nothing |
| Constants.FallbackExtendsGateRoot | workink.user.js:81-87 | the fallback gate URL is the gate root followed by `?__dest=`, and differs from the root |
| Url.ExtractParam | workink.user.js:58-69 | the result is null exactly when the parameter is missing or empty |
| Url.DecodeFailureKeepsRaw | workink.user.js:64 | a `decodeURIComponent` that throws leaves the raw parameter value |
| Url.DecodeAppliedOnce | workink.user.js:64 | a successful decode is applied exactly once |
| Browser.Host.Set | workink.user.js:20-29 | a write is logged, and it fills the slot only when the backend accepts it |
| Browser.Host.Get | workink.user.js:31-42 | a read is logged, and it returns the slot, or a failure when reads do not work |
| Browser.Host.Delete | workink.user.js:44-53 | a delete is logged, and it clears the slot only when the backend accepts it |
| Browser.Host.Perform | workink.user.js:82-87 | a navigation, timer or click is appended to the log, and the slot is unchanged |
| Backends.FirstOffered | main.js:36-41 | the result is a backend the page offers from the given order, or `Missing` |
| Backends.SelectIsFirstOffered | main.js:36-41 | the nested conditionals pick the first offered backend in the order env, `GM_*`, `GM.*`, `localStorage` (for the userscript: `GM_*`, `GM.*`) |
| Backends.LoaderNeverMissing | main.js:36-41 | the loader always has a backend; the userscript has none exactly when neither GM API exists |
| Backends.LoaderExtendsUserScript | main.js:36-41 | without an injected store, the loader picks what the userscript picks, or `localStorage` where the userscript has nothing |
| Backends.Select | main.js:36-41 | the backend each variant picks; no contract of its own: SelectIsFirstOffered, LoaderNeverMissing and LoaderExtendsUserScript state the choice |
| Backends.NoGmApiRejects | workink.user.js:20-29 | without either GM API every userscript store operation rejects, whatever the call would do; the loader's operation then succeeds exactly when its `localStorage` call does |
| Backends.OpenHost | main.js:36-41 | the host opened for a page has the initial slot, an empty log, and each of set, get and delete working exactly when its selected backend exists and its call succeeds |
| Backends.LocalStorageRoundTrip | main.js:37-39 | a value written with `JSON.stringify` reads back as itself when parsing inverts stringifying, and a missing item reads as the default `null` |
| Backends.LocalStorageActsAsHostRead | main.js:39 | the `localStorage` read of a stored slot gives what the host's read gives, a throwing read included |
| Backends.GmGetActsAsHostRead | workink.user.js:32-36 | the `GM_getValue` read (`undefined` mapped to the default `null`, a throw to a rejection) gives what the host's read gives |
| Handoff.RoleDispatch | workink.user.js:72-96 | only `/refresh…` paths on the origin host run the origin branch; exactly the `work.ink` host runs the gate branch |
| Handoff.RoleFor | workink.user.js:72-96 | which branch a page runs; no contract of its own: RoleDispatch states it |
| Handoff.OriginDecision | workink.user.js:72-93 | the origin's one navigation; no contract of its own: OriginBehaviour and NoGmApiUsesFallback state it |
| Handoff.OriginLog | workink.user.js:72-93 | the origin's calls in order; no contract of its own: OriginBehaviour and RunOrigin state them |
| Handoff.NoGmApiUsesFallback | workink.user.js:74-83 | a userscript page without either GM API always navigates to the `__dest` fallback when it has a destination |
| Handoff.Candidate | workink.user.js:98-113 | the raw destination before normalisation; no contract of its own: StoredWins and FalsyStoreFallsBack state it |
| Handoff.Acquire | workink.user.js:98-129 | the gate's acquisition result; no contract of its own: NothingIffBothFalsy and ResolveDecides state it |
| Handoff.OriginBehaviour | workink.user.js:72-93 | the origin does nothing exactly when there is no truthy `url` parameter; otherwise it makes one write and one navigation: `replace` to the gate root after a successful write, or an assignment to the `__dest` fallback after a failed one |
| Handoff.RunOrigin | main.js:61-75 | the origin branch makes exactly the calls of that decision, and the slot changes only on a successful write |
| Handoff.StoredWins | workink.user.js:98-113 | a truthy store value is used, and the query string is not consulted |
| Handoff.FalsyStoreFallsBack | workink.user.js:98-113 | a rejected read, an absent value and an empty value all fall back to `__dest` |
| Handoff.NothingIffBothFalsy | workink.user.js:107-118 | the gate stops exactly when neither the store nor `__dest` gives a truthy value |
| Handoff.ResolveDecides | workink.user.js:120-129 | a candidate that `new URL` rejects makes the destination invalid; an accepted one is replaced by its `href` |
| Handoff.AcquireDestination | main.js:78-89 | the gate logs one read, plus a delete exactly when the destination is invalid; its result is the pure acquisition of the read value |
| Handoff.HandoffDeliversDestination | workink.user.js:72-113 | an origin run followed by a gate run recovers the destination: through the store after a successful write, through `__dest` after a failed one |
| Handoff.LocalStorageHandoffLost | main.js:37-39 | on a loader page whose only store is `localStorage`, the origin's write works and it replaces to the bare gate root, but the gate reads its own origin's empty storage and stops with nothing |
| Handoff.StaleStoreShadowsFallback | workink.user.js:98-113 | after a failed write, an old truthy store value wins over the `__dest` parameter |
| Locator.QueryAll | workink.user.js:144 | the buttons matching some selector, in tree order, never more than there are |
| Locator.FindAgree | workink.user.js:141-170 | `findAgreeButton`; no contract of its own: FindAgreeSpec states which button it returns |
| Locator.CandidatesAreAllButtons | workink.user.js:144 | the tier-1 selector list ends in plain `button`, so the candidates are every button in tree order |
| Locator.FirstWhere | workink.user.js:145-164 | the index is the first in the sequence whose element passes the test, or the length |
| Locator.FindAgreeSpec | workink.user.js:141-170 | a button is found exactly when some button or span passes its test; the first passing button wins; otherwise the first passing span yields its `closest('button')`; faulty elements are skipped |
| Locator.FindsPlainButtonWithPaddedLabel | workink.user.js:149-151 | a plain button labelled " \n aGrEe\t" is found |
| Locator.FindsButtonThroughSpan | workink.user.js:155-161 | when no button passes, the enclosing button of an "AGREE" span is found |
| TitleStage.TitleIndicatesWaiting | workink.user.js:263-267 | `titleIndicatesWaiting`; no contract of its own: TitleWaitingIff states it |
| TitleStage.Begin | workink.user.js:269-298 | the stage's state after its set-up; no contract of its own: BeginInv and ReadyAtStart state it |
| TitleStage.Step | workink.user.js:280-308 | one delivered signal; no contract of its own: RunInv, StartedIsFinal and TimeoutBound state its effect |
| TitleStage.Run | workink.user.js:280-308 | the signals delivered in order; no contract of its own: AtMostOnce, ClearedTitleStarts and NeverReadyStartsAtTimeout state it |
| TitleStage.BeginInv | workink.user.js:269-298 | the stage starts in a state that keeps its invariant |
| TitleStage.TitleWaitingIff | workink.user.js:263-267 | the title counts as waiting exactly when it contains "just a" in some letter case; a null title does not |
| TitleStage.TitleExamples | workink.user.js:263-267 | "Just a moment..." and "JUST A SEC" count as waiting; "Welcome" and a null title do not |
| TitleStage.AtMostOnce | workink.user.js:278-308 | whatever the signals, the search stage starts at most once |
| TitleStage.RunInv | workink.user.js:280-308 | every delivered signal preserves the stage invariant |
| TitleStage.StartedIsFinal | workink.user.js:280-286 | once the search has started, later signals change neither the count nor the start time |
| TitleStage.ReadyAtStart | workink.user.js:270-274 | a title that is not waiting starts the search at once, registers no watchers, and ignores all later signals |
| TitleStage.ClearedTitleStarts | workink.user.js:280-298 | the first delivered observer or poll signal that sees a cleared title starts the search at its own time |
| TitleStage.TimeoutBound | workink.user.js:301-308 | once the timeout has fired, the search has started, no later than 120000 ms |
| TitleStage.NeverReadyStartsAtTimeout | workink.user.js:301-308 | a challenge that never clears starts the search exactly at 120000 ms |
| TitleStage.TitleWatcher.constructor | workink.user.js:270-298 | the watcher starts in the state of a fresh stage |
| TitleStage.TitleWatcher.TryMaybeRedirect | workink.user.js:280-286 | the flagged one-shot start |
| TitleStage.TitleWatcher.Deliver | workink.user.js:291-308 | delivering one signal updates the watcher as the stage function does |
| TitleStage.TitleWatcher.Drive | main.js:164-172 | delivering the signals in order leaves the watcher in the state the pure run computes |
| Redirect.FinalRedirect | workink.user.js:132-138 | delete (a failure is ignored), then wait 2000 ms, then assign the destination, in that order; the slot is cleared only if the delete works |
| SearchStage.OnMutation | workink.user.js:230-237 | the observer callback; no contract of its own: ObserveShape states what it may do |
| SearchStage.ObserveShape | workink.user.js:230-237 | callbacks keep a pending stage pending or make the observer win, and do nothing once it has won or is not observing |
| SearchStage.Loop | workink.user.js:244-259 | the poll loop; no contract of its own: LoopShape, NoHitTimesOut and ObserverWinResumesPoll state it |
| SearchStage.LoopShape | workink.user.js:244-259 | the loop from a pending or observer-won state ends in one of the five outcomes |
| SearchStage.SearchRun | workink.user.js:209-260 | the whole stage; no contract of its own: Outcomes, FinalCalls and ImmediateHit state it |
| SearchStage.Outcomes | workink.user.js:209-260 | every run ends in one of five effect sequences: immediate hit; timeout without click; poll hit; observer win then the post-loop call; observer win then a second poll hit |
| SearchStage.FinalCalls | workink.user.js:230-259 | `finalRedirect` runs once or twice; twice exactly when the observer won, and the second call comes from the poll loop |
| SearchStage.ObserverWinResumesPoll | workink.user.js:246-254 | after an observer win during a sleep, the loop wakes and clicks and redirects again if the button is still there, and otherwise exits and redirects |
| SearchStage.ImmediateHit | workink.user.js:212-217 | a button present at once means one click and one `finalRedirect`, with no observer and no poll |
| SearchStage.NoHitTimesOut | workink.user.js:245-259 | if no button appears within 5000 ms, there are 20 polls, then `finalRedirect` without a click |
| SearchStage.NoObserverSingleFinal | workink.user.js:240-242 | when the observer cannot be created, `finalRedirect` runs exactly once |
| SearchStage.AssignsMatchFinals | workink.user.js:132-138 | each `finalRedirect` navigates to the destination once, and nothing else does |
| SearchStage.RealizeAppend | workink.user.js:209-260 | the calls made for two effect sequences in a row are the calls of each, concatenated |
| SearchStage.SearchRunner.constructor | workink.user.js:221-226 | a fresh stage whose host log is in step with its effects |
| SearchStage.SearchRunner.Stop | workink.user.js:223-226 | `stop()` disconnects the observer and sets `resolved` |
| SearchStage.SearchRunner.ClickThenRedirect | workink.user.js:250-252 | a click, then `finalRedirect`, each logged on the host |
| SearchStage.SearchRunner.RedirectAfterLoop | workink.user.js:258-259 | `finalRedirect` without a click |
| SearchStage.SearchRunner.OnMutationCallback | workink.user.js:230-237 | the observer callback updates the runner as the pure stage does |
| SearchStage.SearchRunner.Sleep | workink.user.js:247 | the callbacks delivered during one sleep, in order |
| SearchStage.SearchRunner.Run | main.js:138-158 | the stage leaves the runner in the state the pure stage computes, and the host has seen exactly the calls of its effects |
| Gate.DestinationAssignedOnceOrTwice | workink.user.js:209-260 | once the search starts, the browser is sent to the normalised destination once or twice, twice exactly when the observer won |
| Gate.SearchPhase | workink.user.js:209-260 | the search stage's calls reach the host in order, and the slot is cleared exactly when deletes work |
| Gate.RunGate | main.js:78-172 | the gate branch makes one read, then a delete on an invalid destination, or, once the title stage starts the search, exactly the calls of the search stage's effects; the slot is cleared exactly when a delete was made and deletes work |

## Left out

- The real DOM is not modelled. A document is a snapshot: its buttons carry attributes, text and first-span text, its spans carry their nearest button ancestor, and an element flagged faulty is one whose inspection throws. The outer `try` of `findAgreeButton` (workink.user.js:142,167-169) can then never fire.
- `performClick` / `_click` is an opaque `Click(id)` action that never throws. Scrolling, focus and the synthetic events are not modelled.
- Timers and the clock are idealised. Title signals carry their time, and in the search stage each sleep lasts exactly 250 ms and everything else takes no time, so the loop runs at most 20 rounds. Late timers and timer drift are not modelled.
- The two concurrent `finalRedirect` calls (their 2000 ms sleeps overlapping) and the page unloading after the first assignment are not modelled. The log lists the two calls one after the other.
- The URL library is left uninterpreted (`Url.UrlLib`). HandoffDeliversDestination takes the round trip of `URLSearchParams.get` over `encodeURIComponent` as a precondition rather than proving it. `encodeURIComponent` is taken to be total.
- JSON encoding in the `localStorage` backend is a functional parameter. Each backend is represented by the store slot of `Browser.Host`, whose operations succeed or fail for the whole run. `Backends.OpenHost` connects the backend choice to that host. `Backends.LocalStorageActsAsHostRead` and `Backends.GmGetActsAsHostRead` connect two of the reads to it. `GM.getValue` and an injected `env.gmGet` are library calls and are not modelled.
- HandoffDeliversDestination: assumes the origin and the gate share one store slot. That holds for the GM stores, but the loader's `localStorage` fallback (main.js:37-41) is per-origin. There the gate reads its own empty storage, and the destination is lost; `Handoff.LocalStorageHandoffLost` proves this.
- The console logging, the metadata header, the loader's `__wk_obf_load` export and auto-run (main.js:178-186), and the junk helpers `_J0`–`_J9` (main.js:19-29) are not modelled.
- Promise scheduling and `async` interleaving between the stages are not modelled. The title stage's signals and the search stage's schedule are given as separate inputs.
