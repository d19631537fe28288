# screentime, modelled in Dafny

screentime is a browser extension that records how long each website is
open and focused. Its background worker listens to tab and window events
and keeps one JSON document, `raw`, in `chrome.storage.local`:

- the document maps each eligible domain to its sessions;
- a session is an interval during which one tab in one window showed that
  domain (`start`, `end`, `total`, `tabId`, `windowId`);
- each session holds focus intervals, the stretches when that tab was the
  one in front.

The reports page and the popup add these numbers up and display them.

This project models:

- `Aux` and `Storage` of fn.js. `Aux` covers URL eligibility, `getTLD` and
  `generateId`. `Storage` covers the session and focus writes and the bulk
  sweeps over the document.
- The event handlers of background.js, and those of its earlier variant
  background_v2.js.
- The aggregations of reports.js.
- `formatTime` and the arithmetic of `displayTodayActivity` in popup.js.

Modules:

- `Wrappers` and `Assoc`: `Option`, and ordered association lists. These
  stand for JavaScript objects; order matters because several operations
  act on the first match in `for ... in` order.
- `Aux`: eligibility, `getTLD` and `generateId`.
- `Tracking`: the document and what each `Storage` operation does to it.
  Each operation is a function `After...`, with lemmas about it.
- `Storage`: the class `Store`. Its field `raw` is the stored document, and
  its methods are the `Storage` methods with their loops. Each method is
  proved to leave `raw` as the matching `Tracking` function says.
- `Background`: one method per listener of background.js, proved against an
  `After...` function, and lemmas about those functions.
- `BackgroundV2`: the one handler of background_v2.js that differs from
  background.js. Its onInstalled (background_v2.js:310-312), onUpdated
  (332-395), onActivated (398-433), onRemoved (435-438),
  windows.onFocusChanged (441-475), windows.onRemoved (477-484) and
  onSuspend (487-490) are those of background.js without the `reason`
  arguments, so the `Background` members model them too.
- `Ranking`: the stable descending sort both pages use.
- `Reports`: the reports aggregations.
- `Popup`: the popup arithmetic.

Inputs the code receives from the platform are parameters:

- the clock (`now`);
- the IDs `generateId` draws;
- the parsed host of a URL;
- the tab records, window lists and query results the browser API returns.

## Model

| member | source | states |
|---|---|---|
| Aux.IsEligibleUrl | fn.js:46-62 | false for an empty URL and for a URL starting with one of the six refused schemes, true otherwise (the loop with early return agrees with `IsEligible`) |
| Aux.IneligibleSchemesRefused | fn.js:47-59 | any URL starting with `chrome://`, `chrome-extension://`, `about:`, `file://`, `edge://` or `moz-extension://` is refused |
| Aux.EligibleByFirstChar | fn.js:46-62 | a non-empty URL whose first character begins none of the schemes is accepted |
| Aux.WebUrlsEligible | fn.js:46-62 | every `http://` and `https://` URL is accepted |
| Aux.JoinSplit | fn.js:26-28 | `split('.')` then `join('.')` gives back the host |
| Aux.SplitJoin | fn.js:26-28 | joining dot-free labels and splitting gives back the labels |
| Aux.TLDShape | fn.js:22-35 | the input when parsing fails; the host when fewer than two non-`www` labels remain; otherwise the last two kept labels joined by a dot, which split back into exactly those two |
| Aux.TLDIdempotent | fn.js:22-35 | for any href, a URL whose host is a domain `getTLD` produced maps back to that domain |
| Aux.TLDKeepsLastTwo | fn.js:26-29 | `www.a.b.c` gives `b.c`: a two-label public suffix such as `co.uk` is kept and the registrable label dropped |
| Aux.TLDSingleLabel | fn.js:29-31 | a one-label host other than `www` is its own domain |
| Aux.GenerateId | fn.js:37-44 | six characters, each the alphabet character at the index drawn for it |
| Tracking.FindActive | fn.js:77-93 | null for an ineligible or absent domain; a result names a session of that domain open for the tab and window; null otherwise means no such session exists |
| Tracking.FindActiveReadsBack | fn.js:77-93 | the ID found reads back a session open for that tab and window |
| Tracking.InsertSessionEffect | fn.js:95-110 | no write for an ineligible domain; otherwise exactly one new session `{start: now, tabId, windowId}`, with no end and no focus, under the domain, and every other entry unchanged |
| Tracking.InsertSessionFindable | fn.js:77-110 | after `insertSession`, `findActiveSessionId` finds the new session when the tab had no open session there |
| Tracking.InsertFocusEffect | fn.js:112-132 | no write for an ineligible domain, an absent or empty domain or a missing session; otherwise one new focus `{start: now}` in that session and nothing else changes |
| Tracking.EndSessionEffect | fn.js:134-150 | no write for an ineligible domain, a missing session or an ended one; otherwise `end = now` and `total = end - start` on that session only |
| Tracking.EndSessionIdempotent | fn.js:134-150 | ending a session twice equals ending it once |
| Tracking.EndFocusEffect | fn.js:152-174 | no write unless the session exists and holds an open focus; otherwise its first open focus gets `end` and `total`, and nothing else changes |
| Tracking.EndFocusIdempotent | fn.js:152-174 | with at most one open focus in the session, ending focus twice equals ending it once |
| Tracking.WritesKeepWellFormed | fn.js:95-174 | every single-entry write keeps keys unique, domain keys eligible and session keys non-empty |
| Tracking.SweepShape | fn.js:176-305 | every bulk sweep keeps the document's keys, their order and its well-formedness |
| Tracking.FocusSweepKeepsSessions | fn.js:176-255 | a focus sweep never ends or rebinds a session; a visited session has exactly its first open focus closed, and an unvisited one is unchanged |
| Tracking.FocusSweepClears | fn.js:176-255 | with one open focus per session, no selected open session keeps an open focus |
| Tracking.FocusSweepFocusOnly | fn.js:176-255 | focus sweeps change only focus entries |
| Tracking.SessionSweepCloses | fn.js:258-287 | for a non-zero clock, `endAllSessionsInWindow` and `endAllActiveSessions` leave no selected session open; each one they ended gets `end = now` and `total = now - start`, and is left without an open focus when it held at most one |
| Tracking.SweepOnlySelected | fn.js:176-305 | a sweep leaves every session its selector does not pick exactly as it was |
| Tracking.FindAndEndEffect | fn.js:202-217 | for a non-zero clock, something is ended iff the tab has an open session in that window; the first one gets `end` and `total`, is left without an open focus when it held at most one, and no other session changes |
| Tracking.InsertSessionKeepsFocus | fn.js:95-110 | a new session without focus keeps "at most one open focus" and "no focus in the selected sessions" |
| Tracking.InsertFocusKeepsNoFocus | fn.js:112-132 | a focus inserted on a session the selector spares keeps that selector's sessions unfocused |
| Tracking.InsertFocusKeepsOneOpen | fn.js:112-132 | `insertFocus` on a session without an open focus keeps at most one open focus per session |
| Tracking.FocusWritesFocusOnly | fn.js:112-174 | `insertFocus` and `endFocus` change only focus entries |
| Tracking.FocusOnlyFindActive | fn.js:77-93 | changing only focus entries changes no answer of `findActiveSessionId` |
| Storage.Store.constructor | fn.js:68-71 | a fresh profile reads as the empty document |
| Storage.Store.SaveRaw | fn.js:73-75 | the document is replaced as a whole |
| Storage.Store.FindActiveSessionId | fn.js:77-93 | the `for ... in` scan returns what `FindActive` specifies |
| Storage.Store.InsertSession | fn.js:95-110 | the new document is `AfterInsertSession` of the old one, and stays well formed |
| Storage.Store.InsertFocus | fn.js:112-132 | the new document is `AfterInsertFocus` of the old one |
| Storage.Store.EndURLSession | fn.js:134-150 | the new document is `AfterEndSession` of the old one |
| Storage.Store.EndFocus | fn.js:152-174 | the new document is `AfterEndFocus` of the old one |
| Storage.Store.Sweep | fn.js:176-305 | the nested walk over the snapshot leaves `AfterSweep` of the old document |
| Storage.Store.EndFocusAllExcept | fn.js:176-199 | focus sweep over the window's sessions other than the tab's |
| Storage.Store.EndAllFocusInWindow | fn.js:220-237 | focus sweep over the window, sparing `exceptTabId` when given |
| Storage.Store.EndAllFocusGlobally | fn.js:240-255 | focus sweep over every session |
| Storage.Store.EndAllSessionsInWindow | fn.js:258-271 | session sweep over the window |
| Storage.Store.EndAllActiveSessions | fn.js:274-287 | session sweep over every session |
| Storage.Store.EndFocusInOtherWindows | fn.js:290-305 | focus sweep over the sessions outside the window |
| Storage.Store.FindOpenSession | fn.js:205-215 | the nested scan returns the first session over all domains open for the tab (and the window, when one is given) |
| Storage.Store.FindAndEndSession | fn.js:202-217 | returns true iff the tab had an open session in that window; the new document is `AfterFindAndEnd` of the old one |
| Background.OnInstalled | background.js:23-25 | the store becomes the empty document |
| Background.OnStartup | background.js:28-54 | the nested walk over windows and tabs leaves `AfterOnStartup` |
| Background.StartupTabEffect | background.js:32-49 | one tab: nothing for an ineligible URL; otherwise a new open session, focused exactly when the tab is active in a focused window |
| Background.StartupOpensEveryTab | background.js:28-54 | with distinct generated IDs, every eligible tab of every window ends with an open session under its domain |
| Background.StartupIgnoresIneligible | background.js:34-36 | with no eligible tab, the store is unchanged |
| Background.OnCreated | background.js:56-77 | the store becomes `AfterOnCreated` of the old one |
| Background.TrackCreated | background.js:66-76 | the store becomes `AfterTrackCreated`: insert the session, then for an active tab clear the window's other focus and focus the new session |
| Background.OnCreatedEffect | background.js:56-77 | an ineligible tab URL writes nothing; for an eligible domain where the tab has no open session, the tab gets a new open session, focused iff the tab is active; an inactive tab changes nothing else; for an active tab, when every session held at most one open focus and the clock is non-zero, no other tab of the window keeps a focus |
| Background.TrackCreatedEffect | background.js:66-76 | the steps after the URL check: nothing for an ineligible domain; where the tab has no open session, a new open session, focused iff the tab is active; an inactive tab changes nothing else; an active one, when every session held at most one open focus and the clock is non-zero, leaves the window's other tabs unfocused |
| Background.OnUpdated | background.js:80-143 | the store becomes `AfterOnUpdated`, with the nested scan for the tab's first open session |
| Background.OnUpdatedNoOp | background.js:80-143 | no write without a new URL, when the domain is unchanged and the new URL is eligible, or for an ineligible URL with no open session |
| Background.OnUpdatedEndsPrevious | background.js:97-126 | given the position `p` of the tab's first open session in its window, on a domain change or an ineligible new URL that session gets `end = now` and `total = now - start`; it is left without an open focus when it held at most one and the clock is non-zero; for an ineligible URL nothing else changes |
| Background.OnUpdatedOpensNew | background.js:128-141 | for an eligible new domain with no open session, a new open session is created, holding the one new focus iff the tab is active |
| Background.OnActivated | background.js:146-181 | the store becomes `AfterOnActivated` |
| Background.OnActivatedEffect | background.js:146-181 | a failed lookup or a missing URL writes nothing; an ineligible URL changes only focus entries; an eligible one leaves the tab with an open session holding an open focus, reusing the open session it had; when every session held at most one open focus, the clock is non-zero and the record is the activated tab's, no other tab of the window keeps a focus |
| Background.EnsureFocus | background.js:166-176 | the store becomes `AfterEnsureFocus`: reuse the open session or insert one, then `insertFocus` on it |
| Background.EnsureFocusEffect | background.js:160-176 | for an eligible domain the tab ends with an open session holding an open focus, reusing an existing open session |
| Background.OnRemoved | background.js:183-186 | the store becomes `AfterFindAndEnd` for the tab and window |
| Background.OnDetached | background.js:189-208 | the loop with its inner `break` leaves `AfterOnDetached` |
| Background.DetachDomainAt | background.js:193-205 | one domain of the loop: only that domain's sessions are replaced, by the inner scan's result |
| Background.OnDetachedEffect | background.js:189-208 | only focus entries change, only in each domain's first open session of the tab in the old window; when every session held at most one open focus and the clock is non-zero, those are left unfocused |
| Background.OnAttached | background.js:211-245 | the store becomes `AfterOnAttached`: the snapshot with the `windowId` rewritten |
| Background.OnAttachedEffect | background.js:211-245 | only the `windowId` of the tab's first open session changes; no focus entry changes anywhere |
| Background.OnAttachedDropsFocus | background.js:214-240 | on a one-session store, the handler as written leaves the moved session unfocused, while the corrected one focuses it |
| Background.OnAttachedFixed | background.js:211-245 | the corrected handler leaves `AfterOnAttachedFixed`: the rewritten snapshot, then the focus writes on top of it |
| Background.OnAttachedFixedEffect | background.js:211-245 | with the corrected order, the tab's session is in the new window and holds an open focus; with at most one open focus per session and a non-zero clock, no other tab of that window keeps one |
| Background.OnReplaced | background.js:248-276 | the store becomes `AfterOnReplaced` |
| Background.OnReplacedEffect | background.js:248-276 | the first open session of the removed tab now has the added tab's ID and reason "tab_replaced"; nothing else changes |
| Background.OnFocusChanged | background.js:279-313 | the store becomes `AfterOnFocusChanged` |
| Background.OnFocusChangedEffect | background.js:279-313 | the document stays well formed; `WINDOW_ID_NONE` changes only focus entries, and with at most one open focus per session and a non-zero clock leaves none; otherwise, under those two conditions and with the queried tab in that window, no focus is left outside the window; an eligible active tab ends with an open focused session |
| Background.OnWindowRemoved | background.js:315-322 | the store becomes the session sweep of that window |
| Background.OnWindowRemovedEffect | background.js:315-322 | for a non-zero clock, every session of the window is ended, and one that was open with at most one open focus keeps none; other windows' sessions are untouched |
| Background.OnSuspend | background.js:325-327 | the store becomes the session sweep of every session |
| Background.CreatedThenActivatedDoublesFocus | background.js:146-181 | onCreated of an active eligible tab, then onActivated for it, leaves its session with two open focus entries |
| Background.EnsureFocusFixed | background.js:166-176 | the corrected focus step leaves `AfterEnsureFocusFixed`: `insertFocus` only when the session has no open focus |
| Background.EnsureFocusFixedEffect | background.js:166-176 | the corrected step leaves the tab an open session holding an open focus, and keeps at most one open focus per session |
| Background.FocusUnlessOpenEffect | fn.js:112-132 | focusing a session unless it already holds an open focus changes only focus entries, leaves it focused and keeps at most one open focus per session |
| Background.OnSuspendEffect | background.js:325-327 | for a non-zero clock, no session is left open; when every session held at most one open focus, none that was open keeps one |
| BackgroundV2.OnCreated | background_v2.js:314-329 | the store becomes `AfterTrackCreated`: the steps after the URL check, with no URL check |
| BackgroundV2.OnCreatedTracksIneligibleTab | background_v2.js:314-318 | a tab whose URL is refused but whose domain passes is ignored by background.js and gets a session here |
| BackgroundV2.SettingsPageDomain | background_v2.js:32-45 | `chrome://settings` is refused, while its domain `settings` passes |
| Ranking.SortIsDescendingPermutation | reports.js:56-57 | the sort is a permutation of the entries, in non-increasing order of value |
| Ranking.SortKeepsKeys | popup.js:82 | the sorted entries carry the same keys, each as often as before |
| Ranking.SortedHeadIsMax | reports.js:56-58 | the first sorted entry has the largest value |
| Reports.ComputeFocusSum | reports.js:18-29 | the nested loop returns `FocusSum`, 1000 times the hour sum of every in-range block |
| Reports.ComputeFocusSumByURL | reports.js:34-49 | the loop returns `FocusByURL` |
| Reports.ComputeTotalSites | reports.js:65-79 | the loop with `break` returns `TotalSites` |
| Reports.AnyPositive | reports.js:70 | true iff some hour count is positive |
| Reports.FocusByURLEntries | reports.js:34-49 | an entry is present iff its domain's in-range total is positive, and it carries that total; distinct keys stay distinct |
| Reports.FocusSumIsSumByURL | reports.js:18-49 | with no negative hour, the focus sum equals the sum of the per-domain totals |
| Reports.TotalSitesCountsByURL | reports.js:34-79 | with no negative hour, the site count equals the number of per-domain entries and is at most the number of domains |
| Reports.UrlFocusPositive | reports.js:38-44 | with no negative hour, a domain's total is positive iff some in-range block has a positive hour |
| Reports.MostVisitedRanks | reports.js:54-60 | `min(limit, n)` entries, by non-increasing time, together a sub-multiset of the per-domain totals (so none is listed twice), every total left out at most the last one listed, and the first the largest |
| Reports.EmptyRange | reports.js:18-79 | when start is after end the results are 0, `{}`, `[]` and 0 |
| Popup.FormatTimeSplits | popup.js:112-114 | for s ≥ 0: minutes in 0..59 and `3600h + 60m ≤ s < 3600h + 60m + 60`, i.e. `3600h + 60m = s - s mod 60` |
| Popup.FormatTimeShowsHours | popup.js:116-120 | the text contains `h` iff there is at least one whole hour |
| Popup.FormatTimeReadsBack | popup.js:112-121 | the text reads back as the seconds rounded down to the minute |
| Popup.FormatTimeZero | popup.js:112-121 | `formatTime(0)` is "0m" |
| Popup.ParseNatToString | popup.js:117-119 | the decimal rendering reads back as the number |
| Popup.TodayWithoutActivity | popup.js:64-74 | no activity shows "0h 0m", which differs from `formatTime(0)`, and count "0" |
| Popup.TodayTotal | popup.js:77-78 | the total shown reads back as the summed seconds, to the minute |
| Popup.TodayWithActivity | popup.js:77-82 | the count reads back as the number of domains; the domains listed are the keys, each once, by non-increasing seconds |
| Popup.DomainsRanked | popup.js:82 | the sorted keys are a permutation of the keys, by non-increasing value |

## Left out

- Storage I/O. `getRaw`/`saveRaw` are reads and writes of the `raw` field. `getV2Reports` is not modelled; the report object is an input.
- Concurrency. Each listener runs as one atomic sequential step. The code has no write queue, so interleavings between listeners and between the get and set of one `Storage` call are not modelled.
- Clock. Each listener reads the clock once: the successive `Date.now()` calls inside one handler are taken as equal.
- Randomness. `Math.random` in `generateId` becomes supplied draws. IDs are parameters of the shape `generateId` produces; collisions between them are modelled, since `Put` overwrites in place.
- URL parsing. `new URL(...)` is the platform's parser; its host, or its failure, is an input.
- Key order. JavaScript orders integer-like object keys first in `for ... in`. Keys are kept in insertion order, so a six-digit ID such as "123456" would be visited at another position than in the model.
- Inherited keys. The document and its session maps are JavaScript objects, so a domain named after an `Object.prototype` member (`constructor`, `__proto__`, ...) reads an inherited value in `insertSession` (fn.js:100-107). Association lists have no inherited keys, and such domains are not modelled.
- Reasons. The `reason` argument the handlers pass to `insertSession`, `endFocusAllExcept` and the other `Storage` calls is not a parameter of those methods and is dropped. No handler writes an end reason; only onReplaced writes `reason` into a session.
- Logging and swallowed errors. `console.error` and the `try`/`catch` wrappers are not modelled. A failed `chrome.tabs.get` becomes an absent tab record.
- Floating point. Seconds and milliseconds are integers. The reports page passes fractional seconds to `formatTime` (`ms / 1000`, the daily average), and those are not modelled. Percentages and averages are float divisions and are left out.
- Date code. `computeBlockDayData`, `getPeriodBoundaries` and `getTodayString` depend on the local time zone and on `Date`.
- UI code. All DOM rendering is left out: the `display*` functions except the arithmetic of `displayTodayActivity`, the limits progress bars, navigation, and all of settings.js.
- Popup.FormatTimeSplits: states the hour and minute bounds for s ≥ 0 only. Negative seconds are modelled (`JsRem` keeps the sign of JavaScript's `%`), but nothing is proved about them.
- Popup.TodayTotal: reads the total back only for a non-negative sum.
- Ranking.SortByValueDesc: ties keep their input order, as the stable `Array.prototype.sort` keeps them. This holds by construction but is not stated as a lemma.
- Tracking.FocusSweepClears: assumes a non-zero clock, because an `end` of 0 reads as unset (JavaScript truthiness). It also assumes at most one open focus per session, because `endFocus` closes only the first one.

## Findings

| source | as written | input that shows it | evidently intended | confidence | as-written member | corrected member |
|---|---|---|---|---|---|---|
| background.js:214-240 | onAttached reads a snapshot and rewrites the session's `windowId` in it. It then calls `endFocusAllExcept` and `insertFocus`, which write the store. Finally it saves the stale snapshot, which erases both writes. | store `{"news.com": {"SESSN1": {start: 1, tabId: 7, windowId: 1}}}`; tab 7 attached to window 2 while active | the moved session is in window 2 and holds an open focus, and the other tabs of window 2 have none | not executed | Background.OnAttachedDropsFocus | Background.OnAttachedFixedEffect |
| background_v2.js:314-318 | onCreated never checks the tab's own URL. Only the domain cut from it must pass `isEligibleUrl`. | empty store; inactive tab 1 in window 1 with URL `chrome://settings` (host `settings`) | no session for a refused tab URL, as in background.js:61-64 | not executed | BackgroundV2.OnCreatedTracksIneligibleTab | Background.OnCreatedEffect |
| background.js:146-181 | onActivated calls `insertFocus` on the tab's open session even when that session already holds an open focus, which onCreated of an active tab (background.js:73-74) has just inserted. | empty store; onCreated of an active tab 1 in window 1 with URL `https://news.com/`, then onActivated for tab 1 in window 1 | at most one open focus per session, which `endFocus` (closing only the first) relies on | not executed | Background.CreatedThenActivatedDoublesFocus | Background.EnsureFocusFixedEffect |
