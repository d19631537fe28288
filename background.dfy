/**
 * The event handlers of background.js, each a transition of the tracking
 * store. What the browser reports (the tab record, the result of
 * `chrome.tabs.get` or `chrome.tabs.query`, the window list) arrives as
 * parameters; `now` is the clock for the whole handler and `sid`/`fid` are
 * the IDs the `Storage` calls generate. Each handler method is proved to
 * leave the store as the matching `After...` function says, and the lemmas
 * below state what those functions do.
 */
module Background {
  import opened Wrappers
  import opened Assoc
  import opened Aux
  import opened Tracking
  import opened Storage

  /** A `chrome.tabs.Tab`; a tab without a URL has `url.href == ""`. */
  datatype Tab = Tab(id: int, windowId: int, active: bool, url: Url)

  /** A `chrome.windows.Window` as `chrome.windows.getAll({populate: true})` returns it. */
  datatype BrowserWindow = BrowserWindow(focused: bool, tabs: seq<Tab>)

  /** `chrome.windows.WINDOW_ID_NONE`. */
  const WINDOW_ID_NONE: int := -1

  /** The `reason` onReplaced writes (`ev.tabReplaced`). */
  const TAB_REPLACED: string := "tab_replaced"

  // ---------------------------------------------------------------------------
  // Shared steps

  /** `if (sessionId) await Storage.insertFocus(tld, sessionId)`. */
  function FocusFound(raw: Raw, found: Option<string>, tld: string, fid: string, now: int): Raw {
    match found
    case None => raw
    case Some(k) => AfterInsertFocus(raw, tld, k, fid, now)
  }

  /**
   * The tail of onActivated and onFocusChanged: find the tab's open session,
   * create one when there is none, then start a focus on what was found.
   */
  function AfterEnsureFocus(raw: Raw, tld: string, windowId: int, tabId: int, sid: string, fid: string, now: int): Raw {
    match FindActive(raw, tld, windowId, tabId)
    case Some(k) => AfterInsertFocus(raw, tld, k, fid, now)
    case None =>
      var r := AfterInsertSession(raw, tld, sid, tabId, windowId, now);
      FocusFound(r, FindActive(r, tld, windowId, tabId), tld, fid, now)
  }

  method EnsureFocus(store: Store, tld: string, windowId: int, tabId: int, sid: Id, fid: Id, now: int)
    requires store.Valid()
    modifies store
    ensures store.Valid() && store.raw == AfterEnsureFocus(old(store.raw), tld, windowId, tabId, sid, fid, now)
  {
    var sessionId := store.FindActiveSessionId(tld, windowId, tabId);
    if sessionId.None? {
      store.InsertSession(tld, tabId, windowId, sid, now);
      sessionId := store.FindActiveSessionId(tld, windowId, tabId);
    }
    if sessionId.Some? {
      store.InsertFocus(tld, sessionId.value, fid, now);
    }
  }

  // ---------------------------------------------------------------------------
  // runtime.onInstalled

  method OnInstalled(store: Store)
    modifies store
    ensures store.Valid() && store.raw == []
  {
    store.SaveRaw([]);
  }

  // ---------------------------------------------------------------------------
  // runtime.onStartup

  /** One tab of the startup walk. */
  function StartupTab(raw: Raw, tab: Tab, focused: bool, ids: (Id, Id), now: int): Raw {
    if !IsEligible(tab.url.href) then raw
    else
      var tld := GetTLD(tab.url);
      var r := AfterInsertSession(raw, tld, ids.0, tab.id, tab.windowId, now);
      if tab.active && focused then FocusFound(r, FindActive(r, tld, tab.windowId, tab.id), tld, ids.1, now)
      else r
  }

  /** The tabs of one window, in order; `ids[k]` are the IDs generated for `tabs[k]`. */
  function StartupTabs(raw: Raw, tabs: seq<Tab>, focused: bool, ids: seq<(Id, Id)>, now: int): Raw
    requires |ids| == |tabs|
  {
    if |tabs| == 0 then raw
    else StartupTab(StartupTabs(raw, tabs[..|tabs| - 1], focused, ids[..|ids| - 1], now),
                    tabs[|tabs| - 1], focused, ids[|ids| - 1], now)
  }

  predicate IdsFit(windows: seq<BrowserWindow>, ids: seq<seq<(Id, Id)>>) {
    |ids| == |windows| && forall w :: 0 <= w < |windows| ==> |ids[w]| == |windows[w].tabs|
  }

  /** Every window of `chrome.windows.getAll`, in order. */
  function AfterOnStartup(raw: Raw, windows: seq<BrowserWindow>, ids: seq<seq<(Id, Id)>>, now: int): Raw
    requires IdsFit(windows, ids)
  {
    if |windows| == 0 then raw
    else
      var w := |windows| - 1;
      StartupTabs(AfterOnStartup(raw, windows[..w], ids[..w], now), windows[w].tabs, windows[w].focused, ids[w], now)
  }

  method OnStartup(store: Store, windows: seq<BrowserWindow>, ids: seq<seq<(Id, Id)>>, now: int)
    requires store.Valid() && IdsFit(windows, ids)
    modifies store
    ensures store.Valid() && store.raw == AfterOnStartup(old(store.raw), windows, ids, now)
  {
    for w := 0 to |windows|
      invariant store.Valid()
      invariant store.raw == AfterOnStartup(old(store.raw), windows[..w], ids[..w], now)
    {
      StartupWindow(store, windows[w], ids[w], now);
      assert windows[..w + 1][..w] == windows[..w];
      assert ids[..w + 1][..w] == ids[..w];
    }
    assert windows[..|windows|] == windows;
    assert ids[..|ids|] == ids;
  }

  /** The tabs of one window of `chrome.windows.getAll`, in order. */
  method StartupWindow(store: Store, window: BrowserWindow, ids: seq<(Id, Id)>, now: int)
    requires store.Valid() && |ids| == |window.tabs|
    modifies store
    ensures store.Valid() && store.raw == StartupTabs(old(store.raw), window.tabs, window.focused, ids, now)
  {
    for k := 0 to |window.tabs|
      invariant store.Valid()
      invariant store.raw == StartupTabs(old(store.raw), window.tabs[..k], window.focused, ids[..k], now)
    {
      StartupTabStep(store, window.tabs[k], window.focused, ids[k], now);
      assert window.tabs[..k + 1][..k] == window.tabs[..k];
      assert ids[..k + 1][..k] == ids[..k];
    }
    assert window.tabs[..|window.tabs|] == window.tabs;
    assert ids[..|ids|] == ids;
  }

  /** One tab: its session when the URL is eligible, and a focus when it is the active tab of the focused window. */
  method StartupTabStep(store: Store, tab: Tab, focused: bool, ids: (Id, Id), now: int)
    requires store.Valid()
    modifies store
    ensures store.Valid() && store.raw == StartupTab(old(store.raw), tab, focused, ids, now)
  {
    var eligible := IsEligibleUrl(tab.url.href);
    if eligible {
      var tld := GetTLD(tab.url);
      store.InsertSession(tld, tab.id, tab.windowId, ids.0, now);
      if tab.active && focused {
        var sessionId := store.FindActiveSessionId(tld, tab.windowId, tab.id);
        if sessionId.Some? {
          store.InsertFocus(tld, sessionId.value, ids.1, now);
        }
      }
    }
  }

  // ---------------------------------------------------------------------------
  // tabs.onCreated

  function AfterOnCreated(raw: Raw, tab: Tab, sid: string, fid: string, now: int): Raw {
    if !IsEligible(tab.url.href) then raw
    else AfterTrackCreated(raw, tab, sid, fid, now)
  }

  /**
   * What onCreated does once the tab's URL has passed: insert a session under
   * the tab's domain and, for an active tab whose session is then found, end
   * the other tabs' focus in the window and start a focus on it.
   */
  function AfterTrackCreated(raw: Raw, tab: Tab, sid: string, fid: string, now: int): Raw {
    var tld := GetTLD(tab.url);
    var r := AfterInsertSession(raw, tld, sid, tab.id, tab.windowId, now);
    if !tab.active then r
    else match FindActive(r, tld, tab.windowId, tab.id)
      case None => r
      case Some(k) =>
        AfterInsertFocus(AfterSweep(r, EndFocusOnly, InWindowExcept(tab.windowId, Some(tab.id)), now), tld, k, fid, now)
  }

  method OnCreated(store: Store, tab: Tab, sid: Id, fid: Id, now: int)
    requires store.Valid()
    modifies store
    ensures store.Valid() && store.raw == AfterOnCreated(old(store.raw), tab, sid, fid, now)
  {
    var eligible := IsEligibleUrl(tab.url.href);
    if !eligible {
      return;
    }
    TrackCreated(store, tab, sid, fid, now);
  }

  method TrackCreated(store: Store, tab: Tab, sid: Id, fid: Id, now: int)
    requires store.Valid()
    modifies store
    ensures store.Valid() && store.raw == AfterTrackCreated(old(store.raw), tab, sid, fid, now)
  {
    var tld := GetTLD(tab.url);
    store.InsertSession(tld, tab.id, tab.windowId, sid, now);
    if tab.active {
      var sessionId := store.FindActiveSessionId(tld, tab.windowId, tab.id);
      if sessionId.Some? {
        store.EndFocusAllExcept(tab.windowId, tab.id, now);
        store.InsertFocus(tld, sessionId.value, fid, now);
      }
    }
  }

  // ---------------------------------------------------------------------------
  // tabs.onUpdated

  /**
   * `changeUrl` is `changeInfo.url`, with an absent one as href "";
   * `tabId` is the handler's first argument and `tab` its third.
   */
  function AfterOnUpdated(raw: Raw, tabId: int, changeUrl: Url, tab: Tab, sid: string, fid: string, now: int): Raw {
    if changeUrl.href == "" then raw
    else
      var newTld := GetTLD(changeUrl);
      var eligible := IsEligible(changeUrl.href);
      var previous := FirstOpenAnywhere(raw, tabId, Some(tab.windowId));
      var domainChanged := previous.None? || raw[previous.value.0].0 != newTld;
      var ended := if previous.Some? && (domainChanged || !eligible) then EndPrevious(raw, previous.value, now) else raw;
      if eligible && domainChanged then OpenNew(ended, newTld, tabId, tab, sid, fid, now) else ended
  }

  /** `insertSession` under the new domain, then focus on what `findActiveSessionId` finds when the tab is active. */
  function OpenNew(raw: Raw, newTld: string, tabId: int, tab: Tab, sid: string, fid: string, now: int): Raw {
    var r := AfterInsertSession(raw, newTld, sid, tabId, tab.windowId, now);
    if tab.active then FocusFound(r, FindActive(r, newTld, tab.windowId, tabId), newTld, fid, now) else r
  }

  /** `endFocus` then `endURLSession` on the session found at position `p`. */
  function EndPrevious(raw: Raw, p: (nat, nat), now: int): Raw
    requires p.0 < |raw| && p.1 < |raw[p.0].1|
  {
    var url, k := raw[p.0].0, raw[p.0].1[p.1].0;
    AfterEndSession(AfterEndFocus(raw, url, k, now), url, k, now)
  }

  method OnUpdated(store: Store, tabId: int, changeUrl: Url, tab: Tab, sid: Id, fid: Id, now: int)
    requires store.Valid()
    modifies store
    ensures store.Valid() && store.raw == AfterOnUpdated(old(store.raw), tabId, changeUrl, tab, sid, fid, now)
  {
    if changeUrl.href == "" {
      return;
    }
    var newTld := GetTLD(changeUrl);
    var eligible := IsEligibleUrl(changeUrl.href);
    var snapshot := store.raw;
    var previous := store.FindOpenSession(tabId, Some(tab.windowId));
    var previousTld: Option<string> := None;
    var previousSessionId: Option<string> := None;
    if previous.Some? {
      previousTld := Some(snapshot[previous.value.0].0);
      previousSessionId := Some(snapshot[previous.value.0].1[previous.value.1].0);
    }
    var domainChanged := previousTld != Some(newTld);
    if previousSessionId.Some? && (domainChanged || !eligible) {
      store.EndFocus(previousTld.value, previousSessionId.value, now);
      store.EndURLSession(previousTld.value, previousSessionId.value, now);
    }
    if eligible && (previousSessionId.None? || domainChanged) {
      store.InsertSession(newTld, tabId, tab.windowId, sid, now);
      if tab.active {
        var newSessionId := store.FindActiveSessionId(newTld, tab.windowId, tabId);
        if newSessionId.Some? {
          store.InsertFocus(newTld, newSessionId.value, fid, now);
        }
      }
    }
  }

  // ---------------------------------------------------------------------------
  // tabs.onActivated

  /**
   * `activeTabId`/`activeWindowId` are `activeInfo`; `lookup` is what
   * `chrome.tabs.get(activeInfo.tabId)` resolved to, None when it failed.
   */
  function AfterOnActivated(raw: Raw, activeTabId: int, activeWindowId: int, lookup: Option<Tab>, sid: string, fid: string, now: int): Raw {
    if lookup.None? || lookup.value.url.href == "" then raw
    else
      var r := AfterSweep(raw, EndFocusOnly, InWindowExcept(activeWindowId, Some(activeTabId)), now);
      var tab := lookup.value;
      if !IsEligible(tab.url.href) then r
      else AfterEnsureFocus(r, GetTLD(tab.url), tab.windowId, tab.id, sid, fid, now)
  }

  method OnActivated(store: Store, activeTabId: int, activeWindowId: int, lookup: Option<Tab>, sid: Id, fid: Id, now: int)
    requires store.Valid()
    modifies store
    ensures store.Valid() && store.raw == AfterOnActivated(old(store.raw), activeTabId, activeWindowId, lookup, sid, fid, now)
  {
    if lookup.None? || lookup.value.url.href == "" {
      return;
    }
    var activeTab := lookup.value;
    store.EndFocusAllExcept(activeWindowId, activeTabId, now);
    var activeTld := GetTLD(activeTab.url);
    var eligible := IsEligibleUrl(activeTab.url.href);
    if !eligible {
      return;
    }
    EnsureFocus(store, activeTld, activeTab.windowId, activeTab.id, sid, fid, now);
  }

  // ---------------------------------------------------------------------------
  // tabs.onRemoved

  method OnRemoved(store: Store, tabId: int, windowId: int, now: int)
    requires store.Valid()
    modifies store
    ensures store.Valid() && store.raw == AfterFindAndEnd(old(store.raw), tabId, windowId, now)
  {
    var _ := store.FindAndEndSession(tabId, windowId, now);
  }

  // ---------------------------------------------------------------------------
  // tabs.onDetached

  /** One domain of the detach walk: the first open session of the tab in the old window loses its focus. */
  function DetachDomain(url: string, ss: Sessions, tabId: int, oldWindowId: int, now: int): (r: Sessions)
    ensures |r| == |ss|
  {
    match FirstOpenFor(ss, tabId, Some(oldWindowId))
    case None => ss
    case Some(j) => ss[j := (ss[j].0, if IsEligible(url) then CloseFirstFocus(ss[j].1, now) else ss[j].1)]
  }

  /** There is no `break` out of the outer loop: every domain is walked. */
  function AfterOnDetached(raw: Raw, tabId: int, oldWindowId: int, now: int): (r: Raw)
    ensures |r| == |raw|
    ensures forall i :: 0 <= i < |raw| ==> r[i] == (raw[i].0, DetachDomain(raw[i].0, raw[i].1, tabId, oldWindowId, now))
  {
    seq(|raw|, i requires 0 <= i < |raw| => (raw[i].0, DetachDomain(raw[i].0, raw[i].1, tabId, oldWindowId, now)))
  }

  method OnDetached(store: Store, tabId: int, oldWindowId: int, now: int)
    requires store.Valid()
    modifies store
    ensures store.Valid() && store.raw == AfterOnDetached(old(store.raw), tabId, oldWindowId, now)
  {
    var snapshot := store.raw;
    ghost var target := AfterOnDetached(snapshot, tabId, oldWindowId, now);
    var i := 0;
    while i < |snapshot|
      invariant 0 <= i <= |snapshot|
      invariant store.Valid() && SameShape(snapshot, store.raw)
      invariant forall k :: 0 <= k < i ==> store.raw[k] == target[k]
      invariant forall k :: i <= k < |snapshot| ==> store.raw[k] == snapshot[k]
    {
      DetachDomainAt(store, i, tabId, oldWindowId, now);
      i := i + 1;
    }
  }

  /** The inner loop of onDetached over the domain at position `i`, up to its `break`. */
  method DetachDomainAt(store: Store, i: nat, tabId: int, oldWindowId: int, now: int)
    requires store.Valid() && i < |store.raw|
    modifies store
    ensures store.Valid() && SameShape(old(store.raw), store.raw)
    ensures store.raw == old(store.raw)[i := (old(store.raw)[i].0, DetachDomain(old(store.raw)[i].0, old(store.raw)[i].1, tabId, oldWindowId, now))]
  {
    var url := store.raw[i].0;
    var sessions := store.raw[i].1;
    var j := 0;
    while j < |sessions|
      invariant 0 <= j <= |sessions|
      invariant store.raw == old(store.raw)
      invariant forall l :: 0 <= l < j ==> !OpenFor(sessions[l].1, tabId, Some(oldWindowId))
    {
      var session := sessions[j].1;
      if session.tabId == tabId && session.windowId == oldWindowId && !IsSet(session.end) {
        FirstOpenForIs(sessions, tabId, Some(oldWindowId), j);
        EndFocusAt(store.raw, i, j, now);
        store.EndFocus(url, sessions[j].0, now);
        return;
      }
      j := j + 1;
    }
    assert old(store.raw)[i := (url, sessions)] == old(store.raw);
  }

  // ---------------------------------------------------------------------------
  // tabs.onAttached

  /**
   * What onAttached leaves in the store: the snapshot it read, with the
   * `windowId` of the tab's first open session rewritten. The focus writes
   * it makes on the way are overwritten by the final `saveRaw(raw)`.
   */
  function AfterOnAttached(raw: Raw, tabId: int, newWindowId: int): Raw {
    match FirstOpenAnywhere(raw, tabId, None)
    case None => raw
    case Some(p) => SetSession(raw, p.0, p.1, raw[p.0].1[p.1].1.(windowId := newWindowId))
  }

  /** `lookup` is what `chrome.tabs.get(tabId)` resolved to, None when it failed. */
  method OnAttached(store: Store, tabId: int, newWindowId: int, lookup: Option<Tab>, fid: Id, now: int)
    requires store.Valid()
    modifies store
    ensures store.Valid() && store.raw == AfterOnAttached(old(store.raw), tabId, newWindowId)
  {
    var raw := store.raw;
    var found := store.FindOpenSession(tabId, None);
    if found.None? {
      return;
    }
    var (i, j) := found.value;
    var url, sessionId := raw[i].0, raw[i].1[j].0;
    SetSessionWellFormed(raw, i, j, raw[i].1[j].1.(windowId := newWindowId));
    raw := SetSession(raw, i, j, raw[i].1[j].1.(windowId := newWindowId));
    if lookup.Some? && lookup.value.active {
      store.EndFocusAllExcept(newWindowId, tabId, now);
      store.InsertFocus(url, sessionId, fid, now);
    }
    store.SaveRaw(raw);
  }

  // ---------------------------------------------------------------------------
  // tabs.onReplaced

  function AfterOnReplaced(raw: Raw, addedTabId: int, removedTabId: int): Raw {
    match FirstOpenAnywhere(raw, removedTabId, None)
    case None => raw
    case Some(p) => SetSession(raw, p.0, p.1, raw[p.0].1[p.1].1.(tabId := addedTabId, reason := Some(TAB_REPLACED)))
  }

  method OnReplaced(store: Store, addedTabId: int, removedTabId: int)
    requires store.Valid()
    modifies store
    ensures store.Valid() && store.raw == AfterOnReplaced(old(store.raw), addedTabId, removedTabId)
  {
    var raw := store.raw;
    var found := store.FindOpenSession(removedTabId, None);
    if found.None? {
      return;
    }
    var (i, j) := found.value;
    var session := raw[i].1[j].1.(tabId := addedTabId, reason := Some(TAB_REPLACED));
    SetSessionWellFormed(raw, i, j, session);
    raw := SetSession(raw, i, j, session);
    store.SaveRaw(raw);
  }

  // ---------------------------------------------------------------------------
  // windows.onFocusChanged

  /** `activeTabs` is what `chrome.tabs.query({windowId, active: true})` returned. */
  function AfterOnFocusChanged(raw: Raw, windowId: int, activeTabs: seq<Tab>, sid: string, fid: string, now: int): Raw {
    if windowId == WINDOW_ID_NONE then AfterSweep(raw, EndFocusOnly, Everywhere, now)
    else
      var r := AfterSweep(raw, EndFocusOnly, OutsideWindow(windowId), now);
      if |activeTabs| == 0 || !IsEligible(activeTabs[0].url.href) then r
      else AfterEnsureFocus(r, GetTLD(activeTabs[0].url), activeTabs[0].windowId, activeTabs[0].id, sid, fid, now)
  }

  method OnFocusChanged(store: Store, windowId: int, activeTabs: seq<Tab>, sid: Id, fid: Id, now: int)
    requires store.Valid()
    modifies store
    ensures store.Valid() && store.raw == AfterOnFocusChanged(old(store.raw), windowId, activeTabs, sid, fid, now)
  {
    if windowId == WINDOW_ID_NONE {
      store.EndAllFocusGlobally(now);
      return;
    }
    store.EndFocusInOtherWindows(windowId, now);
    if |activeTabs| == 0 {
      return;
    }
    var activeTab := activeTabs[0];
    var eligible := IsEligibleUrl(activeTab.url.href);
    if !eligible {
      return;
    }
    var tld := GetTLD(activeTab.url);
    EnsureFocus(store, tld, activeTab.windowId, activeTab.id, sid, fid, now);
  }

  // ---------------------------------------------------------------------------
  // windows.onRemoved and runtime.onSuspend

  method OnWindowRemoved(store: Store, windowId: int, now: int)
    requires store.Valid()
    modifies store
    ensures store.Valid() && store.raw == AfterSweep(old(store.raw), EndFocusAndSession, InWindowExcept(windowId, None), now)
  {
    store.EndAllSessionsInWindow(windowId, now);
  }

  method OnSuspend(store: Store, now: int)
    requires store.Valid()
    modifies store
    ensures store.Valid() && store.raw == AfterSweep(old(store.raw), EndFocusAndSession, Everywhere, now)
  {
    store.EndAllActiveSessions(now);
  }

  // ---------------------------------------------------------------------------
  // What the handlers do

  /** A focus just inserted is open. */
  lemma NewFocusOpen(fs: Assoc<Focus>, fid: string, now: int)
    ensures HasOpenFocus(Put(fs, fid, NewFocus(now)))
  {
    PutGetSame(fs, fid, NewFocus(now));
    var p := IndexOf(Put(fs, fid, NewFocus(now)), fid).value;
    assert FocusOpen(Put(fs, fid, NewFocus(now))[p].1);
  }

  /**
   * `insertSession` for a tab with no open session under the domain, then
   * `findActiveSessionId` and `insertFocus`: the new session is the one
   * found, and it ends up with exactly the new focus.
   */
  lemma OpenThenFocus(raw: Raw, tld: string, sid: Id, fid: string, tabId: int, windowId: int, now: int)
    requires WellFormed(raw) && IsEligible(tld) && FindActive(raw, tld, windowId, tabId).None?
    ensures WellFormed(AfterInsertSession(raw, tld, sid, tabId, windowId, now))
    ensures FindActive(AfterInsertSession(raw, tld, sid, tabId, windowId, now), tld, windowId, tabId) == Some(sid)
    ensures Lookup(AfterInsertSession(raw, tld, sid, tabId, windowId, now), tld, sid) == Some(NewSession(tabId, windowId, now))
    ensures Lookup(AfterInsertFocus(AfterInsertSession(raw, tld, sid, tabId, windowId, now), tld, sid, fid, now), tld, sid)
         == Some(NewSession(tabId, windowId, now).(focus := [(fid, NewFocus(now))]))
    ensures var r := AfterInsertSession(raw, tld, sid, tabId, windowId, now);
      SameElsewhere(r, AfterInsertFocus(r, tld, sid, fid, now), tld, sid)
  {
    var r := AfterInsertSession(raw, tld, sid, tabId, windowId, now);
    WritesKeepWellFormed(raw, tld, sid, sid, tabId, windowId, now);
    InsertSessionFindable(raw, tld, sid, tabId, windowId, now);
    InsertSessionEffect(raw, tld, sid, tabId, windowId, now);
    FocusOnFresh(r, tld, sid, fid, NewSession(tabId, windowId, now), now);
  }

  /** `insertFocus` on a session without focus entries leaves it with exactly the new one. */
  lemma FocusOnFresh(raw: Raw, url: string, sid: string, fid: string, s: Session, now: int)
    requires IsEligible(url) && Lookup(raw, url, sid) == Some(s) && s.focus == []
    ensures Lookup(AfterInsertFocus(raw, url, sid, fid, now), url, sid) == Some(s.(focus := [(fid, NewFocus(now))]))
    ensures SameElsewhere(raw, AfterInsertFocus(raw, url, sid, fid, now), url, sid)
  {
    InsertFocusEffect(raw, url, sid, fid, now);
    assert Put([], fid, NewFocus(now)) == [(fid, NewFocus(now))];
  }

  /**
   * onStartup, one tab: an ineligible URL writes nothing; an eligible one
   * gets a new open session, which carries a focus exactly when the tab is
   * active in a focused window.
   */
  lemma StartupTabEffect(raw: Raw, tab: Tab, focused: bool, ids: (Id, Id), now: int)
    requires WellFormed(raw)
    ensures var r := StartupTab(raw, tab, focused, ids, now);
      var tld := GetTLD(tab.url);
      && (!IsEligible(tab.url.href) ==> r == raw)
      && (IsEligible(tab.url.href) && IsEligible(tld) && FindActive(raw, tld, tab.windowId, tab.id).None? ==>
            Lookup(r, tld, ids.0) == Some(NewSession(tab.id, tab.windowId, now).(focus := if tab.active && focused then [(ids.1, NewFocus(now))] else [])))
      && (!(tab.active && focused) ==> SameElsewhere(raw, r, tld, ids.0))
  {
    var tld := GetTLD(tab.url);
    InsertSessionEffect(raw, tld, ids.0, tab.id, tab.windowId, now);
    if IsEligible(tab.url.href) && IsEligible(tld) && FindActive(raw, tld, tab.windowId, tab.id).None? {
      OpenThenFocus(raw, tld, ids.0, ids.1, tab.id, tab.windowId, now);
    }
  }

  /** The session of `tab` stored under (tld, sid) by a startup step: open, with the tab's IDs and start. */
  predicate OpenedAt(raw: Raw, tld: string, sid: string, tab: Tab, now: int) {
    && Lookup(raw, tld, sid).Some?
    && var s := Lookup(raw, tld, sid).value;
       s.tabId == tab.id && s.windowId == tab.windowId && s.start == now && s.end.None?
  }

  /** A startup step for another session ID leaves an opened session in place. */
  lemma StartupTabKeeps(raw: Raw, tab: Tab, focused: bool, ids: (Id, Id), now: int, tld: string, sid: string, other: Tab)
    requires OpenedAt(raw, tld, sid, other, now) && ids.0 != sid
    ensures OpenedAt(StartupTab(raw, tab, focused, ids, now), tld, sid, other, now)
  {
    var t := GetTLD(tab.url);
    var r := AfterInsertSession(raw, t, ids.0, tab.id, tab.windowId, now);
    InsertSessionEffect(raw, t, ids.0, tab.id, tab.windowId, now);
    assert Lookup(r, tld, sid) == Lookup(raw, tld, sid);
    var found := FindActive(r, t, tab.windowId, tab.id);
    if found.Some? {
      InsertFocusEffect(r, t, found.value, ids.1, now);
    }
  }

  /** A startup step for an eligible tab opens its session under its domain. */
  lemma StartupTabOpens(raw: Raw, tab: Tab, focused: bool, ids: (Id, Id), now: int)
    requires IsEligible(tab.url.href) && IsEligible(GetTLD(tab.url))
    ensures OpenedAt(StartupTab(raw, tab, focused, ids, now), GetTLD(tab.url), ids.0, tab, now)
  {
    var t := GetTLD(tab.url);
    var r := AfterInsertSession(raw, t, ids.0, tab.id, tab.windowId, now);
    InsertSessionEffect(raw, t, ids.0, tab.id, tab.windowId, now);
    var found := FindActive(r, t, tab.windowId, tab.id);
    if found.Some? {
      InsertFocusEffect(r, t, found.value, ids.1, now);
    }
  }

  /** Each eligible tab of a window ends up with an open session, when the generated IDs differ. */
  lemma {:induction false} StartupTabsOpen(raw: Raw, tabs: seq<Tab>, focused: bool, ids: seq<(Id, Id)>, now: int)
    requires |ids| == |tabs|
    requires forall a, b :: 0 <= a < b < |ids| ==> ids[a].0 != ids[b].0
    ensures forall k :: 0 <= k < |tabs| && IsEligible(tabs[k].url.href) && IsEligible(GetTLD(tabs[k].url)) ==>
      OpenedAt(StartupTabs(raw, tabs, focused, ids, now), GetTLD(tabs[k].url), ids[k].0, tabs[k], now)
    decreases |tabs|
  {
    if |tabs| > 0 {
      var n := |tabs| - 1;
      var before := StartupTabs(raw, tabs[..n], focused, ids[..n], now);
      var after := StartupTabs(raw, tabs, focused, ids, now);
      assert after == StartupTab(before, tabs[n], focused, ids[n], now);
      StartupTabsOpen(raw, tabs[..n], focused, ids[..n], now);
      forall k | 0 <= k < |tabs| && IsEligible(tabs[k].url.href) && IsEligible(GetTLD(tabs[k].url))
        ensures OpenedAt(after, GetTLD(tabs[k].url), ids[k].0, tabs[k], now)
      {
        if k == n {
          StartupTabOpens(before, tabs[n], focused, ids[n], now);
        } else {
          assert tabs[..n][k] == tabs[k] && ids[..n][k] == ids[k];
          assert OpenedAt(before, GetTLD(tabs[k].url), ids[k].0, tabs[k], now);
          assert ids[k].0 != ids[n].0;
          StartupTabKeeps(before, tabs[n], focused, ids[n], now, GetTLD(tabs[k].url), ids[k].0, tabs[k]);
        }
      }
    }
  }

  /** A whole window of startup steps, none of whose IDs is `sid`, leaves an opened session in place. */
  lemma {:induction false} StartupTabsKeep(raw: Raw, tabs: seq<Tab>, focused: bool, ids: seq<(Id, Id)>, now: int, tld: string, sid: string, other: Tab)
    requires |ids| == |tabs| && OpenedAt(raw, tld, sid, other, now)
    requires forall k :: 0 <= k < |ids| ==> ids[k].0 != sid
    ensures OpenedAt(StartupTabs(raw, tabs, focused, ids, now), tld, sid, other, now)
    decreases |tabs|
  {
    if |tabs| > 0 {
      var n := |tabs| - 1;
      StartupTabsKeep(raw, tabs[..n], focused, ids[..n], now, tld, sid, other);
      StartupTabKeeps(StartupTabs(raw, tabs[..n], focused, ids[..n], now), tabs[n], focused, ids[n], now, tld, sid, other);
    }
  }

  /** Every generated session ID differs from every other. */
  predicate DistinctSessionIds(ids: seq<seq<(Id, Id)>>) {
    forall w, k, w', k' :: 0 <= w < |ids| && 0 <= k < |ids[w]| && 0 <= w' < |ids| && 0 <= k' < |ids[w']| && (w, k) != (w', k') ==>
      ids[w][k].0 != ids[w'][k'].0
  }

  /**
   * onStartup opens a session for every tab of every window whose URL and
   * domain are eligible (given distinct generated IDs).
   */
  lemma {:induction false} StartupOpensEveryTab(raw: Raw, windows: seq<BrowserWindow>, ids: seq<seq<(Id, Id)>>, now: int)
    requires IdsFit(windows, ids) && DistinctSessionIds(ids)
    ensures forall w, k ::
      (0 <= w < |windows| && 0 <= k < |windows[w].tabs| &&
       IsEligible(windows[w].tabs[k].url.href) && IsEligible(GetTLD(windows[w].tabs[k].url))) ==>
      OpenedAt(AfterOnStartup(raw, windows, ids, now), GetTLD(windows[w].tabs[k].url), ids[w][k].0, windows[w].tabs[k], now)
    decreases |windows|
  {
    if |windows| > 0 {
      var n := |windows| - 1;
      var before := AfterOnStartup(raw, windows[..n], ids[..n], now);
      var after := AfterOnStartup(raw, windows, ids, now);
      assert IdsFit(windows[..n], ids[..n]);
      assert after == StartupTabs(before, windows[n].tabs, windows[n].focused, ids[n], now);
      DistinctSessionIdsSplit(ids, n);
      StartupOpensEveryTab(raw, windows[..n], ids[..n], now);
      StartupTabsOpen(before, windows[n].tabs, windows[n].focused, ids[n], now);
      forall w, k | 0 <= w < |windows| && 0 <= k < |windows[w].tabs| &&
                    IsEligible(windows[w].tabs[k].url.href) && IsEligible(GetTLD(windows[w].tabs[k].url))
        ensures OpenedAt(after, GetTLD(windows[w].tabs[k].url), ids[w][k].0, windows[w].tabs[k], now)
      {
        if w < n {
          assert windows[..n][w] == windows[w] && ids[..n][w] == ids[w];
          StartupTabsKeep(before, windows[n].tabs, windows[n].focused, ids[n], now, GetTLD(windows[w].tabs[k].url), ids[w][k].0, windows[w].tabs[k]);
        }
      }
    }
  }

  /** Distinct IDs stay distinct on the earlier windows, within the last one, and between the two. */
  lemma DistinctSessionIdsSplit(ids: seq<seq<(Id, Id)>>, n: nat)
    requires n == |ids| - 1 && DistinctSessionIds(ids)
    ensures DistinctSessionIds(ids[..n])
    ensures forall a, b :: 0 <= a < b < |ids[n]| ==> ids[n][a].0 != ids[n][b].0
    ensures forall w, k, k' :: 0 <= w < n && 0 <= k < |ids[w]| && 0 <= k' < |ids[n]| ==> ids[n][k'].0 != ids[w][k].0
  {
    forall w, k, w', k' | 0 <= w < n && 0 <= k < |ids[..n][w]| && 0 <= w' < n && 0 <= k' < |ids[..n][w']| && (w, k) != (w', k')
      ensures ids[..n][w][k].0 != ids[..n][w'][k'].0
    {
      assert ids[..n][w] == ids[w] && ids[..n][w'] == ids[w'];
    }
    forall a, b | 0 <= a < b < |ids[n]| ensures ids[n][a].0 != ids[n][b].0 {
      assert (n, a) != (n, b);
    }
    forall w, k, k' | 0 <= w < n && 0 <= k < |ids[w]| && 0 <= k' < |ids[n]| ensures ids[n][k'].0 != ids[w][k].0 {
      assert (n, k') != (w, k);
    }
  }

  /** A window whose tabs are all ineligible writes nothing. */
  lemma {:induction false} StartupTabsIneligible(raw: Raw, tabs: seq<Tab>, focused: bool, ids: seq<(Id, Id)>, now: int)
    requires |ids| == |tabs|
    requires forall k :: 0 <= k < |tabs| ==> !IsEligible(tabs[k].url.href)
    ensures StartupTabs(raw, tabs, focused, ids, now) == raw
    decreases |tabs|
  {
    if |tabs| > 0 {
      var n := |tabs| - 1;
      StartupTabsIneligible(raw, tabs[..n], focused, ids[..n], now);
      assert !IsEligible(tabs[n].url.href);
    }
  }

  /** onStartup with no eligible tab anywhere leaves the store as it was. */
  lemma {:induction false} StartupIgnoresIneligible(raw: Raw, windows: seq<BrowserWindow>, ids: seq<seq<(Id, Id)>>, now: int)
    requires IdsFit(windows, ids)
    requires forall w, k :: 0 <= w < |windows| && 0 <= k < |windows[w].tabs| ==> !IsEligible(windows[w].tabs[k].url.href)
    ensures AfterOnStartup(raw, windows, ids, now) == raw
    decreases |windows|
  {
    if |windows| > 0 {
      var n := |windows| - 1;
      StartupIgnoresIneligible(raw, windows[..n], ids[..n], now);
      StartupTabsIneligible(raw, windows[n].tabs, windows[n].focused, ids[n], now);
    }
  }

  /**
   * onCreated: an ineligible tab URL writes nothing; an eligible one does
   * what `TrackCreatedEffect` states.
   */
  lemma OnCreatedEffect(raw: Raw, tab: Tab, sid: Id, fid: Id, now: int)
    requires WellFormed(raw)
    ensures var r := AfterOnCreated(raw, tab, sid, fid, now);
      var tld := GetTLD(tab.url);
      && (!IsEligible(tab.url.href) ==> r == raw)
      && (IsEligible(tab.url.href) && IsEligible(tld) && FindActive(raw, tld, tab.windowId, tab.id).None? ==>
            && Lookup(r, tld, sid) == Some(NewSession(tab.id, tab.windowId, now).(focus := if tab.active then [(fid, NewFocus(now))] else []))
            && (!tab.active ==> SameElsewhere(raw, r, tld, sid))
            && (tab.active && AllAtMostOneOpenFocus(raw) && now != 0 ==> NoFocusIn(r, InWindowExcept(tab.windowId, Some(tab.id)))))
  {
    if IsEligible(tab.url.href) {
      TrackCreatedEffect(raw, tab, sid, fid, now);
    }
  }

  /**
   * The tracking half of onCreated: a new tab of an eligible domain gets an
   * open session, which holds the one new focus when the tab is active; an
   * inactive tab changes nothing else, and an active one leaves no other tab
   * of its window with an open focus. An ineligible domain writes nothing.
   */
  lemma TrackCreatedEffect(raw: Raw, tab: Tab, sid: Id, fid: Id, now: int)
    requires WellFormed(raw)
    ensures var r := AfterTrackCreated(raw, tab, sid, fid, now);
      var tld := GetTLD(tab.url);
      && (!IsEligible(tld) ==> r == raw)
      && (IsEligible(tld) && FindActive(raw, tld, tab.windowId, tab.id).None? ==>
            && Lookup(r, tld, sid) == Some(NewSession(tab.id, tab.windowId, now).(focus := if tab.active then [(fid, NewFocus(now))] else []))
            && (!tab.active ==> SameElsewhere(raw, r, tld, sid))
            && (tab.active && AllAtMostOneOpenFocus(raw) && now != 0 ==> NoFocusIn(r, InWindowExcept(tab.windowId, Some(tab.id)))))
  {
    var tld := GetTLD(tab.url);
    if IsEligible(tld) && FindActive(raw, tld, tab.windowId, tab.id).None? {
      InsertSessionEffect(raw, tld, sid, tab.id, tab.windowId, now);
      OpenThenFocus(raw, tld, sid, fid, tab.id, tab.windowId, now);
      if tab.active {
        TrackCreatedActive(raw, tab, sid, fid, now);
      }
    }
  }

  /** onCreated for an active tab with no open session: the new session is the focused one. */
  lemma TrackCreatedActive(raw: Raw, tab: Tab, sid: Id, fid: Id, now: int)
    requires WellFormed(raw) && tab.active && IsEligible(GetTLD(tab.url))
    requires FindActive(raw, GetTLD(tab.url), tab.windowId, tab.id).None?
    ensures Lookup(AfterTrackCreated(raw, tab, sid, fid, now), GetTLD(tab.url), sid)
         == Some(NewSession(tab.id, tab.windowId, now).(focus := [(fid, NewFocus(now))]))
    ensures AllAtMostOneOpenFocus(raw) && now != 0 ==>
      NoFocusIn(AfterTrackCreated(raw, tab, sid, fid, now), InWindowExcept(tab.windowId, Some(tab.id)))
  {
    var tld := GetTLD(tab.url);
    var sel := InWindowExcept(tab.windowId, Some(tab.id));
    OpenThenFocus(raw, tld, sid, fid, tab.id, tab.windowId, now);
    var r1 := AfterInsertSession(raw, tld, sid, tab.id, tab.windowId, now);
    var r2 := AfterSweep(r1, EndFocusOnly, sel, now);
    assert AfterTrackCreated(raw, tab, sid, fid, now) == AfterInsertFocus(r2, tld, sid, fid, now);
    var i, j := LookupPosition(r1, tld, sid);
    SweepOnlySelected(r1, EndFocusOnly, sel, now, i, j);
    SweepShape(r1, EndFocusOnly, sel, now);
    LookupAt(r2, i, j);
    FocusOnFresh(r2, tld, sid, fid, NewSession(tab.id, tab.windowId, now), now);
    if AllAtMostOneOpenFocus(raw) && now != 0 {
      InsertSessionKeepsFocus(raw, tld, sid, tab.id, tab.windowId, now, sel);
      SweepThenFocusClears(r1, tld, sid, fid, now, sel);
    }
  }

  /**
   * The tail of onActivated and onFocusChanged, for an eligible domain: the
   * tab ends with an open session holding an open focus. An existing open
   * session is reused; otherwise the new one is. Only that session gains a
   * focus, so a selector that spares the tab keeps its sessions unfocused.
   */
  lemma EnsureFocusEffect(raw: Raw, tld: string, windowId: int, tabId: int, sid: Id, fid: string, now: int, sel: Selector)
    requires WellFormed(raw) && IsEligible(tld)
    ensures var r := AfterEnsureFocus(raw, tld, windowId, tabId, sid, fid, now);
      var found := FindActive(r, tld, windowId, tabId);
      && WellFormed(r)
      && found.Some? && Lookup(r, tld, found.value).Some? && HasOpenFocus(Lookup(r, tld, found.value).value.focus)
      && (FindActive(raw, tld, windowId, tabId).Some? ==> found == FindActive(raw, tld, windowId, tabId))
      && (FindActive(raw, tld, windowId, tabId).None? ==> found == Some(sid))
      && (NoFocusIn(raw, sel) && Spares(sel, tabId, windowId) ==> NoFocusIn(r, sel))
  {
    match FindActive(raw, tld, windowId, tabId)
    case Some(k) => EnsureFocusReuses(raw, tld, windowId, tabId, fid, now, sel, k);
    case None => EnsureFocusOpens(raw, tld, windowId, tabId, sid, fid, now, sel);
  }

  /** The session `findActiveSessionId` finds gains an open focus, and no other session does. */
  lemma EnsureFocusReuses(raw: Raw, tld: string, windowId: int, tabId: int, fid: string, now: int, sel: Selector, k: string)
    requires WellFormed(raw) && IsEligible(tld) && FindActive(raw, tld, windowId, tabId) == Some(k)
    ensures var r := AfterInsertFocus(raw, tld, k, fid, now);
      && WellFormed(r)
      && FindActive(r, tld, windowId, tabId) == Some(k)
      && Lookup(r, tld, k).Some? && HasOpenFocus(Lookup(r, tld, k).value.focus)
      && (NoFocusIn(raw, sel) && Spares(sel, tabId, windowId) ==> NoFocusIn(r, sel))
  {
    var r := AfterInsertFocus(raw, tld, k, fid, now);
    FindActiveReadsBack(raw, tld, windowId, tabId);
    WritesKeepWellFormed(raw, tld, k, fid, tabId, windowId, now);
    FocusWritesFocusOnly(raw, tld, k, fid, now);
    FocusOnlyFindActive(raw, r, tld, windowId, tabId);
    InsertFocusEffect(raw, tld, k, fid, now);
    NewFocusOpen(Lookup(raw, tld, k).value.focus, fid, now);
    if NoFocusIn(raw, sel) && Spares(sel, tabId, windowId) {
      InsertFocusKeepsNoFocus(raw, tld, k, fid, now, sel);
    }
  }

  /** With no open session for the tab, a new one is opened under `sid` and gains an open focus. */
  lemma EnsureFocusOpens(raw: Raw, tld: string, windowId: int, tabId: int, sid: Id, fid: string, now: int, sel: Selector)
    requires WellFormed(raw) && IsEligible(tld) && FindActive(raw, tld, windowId, tabId).None?
    ensures var r := AfterEnsureFocus(raw, tld, windowId, tabId, sid, fid, now);
      && WellFormed(r)
      && FindActive(r, tld, windowId, tabId) == Some(sid)
      && Lookup(r, tld, sid).Some? && HasOpenFocus(Lookup(r, tld, sid).value.focus)
      && (NoFocusIn(raw, sel) && Spares(sel, tabId, windowId) ==> NoFocusIn(r, sel))
  {
    var r := AfterEnsureFocus(raw, tld, windowId, tabId, sid, fid, now);
    var r1 := AfterInsertSession(raw, tld, sid, tabId, windowId, now);
    OpenThenFocus(raw, tld, sid, fid, tabId, windowId, now);
    WritesKeepWellFormed(r1, tld, sid, fid, tabId, windowId, now);
    FocusWritesFocusOnly(r1, tld, sid, fid, now);
    FocusOnlyFindActive(r1, r, tld, windowId, tabId);
    NewFocusOpen([], fid, now);
    if NoFocusIn(raw, sel) && Spares(sel, tabId, windowId) {
      InsertSessionKeepsFocus(raw, tld, sid, tabId, windowId, now, sel);
      InsertFocusKeepsNoFocus(r1, tld, sid, fid, now, sel);
    }
  }

  /**
   * onActivated: a failed lookup or a tab without a URL writes nothing.
   * Otherwise the other tabs of the window lose their focus first, whatever
   * the URL; for an eligible one the activated tab then has an open session
   * with an open focus, and it is the only focused tab of its window.
   */
  lemma OnActivatedEffect(raw: Raw, activeTabId: int, activeWindowId: int, lookup: Option<Tab>, sid: Id, fid: Id, now: int)
    requires WellFormed(raw)
    ensures var r := AfterOnActivated(raw, activeTabId, activeWindowId, lookup, sid, fid, now);
      var sel := InWindowExcept(activeWindowId, Some(activeTabId));
      && (lookup.None? || lookup.value.url.href == "" ==> r == raw)
      && (lookup.Some? && lookup.value.url.href != "" && !IsEligible(lookup.value.url.href) ==>
            FocusOnly(raw, r) && (AllAtMostOneOpenFocus(raw) && now != 0 ==> NoFocusIn(r, sel)))
      && (lookup.Some? && IsEligible(lookup.value.url.href) && IsEligible(GetTLD(lookup.value.url)) ==>
            var tab := lookup.value;
            var found := FindActive(r, GetTLD(tab.url), tab.windowId, tab.id);
            && found.Some? && HasOpenFocus(Lookup(r, GetTLD(tab.url), found.value).value.focus)
            && (FindActive(raw, GetTLD(tab.url), tab.windowId, tab.id).Some? ==> found == FindActive(raw, GetTLD(tab.url), tab.windowId, tab.id))
            && (tab.id == activeTabId && tab.windowId == activeWindowId && AllAtMostOneOpenFocus(raw) && now != 0 ==> NoFocusIn(r, sel)))
  {
    if lookup.Some? && lookup.value.url.href != "" {
      var tab := lookup.value;
      var sel := InWindowExcept(activeWindowId, Some(activeTabId));
      var r1 := AfterSweep(raw, EndFocusOnly, sel, now);
      SweepShape(raw, EndFocusOnly, sel, now);
      FocusSweepFocusOnly(raw, sel, now);
      if AllAtMostOneOpenFocus(raw) && now != 0 {
        FocusSweepClears(raw, sel, now);
      }
      if IsEligible(tab.url.href) && IsEligible(GetTLD(tab.url)) {
        FocusOnlyFindActive(raw, r1, GetTLD(tab.url), tab.windowId, tab.id);
        EnsureFocusEffect(r1, GetTLD(tab.url), tab.windowId, tab.id, sid, fid, now, sel);
      }
    }
  }

  /**
   * windows.onFocusChanged: losing focus to another application
   * (`WINDOW_ID_NONE`) closes focus everywhere and ends no session. Focusing
   * a window closes focus outside it; when its active tab is eligible, that
   * tab then has an open session with an open focus.
   */
  lemma OnFocusChangedEffect(raw: Raw, windowId: int, activeTabs: seq<Tab>, sid: Id, fid: Id, now: int)
    requires WellFormed(raw)
    ensures var r := AfterOnFocusChanged(raw, windowId, activeTabs, sid, fid, now);
      && WellFormed(r)
      && (windowId == WINDOW_ID_NONE ==>
            FocusOnly(raw, r) && (AllAtMostOneOpenFocus(raw) && now != 0 ==> NoFocusIn(r, Everywhere)))
      && (windowId != WINDOW_ID_NONE && (|activeTabs| == 0 || !IsEligible(activeTabs[0].url.href)) ==> FocusOnly(raw, r))
      && (windowId != WINDOW_ID_NONE && AllAtMostOneOpenFocus(raw) && now != 0 && (|activeTabs| > 0 ==> activeTabs[0].windowId == windowId) ==>
            NoFocusIn(r, OutsideWindow(windowId)))
      && (windowId != WINDOW_ID_NONE && |activeTabs| > 0 && IsEligible(activeTabs[0].url.href) && IsEligible(GetTLD(activeTabs[0].url)) ==>
            var tab := activeTabs[0];
            var found := FindActive(r, GetTLD(tab.url), tab.windowId, tab.id);
            found.Some? && HasOpenFocus(Lookup(r, GetTLD(tab.url), found.value).value.focus))
  {
    var sel := if windowId == WINDOW_ID_NONE then Everywhere else OutsideWindow(windowId);
    var r1 := AfterSweep(raw, EndFocusOnly, sel, now);
    SweepShape(raw, EndFocusOnly, sel, now);
    FocusSweepFocusOnly(raw, sel, now);
    if AllAtMostOneOpenFocus(raw) && now != 0 {
      FocusSweepClears(raw, sel, now);
    }
    if windowId != WINDOW_ID_NONE && |activeTabs| > 0 && IsEligible(activeTabs[0].url.href) {
      var tab := activeTabs[0];
      if IsEligible(GetTLD(tab.url)) {
        EnsureFocusEffect(r1, GetTLD(tab.url), tab.windowId, tab.id, sid, fid, now, sel);
      } else {
        assert AfterEnsureFocus(r1, GetTLD(tab.url), tab.windowId, tab.id, sid, fid, now) == r1;
      }
    }
  }

  /**
   * tabs.onUpdated writes nothing without a new URL, when the tab's open
   * session is already under the new, eligible domain, or when the new URL
   * is ineligible and the tab has no open session.
   */
  lemma OnUpdatedNoOp(raw: Raw, tabId: int, changeUrl: Url, tab: Tab, sid: Id, fid: Id, now: int)
    requires changeUrl.href == "" ||
             (var previous := FirstOpenAnywhere(raw, tabId, Some(tab.windowId));
              if previous.Some? then raw[previous.value.0].0 == GetTLD(changeUrl) && IsEligible(changeUrl.href)
              else !IsEligible(changeUrl.href))
    ensures AfterOnUpdated(raw, tabId, changeUrl, tab, sid, fid, now) == raw
  {
  }

  /**
   * tabs.onUpdated, when the domain changes or the new URL is ineligible:
   * the tab's previous open session is ended, its focus first. For an
   * ineligible URL that is the only change.
   */
  lemma OnUpdatedEndsPrevious(raw: Raw, tabId: int, changeUrl: Url, tab: Tab, sid: Id, fid: Id, now: int, p: (nat, nat))
    requires WellFormed(raw) && changeUrl.href != ""
    requires FirstOpenAnywhere(raw, tabId, Some(tab.windowId)) == Some(p)
    requires raw[p.0].0 != GetTLD(changeUrl) || !IsEligible(changeUrl.href)
    ensures p.1 < |raw[p.0].1|
    ensures var ended := Lookup(AfterOnUpdated(raw, tabId, changeUrl, tab, sid, fid, now), raw[p.0].0, raw[p.0].1[p.1].0);
      ended.Some? && ended.value.end == Some(now)
    ensures var ended := Lookup(AfterOnUpdated(raw, tabId, changeUrl, tab, sid, fid, now), raw[p.0].0, raw[p.0].1[p.1].0);
      ended.Some? && ended.value.total == Some(now - raw[p.0].1[p.1].1.start)
    ensures var ended := Lookup(AfterOnUpdated(raw, tabId, changeUrl, tab, sid, fid, now), raw[p.0].0, raw[p.0].1[p.1].0);
      AtMostOneOpenFocus(raw[p.0].1[p.1].1) && now != 0 ==> ended.Some? && !HasOpenFocus(ended.value.focus)
    ensures !IsEligible(changeUrl.href) ==>
      SameElsewhere(raw, AfterOnUpdated(raw, tabId, changeUrl, tab, sid, fid, now), raw[p.0].0, raw[p.0].1[p.1].0)
  {
    OnUpdatedFrom(raw, tabId, changeUrl, tab, sid, fid, now, p);
    if IsEligible(changeUrl.href) {
      OpenNewElsewhere(EndPrevious(raw, p, now), GetTLD(changeUrl), tabId, tab, sid, fid, now, raw[p.0].0, raw[p.0].1[p.1].0);
    } else {
      EndPreviousEffect(raw, p, now);
    }
    EndedSessionIn(raw, p, now, AfterOnUpdated(raw, tabId, changeUrl, tab, sid, fid, now));
  }

  /** A store that agrees with `EndPrevious` on the ended session holds it closed at `now`, its focus first. */
  lemma EndedSessionIn(raw: Raw, p: (nat, nat), now: int, r: Raw)
    requires WellFormed(raw) && p.0 < |raw| && p.1 < |raw[p.0].1| && SessionOpen(raw[p.0].1[p.1].1)
    requires Lookup(r, raw[p.0].0, raw[p.0].1[p.1].0) == Lookup(EndPrevious(raw, p, now), raw[p.0].0, raw[p.0].1[p.1].0)
    ensures var ended := Lookup(r, raw[p.0].0, raw[p.0].1[p.1].0);
      ended.Some? && ended.value.end == Some(now)
    ensures var ended := Lookup(r, raw[p.0].0, raw[p.0].1[p.1].0);
      ended.Some? && ended.value.total == Some(now - raw[p.0].1[p.1].1.start)
    ensures var ended := Lookup(r, raw[p.0].0, raw[p.0].1[p.1].0);
      AtMostOneOpenFocus(raw[p.0].1[p.1].1) && now != 0 ==> ended.Some? && !HasOpenFocus(ended.value.focus)
  {
    EndPreviousLookup(raw, p, now);
    EndedTimes(raw[p.0].1[p.1].1, now);
    if AtMostOneOpenFocus(raw[p.0].1[p.1].1) && now != 0 {
      OnlyFocusClosed(raw[p.0].1[p.1].1, now);
    }
  }

  /** The ended session reads back closed, its first open focus closed before it. */
  lemma EndPreviousLookup(raw: Raw, p: (nat, nat), now: int)
    requires WellFormed(raw) && p.0 < |raw| && p.1 < |raw[p.0].1| && SessionOpen(raw[p.0].1[p.1].1)
    ensures Lookup(EndPrevious(raw, p, now), raw[p.0].0, raw[p.0].1[p.1].0) ==
      Some(CloseSession(CloseFirstFocus(raw[p.0].1[p.1].1, now), now))
  {
    EndPreviousEffect(raw, p, now);
  }

  /** With the tab's open session at `p` and a change of domain or an ineligible URL, onUpdated ends that session first. */
  lemma OnUpdatedFrom(raw: Raw, tabId: int, changeUrl: Url, tab: Tab, sid: Id, fid: Id, now: int, p: (nat, nat))
    requires changeUrl.href != "" && FirstOpenAnywhere(raw, tabId, Some(tab.windowId)) == Some(p)
    requires raw[p.0].0 != GetTLD(changeUrl) || !IsEligible(changeUrl.href)
    ensures p.1 < |raw[p.0].1| && SessionOpen(raw[p.0].1[p.1].1)
    ensures AfterOnUpdated(raw, tabId, changeUrl, tab, sid, fid, now) ==
      if IsEligible(changeUrl.href) then OpenNew(EndPrevious(raw, p, now), GetTLD(changeUrl), tabId, tab, sid, fid, now)
      else EndPrevious(raw, p, now)
  {
    assert OpenFor(raw[p.0].1[p.1].1, tabId, Some(tab.windowId));
  }

  /** Opening the new session changes nothing under any other domain. */
  lemma OpenNewElsewhere(raw: Raw, newTld: string, tabId: int, tab: Tab, sid: string, fid: string, now: int, url: string, k: string)
    requires url != newTld
    ensures Lookup(OpenNew(raw, newTld, tabId, tab, sid, fid, now), url, k) == Lookup(raw, url, k)
  {
    var r1 := AfterInsertSession(raw, newTld, sid, tabId, tab.windowId, now);
    InsertSessionEffect(raw, newTld, sid, tabId, tab.windowId, now);
    var found := FindActive(r1, newTld, tab.windowId, tabId);
    if tab.active && found.Some? {
      InsertFocusEffect(r1, newTld, found.value, fid, now);
    }
  }

  /** Ending the tab's previous session: what the rest of the store reads afterwards. */
  lemma EndPreviousEffect(raw: Raw, p: (nat, nat), now: int)
    requires WellFormed(raw) && p.0 < |raw| && p.1 < |raw[p.0].1| && SessionOpen(raw[p.0].1[p.1].1)
    ensures var r := EndPrevious(raw, p, now);
      var url, k, s := raw[p.0].0, raw[p.0].1[p.1].0, raw[p.0].1[p.1].1;
      && WellFormed(r)
      && Lookup(r, url, k) == Some(CloseSession(CloseFirstFocus(s, now), now))
      && (AtMostOneOpenFocus(s) && now != 0 ==> !HasOpenFocus(CloseFirstFocus(s, now).focus))
      && SameElsewhere(raw, r, url, k)
  {
    var url, k, s := raw[p.0].0, raw[p.0].1[p.1].0, raw[p.0].1[p.1].1;
    EndBothAt(raw, p.0, p.1, now);
    LookupAt(EndPrevious(raw, p, now), p.0, p.1);
    if AtMostOneOpenFocus(s) && now != 0 {
      OnlyFocusClosed(s, now);
    }
    EndFocusEffect(raw, url, k, now);
    EndSessionEffect(AfterEndFocus(raw, url, k, now), url, k, now);
  }

  /**
   * tabs.onUpdated to an eligible URL of a new domain, where the tab has no
   * open session yet: a new open session is created, and it holds the one
   * new focus exactly when the tab is active.
   */
  lemma OnUpdatedOpensNew(raw: Raw, tabId: int, changeUrl: Url, tab: Tab, sid: Id, fid: Id, now: int)
    requires WellFormed(raw) && changeUrl.href != "" && IsEligible(changeUrl.href) && IsEligible(GetTLD(changeUrl))
    requires var previous := FirstOpenAnywhere(raw, tabId, Some(tab.windowId));
      previous.None? || raw[previous.value.0].0 != GetTLD(changeUrl)
    requires FindActive(raw, GetTLD(changeUrl), tab.windowId, tabId).None?
    ensures Lookup(AfterOnUpdated(raw, tabId, changeUrl, tab, sid, fid, now), GetTLD(changeUrl), sid)
         == Some(NewSession(tabId, tab.windowId, now).(focus := if tab.active then [(fid, NewFocus(now))] else []))
  {
    var newTld := GetTLD(changeUrl);
    var previous := FirstOpenAnywhere(raw, tabId, Some(tab.windowId));
    var ended := raw;
    if previous.Some? {
      var p := previous.value;
      var url, k := raw[p.0].0, raw[p.0].1[p.1].0;
      ended := EndPrevious(raw, p, now);
      EndBothAt(raw, p.0, p.1, now);
      WritesElsewhere(raw, url, k, k, 0, 0, now, newTld);
      WritesElsewhere(AfterEndFocus(raw, url, k, now), url, k, k, 0, 0, now, newTld);
      FindActiveLocal(raw, ended, newTld, tab.windowId, tabId);
    }
    OpenThenFocus(ended, newTld, sid, fid, tabId, tab.windowId, now);
  }

  /**
   * tabs.onDetached: only focus entries change, and only in each domain's
   * first open session of the tab in the old window; with one open focus
   * per session, those sessions are left without an open focus.
   */
  lemma OnDetachedEffect(raw: Raw, tabId: int, oldWindowId: int, now: int)
    requires WellFormed(raw)
    ensures var r := AfterOnDetached(raw, tabId, oldWindowId, now);
      && FocusOnly(raw, r)
      && (forall i, j :: 0 <= i < |raw| && 0 <= j < |raw[i].1| && FirstOpenFor(raw[i].1, tabId, Some(oldWindowId)) != Some(j) ==>
            r[i].1[j] == raw[i].1[j])
      && (AllAtMostOneOpenFocus(raw) && now != 0 ==>
            forall i :: 0 <= i < |raw| && FirstOpenFor(raw[i].1, tabId, Some(oldWindowId)).Some? ==>
              !HasOpenFocus(r[i].1[FirstOpenFor(raw[i].1, tabId, Some(oldWindowId)).value].1.focus))
  {
    var r := AfterOnDetached(raw, tabId, oldWindowId, now);
    forall i | 0 <= i < |raw| && FirstOpenFor(raw[i].1, tabId, Some(oldWindowId)).Some?
      ensures var j := FirstOpenFor(raw[i].1, tabId, Some(oldWindowId)).value;
        r[i].1[j].1 == CloseFirstFocus(raw[i].1[j].1, now)
        && (AtMostOneOpenFocus(raw[i].1[j].1) && now != 0 ==> !HasOpenFocus(r[i].1[j].1.focus))
    {
      var j := FirstOpenFor(raw[i].1, tabId, Some(oldWindowId)).value;
      if AtMostOneOpenFocus(raw[i].1[j].1) && now != 0 {
        OnlyFocusClosed(raw[i].1[j].1, now);
      }
    }
  }

  /**
   * tabs.onAttached, as written: only the `windowId` of the tab's first open
   * session changes. No focus entry anywhere changes, whether or not the
   * tab is active in its new window.
   */
  lemma OnAttachedEffect(raw: Raw, tabId: int, newWindowId: int)
    requires WellFormed(raw)
    ensures WellFormed(AfterOnAttached(raw, tabId, newWindowId)) && SameShape(raw, AfterOnAttached(raw, tabId, newWindowId))
    ensures !TabHasOpenSession(raw, tabId, None) ==> AfterOnAttached(raw, tabId, newWindowId) == raw
    ensures TabHasOpenSession(raw, tabId, None) ==>
      var r := AfterOnAttached(raw, tabId, newWindowId);
      var p := FirstOpenAnywhere(raw, tabId, None).value;
      && r[p.0].1[p.1].1 == raw[p.0].1[p.1].1.(windowId := newWindowId)
      && forall i, j :: 0 <= i < |raw| && 0 <= j < |raw[i].1| && (i, j) != p ==> r[i].1[j] == raw[i].1[j]
    ensures var r := AfterOnAttached(raw, tabId, newWindowId);
      forall i, j :: 0 <= i < |raw| && 0 <= j < |raw[i].1| ==> r[i].1[j].1.focus == raw[i].1[j].1.focus
  {
    FirstOpenAnywhereFinds(raw, tabId, None);
    if TabHasOpenSession(raw, tabId, None) {
      OnAttachedAt(raw, tabId, newWindowId, FirstOpenAnywhere(raw, tabId, None).value);
    }
  }

  /** onAttached with the tab's first open session at `p`. */
  lemma OnAttachedAt(raw: Raw, tabId: int, newWindowId: int, p: (nat, nat))
    requires WellFormed(raw) && FirstOpenAnywhere(raw, tabId, None) == Some(p)
    ensures p.1 < |raw[p.0].1|
    ensures AfterOnAttached(raw, tabId, newWindowId) == SetSession(raw, p.0, p.1, raw[p.0].1[p.1].1.(windowId := newWindowId))
    ensures WellFormed(AfterOnAttached(raw, tabId, newWindowId))
    ensures AllAtMostOneOpenFocus(raw) ==> AllAtMostOneOpenFocus(AfterOnAttached(raw, tabId, newWindowId))
  {
    var r := SetSession(raw, p.0, p.1, raw[p.0].1[p.1].1.(windowId := newWindowId));
    SetSessionWellFormed(raw, p.0, p.1, raw[p.0].1[p.1].1.(windowId := newWindowId));
    if AllAtMostOneOpenFocus(raw) {
      forall i, j | 0 <= i < |r| && 0 <= j < |r[i].1| ensures AtMostOneOpenFocus(r[i].1[j].1) {
        assert r[i].1[j].1.focus == raw[i].1[j].1.focus;
      }
    }
  }

  /**
   * onAttached as evidently intended: write the rewritten snapshot first,
   * then end the other focus in the new window and start one on the moved
   * session when the tab is active there.
   */
  function AfterOnAttachedFixed(raw: Raw, tabId: int, newWindowId: int, active: bool, fid: string, now: int): Raw {
    var r := AfterOnAttached(raw, tabId, newWindowId);
    match FirstOpenAnywhere(raw, tabId, None)
    case None => r
    case Some(p) =>
      if !active then r
      else AfterInsertFocus(AfterSweep(r, EndFocusOnly, InWindowExcept(newWindowId, Some(tabId)), now),
                            raw[p.0].0, raw[p.0].1[p.1].0, fid, now)
  }

  method OnAttachedFixed(store: Store, tabId: int, newWindowId: int, lookup: Option<Tab>, fid: Id, now: int)
    requires store.Valid()
    modifies store
    ensures store.Valid()
    ensures store.raw == AfterOnAttachedFixed(old(store.raw), tabId, newWindowId, lookup.Some? && lookup.value.active, fid, now)
  {
    var raw := store.raw;
    var found := store.FindOpenSession(tabId, None);
    if found.None? {
      return;
    }
    var (i, j) := found.value;
    var url, sessionId := raw[i].0, raw[i].1[j].0;
    SetSessionWellFormed(raw, i, j, raw[i].1[j].1.(windowId := newWindowId));
    raw := SetSession(raw, i, j, raw[i].1[j].1.(windowId := newWindowId));
    store.SaveRaw(raw);
    if lookup.Some? && lookup.value.active {
      store.EndFocusAllExcept(newWindowId, tabId, now);
      store.InsertFocus(url, sessionId, fid, now);
    }
  }

  /**
   * The corrected onAttached: an active tab's moved session is in the new
   * window and holds an open focus, and no other tab of that window does.
   */
  lemma OnAttachedFixedEffect(raw: Raw, tabId: int, newWindowId: int, fid: Id, now: int)
    requires WellFormed(raw) && TabHasOpenSession(raw, tabId, None)
    ensures var r := AfterOnAttachedFixed(raw, tabId, newWindowId, true, fid, now);
      var p := FirstOpenAnywhere(raw, tabId, None).value;
      var url, k := raw[p.0].0, raw[p.0].1[p.1].0;
      && Lookup(r, url, k).Some?
      && Lookup(r, url, k).value.windowId == newWindowId
      && HasOpenFocus(Lookup(r, url, k).value.focus)
      && (AllAtMostOneOpenFocus(raw) && now != 0 ==> NoFocusIn(r, InWindowExcept(newWindowId, Some(tabId))))
  {
    FirstOpenAnywhereFinds(raw, tabId, None);
    OnAttachedFixedAt(raw, tabId, newWindowId, fid, now, FirstOpenAnywhere(raw, tabId, None).value);
  }

  /** The corrected onAttached for an active tab whose first open session is at `p`. */
  lemma OnAttachedFixedAt(raw: Raw, tabId: int, newWindowId: int, fid: Id, now: int, p: (nat, nat))
    requires WellFormed(raw) && FirstOpenAnywhere(raw, tabId, None) == Some(p)
    ensures p.1 < |raw[p.0].1|
    ensures Lookup(AfterOnAttachedFixed(raw, tabId, newWindowId, true, fid, now), raw[p.0].0, raw[p.0].1[p.1].0).Some?
    ensures Lookup(AfterOnAttachedFixed(raw, tabId, newWindowId, true, fid, now), raw[p.0].0, raw[p.0].1[p.1].0).value.windowId == newWindowId
    ensures HasOpenFocus(Lookup(AfterOnAttachedFixed(raw, tabId, newWindowId, true, fid, now), raw[p.0].0, raw[p.0].1[p.1].0).value.focus)
    ensures AllAtMostOneOpenFocus(raw) && now != 0 ==>
      NoFocusIn(AfterOnAttachedFixed(raw, tabId, newWindowId, true, fid, now), InWindowExcept(newWindowId, Some(tabId)))
  {
    var url, k, s := raw[p.0].0, raw[p.0].1[p.1].0, raw[p.0].1[p.1].1;
    var sel := InWindowExcept(newWindowId, Some(tabId));
    OnAttachedAt(raw, tabId, newWindowId, p);
    var r1 := AfterOnAttached(raw, tabId, newWindowId);
    var r2 := AfterSweep(r1, EndFocusOnly, sel, now);
    assert AfterOnAttachedFixed(raw, tabId, newWindowId, true, fid, now) == AfterInsertFocus(r2, url, k, fid, now);
    SweepOnlySelected(r1, EndFocusOnly, sel, now, p.0, p.1);
    SweepShape(r1, EndFocusOnly, sel, now);
    LookupAt(r2, p.0, p.1);
    InsertFocusEffect(r2, url, k, fid, now);
    NewFocusOpen(s.focus, fid, now);
    if AllAtMostOneOpenFocus(raw) && now != 0 {
      LookupAt(r1, p.0, p.1);
      assert r1[p.0].1[p.1].1 == s.(windowId := newWindowId);
      SweepThenFocusClears(r1, url, k, fid, now, sel);
    }
  }

  /** Ending the focus a selector picks, then focusing a session, leaves the picked sessions unfocused. */
  lemma SweepThenFocusClears(raw: Raw, url: string, k: string, fid: string, now: int, sel: Selector)
    requires WellFormed(raw) && AllAtMostOneOpenFocus(raw) && now != 0
    requires Lookup(raw, url, k).Some? && Spares(sel, Lookup(raw, url, k).value.tabId, Lookup(raw, url, k).value.windowId)
    ensures NoFocusIn(AfterInsertFocus(AfterSweep(raw, EndFocusOnly, sel, now), url, k, fid, now), sel)
  {
    var r2 := AfterSweep(raw, EndFocusOnly, sel, now);
    FocusSweepClears(raw, sel, now);
    var i, j := LookupPosition(raw, url, k);
    SweepOnlySelected(raw, EndFocusOnly, sel, now, i, j);
    SweepShape(raw, EndFocusOnly, sel, now);
    LookupAt(r2, i, j);
    InsertFocusKeepsNoFocus(r2, url, k, fid, now, sel);
  }

  /**
   * The store onAttached leaves is the one the corrected handler leaves
   * only when the tab is inactive: for an active tab whose moved session
   * had no focus, it drops the focus the handler meant to start.
   */
  lemma OnAttachedDropsFocus()
    ensures var raw := [("news.com", [("SESSN1", Session(1, None, None, 7, 1, None, []))])];
      && WellFormed(raw)
      && !HasOpenFocus(AfterOnAttached(raw, 7, 2)[0].1[0].1.focus)
      && HasOpenFocus(AfterOnAttachedFixed(raw, 7, 2, true, "FOCUS1", 5)[0].1[0].1.focus)
  {
    var raw := [("news.com", [("SESSN1", Session(1, None, None, 7, 1, None, []))])];
    EligibleByFirstChar("news.com");
    assert FirstOpenFor(raw[0].1, 7, None) == Some(0);
    assert FirstOpenAnywhere(raw, 7, None) == Some((0, 0));
    OnAttachedAt(raw, 7, 2, (0, 0));
    OnAttachedFixedAt(raw, 7, 2, "FOCUS1", 5, (0, 0));
    LookupAt(raw, 0, 0);
  }

  /**
   * tabs.onReplaced: the first open session of the removed tab now belongs
   * to the added tab, with reason "tab_replaced"; nothing else changes.
   */
  lemma OnReplacedEffect(raw: Raw, addedTabId: int, removedTabId: int)
    requires WellFormed(raw)
    ensures var r := AfterOnReplaced(raw, addedTabId, removedTabId);
      && WellFormed(r) && SameShape(raw, r)
      && (!TabHasOpenSession(raw, removedTabId, None) ==> r == raw)
      && (TabHasOpenSession(raw, removedTabId, None) ==>
            var p := FirstOpenAnywhere(raw, removedTabId, None).value;
            && r[p.0].1[p.1].1 == raw[p.0].1[p.1].1.(tabId := addedTabId, reason := Some(TAB_REPLACED))
            && (forall i, j :: 0 <= i < |raw| && 0 <= j < |raw[i].1| && (i, j) != p ==> r[i].1[j] == raw[i].1[j])
            && TabHasOpenSession(r, addedTabId, None))
  {
    FirstOpenAnywhereFinds(raw, removedTabId, None);
    if TabHasOpenSession(raw, removedTabId, None) {
      OnReplacedAt(raw, addedTabId, removedTabId, FirstOpenAnywhere(raw, removedTabId, None).value);
    }
  }

  /** onReplaced with the removed tab's first open session at `p`. */
  lemma OnReplacedAt(raw: Raw, addedTabId: int, removedTabId: int, p: (nat, nat))
    requires WellFormed(raw) && FirstOpenAnywhere(raw, removedTabId, None) == Some(p)
    ensures p.1 < |raw[p.0].1|
    ensures WellFormed(AfterOnReplaced(raw, addedTabId, removedTabId))
    ensures SameShape(raw, AfterOnReplaced(raw, addedTabId, removedTabId))
    ensures AfterOnReplaced(raw, addedTabId, removedTabId)[p.0].1[p.1].1 ==
      raw[p.0].1[p.1].1.(tabId := addedTabId, reason := Some(TAB_REPLACED))
    ensures forall i, j :: 0 <= i < |raw| && 0 <= j < |raw[i].1| && (i, j) != p ==>
      AfterOnReplaced(raw, addedTabId, removedTabId)[i].1[j] == raw[i].1[j]
    ensures TabHasOpenSession(AfterOnReplaced(raw, addedTabId, removedTabId), addedTabId, None)
  {
    var s := raw[p.0].1[p.1].1.(tabId := addedTabId, reason := Some(TAB_REPLACED));
    var r := AfterOnReplaced(raw, addedTabId, removedTabId);
    assert r == SetSession(raw, p.0, p.1, s);
    SetSessionWellFormed(raw, p.0, p.1, s);
    assert OpenFor(r[p.0].1[p.1].1, addedTabId, None);
  }

  /**
   * windows.onRemoved: every session of the window is ended (its open
   * focus first); sessions of other windows are untouched.
   */
  lemma OnWindowRemovedEffect(raw: Raw, windowId: int, now: int)
    requires WellFormed(raw) && now != 0
    ensures var r := AfterSweep(raw, EndFocusAndSession, InWindowExcept(windowId, None), now);
      && WellFormed(r)
      && (forall i, j :: 0 <= i < |r| && 0 <= j < |r[i].1| && r[i].1[j].1.windowId == windowId ==>
            !SessionOpen(r[i].1[j].1) && (AtMostOneOpenFocus(raw[i].1[j].1) && SessionOpen(raw[i].1[j].1) ==> !HasOpenFocus(r[i].1[j].1.focus)))
      && (forall i, j :: 0 <= i < |raw| && 0 <= j < |raw[i].1| && raw[i].1[j].1.windowId != windowId ==> r[i].1[j] == raw[i].1[j])
  {
    var sel := InWindowExcept(windowId, None);
    SweepShape(raw, EndFocusAndSession, sel, now);
    SessionSweepCloses(raw, sel, now);
    forall i, j | 0 <= i < |raw| && 0 <= j < |raw[i].1| && raw[i].1[j].1.windowId != windowId
      ensures AfterSweep(raw, EndFocusAndSession, sel, now)[i].1[j] == raw[i].1[j]
    {
      SweepOnlySelected(raw, EndFocusAndSession, sel, now, i, j);
    }
  }

  /**
   * runtime.onSuspend: no session is left open, and every session that was
   * open (with at most one open focus) is left without an open focus.
   */
  lemma OnSuspendEffect(raw: Raw, now: int)
    requires WellFormed(raw) && now != 0
    ensures var r := AfterSweep(raw, EndFocusAndSession, Everywhere, now);
      && WellFormed(r)
      && (forall i, j :: 0 <= i < |r| && 0 <= j < |r[i].1| ==> !SessionOpen(r[i].1[j].1))
      && (AllAtMostOneOpenFocus(raw) ==>
            forall i, j :: 0 <= i < |r| && 0 <= j < |r[i].1| && SessionOpen(raw[i].1[j].1) ==> !HasOpenFocus(r[i].1[j].1.focus))
  {
    SweepShape(raw, EndFocusAndSession, Everywhere, now);
    SessionSweepCloses(raw, Everywhere, now);
  }

  // ---------------------------------------------------------------------------
  // A second open focus on one session

  /**
   * onActivated starts a focus on the tab's open session whether or not
   * that session already holds an open one. The browser fires onActivated
   * for a tab created active: onCreated has already focused the new session,
   * `endFocusAllExcept` spares the tab, and the session ends up with two
   * open focus entries.
   */
  lemma CreatedThenActivatedDoublesFocus(raw: Raw, tab: Tab, sid: Id, fid: Id, sid2: Id, fid2: Id, now: int, later: int)
    requires WellFormed(raw) && tab.active && IsEligible(tab.url.href) && IsEligible(GetTLD(tab.url))
    requires FindActive(raw, GetTLD(tab.url), tab.windowId, tab.id).None?
    requires fid != fid2
    ensures var created := AfterOnCreated(raw, tab, sid, fid, now);
      var r := AfterOnActivated(created, tab.id, tab.windowId, Some(tab), sid2, fid2, later);
      && Lookup(r, GetTLD(tab.url), sid)
           == Some(NewSession(tab.id, tab.windowId, now).(focus := [(fid, NewFocus(now)), (fid2, NewFocus(later))]))
      && !AtMostOneOpenFocus(Lookup(r, GetTLD(tab.url), sid).value)
  {
    var tld := GetTLD(tab.url);
    var sel := InWindowExcept(tab.windowId, Some(tab.id));
    var s0 := NewSession(tab.id, tab.windowId, now);
    var created := AfterOnCreated(raw, tab, sid, fid, now);
    CreatedActiveFocused(raw, tab, sid, fid, now);
    // onActivated: the sweep spares the new session, which is found and focused a second time
    var r2 := AfterSweep(created, EndFocusOnly, sel, later);
    SpareThenFocus(created, tld, sid, fid2, sel, later);
    var r := AfterInsertFocus(r2, tld, sid, fid2, later);
    assert AfterEnsureFocus(r2, tld, tab.windowId, tab.id, sid2, fid2, later) == r;
    assert AfterOnActivated(created, tab.id, tab.windowId, Some(tab), sid2, fid2, later) == r;
    assert Put([(fid, NewFocus(now))], fid2, NewFocus(later)) == [(fid, NewFocus(now)), (fid2, NewFocus(later))];
    var s2 := s0.(focus := [(fid, NewFocus(now)), (fid2, NewFocus(later))]);
    assert Lookup(r, tld, sid) == Some(s2);
    assert FocusOpen(s2.focus[0].1) && FocusOpen(s2.focus[1].1);
  }

  /** onCreated of an active tab with no open session: the new session is found and holds exactly the new focus. */
  lemma CreatedActiveFocused(raw: Raw, tab: Tab, sid: Id, fid: Id, now: int)
    requires WellFormed(raw) && tab.active && IsEligible(tab.url.href) && IsEligible(GetTLD(tab.url))
    requires FindActive(raw, GetTLD(tab.url), tab.windowId, tab.id).None?
    ensures var created := AfterOnCreated(raw, tab, sid, fid, now);
      && WellFormed(created)
      && Lookup(created, GetTLD(tab.url), sid) == Some(NewSession(tab.id, tab.windowId, now).(focus := [(fid, NewFocus(now))]))
      && FindActive(created, GetTLD(tab.url), tab.windowId, tab.id) == Some(sid)
  {
    var tld := GetTLD(tab.url);
    var sel := InWindowExcept(tab.windowId, Some(tab.id));
    var r0 := AfterInsertSession(raw, tld, sid, tab.id, tab.windowId, now);
    OpenThenFocus(raw, tld, sid, fid, tab.id, tab.windowId, now);
    SpareThenFocus(r0, tld, sid, fid, sel, now);
    assert AfterOnCreated(raw, tab, sid, fid, now) == AfterInsertFocus(AfterSweep(r0, EndFocusOnly, sel, now), tld, sid, fid, now);
    assert Put([], fid, NewFocus(now)) == [(fid, NewFocus(now))];
  }

  /**
   * A focus sweep that spares the tab, then `insertFocus` on its open
   * session: the session keeps its fields and gains the focus, and it is
   * still the one `findActiveSessionId` finds.
   */
  lemma SpareThenFocus(raw: Raw, tld: string, sid: string, fid: string, sel: Selector, now: int)
    requires WellFormed(raw) && IsEligible(tld) && Lookup(raw, tld, sid).Some?
    requires var s := Lookup(raw, tld, sid).value; Spares(sel, s.tabId, s.windowId)
    ensures var s := Lookup(raw, tld, sid).value;
      var r := AfterInsertFocus(AfterSweep(raw, EndFocusOnly, sel, now), tld, sid, fid, now);
      && WellFormed(r)
      && Lookup(r, tld, sid) == Some(s.(focus := Put(s.focus, fid, NewFocus(now))))
      && FindActive(AfterSweep(raw, EndFocusOnly, sel, now), tld, s.windowId, s.tabId) == FindActive(raw, tld, s.windowId, s.tabId)
      && FindActive(r, tld, s.windowId, s.tabId) == FindActive(raw, tld, s.windowId, s.tabId)
  {
    var r1 := AfterSweep(raw, EndFocusOnly, sel, now);
    var r := AfterInsertFocus(r1, tld, sid, fid, now);
    var s := Lookup(raw, tld, sid).value;
    SweepShape(raw, EndFocusOnly, sel, now);
    FocusSweepFocusOnly(raw, sel, now);
    var i, j := LookupPosition(raw, tld, sid);
    SweepOnlySelected(raw, EndFocusOnly, sel, now, i, j);
    LookupAt(r1, i, j);
    InsertFocusEffect(r1, tld, sid, fid, now);
    WritesKeepWellFormed(r1, tld, sid, fid, 0, 0, now);
    FocusWritesFocusOnly(r1, tld, sid, fid, now);
    FocusOnlyTrans(raw, r1, r);
    FocusOnlyFindActive(raw, r1, tld, s.windowId, s.tabId);
    FocusOnlyFindActive(raw, r, tld, s.windowId, s.tabId);
  }

  /**
   * The tail of onActivated and onFocusChanged as evidently intended: a
   * focus is started only on a session that holds no open one.
   */
  function AfterEnsureFocusFixed(raw: Raw, tld: string, windowId: int, tabId: int, sid: string, fid: string, now: int): Raw {
    match FindActive(raw, tld, windowId, tabId)
    case Some(k) => FocusUnlessOpen(raw, tld, k, fid, now)
    case None =>
      var r := AfterInsertSession(raw, tld, sid, tabId, windowId, now);
      match FindActive(r, tld, windowId, tabId)
      case None => r
      case Some(k) => FocusUnlessOpen(r, tld, k, fid, now)
  }

  /** `insertFocus`, skipped when the session already holds an open focus. */
  function FocusUnlessOpen(raw: Raw, tld: string, k: string, fid: string, now: int): Raw {
    if Lookup(raw, tld, k).Some? && HasOpenFocus(Lookup(raw, tld, k).value.focus) then raw
    else AfterInsertFocus(raw, tld, k, fid, now)
  }

  method EnsureFocusFixed(store: Store, tld: string, windowId: int, tabId: int, sid: Id, fid: Id, now: int)
    requires store.Valid()
    modifies store
    ensures store.Valid() && store.raw == AfterEnsureFocusFixed(old(store.raw), tld, windowId, tabId, sid, fid, now)
  {
    var sessionId := store.FindActiveSessionId(tld, windowId, tabId);
    if sessionId.None? {
      store.InsertSession(tld, tabId, windowId, sid, now);
      sessionId := store.FindActiveSessionId(tld, windowId, tabId);
    }
    if sessionId.Some? {
      var session := Lookup(store.raw, tld, sessionId.value);
      if !(session.Some? && HasOpenFocus(session.value.focus)) {
        store.InsertFocus(tld, sessionId.value, fid, now);
      }
    }
  }

  /**
   * The corrected tail: for an eligible domain the tab ends with an open
   * session holding an open focus, as before, and no session ever holds two
   * open focus entries.
   */
  lemma EnsureFocusFixedEffect(raw: Raw, tld: string, windowId: int, tabId: int, sid: Id, fid: string, now: int)
    requires WellFormed(raw) && IsEligible(tld)
    ensures var r := AfterEnsureFocusFixed(raw, tld, windowId, tabId, sid, fid, now);
      var found := FindActive(r, tld, windowId, tabId);
      && WellFormed(r)
      && found.Some? && Lookup(r, tld, found.value).Some? && HasOpenFocus(Lookup(r, tld, found.value).value.focus)
      && (AllAtMostOneOpenFocus(raw) ==> AllAtMostOneOpenFocus(r))
  {
    var r := AfterEnsureFocusFixed(raw, tld, windowId, tabId, sid, fid, now);
    match FindActive(raw, tld, windowId, tabId)
    case Some(k) =>
      FindActiveReadsBack(raw, tld, windowId, tabId);
      FocusUnlessOpenEffect(raw, tld, k, fid, now);
      FocusOnlyFindActive(raw, r, tld, windowId, tabId);
    case None =>
      var r1 := AfterInsertSession(raw, tld, sid, tabId, windowId, now);
      OpenThenFocus(raw, tld, sid, fid, tabId, windowId, now);
      InsertSessionKeepsFocus(raw, tld, sid, tabId, windowId, now, Everywhere);
      FocusUnlessOpenEffect(r1, tld, sid, fid, now);
      FocusOnlyFindActive(r1, r, tld, windowId, tabId);
  }

  lemma FocusUnlessOpenEffect(raw: Raw, tld: string, k: string, fid: string, now: int)
    requires WellFormed(raw) && IsEligible(tld) && Lookup(raw, tld, k).Some?
    ensures var r := FocusUnlessOpen(raw, tld, k, fid, now);
      && WellFormed(r) && FocusOnly(raw, r)
      && Lookup(r, tld, k).Some? && HasOpenFocus(Lookup(r, tld, k).value.focus)
      && (AllAtMostOneOpenFocus(raw) ==> AllAtMostOneOpenFocus(r))
  {
    var s := Lookup(raw, tld, k).value;
    if !HasOpenFocus(s.focus) {
      WritesKeepWellFormed(raw, tld, k, fid, 0, 0, now);
      FocusWritesFocusOnly(raw, tld, k, fid, now);
      InsertFocusEffect(raw, tld, k, fid, now);
      NewFocusOpen(s.focus, fid, now);
      if AllAtMostOneOpenFocus(raw) {
        InsertFocusKeepsOneOpen(raw, tld, k, fid, now);
      }
    }
  }
}
