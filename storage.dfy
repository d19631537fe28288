/**
 * `Storage` in fn.js (and its verbatim copy in background_v2.js): every
 * method reads the document stored under 'raw', changes it and writes it
 * back. The document is the field `raw`; `chrome.storage.local` itself is
 * not modelled. Each method's effect is the matching function of module
 * Tracking, whose properties are proved there.
 */
module Storage {
  import opened Wrappers
  import opened Assoc
  import opened Aux
  import opened Tracking

  class Store {
    /** The document `chrome.storage.local` holds under the key 'raw'. */
    var raw: Raw

    ghost predicate Valid()
      reads this
    {
      WellFormed(raw)
    }

    /** A fresh profile: `getRaw` falls back to `{}`. */
    constructor ()
      ensures Valid() && raw == []
    {
      raw := [];
    }

    /** `saveRaw`: replace the whole document. */
    method SaveRaw(doc: Raw)
      requires WellFormed(doc)
      modifies this
      ensures Valid() && raw == doc
    {
      raw := doc;
    }

    /** `findActiveSessionId`: the first open session of this tab and window under the domain. */
    method FindActiveSessionId(url: string, windowId: int, tabId: int) returns (r: Option<string>)
      ensures r == FindActive(raw, url, windowId, tabId)
    {
      var eligible := IsEligibleUrl(url);
      if !eligible {
        return None;
      }
      var found := Get(raw, url);
      if found.None? {
        return None;
      }
      var sessions := found.value;
      var j := 0;
      while j < |sessions|
        invariant 0 <= j <= |sessions|
        invariant forall k :: 0 <= k < j ==> !OpenFor(sessions[k].1, tabId, Some(windowId))
      {
        var session := sessions[j].1;
        if session.windowId == windowId && session.tabId == tabId && !IsSet(session.end) {
          FirstOpenForIs(sessions, tabId, Some(windowId), j);
          return Some(sessions[j].0);
        }
        j := j + 1;
      }
      return None;
    }

    /** `insertSession`, with `sid` the ID `generateId` returned and `now` the clock. */
    method InsertSession(url: string, tabId: int, windowId: int, sid: Id, now: int)
      requires Valid()
      modifies this
      ensures Valid() && raw == AfterInsertSession(old(raw), url, sid, tabId, windowId, now)
    {
      var eligible := IsEligibleUrl(url);
      if !eligible {
        return;
      }
      WritesKeepWellFormed(raw, url, sid, sid, tabId, windowId, now);
      var sessions := Get(raw, url).GetOr([]);
      sessions := Put(sessions, sid, NewSession(tabId, windowId, now));
      raw := Put(raw, url, sessions);
    }

    /** `insertFocus`, with `fid` the ID `generateId` returned. */
    method InsertFocus(url: string, sid: string, fid: Id, now: int)
      requires Valid()
      modifies this
      ensures Valid() && raw == AfterInsertFocus(old(raw), url, sid, fid, now)
    {
      var eligible := IsEligibleUrl(url);
      if !eligible {
        return;
      }
      WritesKeepWellFormed(raw, url, sid, fid, 0, 0, now);
      var sessions := Get(raw, url);
      if sessions.None? || |sessions.value| == 0 {
        return;
      }
      var selected := Get(sessions.value, sid);
      if selected.None? {
        return;
      }
      var session := selected.value;
      session := session.(focus := Put(session.focus, fid, NewFocus(now)));
      raw := Put(raw, url, Put(sessions.value, sid, session));
    }

    /** `endURLSession`. */
    method EndURLSession(url: string, sid: string, now: int)
      requires Valid()
      modifies this
      ensures Valid() && raw == AfterEndSession(old(raw), url, sid, now)
    {
      var eligible := IsEligibleUrl(url);
      if !eligible {
        return;
      }
      WritesKeepWellFormed(raw, url, sid, sid, 0, 0, now);
      var sessions := Get(raw, url);
      if sessions.None? || |sessions.value| == 0 {
        return;
      }
      var current := Get(sessions.value, sid);
      if current.None? || IsSet(current.value.end) {
        return;
      }
      var session := current.value.(end := Some(now), total := Some(now - current.value.start));
      raw := Put(raw, url, Put(sessions.value, sid, session));
    }

    /** `endFocus`: closes the first open focus of the session. */
    method EndFocus(url: string, sid: string, now: int)
      requires Valid()
      modifies this
      ensures Valid() && raw == AfterEndFocus(old(raw), url, sid, now)
    {
      var eligible := IsEligibleUrl(url);
      if !eligible {
        return;
      }
      WritesKeepWellFormed(raw, url, sid, sid, 0, 0, now);
      var sessions := Get(raw, url);
      if sessions.None? || |sessions.value| == 0 {
        return;
      }
      var current := Get(sessions.value, sid);
      if current.None? {
        return;
      }
      var session := current.value;
      var k := FirstOpenFocus(session.focus);
      if k.None? {
        return;
      }
      var f := session.focus[k.value];
      session := session.(focus := session.focus[k.value := (f.0, f.1.(end := Some(now), total := Some(now - f.1.start)))]);
      raw := Put(raw, url, Put(sessions.value, sid, session));
    }

    /**
     * The nested `for ... in` walk the bulk methods share: over a snapshot of
     * the document, call `endFocus` (and `endURLSession`) on each session
     * the selector picks.
     */
    method Sweep(sweep: Sweep, sel: Selector, now: int)
      requires Valid()
      modifies this
      ensures Valid() && raw == AfterSweep(old(raw), sweep, sel, now)
    {
      var snapshot := raw;
      ghost var target := AfterSweep(snapshot, sweep, sel, now);
      var i := 0;
      while i < |snapshot|
        invariant 0 <= i <= |snapshot|
        invariant WellFormed(raw) && SameShape(snapshot, raw)
        invariant forall k :: 0 <= k < i ==> raw[k] == target[k]
        invariant forall k :: i <= k < |snapshot| ==> raw[k] == snapshot[k]
      {
        SweepOneDomain(snapshot, sweep, sel, now, i);
        i := i + 1;
      }
      assert raw == target;
    }

    /** The inner `for (const sessionId in sessions)` loop of a sweep, over domain `i`. */
    method SweepOneDomain(snapshot: Raw, sweep: Sweep, sel: Selector, now: int, i: nat)
      requires i < |snapshot| && Valid() && SameShape(snapshot, raw) && raw[i] == snapshot[i]
      modifies this
      ensures Valid() && SameShape(snapshot, raw)
      ensures raw[i] == (snapshot[i].0, SweepDomain(sweep, sel, snapshot[i].0, snapshot[i].1, now))
      ensures forall k :: 0 <= k < |raw| && k != i ==> raw[k] == old(raw)[k]
    {
      var url := snapshot[i].0;
      var sessions := snapshot[i].1;
      var j := 0;
      while j < |sessions|
        invariant 0 <= j <= |sessions|
        invariant Valid() && SameShape(snapshot, raw)
        invariant forall k :: 0 <= k < |raw| && k != i ==> raw[k] == old(raw)[k]
        invariant forall l :: 0 <= l < j ==> raw[i].1[l].1 == Swept(sweep, sel, url, sessions[l].1, now)
        invariant forall l :: j <= l < |sessions| ==> raw[i].1[l].1 == sessions[l].1
      {
        SweepSession(sweep, sel, now, i, j);
        j := j + 1;
      }
      assert raw[i].1 == SweepDomain(sweep, sel, url, sessions, now);
    }

    /** One step of the inner loop: the session at (i, j) of the snapshot. */
    method SweepSession(sweep: Sweep, sel: Selector, now: int, i: nat, j: nat)
      requires Valid() && i < |raw| && j < |raw[i].1|
      modifies this
      ensures Valid() && raw == SetSession(old(raw), i, j, Swept(sweep, sel, old(raw)[i].0, old(raw)[i].1[j].1, now))
    {
      var url, sessionId, session := raw[i].0, raw[i].1[j].0, raw[i].1[j].1;
      if Selects(sel, session) && !IsSet(session.end) && (sweep == EndFocusAndSession || HasOpenFocus(session.focus)) {
        assert IsEligible(url) && Acts(sweep, sel, url, session);
        EndFocusAt(raw, i, j, now);
        EndFocus(url, sessionId, now);
        if sweep == EndFocusAndSession {
          EndBothAt(old(raw), i, j, now);
          EndURLSession(url, sessionId, now);
        }
      } else {
        SetSessionSame(raw, i, j);
      }
    }

    /** `endFocusAllExcept(windowId, selectedTabId)`. */
    method EndFocusAllExcept(windowId: int, selectedTabId: int, now: int)
      requires Valid()
      modifies this
      ensures Valid() && raw == AfterSweep(old(raw), EndFocusOnly, InWindowExcept(windowId, Some(selectedTabId)), now)
    {
      Sweep(EndFocusOnly, InWindowExcept(windowId, Some(selectedTabId)), now);
    }

    /** `endAllFocusInWindow(windowId, exceptTabId = null)`; a null tab excludes nothing. */
    method EndAllFocusInWindow(windowId: int, exceptTabId: Option<int>, now: int)
      requires Valid()
      modifies this
      ensures Valid() && raw == AfterSweep(old(raw), EndFocusOnly, InWindowExcept(windowId, exceptTabId), now)
    {
      Sweep(EndFocusOnly, InWindowExcept(windowId, exceptTabId), now);
    }

    /** `endAllFocusGlobally()`. */
    method EndAllFocusGlobally(now: int)
      requires Valid()
      modifies this
      ensures Valid() && raw == AfterSweep(old(raw), EndFocusOnly, Everywhere, now)
    {
      Sweep(EndFocusOnly, Everywhere, now);
    }

    /** `endFocusInOtherWindows(windowId)`. */
    method EndFocusInOtherWindows(windowId: int, now: int)
      requires Valid()
      modifies this
      ensures Valid() && raw == AfterSweep(old(raw), EndFocusOnly, OutsideWindow(windowId), now)
    {
      Sweep(EndFocusOnly, OutsideWindow(windowId), now);
    }

    /** `endAllSessionsInWindow(windowId)`. */
    method EndAllSessionsInWindow(windowId: int, now: int)
      requires Valid()
      modifies this
      ensures Valid() && raw == AfterSweep(old(raw), EndFocusAndSession, InWindowExcept(windowId, None), now)
    {
      Sweep(EndFocusAndSession, InWindowExcept(windowId, None), now);
    }

    /** `endAllActiveSessions()`. */
    method EndAllActiveSessions(now: int)
      requires Valid()
      modifies this
      ensures Valid() && raw == AfterSweep(old(raw), EndFocusAndSession, Everywhere, now)
    {
      Sweep(EndFocusAndSession, Everywhere, now);
    }

    /**
     * The scan the handlers and `findAndEndSession` share: the position of the
     * first session, over all domains in `for ... in` order, that is open for
     * the tab (and the window, when one is given).
     */
    method FindOpenSession(tabId: int, windowId: Option<int>) returns (r: Option<(nat, nat)>)
      ensures r == FirstOpenAnywhere(raw, tabId, windowId)
    {
      var i := 0;
      while i < |raw|
        invariant 0 <= i <= |raw|
        invariant forall k :: 0 <= k < i ==> FirstOpenFor(raw[k].1, tabId, windowId).None?
      {
        var sessions := raw[i].1;
        var j := 0;
        while j < |sessions|
          invariant 0 <= j <= |sessions|
          invariant forall l :: 0 <= l < j ==> !OpenFor(sessions[l].1, tabId, windowId)
        {
          var session := sessions[j].1;
          if (windowId.None? || session.windowId == windowId.value) && session.tabId == tabId && !IsSet(session.end) {
            FirstOpenForIs(sessions, tabId, windowId, j);
            FirstOpenAnywhereIs(raw, tabId, windowId, i, j);
            return Some((i, j));
          }
          j := j + 1;
        }
        i := i + 1;
      }
      return None;
    }

    /** `findAndEndSession(tabId, windowId)`: ends the first open session of the tab, focus first. */
    method FindAndEndSession(tabId: int, windowId: int, now: int) returns (found: bool)
      requires Valid()
      modifies this
      ensures Valid() && raw == AfterFindAndEnd(old(raw), tabId, windowId, now)
      ensures found <==> TabHasOpenSession(old(raw), tabId, Some(windowId))
    {
      FirstOpenAnywhereFinds(raw, tabId, Some(windowId));
      var p := FindOpenSession(tabId, Some(windowId));
      if p.None? {
        return false;
      }
      var (i, j) := p.value;
      var url, sessionId := raw[i].0, raw[i].1[j].0;
      ghost var s := raw[i].1[j].1;
      EndFocusAt(raw, i, j, now);
      EndFocus(url, sessionId, now);
      EndSessionAt(raw, i, j, now);
      EndURLSession(url, sessionId, now);
      SetSessionTwice(old(raw), i, j, if IsEligible(url) then CloseFirstFocus(s, now) else s, EndWhole(url, s, now));
      return true;
    }
  }
}
