/**
 * The tracking store ("raw") of fn.js and what each `Storage` method does to
 * it, as functions on the document. The imperative `Storage` methods in
 * storage.dfy are proved to have exactly these effects.
 *
 * raw:      domain    -> (session ID -> Session)
 * Session:  {start, end?, total?, tabId, windowId, reason?, focus: focus ID -> Focus}
 * Focus:    {start, end?, total?}
 */
module Tracking {
  import opened Wrappers
  import opened Assoc
  import opened Aux

  datatype Focus = Focus(start: int, end: Option<int>, total: Option<int>)

  /** An absent `focus` object behaves as an empty one everywhere, so it is written as []. */
  datatype Session = Session(start: int, end: Option<int>, total: Option<int>,
                             tabId: int, windowId: int, reason: Option<string>,
                             focus: Assoc<Focus>)

  type Sessions = Assoc<Session>
  type Raw = Assoc<Sessions>

  /** JavaScript truthiness of a timestamp field: absent and 0 both read as "not set". */
  predicate IsSet(t: Option<int>) {
    t.Some? && t.value != 0
  }

  predicate FocusOpen(f: Focus) { !IsSet(f.end) }
  predicate SessionOpen(s: Session) { !IsSet(s.end) }

  predicate HasOpenFocus(fs: Assoc<Focus>) {
    exists k :: 0 <= k < |fs| && FocusOpen(fs[k].1)
  }

  /** `Object.values(focus).find(f => !f.end)`, as a position. */
  function FirstOpenFocus(fs: Assoc<Focus>): (r: Option<nat>)
    ensures r.Some? ==> r.value < |fs| && FocusOpen(fs[r.value].1)
    ensures r.Some? ==> forall k :: 0 <= k < r.value ==> !FocusOpen(fs[k].1)
    ensures r.None? <==> !HasOpenFocus(fs)
  {
    if |fs| == 0 then None
    else if FocusOpen(fs[0].1) then Some(0)
    else match FirstOpenFocus(fs[1..])
      case None => (assert forall k :: 1 <= k < |fs| ==> fs[k] == fs[1..][k - 1]; None)
      case Some(k) => Some(k + 1)
  }

  predicate AtMostOneOpenFocus(s: Session) {
    forall a, b :: 0 <= a < b < |s.focus| && FocusOpen(s.focus[a].1) ==> !FocusOpen(s.focus[b].1)
  }

  function CloseFocus(f: Focus, now: int): Focus {
    f.(end := Some(now), total := Some(now - f.start))
  }

  /** The body of `endFocus` on one session: close its first open focus, if any. */
  function CloseFirstFocus(s: Session, now: int): Session {
    match FirstOpenFocus(s.focus)
    case None => s
    case Some(k) => s.(focus := s.focus[k := (s.focus[k].0, CloseFocus(s.focus[k].1, now))])
  }

  /** The body of `endURLSession` on one session. */
  function CloseSession(s: Session, now: int): Session {
    s.(end := Some(now), total := Some(now - s.start))
  }

  function NewSession(tabId: int, windowId: int, now: int): Session {
    Session(now, None, None, tabId, windowId, None, [])
  }

  function NewFocus(now: int): Focus {
    Focus(now, None, None)
  }

  /**
   * What every document the store holds satisfies: keys are unique at each
   * level (they are object keys), every domain key passed `isEligibleUrl`
   * (only `insertSession` creates domains, and it checks), and every session
   * key is non-empty (it came from `generateId`).
   */
  predicate WellFormed(raw: Raw) {
    UniqueKeys(raw) && forall i :: 0 <= i < |raw| ==> IsEligible(raw[i].0) && DomainOk(raw[i].1)
  }

  /** The sessions of one domain: unique non-empty session keys, unique focus keys. */
  predicate DomainOk(ss: Sessions) {
    UniqueKeys(ss) && forall j :: 0 <= j < |ss| ==> ss[j].0 != "" && UniqueKeys(ss[j].1.focus)
  }

  /** Writing a domain whose sessions are well formed under an eligible key keeps the store well formed. */
  lemma PutDomainWellFormed(raw: Raw, url: string, ss: Sessions)
    requires WellFormed(raw) && IsEligible(url) && DomainOk(ss)
    ensures WellFormed(Put(raw, url, ss))
  {
    PutKeys(raw, url, ss);
    var r := Put(raw, url, ss);
    forall i | 0 <= i < |r| ensures IsEligible(r[i].0) && DomainOk(r[i].1) {
      if i < |raw| && r[i] == raw[i] {
      } else {
        assert r[i] == (url, ss);
      }
    }
  }

  /** Writing a session with a non-empty key and unique focus keys keeps a domain well formed. */
  lemma PutSessionOk(ss: Sessions, sid: string, s: Session)
    requires DomainOk(ss) && sid != "" && UniqueKeys(s.focus)
    ensures DomainOk(Put(ss, sid, s))
  {
    PutKeys(ss, sid, s);
    var r := Put(ss, sid, s);
    forall j | 0 <= j < |r| ensures r[j].0 != "" && UniqueKeys(r[j].1.focus) {
      if j < |ss| && r[j] == ss[j] {
      } else {
        assert r[j] == (sid, s);
      }
    }
  }

  /** Every `Storage` write keeps the store well formed (given a generated, non-empty ID). */
  lemma WritesKeepWellFormed(raw: Raw, url: string, sid: string, fid: string, tabId: int, windowId: int, now: int)
    requires WellFormed(raw)
    ensures sid != "" ==> WellFormed(AfterInsertSession(raw, url, sid, tabId, windowId, now))
    ensures WellFormed(AfterInsertFocus(raw, url, sid, fid, now))
    ensures WellFormed(AfterEndSession(raw, url, sid, now))
    ensures WellFormed(AfterEndFocus(raw, url, sid, now))
  {
    if IsEligible(url) {
      var ss := Get(raw, url).GetOr([]);
      assert DomainOk(ss) by {
        if HasKey(raw, url) { assert ss == raw[IndexOf(raw, url).value].1; }
      }
      if sid != "" {
        PutSessionOk(ss, sid, NewSession(tabId, windowId, now));
        PutDomainWellFormed(raw, url, Put(ss, sid, NewSession(tabId, windowId, now)));
      }
      if Get(ss, sid).Some? {
        var s := Get(ss, sid).value;
        var p := IndexOf(ss, sid).value;
        assert sid != "" && UniqueKeys(s.focus) by { assert ss[p] == (sid, s); }
        PutKeys(s.focus, fid, NewFocus(now));
        PutSessionOk(ss, sid, s.(focus := Put(s.focus, fid, NewFocus(now))));
        PutDomainWellFormed(raw, url, Put(ss, sid, s.(focus := Put(s.focus, fid, NewFocus(now)))));
        PutSessionOk(ss, sid, CloseSession(s, now));
        PutDomainWellFormed(raw, url, Put(ss, sid, CloseSession(s, now)));
        CloseFirstFocusKeys(s, now);
        PutSessionOk(ss, sid, CloseFirstFocus(s, now));
        PutDomainWellFormed(raw, url, Put(ss, sid, CloseFirstFocus(s, now)));
      }
    }
  }

  /** `raw[url]?.[sessionId]`. */
  function Lookup(raw: Raw, url: string, sid: string): Option<Session> {
    match Get(raw, url)
    case None => None
    case Some(ss) => Get(ss, sid)
  }

  /** Every (domain, session ID) other than (url, sid) reads as before. */
  ghost predicate SameElsewhere(a: Raw, b: Raw, url: string, sid: string) {
    forall u, k :: u != url || k != sid ==> Lookup(a, u, k) == Lookup(b, u, k)
  }

  /** Same domain keys and session keys, in the same order. */
  predicate SameShape(a: Raw, b: Raw) {
    && |a| == |b|
    && (forall i :: 0 <= i < |a| ==> a[i].0 == b[i].0 && |a[i].1| == |b[i].1|)
    && (forall i, j :: 0 <= i < |a| && 0 <= j < |a[i].1| ==> a[i].1[j].0 == b[i].1[j].0)
  }

  /** Replace the session at position (i, j), keeping its key. */
  function SetSession(raw: Raw, i: nat, j: nat, s: Session): (r: Raw)
    requires i < |raw| && j < |raw[i].1|
    ensures SameShape(raw, r)
    ensures r[i].1[j].1 == s
    ensures forall k :: 0 <= k < |raw| && k != i ==> r[k] == raw[k]
    ensures forall l :: 0 <= l < |raw[i].1| && l != j ==> r[i].1[l] == raw[i].1[l]
  {
    raw[i := (raw[i].0, raw[i].1[j := (raw[i].1[j].0, s)])]
  }

  lemma SetSessionTwice(raw: Raw, i: nat, j: nat, s: Session, t: Session)
    requires i < |raw| && j < |raw[i].1|
    ensures SetSession(SetSession(raw, i, j, s), i, j, t) == SetSession(raw, i, j, t)
  {
    assert raw[i].1[j := (raw[i].1[j].0, s)][j := (raw[i].1[j].0, t)] == raw[i].1[j := (raw[i].1[j].0, t)];
  }

  // ---------------------------------------------------------------------------
  // findActiveSessionId

  /** The session belongs to the tab (and, when given, the window) and has not ended. */
  predicate OpenFor(s: Session, tabId: int, windowId: Option<int>) {
    s.tabId == tabId && (windowId.None? || s.windowId == windowId.value) && SessionOpen(s)
  }

  /** Position of the first session of a domain that is open for the tab, in `for ... in` order. */
  function FirstOpenFor(ss: Sessions, tabId: int, windowId: Option<int>): (r: Option<nat>)
    ensures r.Some? ==> r.value < |ss| && OpenFor(ss[r.value].1, tabId, windowId)
    ensures r.Some? ==> forall j :: 0 <= j < r.value ==> !OpenFor(ss[j].1, tabId, windowId)
    ensures r.None? <==> forall j :: 0 <= j < |ss| ==> !OpenFor(ss[j].1, tabId, windowId)
  {
    if |ss| == 0 then None
    else if OpenFor(ss[0].1, tabId, windowId) then Some(0)
    else match FirstOpenFor(ss[1..], tabId, windowId)
      case None => (assert forall j :: 1 <= j < |ss| ==> ss[j] == ss[1..][j - 1]; None)
      case Some(j) => Some(j + 1)
  }

  lemma FirstOpenForIs(ss: Sessions, tabId: int, windowId: Option<int>, p: nat)
    requires p < |ss| && OpenFor(ss[p].1, tabId, windowId)
    requires forall j :: 0 <= j < p ==> !OpenFor(ss[j].1, tabId, windowId)
    ensures FirstOpenFor(ss, tabId, windowId) == Some(p)
  {
  }

  /**
   * `findActiveSessionId(url, windowId, tabId)`: null for an ineligible or
   * absent domain; otherwise the key of the first session under the domain
   * that is open for that tab and window, or null when there is none.
   */
  function FindActive(raw: Raw, url: string, windowId: int, tabId: int): (r: Option<string>)
    ensures !IsEligible(url) || !HasKey(raw, url) ==> r.None?
    ensures r.Some? ==> exists j :: 0 <= j < |Get(raw, url).value| && Get(raw, url).value[j].0 == r.value
                                    && OpenFor(Get(raw, url).value[j].1, tabId, Some(windowId))
    ensures r.None? && IsEligible(url) && HasKey(raw, url) ==>
      forall j :: 0 <= j < |Get(raw, url).value| ==> !OpenFor(Get(raw, url).value[j].1, tabId, Some(windowId))
  {
    if !IsEligible(url) then None
    else match Get(raw, url)
      case None => None
      case Some(ss) =>
        match FirstOpenFor(ss, tabId, Some(windowId))
        case None => None
        case Some(j) => Some(ss[j].0)
  }

  /** In a well-formed store the ID found reads back a session open for that tab and window. */
  lemma FindActiveReadsBack(raw: Raw, url: string, windowId: int, tabId: int)
    requires WellFormed(raw)
    ensures var r := FindActive(raw, url, windowId, tabId);
      r.Some? ==> Lookup(raw, url, r.value).Some? && OpenFor(Lookup(raw, url, r.value).value, tabId, Some(windowId))
  {
    var r := FindActive(raw, url, windowId, tabId);
    if r.Some? {
      var i := IndexOf(raw, url).value;
      var ss := raw[i].1;
      var j := FirstOpenFor(ss, tabId, Some(windowId)).value;
      IndexOfUnique(ss, j);
    }
  }

  // ---------------------------------------------------------------------------
  // insertSession, insertFocus, endURLSession, endFocus

  /** `insertSession(url, tabId, windowId)` with the generated ID `sid` and clock `now`. */
  function AfterInsertSession(raw: Raw, url: string, sid: string, tabId: int, windowId: int, now: int): Raw {
    if !IsEligible(url) then raw
    else Put(raw, url, Put(Get(raw, url).GetOr([]), sid, NewSession(tabId, windowId, now)))
  }

  /** `insertFocus(url, sessionId)` with the generated ID `fid`. */
  function AfterInsertFocus(raw: Raw, url: string, sid: string, fid: string, now: int): Raw {
    if !IsEligible(url) then raw
    else match Get(raw, url)
      case None => raw
      case Some(ss) =>
        if |ss| == 0 then raw
        else match Get(ss, sid)
          case None => raw
          case Some(s) => Put(raw, url, Put(ss, sid, s.(focus := Put(s.focus, fid, NewFocus(now)))))
  }

  /** `endURLSession(url, sessionId)`. */
  function AfterEndSession(raw: Raw, url: string, sid: string, now: int): Raw {
    if !IsEligible(url) then raw
    else match Get(raw, url)
      case None => raw
      case Some(ss) =>
        if |ss| == 0 then raw
        else match Get(ss, sid)
          case None => raw
          case Some(s) => if IsSet(s.end) then raw else Put(raw, url, Put(ss, sid, CloseSession(s, now)))
  }

  /** `endFocus(url, sessionId)`. */
  function AfterEndFocus(raw: Raw, url: string, sid: string, now: int): Raw {
    if !IsEligible(url) then raw
    else match Get(raw, url)
      case None => raw
      case Some(ss) =>
        if |ss| == 0 then raw
        else match Get(ss, sid)
          case None => raw
          case Some(s) => if !HasOpenFocus(s.focus) then raw else Put(raw, url, Put(ss, sid, CloseFirstFocus(s, now)))
  }

  /** Writing `raw[url][sid]` changes what that pair reads and nothing else. */
  lemma PutPutLookup(raw: Raw, url: string, ss: Sessions, sid: string, s: Session)
    ensures Lookup(Put(raw, url, Put(ss, sid, s)), url, sid) == Some(s)
    ensures forall u, k :: u != url ==> Lookup(Put(raw, url, Put(ss, sid, s)), u, k) == Lookup(raw, u, k)
    ensures forall k :: k != sid ==> Lookup(Put(raw, url, Put(ss, sid, s)), url, k) == Get(ss, k)
  {
    var r := Put(raw, url, Put(ss, sid, s));
    PutGetSame(raw, url, Put(ss, sid, s));
    PutGetSame(ss, sid, s);
    forall u, k | u != url ensures Lookup(r, u, k) == Lookup(raw, u, k) {
      PutGetOther(raw, url, Put(ss, sid, s), u);
    }
    forall k | k != sid ensures Lookup(r, url, k) == Get(ss, k) {
      PutGetOther(ss, sid, s, k);
    }
  }

  /**
   * `insertSession`: an ineligible domain leaves the store as it was;
   * otherwise exactly one entry changes, the new open session
   * {start: now, tabId, windowId} with no focus, under the domain.
   */
  lemma InsertSessionEffect(raw: Raw, url: string, sid: string, tabId: int, windowId: int, now: int)
    ensures var r := AfterInsertSession(raw, url, sid, tabId, windowId, now);
      && (!IsEligible(url) ==> r == raw)
      && (IsEligible(url) ==> Lookup(r, url, sid) == Some(NewSession(tabId, windowId, now)))
      && SameElsewhere(raw, r, url, sid)
  {
    if IsEligible(url) {
      var ss := Get(raw, url).GetOr([]);
      PutPutLookup(raw, url, ss, sid, NewSession(tabId, windowId, now));
      assert forall k :: Get(ss, k) == Lookup(raw, url, k);
    }
  }

  /** The new session is the tab's only open one when the tab had none there before. */
  lemma InsertSessionFindable(raw: Raw, url: string, sid: string, tabId: int, windowId: int, now: int)
    requires WellFormed(raw) && IsEligible(url)
    requires FindActive(raw, url, windowId, tabId).None?
    ensures FindActive(AfterInsertSession(raw, url, sid, tabId, windowId, now), url, windowId, tabId) == Some(sid)
  {
    var ss := Get(raw, url).GetOr([]);
    var ss' := Put(ss, sid, NewSession(tabId, windowId, now));
    var r := Put(raw, url, ss');
    PutGetSame(raw, url, ss');
    assert Get(r, url) == Some(ss');
    forall j | 0 <= j < |ss| && ss[j].0 != sid
      ensures !OpenFor(ss[j].1, tabId, Some(windowId))
    {
    }
    match IndexOf(ss, sid)
    case None =>
      assert ss' == ss + [(sid, NewSession(tabId, windowId, now))];
      FirstOpenForIs(ss', tabId, Some(windowId), |ss|);
    case Some(p) =>
      assert forall j :: 0 <= j < |ss'| && j != p ==> ss'[j] == ss[j];
      FirstOpenForIs(ss', tabId, Some(windowId), p);
  }

  /**
   * `insertFocus`: no write for an ineligible domain, an absent or empty
   * domain, or a missing session; otherwise that session gains the focus
   * {start: now} and nothing else changes.
   */
  lemma InsertFocusEffect(raw: Raw, url: string, sid: string, fid: string, now: int)
    ensures var r := AfterInsertFocus(raw, url, sid, fid, now);
      && (!IsEligible(url) || Get(raw, url) == Some([]) || Lookup(raw, url, sid).None? ==> r == raw)
      && (IsEligible(url) && Lookup(raw, url, sid).Some? ==>
            var s := Lookup(raw, url, sid).value;
            Lookup(r, url, sid) == Some(s.(focus := Put(s.focus, fid, NewFocus(now)))))
      && SameElsewhere(raw, r, url, sid)
  {
    if IsEligible(url) && Lookup(raw, url, sid).Some? {
      var ss := Get(raw, url).value;
      var s := Get(ss, sid).value;
      PutPutLookup(raw, url, ss, sid, s.(focus := Put(s.focus, fid, NewFocus(now))));
    }
  }

  /**
   * `endURLSession`: no write for an ineligible domain, a missing session or
   * one already ended; otherwise that session gets `end = now` and
   * `total = end - start`, and nothing else changes.
   */
  lemma EndSessionEffect(raw: Raw, url: string, sid: string, now: int)
    ensures var r := AfterEndSession(raw, url, sid, now);
      && (!IsEligible(url) || Lookup(raw, url, sid).None? || !SessionOpen(Lookup(raw, url, sid).value) ==> r == raw)
      && (IsEligible(url) && Lookup(raw, url, sid).Some? && SessionOpen(Lookup(raw, url, sid).value) ==>
            var s := Lookup(raw, url, sid).value;
            && Lookup(r, url, sid) == Some(s.(end := Some(now), total := Some(now - s.start)))
            && Lookup(r, url, sid).value.total.value == Lookup(r, url, sid).value.end.value - s.start)
      && SameElsewhere(raw, r, url, sid)
  {
    if IsEligible(url) && Lookup(raw, url, sid).Some? && SessionOpen(Lookup(raw, url, sid).value) {
      var ss := Get(raw, url).value;
      PutPutLookup(raw, url, ss, sid, CloseSession(Get(ss, sid).value, now));
    }
  }

  /** Ending a session twice is ending it once. */
  lemma {:induction false} EndSessionIdempotent(raw: Raw, url: string, sid: string, now: int)
    ensures AfterEndSession(AfterEndSession(raw, url, sid, now), url, sid, now) == AfterEndSession(raw, url, sid, now)
  {
    var r := AfterEndSession(raw, url, sid, now);
    if IsEligible(url) && Lookup(raw, url, sid).Some? && SessionOpen(Lookup(raw, url, sid).value) {
      var ss := Get(raw, url).value;
      var s := Get(ss, sid).value;
      var ss' := Put(ss, sid, CloseSession(s, now));
      PutGetSame(raw, url, ss');
      PutGetSame(ss, sid, CloseSession(s, now));
      if now != 0 {
        assert !SessionOpen(CloseSession(s, now));
      } else {
        // a zero clock leaves `end` falsy: the second call rewrites the same values
        assert CloseSession(CloseSession(s, now), now) == CloseSession(s, now);
        PutTwice(raw, url, ss', Put(ss', sid, CloseSession(s, now)));
        PutTwice(ss, sid, CloseSession(s, now), CloseSession(s, now));
      }
    } else {
      assert r == raw;
    }
  }

  lemma PutTwice<V>(m: Assoc<V>, k: string, v: V, w: V)
    ensures Put(Put(m, k, v), k, w) == Put(m, k, w)
  {
    var m1 := Put(m, k, v);
    PutGetSame(m, k, v);
    match IndexOf(m, k)
    case None =>
      assert IndexOf(m1, k) == Some(|m|) by {
        assert forall j :: 0 <= j < |m| ==> m1[j] == m[j];
      }
    case Some(i) =>
      IndexOfIs(m1, k, i);
  }

  /**
   * `endFocus`: no write for an ineligible domain, a missing session or a
   * session without an open focus; otherwise the first open focus of that
   * session gets `end = now` and `total = end - start`, the session's other
   * fields and every other entry are untouched.
   */
  lemma EndFocusEffect(raw: Raw, url: string, sid: string, now: int)
    ensures !IsEligible(url) || Lookup(raw, url, sid).None? || !HasOpenFocus(Lookup(raw, url, sid).value.focus) ==>
      AfterEndFocus(raw, url, sid, now) == raw
    ensures IsEligible(url) && Lookup(raw, url, sid).Some? && HasOpenFocus(Lookup(raw, url, sid).value.focus) ==>
      var s := Lookup(raw, url, sid).value;
      var k := FirstOpenFocus(s.focus).value;
      Lookup(AfterEndFocus(raw, url, sid, now), url, sid) ==
        Some(s.(focus := s.focus[k := (s.focus[k].0, s.focus[k].1.(end := Some(now), total := Some(now - s.focus[k].1.start)))]))
    ensures SameElsewhere(raw, AfterEndFocus(raw, url, sid, now), url, sid)
  {
    if IsEligible(url) && Lookup(raw, url, sid).Some? && HasOpenFocus(Lookup(raw, url, sid).value.focus) {
      var ss := Get(raw, url).value;
      PutPutLookup(raw, url, ss, sid, CloseFirstFocus(Get(ss, sid).value, now));
    }
  }

  /**
   * Ending focus twice is ending it once, as long as the session holds at
   * most one open focus: with two, the second call closes the second one.
   */
  lemma {:induction false} EndFocusIdempotent(raw: Raw, url: string, sid: string, now: int)
    requires Lookup(raw, url, sid).Some? ==> AtMostOneOpenFocus(Lookup(raw, url, sid).value)
    ensures AfterEndFocus(AfterEndFocus(raw, url, sid, now), url, sid, now) == AfterEndFocus(raw, url, sid, now)
  {
    var r := AfterEndFocus(raw, url, sid, now);
    if IsEligible(url) && Lookup(raw, url, sid).Some? && HasOpenFocus(Lookup(raw, url, sid).value.focus) {
      var ss := Get(raw, url).value;
      var s := Get(ss, sid).value;
      var s' := CloseFirstFocus(s, now);
      var ss' := Put(ss, sid, s');
      PutGetSame(raw, url, ss');
      PutGetSame(ss, sid, s');
      var k := FirstOpenFocus(s.focus).value;
      if now != 0 {
        assert !HasOpenFocus(s'.focus) by {
          forall b | 0 <= b < |s'.focus| ensures !FocusOpen(s'.focus[b].1) {
            if b != k {
              assert s'.focus[b] == s.focus[b];
              if b > k { assert !FocusOpen(s.focus[b].1); }
            }
          }
        }
      } else {
        FirstOpenFocusIs(s'.focus, k);
        assert CloseFirstFocus(s', now) == s';
        PutTwice(raw, url, ss', Put(ss', sid, s'));
        PutTwice(ss, sid, s', s');
      }
    } else {
      assert r == raw;
    }
  }

  lemma FirstOpenFocusIs(fs: Assoc<Focus>, p: nat)
    requires p < |fs| && FocusOpen(fs[p].1)
    requires forall k :: 0 <= k < p ==> !FocusOpen(fs[k].1)
    ensures FirstOpenFocus(fs) == Some(p)
  {
  }

  // ---------------------------------------------------------------------------
  // Positions. In a well-formed store, the key-based methods act on one position.

  lemma SetSessionSame(raw: Raw, i: nat, j: nat)
    requires i < |raw| && j < |raw[i].1|
    ensures SetSession(raw, i, j, raw[i].1[j].1) == raw
  {
    assert raw[i].1[j := (raw[i].1[j].0, raw[i].1[j].1)] == raw[i].1;
  }

  lemma PutPutAt(raw: Raw, i: nat, j: nat, s: Session)
    requires WellFormed(raw) && i < |raw| && j < |raw[i].1|
    ensures Get(raw, raw[i].0) == Some(raw[i].1) && Get(raw[i].1, raw[i].1[j].0) == Some(raw[i].1[j].1)
    ensures Put(raw, raw[i].0, Put(raw[i].1, raw[i].1[j].0, s)) == SetSession(raw, i, j, s)
  {
    IndexOfUnique(raw, i);
    IndexOfUnique(raw[i].1, j);
  }

  /** `endFocus(url, id)` on the session at (i, j). */
  lemma EndFocusAt(raw: Raw, i: nat, j: nat, now: int)
    requires WellFormed(raw) && i < |raw| && j < |raw[i].1|
    ensures AfterEndFocus(raw, raw[i].0, raw[i].1[j].0, now)
         == SetSession(raw, i, j, if IsEligible(raw[i].0) then CloseFirstFocus(raw[i].1[j].1, now) else raw[i].1[j].1)
  {
    PutPutAt(raw, i, j, CloseFirstFocus(raw[i].1[j].1, now));
    SetSessionSame(raw, i, j);
  }

  /** `endURLSession(url, id)` on the session at (i, j). */
  lemma EndSessionAt(raw: Raw, i: nat, j: nat, now: int)
    requires WellFormed(raw) && i < |raw| && j < |raw[i].1|
    ensures AfterEndSession(raw, raw[i].0, raw[i].1[j].0, now)
         == SetSession(raw, i, j, if IsEligible(raw[i].0) && SessionOpen(raw[i].1[j].1)
                                  then CloseSession(raw[i].1[j].1, now) else raw[i].1[j].1)
  {
    PutPutAt(raw, i, j, CloseSession(raw[i].1[j].1, now));
    SetSessionSame(raw, i, j);
  }

  lemma CloseFirstFocusKeys(s: Session, now: int)
    ensures Keys(CloseFirstFocus(s, now).focus) == Keys(s.focus)
    ensures UniqueKeys(s.focus) ==> UniqueKeys(CloseFirstFocus(s, now).focus)
  {
  }

  /** Replacing one session by one with the same focus keys keeps the store well formed. */
  lemma SetSessionWellFormed(raw: Raw, i: nat, j: nat, s: Session)
    requires WellFormed(raw) && i < |raw| && j < |raw[i].1|
    requires Keys(s.focus) == Keys(raw[i].1[j].1.focus)
    ensures WellFormed(SetSession(raw, i, j, s))
  {
    var r := SetSession(raw, i, j, s);
    assert forall a, b :: 0 <= a < b < |s.focus| ==> s.focus[a].0 == Keys(s.focus)[a] && s.focus[b].0 == Keys(s.focus)[b];
    assert forall a :: 0 <= a < |r[i].1| ==> r[i].1[a].0 == raw[i].1[a].0;
    assert DomainOk(r[i].1);
  }

  // ---------------------------------------------------------------------------
  // The bulk sweeps

  /** Which open sessions a sweep visits. */
  datatype Selector =
    | InWindowExcept(windowId: int, exceptTab: Option<int>)   // `windowId ===` and `tabId !==`
    | OutsideWindow(windowId: int)                           // `windowId !==`
    | Everywhere

  /** What a sweep does to each session it visits. */
  datatype Sweep = EndFocusOnly | EndFocusAndSession

  predicate Selects(sel: Selector, s: Session) {
    match sel
    case InWindowExcept(w, ex) => s.windowId == w && (ex.None? || s.tabId != ex.value)
    case OutsideWindow(w) => s.windowId != w
    case Everywhere => true
  }

  /**
   * The sweep calls `endFocus` (and, for session sweeps, `endURLSession`) on
   * this session: it is selected and open, for focus sweeps it holds an open
   * focus, and the called methods act only under an eligible domain.
   */
  predicate Acts(sweep: Sweep, sel: Selector, url: string, s: Session) {
    IsEligible(url) && Selects(sel, s) && SessionOpen(s) && (sweep == EndFocusAndSession || HasOpenFocus(s.focus))
  }

  function Swept(sweep: Sweep, sel: Selector, url: string, s: Session, now: int): Session {
    if !Acts(sweep, sel, url, s) then s
    else if sweep == EndFocusOnly then CloseFirstFocus(s, now)
    else CloseSession(CloseFirstFocus(s, now), now)
  }

  function SweepDomain(sweep: Sweep, sel: Selector, url: string, ss: Sessions, now: int): (r: Sessions)
    ensures |r| == |ss|
    ensures forall j :: 0 <= j < |ss| ==> r[j] == (ss[j].0, Swept(sweep, sel, url, ss[j].1, now))
  {
    seq(|ss|, j requires 0 <= j < |ss| => (ss[j].0, Swept(sweep, sel, url, ss[j].1, now)))
  }

  /**
   * The bulk sweeps of `Storage`: every session of the document, domain by
   * domain in order, goes through `Swept`. `endFocusAllExcept(w, t)` is
   * (EndFocusOnly, InWindowExcept(w, Some(t))), `endAllFocusInWindow(w)`
   * (EndFocusOnly, InWindowExcept(w, None)), `endAllFocusGlobally()`
   * (EndFocusOnly, Everywhere), `endFocusInOtherWindows(w)` (EndFocusOnly,
   * OutsideWindow(w)), `endAllSessionsInWindow(w)` (EndFocusAndSession,
   * InWindowExcept(w, None)) and `endAllActiveSessions()`
   * (EndFocusAndSession, Everywhere).
   */
  function AfterSweep(raw: Raw, sweep: Sweep, sel: Selector, now: int): (r: Raw)
    ensures |r| == |raw|
    ensures forall i :: 0 <= i < |raw| ==> r[i] == (raw[i].0, SweepDomain(sweep, sel, raw[i].0, raw[i].1, now))
  {
    seq(|raw|, i requires 0 <= i < |raw| => (raw[i].0, SweepDomain(sweep, sel, raw[i].0, raw[i].1, now)))
  }

  /** Every sweep keeps the document's keys, their order and its well-formedness. */
  lemma SweepShape(raw: Raw, sweep: Sweep, sel: Selector, now: int)
    requires WellFormed(raw)
    ensures SameShape(raw, AfterSweep(raw, sweep, sel, now))
    ensures WellFormed(AfterSweep(raw, sweep, sel, now))
  {
    var r := AfterSweep(raw, sweep, sel, now);
    forall i | 0 <= i < |r| ensures DomainOk(r[i].1) {
      forall j | 0 <= j < |r[i].1| ensures r[i].1[j].0 != "" && UniqueKeys(r[i].1[j].1.focus) {
        CloseFirstFocusKeys(raw[i].1[j].1, now);
        var f, g := r[i].1[j].1.focus, raw[i].1[j].1.focus;
        assert Keys(f) == Keys(g);
        assert forall a, b :: 0 <= a < b < |f| ==> f[a].0 == Keys(g)[a] && f[b].0 == Keys(g)[b];
      }
      assert forall a :: 0 <= a < |r[i].1| ==> r[i].1[a].0 == raw[i].1[a].0;
    }
  }

  /**
   * A focus sweep never ends, adds or re-binds a session: every session keeps
   * all its fields but `focus`, and one not visited (not selected, already
   * ended, or without an open focus) keeps its focus too. A visited one has
   * exactly its first open focus closed at `now`.
   */
  lemma FocusSweepKeepsSessions(raw: Raw, sel: Selector, now: int, i: nat, j: nat)
    requires i < |raw| && j < |raw[i].1|
    ensures var s := raw[i].1[j].1;
      var s' := AfterSweep(raw, EndFocusOnly, sel, now)[i].1[j].1;
      && s'.(focus := s.focus) == s
      && (!Selects(sel, s) || !SessionOpen(s) || !HasOpenFocus(s.focus) ==> s' == s)
      && (IsEligible(raw[i].0) && Selects(sel, s) && SessionOpen(s) && HasOpenFocus(s.focus) ==>
            var k := FirstOpenFocus(s.focus).value;
            s'.focus == s.focus[k := (s.focus[k].0, s.focus[k].1.(end := Some(now), total := Some(now - s.focus[k].1.start)))])
  {
  }

  /**
   * With a non-zero clock and at most one open focus per session, a focus
   * sweep leaves no open focus in any open session it selects.
   */
  lemma FocusSweepClears(raw: Raw, sel: Selector, now: int)
    requires WellFormed(raw) && now != 0
    requires forall i, j :: 0 <= i < |raw| && 0 <= j < |raw[i].1| ==> AtMostOneOpenFocus(raw[i].1[j].1)
    ensures var r := AfterSweep(raw, EndFocusOnly, sel, now);
      forall i, j :: 0 <= i < |r| && 0 <= j < |r[i].1| && Selects(sel, r[i].1[j].1) && SessionOpen(r[i].1[j].1) ==>
        !HasOpenFocus(r[i].1[j].1.focus)
  {
    var r := AfterSweep(raw, EndFocusOnly, sel, now);
    forall i, j | 0 <= i < |r| && 0 <= j < |r[i].1| && Selects(sel, r[i].1[j].1) && SessionOpen(r[i].1[j].1)
      ensures !HasOpenFocus(r[i].1[j].1.focus)
    {
      var s := raw[i].1[j].1;
      if HasOpenFocus(s.focus) {
        assert IsEligible(raw[i].0);
        OnlyFocusClosed(s, now);
      }
    }
  }

  /** Closing the only open focus of a session at a non-zero time leaves none open. */
  lemma OnlyFocusClosed(s: Session, now: int)
    requires AtMostOneOpenFocus(s) && now != 0
    ensures !HasOpenFocus(CloseFirstFocus(s, now).focus)
  {
    match FirstOpenFocus(s.focus)
    case None =>
    case Some(k) =>
      var s' := CloseFirstFocus(s, now);
      forall b | 0 <= b < |s'.focus| ensures !FocusOpen(s'.focus[b].1) {
        if b < k {
        } else if b > k {
          assert !FocusOpen(s.focus[b].1);
        }
      }
  }

  /**
   * With a non-zero clock a session sweep leaves no selected session open;
   * each one it ended had its first open focus closed first, so with at most
   * one open focus per session none of them keeps an open focus.
   */
  lemma SessionSweepCloses(raw: Raw, sel: Selector, now: int)
    requires WellFormed(raw) && now != 0
    ensures var r := AfterSweep(raw, EndFocusAndSession, sel, now);
      forall i, j :: 0 <= i < |r| && 0 <= j < |r[i].1| && Selects(sel, r[i].1[j].1) ==>
        && !SessionOpen(r[i].1[j].1)
        && (SessionOpen(raw[i].1[j].1) ==>
              r[i].1[j].1.end == Some(now) && r[i].1[j].1.total == Some(now - raw[i].1[j].1.start))
        && (SessionOpen(raw[i].1[j].1) && AtMostOneOpenFocus(raw[i].1[j].1) ==> !HasOpenFocus(r[i].1[j].1.focus))
  {
    var r := AfterSweep(raw, EndFocusAndSession, sel, now);
    forall i, j | 0 <= i < |r| && 0 <= j < |r[i].1| && Selects(sel, r[i].1[j].1)
      ensures !SessionOpen(r[i].1[j].1)
      ensures SessionOpen(raw[i].1[j].1) && AtMostOneOpenFocus(raw[i].1[j].1) ==> !HasOpenFocus(r[i].1[j].1.focus)
    {
      var s := raw[i].1[j].1;
      assert IsEligible(raw[i].0);
      if SessionOpen(s) && AtMostOneOpenFocus(s) {
        OnlyFocusClosed(s, now);
      }
    }
  }

  /** A sweep of either kind leaves every session it does not select exactly as it was. */
  lemma SweepOnlySelected(raw: Raw, sweep: Sweep, sel: Selector, now: int, i: nat, j: nat)
    requires i < |raw| && j < |raw[i].1| && !Selects(sel, raw[i].1[j].1)
    ensures AfterSweep(raw, sweep, sel, now)[i].1[j] == raw[i].1[j]
  {
  }

  // ---------------------------------------------------------------------------
  // findAndEndSession

  /** Position of the first session, over all domains in order, that is open for the tab. */
  function FirstOpenAnywhere(raw: Raw, tabId: int, windowId: Option<int>): (r: Option<(nat, nat)>)
    ensures r.Some? ==> r.value.0 < |raw| && FirstOpenFor(raw[r.value.0].1, tabId, windowId) == Some(r.value.1)
    ensures r.Some? ==> forall i :: 0 <= i < r.value.0 ==> FirstOpenFor(raw[i].1, tabId, windowId).None?
    ensures r.None? <==> forall i :: 0 <= i < |raw| ==> FirstOpenFor(raw[i].1, tabId, windowId).None?
  {
    if |raw| == 0 then None
    else match FirstOpenFor(raw[0].1, tabId, windowId)
      case Some(j) => Some((0, j))
      case None =>
        match FirstOpenAnywhere(raw[1..], tabId, windowId)
        case None => (assert forall i :: 1 <= i < |raw| ==> raw[i] == raw[1..][i - 1]; None)
        case Some(p) => Some((p.0 + 1, p.1))
  }

  /** Some session of the tab in that window is open (anywhere in the store). */
  predicate TabHasOpenSession(raw: Raw, tabId: int, windowId: Option<int>) {
    exists i, j :: 0 <= i < |raw| && 0 <= j < |raw[i].1| && OpenFor(raw[i].1[j].1, tabId, windowId)
  }

  lemma FirstOpenAnywhereFinds(raw: Raw, tabId: int, windowId: Option<int>)
    ensures FirstOpenAnywhere(raw, tabId, windowId).Some? <==> TabHasOpenSession(raw, tabId, windowId)
  {
    if FirstOpenAnywhere(raw, tabId, windowId).None? {
      forall i, j | 0 <= i < |raw| && 0 <= j < |raw[i].1| ensures !OpenFor(raw[i].1[j].1, tabId, windowId) {
        assert FirstOpenFor(raw[i].1, tabId, windowId).None?;
      }
    }
  }

  /** `endFocus` then `endURLSession` on one session, under its domain. */
  function EndWhole(url: string, s: Session, now: int): Session {
    if IsEligible(url) then CloseSession(CloseFirstFocus(s, now), now) else s
  }

  /** `findAndEndSession(tabId, windowId)`: what it leaves in the store. */
  function AfterFindAndEnd(raw: Raw, tabId: int, windowId: int, now: int): Raw {
    match FirstOpenAnywhere(raw, tabId, Some(windowId))
    case None => raw
    case Some(p) => SetSession(raw, p.0, p.1, EndWhole(raw[p.0].0, raw[p.0].1[p.1].1, now))
  }

  /**
   * `findAndEndSession` ends something exactly when the tab has an open
   * session in that window; it ends the first one (its open focus first,
   * then the session itself) and touches no other session.
   */
  lemma FindAndEndEffect(raw: Raw, tabId: int, windowId: int, now: int)
    requires WellFormed(raw) && now != 0
    ensures var r := AfterFindAndEnd(raw, tabId, windowId, now);
      && (!TabHasOpenSession(raw, tabId, Some(windowId)) ==> r == raw)
      && (TabHasOpenSession(raw, tabId, Some(windowId)) ==>
            var p := FirstOpenAnywhere(raw, tabId, Some(windowId)).value;
            var s := raw[p.0].1[p.1].1;
            && SameShape(raw, r)
            && r[p.0].1[p.1].1.end == Some(now) && r[p.0].1[p.1].1.total == Some(now - s.start)
            && (AtMostOneOpenFocus(s) ==> !HasOpenFocus(r[p.0].1[p.1].1.focus))
            && (forall i, j :: 0 <= i < |raw| && 0 <= j < |raw[i].1| && (i, j) != p ==> r[i].1[j] == raw[i].1[j]))
  {
    FirstOpenAnywhereFinds(raw, tabId, Some(windowId));
    if TabHasOpenSession(raw, tabId, Some(windowId)) {
      var p := FirstOpenAnywhere(raw, tabId, Some(windowId)).value;
      FindAndEndAt(raw, tabId, windowId, now, p);
      EndedTimes(raw[p.0].1[p.1].1, now);
      if AtMostOneOpenFocus(raw[p.0].1[p.1].1) {
        OnlyFocusClosed(raw[p.0].1[p.1].1, now);
      }
    }
  }

  /** `findAndEndSession` with the tab's first open session at `p`. */
  lemma FindAndEndAt(raw: Raw, tabId: int, windowId: int, now: int, p: (nat, nat))
    requires WellFormed(raw) && now != 0 && FirstOpenAnywhere(raw, tabId, Some(windowId)) == Some(p)
    ensures p.1 < |raw[p.0].1|
    ensures SameShape(raw, AfterFindAndEnd(raw, tabId, windowId, now))
    ensures AfterFindAndEnd(raw, tabId, windowId, now)[p.0].1[p.1].1 == CloseSession(CloseFirstFocus(raw[p.0].1[p.1].1, now), now)
    ensures forall i, j :: 0 <= i < |raw| && 0 <= j < |raw[i].1| && (i, j) != p ==>
      AfterFindAndEnd(raw, tabId, windowId, now)[i].1[j] == raw[i].1[j]
  {
    assert IsEligible(raw[p.0].0);
  }

  /** Ending a session stamps it with `now` and its whole duration; closing its focus leaves its start alone. */
  lemma EndedTimes(s: Session, now: int)
    ensures CloseSession(CloseFirstFocus(s, now), now).end == Some(now)
    ensures CloseSession(CloseFirstFocus(s, now), now).total == Some(now - s.start)
  {
    match FirstOpenFocus(s.focus)
    case None =>
    case Some(j) =>
  }

  lemma FirstOpenAnywhereIs(raw: Raw, tabId: int, windowId: Option<int>, i: nat, j: nat)
    requires i < |raw| && FirstOpenFor(raw[i].1, tabId, windowId) == Some(j)
    requires forall k :: 0 <= k < i ==> FirstOpenFor(raw[k].1, tabId, windowId).None?
    ensures FirstOpenAnywhere(raw, tabId, windowId) == Some((i, j))
  {
    if i > 0 {
      FirstOpenAnywhereIs(raw[1..], tabId, windowId, i - 1, j);
    }
  }

  // ---------------------------------------------------------------------------
  // Facts the handler proofs share

  /** Where a (domain, session ID) pair that reads back lives. */
  lemma LookupPosition(raw: Raw, url: string, sid: string) returns (i: nat, j: nat)
    requires Lookup(raw, url, sid).Some?
    ensures i < |raw| && j < |raw[i].1| && raw[i].0 == url && raw[i].1[j].0 == sid
    ensures raw[i].1[j].1 == Lookup(raw, url, sid).value
  {
    i := IndexOf(raw, url).value;
    j := IndexOf(raw[i].1, sid).value;
  }

  /** In a well-formed store every position reads back under its keys. */
  lemma LookupAt(raw: Raw, i: nat, j: nat)
    requires WellFormed(raw) && i < |raw| && j < |raw[i].1|
    ensures Lookup(raw, raw[i].0, raw[i].1[j].0) == Some(raw[i].1[j].1)
  {
    IndexOfUnique(raw, i);
    IndexOfUnique(raw[i].1, j);
  }

  /** `b` differs from `a` at most in the focus entries of its sessions. */
  predicate FocusOnly(a: Raw, b: Raw) {
    && SameShape(a, b)
    && forall i, j :: 0 <= i < |a| && 0 <= j < |a[i].1| ==> b[i].1[j].1 == a[i].1[j].1.(focus := b[i].1[j].1.focus)
  }

  lemma FocusOnlyTrans(a: Raw, b: Raw, c: Raw)
    requires FocusOnly(a, b) && FocusOnly(b, c)
    ensures FocusOnly(a, c)
  {
  }

  lemma FirstOpenForSame(ss: Sessions, tt: Sessions, tabId: int, windowId: Option<int>)
    requires |ss| == |tt|
    requires forall j :: 0 <= j < |ss| ==> (OpenFor(ss[j].1, tabId, windowId) <==> OpenFor(tt[j].1, tabId, windowId))
    ensures FirstOpenFor(ss, tabId, windowId) == FirstOpenFor(tt, tabId, windowId)
  {
    match FirstOpenFor(ss, tabId, windowId)
    case None =>
    case Some(j) => FirstOpenForIs(tt, tabId, windowId, j);
  }

  /** Changing only focus entries changes no answer of `findActiveSessionId`. */
  lemma FocusOnlyFindActive(a: Raw, b: Raw, url: string, windowId: int, tabId: int)
    requires FocusOnly(a, b)
    ensures FindActive(a, url, windowId, tabId) == FindActive(b, url, windowId, tabId)
  {
    IndexOfSameKeys(a, b, url);
    if IndexOf(a, url).Some? {
      var i := IndexOf(a, url).value;
      FirstOpenForSame(a[i].1, b[i].1, tabId, Some(windowId));
    }
  }

  /** Changing only focus entries changes no scan for a tab's first open session. */
  lemma FocusOnlyScan(a: Raw, b: Raw, tabId: int, windowId: Option<int>)
    requires FocusOnly(a, b)
    ensures FirstOpenAnywhere(a, tabId, windowId) == FirstOpenAnywhere(b, tabId, windowId)
  {
    forall i | 0 <= i < |a|
      ensures FirstOpenFor(a[i].1, tabId, windowId) == FirstOpenFor(b[i].1, tabId, windowId)
    {
      FirstOpenForSame(a[i].1, b[i].1, tabId, windowId);
    }
    match FirstOpenAnywhere(a, tabId, windowId)
    case None =>
    case Some(p) => FirstOpenAnywhereIs(b, tabId, windowId, p.0, p.1);
  }

  /** Replacing one session by one that differs only in its focus entries. */
  lemma SetSessionFocusOnly(raw: Raw, i: nat, j: nat, s: Session)
    requires i < |raw| && j < |raw[i].1| && s == raw[i].1[j].1.(focus := s.focus)
    ensures FocusOnly(raw, SetSession(raw, i, j, s))
  {
  }

  /** `insertFocus(url, id)` on the session at (i, j). */
  lemma InsertFocusAt(raw: Raw, i: nat, j: nat, fid: string, now: int)
    requires WellFormed(raw) && i < |raw| && j < |raw[i].1|
    ensures var s := raw[i].1[j].1;
      AfterInsertFocus(raw, raw[i].0, raw[i].1[j].0, fid, now) == SetSession(raw, i, j, s.(focus := Put(s.focus, fid, NewFocus(now))))
  {
    var s := raw[i].1[j].1;
    PutPutAt(raw, i, j, s.(focus := Put(s.focus, fid, NewFocus(now))));
  }

  /** `insertFocus` and `endFocus` change only focus entries. */
  lemma FocusWritesFocusOnly(raw: Raw, url: string, sid: string, fid: string, now: int)
    requires WellFormed(raw)
    ensures FocusOnly(raw, AfterInsertFocus(raw, url, sid, fid, now))
    ensures FocusOnly(raw, AfterEndFocus(raw, url, sid, now))
  {
    if Lookup(raw, url, sid).Some? {
      var i, j := LookupPosition(raw, url, sid);
      var s := raw[i].1[j].1;
      InsertFocusAt(raw, i, j, fid, now);
      SetSessionFocusOnly(raw, i, j, s.(focus := Put(s.focus, fid, NewFocus(now))));
      EndFocusAt(raw, i, j, now);
      SetSessionFocusOnly(raw, i, j, CloseFirstFocus(s, now));
      SetSessionSame(raw, i, j);
    } else {
      assert AfterInsertFocus(raw, url, sid, fid, now) == raw;
      assert AfterEndFocus(raw, url, sid, now) == raw;
    }
  }

  /** Focus sweeps change only focus entries. */
  lemma FocusSweepFocusOnly(raw: Raw, sel: Selector, now: int)
    ensures FocusOnly(raw, AfterSweep(raw, EndFocusOnly, sel, now))
  {
    forall i, j | 0 <= i < |raw| && 0 <= j < |raw[i].1|
      ensures AfterSweep(raw, EndFocusOnly, sel, now)[i].1[j].1 == raw[i].1[j].1.(focus := AfterSweep(raw, EndFocusOnly, sel, now)[i].1[j].1.focus)
    {
      FocusSweepKeepsSessions(raw, sel, now, i, j);
    }
  }

  /** No session anywhere holds two open focus entries. */
  predicate AllAtMostOneOpenFocus(raw: Raw) {
    forall i, j :: 0 <= i < |raw| && 0 <= j < |raw[i].1| ==> AtMostOneOpenFocus(raw[i].1[j].1)
  }

  /** No open session the selector picks holds an open focus entry. */
  predicate NoFocusIn(raw: Raw, sel: Selector) {
    forall i, j :: 0 <= i < |raw| && 0 <= j < |raw[i].1| && Selects(sel, raw[i].1[j].1) && SessionOpen(raw[i].1[j].1) ==>
      !HasOpenFocus(raw[i].1[j].1.focus)
  }

  /** The selector never picks a session of this tab in this window. */
  predicate Spares(sel: Selector, tabId: int, windowId: int) {
    match sel
    case InWindowExcept(w, ex) => windowId != w || (ex.Some? && ex.value == tabId)
    case OutsideWindow(w) => windowId == w
    case Everywhere => false
  }

  /** `insertSession` adds a session without focus: both focus disciplines survive it. */
  lemma InsertSessionKeepsFocus(raw: Raw, url: string, sid: string, tabId: int, windowId: int, now: int, sel: Selector)
    requires WellFormed(raw)
    ensures var r := AfterInsertSession(raw, url, sid, tabId, windowId, now);
      && (AllAtMostOneOpenFocus(raw) ==> AllAtMostOneOpenFocus(r))
      && (NoFocusIn(raw, sel) ==> NoFocusIn(r, sel))
  {
    if IsEligible(url) {
      var ss := Get(raw, url).GetOr([]);
      var t := Put(ss, sid, NewSession(tabId, windowId, now));
      var r := Put(raw, url, t);
      PutPairs(raw, url, t);
      PutPairs(ss, sid, NewSession(tabId, windowId, now));
      forall i, j | 0 <= i < |r| && 0 <= j < |r[i].1|
        ensures r[i].1[j].1 == NewSession(tabId, windowId, now) || exists i', j' :: 0 <= i' < |raw| && 0 <= j' < |raw[i'].1| && r[i].1[j] == raw[i'].1[j']
      {
        if r[i] != (url, t) {
          assert r[i] == raw[i];
        } else if t[j] != (sid, NewSession(tabId, windowId, now)) {
          var i' := IndexOf(raw, url).value;
          assert ss == raw[i'].1;
          assert t[j] == ss[j];
        }
      }
    }
  }

  /** `insertFocus` on a session the selector spares keeps that selector's sessions without focus. */
  lemma InsertFocusKeepsNoFocus(raw: Raw, url: string, sid: string, fid: string, now: int, sel: Selector)
    requires WellFormed(raw) && NoFocusIn(raw, sel)
    requires Lookup(raw, url, sid).Some? ==> !Selects(sel, Lookup(raw, url, sid).value)
    ensures NoFocusIn(AfterInsertFocus(raw, url, sid, fid, now), sel)
  {
    if Lookup(raw, url, sid).Some? {
      var i, j := LookupPosition(raw, url, sid);
      InsertFocusAt(raw, i, j, fid, now);
    } else {
      assert AfterInsertFocus(raw, url, sid, fid, now) == raw;
    }
  }

  /** A focus put into a list with no open focus is the only open one. */
  lemma PutFocusOneOpen(fs: Assoc<Focus>, fid: string, f: Focus)
    requires !HasOpenFocus(fs)
    ensures forall a, b :: 0 <= a < b < |Put(fs, fid, f)| && FocusOpen(Put(fs, fid, f)[a].1) ==> !FocusOpen(Put(fs, fid, f)[b].1)
  {
    var t := Put(fs, fid, f);
    var q := match IndexOf(fs, fid) case Some(p) => p case None => |fs|;
    assert |t| == |fs| || |t| == |fs| + 1;
    assert forall k :: 0 <= k < |t| && k != q ==> k < |fs| && t[k] == fs[k];
    forall k | 0 <= k < |t| && k != q ensures !FocusOpen(t[k].1) {
      assert t[k] == fs[k];
    }
  }

  /**
   * `insertFocus` on a session without an open focus keeps "at most one open
   * focus" in every session.
   */
  lemma InsertFocusKeepsOneOpen(raw: Raw, url: string, sid: string, fid: string, now: int)
    requires WellFormed(raw) && AllAtMostOneOpenFocus(raw)
    requires Lookup(raw, url, sid).Some? ==> !HasOpenFocus(Lookup(raw, url, sid).value.focus)
    ensures AllAtMostOneOpenFocus(AfterInsertFocus(raw, url, sid, fid, now))
  {
    if Lookup(raw, url, sid).Some? {
      var i, j := LookupPosition(raw, url, sid);
      var s := raw[i].1[j].1;
      InsertFocusAt(raw, i, j, fid, now);
      PutFocusOneOpen(s.focus, fid, NewFocus(now));
    } else {
      assert AfterInsertFocus(raw, url, sid, fid, now) == raw;
    }
  }

  /** Writes under one domain leave every other domain's sessions as they were. */
  lemma WritesElsewhere(raw: Raw, url: string, sid: string, fid: string, tabId: int, windowId: int, now: int, other: string)
    requires other != url
    ensures Get(AfterInsertSession(raw, url, sid, tabId, windowId, now), other) == Get(raw, other)
    ensures Get(AfterInsertFocus(raw, url, sid, fid, now), other) == Get(raw, other)
    ensures Get(AfterEndSession(raw, url, sid, now), other) == Get(raw, other)
    ensures Get(AfterEndFocus(raw, url, sid, now), other) == Get(raw, other)
  {
    forall ss: Sessions ensures Get(Put(raw, url, ss), other) == Get(raw, other) {
      PutGetOther(raw, url, ss, other);
    }
  }

  /** `findActiveSessionId` reads only the sessions of its own domain. */
  lemma FindActiveLocal(a: Raw, b: Raw, url: string, windowId: int, tabId: int)
    requires Get(a, url) == Get(b, url)
    ensures FindActive(a, url, windowId, tabId) == FindActive(b, url, windowId, tabId)
  {
  }

  /** `endFocus` then `endURLSession` on the open session at (i, j). */
  lemma EndBothAt(raw: Raw, i: nat, j: nat, now: int)
    requires WellFormed(raw) && i < |raw| && j < |raw[i].1| && SessionOpen(raw[i].1[j].1)
    ensures var url, k := raw[i].0, raw[i].1[j].0;
      var r := AfterEndSession(AfterEndFocus(raw, url, k, now), url, k, now);
      r == SetSession(raw, i, j, EndWhole(url, raw[i].1[j].1, now)) && WellFormed(r)
  {
    var url, k, s := raw[i].0, raw[i].1[j].0, raw[i].1[j].1;
    EndFocusAt(raw, i, j, now);
    CloseFirstFocusKeys(s, now);
    SetSessionWellFormed(raw, i, j, CloseFirstFocus(s, now));
    var mid := SetSession(raw, i, j, CloseFirstFocus(s, now));
    EndSessionAt(mid, i, j, now);
    SetSessionTwice(raw, i, j, CloseFirstFocus(s, now), EndWhole(url, s, now));
    SetSessionWellFormed(raw, i, j, EndWhole(url, s, now));
  }
}
