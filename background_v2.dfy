/**
 * The earlier handler set of background_v2.js. Its `Aux` and `Storage`
 * behave as those of fn.js (its `generateId` is a top-level function rather
 * than a member of `Aux`), and its onUpdated, onActivated,
 * onRemoved, windows.onFocusChanged, windows.onRemoved, onSuspend and
 * onInstalled are those of background.js with the `reason` argument
 * dropped, so the members of `Background` model them. It has no onStartup,
 * onDetached, onAttached or onReplaced. What differs is onCreated, which
 * never checks the tab's own URL: only the domain `getTLD` cuts from it
 * has to pass `isEligibleUrl`.
 */
module BackgroundV2 {
  import opened Wrappers
  import opened Assoc
  import opened Aux
  import opened Tracking
  import opened Storage
  import opened Background

  /** tabs.onCreated of background_v2.js: the tracking half of onCreated, unguarded. */
  method OnCreated(store: Store, tab: Tab, sid: Id, fid: Id, now: int)
    requires store.Valid()
    modifies store
    ensures store.Valid() && store.raw == AfterTrackCreated(old(store.raw), tab, sid, fid, now)
  {
    TrackCreated(store, tab, sid, fid, now);
  }

  /**
   * A tab whose own URL fails `isEligibleUrl` while the domain cut from it
   * passes (a browser page such as `chrome://settings`, whose host is
   * `settings`) is left alone by the onCreated of background.js but gets a
   * session from this one.
   */
  lemma OnCreatedTracksIneligibleTab(raw: Raw, tab: Tab, sid: Id, fid: Id, now: int)
    requires WellFormed(raw) && !IsEligible(tab.url.href) && IsEligible(GetTLD(tab.url))
    requires FindActive(raw, GetTLD(tab.url), tab.windowId, tab.id).None?
    ensures AfterOnCreated(raw, tab, sid, fid, now) == raw
    ensures Lookup(AfterTrackCreated(raw, tab, sid, fid, now), GetTLD(tab.url), sid).Some?
  {
    TrackCreatedEffect(raw, tab, sid, fid, now);
  }

  /** `chrome://settings` is such a tab URL: refused itself, its domain `settings` passes. */
  lemma SettingsPageDomain()
    ensures var url := Url("chrome://settings", Some("settings"));
      !IsEligible(url.href) && GetTLD(url) == "settings" && IsEligible(GetTLD(url))
  {
    var url := Url("chrome://settings", Some("settings"));
    assert StartsWith(url.href, IneligibleSchemes[0]);
    TLDSingleLabel(url.href, "settings");
    EligibleByFirstChar("settings");
  }
}
