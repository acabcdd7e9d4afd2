/**
 * The background script's reconciliation: compute whether a tab should be muted,
 * compare with its current mute flag, and write the flag only when they differ.
 */
module Sync {
  import opened Wrappers
  import opened Text
  import opened Matching

  /** A browser tab as the tabs API reports it; an absent `url` is "" and an absent `mutedInfo` is None. */
  datatype Tab = Tab(id: int, url: string, mutedInfo: Option<bool>)

  /** One `browser.tabs.update(tabId, {muted})` call. */
  datatype Update = Update(tabId: int, muted: bool)

  /** The events the background script listens to. An absent string field is "". */
  datatype Event =
    | Installed
    | TabUpdated(tabId: int, changedUrl: string, status: string, tab: Tab)
    | TabCreated(tab: Tab)
    | StorageChanged(areaName: string, prefixesChanged: bool)
    | Message(action: string)

  /** What a listener does with an event. */
  datatype Action = Ignore | Initialise | ProcessOne(tabId: int, url: string) | CheckAll

  /** The listeners' guards: which event reaches which reconciliation. */
  function Dispatch(ev: Event): (a: Action)
    ensures a.Initialise? <==> ev.Installed?
    ensures a.ProcessOne? <==>
      (ev.TabUpdated? && (ev.changedUrl != "" || ev.status == "complete")) || (ev.TabCreated? && ev.tab.url != "")
    ensures a.CheckAll? <==>
      (ev.StorageChanged? && ev.areaName == "local" && ev.prefixesChanged) || (ev.Message? && ev.action == "refreshTabs")
    ensures a.ProcessOne? && ev.TabUpdated? ==> a.tabId == ev.tabId && a.url == ev.tab.url
    ensures a.ProcessOne? && ev.TabCreated? ==> a.tabId == ev.tab.id && a.url == ev.tab.url
  {
    match ev
    case Installed => Initialise
    case TabUpdated(tabId, changedUrl, status, tab) =>
      if changedUrl != "" || status == "complete" then ProcessOne(tabId, tab.url) else Ignore
    case TabCreated(tab) => if tab.url != "" then ProcessOne(tab.id, tab.url) else Ignore
    case StorageChanged(areaName, prefixesChanged) =>
      if areaName == "local" && prefixesChanged then CheckAll else Ignore
    case Message(action) => if action == "refreshTabs" then CheckAll else Ignore
  }

  /** The diff step: a tab needs a write when it reports a mute flag that differs from the verdict. */
  predicate NeedsUpdate(t: Tab, shouldMute: bool) {
    t.mutedInfo.Some? && t.mutedInfo.value != shouldMute
  }

  /** A tab after the diff-then-act step: only its mute flag may change, and only to the verdict. */
  function Reconciled(t: Tab, shouldMute: bool): (r: Tab)
    ensures r.id == t.id && r.url == t.url
    ensures t.mutedInfo.None? ==> r == t
    ensures t.mutedInfo.Some? ==> r.mutedInfo == Some(shouldMute)
    ensures !NeedsUpdate(r, shouldMute)
  {
    if NeedsUpdate(t, shouldMute) then t.(mutedInfo := Some(shouldMute)) else t
  }

  /** A tab the full pass will write: it has a URL and its flag differs from the verdict for it. */
  predicate Pending(t: Tab, enabled: seq<string>) {
    t.url != "" && NeedsUpdate(t, UrlMatchesPrefix(t.url, enabled))
  }

  /**
   * What the full pass does to one tab: it keeps its id and URL, is left not pending, and
   * changes exactly when it was pending.
   */
  function Swept(t: Tab, enabled: seq<string>): (r: Tab)
    ensures r.id == t.id && r.url == t.url
    ensures !Pending(r, enabled)
    ensures r != t <==> Pending(t, enabled)
  {
    if t.url != "" then Reconciled(t, UrlMatchesPrefix(t.url, enabled)) else t
  }

  /** The tabs after a full pass, each swept in turn. */
  function ReconcileAll(tabs: seq<Tab>, enabled: seq<string>): (r: seq<Tab>)
    ensures |r| == |tabs|
  {
    if tabs == [] then []
    else ReconcileAll(tabs[..|tabs| - 1], enabled) + [Swept(tabs[|tabs| - 1], enabled)]
  }

  /** The updates a full pass issues, in tab order: one per pending tab, carrying its verdict. */
  function PlannedUpdates(tabs: seq<Tab>, enabled: seq<string>): (u: seq<Update>)
    ensures |u| <= |tabs|
  {
    if tabs == [] then []
    else
      var last := tabs[|tabs| - 1];
      PlannedUpdates(tabs[..|tabs| - 1], enabled)
      + if Pending(last, enabled) then [Update(last.id, UrlMatchesPrefix(last.url, enabled))] else []
  }

  /** The pass over one more tab: the earlier tabs as before, then the new tab swept. */
  lemma ReconcileAllSnoc(tabs: seq<Tab>, t: Tab, enabled: seq<string>)
    ensures ReconcileAll(tabs + [t], enabled) == ReconcileAll(tabs, enabled) + [Swept(t, enabled)]
  {
    assert (tabs + [t])[..|tabs|] == tabs;
  }

  /** The updates for one more tab: the earlier ones as before, then one for the new tab if it is pending. */
  lemma PlannedUpdatesSnoc(tabs: seq<Tab>, t: Tab, enabled: seq<string>)
    ensures PlannedUpdates(tabs + [t], enabled) == PlannedUpdates(tabs, enabled)
      + if Pending(t, enabled) then [Update(t.id, UrlMatchesPrefix(t.url, enabled))] else []
  {
    assert (tabs + [t])[..|tabs|] == tabs;
  }

  /** A full pass treats every tab on its own: position k of the result is tab k swept. */
  lemma {:induction false} ReconcileAllAt(tabs: seq<Tab>, enabled: seq<string>, k: int)
    requires 0 <= k < |tabs|
    ensures ReconcileAll(tabs, enabled)[k] == Swept(tabs[k], enabled)
  {
    var init := tabs[..|tabs| - 1];
    if k < |tabs| - 1 {
      ReconcileAllAt(init, enabled, k);
    }
  }

  /**
   * What a full pass does: tabs without a URL or without a mute flag are untouched; every
   * other tab keeps its id and URL and ends muted exactly when its URL matches an enabled prefix.
   */
  lemma ReconcileAllEffect(tabs: seq<Tab>, enabled: seq<string>, k: int)
    requires 0 <= k < |tabs|
    ensures ReconcileAll(tabs, enabled)[k].id == tabs[k].id && ReconcileAll(tabs, enabled)[k].url == tabs[k].url
    ensures tabs[k].url == "" || tabs[k].mutedInfo.None? ==> ReconcileAll(tabs, enabled)[k] == tabs[k]
    ensures tabs[k].url != "" && tabs[k].mutedInfo.Some? ==>
      ReconcileAll(tabs, enabled)[k].mutedInfo == Some(UrlMatchesPrefix(tabs[k].url, enabled))
  {
    ReconcileAllAt(tabs, enabled, k);
  }

  /** A pass issues no update at all exactly when no tab is pending. */
  lemma {:induction false} PlannedUpdatesEmpty(tabs: seq<Tab>, enabled: seq<string>)
    ensures PlannedUpdates(tabs, enabled) == [] <==> forall k :: 0 <= k < |tabs| ==> !Pending(tabs[k], enabled)
  {
    if tabs != [] {
      var init := tabs[..|tabs| - 1];
      PlannedUpdatesEmpty(init, enabled);
      assert forall k :: 0 <= k < |init| ==> init[k] == tabs[k];
    }
  }

  /** `u` is the update a full pass issues for tab `t`: the tab is pending and `u` carries its id and verdict. */
  predicate UpdateFor(t: Tab, enabled: seq<string>, u: Update) {
    Pending(t, enabled) && u == Update(t.id, UrlMatchesPrefix(t.url, enabled))
  }

  /** Every issued update is for a pending tab and carries that tab's verdict, and every pending tab gets one. */
  lemma {:induction false} PlannedUpdatesExact(tabs: seq<Tab>, enabled: seq<string>, u: Update)
    ensures u in PlannedUpdates(tabs, enabled) <==> exists k :: 0 <= k < |tabs| && UpdateFor(tabs[k], enabled, u)
  {
    if tabs != [] {
      var n := |tabs| - 1;
      var init, last := tabs[..n], tabs[n];
      var tail := if Pending(last, enabled) then [Update(last.id, UrlMatchesPrefix(last.url, enabled))] else [];
      assert PlannedUpdates(tabs, enabled) == PlannedUpdates(init, enabled) + tail;
      PlannedUpdatesExact(init, enabled, u);
      if u in PlannedUpdates(init, enabled) {
        var k :| 0 <= k < |init| && UpdateFor(init[k], enabled, u);
        assert tabs[k] == init[k];
      } else if u in tail {
        assert UpdateFor(tabs[n], enabled, u);
      }
      if exists k :: 0 <= k < |tabs| && UpdateFor(tabs[k], enabled, u) {
        var k :| 0 <= k < |tabs| && UpdateFor(tabs[k], enabled, u);
        if k < n {
          assert init[k] == tabs[k];
        }
      }
    }
  }

  /** A full pass leaves nothing pending, so a second pass with no change in between issues nothing. */
  lemma ReconcileAllSettles(tabs: seq<Tab>, enabled: seq<string>)
    ensures PlannedUpdates(ReconcileAll(tabs, enabled), enabled) == []
  {
    var after := ReconcileAll(tabs, enabled);
    forall k | 0 <= k < |after| ensures !Pending(after[k], enabled) {
      ReconcileAllAt(tabs, enabled, k);
    }
    PlannedUpdatesEmpty(after, enabled);
  }

  /** A second full pass with no change in between leaves the tabs as the first left them. */
  lemma ReconcileAllIdempotent(tabs: seq<Tab>, enabled: seq<string>)
    ensures ReconcileAll(ReconcileAll(tabs, enabled), enabled) == ReconcileAll(tabs, enabled)
  {
    var once := ReconcileAll(tabs, enabled);
    var twice := ReconcileAll(once, enabled);
    forall k | 0 <= k < |tabs| ensures twice[k] == once[k] {
      ReconcileAllAt(tabs, enabled, k);
      ReconcileAllAt(once, enabled, k);
    }
  }

  /**
   * A new prefix over settled tabs: a pass mutes every tab with a URL and a mute flag whose
   * URL starts with the new prefix, and leaves every tab whose URL does not exactly as it was.
   */
  lemma NewPrefixMutesOnlyItsTabs(enabled: seq<string>, prefix: string, tabs: seq<Tab>, k: int)
    requires PlannedUpdates(tabs, enabled) == []
    requires 0 <= k < |tabs|
    ensures tabs[k].url != "" && tabs[k].mutedInfo.Some? && StartsWith(tabs[k].url, prefix) ==>
      ReconcileAll(tabs, enabled + [prefix])[k].mutedInfo == Some(true)
    ensures !StartsWith(tabs[k].url, prefix) ==> ReconcileAll(tabs, enabled + [prefix])[k] == tabs[k]
  {
    var t := tabs[k];
    ReconcileAllAt(tabs, enabled + [prefix], k);
    PlannedUpdatesEmpty(tabs, enabled);
    assert !Pending(t, enabled);
    if t.url != "" && StartsWith(t.url, prefix) {
      assert prefix in enabled + [prefix];
    }
    if !StartsWith(t.url, prefix) {
      assert UrlMatchesPrefix(t.url, enabled + [prefix]) == UrlMatchesPrefix(t.url, enabled);
    }
  }

  /** The same for a rule the editor adds: storing an enabled rule for `prefix` has this effect. */
  lemma AddedRuleMutesOnlyItsTabs(rules: seq<Rule>, prefix: string, tabs: seq<Tab>, k: int)
    requires PlannedUpdates(tabs, EnabledPrefixes(Some(rules))) == []
    requires 0 <= k < |tabs|
    ensures tabs[k].url != "" && tabs[k].mutedInfo.Some? && StartsWith(tabs[k].url, prefix) ==>
      ReconcileAll(tabs, EnabledPrefixes(Some(rules + [Rule(prefix, true)])))[k].mutedInfo == Some(true)
    ensures !StartsWith(tabs[k].url, prefix) ==>
      ReconcileAll(tabs, EnabledPrefixes(Some(rules + [Rule(prefix, true)])))[k] == tabs[k]
  {
    EnabledPrefixesAppendRule(rules, prefix);
    NewPrefixMutesOnlyItsTabs(EnabledPrefixes(Some(rules)), prefix, tabs, k);
  }

  /**
   * Whether a pass meets a pending tab whose update the host refuses; with no refused ids it
   * never does. `RefusedExact` states what it means.
   */
  function Refused(tabs: seq<Tab>, enabled: seq<string>, rejected: set<int>): (r: bool)
    ensures rejected == {} ==> !r
  {
    if tabs == [] then false
    else
      var last := tabs[|tabs| - 1];
      Refused(tabs[..|tabs| - 1], enabled, rejected) || (Pending(last, enabled) && last.id in rejected)
  }

  lemma RefusedSnoc(tabs: seq<Tab>, t: Tab, enabled: seq<string>, rejected: set<int>)
    ensures Refused(tabs + [t], enabled, rejected) == (Refused(tabs, enabled, rejected) || (Pending(t, enabled) && t.id in rejected))
  {
    assert (tabs + [t])[..|tabs|] == tabs;
  }

  /** A pass is refused exactly when some pending tab's update is refused. */
  lemma {:induction false} RefusedExact(tabs: seq<Tab>, enabled: seq<string>, rejected: set<int>)
    ensures Refused(tabs, enabled, rejected) <==>
      exists k :: 0 <= k < |tabs| && Pending(tabs[k], enabled) && tabs[k].id in rejected
  {
    if tabs != [] {
      var init := tabs[..|tabs| - 1];
      RefusedExact(init, enabled, rejected);
      assert forall k :: 0 <= k < |init| ==> init[k] == tabs[k];
    }
  }

  /** A pass refused on a prefix of the tabs is refused on all of them. */
  lemma RefusedAfter(tabs: seq<Tab>, i: int, enabled: seq<string>, rejected: set<int>)
    requires 0 <= i < |tabs| && Pending(tabs[i], enabled) && tabs[i].id in rejected
    ensures Refused(tabs, enabled, rejected)
  {
    RefusedExact(tabs, enabled, rejected);
  }

  /** No two tabs share an id. */
  ghost predicate DistinctIds(tabs: seq<Tab>) {
    forall i, j :: 0 <= i < j < |tabs| ==> tabs[i].id != tabs[j].id
  }

  /** A pass, complete or stopped after `i` tabs, keeps every tab's id, so the ids stay distinct. */
  lemma PassKeepsDistinctIds(tabs: seq<Tab>, i: int, enabled: seq<string>)
    requires 0 <= i <= |tabs| && DistinctIds(tabs)
    ensures DistinctIds(ReconcileAll(tabs[..i], enabled) + tabs[i..])
  {
    var after := ReconcileAll(tabs[..i], enabled) + tabs[i..];
    forall k | 0 <= k < |after| ensures after[k].id == tabs[k].id {
      if k < i {
        ReconcileAllAt(tabs[..i], enabled, k);
      }
    }
  }

  /** Splitting a sequence at position `i`. */
  lemma SplitAt<T>(s: seq<T>, i: int)
    requires 0 <= i < |s|
    ensures s[i..] == [s[i]] + s[i + 1..]
    ensures s[..i + 1] == s[..i] + [s[i]]
  {
  }

  /** Writing the element between two slices replaces just that element. */
  lemma UpdateMiddle<T>(front: seq<T>, x: T, y: T, back: seq<T>)
    ensures (front + [x] + back)[|front|] == x
    ensures (front + [x] + back)[|front| := y] == front + [y] + back
  {
  }

  /**
   * One step of a pass over `tabs`, with the first `i` tabs done: the tab at `i` is still the
   * original one, and sweeping it gives the state with `i + 1` tabs done.
   */
  lemma SweepStep(tabs: seq<Tab>, i: int, enabled: seq<string>, cur: seq<Tab>)
    requires 0 <= i < |tabs|
    requires cur == ReconcileAll(tabs[..i], enabled) + tabs[i..]
    ensures i < |cur| && cur[i] == tabs[i]
    ensures cur[i := Swept(tabs[i], enabled)] == ReconcileAll(tabs[..i + 1], enabled) + tabs[i + 1..]
  {
    var done, rest := ReconcileAll(tabs[..i], enabled), tabs[i + 1..];
    SplitAt(tabs, i);
    ReconcileAllSnoc(tabs[..i], tabs[i], enabled);
    assert cur == done + [tabs[i]] + rest;
    UpdateMiddle(done, tabs[i], Swept(tabs[i], enabled), rest);
  }

  /** The updates and the refusal verdict after one more step of a pass. */
  lemma PlanStep(tabs: seq<Tab>, i: int, enabled: seq<string>, rejected: set<int>)
    requires 0 <= i < |tabs|
    ensures PlannedUpdates(tabs[..i + 1], enabled) == PlannedUpdates(tabs[..i], enabled)
      + if Pending(tabs[i], enabled) then [Update(tabs[i].id, UrlMatchesPrefix(tabs[i].url, enabled))] else []
    ensures Refused(tabs[..i + 1], enabled, rejected) ==
      (Refused(tabs[..i], enabled, rejected) || (Pending(tabs[i], enabled) && tabs[i].id in rejected))
  {
    assert tabs[..i + 1] == tabs[..i] + [tabs[i]];
    PlannedUpdatesSnoc(tabs[..i], tabs[i], enabled);
    RefusedSnoc(tabs[..i], tabs[i], enabled, rejected);
  }

  /**
   * The invariant of a pass carried over one tab whose update is not refused: the tabs, the
   * issued updates and the refusal verdict are those of the pass over the first `i + 1` tabs.
   */
  lemma PassStep(tabs: seq<Tab>, i: int, enabled: seq<string>, rejected: set<int>,
                 cur: seq<Tab>, log: seq<Update>, base: seq<Update>)
    requires 0 <= i < |tabs|
    requires cur == ReconcileAll(tabs[..i], enabled) + tabs[i..]
    requires log == base + PlannedUpdates(tabs[..i], enabled)
    requires !Refused(tabs[..i], enabled, rejected)
    requires !(Pending(tabs[i], enabled) && tabs[i].id in rejected)
    ensures i < |cur| && cur[i] == tabs[i]
    ensures cur[i := Swept(tabs[i], enabled)] == ReconcileAll(tabs[..i + 1], enabled) + tabs[i + 1..]
    ensures (if Pending(tabs[i], enabled) then log + [Update(tabs[i].id, UrlMatchesPrefix(tabs[i].url, enabled))] else log)
      == base + PlannedUpdates(tabs[..i + 1], enabled)
    ensures !Refused(tabs[..i + 1], enabled, rejected)
  {
    SweepStep(tabs, i, enabled, cur);
    PlanStep(tabs, i, enabled, rejected);
  }

  /** A complete pass keeps the ids distinct. */
  lemma ReconcileAllKeepsDistinctIds(tabs: seq<Tab>, enabled: seq<string>)
    requires DistinctIds(tabs)
    ensures DistinctIds(ReconcileAll(tabs, enabled))
  {
    PassKeepsDistinctIds(tabs, |tabs|, enabled);
    assert tabs[..|tabs|] == tabs && tabs[|tabs|..] == [];
    assert ReconcileAll(tabs, enabled) + [] == ReconcileAll(tabs, enabled);
  }

  /** `browser.tabs.get(tabId)`: the position of the tab with that id, None when it has gone. */
  function FindTab(tabs: seq<Tab>, tabId: int): (r: Option<nat>)
    ensures r.Some? ==> r.value < |tabs| && tabs[r.value].id == tabId
    ensures r.None? <==> forall k :: 0 <= k < |tabs| ==> tabs[k].id != tabId
  {
    if tabs == [] then None
    else if tabs[0].id == tabId then Some(0)
    else match FindTab(tabs[1..], tabId)
      case Some(k) => Some(k + 1)
      case None =>
        assert forall k :: 1 <= k < |tabs| ==> tabs[k] == tabs[1..][k - 1];
        None
  }

  /**
   * What one `processTab` does to the tabs and the update log, given the verdict: a tab that
   * has gone, or whose flag already agrees, changes nothing; otherwise one update call is made,
   * and unless the host refuses it the tab's flag becomes the verdict.
   */
  predicate TabDone(before: seq<Tab>, after: seq<Tab>, log0: seq<Update>, log1: seq<Update>,
                    tabId: int, shouldMute: bool, rejected: set<int>) {
    match FindTab(before, tabId)
    case None => after == before && log1 == log0
    case Some(k) =>
      if NeedsUpdate(before[k], shouldMute) then
        && log1 == log0 + [Update(tabId, shouldMute)]
        && after == if tabId in rejected then before else before[k := Reconciled(before[k], shouldMute)]
      else
        after == before && log1 == log0
  }

  /**
   * What one `checkAllTabs` pass does to the tabs and the update log. When no pending tab's
   * update is refused, the tabs end as `ReconcileAll` says and the log grows by `PlannedUpdates`.
   * Otherwise the pass stops at the first refused tab `k`: the tabs before it are swept, it
   * and the later ones are untouched, and the log holds the calls for tabs up to and including `k`.
   */
  ghost predicate PassDone(before: seq<Tab>, after: seq<Tab>, log0: seq<Update>, log1: seq<Update>,
                           enabled: seq<string>, rejected: set<int>) {
    if !Refused(before, enabled, rejected) then
      && after == ReconcileAll(before, enabled)
      && log1 == log0 + PlannedUpdates(before, enabled)
    else
      exists k ::
        && 0 <= k < |before| && Pending(before[k], enabled) && before[k].id in rejected
        && !Refused(before[..k], enabled, rejected)
        && after == ReconcileAll(before[..k], enabled) + before[k..]
        && log1 == log0 + PlannedUpdates(before[..k + 1], enabled)
  }

  /** A pass stopped by the refused update of tab `k`, with the call for it logged, is as `PassDone` says. */
  lemma PassStopped(before: seq<Tab>, k: int, enabled: seq<string>, rejected: set<int>,
                    after: seq<Tab>, log0: seq<Update>, log1: seq<Update>)
    requires 0 <= k < |before| && Pending(before[k], enabled) && before[k].id in rejected
    requires !Refused(before[..k], enabled, rejected)
    requires after == ReconcileAll(before[..k], enabled) + before[k..]
    requires log1 == log0 + PlannedUpdates(before[..k], enabled) + [Update(before[k].id, UrlMatchesPrefix(before[k].url, enabled))]
    ensures Refused(before, enabled, rejected)
    ensures PassDone(before, after, log0, log1, enabled, rejected)
  {
    PlanStep(before, k, enabled, rejected);
    RefusedAfter(before, k, enabled, rejected);
  }

  /** A pass that met no refused update is as `PassDone` says, and leaves nothing pending. */
  lemma PassCompleted(before: seq<Tab>, enabled: seq<string>, rejected: set<int>,
                      after: seq<Tab>, log0: seq<Update>, log1: seq<Update>)
    requires !Refused(before, enabled, rejected)
    requires after == ReconcileAll(before, enabled) && log1 == log0 + PlannedUpdates(before, enabled)
    ensures PassDone(before, after, log0, log1, enabled, rejected)
    ensures PlannedUpdates(after, enabled) == []
  {
    ReconcileAllSettles(before, enabled);
  }

  /** Open tabs, the shared rule storage, and a record of every update call the background script makes. */
  class Browser {
    const storage: Storage
    var tabs: array<Tab>
    ghost var issued: seq<Update>

    /** The host never reports two open tabs with the same id. */
    ghost predicate Valid()
      reads this, tabs
    {
      DistinctIds(tabs[..])
    }

    constructor (storage: Storage, open: seq<Tab>)
      requires forall i, j :: 0 <= i < j < |open| ==> open[i].id != open[j].id
      ensures Valid() && fresh(tabs)
      ensures this.storage == storage && tabs[..] == open && issued == []
    {
      this.storage := storage;
      tabs := new Tab[|open|](i requires 0 <= i < |open| => open[i]);
      issued := [];
    }

    /**
     * `processTab(tabId, url)`: the verdict comes from the URL passed in; a tab that has gone
     * is left alone; otherwise only that tab's mute flag may change, and only when it differs
     * from the verdict. An update the host refuses (`rejected`) is called but changes nothing.
     */
    method ProcessTab(tabId: int, url: string, rejected: set<int>)
      requires Valid()
      modifies this`issued, tabs
      ensures Valid()
      ensures TabDone(old(tabs[..]), tabs[..], old(issued), issued, tabId,
                      UrlMatchesPrefix(url, EnabledPrefixes(storage.prefixes)), rejected)
      ensures url == "" ==> forall j :: |old(issued)| <= j < |issued| ==> !issued[j].muted
    {
      var enabled := EnabledPrefixes(storage.prefixes);
      var shouldMute := UrlMatchesPrefix(url, enabled);
      var found := FindTab(tabs[..], tabId);
      if found.None? {
        return;
      }
      var k := found.value;
      var tab := tabs[k];
      if tab.mutedInfo.Some? && tab.mutedInfo.value != shouldMute {
        issued := issued + [Update(tabId, shouldMute)];
        if tabId in rejected {
          return;
        }
        tabs[k] := tab.(mutedInfo := Some(shouldMute));
      }
    }

    /**
     * The loop body of `checkAllTabs` for the tab at position `i`: a pending tab gets an update
     * call; `refused` when the host refuses it, and then the tab keeps its flag.
     */
    method SweepTab(i: int, enabled: seq<string>, rejected: set<int>) returns (refused: bool)
      requires 0 <= i < tabs.Length
      modifies this`issued, tabs
      ensures refused == (Pending(old(tabs[i]), enabled) && old(tabs[i]).id in rejected)
      ensures tabs[..] == if refused then old(tabs[..]) else old(tabs[..])[i := Swept(old(tabs[i]), enabled)]
      ensures issued == if Pending(old(tabs[i]), enabled)
        then old(issued) + [Update(old(tabs[i]).id, UrlMatchesPrefix(old(tabs[i]).url, enabled))]
        else old(issued)
    {
      var tab := tabs[i];
      refused := false;
      if tab.url != "" {
        var shouldMute := UrlMatchesPrefix(tab.url, enabled);
        if tab.mutedInfo.Some? && tab.mutedInfo.value != shouldMute {
          issued := issued + [Update(tab.id, shouldMute)];
          if tab.id in rejected {
            refused := true;
            return;
          }
          tabs[i] := tab.(mutedInfo := Some(shouldMute));
        }
      }
    }

    /**
     * The loop of `checkAllTabs` with the enabled prefixes already read. The whole loop sits in
     * one try block, so the first update the host refuses ends the pass (`ok` false) with the
     * later tabs untouched; a pass that completes leaves every tab as `ReconcileAll` says and
     * nothing pending.
     */
    method SweepAll(enabled: seq<string>, rejected: set<int>) returns (ok: bool)
      modifies this`issued, tabs
      ensures ok == !Refused(old(tabs[..]), enabled, rejected)
      ensures PassDone(old(tabs[..]), tabs[..], old(issued), issued, enabled, rejected)
      ensures ok ==> PlannedUpdates(tabs[..], enabled) == []
    {
      ghost var before := tabs[..];
      ok := true;
      var i := 0;
      while i < tabs.Length
        invariant 0 <= i <= tabs.Length
        invariant tabs[..] == ReconcileAll(before[..i], enabled) + before[i..]
        invariant issued == old(issued) + PlannedUpdates(before[..i], enabled)
        invariant !Refused(before[..i], enabled, rejected)
      {
        ghost var cur, log := tabs[..], issued;
        var refused := SweepTab(i, enabled, rejected);
        if refused {
          ok := false;
          SweepStep(before, i, enabled, cur);
          PassStopped(before, i, enabled, rejected, tabs[..], old(issued), issued);
          return;
        }
        PassStep(before, i, enabled, rejected, cur, log, old(issued));
        i := i + 1;
      }
      assert before[..i] == before && before[i..] == [];
      PassCompleted(before, enabled, rejected, tabs[..], old(issued), issued);
    }

    /** `checkAllTabs`: one pass over the open tabs with the enabled prefixes read once. */
    method CheckAllTabs(rejected: set<int>) returns (ok: bool)
      requires Valid()
      modifies this`issued, tabs
      ensures Valid()
      ensures var enabled := EnabledPrefixes(storage.prefixes);
        ok == !Refused(old(tabs[..]), enabled, rejected)
      ensures PassDone(old(tabs[..]), tabs[..], old(issued), issued, EnabledPrefixes(storage.prefixes), rejected)
      ensures ok ==> PlannedUpdates(tabs[..], EnabledPrefixes(storage.prefixes)) == []
    {
      ghost var before := tabs[..];
      var enabled := EnabledPrefixes(storage.prefixes);
      ok := SweepAll(enabled, rejected);
      if ok {
        ReconcileAllKeepsDistinctIds(before, enabled);
      } else {
        ghost var k :| 0 <= k < |before| && tabs[..] == ReconcileAll(before[..k], enabled) + before[k..];
        PassKeepsDistinctIds(before, k, enabled);
      }
    }

    /**
     * The install listener: an absent rule list is initialised to empty (a stored empty list
     * is kept), then every tab is checked.
     */
    method OnInstalled(rejected: set<int>)
      requires Valid()
      modifies this`issued, tabs, storage
      ensures Valid()
      ensures storage.prefixes == if old(storage.prefixes).None? then Some([]) else old(storage.prefixes)
      ensures PassDone(old(tabs[..]), tabs[..], old(issued), issued, EnabledPrefixes(storage.prefixes), rejected)
      ensures var enabled := EnabledPrefixes(storage.prefixes);
        (forall k :: 0 <= k < tabs.Length && Pending(old(tabs[k]), enabled) ==> old(tabs[k]).id !in rejected)
        ==> tabs[..] == ReconcileAll(old(tabs[..]), enabled) && PlannedUpdates(tabs[..], enabled) == []
    {
      if storage.prefixes.None? {
        storage.prefixes := Some([]);
      }
      var ok := CheckAllTabs(rejected);
      RefusedExact(old(tabs[..]), EnabledPrefixes(storage.prefixes), rejected);
    }

    /**
     * Routes one event through the listeners' guards: a tab event runs `processTab` on the
     * tab and URL it carries, a rules change or refresh request runs `checkAllTabs`, install
     * runs the install listener, and everything else changes nothing.
     */
    method Handle(ev: Event, rejected: set<int>)
      requires Valid()
      modifies this`issued, tabs, storage
      ensures Valid()
      ensures storage.prefixes == if ev.Installed? && old(storage.prefixes).None? then Some([]) else old(storage.prefixes)
      ensures match Dispatch(ev)
        case Ignore => tabs[..] == old(tabs[..]) && issued == old(issued)
        case ProcessOne(tabId, url) =>
          TabDone(old(tabs[..]), tabs[..], old(issued), issued, tabId,
                  UrlMatchesPrefix(url, EnabledPrefixes(storage.prefixes)), rejected)
        case _ => PassDone(old(tabs[..]), tabs[..], old(issued), issued, EnabledPrefixes(storage.prefixes), rejected)
    {
      match Dispatch(ev)
      case Ignore =>
      case Initialise => OnInstalled(rejected);
      case ProcessOne(tabId, url) => ProcessTab(tabId, url, rejected);
      case CheckAll =>
        var ok := CheckAllTabs(rejected);
    }
  }

  /** Two full passes in a row: when the first completes, the second issues no update at all. */
  method RefreshTwice(b: Browser, rejected: set<int>) returns (first: bool, second: bool)
    requires b.Valid()
    modifies b`issued, b.tabs
    ensures first ==> second
    ensures first ==> b.issued == old(b.issued) + PlannedUpdates(old(b.tabs[..]), EnabledPrefixes(b.storage.prefixes))
  {
    first := b.CheckAllTabs(rejected);
    if first {
      ghost var mark := b.issued;
      PlannedUpdatesEmpty(b.tabs[..], EnabledPrefixes(b.storage.prefixes));
      second := b.CheckAllTabs(rejected);
      assert second && b.issued == mark;
    } else {
      second := b.CheckAllTabs(rejected);
    }
  }
}
