/** Keeping all monitors on one virtual workspace
    (`assign_workspaces` and `sync_monitors`, packages/hypr-workspaced/src/workspace.rs). */
module MonitorSync {
  import opened Text
  import opened WorkspaceIds
  import opened Compositor

  type Layout = map<Mon, Slot>

  /** The slot of a monitor; one without falls back to its id, cast to a byte. */
  function SlotIn(layout: Layout, m: Mon): Slot {
    if m in layout then layout[m] else m % 256
  }

  function Target(layout: Layout, v: Virtual, m: Mon): int {
    HyprlandId(v, SlotIn(layout, m))
  }

  predicate DistinctSlots(layout: Layout, monitors: seq<Mon>) {
    forall a, b :: a in monitors && b in monitors && a != b ==> SlotIn(layout, a) != SlotIn(layout, b)
  }

  /** Every workspace of a monitor's slot is bound to it. */
  predicate Bound(h: Hyprland, layout: Layout)
    reads h
  {
    forall m, v: Virtual :: m in h.monitors ==>
      Target(layout, v, m) in h.rules && h.rules[Target(layout, v, m)] == m
  }

  /** The virtual workspaces below `n` are bound on the slot of `m` to it. */
  predicate BoundBelow(rules: map<int, Mon>, layout: Layout, m: Mon, n: int) {
    forall v: Virtual :: v < n ==> Target(layout, v, m) in rules && rules[Target(layout, v, m)] == m
  }

  predicate FirstBound(rules: map<int, Mon>, layout: Layout, monitors: seq<Mon>, i: nat) {
    forall j :: 0 <= j < i && j < |monitors| ==> BoundBelow(rules, layout, monitors[j], 10)
  }

  lemma BindOneMore(rules: map<int, Mon>, layout: Layout, monitors: seq<Mon>, i: nat, n: Virtual)
    requires i < |monitors| && DistinctSlots(layout, monitors)
    requires forall j, k :: 0 <= j < k < |monitors| ==> monitors[j] != monitors[k]
    requires FirstBound(rules, layout, monitors, i) && BoundBelow(rules, layout, monitors[i], n)
    ensures var next := rules[Target(layout, n, monitors[i]) := monitors[i]];
            FirstBound(next, layout, monitors, i) && BoundBelow(next, layout, monitors[i], n + 1)
  {
    var m := monitors[i];
    var next := rules[Target(layout, n, m) := m];
    forall j, v: Virtual | 0 <= j < i
      ensures Target(layout, v, monitors[j]) in next && next[Target(layout, v, monitors[j])] == monitors[j]
    {
      assert BoundBelow(rules, layout, monitors[j], 10);
      IdInjective(v, SlotIn(layout, monitors[j]), n, SlotIn(layout, m));
    }
  }

  /** The first half of `assign_workspaces`: bind nine workspaces to every monitor. */
  method BindWorkspaces(h: Hyprland, layout: Layout) returns (ok: bool)
    requires h.Valid() && DistinctSlots(layout, h.monitors)
    modifies h`rules, h`replies, h`failures
    ensures h.Valid()
    ensures ok ==> Bound(h, layout)
    ensures h.failures >= old(h.failures) && (ok <==> h.failures == old(h.failures))
  {
    for i := 0 to |h.monitors|
      invariant h.Valid() && h.failures == old(h.failures)
      invariant FirstBound(h.rules, layout, h.monitors, i)
    {
      for n := 1 to 10
        invariant h.Valid() && h.failures == old(h.failures)
        invariant FirstBound(h.rules, layout, h.monitors, i) && BoundBelow(h.rules, layout, h.monitors[i], n)
      {
        BindOneMore(h.rules, layout, h.monitors, i, n);
        ok := h.WorkspaceRule(Target(layout, n, h.monitors[i]), h.monitors[i]);
        if !ok {
          return;
        }
      }
    }
    AllBound(h, layout);
    return true;
  }

  lemma AllBound(h: Hyprland, layout: Layout)
    requires FirstBound(h.rules, layout, h.monitors, |h.monitors|)
    ensures Bound(h, layout)
  {
    forall m, v: Virtual | m in h.monitors
      ensures Target(layout, v, m) in h.rules && h.rules[Target(layout, v, m)] == m
    {
      var j :| 0 <= j < |h.monitors| && h.monitors[j] == m;
      assert BoundBelow(h.rules, layout, h.monitors[j], 10);
    }
  }

  /** Every monitor shows virtual workspace `v` on its own slot. */
  predicate Synced(monitors: seq<Mon>, active: map<Mon, int>, layout: Layout, v: Virtual) {
    forall m :: m in monitors ==> Shown(active, layout, v, m)
  }

  predicate Shown(active: map<Mon, int>, layout: Layout, v: Virtual, m: Mon) {
    m in active && active[m] == Target(layout, v, m)
  }

  /** A target is where the list of workspaces read before said it was; one that was
      not listed is nowhere, or on its own monitor. */
  predicate AsListed(home: map<int, Mon>, layout: Layout, v: Virtual, list: map<int, Mon>, m: Mon) {
    var t := Target(layout, v, m);
    if t in list then t in home && home[t] == list[t] else t in home ==> home[t] == m
  }

  lemma TargetsDiffer(layout: Layout, monitors: seq<Mon>, v: Virtual, a: Mon)
    requires DistinctSlots(layout, monitors) && a in monitors
    ensures forall b :: b in monitors && b != a ==> Target(layout, v, a) != Target(layout, v, b)
  {
    forall b | b in monitors && b != a
      ensures Target(layout, v, a) != Target(layout, v, b)
    {
      IdInjective(v, SlotIn(layout, a), v, SlotIn(layout, b));
    }
  }

  /** What `sync_monitors` may rely on: more than one monitor, distinct slots, bound workspaces. */
  predicate Ready(h: Hyprland, layout: Layout)
    reads h
  {
    |h.monitors| >= 2 && DistinctSlots(layout, h.monitors) && Bound(h, layout)
  }

  /** Monitors that showed their targets still do, but for `m`. */
  predicate KeepsShown(
    monitors: seq<Mon>, before: map<Mon, int>, after: map<Mon, int>, layout: Layout, v: Virtual, m: Mon)
  {
    forall o :: o in monitors && o != m && Shown(before, layout, v, o) ==> Shown(after, layout, v, o)
  }

  predicate KeepsListed(
    monitors: seq<Mon>, before: map<int, Mon>, after: map<int, Mon>, layout: Layout, v: Virtual,
    list: map<int, Mon>, m: Mon)
  {
    forall o :: o in monitors && o != m && AsListed(before, layout, v, list, o) ==> AsListed(after, layout, v, list, o)
  }

  /** The list has no other monitor for the target of `m`. */
  predicate InPlace(layout: Layout, v: Virtual, list: map<int, Mon>, m: Mon) {
    Target(layout, v, m) in list ==> list[Target(layout, v, m)] == m
  }

  predicate AllInPlace(layout: Layout, v: Virtual, list: map<int, Mon>, monitors: seq<Mon>, trigger: int) {
    forall m :: m in monitors ==> Target(layout, v, m) == trigger || InPlace(layout, v, list, m)
  }

  /** The target that is the triggering workspace, if there is one, is where the list said. */
  predicate OwnListed(
    monitors: seq<Mon>, home: map<int, Mon>, layout: Layout, v: Virtual, list: map<int, Mon>, trigger: int)
  {
    forall m :: m in monitors && Target(layout, v, m) == trigger ==> AsListed(home, layout, v, list, m)
  }

  /** A workspace is where it was; a new one that is bound to a monitor is there. */
  predicate Steady(rules: map<int, Mon>, before: map<int, Mon>, after: map<int, Mon>, ws: int) {
    && (ws in before ==> ws in after && after[ws] == before[ws])
    && (ws !in before && ws in after && ws in rules ==> after[ws] == rules[ws])
  }

  lemma SteadyTwice(rules: map<int, Mon>, a: map<int, Mon>, b: map<int, Mon>, c: map<int, Mon>, ws: int)
    requires Steady(rules, a, b, ws) && Steady(rules, b, c, ws)
    ensures Steady(rules, a, c, ws)
  {
  }

  /** Move the target of `m` to it if the list says it is elsewhere. */
  method Fetch(h: Hyprland, layout: Layout, v: Virtual, m: Mon, list: map<int, Mon>, ghost other: int)
    returns (ok: bool)
    requires h.Valid() && Ready(h, layout) && m in h.monitors && AsListed(h.home, layout, v, list, m)
    modifies h`home, h`active, h`replies, h`failures
    ensures h.Valid()
    ensures ok ==> Target(layout, v, m) in h.home ==> h.home[Target(layout, v, m)] == m
    ensures KeepsShown(h.monitors, old(h.active), h.active, layout, v, m)
    ensures KeepsListed(h.monitors, old(h.home), h.home, layout, v, list, m)
    ensures Target(layout, v, m) != other ==> Steady(h.rules, old(h.home), h.home, other)
    ensures h.failures >= old(h.failures) && (ok <==> h.failures == old(h.failures))
    ensures InPlace(layout, v, list, m) ==> ok && h.replies == old(h.replies)
  {
    ok := true;
    TargetsDiffer(layout, h.monitors, v, m);
    var t := Target(layout, v, m);
    if t in list && list[t] != m {
      ok := h.MoveWorkspaceToMonitor(t, m);
    }
  }

  method Show(h: Hyprland, layout: Layout, v: Virtual, m: Mon, ghost list: map<int, Mon>, ghost other: int)
    returns (ok: bool)
    requires h.Valid() && Ready(h, layout) && m in h.monitors
    modifies h`home, h`active, h`focused, h`replies, h`failures
    ensures h.Valid()
    ensures var t := Target(layout, v, m);
            ok && (t in old(h.home) ==> old(h.home)[t] == m) ==>
              Shown(h.active, layout, v, m) && KeepsShown(h.monitors, old(h.active), h.active, layout, v, m)
    ensures KeepsListed(h.monitors, old(h.home), h.home, layout, v, list, m)
    ensures Target(layout, v, m) != other ==> Steady(h.rules, old(h.home), h.home, other)
    ensures h.failures >= old(h.failures) && (ok <==> h.failures == old(h.failures))
    ensures OneUsed(old(h.replies), h.replies) && (AllServed(old(h.replies)) && old(h.replies) != [] ==> ok)
  {
    TargetsDiffer(layout, h.monitors, v, m);
    ok := h.FocusWorkspace(Target(layout, v, m));
  }

  /** One round of the loop: bring a monitor to its workspace, judging by the stale
      list of workspaces whether it has to be moved there first. A failed move is only
      logged; the focus request is sent all the same. */
  method Bring(h: Hyprland, layout: Layout, v: Virtual, m: Mon, list: map<int, Mon>, ghost other: int)
    returns (ok: bool)
    requires h.Valid() && Ready(h, layout) && m in h.monitors && AsListed(h.home, layout, v, list, m)
    modifies h`home, h`active, h`focused, h`replies, h`failures
    ensures h.Valid()
    ensures ok ==> Shown(h.active, layout, v, m) && KeepsShown(h.monitors, old(h.active), h.active, layout, v, m)
    ensures KeepsListed(h.monitors, old(h.home), h.home, layout, v, list, m)
    ensures Target(layout, v, m) != other ==> Steady(h.rules, old(h.home), h.home, other)
    ensures h.failures >= old(h.failures) && (ok <==> h.failures == old(h.failures))
    ensures InPlace(layout, v, list, m) ==>
              OneUsed(old(h.replies), h.replies) && (AllServed(old(h.replies)) && old(h.replies) != [] ==> ok)
  {
    ghost var home0 := h.home;
    var fetched := Fetch(h, layout, v, m, list, other);
    ghost var home1 := h.home;
    var shown := Show(h, layout, v, m, list, other);
    ok := fetched && shown;
    if Target(layout, v, m) != other {
      SteadyTwice(h.rules, home0, home1, h.home, other);
    }
  }

  /** The loop of `sync_monitors`: `active` and `list` were read before it. */
  method BringAll(
    h: Hyprland, layout: Layout, v: Virtual, trigger: int, active: map<Mon, int>, list: map<int, Mon>)
    returns (ok: bool)
    requires h.Valid() && Ready(h, layout) && active == h.active && list == h.home
    modifies h`home, h`active, h`focused, h`replies, h`failures
    ensures h.Valid()
    ensures ok ==> OthersShown(h.monitors, trigger, h.active, layout, v)
    ensures OwnListed(h.monitors, h.home, layout, v, list, trigger)
    ensures Steady(h.rules, old(h.home), h.home, trigger)
    ensures AllInPlace(layout, v, list, h.monitors, trigger) && AllServed(old(h.replies)) ==>
              |old(h.replies)| >= |h.monitors| ==> ok && LeftOver(old(h.replies), h.replies, |h.monitors|)
    ensures h.failures >= old(h.failures) && (ok <==> h.failures == old(h.failures))
  {
    var ms := h.monitors;
    ok := true;
    for i := 0 to |ms|
      invariant h.Valid()
      invariant OwnListed(ms, h.home, layout, v, list, trigger) && ListedFrom(ms, i, h.home, layout, v, list)
      invariant Steady(h.rules, old(h.home), h.home, trigger)
      invariant ok ==> ShownBefore(ms, i, trigger, h.active, layout, v) && ShownFrom(ms, i, active, h.active, layout, v)
      invariant AllInPlace(layout, v, list, ms, trigger) && AllServed(old(h.replies)) && |old(h.replies)| >= |ms| ==>
                  ok && LeftOver(old(h.replies), h.replies, i)
      invariant h.failures >= old(h.failures) && (ok <==> h.failures == old(h.failures))
    {
      ghost var had := h.home;
      var round := Turn(h, layout, v, trigger, i, active, list, ok);
      SteadyTwice(h.rules, old(h.home), had, h.home, trigger);
      ok := ok && round;
    }
  }

  /** A round, and what it means for the loop. */
  method Turn(
    h: Hyprland, layout: Layout, v: Virtual, trigger: int, i: nat, active: map<Mon, int>, list: map<int, Mon>,
    ghost sofar: bool)
    returns (ok: bool)
    requires h.Valid() && Ready(h, layout) && i < |h.monitors| && h.monitors[i] in active
    requires OwnListed(h.monitors, h.home, layout, v, list, trigger)
    requires ListedFrom(h.monitors, i, h.home, layout, v, list)
    requires sofar ==> ShownBefore(h.monitors, i, trigger, h.active, layout, v)
    requires sofar ==> ShownFrom(h.monitors, i, active, h.active, layout, v)
    modifies h`home, h`active, h`focused, h`replies, h`failures
    ensures h.Valid()
    ensures OwnListed(h.monitors, h.home, layout, v, list, trigger)
    ensures ListedFrom(h.monitors, i + 1, h.home, layout, v, list)
    ensures Steady(h.rules, old(h.home), h.home, trigger)
    ensures sofar && ok ==> ShownBefore(h.monitors, i + 1, trigger, h.active, layout, v)
    ensures sofar && ok ==> ShownFrom(h.monitors, i + 1, active, h.active, layout, v)
    ensures h.failures >= old(h.failures) && (ok <==> h.failures == old(h.failures))
    ensures Target(layout, v, h.monitors[i]) == trigger || InPlace(layout, v, list, h.monitors[i]) ==>
              OneUsed(old(h.replies), h.replies) && (AllServed(old(h.replies)) && old(h.replies) != [] ==> ok)
  {
    ghost var was, had := h.active, h.home;
    ok := Round(h, layout, v, trigger, h.monitors[i], active, list);
    if sofar && ok {
      RoundShows(h.monitors, i, trigger, active, was, h.active, layout, v);
    }
    RoundLists(h.monitors, i, had, h.home, layout, v, list);
  }

  /** All monitors but that of the trigger's slot show their targets. */
  predicate OthersShown(monitors: seq<Mon>, trigger: int, active: map<Mon, int>, layout: Layout, v: Virtual) {
    forall m :: m in monitors && Target(layout, v, m) != trigger ==> Shown(active, layout, v, m)
  }

  /** At most `n` replies were used up. */
  predicate LeftOver(before: seq<Reply>, after: seq<Reply>, n: nat) {
    |after| >= |before| - n && AllServed(after)
  }

  /** The monitors before the `i`th, but for that of the trigger's slot, show their targets. */
  predicate ShownBefore(ms: seq<Mon>, i: nat, trigger: int, now: map<Mon, int>, layout: Layout, v: Virtual) {
    forall j :: 0 <= j < i && j < |ms| && Target(layout, v, ms[j]) != trigger ==> Shown(now, layout, v, ms[j])
  }

  /** Those that showed them before the loop and are still to come show them now. */
  predicate ShownFrom(ms: seq<Mon>, i: nat, first: map<Mon, int>, now: map<Mon, int>, layout: Layout, v: Virtual) {
    forall j :: i <= j < |ms| && Shown(first, layout, v, ms[j]) ==> Shown(now, layout, v, ms[j])
  }

  predicate ListedFrom(ms: seq<Mon>, i: nat, home: map<int, Mon>, layout: Layout, v: Virtual, list: map<int, Mon>) {
    forall j :: i <= j < |ms| ==> AsListed(home, layout, v, list, ms[j])
  }

  lemma RoundShows(
    ms: seq<Mon>, i: nat, trigger: int, first: map<Mon, int>, was: map<Mon, int>, now: map<Mon, int>, layout: Layout,
    v: Virtual)
    requires i < |ms| && forall j, k :: 0 <= j < k < |ms| ==> ms[j] != ms[k]
    requires ShownBefore(ms, i, trigger, was, layout, v) && ShownFrom(ms, i, first, was, layout, v)
    requires Target(layout, v, ms[i]) == trigger || Shown(now, layout, v, ms[i]) ||
             (Shown(first, layout, v, ms[i]) && now == was)
    requires KeepsShown(ms, was, now, layout, v, ms[i])
    ensures ShownBefore(ms, i + 1, trigger, now, layout, v) && ShownFrom(ms, i + 1, first, now, layout, v)
  {
    forall j | 0 <= j < |ms| && j != i && Shown(was, layout, v, ms[j])
      ensures Shown(now, layout, v, ms[j])
    {
      assert ms[j] in ms && ms[j] != ms[i];
    }
  }

  lemma RoundLists(
    ms: seq<Mon>, i: nat, had: map<int, Mon>, home: map<int, Mon>, layout: Layout, v: Virtual, list: map<int, Mon>)
    requires i < |ms| && forall j, k :: 0 <= j < k < |ms| ==> ms[j] != ms[k]
    requires ListedFrom(ms, i, had, layout, v, list) && KeepsListed(ms, had, home, layout, v, list, ms[i])
    ensures ListedFrom(ms, i + 1, home, layout, v, list)
  {
    forall j | i < j < |ms|
      ensures AsListed(home, layout, v, list, ms[j])
    {
      assert ms[j] in ms && ms[j] != ms[i];
    }
  }

  method Round(
    h: Hyprland, layout: Layout, v: Virtual, trigger: int, m: Mon, active: map<Mon, int>, list: map<int, Mon>)
    returns (ok: bool)
    requires h.Valid() && Ready(h, layout) && m in h.monitors && m in active && AsListed(h.home, layout, v, list, m)
    modifies h`home, h`active, h`focused, h`replies, h`failures
    ensures h.Valid()
    ensures Target(layout, v, m) == trigger ==> h.home == old(h.home) && h.active == old(h.active)
    ensures ok ==> Target(layout, v, m) == trigger || Shown(h.active, layout, v, m) ||
                   (Shown(active, layout, v, m) && h.active == old(h.active))
    ensures ok ==> KeepsShown(h.monitors, old(h.active), h.active, layout, v, m)
    ensures KeepsListed(h.monitors, old(h.home), h.home, layout, v, list, m)
    ensures Steady(h.rules, old(h.home), h.home, trigger)
    ensures h.failures >= old(h.failures) && (ok <==> h.failures == old(h.failures))
    ensures Target(layout, v, m) == trigger || InPlace(layout, v, list, m) ==>
              OneUsed(old(h.replies), h.replies) && (AllServed(old(h.replies)) && old(h.replies) != [] ==> ok)
  {
    if Target(layout, v, m) == trigger || active[m] == Target(layout, v, m) {
      return true;
    }
    ok := Bring(h, layout, v, m, list, trigger);
  }

  /** Where pinned windows belong. A window on a special workspace is left alone. */
  predicate PinnedMoved(
    pinned: seq<(Window, Mon)>, before: map<Window, int>, after: map<Window, int>, layout: Layout, v: Virtual)
  {
    && (forall p :: p in pinned && p.0 in before && before[p.0] >= 0 ==>
          p.0 in after && after[p.0] == Target(layout, v, p.1))
    && OnlyPinnedMoved(pinned, before, after)
  }

  predicate OnlyPinnedMoved(pinned: seq<(Window, Mon)>, before: map<Window, int>, after: map<Window, int>) {
    && before.Keys == after.Keys
    && forall w :: w in before && (before[w] < 0 || forall p :: p in pinned ==> p.0 != w) ==> after[w] == before[w]
  }

  predicate DistinctWindows(pinned: seq<(Window, Mon)>) {
    forall i, j :: 0 <= i < j < |pinned| ==> pinned[i].0 != pinned[j].0
  }

  lemma OnePinnedMore(
    pinned: seq<(Window, Mon)>, i: nat, before: map<Window, int>, now: map<Window, int>, next: map<Window, int>,
    layout: Layout, v: Virtual)
    requires i < |pinned| && DistinctWindows(pinned) && PinnedMoved(pinned[..i], before, now, layout, v)
    requires var (w, m) := pinned[i];
             var t := Target(layout, v, m);
             next == if w in now && now[w] >= 0 && now[w] != t then now[w := t] else now
    ensures PinnedMoved(pinned[..i + 1], before, next, layout, v)
  {
    var (w, m) := pinned[i];
    assert pinned[..i + 1] == pinned[..i] + [pinned[i]];
    assert forall p :: p in pinned[..i] ==> p.0 != w;
  }

  /** The monitor a pinned window is on. */
  function PinnedTo(pinned: seq<(Window, Mon)>, w: Window): (m: Option<Mon>)
    ensures m.Some? ==> (w, m.value) in pinned
    ensures m.None? ==> forall p :: p in pinned ==> p.0 != w
  {
    if pinned == [] then None
    else if pinned[0].0 == w then assert pinned[0] in pinned; Some(pinned[0].1)
    else
      assert pinned == [pinned[0]] + pinned[1..];
      PinnedTo(pinned[1..], w)
  }

  /** The workspace that the window under the cursor will be on: a pinned one follows. */
  function WorkspaceAfter(
    pinned: seq<(Window, Mon)>, windows: map<Window, int>, layout: Layout, v: Virtual, under: Option<Window>):
    Option<int>
  {
    if under.None? || under.value !in windows then None
    else
      var ws, m := windows[under.value], PinnedTo(pinned, under.value);
      Some(if ws >= 0 && m.Some? then Target(layout, v, m.value) else ws)
  }

  lemma UnderFollows(
    pinned: seq<(Window, Mon)>, before: map<Window, int>, after: map<Window, int>, layout: Layout, v: Virtual,
    under: Option<Window>)
    requires PinnedMoved(pinned, before, after, layout, v)
    ensures WorkspaceAfter([], after, layout, v, under) == WorkspaceAfter(pinned, before, layout, v, under)
  {
  }

  /** No workspace has moved, and new ones are on the monitors they are bound to. */
  predicate HomeGrows(rules: map<int, Mon>, before: map<int, Mon>, after: map<int, Mon>) {
    && (forall ws :: ws in before ==> ws in after && after[ws] == before[ws])
    && (forall ws :: ws in after && ws !in before ==> ws in rules ==> after[ws] == rules[ws])
  }

  lemma ListedStill(
    h: Hyprland, layout: Layout, v: Virtual, before: map<int, Mon>, after: map<int, Mon>, list: map<int, Mon>, m: Mon)
    requires Bound(h, layout) && m in h.monitors && HomeGrows(h.rules, before, after)
    requires AsListed(before, layout, v, list, m)
    ensures AsListed(after, layout, v, list, m)
  {
  }

  /** Move the pinned windows to their monitors' targets. */
  method MovePinned(h: Hyprland, layout: Layout, v: Virtual, pinned: seq<(Window, Mon)>) returns (ok: bool)
    requires h.Valid() && Bound(h, layout) && forall p :: p in pinned ==> p.1 in h.monitors
    requires DistinctWindows(pinned)
    modifies h`home, h`active, h`focused, h`windows, h`replies, h`failures
    ensures h.Valid() && h.active == old(h.active) && h.focused == old(h.focused)
    ensures HomeGrows(h.rules, old(h.home), h.home)
    ensures OnlyPinnedMoved(pinned, old(h.windows), h.windows)
    ensures ok ==> PinnedMoved(pinned, old(h.windows), h.windows, layout, v)
    ensures h.failures >= old(h.failures) && (ok <==> h.failures == old(h.failures))
    ensures pinned == [] ==> ok && h.replies == old(h.replies)
  {
    ok := true;
    for i := 0 to |pinned|
      invariant h.Valid() && h.active == old(h.active) && h.focused == old(h.focused)
      invariant HomeGrows(h.rules, old(h.home), h.home)
      invariant pinned == [] ==> h.replies == old(h.replies)
      invariant PinnedMoved(pinned[..i], old(h.windows), h.windows, layout, v)
      invariant h.failures == old(h.failures)
    {
      var (w, m) := pinned[i];
      assert pinned[i] in pinned;
      var t := Target(layout, v, m);
      ghost var now := h.windows;
      if w in h.windows && h.windows[w] >= 0 && h.windows[w] != t {
        ok := h.MoveWindow(w, t, false);
        if !ok {
          return;
        }
      }
      OnePinnedMore(pinned, i, old(h.windows), now, h.windows, layout, v);
    }
    assert pinned[..|pinned|] == pinned;
  }

  lemma OwnListedStill(
    h: Hyprland, layout: Layout, v: Virtual, before: map<int, Mon>, after: map<int, Mon>, list: map<int, Mon>,
    trigger: int)
    requires Bound(h, layout) && HomeGrows(h.rules, before, after)
    requires OwnListed(h.monitors, before, layout, v, list, trigger)
    ensures OwnListed(h.monitors, after, layout, v, list, trigger)
  {
    forall m | m in h.monitors && Target(layout, v, m) == trigger
      ensures AsListed(after, layout, v, list, m)
    {
      ListedStill(h, layout, v, before, after, list, m);
    }
  }

  /** The monitor of the trigger's slot. */
  predicate Owns(layout: Layout, v: Virtual, monitors: seq<Mon>, trigger: int, m: Mon) {
    m in monitors && Target(layout, v, m) == trigger
  }

  /** No connected monitor has the trigger's slot. */
  predicate NoOwner(layout: Layout, v: Virtual, monitors: seq<Mon>, trigger: int) {
    forall m :: m in monitors ==> Target(layout, v, m) != trigger
  }

  /** The triggering workspace is on the monitor of its slot, which is connected, or
      nowhere. */
  predicate WellPlaced(layout: Layout, v: Virtual, monitors: seq<Mon>, trigger: int, list: map<int, Mon>) {
    exists m :: m in monitors && Target(layout, v, m) == trigger && (trigger in list ==> list[trigger] == m)
  }

  /** The end of `sync_monitors`: back to the triggering workspace. */
  method Refocus(h: Hyprland, layout: Layout, v: Virtual, trigger: int, ghost list: map<int, Mon>)
    returns (ok: bool)
    requires h.Valid() && Ready(h, layout) && OwnListed(h.monitors, h.home, layout, v, list, trigger)
    modifies h`home, h`active, h`focused, h`replies, h`failures
    ensures h.Valid() && OwnListed(h.monitors, h.home, layout, v, list, trigger)
    ensures ok ==> h.active == old(h.active)[h.focused := trigger] && h.home == old(h.home)[trigger := h.focused]
    ensures Steady(h.rules, old(h.home), h.home, trigger)
    ensures h.failures >= old(h.failures) && (ok <==> h.failures == old(h.failures))
    ensures AllServed(old(h.replies)) && old(h.replies) != [] ==> ok
  {
    ok := true;
    if h.active[h.focused] != trigger {
      OwnBorn(h, layout, v, list, trigger);
      ok := h.FocusWorkspace(trigger);
    }
  }

  /** Where the triggering workspace is, or where it appears, is as the list says. */
  lemma OwnBorn(h: Hyprland, layout: Layout, v: Virtual, list: map<int, Mon>, trigger: int)
    requires Bound(h, layout) && OwnListed(h.monitors, h.home, layout, v, list, trigger)
    ensures var m := if trigger in h.home then h.home[trigger] else h.BirthPlace(trigger);
            OwnListed(h.monitors, h.home[trigger := m], layout, v, list, trigger)
  {
    forall m | m in h.monitors && Target(layout, v, m) == trigger
      ensures trigger !in h.home ==> h.BirthPlace(trigger) == m
      ensures AsListed(h.home, layout, v, list, m)
    {
    }
  }

  /** The window under the cursor is on one of the targets. */
  predicate OnTarget(
    layout: Layout, v: Virtual, monitors: seq<Mon>, windows: map<Window, int>, under: Option<Window>)
  {
    under.Some? && under.value in windows && exists m :: m in monitors && windows[under.value] == Target(layout, v, m)
  }

  /** What the monitors show after the window under the cursor was focused. */
  function AfterCursor(
    layout: Layout, v: Virtual, monitors: seq<Mon>, home: map<int, Mon>, active: map<Mon, int>,
    windows: map<Window, int>, under: Option<Window>): map<Mon, int>
  {
    if OnTarget(layout, v, monitors, windows, under) && windows[under.value] in home
    then active[home[windows[under.value]] := windows[under.value]]
    else active
  }

  /** Focus the window under the cursor, if it is on one of the targets, shown or not. */
  method FocusUnderCursor(h: Hyprland, layout: Layout, v: Virtual, under: Option<Window>) returns (ok: bool)
    requires h.Valid()
    modifies h`active, h`focused, h`replies, h`failures
    ensures h.Valid()
    ensures ok ==> h.active == AfterCursor(layout, v, h.monitors, h.home, old(h.active), h.windows, under)
    ensures Synced(h.monitors, old(h.active), layout, v) ==> Synced(h.monitors, h.active, layout, v)
    ensures under.None? ==> ok && h.focused == old(h.focused)
    ensures h.failures >= old(h.failures) && (ok <==> h.failures == old(h.failures))
  {
    ok := true;
    if OnTarget(layout, v, h.monitors, h.windows, under) {
      ok := h.FocusWindow(under.value);
    }
  }

  /** The states of a run after its loop: what is shown then, and that a monitor `x` shows
      the trigger after the refocus. */
  ghost predicate Ending(
    layout: Layout, v: Virtual, monitors: seq<Mon>, home: map<int, Mon>, active: map<Mon, int>, x: Mon, trigger: int)
  {
    && DistinctSlots(layout, monitors) && OthersShown(monitors, trigger, active, layout, v)
    && x in monitors && trigger in home && home[trigger] == x
    && (forall m :: m in active <==> m in monitors)
    && (forall m :: m in monitors && m != x ==> active[m] in home && home[active[m]] == m)
  }

  /** With the monitor of the trigger's slot connected. */
  lemma OwnerEnds(
    layout: Layout, v: Virtual, monitors: seq<Mon>, home: map<int, Mon>, active: map<Mon, int>, x: Mon, trigger: int,
    windows: map<Window, int>, under: Option<Window>, list: map<int, Mon>, own: Mon)
    requires Ending(layout, v, monitors, home, active, x, trigger)
    requires Owns(layout, v, monitors, trigger, own) && OwnListed(monitors, home, layout, v, list, trigger)
    ensures var shown := AfterCursor(layout, v, monitors, home, active[x := trigger], windows, under);
            Synced(monitors, shown, layout, v) <==> WellPlaced(layout, v, monitors, trigger, list)
    ensures WellPlaced(layout, v, monitors, trigger, list) ==> x == own
  {
    var now := active[x := trigger];
    var shown := AfterCursor(layout, v, monitors, home, now, windows, under);
    TargetsDiffer(layout, monitors, v, own);
    assert AsListed(home, layout, v, list, own);
    if WellPlaced(layout, v, monitors, trigger, list) {
      assert x == own;
      CursorKeeps(layout, v, monitors, home, now, windows, under);
    } else {
      assert x != own;
      AwayStays(layout, v, monitors, home, now, windows, under, own, trigger);
    }
  }

  /** When all monitors show their targets, focusing a window on one changes nothing. */
  lemma CursorKeeps(
    layout: Layout, v: Virtual, monitors: seq<Mon>, home: map<int, Mon>, now: map<Mon, int>,
    windows: map<Window, int>, under: Option<Window>)
    requires Synced(monitors, now, layout, v) && forall m :: m in monitors ==> now[m] in home && home[now[m]] == m
    ensures AfterCursor(layout, v, monitors, home, now, windows, under) == now
  {
    if OnTarget(layout, v, monitors, windows, under) {
      var m :| m in monitors && windows[under.value] == Target(layout, v, m);
      assert Shown(now, layout, v, m) && home[windows[under.value]] == m;
    }
  }

  /** A workspace that is on another monitor is not shown on its own, whatever is focused. */
  lemma AwayStays(
    layout: Layout, v: Virtual, monitors: seq<Mon>, home: map<int, Mon>, now: map<Mon, int>,
    windows: map<Window, int>, under: Option<Window>, own: Mon, trigger: int)
    requires own in monitors && own in now && Target(layout, v, own) == trigger
    requires trigger in home && home[trigger] != own && now[own] != trigger
    ensures !Synced(monitors, AfterCursor(layout, v, monitors, home, now, windows, under), layout, v)
  {
    assert !Shown(AfterCursor(layout, v, monitors, home, now, windows, under), layout, v, own);
  }

  /** Without one, the monitor that shows the trigger is out of step, unless the window
      under the cursor brings it back. */
  lemma StrayEnds(
    layout: Layout, v: Virtual, monitors: seq<Mon>, home: map<int, Mon>, active: map<Mon, int>, x: Mon, trigger: int,
    windows: map<Window, int>, under: Option<Window>)
    requires Ending(layout, v, monitors, home, active, x, trigger)
    requires NoOwner(layout, v, monitors, trigger)
    requires Target(layout, v, x) in home && home[Target(layout, v, x)] == x
    ensures var shown := AfterCursor(layout, v, monitors, home, active[x := trigger], windows, under);
            Synced(monitors, shown, layout, v) <==>
              WorkspaceAfter([], windows, layout, v, under) == Some(Target(layout, v, x))
  {
    var now := active[x := trigger];
    var shown := AfterCursor(layout, v, monitors, home, now, windows, under);
    TargetsDiffer(layout, monitors, v, x);
    if WorkspaceAfter([], windows, layout, v, under) == Some(Target(layout, v, x)) {
      assert OnTarget(layout, v, monitors, windows, under);
      assert shown == now[x := Target(layout, v, x)];
      forall m | m in monitors
        ensures Shown(shown, layout, v, m)
      {
        assert Shown(active, layout, v, m);
      }
    } else {
      assert shown[x] == trigger by {
        if OnTarget(layout, v, monitors, windows, under) {
          var m :| m in monitors && windows[under.value] == Target(layout, v, m);
          assert m != x && Shown(active, layout, v, m) && home[Target(layout, v, m)] == m;
        }
      }
      assert !Shown(shown, layout, v, x);
    }
  }

  /** In step, exactly: the trigger is well placed; or it belongs to no connected monitor,
      and the window under the cursor, on workspace `under`, is on the target of the
      monitor `x` that shows the trigger, so that focusing it brings that monitor back. */
  predicate InStep(
    layout: Layout, v: Virtual, monitors: seq<Mon>, trigger: int, list: map<int, Mon>, x: Mon, under: Option<int>)
  {
    || WellPlaced(layout, v, monitors, trigger, list)
    || (NoOwner(layout, v, monitors, trigger) && under == Some(Target(layout, v, x)))
  }

  /** The monitor that a workspace is on in the end: where it was, or where it is bound
      to; else it is for the compositor to choose. */
  function EndsOn(home: map<int, Mon>, rules: map<int, Mon>, ws: int, chosen: Mon): Mon {
    if ws in home then home[ws] else if ws in rules then rules[ws] else chosen
  }

  lemma Ends(
    layout: Layout, v: Virtual, monitors: seq<Mon>, home0: map<int, Mon>, home: map<int, Mon>, active: map<Mon, int>,
    x: Mon, trigger: int, windows: map<Window, int>, under: Option<Window>, list: map<int, Mon>)
    requires Ending(layout, v, monitors, home, active, x, trigger)
    requires OwnListed(monitors, home, layout, v, list, trigger)
    requires home == home0[trigger := x] && forall m :: m in monitors ==> active[m] in home0 && home0[active[m]] == m
    ensures var shown := AfterCursor(layout, v, monitors, home, active[x := trigger], windows, under);
            Synced(monitors, shown, layout, v) <==>
              InStep(layout, v, monitors, trigger, list, x, WorkspaceAfter([], windows, layout, v, under))
    ensures WellPlaced(layout, v, monitors, trigger, list) ==> Owns(layout, v, monitors, trigger, x)
  {
    if NoOwner(layout, v, monitors, trigger) {
      assert Shown(active, layout, v, x);
      StrayEnds(layout, v, monitors, home, active, x, trigger, windows, under);
    } else {
      var own :| own in monitors && Target(layout, v, own) == trigger;
      OwnerEnds(layout, v, monitors, home, active, x, trigger, windows, under, list, own);
    }
  }

  /** `sync_monitors`, when there is something to do. */
  method SyncAll(
    h: Hyprland, layout: Layout, v: Virtual, pinned: seq<(Window, Mon)>, under: Option<Window>, trigger: int)
    returns (ok: bool)
    requires h.Valid() && Ready(h, layout)
    requires DistinctWindows(pinned) && forall p :: p in pinned ==> p.1 in h.monitors
    modifies h`home, h`active, h`focused, h`windows, h`replies, h`failures
    ensures h.Valid()
    ensures ok ==> trigger in h.home
    ensures ok ==> (Synced(h.monitors, h.active, layout, v) <==>
                    InStep(layout, v, h.monitors, trigger, old(h.home),
                           EndsOn(old(h.home), h.rules, trigger, h.home[trigger]),
                           WorkspaceAfter(pinned, old(h.windows), layout, v, under)))
    ensures ok && under.None? && WellPlaced(layout, v, h.monitors, trigger, old(h.home)) ==>
              Owns(layout, v, h.monitors, trigger, h.focused)
    ensures h.failures >= old(h.failures) && (ok <==> h.failures == old(h.failures))
    ensures OnlyPinnedMoved(pinned, old(h.windows), h.windows)
    ensures ok ==> PinnedMoved(pinned, old(h.windows), h.windows, layout, v)
    ensures pinned == [] && under.None? && AllInPlace(layout, v, old(h.home), h.monitors, trigger) ==>
              AllServed(old(h.replies)) && |old(h.replies)| > |h.monitors| ==> ok
  {
    ghost var list, windows := h.home, h.windows;
    var brought := BringAll(h, layout, v, trigger, h.active, h.home);
    ghost var had := h.home;
    var moved := MovePinned(h, layout, v, pinned);
    OwnListedStill(h, layout, v, had, h.home, list, trigger);
    SteadyTwice(h.rules, list, had, h.home, trigger);
    ghost var then_ := h.home;
    var ended := EndSync(h, layout, v, under, trigger, list);
    SteadyTwice(h.rules, list, then_, h.home, trigger);
    ok := brought && moved && ended;
    if ok {
      UnderFollows(pinned, windows, h.windows, layout, v, under);
    }
  }

  /** The end of `sync_monitors`: the trigger, and then the window under the cursor. */
  method EndSync(
    h: Hyprland, layout: Layout, v: Virtual, under: Option<Window>, trigger: int, ghost list: map<int, Mon>)
    returns (ok: bool)
    requires h.Valid() && Ready(h, layout) && OwnListed(h.monitors, h.home, layout, v, list, trigger)
    modifies h`home, h`active, h`focused, h`replies, h`failures
    ensures h.Valid()
    ensures ok && OthersShown(h.monitors, trigger, old(h.active), layout, v) ==>
              && trigger in h.home
              && (Synced(h.monitors, h.active, layout, v) <==>
                  InStep(layout, v, h.monitors, trigger, list, h.home[trigger],
                         WorkspaceAfter([], h.windows, layout, v, under)))
              && (under.None? && WellPlaced(layout, v, h.monitors, trigger, list) ==>
                    Owns(layout, v, h.monitors, trigger, h.focused))
    ensures Steady(h.rules, old(h.home), h.home, trigger)
    ensures h.failures >= old(h.failures) && (ok <==> h.failures == old(h.failures))
    ensures under.None? && AllServed(old(h.replies)) && old(h.replies) != [] ==> ok
  {
    ghost var home0, active := h.home, h.active;
    var back := Refocus(h, layout, v, trigger, list);
    ghost var x := h.focused;
    var seen := FocusUnderCursor(h, layout, v, under);
    ok := back && seen;
    if ok && OthersShown(h.monitors, trigger, active, layout, v) {
      Ends(layout, v, h.monitors, home0, h.home, active, x, trigger, h.windows, under, list);
    }
  }

  /** `sync_monitors`. `pinned` are the pinned windows with their monitors, `under` the
      window under the cursor. When all requests succeed, every monitor ends on the
      triggering virtual workspace exactly if the workspace that triggered it was on its
      own slot's monitor, which is connected, or nowhere; or if there is no such monitor,
      and the window under the cursor repairs it. All of this is told by the state before,
      but for where a workspace appears that is nowhere and not bound. */
  method SyncMonitors(
    h: Hyprland, layout: Layout, trigger: int, pinned: seq<(Window, Mon)>, under: Option<Window>)
    returns (ok: bool)
    requires h.Valid() && DistinctSlots(layout, h.monitors) && Bound(h, layout)
    requires DistinctWindows(pinned) && forall p :: p in pinned ==> p.1 in h.monitors
    modifies h`home, h`active, h`focused, h`windows, h`replies, h`failures
    ensures h.Valid()
    ensures VirtualOf(trigger).None? || |h.monitors| <= 1 ==> ok && unchanged(h)
    ensures h.failures >= old(h.failures) && (ok <==> h.failures == old(h.failures))
    ensures OnlyPinnedMoved(pinned, old(h.windows), h.windows)
    ensures VirtualOf(trigger).Some? && |h.monitors| > 1 && ok ==>
              var v := VirtualOf(trigger).value;
              && trigger in h.home
              && (Synced(h.monitors, h.active, layout, v) <==>
                  InStep(layout, v, h.monitors, trigger, old(h.home),
                         EndsOn(old(h.home), h.rules, trigger, h.home[trigger]),
                         WorkspaceAfter(pinned, old(h.windows), layout, v, under)))
              && PinnedMoved(pinned, old(h.windows), h.windows, layout, v)
              && (under.None? && WellPlaced(layout, v, h.monitors, trigger, old(h.home)) ==>
                    Owns(layout, v, h.monitors, trigger, h.focused))
    // When nothing has to be moved and no request is refused, it succeeds.
    ensures VirtualOf(trigger).Some? && pinned == [] && under.None? ==>
              AllInPlace(layout, VirtualOf(trigger).value, old(h.home), h.monitors, trigger) ==>
                AllServed(old(h.replies)) && |old(h.replies)| > |h.monitors| ==> ok
  {
    if VirtualOf(trigger).None? || |h.monitors| <= 1 {
      return true;
    }
    ok := SyncAll(h, layout, VirtualOf(trigger).value, pinned, under, trigger);
  }

  // --- out of step -------------------------------------------------------------------------

  /** Two monitors, with every workspace bound to its slot's monitor, but workspace 1,
      which belongs to the first, on the second and shown there. */
  method AwayTrigger(replies: seq<Reply>) returns (h: Hyprland, layout: Layout)
    ensures fresh(h) && h.Valid() && h.monitors == [0, 1] && h.replies == replies
    ensures layout == map[0 := 0, 1 := 1] && DistinctSlots(layout, h.monitors) && Bound(h, layout)
    ensures h.home == map[1 := 1, 2 := 0] && h.active == map[0 := 2, 1 := 1] && h.focused == 1
  {
    layout := map[0 := 0, 1 := 1];
    h := new Hyprland([0, 1], map[1 := 1, 2 := 0], map[0 := 2, 1 := 1], 1, map[]);
    h.replies := replies;
    BindAll(h, layout);
  }

  method BindAll(h: Hyprland, layout: Layout)
    requires h.Valid() && h.monitors == [0, 1] && layout == map[0 := 0, 1 := 1]
    modifies h`rules
    ensures h.Valid() && Bound(h, layout)
  {
    h.rules := map[];
    for n := 1 to 10
      invariant h.Valid()
      invariant forall v: Virtual, m :: v < n && m in h.monitors ==>
                  Target(layout, v, m) in h.rules && h.rules[Target(layout, v, m)] == m
    {
      forall v: Virtual
        ensures Target(layout, v, 0) == v && Target(layout, v, 1) == 10 + v
      {
      }
      h.rules := h.rules[n := 0][10 + n := 1];
    }
  }

  /** From there the monitors end out of step, although no request fails. */
  method OutOfStep(replies: seq<Reply>) returns (h: Hyprland, layout: Layout, ok: bool)
    requires AllServed(replies) && |replies| > 2
    ensures ok && |h.monitors| == 2 && !Synced(h.monitors, h.active, layout, 1)
  {
    h, layout := AwayTrigger(replies);
    AwayFacts(layout, h.home, h.monitors);
    ok := SyncMonitors(h, layout, 1, [], None);
  }

  lemma AwayFacts(layout: Layout, home: map<int, Mon>, monitors: seq<Mon>)
    requires layout == map[0 := 0, 1 := 1] && 11 !in home && forall m :: m in monitors ==> m <= 1
    ensures VirtualOf(1) == Some(1) && Target(layout, 1, 0) == 1
    ensures AllInPlace(layout, 1, home, monitors, 1)
  {
    AwayTargets(layout);
    forall m | m in monitors
      ensures Target(layout, 1, m) == 1 || InPlace(layout, 1, home, m)
    {
      assert m == 0 || m == 1;
    }
  }

  lemma AwayTargets(layout: Layout)
    requires layout == map[0 := 0, 1 := 1]
    ensures VirtualOf(1) == Some(1) && Target(layout, 1, 0) == 1 && Target(layout, 1, 1) == 11
  {
    IdRoundTrip(1, 0);
  }

  /** Two monitors that show the second virtual workspace, each its own. */
  method TwoMonitors(replies: seq<Reply>) returns (h: Hyprland, layout: Layout)
    ensures fresh(h) && h.Valid() && h.monitors == [0, 1] && h.replies == replies
    ensures layout == map[0 := 0, 1 := 1] && DistinctSlots(layout, h.monitors) && Bound(h, layout)
    ensures h.home == map[2 := 0, 12 := 1] && h.active == map[0 := 2, 1 := 12]
  {
    layout := map[0 := 0, 1 := 1];
    h := new Hyprland([0, 1], map[2 := 0, 12 := 1], map[0 := 2, 1 := 12], 0, map[]);
    h.replies := replies;
    BindAll(h, layout);
  }

  /** A trigger on the slot of an unplugged monitor, nowhere before, leaves them out of
      step too. */
  method StrayOutOfStep(replies: seq<Reply>) returns (h: Hyprland, layout: Layout, ok: bool)
    requires AllServed(replies) && |replies| > 2
    ensures ok && |h.monitors| == 2 && !Synced(h.monitors, h.active, layout, 1)
  {
    h, layout := TwoMonitors(replies);
    StrayFacts(layout, h.home, h.monitors);
    ok := SyncMonitors(h, layout, 21, [], None);
  }

  lemma StrayFacts(layout: Layout, home: map<int, Mon>, monitors: seq<Mon>)
    requires layout == map[0 := 0, 1 := 1] && 1 !in home && 11 !in home && forall m :: m in monitors ==> m <= 1
    ensures VirtualOf(21) == Some(1) && NoOwner(layout, 1, monitors, 21)
    ensures AllInPlace(layout, 1, home, monitors, 21)
  {
    AwayTargets(layout);
    IdRoundTrip(1, 2);
    forall m | m in monitors
      ensures Target(layout, 1, m) != 21 && InPlace(layout, 1, home, m)
    {
      assert m == 0 || m == 1;
    }
  }
}
