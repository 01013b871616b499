/** Moving windows between monitors: `swap_monitor` and `collapse`
    (packages/hypr-workspaced/src/workspace.rs). */
module WindowMoves {
  import opened Text
  import opened WorkspaceIds
  import opened Compositor
  import opened MonitorSync
  import MonitorRegistry

  const BUFFER := 999

  // --- the neighbouring monitor -------------------------------------------------------

  datatype Placed = Placed(id: Mon, x: int)

  datatype Direction = Next | Prev

  function Insert(sorted: seq<Placed>, m: Placed): seq<Placed> {
    if sorted == [] || sorted[|sorted| - 1].x <= m.x then sorted + [m]
    else Insert(sorted[..|sorted| - 1], m) + [sorted[|sorted| - 1]]
  }

  /** A stable sort by horizontal position. */
  function ByPosition(ms: seq<Placed>): seq<Placed> {
    if ms == [] then [] else Insert(ByPosition(ms[..|ms| - 1]), ms[|ms| - 1])
  }

  function Position(ms: seq<Placed>, id: Mon): (n: nat)
    ensures n <= |ms| && (n < |ms| ==> ms[n].id == id)
    ensures forall i :: 0 <= i < n ==> ms[i].id != id
  {
    if ms == [] || ms[0].id == id then 0 else 1 + Position(ms[1..], id)
  }

  function Neighbour(ms: seq<Placed>, id: Mon, direction: Direction): Option<Placed> {
    var sorted := ByPosition(ms);
    var n := Position(sorted, id);
    if n == |sorted| then None
    else if direction == Next then if n + 1 < |sorted| then Some(sorted[n + 1]) else None
    else if n > 0 then Some(sorted[n - 1])
    else None
  }

  predicate DistinctIds(ms: seq<Placed>) {
    forall i, j :: 0 <= i < j < |ms| ==> ms[i].id != ms[j].id
  }

  predicate Ordered(ms: seq<Placed>) {
    forall i, j :: 0 <= i < j < |ms| ==> ms[i].x <= ms[j].x
  }

  lemma {:induction false} InsertFacts(sorted: seq<Placed>, m: Placed)
    requires Ordered(sorted) && DistinctIds(sorted) && forall p :: p in sorted ==> p.id != m.id
    ensures Ordered(Insert(sorted, m)) && DistinctIds(Insert(sorted, m))
    ensures forall p :: p in Insert(sorted, m) <==> p in sorted || p == m
  {
    if sorted != [] && sorted[|sorted| - 1].x > m.x {
      var n := |sorted| - 1;
      assert sorted == sorted[..n] + [sorted[n]];
      InsertFacts(sorted[..n], m);
      forall p | p in sorted[..n]
        ensures p.x <= sorted[n].x && p.id != sorted[n].id
      {
        var i :| 0 <= i < n && sorted[i] == p;
      }
      AppendFacts(Insert(sorted[..n], m), sorted[n]);
    }
  }

  lemma AppendFacts(sorted: seq<Placed>, last: Placed)
    requires Ordered(sorted) && DistinctIds(sorted)
    requires forall p :: p in sorted ==> p.x <= last.x && p.id != last.id
    ensures Ordered(sorted + [last]) && DistinctIds(sorted + [last])
  {
    assert forall i :: 0 <= i < |sorted| ==> sorted[i] in sorted;
  }

  lemma {:induction false} ByPositionFacts(ms: seq<Placed>)
    requires DistinctIds(ms)
    ensures Ordered(ByPosition(ms)) && DistinctIds(ByPosition(ms))
    ensures forall p :: p in ByPosition(ms) <==> p in ms
  {
    if ms != [] {
      var n := |ms| - 1;
      assert ms == ms[..n] + [ms[n]];
      ByPositionFacts(ms[..n]);
      assert forall p :: p in ByPosition(ms[..n]) ==> p.id != ms[n].id;
      InsertFacts(ByPosition(ms[..n]), ms[n]);
    }
  }

  function Back(direction: Direction): Direction {
    if direction == Next then Prev else Next
  }

  /** The neighbour is another connected monitor, on the asked side, and its neighbour
      on the other side is where one came from. */
  lemma NeighbourBack(ms: seq<Placed>, from: Placed, direction: Direction)
    requires DistinctIds(ms) && from in ms && Neighbour(ms, from.id, direction).Some?
    ensures var to := Neighbour(ms, from.id, direction).value;
            && to in ms && to.id != from.id
            && (if direction == Next then from.x <= to.x else to.x <= from.x)
            && Neighbour(ms, to.id, Back(direction)) == Some(from)
  {
    ByPositionFacts(ms);
    var sorted := ByPosition(ms);
    var i :| 0 <= i < |sorted| && sorted[i] == from;
    PositionAt(sorted, i);
    var j := if direction == Next then i + 1 else i - 1;
    PositionAt(sorted, j);
    assert sorted[j] in sorted;
  }

  lemma PositionAt(ms: seq<Placed>, i: nat)
    requires DistinctIds(ms) && i < |ms|
    ensures Position(ms, ms[i].id) == i
  {
    assert forall j :: 0 <= j < i ==> ms[j].id != ms[i].id;
  }

  // --- swapping -------------------------------------------------------------------------

  function Exchanged(ws: int, a: int, b: int): int {
    if ws == a then b else if ws == b then a else ws
  }

  /** Swapping twice, from either side, puts every window back. */
  lemma SwapTwice(ws: int, a: int, b: int)
    ensures Exchanged(Exchanged(ws, a, b), a, b) == ws
    ensures Exchanged(ws, a, b) == Exchanged(ws, b, a)
  {
  }

  function OnWorkspace(clients: seq<Window>, windows: map<Window, int>, ws: int): (r: seq<Window>)
    ensures forall w :: w in r <==> w in clients && w in windows && windows[w] == ws
  {
    if clients == [] then []
    else
      assert clients == [clients[0]] + clients[1..];
      (if clients[0] in windows && windows[clients[0]] == ws then [clients[0]] else []) +
      OnWorkspace(clients[1..], windows, ws)
  }

  /** The first `n` windows of the list are on `ws`, and no window that is not in it has moved. */
  predicate Moved(list: seq<Window>, n: nat, ws: int, before: map<Window, int>, now: map<Window, int>) {
    && now.Keys == before.Keys
    && (forall w :: w in now ==> now[w] == before[w] || (w in list && now[w] == ws))
    && (forall j :: 0 <= j < n && j < |list| ==> list[j] in now && now[list[j]] == ws)
  }

  lemma OneMovedMore(list: seq<Window>, n: nat, ws: int, before: map<Window, int>, now: map<Window, int>)
    requires n < |list| && Moved(list, n, ws, before, now) && list[n] in now
    ensures Moved(list, n + 1, ws, before, now[list[n] := ws])
  {
  }

  /** Move windows one by one; the first request that fails ends it. */
  method MoveAll(h: Hyprland, list: seq<Window>, ws: int) returns (ok: bool)
    requires h.Valid() && forall w :: w in list ==> w in h.windows
    modifies h`home, h`active, h`focused, h`windows, h`replies, h`failures
    ensures h.Valid() && h.active == old(h.active) && h.focused == old(h.focused)
    ensures Moved(list, 0, ws, old(h.windows), h.windows)
    ensures ok ==> Moved(list, |list|, ws, old(h.windows), h.windows)
    ensures h.failures == old(h.failures) + if ok then 0 else 1
  {
    for i := 0 to |list|
      invariant h.Valid() && h.active == old(h.active) && h.focused == old(h.focused)
      invariant Moved(list, i, ws, old(h.windows), h.windows)
      invariant h.failures == old(h.failures)
    {
      OneMovedMore(list, i, ws, old(h.windows), h.windows);
      ok := h.MoveWindow(list[i], ws, false);
      if !ok {
        return;
      }
    }
    return true;
  }

  /** Where a window of one of the two workspaces may be when the swap is cut off. */
  predicate InTransit(before: int, now: int, a: int, b: int) {
    if before == a then now == a || now == BUFFER || now == b
    else if before == b then now == b || now == a
    else now == before
  }

  /** The three loops of `swap_monitor`. When done, the windows of the two workspaces
      have changed places and no other has moved; cut off anywhere, none is lost. */
  method Exchange(h: Hyprland, a: int, b: int, clients: seq<Window>) returns (done: bool)
    requires h.Valid() && forall w :: w in clients <==> w in h.windows
    requires a != b
    modifies h`home, h`active, h`focused, h`windows, h`replies, h`failures
    ensures h.Valid() && h.windows.Keys == old(h.windows).Keys
    ensures h.active == old(h.active) && h.focused == old(h.focused)
    ensures AllInTransit(old(h.windows), h.windows, a, b)
    ensures done ==> Swapped(Between(a, b), old(h.windows), h.windows)
    ensures h.failures == old(h.failures) + if done then 0 else 1
  {
    var listA, listB := OnWorkspace(clients, h.windows, a), OnWorkspace(clients, h.windows, b);
    ghost var before := h.windows;
    done := MoveAll(h, listA, BUFFER);
    ghost var m1 := h.windows;
    FirstMoves(before, m1, listA, a, b);
    if done {
      done := MoveAll(h, listB, a);
      ghost var m2 := h.windows;
      SecondMoves(before, m1, m2, listA, listB, a, b);
      if done {
        done := MoveAll(h, listA, b);
        ThirdMoves(before, m1, m2, h.windows, listA, listB, a, b);
      }
    }
  }

  /** The list has exactly the windows of the workspace. */
  ghost predicate AreOn(list: seq<Window>, windows: map<Window, int>, ws: int) {
    forall w :: w in list <==> w in windows && windows[w] == ws
  }

  predicate AllInTransit(before: map<Window, int>, now: map<Window, int>, a: int, b: int) {
    now.Keys == before.Keys && forall w :: w in now ==> InTransit(before[w], now[w], a, b)
  }

  lemma FirstMoves(before: map<Window, int>, m1: map<Window, int>, listA: seq<Window>, a: int, b: int)
    requires AreOn(listA, before, a) && Moved(listA, 0, BUFFER, before, m1)
    ensures AllInTransit(before, m1, a, b)
  {
  }

  lemma SecondMoves(
    before: map<Window, int>, m1: map<Window, int>, m2: map<Window, int>, listA: seq<Window>, listB: seq<Window>,
    a: int, b: int)
    requires a != b && AreOn(listA, before, a) && AreOn(listB, before, b)
    requires Moved(listA, |listA|, BUFFER, before, m1) && Moved(listB, 0, a, m1, m2)
    ensures AllInTransit(before, m2, a, b)
  {
  }

  lemma ThirdMoves(
    before: map<Window, int>, m1: map<Window, int>, m2: map<Window, int>, m3: map<Window, int>, listA: seq<Window>,
    listB: seq<Window>, a: int, b: int)
    requires a != b && AreOn(listA, before, a) && AreOn(listB, before, b)
    requires Moved(listA, |listA|, BUFFER, before, m1) && Moved(listB, |listB|, a, m1, m2)
    requires Moved(listA, 0, b, m2, m3)
    ensures AllInTransit(before, m3, a, b)
    ensures Moved(listA, |listA|, b, m2, m3) ==> Swapped(Between(a, b), before, m3)
  {
    forall w | w in before
      ensures w in listB ==> m2[w] == a
      ensures w !in listA && w !in listB ==> m3[w] == before[w]
    {
    }
  }

  datatype Swap = Nothing | Between(a: int, b: int)

  /** Which workspaces are swapped: the one the focused monitor shows, if it is a virtual
      workspace, and the same virtual workspace of the neighbour, if there is one. */
  function SwapFor(
    layout: Layout, placed: seq<Placed>, active: map<Mon, int>, focused: Mon, direction: Direction): Swap
    requires focused in active
  {
    var target, v := Neighbour(placed, focused, direction), VirtualOf(active[focused]);
    if target.None? || v.None? then Nothing
    else Between(Target(layout, v.value, focused), Target(layout, v.value, target.value.id))
  }

  /** The lists the daemon read fit the compositor. */
  ghost predicate Listed(h: Hyprland, layout: Layout, placed: seq<Placed>, clients: seq<Window>)
    reads h
  {
    && DistinctSlots(layout, h.monitors)
    && (forall w :: w in clients <==> w in h.windows)
    && DistinctIds(placed)
    && (forall m :: m in h.monitors <==> exists p :: p in placed && p.id == m)
  }

  /** No window is lost, and each is where a swap that may have been cut off leaves it. */
  predicate Swapping(swap: Swap, before: map<Window, int>, now: map<Window, int>) {
    match swap
    case Nothing => now == before
    case Between(a, b) => AllInTransit(before, now, a, b)
  }

  /** Exactly the windows of the two workspaces have changed places. */
  predicate Swapped(swap: Swap, before: map<Window, int>, now: map<Window, int>) {
    match swap
    case Nothing => now == before
    case Between(a, b) => now.Keys == before.Keys && forall w :: w in now ==> now[w] == Exchanged(before[w], a, b)
  }

  /** `swap_monitor`. `placed` are the monitors with their positions, `clients` the list
      of all windows. */
  method SwapMonitor(h: Hyprland, layout: Layout, placed: seq<Placed>, clients: seq<Window>, direction: Direction)
    returns (done: bool, swap: Swap)
    requires h.Valid() && Listed(h, layout, placed, clients)
    modifies h`home, h`active, h`focused, h`windows, h`replies, h`failures
    ensures h.Valid() && Listed(h, layout, placed, clients)
    ensures h.active == old(h.active) && h.focused == old(h.focused)
    ensures swap == SwapFor(layout, placed, old(h.active), old(h.focused), direction)
    ensures Swapping(swap, old(h.windows), h.windows)
    ensures done ==> Swapped(swap, old(h.windows), h.windows)
    ensures h.failures == old(h.failures) + if done then 0 else 1
  {
    swap := PlanSwap(h, layout, placed, clients, direction);
    done := true;
    if swap.Between? {
      done := Exchange(h, swap.a, swap.b, clients);
    }
  }

  /** The first half of `swap_monitor`: which two workspaces, if any. */
  method PlanSwap(h: Hyprland, layout: Layout, placed: seq<Placed>, clients: seq<Window>, direction: Direction)
    returns (swap: Swap)
    requires h.Valid() && Listed(h, layout, placed, clients)
    ensures swap == SwapFor(layout, placed, h.active, h.focused, direction)
    ensures swap.Between? ==> swap.a != swap.b
  {
    NeighbourThere(placed, h.focused, direction);
    if |placed| < 2 {
      return Nothing;
    }
    var target := Neighbour(placed, h.focused, direction);
    if target.None? {
      return Nothing;
    }
    var v := VirtualOf(h.active[h.focused]);
    if v.None? {
      return Nothing;
    }
    assert target.value.id in h.monitors;
    IdInjective(v.value, SlotIn(layout, h.focused), v.value, SlotIn(layout, target.value.id));
    return Between(Target(layout, v.value, h.focused), Target(layout, v.value, target.value.id));
  }

  /** A neighbour is another one of the monitors, so there are two of them. */
  lemma NeighbourThere(ms: seq<Placed>, id: Mon, direction: Direction)
    requires DistinctIds(ms) && exists p :: p in ms && p.id == id
    ensures Neighbour(ms, id, direction).Some? ==>
              |ms| >= 2 && Neighbour(ms, id, direction).value in ms && Neighbour(ms, id, direction).value.id != id
  {
    if Neighbour(ms, id, direction).Some? {
      var from :| from in ms && from.id == id;
      NeighbourBack(ms, from, direction);
      var to := Neighbour(ms, id, direction).value;
      var i :| 0 <= i < |ms| && ms[i] == from;
      var j :| 0 <= j < |ms| && ms[j] == to;
      assert i != j;
    }
  }

  /** Swapping twice puts every window back. */
  method SwapMonitorTwice(h: Hyprland, layout: Layout, placed: seq<Placed>, clients: seq<Window>, direction: Direction)
    returns (done: bool)
    requires h.Valid() && Listed(h, layout, placed, clients)
    modifies h`home, h`active, h`focused, h`windows, h`replies, h`failures
    ensures h.Valid() && h.active == old(h.active) && h.focused == old(h.focused)
    ensures done ==> h.windows == old(h.windows)
    ensures h.failures == old(h.failures) + if done then 0 else 1
  {
    ghost var before := h.windows;
    var swap;
    done, swap := SwapMonitor(h, layout, placed, clients, direction);
    if done {
      ghost var mid := h.windows;
      var again;
      done, again := SwapMonitor(h, layout, placed, clients, direction);
      if done {
        SwappedBack(swap, before, mid, h.windows);
      }
    }
  }

  lemma SwappedBack(swap: Swap, before: map<Window, int>, mid: map<Window, int>, after: map<Window, int>)
    requires Swapped(swap, before, mid) && Swapped(swap, mid, after)
    ensures after == before
  {
    if swap.Between? {
      ExchangedBack(before, mid, after, swap.a, swap.b);
    }
  }

  lemma ExchangedBack(before: map<Window, int>, mid: map<Window, int>, after: map<Window, int>, a: int, b: int)
    requires before.Keys == mid.Keys == after.Keys
    requires forall w :: w in mid ==> mid[w] == Exchanged(before[w], a, b)
    requires forall w :: w in after ==> after[w] == Exchanged(mid[w], a, b)
    ensures after == before
  {
    forall w | w in before
      ensures after[w] == before[w]
    {
      SwapTwice(before[w], a, b);
    }
  }

  // --- collapsing -------------------------------------------------------------------------

  datatype Mode = All | Invisible

  predicate ShouldMove(mode: Mode, ws: int, current: int, monitors: nat) {
    && ws > 0
    && match mode
       case All => VirtualOf(ws).Some? && VirtualOf(ws) == VirtualOf(current) && ws != current
       case Invisible => !IsValidWorkspace(ws, monitors)
  }

  /** Where `collapse` puts a window of workspace `ws`. */
  function Collapsed(mode: Mode, ws: int, current: int, monitors: nat): int {
    if ShouldMove(mode, ws, current, monitors) then current else ws
  }

  /** Those in the list are where `collapse` puts them, the others where they were. */
  predicate CollapsedSo(
    done: seq<Window>, mode: Mode, before: map<Window, int>, now: map<Window, int>, current: int, monitors: nat)
  {
    && now.Keys == before.Keys
    && forall w :: w in now ==>
         now[w] == if w in done then Collapsed(mode, before[w], current, monitors) else before[w]
  }

  lemma OneCollapsedMore(
    clients: seq<Window>, i: nat, mode: Mode, before: map<Window, int>, now: map<Window, int>, current: int,
    monitors: nat)
    requires i < |clients| && CollapsedSo(clients[..i], mode, before, now, current, monitors) && clients[i] in now
    ensures CollapsedSo(clients[..i + 1], mode, before,
              if ShouldMove(mode, before[clients[i]], current, monitors) then now[clients[i] := current] else now,
              current, monitors)
  {
    assert clients[..i + 1] == clients[..i] + [clients[i]];
  }

  /** `collapse`: every window that should move ends on the current workspace, and no
      other moves; when it is cut off some of them have moved. */
  method Collapse(h: Hyprland, mode: Mode, clients: seq<Window>) returns (ok: bool)
    requires h.Valid() && forall w :: w in clients <==> w in h.windows
    modifies h`home, h`active, h`focused, h`windows, h`replies, h`failures
    ensures h.Valid() && h.windows.Keys == old(h.windows).Keys
    ensures VirtualOf(old(h.active)[old(h.focused)]).None? ==> ok && h.windows == old(h.windows)
    ensures VirtualOf(old(h.active)[old(h.focused)]).Some? ==>
              var current := old(h.active)[old(h.focused)];
              && (ok ==> CollapsedSo(clients, mode, old(h.windows), h.windows, current, |h.monitors|))
              && exists n :: 0 <= n <= |clients| &&
                             CollapsedSo(clients[..n], mode, old(h.windows), h.windows, current, |h.monitors|)
    ensures h.failures == old(h.failures) + if ok then 0 else 1
  {
    var current := h.active[h.focused];
    if VirtualOf(current).None? {
      return true;
    }
    var windows := h.windows;
    for i := 0 to |clients|
      invariant h.Valid() && h.failures == old(h.failures)
      invariant CollapsedSo(clients[..i], mode, windows, h.windows, current, |h.monitors|)
    {
      assert clients[i] in clients;
      OneCollapsedMore(clients, i, mode, windows, h.windows, current, |h.monitors|);
      if ShouldMove(mode, windows[clients[i]], current, |h.monitors|) {
        ok := h.MoveWindow(clients[i], current, true);
        if !ok {
          return;
        }
      }
    }
    assert clients[..|clients|] == clients;
    return true;
  }

  /** The buffer counts as invisible exactly while there are fewer than 100 monitors. */
  lemma BufferIsInvisibleExactly(monitors: nat)
    ensures IsValidWorkspace(BUFFER, monitors) <==> monitors >= 100
  {
    IdRoundTrip(9, 99);
  }

  /** After a collapse nothing is on the buffer: what was is on the current workspace. */
  lemma BufferEmptied(
    clients: seq<Window>, mid: map<Window, int>, now: map<Window, int>, current: int, monitors: nat)
    requires CollapsedSo(clients, Invisible, mid, now, current, monitors) && forall w :: w in mid ==> w in clients
    requires monitors < 100 && current != BUFFER
    ensures BufferTo(current, mid, now)
  {
    BufferIsInvisibleExactly(monitors);
  }

  predicate BufferTo(current: int, mid: map<Window, int>, now: map<Window, int>) {
    forall w :: w in mid && w in now ==> now[w] != BUFFER && (mid[w] == BUFFER ==> now[w] == current)
  }

  /** A swap cut off at any request, and then a collapse. `mid` is where the swap left the
      windows: each where it was, on one of the swapped workspaces, or on the buffer.
      After the collapse every window of the buffer is on the current workspace, with
      those of other invisible workspaces, and all others are where the swap left them. */
  method SwapCutOffThenCollapse(
    h: Hyprland, layout: Layout, placed: seq<Placed>, clients: seq<Window>, direction: Direction, later: seq<Reply>)
    returns (done: bool, ok: bool, swap: Swap, ghost mid: map<Window, int>)
    requires h.Valid() && Listed(h, layout, placed, clients)
    requires |h.monitors| < 100 && VirtualOf(h.active[h.focused]).Some? && h.active[h.focused] != BUFFER
    modifies h`home, h`active, h`focused, h`windows, h`replies, h`failures
    ensures h.Valid() && h.windows.Keys == old(h.windows).Keys
    ensures swap == SwapFor(layout, placed, old(h.active), old(h.focused), direction)
    ensures Swapping(swap, old(h.windows), mid) && (done ==> Swapped(swap, old(h.windows), mid))
    ensures ok ==> CollapsedSo(clients, Invisible, mid, h.windows, old(h.active)[old(h.focused)], |h.monitors|)
    ensures ok ==> BufferTo(old(h.active)[old(h.focused)], mid, h.windows)
    ensures h.failures == old(h.failures) + (if done then 0 else 1) + if ok then 0 else 1
  {
    done, swap := SwapMonitor(h, layout, placed, clients, direction);
    mid := h.windows;
    h.replies := later;
    ok := CollapseInvisible(h, clients);
  }

  method CollapseInvisible(h: Hyprland, clients: seq<Window>) returns (ok: bool)
    requires h.Valid() && forall w :: w in clients <==> w in h.windows
    requires |h.monitors| < 100 && VirtualOf(h.active[h.focused]).Some? && h.active[h.focused] != BUFFER
    modifies h`home, h`active, h`focused, h`windows, h`replies, h`failures
    ensures h.Valid() && h.windows.Keys == old(h.windows).Keys
    ensures ok ==> CollapsedSo(clients, Invisible, old(h.windows), h.windows, old(h.active[h.focused]), |h.monitors|)
    ensures ok ==> BufferTo(old(h.active[h.focused]), old(h.windows), h.windows)
    ensures h.failures == old(h.failures) + if ok then 0 else 1
  {
    ghost var mid, current := h.windows, h.active[h.focused];
    ok := Collapse(h, Invisible, clients);
    if ok {
      BufferEmptied(clients, mid, h.windows, current, |h.monitors|);
    }
  }

  /** `collapse` takes the number of monitors for a bound on their slots, but slots are
      permanent: it leaves the workspaces of all connected monitors alone exactly if
      their slots are below that number. */
  lemma CollapseSparesExactly(slots: seq<Slot>, monitors: nat, current: int)
    ensures (forall s, v: Virtual :: s in slots ==> !ShouldMove(Invisible, HyprlandId(v, s), current, monitors)) <==>
            forall s :: s in slots ==> s < monitors
  {
    forall s: Slot, v: Virtual | s in slots
      ensures ShouldMove(Invisible, HyprlandId(v, s), current, monitors) <==> s >= monitors
    {
      IdRoundTrip(v, s);
    }
    if s :| s in slots && s >= monitors {
      assert ShouldMove(Invisible, HyprlandId(1, s), current, monitors);
    }
  }

  /** Three monitors are plugged in for the first time, then the second is unplugged: a
      collapse on the first takes the windows of the third. */
  lemma GapIsCollapsed(file: Option<string>, all: seq<string>, now: seq<MonitorRegistry.Monitor>)
    requires MonitorRegistry.Loaded(file) == [] && |all| == 3
    requires MonitorRegistry.AllStorable(all) && MonitorRegistry.NoRepeats(all)
    requires |now| == 2 && MonitorRegistry.DistinctIds(now)
    requires now[0].description == all[0] && now[1].description == all[2]
    ensures var entries := MonitorRegistry.Registered(
                             MonitorRegistry.Loaded(MonitorRegistry.FileAfter(file, all)),
                             MonitorRegistry.Descriptions(now));
            var slots := MonitorRegistry.SlotsOf(entries, now);
            && now[0].id in slots && now[1].id in slots
            && ShouldMove(Invisible, HyprlandId(1, slots[now[1].id]), HyprlandId(1, slots[now[0].id]), |now|)
  {
    MonitorRegistry.GapInSlots(file, all, now);
    IdRoundTrip(1, 0);
    IdRoundTrip(1, 2);
  }
}
