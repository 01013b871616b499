/** The compositor as the daemon drives it: which monitor every workspace is on, what
    each monitor shows, and where every window is, with the requests of
    packages/hypr-workspaced/src/request.rs as steps on that state. */
module Compositor {
  import opened Text

  type Mon = nat
  type Window = nat

  /** What a request comes to, and what the compositor picks where it is free to:
      the workspace a monitor falls back to when the one it shows is taken away, and
      whether that one is shown where it went. When the replies run out the daemon is
      cut off. */
  datatype Reply = Done(fallback: int, shown: bool) | Refused

  /** No request is refused, until the daemon is cut off. */
  predicate AllServed(replies: seq<Reply>) {
    forall r :: r in replies ==> r.Done?
  }

  /** At most one reply was used up. */
  predicate OneUsed(before: seq<Reply>, after: seq<Reply>) {
    |after| >= |before| - 1 && (AllServed(before) ==> AllServed(after))
  }

  /** Every monitor shows a workspace that is on it, and every window is on a workspace. */
  ghost predicate Coherent(
    monitors: seq<Mon>, home: map<int, Mon>, active: map<Mon, int>, focused: Mon, windows: map<Window, int>,
    rules: map<int, Mon>)
  {
    && (forall i, j :: 0 <= i < j < |monitors| ==> monitors[i] != monitors[j])
    && (forall m :: m in active <==> m in monitors)
    && (forall m :: m in monitors ==> active[m] in home && home[active[m]] == m)
    && (forall ws :: ws in home ==> home[ws] in monitors)
    && (forall ws :: ws in rules ==> rules[ws] in monitors)
    && (forall w :: w in windows ==> windows[w] in home)
    && focused in monitors
  }

  lemma HomeCoherent(
    monitors: seq<Mon>, home: map<int, Mon>, active: map<Mon, int>, focused: Mon, windows: map<Window, int>,
    rules: map<int, Mon>, ws: int, m: Mon)
    requires Coherent(monitors, home, active, focused, windows, rules)
    requires m in monitors && (ws in home ==> home[ws] == m)
    ensures Coherent(monitors, home[ws := m], active, focused, windows, rules)
  {
  }

  lemma ShownCoherent(
    monitors: seq<Mon>, home: map<int, Mon>, active: map<Mon, int>, focused: Mon, windows: map<Window, int>,
    rules: map<int, Mon>, ws: int)
    requires Coherent(monitors, home, active, focused, windows, rules) && ws in home
    ensures Coherent(monitors, home, active[home[ws] := ws], home[ws], windows, rules)
  {
  }

  lemma WindowCoherent(
    monitors: seq<Mon>, home: map<int, Mon>, active: map<Mon, int>, focused: Mon, windows: map<Window, int>,
    rules: map<int, Mon>, w: Window, ws: int)
    requires Coherent(monitors, home, active, focused, windows, rules) && ws in home
    ensures Coherent(monitors, home, active, focused, windows[w := ws], rules)
  {
  }

  /** A workspace leaves its monitor, which shows `next` if it showed that workspace. */
  lemma MovedCoherent(
    monitors: seq<Mon>, home: map<int, Mon>, active: map<Mon, int>, focused: Mon, windows: map<Window, int>,
    rules: map<int, Mon>, ws: int, to: Mon, next: int)
    requires Coherent(monitors, home, active, focused, windows, rules) && to in monitors
    requires ws in home && home[ws] != to && next != ws && (next in home ==> home[next] == home[ws])
    ensures active[home[ws]] != ws ==> Coherent(monitors, home[ws := to], active, focused, windows, rules)
    ensures Coherent(monitors, home[ws := to][next := home[ws]], active[home[ws] := next], focused, windows, rules)
    ensures Coherent(
              monitors, home[ws := to][next := home[ws]], active[home[ws] := next][to := ws], focused, windows, rules)
  {
  }

  class Hyprland {
    const monitors: seq<Mon>
    var home: map<int, Mon>       // the monitor each workspace is on
    var active: map<Mon, int>     // the workspace each monitor shows
    var focused: Mon
    var windows: map<Window, int> // the workspace each window is on
    var rules: map<int, Mon>      // the monitor a workspace is bound to
    var replies: seq<Reply>
    ghost var failures: nat       // requests that were not carried out

    ghost predicate Valid()
      reads this
    {
      Coherent(monitors, home, active, focused, windows, rules)
    }

    constructor (
      monitors: seq<Mon>, home: map<int, Mon>, active: map<Mon, int>, focused: Mon, windows: map<Window, int>)
      ensures this.monitors == monitors && this.home == home && this.active == active && this.focused == focused
      ensures this.windows == windows && rules == map[]
    {
      this.monitors, this.home, this.active, this.focused, this.windows := monitors, home, active, focused, windows;
      this.rules, this.replies, this.failures := map[], [], 0;
    }

    method Send() returns (r: Option<Reply>)
      modifies this`replies
      ensures OneUsed(old(replies), replies)
      ensures AllServed(old(replies)) && old(replies) != [] ==> r.Some? && r.value.Done?
    {
      if replies == [] {
        return None;
      }
      assert replies[0] in replies && forall x :: x in replies[1..] ==> x in replies;
      r, replies := Some(replies[0]), replies[1..];
    }

    /** A new workspace appears on the monitor it is bound to, else on the focused one. */
    function BirthPlace(ws: int): Mon
      reads this
    {
      if ws in rules then rules[ws] else focused
    }

    /** Focus a workspace on the monitor that holds it. */
    method FocusWorkspace(ws: int) returns (ok: bool)
      requires Valid()
      modifies this`home, this`active, this`focused, this`replies, this`failures
      ensures Valid()
      ensures !ok ==> home == old(home) && active == old(active) && focused == old(focused)
      ensures ok ==> focused == (if ws in old(home) then old(home)[ws] else old(BirthPlace(ws))) &&
                     home == old(home)[ws := focused] && active == old(active)[focused := ws]
      ensures failures == old(failures) + if ok then 0 else 1
      ensures OneUsed(old(replies), replies) && (AllServed(old(replies)) && old(replies) != [] ==> ok)
    {
      var r := Send();
      ok := r.Some? && r.value.Done?;
      failures := failures + if ok then 0 else 1;
      if ok {
        var m := if ws in home then home[ws] else BirthPlace(ws);
        HomeCoherent(monitors, home, active, focused, windows, rules, ws, m);
        ShownCoherent(monitors, home[ws := m], active, focused, windows, rules, ws);
        home, active, focused := home[ws := m], active[m := ws], m;
      }
    }

    /** Whether a monitor that loses the workspace it shows may show `next` instead:
        another of its own, or a new one not bound to another monitor. */
    predicate MayFallBack(m: Mon, lost: int, next: int)
      reads this
    {
      next != lost && if next in home then home[next] == m else next in rules ==> rules[next] == m
    }

    /** Move a workspace to a monitor. */
    method MoveWorkspaceToMonitor(ws: int, to: Mon) returns (ok: bool)
      requires Valid() && to in monitors
      modifies this`home, this`active, this`replies, this`failures
      ensures Valid()
      ensures !ok ==> home == old(home) && active == old(active)
      ensures ok ==> ws in old(home) && ws in home && home[ws] == to
      ensures forall w :: w in old(home) && w != ws ==> w in home && home[w] == old(home)[w]
      ensures forall w :: w in home && w !in old(home) ==>
                ws in old(home) && home[w] == old(home)[ws] && (w in rules ==> rules[w] == home[w])
      ensures forall m :: m in monitors && old(active)[m] != ws && m != to ==> active[m] == old(active)[m]
      ensures failures == old(failures) + if ok then 0 else 1
    {
      var r := Send();
      ok := r.Some? && r.value.Done? && ws in home;
      if ok && home[ws] != to {
        ok := Relocate(ws, to, r.value.fallback, r.value.shown);
      }
      failures := failures + if ok then 0 else 1;
    }

    method Relocate(ws: int, to: Mon, fallback: int, shown: bool) returns (ok: bool)
      requires Valid() && to in monitors && ws in home && home[ws] != to
      modifies this`home, this`active
      ensures Valid()
      ensures !ok ==> home == old(home) && active == old(active)
      ensures ok ==> ws in home && home[ws] == to
      ensures forall w :: w in old(home) && w != ws ==> w in home && home[w] == old(home)[w]
      ensures forall w :: w in home && w !in old(home) ==>
                home[w] == old(home)[ws] && (w in rules ==> rules[w] == home[w])
      ensures forall m :: m in monitors && old(active)[m] != ws && m != to ==> active[m] == old(active)[m]
    {
      var from := home[ws];
      if active[from] != ws {
        MovedCoherent(monitors, home, active, focused, windows, rules, ws, to, active[from]);
        home := home[ws := to];
        return true;
      }
      if !MayFallBack(from, ws, fallback) {
        return false;
      }
      MovedCoherent(monitors, home, active, focused, windows, rules, ws, to, fallback);
      home := home[ws := to][fallback := from];
      active := active[from := fallback];
      if shown {
        active := active[to := ws];
      }
      return true;
    }

    /** Move a window to a workspace, which appears if it has to. */
    method MoveWindow(w: Window, ws: int, follow: bool) returns (ok: bool)
      requires Valid()
      modifies this`home, this`active, this`focused, this`windows, this`replies, this`failures
      ensures Valid()
      ensures ok ==> w in old(windows) && windows == old(windows)[w := ws]
      ensures !ok ==> windows == old(windows) && home == old(home) && active == old(active)
      ensures ok ==> home == if ws in old(home) then old(home) else old(home)[ws := old(BirthPlace(ws))]
      ensures !follow ==> active == old(active) && focused == old(focused)
      ensures failures == old(failures) + if ok then 0 else 1
    {
      var r := Send();
      ok := r.Some? && r.value.Done? && w in windows;
      failures := failures + if ok then 0 else 1;
      if ok {
        var m := if ws in home then home[ws] else BirthPlace(ws);
        HomeCoherent(monitors, home, active, focused, windows, rules, ws, m);
        WindowCoherent(monitors, home[ws := m], active, focused, windows, rules, w, ws);
        home, windows := home[ws := m], windows[w := ws];
        if follow {
          ShownCoherent(monitors, home, active, focused, windows, rules, ws);
          active, focused := active[m := ws], m;
        }
      }
    }

    /** Focus a window, which shows its workspace. */
    method FocusWindow(w: Window) returns (ok: bool)
      requires Valid()
      modifies this`active, this`focused, this`replies, this`failures
      ensures Valid()
      ensures !ok ==> active == old(active) && focused == old(focused)
      ensures ok ==> w in windows && focused == home[windows[w]] && active == old(active)[focused := windows[w]]
      ensures failures == old(failures) + if ok then 0 else 1
    {
      var r := Send();
      ok := r.Some? && r.value.Done? && w in windows;
      failures := failures + if ok then 0 else 1;
      if ok {
        var ws := windows[w];
        assert ws in home && home[ws] in monitors;
        focused := home[ws];
        active := active[focused := ws];
      }
    }

    /** Bind a workspace to a monitor. */
    method WorkspaceRule(ws: int, m: Mon) returns (ok: bool)
      requires Valid() && m in monitors
      modifies this`rules, this`replies, this`failures
      ensures Valid()
      ensures rules == if ok then old(rules)[ws := m] else old(rules)
      ensures failures == old(failures) + if ok then 0 else 1
    {
      var r := Send();
      ok := r.Some? && r.value.Done?;
      failures := failures + if ok then 0 else 1;
      if ok {
        rules := rules[ws := m];
      }
    }
  }
}
