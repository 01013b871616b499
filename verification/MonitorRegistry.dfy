/** The registry of monitor descriptions, whose line numbers are the monitors' slots
    (packages/hypr-workspaced/src/workspace.rs). */
module MonitorRegistry {
  import opened Text
  import opened WorkspaceIds

  type Entries = seq<string>

  function NonEmpty(lines: seq<string>): Entries {
    if lines == [] then []
    else NonEmpty(lines[..|lines| - 1]) + if lines[|lines| - 1] != "" then [lines[|lines| - 1]] else []
  }

  /** The entries of the file; a file that cannot be read has none. */
  function Loaded(file: Option<string>): Entries {
    if file.None? then [] else NonEmpty(Lines(file.value))
  }

  function Joined(entries: Entries): string {
    if entries == [] then ""
    else if |entries| == 1 then entries[0]
    else Joined(entries[..|entries| - 1]) + "\n" + entries[|entries| - 1]
  }

  function Saved(entries: Entries): string {
    Joined(entries) + "\n"
  }

  function IndexOf(entries: Entries, description: string): (n: nat)
    ensures n <= |entries|
    ensures n < |entries| ==> entries[n] == description
    ensures forall i :: 0 <= i < n ==> entries[i] != description
    ensures n < |entries| <==> description in entries
  {
    if entries == [] || entries[0] == description then 0
    else
      assert entries == [entries[0]] + entries[1..];
      1 + IndexOf(entries[1..], description)
  }

  function Added(entries: Entries, monitors: seq<string>): Entries
    decreases |monitors|
  {
    if monitors == [] then entries
    else Added(if monitors[0] in entries then entries else entries + [monitors[0]], monitors[1..])
  }

  /** The first registration takes all monitors as they come; later ones append. */
  function Registered(entries: Entries, monitors: seq<string>): Entries {
    if entries == [] then monitors else Added(entries, monitors)
  }

  /** The registry file after the monitors were assigned their slots. */
  function FileAfter(file: Option<string>, monitors: seq<string>): Option<string> {
    var entries := Registered(Loaded(file), monitors);
    if entries == Loaded(file) then file else Some(Saved(entries))
  }

  class Registry {
    var entries: Entries

    constructor Load(file: Option<string>)
      ensures entries == Loaded(file)
    {
      entries := Loaded(file);
    }

    method Register(monitors: seq<string>) returns (modified: bool)
      modifies this
      ensures entries == Registered(old(entries), monitors)
      ensures modified <==> entries != old(entries)
    {
      modified := false;
      if entries == [] {
        for i := 0 to |monitors|
          invariant entries == monitors[..i]
        {
          entries := entries + [monitors[i]];
        }
        assert monitors[..|monitors|] == monitors;
        modified := entries != [];
      } else {
        ghost var before := entries;
        for i := 0 to |monitors|
          invariant Added(entries, monitors[i..]) == Added(before, monitors)
          invariant before <= entries && (modified <==> entries != before)
        {
          assert monitors[i..][1..] == monitors[i + 1..];
          if IndexOf(entries, monitors[i]) == |entries| {
            entries := entries + [monitors[i]];
            modified := true;
          }
        }
      }
    }
  }

  /** A monitor as the compositor lists it. */
  datatype Monitor = Monitor(id: int, description: string)

  function Descriptions(monitors: seq<Monitor>): seq<string> {
    seq(|monitors|, i requires 0 <= i < |monitors| => monitors[i].description)
  }

  function SlotFor(entries: Entries, d: string): Slot {
    IndexOf(entries, d) % 256
  }

  function SlotsOf(entries: Entries, monitors: seq<Monitor>): map<int, Slot> {
    if monitors == [] then map[]
    else
      var m := monitors[|monitors| - 1];
      var rest := SlotsOf(entries, monitors[..|monitors| - 1]);
      if m.description in entries then rest[m.id := SlotFor(entries, m.description)] else rest
  }

  /** Register the monitors and look up their slots; an index is cast to a byte. */
  method Assign(file: Option<string>, monitors: seq<Monitor>)
    returns (after: Option<string>, slots: map<int, Slot>)
    ensures after == FileAfter(file, Descriptions(monitors))
    ensures slots == SlotsOf(Registered(Loaded(file), Descriptions(monitors)), monitors)
  {
    var registry := new Registry.Load(file);
    var modified := registry.Register(Descriptions(monitors));
    after := if modified then Some(Saved(registry.entries)) else file;
    slots := map[];
    for i := 0 to |monitors|
      invariant slots == SlotsOf(registry.entries, monitors[..i])
    {
      assert monitors[..i + 1][..i] == monitors[..i];
      var n := IndexOf(registry.entries, monitors[i].description);
      if n < |registry.entries| {
        slots := slots[monitors[i].id := n % 256];
      }
    }
    assert monitors[..|monitors|] == monitors;
  }

  predicate DistinctIds(monitors: seq<Monitor>) {
    forall i, j :: 0 <= i < j < |monitors| ==> monitors[i].id != monitors[j].id
  }

  /** Every monitor gets the slot of its description. */
  lemma {:induction false} EveryMonitorHasItsSlot(entries: Entries, monitors: seq<Monitor>, i: nat)
    requires i < |monitors| && monitors[i].description in entries
    requires DistinctIds(monitors)
    ensures monitors[i].id in SlotsOf(entries, monitors)
    ensures SlotsOf(entries, monitors)[monitors[i].id] == SlotFor(entries, monitors[i].description)
  {
    if i < |monitors| - 1 {
      EveryMonitorHasItsSlot(entries, monitors[..|monitors| - 1], i);
    }
  }

  lemma {:induction false} AddedExtends(entries: Entries, monitors: seq<string>)
    ensures entries <= Added(entries, monitors)
    ensures forall d :: d in Added(entries, monitors) <==> d in entries || d in monitors
    decreases |monitors|
  {
    if monitors != [] {
      assert monitors == [monitors[0]] + monitors[1..];
      AddedExtends(if monitors[0] in entries then entries else entries + [monitors[0]], monitors[1..]);
    }
  }

  lemma RegisteredHolds(entries: Entries, monitors: seq<string>)
    ensures entries <= Registered(entries, monitors)
    ensures forall d :: d in Registered(entries, monitors) <==> d in entries || d in monitors
  {
    AddedExtends(entries, monitors);
  }

  // --- what the file can hold ------------------------------------------------------------

  predicate Storable(d: string) {
    d != "" && '\n' !in d && d[|d| - 1] != '\r'
  }

  predicate AllStorable(entries: Entries) {
    forall d :: d in entries ==> Storable(d)
  }

  function Stripped(entries: Entries): seq<string> {
    seq(|entries|, i requires 0 <= i < |entries| => StripCr(entries[i]))
  }

  lemma SavedSnoc(init: Entries, last: string)
    requires init != []
    ensures Saved(init + [last]) == Saved(init) + last + "\n"
  {
    assert (init + [last])[..|init|] == init;
  }

  lemma OneSavedLine(d: string)
    requires '\n' !in d
    ensures Lines(Saved([d])) == [StripCr(d)]
  {
    LinesSnoc("", d);
    assert "" + d + "\n" == Saved([d]);
  }

  lemma {:induction false} SavedLines(entries: Entries)
    requires entries != [] && forall d :: d in entries ==> '\n' !in d
    ensures Lines(Saved(entries)) == Stripped(entries)
  {
    var n := |entries| - 1;
    var init, last := entries[..n], entries[n];
    assert entries == init + [last];
    if n == 0 {
      OneSavedLine(last);
    } else {
      SavedLines(init);
      SavedSnoc(init, last);
      LinesSnoc(Saved(init), last);
    }
  }

  lemma {:induction false} NonEmptyFacts(lines: seq<string>)
    ensures |NonEmpty(lines)| <= |lines|
    ensures |NonEmpty(lines)| == |lines| ==> NonEmpty(lines) == lines
    ensures (forall l :: l in lines ==> l != "") ==> NonEmpty(lines) == lines
    ensures forall l :: l in NonEmpty(lines) ==> l != "" && l in lines
  {
    if lines != [] {
      var n := |lines| - 1;
      assert lines == lines[..n] + [lines[n]] && lines[n] in lines;
      assert forall l :: l in lines[..n] ==> l in lines;
      NonEmptyFacts(lines[..n]);
    }
  }

  lemma StrippedIsSame(entries: Entries)
    ensures Stripped(entries) == entries <==> forall d :: d in entries ==> StripCr(d) == d
  {
    if Stripped(entries) == entries {
      forall d | d in entries
        ensures StripCr(d) == d
      {
        var i :| 0 <= i < |entries| && entries[i] == d;
        assert Stripped(entries)[i] == StripCr(d);
      }
    }
  }

  lemma NoEntriesSaved()
    ensures Loaded(Some(Saved([]))) == []
  {
    LinesSnoc("", "");
    assert "" + "" + "\n" == Saved([]) && Lines("") == [];
    assert Lines(Saved([])) == [""];
    assert [""][..0] == [];
  }

  /** The registry survives a restart exactly if every description is a non-empty line
      without a carriage return at its end. */
  lemma RestartKeepsExactly(entries: Entries)
    ensures Loaded(Some(Saved(entries))) == entries <==> AllStorable(entries)
  {
    NonEmptyFacts(Lines(Saved(entries)));
    if entries == [] {
      NoEntriesSaved();
    } else if forall d :: d in entries ==> '\n' !in d {
      SavedLines(entries);
      NonEmptyFacts(Stripped(entries));
      StrippedIsSame(entries);
    }
  }

  // --- slots are permanent -----------------------------------------------------------------

  function FileAfterAll(file: Option<string>, history: seq<seq<string>>): Option<string> {
    if history == [] then file
    else FileAfter(FileAfterAll(file, history[..|history| - 1]), history[|history| - 1])
  }

  lemma PrefixKeepsIndex(entries: Entries, later: Entries, d: string)
    requires entries <= later && IndexOf(entries, d) < |entries|
    ensures IndexOf(later, d) == IndexOf(entries, d)
  {
    var n := IndexOf(entries, d);
    assert forall i :: 0 <= i < n ==> later[i] == entries[i] && later[i] != d;
    assert later[n] == d;
  }

  lemma StepKeeps(file: Option<string>, monitors: seq<string>)
    requires AllStorable(Loaded(file)) && AllStorable(monitors)
    ensures Loaded(FileAfter(file, monitors)) == Registered(Loaded(file), monitors)
    ensures Loaded(file) <= Loaded(FileAfter(file, monitors)) && AllStorable(Loaded(FileAfter(file, monitors)))
  {
    RegisteredHolds(Loaded(file), monitors);
    RestartKeepsExactly(Registered(Loaded(file), monitors));
  }

  predicate AllHistoryStorable(history: seq<seq<string>>) {
    forall monitors :: monitors in history ==> AllStorable(monitors)
  }

  lemma {:induction false} FileGrows(file: Option<string>, history: seq<seq<string>>, k: nat)
    requires AllStorable(Loaded(file)) && AllHistoryStorable(history) && k <= |history|
    ensures AllStorable(Loaded(FileAfterAll(file, history)))
    ensures Loaded(FileAfterAll(file, history[..k])) <= Loaded(FileAfterAll(file, history))
    decreases |history|
  {
    if history == [] {
      assert history[..k] == history;
    } else {
      var n := |history| - 1;
      var init := history[..n];
      assert history[n] in history;
      FileGrows(file, init, if k <= n then k else n);
      StepKeeps(FileAfterAll(file, init), history[n]);
      FileStep(file, history, k);
    }
  }

  lemma FileStep(file: Option<string>, history: seq<seq<string>>, k: nat)
    requires k <= |history| && history != []
    ensures k == |history| ==> FileAfterAll(file, history[..k]) == FileAfterAll(file, history)
    ensures k < |history| ==> history[..|history| - 1][..k] == history[..k]
    ensures FileAfterAll(file, history) ==
            FileAfter(FileAfterAll(file, history[..|history| - 1]), history[|history| - 1])
  {
    assert k == |history| ==> history[..k] == history;
  }

  /** Over any sequence of hotplugs and restarts, a description that has a slot after
      some of them keeps it from then on. */
  lemma SlotsArePermanent(file: Option<string>, history: seq<seq<string>>, k: nat, d: string)
    requires AllStorable(Loaded(file)) && AllHistoryStorable(history) && k <= |history|
    ensures var before, after := Loaded(FileAfterAll(file, history[..k])), Loaded(FileAfterAll(file, history));
            d in before ==> d in after && IndexOf(after, d) == IndexOf(before, d)
  {
    FileGrows(file, history, k);
    var before, after := Loaded(FileAfterAll(file, history[..k])), Loaded(FileAfterAll(file, history));
    if d in before {
      PrefixKeepsIndex(before, after, d);
    }
  }

  /** A monitor without a description costs the others their slots. */
  lemma EmptyDescriptionShifts()
    ensures var first := FileAfter(None, ["", "A"]);
            IndexOf(Registered([], ["", "A"]), "A") == 1 && IndexOf(Loaded(first), "A") == 0
  {
    var entries := ["", "A"];
    assert entries[..1] == [""];
    assert Joined(entries) == Joined([""]) + "\n" + "A";
    SavedLines(entries);
    assert Stripped(entries) == ["", "A"];
    assert NonEmpty(entries) == NonEmpty([""]) + ["A"];
    assert [""][..0] == [];
    assert IndexOf(["A"], "A") == 0;
  }

  predicate NoRepeats(entries: Entries) {
    forall i, j :: 0 <= i < j < |entries| ==> entries[i] != entries[j]
  }

  /** Two descriptions whose ranges share a workspace. */
  ghost predicate Collide(entries: Entries, d: string, e: string) {
    && d in entries && e in entries && d != e
    && exists id :: InRange(id, SlotFor(entries, d)) && InRange(id, SlotFor(entries, e))
  }

  lemma CollideExactly(entries: Entries, d: string, e: string)
    requires d in entries && e in entries && d != e
    ensures Collide(entries, d, e) <==> SlotFor(entries, d) == SlotFor(entries, e)
  {
    RangesMeetExactly(SlotFor(entries, d), SlotFor(entries, e));
  }

  /** The first entry that says what it says. */
  predicate IsFirst(entries: Entries, i: nat) {
    i < |entries| && forall j :: 0 <= j < i ==> entries[j] != entries[i]
  }

  /** No first entry comes a multiple of 256 lines after another. */
  predicate FirstsApart(entries: Entries) {
    forall i, j :: 0 <= i < j < |entries| && IsFirst(entries, i) && IsFirst(entries, j) ==> (j - i) % 256 != 0
  }

  lemma FirstIndex(entries: Entries, i: nat)
    requires i < |entries|
    ensures IsFirst(entries, i) <==> IndexOf(entries, entries[i]) == i
    ensures IsFirst(entries, IndexOf(entries, entries[i]))
  {
  }

  lemma ApartFirsts(entries: Entries, d: string, e: string)
    requires FirstsApart(entries) && d in entries && e in entries && d != e
    ensures SlotFor(entries, d) != SlotFor(entries, e)
  {
    var i, j := IndexOf(entries, d), IndexOf(entries, e);
    FirstIndex(entries, i);
    FirstIndex(entries, j);
    if i < j {
      SameRemainder(i, j);
    } else {
      SameRemainder(j, i);
    }
  }

  lemma SameRemainder(i: nat, j: nat)
    requires i <= j
    ensures i % 256 == j % 256 <==> (j - i) % 256 == 0
  {
  }

  lemma SecondFirstCollides(entries: Entries, i: nat, j: nat)
    requires i < j && IsFirst(entries, i) && IsFirst(entries, j) && (j - i) % 256 == 0
    ensures Collide(entries, entries[i], entries[j])
  {
    FirstIndex(entries, i);
    FirstIndex(entries, j);
    SameRemainder(i, j);
    CollideExactly(entries, entries[i], entries[j]);
  }

  lemma ManyAreNotApart(entries: Entries)
    requires NoRepeats(entries) && |entries| > 256
    ensures !FirstsApart(entries)
  {
    assert IsFirst(entries, 0) && IsFirst(entries, 256);
    assert (256 - 0) % 256 == 0;
  }

  lemma FewAreApart(entries: Entries)
    requires |entries| <= 256
    ensures FirstsApart(entries)
  {
  }

  /** Different descriptions have disjoint workspace ranges exactly if no first entry
      comes a multiple of 256 lines after another. With no entry twice that is exactly
      while there are at most 256, and with any entries as long as there are. */
  lemma RangesDisjointExactly(entries: Entries)
    ensures (forall d, e :: !Collide(entries, d, e)) <==> FirstsApart(entries)
    ensures |entries| <= 256 ==> FirstsApart(entries)
    ensures NoRepeats(entries) ==> (FirstsApart(entries) <==> |entries| <= 256)
  {
    if FirstsApart(entries) {
      forall d, e | d in entries && e in entries && d != e
        ensures !Collide(entries, d, e)
      {
        ApartFirsts(entries, d, e);
        CollideExactly(entries, d, e);
      }
    } else {
      var i, j :| 0 <= i < j < |entries| && IsFirst(entries, i) && IsFirst(entries, j) && (j - i) % 256 == 0;
      SecondFirstCollides(entries, i, j);
    }
    if |entries| <= 256 {
      FewAreApart(entries);
    } else if NoRepeats(entries) {
      ManyAreNotApart(entries);
    }
  }

  function Names(n: nat): (names: Entries)
    ensures |names| == n && AllStorable(names) && NoRepeats(names)
  {
    seq(n, i requires 0 <= i < n => seq(i + 1, _ => 'x'))
  }

  /** The 257th monitor gets the range of the first. */
  lemma TooManyMonitors()
    ensures var entries := Registered([], Names(257));
            Collide(entries, entries[0], entries[256])
  {
    var entries := Names(257);
    SecondFirstCollides(entries, 0, 256);
  }

  lemma {:induction false} AddedNoRepeats(entries: Entries, monitors: seq<string>)
    requires NoRepeats(entries)
    ensures NoRepeats(Added(entries, monitors))
    decreases |monitors|
  {
    if monitors != [] {
      AddedNoRepeats(if monitors[0] in entries then entries else entries + [monitors[0]], monitors[1..]);
    }
  }

  /** Whatever is plugged in and unplugged and however often the daemon restarts, no two
      descriptions share a workspace as long as the registry has at most 256 entries. If
      no two monitors were ever alike, it lists none twice, and the bound is exact. */
  lemma {:induction false} MonitorsKeepApart(file: Option<string>, history: seq<seq<string>>)
    requires AllStorable(Loaded(file)) && AllHistoryStorable(history)
    ensures var entries := Loaded(FileAfterAll(file, history));
            && (|entries| <= 256 ==> forall d, e :: !Collide(entries, d, e))
            && (NoRepeats(Loaded(file)) && (forall monitors :: monitors in history ==> NoRepeats(monitors)) ==>
                  && NoRepeats(entries)
                  && ((forall d, e :: !Collide(entries, d, e)) <==> |entries| <= 256))
    decreases |history|
  {
    if history != [] {
      var n := |history| - 1;
      var init := history[..n];
      assert history[n] in history;
      MonitorsKeepApart(file, init);
      FileGrows(file, init, 0);
      StepKeeps(FileAfterAll(file, init), history[n]);
      if NoRepeats(Loaded(FileAfterAll(file, init))) {
        AddedNoRepeats(Loaded(FileAfterAll(file, init)), history[n]);
      }
    }
    RangesDisjointExactly(Loaded(FileAfterAll(file, history)));
  }

  // --- the connected monitors --------------------------------------------------------------

  /** Two monitors whose ranges have a workspace in common. */
  ghost predicate Share(slots: map<int, Slot>, a: int, b: int) {
    a in slots && b in slots && exists id :: InRange(id, slots[a]) && InRange(id, slots[b])
  }

  lemma ShareExactly(entries: Entries, monitors: seq<Monitor>, i: nat, j: nat)
    requires DistinctIds(monitors) && i < |monitors| && j < |monitors| && |entries| <= 256
    requires monitors[i].description in entries && monitors[j].description in entries
    ensures Share(SlotsOf(entries, monitors), monitors[i].id, monitors[j].id) <==>
            monitors[i].description == monitors[j].description
  {
    EveryMonitorHasItsSlot(entries, monitors, i);
    EveryMonitorHasItsSlot(entries, monitors, j);
    var d, e := monitors[i].description, monitors[j].description;
    RangesMeetExactly(SlotFor(entries, d), SlotFor(entries, e));
    if d != e {
      RangesDisjointExactly(entries);
      CollideExactly(entries, d, e);
    }
  }

  /** Of the monitors that are connected, whatever was registered before, no two share a
      workspace exactly if no two have the same description, as long as the registry has
      at most 256 entries. */
  lemma ConnectedApartExactly(file: Option<string>, monitors: seq<Monitor>)
    requires DistinctIds(monitors)
    ensures var entries := Registered(Loaded(file), Descriptions(monitors));
            |entries| <= 256 ==>
              ((forall i, j :: 0 <= i < j < |monitors| ==>
                                 !Share(SlotsOf(entries, monitors), monitors[i].id, monitors[j].id)) <==>
               NoRepeats(Descriptions(monitors)))
  {
    var texts := Descriptions(monitors);
    var entries := Registered(Loaded(file), texts);
    RegisteredHolds(Loaded(file), texts);
    if |entries| <= 256 {
      forall i, j | 0 <= i < j < |monitors|
        ensures Share(SlotsOf(entries, monitors), monitors[i].id, monitors[j].id) <==> texts[i] == texts[j]
      {
        assert texts[i] in texts && texts[j] in texts;
        ShareExactly(entries, monitors, i, j);
      }
    }
  }

  /** Two monitors that describe themselves alike are one line of the file too many and
      share one slot. */
  lemma TwinsShare()
    ensures var twins := [Monitor(0, "A"), Monitor(1, "A")];
            SlotsOf(Registered([], Descriptions(twins)), twins) == map[0 := 0, 1 := 0]
  {
    var twins := [Monitor(0, "A"), Monitor(1, "A")];
    var entries := Registered([], Descriptions(twins));
    assert entries == ["A", "A"] && SlotFor(entries, "A") == 0;
    assert twins[..1] == [Monitor(0, "A")];
    assert twins[..1][..0] == [];
    assert SlotsOf(entries, twins[..1]) == map[0 := 0];
  }

  lemma SlotOfLast(entries: Entries, monitors: seq<Monitor>, n: nat)
    requires monitors != [] && n < |entries| && IsFirst(entries, n)
    requires monitors[|monitors| - 1].description == entries[n]
    ensures SlotsOf(entries, monitors) ==
            SlotsOf(entries, monitors[..|monitors| - 1])[monitors[|monitors| - 1].id := n % 256]
  {
    FirstIndex(entries, n);
  }

  lemma NothingAdded(entries: Entries, monitors: seq<string>)
    requires forall d :: d in monitors ==> d in entries
    ensures Added(entries, monitors) == entries
    decreases |monitors|
  {
    if monitors != [] {
      NothingAdded(entries, monitors[1..]);
    }
  }

  lemma SlotsOfTwo(entries: Entries, now: seq<Monitor>, m: nat, n: nat)
    requires |now| == 2 && m < |entries| && n < |entries| && IsFirst(entries, m) && IsFirst(entries, n)
    requires now[0].description == entries[m] && now[1].description == entries[n]
    ensures SlotsOf(entries, now) == map[now[0].id := m % 256][now[1].id := n % 256]
  {
    SlotOfLast(entries, now, n);
    SlotOfLast(entries, now[..1], m);
    assert now[..1][..0] == [];
  }

  /** The registry before and after some of its monitors are plugged in again. */
  lemma PluggedInAgain(file: Option<string>, all: Entries, now: seq<string>)
    requires Loaded(file) == [] && all != [] && AllStorable(all) && forall d :: d in now ==> d in all
    ensures Registered(Loaded(FileAfter(file, all)), now) == all
  {
    StepKeeps(file, all);
    NothingAdded(all, now);
  }

  /** Three monitors are plugged in for the first time, then the second is unplugged: two
      are connected, and one of them has slot 2. */
  lemma GapInSlots(file: Option<string>, all: Entries, now: seq<Monitor>)
    requires Loaded(file) == [] && |all| == 3 && AllStorable(all) && NoRepeats(all)
    requires |now| == 2 && DistinctIds(now) && now[0].description == all[0] && now[1].description == all[2]
    ensures SlotsOf(Registered(Loaded(FileAfter(file, all)), Descriptions(now)), now) ==
            map[now[0].id := 0, now[1].id := 2]
  {
    FirstAndThird(all, now);
    PluggedInAgain(file, all, Descriptions(now));
  }

  lemma FirstAndThird(all: Entries, now: seq<Monitor>)
    requires |all| == 3 && NoRepeats(all)
    requires |now| == 2 && DistinctIds(now) && now[0].description == all[0] && now[1].description == all[2]
    ensures forall d :: d in Descriptions(now) ==> d in all
    ensures SlotsOf(all, now) == map[now[0].id := 0, now[1].id := 2]
  {
    SlotsOfTwo(all, now, 0, 2);
  }
}
