/** Whole lives of data disks: boots in any number, each cut off anywhere, with any
    disks attached and any answers given, and in between the running system writing to
    `/var` and volumes being enlarged. */
module DiskHistory {
  import opened Text
  import opened PromptHub
  import opened DiskPlan
  import opened DiskState
  import opened DiskPrompts
  import opened DiskManager

  datatype Event =
    | Boots(attached: seq<string>, tools: seq<bool>, messages: seq<seq<Msg<string>>>, usageReadable: bool)
    | HostWrites(id: string, data: Data, spare: nat)
    | Enlarged(id: string, more: nat)

  /** The data last written to a disk's `var` by the running system. */
  function LastData(events: seq<Event>, id: string, first: Data): Data {
    if events == [] then first
    else
      var last := events[|events| - 1];
      if last.HostWrites? && last.id == id then last.data
      else LastData(events[..|events| - 1], id, first)
  }

  /** The data of the `var` `id` after an event that found `data` in it. */
  function DataAfter(e: Event, id: string, data: Data): Data {
    if e.HostWrites? && e.id == id then e.data else data
  }

  /** A new `var` is empty, or the whole of one that another disk had. */
  predicate FromVar(now: Disks, data: Data) {
    data == [] || exists l :: l in now && VarOf(now[l]) == Some(data)
  }

  /** What one event may do to a disk: a `var` stays, and changes only as the running
      system writes to it; a new one is made at a boot only. */
  predicate VarStep(e: Event, id: string, now: Disks, next: Disks)
    requires id in now && id in next
  {
    match VarOf(now[id])
    case Some(data) => VarOf(next[id]) == Some(DataAfter(e, id, data))
    case None => VarOf(next[id]).Some? ==> e.Boots? && FromVar(now, VarOf(next[id]).value)
  }

  predicate Step(e: Event, now: Disks, next: Disks) {
    next.Keys == now.Keys && forall id :: id in now ==> VarStep(e, id, now, next)
  }

  /** The disks before, between and after the events. */
  predicate History(states: seq<Disks>, events: seq<Event>) {
    && |states| == |events| + 1
    && forall i :: 0 <= i < |events| ==> Step(events[i], states[i], states[i + 1])
  }

  /** From wherever there is a `var`, it always is what the running system wrote to it
      last, or what it was. */
  predicate NothingLost(states: seq<Disks>, events: seq<Event>)
    requires |states| == |events| + 1
  {
    forall k, j, id :: 0 <= k <= j <= |events| && id in states[k] && VarOf(states[k][id]).Some? ==>
      && id in states[j]
      && VarOf(states[j][id]) == Some(LastData(events[k..j], id, VarOf(states[k][id]).value))
  }

  lemma {:induction false} KeptSince(states: seq<Disks>, events: seq<Event>, k: nat, j: nat, id: string)
    requires History(states, events) && k <= j <= |events|
    requires id in states[k] && VarOf(states[k][id]).Some?
    ensures id in states[j]
    ensures VarOf(states[j][id]) == Some(LastData(events[k..j], id, VarOf(states[k][id]).value))
    decreases j
  {
    if k < j {
      KeptSince(states, events, k, j - 1, id);
      assert Step(events[j - 1], states[j - 1], states[j]);
      assert VarStep(events[j - 1], id, states[j - 1], states[j]);
      LastDataSnoc(events, k, j, id, VarOf(states[k][id]).value);
    }
  }

  lemma LastDataSnoc(events: seq<Event>, k: nat, j: nat, id: string, first: Data)
    requires k < j <= |events|
    ensures LastData(events[k..j], id, first) == DataAfter(events[j - 1], id, LastData(events[k..j - 1], id, first))
  {
    assert events[k..j][..j - 1 - k] == events[k..j - 1];
  }

  /** Data that was in some `var` as a whole: at the start, or as written by the running
      system. */
  predicate Whole(disks: Disks, events: seq<Event>, data: Data) {
    || data == []
    || (exists id :: id in disks && VarOf(disks[id]) == Some(data))
    || (exists e :: e in events && e.HostWrites? && e.data == data)
  }

  /** No `var` is ever a part of another. */
  predicate AllWhole(states: seq<Disks>, events: seq<Event>)
    requires |states| == |events| + 1
  {
    forall j, id :: 0 <= j <= |events| && id in states[j] && VarOf(states[j][id]).Some? ==>
      Whole(states[0], events[..j], VarOf(states[j][id]).value)
  }

  lemma WholeStays(disks: Disks, events: seq<Event>, e: Event, data: Data)
    requires Whole(disks, events, data)
    ensures Whole(disks, events + [e], data)
  {
    if x :| x in events && x.HostWrites? && x.data == data {
      assert x in events + [e];
    }
  }

  lemma {:induction false} WholeAt(states: seq<Disks>, events: seq<Event>, j: nat, id: string)
    requires History(states, events) && j <= |events| && id in states[j] && VarOf(states[j][id]).Some?
    ensures Whole(states[0], events[..j], VarOf(states[j][id]).value)
    decreases j
  {
    if j > 0 {
      var e, now := events[j - 1], states[j - 1];
      assert Step(e, now, states[j]) && VarStep(e, id, now, states[j]);
      assert events[..j] == events[..j - 1] + [e];
      var data := VarOf(states[j][id]).value;
      if VarOf(now[id]).Some? {
        WholeAt(states, events, j - 1, id);
        WholeStays(states[0], events[..j - 1], e, VarOf(now[id]).value);
        assert e in events[..j];
      } else if data != [] {
        var l :| l in now && VarOf(now[l]) == Some(data);
        WholeAt(states, events, j - 1, l);
        WholeStays(states[0], events[..j - 1], e, data);
      }
    }
  }

  /** Both hold of every history. */
  lemma HistoryIsSound(states: seq<Disks>, events: seq<Event>)
    requires History(states, events)
    ensures NothingLost(states, events) && AllWhole(states, events)
  {
    forall k, j, id | 0 <= k <= j <= |events| && id in states[k] && VarOf(states[k][id]).Some?
      ensures id in states[j]
      ensures VarOf(states[j][id]) == Some(LastData(events[k..j], id, VarOf(states[k][id]).value))
    {
      KeptSince(states, events, k, j, id);
    }
    forall j, id | 0 <= j <= |events| && id in states[j] && VarOf(states[j][id]).Some?
      ensures Whole(states[0], events[..j], VarOf(states[j][id]).value)
    {
      WholeAt(states, events, j, id);
    }
  }

  // --- the events -------------------------------------------------------------------------

  lemma BootSteps(
    e: Event, now: Disks, next: Disks, classes: Classes, log: Log, said: Consent, end: End)
    requires e.Boots? && BootEffects(now, next, classes, log, said, end)
    ensures Step(e, now, next)
  {
    forall id | id in now
      ensures VarStep(e, id, now, next)
    {
      assert VarKept(now[id], next[id]);
      if VarOf(next[id]) != VarOf(now[id]) {
        assert Made(now, classes, VarOf(next[id]).value);
      }
    }
  }

  method OneBoot(m: Manager, e: Event)
    requires m.Inv() && e.Boots?
    modifies m, m.ui
    ensures m.Inv() && Step(e, old(m.disks), m.disks)
  {
    ghost var now := m.disks;
    m.tools := e.tools;
    m.ui.posted, m.ui.taken, m.ui.sent, m.ui.arrivals, m.ui.kinds := 0, 0, [], e.messages, map[];
    var present := Present(e.attached, m.disks);
    var end, classes := m.Boot(present, e.usageReadable);
    BootSteps(e, now, m.disks, classes, m.log, ConsentSince(0, TalkOf(m.ui), m.minLength), end);
  }

  method Between(m: Manager, e: Event)
    requires m.Inv() && !e.Boots?
    modifies m`disks
    ensures m.Inv() && Step(e, old(m.disks), m.disks)
  {
    if e.HostWrites? {
      HostWrite(m, e);
    } else {
      Enlarge(m, e);
    }
  }

  /** Over any history the manager loses no data and makes no partial copy, whether a
      `var` was there at the start or was made on the way. */
  method Live(m: Manager, events: seq<Event>) returns (ghost states: seq<Disks>)
    requires m.Inv()
    modifies m, m.ui
    ensures m.Inv()
    ensures |states| == |events| + 1 && states[0] == old(m.disks) && states[|events|] == m.disks
    ensures History(states, events)
    ensures NothingLost(states, events) && AllWhole(states, events)
  {
    states := [m.disks];
    for i := 0 to |events|
      invariant m.Inv() && |states| == i + 1 && states[0] == old(m.disks) && states[i] == m.disks
      invariant forall j :: 0 <= j < i ==> Step(events[j], states[j], states[j + 1])
    {
      var e := events[i];
      if e.Boots? {
        OneBoot(m, e);
      } else {
        Between(m, e);
      }
      states := states + [m.disks];
    }
    HistoryIsSound(states, events);
  }

  function Written(d: Disk, data: Data, spare: nat): Disk {
    if VarOf(d).None? then d
    else WithFs(d, FilesystemOf(d).value.(var_ := Some(data), base := |data| + spare))
  }

  lemma WrittenIs(d: Disk, data: Data, spare: nat, luksPartuuid: string)
    requires WellFormed(d, luksPartuuid)
    ensures WellFormed(Written(d, data, spare), luksPartuuid)
    ensures VarOf(Written(d, data, spare)) == if VarOf(d).Some? then Some(data) else None
  {
  }

  method HostWrite(m: Manager, e: Event)
    requires m.Inv() && e.HostWrites?
    modifies m`disks
    ensures m.Inv() && m.disks.Keys == old(m.disks.Keys)
    ensures forall id :: id in m.disks && id != e.id ==> m.disks[id] == old(m.disks)[id]
    ensures e.id in m.disks ==>
              VarOf(m.disks[e.id]) == if VarOf(old(m.disks)[e.id]).Some? then Some(e.data) else None
  {
    if e.id in m.disks {
      WrittenIs(m.disks[e.id], e.data, e.spare, m.luksPartuuid);
      m.disks := m.disks[e.id := Written(m.disks[e.id], e.data, e.spare)];
    }
  }

  method Enlarge(m: Manager, e: Event)
    requires m.Inv() && e.Enlarged?
    modifies m`disks
    ensures m.Inv() && m.disks.Keys == old(m.disks.Keys)
    ensures forall id :: id in m.disks ==> VarOf(m.disks[id]) == VarOf(old(m.disks)[id])
  {
    if e.id in m.disks {
      EnlargedIs(m.disks[e.id], e.more, m.luksPartuuid);
      m.disks := m.disks[e.id := More(m.disks[e.id], e.more)];
    }
  }

  function More(d: Disk, more: nat): Disk {
    d.(bytes := d.bytes + more)
  }

  lemma EnlargedIs(d: Disk, more: nat, luksPartuuid: string)
    requires WellFormed(d, luksPartuuid)
    ensures WellFormed(More(d, more), luksPartuuid) && VarOf(More(d, more)) == VarOf(d)
  {
  }

  // --- the boot after a migration ---------------------------------------------------------

  /** `b` is attached once, and nothing else that is attached is a data disk. */
  predicate OnlyDataDisk(disks: Disks, attached: seq<string>, luksPartuuid: string, b: string) {
    && b in attached
    && (forall i, j :: 0 <= i < j < |attached| ==> attached[i] != attached[j])
    && (forall id :: id in attached && id != b ==> id in disks && Classify(ProbeOf(disks[id]), luksPartuuid) == Foreign)
  }

  /** If one id at most is not foreign, it alone is in its class. */
  lemma {:induction false} LoneOf(classes: Classes, b: string, c: DiskClass, k: DiskClass)
    requires forall i, j :: 0 <= i < j < |classes| ==> classes[i].0 != classes[j].0
    requires forall x :: x in classes ==> x.1 == if x.0 == b then c else Foreign
    requires k != Foreign
    ensures Of(classes, k) == if (b, c) in classes && c == k then [b] else []
  {
    if classes != [] {
      var n := |classes| - 1;
      var init, last := classes[..n], classes[n];
      assert classes == init + [last] && last in classes;
      LoneOf(init, b, c, k);
      assert last.0 == b ==> last == (b, c) && last !in init;
    }
  }

  lemma {:induction false} ClassesAt(disks: Disks, attached: seq<string>, luksPartuuid: string)
    requires forall id :: id in attached ==> id in disks
    ensures |ClassesOf(disks, attached, luksPartuuid)| == |attached|
    ensures forall i :: 0 <= i < |attached| ==>
              ClassesOf(disks, attached, luksPartuuid)[i] ==
                (attached[i], Classify(ProbeOf(disks[attached[i]]), luksPartuuid))
  {
    if attached != [] {
      ClassesAt(disks, attached[..|attached| - 1], luksPartuuid);
    }
  }

  /** A data disk that is alone is unlocked. */
  lemma LoneDiskIsUnlocked(disks: Disks, attached: seq<string>, luksPartuuid: string, b: string)
    requires b in disks && IsLuks(disks[b], luksPartuuid) && OnlyDataDisk(disks, attached, luksPartuuid, b)
    ensures Planned(ClassesOf(disks, attached, luksPartuuid)) == Unlock(b)
  {
    var classes := ClassesOf(disks, attached, luksPartuuid);
    ClassesAt(disks, attached, luksPartuuid);
    LoneClasses(disks, attached, luksPartuuid, b, classes);
    LoneOf(classes, b, Luks, Luks);
    LoneOf(classes, b, Luks, Legacy);
    LoneOf(classes, b, Luks, Blank);
  }

  lemma LoneClasses(disks: Disks, attached: seq<string>, luksPartuuid: string, b: string, classes: Classes)
    requires b in disks && IsLuks(disks[b], luksPartuuid) && OnlyDataDisk(disks, attached, luksPartuuid, b)
    requires |classes| == |attached|
    requires forall i :: 0 <= i < |attached| ==>
               classes[i] == (attached[i], Classify(ProbeOf(disks[attached[i]]), luksPartuuid))
    ensures forall x :: x in classes ==> x.1 == if x.0 == b then Luks else Foreign
    ensures (b, Luks) in classes
  {
    var i :| 0 <= i < |attached| && attached[i] == b;
    assert classes[i] == (b, Luks);
  }

  lemma CopyIsKept(
    before: Disks, mid: Disks, after: Disks, c1: Classes, log1: Log, said1: Consent, l: string, b: string,
    c2: Classes, log2: Log, said2: Consent)
    requires BootEffects(before, mid, c1, log1, said1, Migrated) && Planned(c1) == Migrate(l, b)
    requires BootEffects(mid, after, c2, log2, said2, Released) && Planned(c2) == Unlock(b)
    ensures VarOf(before[l]).Some? && VarOf(after[b]) == VarOf(before[l]) && VarOf(after[l]) == VarOf(before[l])
    ensures Grown(after[b]) && FsGrown(after[b])
  {
    assert VarKept(mid[b], after[b]) && VarKept(before[l], mid[l]) && VarKept(mid[l], after[l]);
  }

  /** A migration that reported to be complete, and then a boot with the new disk and
      without the old one: it unlocks the new disk, and once released the system has
      the whole of the old disk's `var`. */
  lemma MigratedDataBoots(
    before: Disks, mid: Disks, after: Disks, c1: Classes, log1: Log, said1: Consent, l: string, b: string,
    attached: seq<string>, luksPartuuid: string, log2: Log, said2: Consent)
    requires BootEffects(before, mid, c1, log1, said1, Migrated) && Planned(c1) == Migrate(l, b)
    requires NewVolume(mid, c1, luksPartuuid, Migrated)
    requires OnlyDataDisk(mid, attached, luksPartuuid, b)
    requires BootEffects(mid, after, ClassesOf(mid, attached, luksPartuuid), log2, said2, Released)
    ensures Planned(ClassesOf(mid, attached, luksPartuuid)) == Unlock(b)
    ensures VarOf(before[l]).Some? && VarOf(after[b]) == VarOf(before[l]) && VarOf(after[l]) == VarOf(before[l])
    ensures Grown(after[b]) && FsGrown(after[b])
  {
    LoneDiskIsUnlocked(mid, attached, luksPartuuid, b);
    CopyIsKept(before, mid, after, c1, log1, said1, l, b, ClassesOf(mid, attached, luksPartuuid), log2, said2);
  }

  function Present(ids: seq<string>, disks: Disks): (r: seq<string>)
    ensures forall id :: id in r ==> id in disks
  {
    if ids == [] then []
    else (if ids[0] in disks then [ids[0]] else []) + Present(ids[1..], disks)
  }
}
