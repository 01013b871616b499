/** var-disk-managerd: unlock, migrate, provision or block
    (packages/var-disk-manager/src/bin/daemon.rs). Each call of an external tool is one
    step; `tools` says which of the calls to come succeed, and where it ends power is
    lost. A boot may so end between any two steps. */
module DiskManager {
  import opened Text
  import opened PromptHub
  import opened DiskPlan
  import opened DiskPrompts
  import opened DiskState

  /** How a boot ends: released, parked for good (and told that the migration is
      complete, or not), failed to the emergency target, or cut off. */
  datatype End = Released | Migrated | Parked | FailedBoot | PowerLost

  datatype Status = Ok | Err | Cut

  function EndOf(s: Status): (e: End)
    ensures e != Released && e != Migrated && e != Parked && (e == FailedBoot <==> s != Cut)
  {
    if s == Cut then PowerLost else FailedBoot
  }

  /** A step that did not come to its end failed the boot, or was cut off. */
  predicate Halts(e: Option<End>) {
    e.Some? ==> e.value == FailedBoot || e.value == PowerLost
  }

  /** Every call to come works, until power is lost. */
  predicate Working(tools: seq<bool>) {
    forall ok :: ok in tools ==> ok
  }

  type Disks = map<string, Disk>

  // --- what a boot may do to disks ---------------------------------------------------

  predicate AllWellFormed(disks: Disks, luksPartuuid: string) {
    forall id :: id in disks ==> WellFormed(disks[id], luksPartuuid)
  }

  predicate VarKept(d0: Disk, d1: Disk) {
    VarOf(d0).Some? ==> VarOf(d1) == VarOf(d0)
  }

  predicate AllKept(before: Disks, after: Disks) {
    before.Keys == after.Keys && forall id :: id in before ==> VarKept(before[id], after[id])
  }

  predicate OnlyChanged(before: Disks, after: Disks, ids: set<string>) {
    before.Keys == after.Keys && forall id :: id in before && id !in ids ==> after[id] == before[id]
  }

  predicate SameButSize(f0: Filesystem, f1: Filesystem) {
    f1.(bytes := f0.bytes) == f0
  }

  /** Only sizes changed: the volume, its start, its passphrase and its contents are
      the same. */
  predicate Resized(d0: Disk, d1: Disk) {
    && d1.bytes == d0.bytes && d1.overhead == d0.overhead && d1.header == d0.header
    && d0.part.Some? && d1.part.Some? && d0.part.value.start == d1.part.value.start
    && match (Contained(d0), Contained(d1))
       case (LuksVolume(p0, _, i0), LuksVolume(p1, _, i1)) =>
         p0 == p1 && (i0 == i1 || (i0.Holds? && i1.Holds? && SameButSize(i0.fs, i1.fs)))
       case _ => false
  }

  /** The growth chain is closed: partition, mapping and file system fill the disk. */
  predicate Grown(d: Disk) {
    && d.part.Some? && Contained(d).LuksVolume?
    && d.part.value.bytes + GROW_THRESHOLD >= d.bytes
    && Contained(d).mapped + LUKS_HEADER_SLACK >= d.part.value.bytes
  }

  predicate FsGrown(d: Disk) {
    FilesystemOf(d).Some? && Contained(d).LuksVolume? && FilesystemOf(d).value.bytes == Contained(d).mapped
  }

  /** The same volume, whatever is inside it. */
  predicate SameVolume(d0: Disk, d1: Disk) {
    && d1.bytes == d0.bytes && d1.overhead == d0.overhead && d1.header == d0.header
    && ProbeOf(d1) == ProbeOf(d0)
    && Contained(d0).LuksVolume? && Contained(d1).LuksVolume?
    && d1.part == Some(d0.part.value.(content := Contained(d0).(inner := Contained(d1).inner)))
  }

  lemma InnerOps(op: Op, d: Disk)
    requires op.ResizeFs? || op.CreateVar? || op.MakeFs?
    requires Possible(op, d) && Contained(d).LuksVolume?
    ensures SameVolume(d, Effect(op, d))
    ensures op.ResizeFs? ==> VarOf(Effect(op, d)) == VarOf(d) && FsGrown(Effect(op, d)) && Resized(d, Effect(op, d))
    ensures op.CreateVar? ==> VarOf(Effect(op, d)) == Some([]) && (FsGrown(d) ==> FsGrown(Effect(op, d)))
    ensures op.MakeFs? ==> VarOf(Effect(op, d)) == None && FsGrown(Effect(op, d))
    ensures Contained(Effect(op, d)).inner.Holds?
  {
  }

  lemma EffectWellFormed(op: Op, d: Disk, luksPartuuid: string)
    requires WellFormed(d, luksPartuuid) && Possible(op, d)
    requires op.LuksFormat? ==> d.part.value.start == FIRST
    ensures WellFormed(Effect(op, d), luksPartuuid)
  {
  }

  lemma GrowOps(d: Disk, luksPartuuid: string)
    requires WellFormed(d, luksPartuuid) && IsLuks(d, luksPartuuid)
    ensures Effect(MoveBackup, d) == d
    ensures var g := Effect(Recreate(luksPartuuid), d);
            && Resized(d, g) && IsLuks(g, luksPartuuid)
            && g.part.value.bytes + GROW_THRESHOLD >= g.bytes
  {
  }

  lemma ResizeOps(d: Disk, luksPartuuid: string)
    requires WellFormed(d, luksPartuuid) && IsLuks(d, luksPartuuid)
    ensures var r := Effect(LuksResize, d);
            && Resized(d, r) && IsLuks(r, luksPartuuid) && r.part.value.bytes == d.part.value.bytes
            && Contained(r).mapped + LUKS_HEADER_SLACK >= r.part.value.bytes
  {
  }

  lemma ResizedTwice(d0: Disk, d1: Disk, d2: Disk)
    requires Resized(d0, d1) && Resized(d1, d2)
    ensures Resized(d0, d2) && VarOf(d2) == VarOf(d0)
  {
  }

  lemma ResizedKeeps(d0: Disk, d1: Disk)
    requires Resized(d0, d1)
    ensures VarOf(d1) == VarOf(d0) && Contained(d1).LuksVolume?
    ensures Contained(d0).inner.Vacant? <==> Contained(d1).inner.Vacant?
    ensures Contained(d0).inner.Alien? <==> Contained(d1).inner.Alien?
  {
  }

  /** Sizes changed, and then what is inside the volume. */
  lemma UnlockedKeeps(d0: Disk, d1: Disk, d2: Disk)
    requires Resized(d0, d1) && SameVolume(d1, d2)
    ensures d2.part.Some? && d2.part.value.start == d0.part.value.start && ProbeOf(d2) == ProbeOf(d1)
    ensures Grown(d1) <==> Grown(d2)
    ensures Resized(d1, d2) ==> Resized(d0, d2)
  {
    SameVolumeKeeps(d1, d2);
    if Resized(d1, d2) {
      ResizedTwice(d0, d1, d2);
    }
  }

  lemma SameVolumeKeeps(d0: Disk, d1: Disk)
    requires SameVolume(d0, d1)
    ensures d1.part.value.start == d0.part.value.start && d1.part.value.bytes == d0.part.value.bytes
    ensures Contained(d1).mapped == Contained(d0).mapped
    ensures Grown(d0) <==> Grown(d1)
  {
  }

  /** A LUKS volume of this installation, opened by this passphrase. */
  predicate Locked(d: Disk, luksPartuuid: string, passphrase: string) {
    IsLuks(d, luksPartuuid) && Contained(d).LuksVolume? && Contained(d).passphrase == passphrase
  }

  lemma LockedKept(d0: Disk, d1: Disk, luksPartuuid: string, passphrase: string)
    requires SameVolume(d0, d1) && Locked(d0, luksPartuuid, passphrase)
    ensures Locked(d1, luksPartuuid, passphrase)
  {
  }

  lemma LockOps(d: Disk, luksPartuuid: string, passphrase: string)
    requires d.part.Some? && d.part.value.partuuid == luksPartuuid
    ensures Locked(Effect(LuksFormat(passphrase), d), luksPartuuid, passphrase)
  {
  }

  lemma SameVolumeTwice(d0: Disk, d1: Disk, d2: Disk)
    requires SameVolume(d0, d1) && SameVolume(d1, d2)
    ensures SameVolume(d0, d2)
  {
  }

  type Log = seq<(string, Op)>

  /** What a later log adds: tools run on one disk, and which of them. */
  predicate AddsOnly(before: Log, after: Log, id: string, grows: bool, formats: bool) {
    && before <= after
    && forall i :: |before| <= i < |after| ==>
         && after[i].0 == id
         && (Growing(after[i].1) ==> grows)
         && (Destructive(after[i].1) ==> formats && after[i].1.MakeFs?)
  }

  lemma AddsTwice(l0: Log, l1: Log, l2: Log, id: string, g1: bool, f1: bool, g2: bool, f2: bool)
    requires AddsOnly(l0, l1, id, g1, f1) && AddsOnly(l1, l2, id, g2, f2)
    ensures AddsOnly(l0, l2, id, g1 || g2, f1 || f2)
  {
  }

  lemma AddsOne(l: Log, id: string, op: Op)
    requires op.MakeFs?
    ensures AddsOnly(l, l + [(id, op)], id, false, true)
  {
  }

  predicate Growing(op: Op) {
    op.MoveBackup? || op.Recreate? || op.LuksResize?
  }

  predicate IsLuks(d: Disk, luksPartuuid: string) {
    Classify(ProbeOf(d), luksPartuuid) == Luks
  }

  class Manager {
    const ui: Ui<string>
    const luksPartuuid: string
    const fsLabel: string
    const minLength: nat
    var disks: Disks
    var tools: seq<bool>
    ghost var log: Log            // what the tools did in this boot

    constructor (ui: Ui<string>, luksPartuuid: string, fsLabel: string, minLength: nat, disks: Disks)
      ensures this.ui == ui && this.luksPartuuid == luksPartuuid && this.disks == disks
    {
      this.ui, this.luksPartuuid, this.fsLabel, this.minLength := ui, luksPartuuid, fsLabel, minLength;
      this.disks, this.tools, this.log := disks, [], [];
    }

    ghost predicate Inv()
      reads this, ui
    {
      TalkValid(TalkOf(ui)) && AllWellFormed(disks, luksPartuuid) && luksPartuuid != ""
    }

    /** Meanwhile a Confirm prompt was posted and answered so. */
    twostate predicate Said(yes: bool)
      reads ui
    {
      Told(old(ui.posted), TalkOf(ui), yes)
    }

    twostate function Agreed(): Consent
      reads ui
    {
      ConsentSince(old(ui.posted), TalkOf(ui), minLength)
    }

    /** Meanwhile a new passphrase, long enough, was given twice. */
    twostate predicate SaidTwice()
      reads ui
    {
      Chose(old(ui.posted), TalkOf(ui), minLength)
    }

    /** One call of a tool that changes no disk: mounts, probes, syncs. */
    method Run() returns (s: Status)
      modifies this`tools
      ensures Working(old(tools)) ==> Working(tools) && s != Err
    {
      if tools == [] {
        return Cut;
      }
      assert tools[0] in tools && forall ok :: ok in tools[1..] ==> ok in tools;
      s := if tools[0] then Ok else Err;
      tools := tools[1..];
    }

    /** So many such calls, until one does not work. */
    method RunAll(n: nat) returns (s: Status)
      modifies this`tools
      ensures Working(old(tools)) ==> Working(tools) && s != Err
    {
      s := Ok;
      for i := 0 to n
        invariant s == Ok && (Working(old(tools)) ==> Working(tools))
      {
        s := Run();
        if s != Ok {
          return;
        }
      }
    }

    /** One call of a tool that changes a disk. A call that fails changes nothing. */
    method Do(id: string, op: Op) returns (s: Status)
      requires id in disks && AllWellFormed(disks, luksPartuuid)
      requires op.LuksFormat? ==> disks[id].part.Some? && disks[id].part.value.start == FIRST
      modifies this`tools, this`disks, this`log
      ensures s == Ok ==> Possible(op, old(disks[id])) && disks == old(disks)[id := Effect(op, old(disks[id]))]
      ensures AllWellFormed(disks, luksPartuuid)
      ensures s == Ok ==> log == old(log) + [(id, op)]
      ensures s != Ok ==> disks == old(disks) && log == old(log)
      ensures Working(old(tools)) ==> Working(tools) && (Possible(op, old(disks[id])) ==> s != Err)
    {
      s := Run();
      if s == Ok {
        if Possible(op, disks[id]) {
          EffectWellFormed(op, disks[id], luksPartuuid);
          disks := disks[id := Effect(op, disks[id])];
          log := log + [(id, op)];
        } else {
          s := Err;
        }
      }
    }

    // --- growth ---------------------------------------------------------------------

    method MaybeGrowPartition(id: string) returns (e: Option<End>, grew: bool)
      requires Inv() && id in disks && IsLuks(disks[id], luksPartuuid)
      modifies this`tools, this`disks, this`log
      ensures Halts(e)
      ensures Inv() && OnlyChanged(old(disks), disks, {id}) && Resized(old(disks[id]), disks[id])
      ensures IsLuks(disks[id], luksPartuuid)
      ensures Contained(disks[id]) == old(Contained(disks[id]))
      ensures e.None? ==> disks[id].part.value.bytes + GROW_THRESHOLD >= disks[id].bytes
      ensures old(Grown(disks[id])) ==> disks == old(disks) && !grew
      ensures AddsOnly(old(log), log, id, !old(Grown(disks[id])), false)
      ensures Working(old(tools)) ==> Working(tools) && e != Some(FailedBoot)
    {
      grew := false;
      var s := Run();
      if s != Ok {
        return Some(EndOf(s)), false;
      }
      var diskBytes := disks[id].bytes;
      s := Run();
      if s != Ok {
        return Some(EndOf(s)), false;
      }
      var partBytes := disks[id].part.value.bytes;
      if partBytes + GROW_THRESHOLD >= diskBytes {
        return None, false;
      }
      e := GrowPartition(id);
      return e, e.None?;
    }

    method GrowPartition(id: string) returns (e: Option<End>)
      requires Inv() && id in disks && IsLuks(disks[id], luksPartuuid)
      modifies this`tools, this`disks, this`log
      ensures Halts(e)
      ensures Inv() && OnlyChanged(old(disks), disks, {id}) && Resized(old(disks[id]), disks[id])
      ensures IsLuks(disks[id], luksPartuuid)
      ensures Contained(disks[id]) == old(Contained(disks[id]))
      ensures e.None? ==> disks[id].part.value.bytes + GROW_THRESHOLD >= disks[id].bytes
      ensures AddsOnly(old(log), log, id, true, false)
      ensures Working(old(tools)) ==> Working(tools) && e != Some(FailedBoot)
    {
      GrowOps(disks[id], luksPartuuid);
      var s := Do(id, MoveBackup);
      assert disks == old(disks);
      if s == Ok {
        s := Do(id, Recreate(luksPartuuid));
      }
      return if s == Ok then None else Some(EndOf(s));
    }

    /** Ask until the passphrase opens the volume. */
    method OpenVolume(id: string) returns (e: Option<End>)
      requires Inv() && id in disks && Contained(disks[id]).LuksVolume?
      modifies this`tools, ui
      ensures Halts(e)
      ensures Inv()
      ensures Continued(old(TalkOf(ui)), TalkOf(ui))
      ensures e.None? ==> AnsweredTo(TalkOf(ui), ui.posted, UnlockPassphrase, Contained(disks[id]).passphrase)
      ensures e.None? ==> OpenedBy(old(ui.posted), TalkOf(ui), Contained(disks[id]).passphrase)
      ensures Working(old(tools)) ==> Working(tools) && e != Some(FailedBoot)
    {
      while true
        invariant Inv() && (Working(old(tools)) ==> Working(tools))
        invariant Continued(old(TalkOf(ui)), TalkOf(ui))
        decreases |ui.arrivals|
      {
        var pw := AskFor(ui, UnlockPassphrase);
        if pw.None? {
          return Some(PowerLost);
        }
        var s := Run();
        if s == Cut {
          return Some(PowerLost);
        }
        if s == Ok && pw.value == Contained(disks[id]).passphrase {
          return None;
        }
      }
    }

    /** The mapping follows the partition. */
    method MaybeResizeMapping(id: string, grew: bool) returns (e: Option<End>)
      requires Inv() && id in disks && IsLuks(disks[id], luksPartuuid)
      modifies this`tools, this`disks, this`log
      ensures Halts(e)
      ensures Inv() && OnlyChanged(old(disks), disks, {id}) && Resized(old(disks[id]), disks[id])
      ensures IsLuks(disks[id], luksPartuuid) && disks[id].part.value.bytes == old(disks[id].part.value.bytes)
      ensures e.None? ==> Contained(disks[id]).mapped + LUKS_HEADER_SLACK >= disks[id].part.value.bytes
      ensures !grew && old(Grown(disks[id])) ==> disks == old(disks)
      ensures AddsOnly(old(log), log, id, grew || !old(Grown(disks[id])), false)
      ensures Working(old(tools)) ==> Working(tools) && e != Some(FailedBoot)
    {
      ResizeOps(disks[id], luksPartuuid);
      var needsResize := grew;
      if !grew {
        var s := RunAll(2);  // both sizes
        if s != Ok {
          return Some(EndOf(s));
        }
        needsResize := Contained(disks[id]).mapped + LUKS_HEADER_SLACK < disks[id].part.value.bytes;
      }
      if !needsResize {
        return None;
      }
      var s := Do(id, LuksResize);
      return if s == Ok then None else Some(EndOf(s));
    }

    // --- unlocking ------------------------------------------------------------------

    method CreateVarSubvol(id: string) returns (e: Option<End>)
      requires id in disks && AllWellFormed(disks, luksPartuuid)
      modifies this`tools, this`disks, this`log
      ensures Halts(e)
      ensures disks == old(disks) || (Possible(CreateVar, old(disks[id])) &&
                disks == old(disks)[id := Effect(CreateVar, old(disks[id]))])
      ensures AllWellFormed(disks, luksPartuuid) && (e.None? ==> disks != old(disks))
      ensures log == old(log) || log == old(log) + [(id, CreateVar)]
      ensures Working(old(tools)) ==> Working(tools) && (Possible(CreateVar, old(disks[id])) ==> e != Some(FailedBoot))
    {
      var s := Run();
      if s != Ok {
        return Some(EndOf(s));
      }
      s := Do(id, CreateVar);
      if s != Ok {
        return Some(EndOf(s));
      }
      assert VarOf(disks[id]) == Some([]);
      s := Run();
      return if s == Ok then None else Some(EndOf(s));
    }

    /** The mapper holds btrfs: grow it, and make sure there is a `var`. */
    method FinishBtrfs(id: string) returns (e: End)
      requires Inv() && id in disks && IsLuks(disks[id], luksPartuuid) && Contained(disks[id]).inner.Holds?
      modifies this`tools, this`disks, this`log, ui
      ensures e != Migrated
      ensures Inv() && OnlyChanged(old(disks), disks, {id}) && SameVolume(old(disks[id]), disks[id])
      ensures Continued(old(TalkOf(ui)), TalkOf(ui))
      ensures VarKept(old(disks[id]), disks[id])
      ensures VarOf(disks[id]) != VarOf(old(disks[id])) ==> VarOf(disks[id]) == Some([]) && Said(true)
      ensures !Said(true) ==> Resized(old(disks[id]), disks[id])
      ensures e == Released ==> VarOf(disks[id]).Some? && FsGrown(disks[id])
      ensures AddsOnly(old(log), log, id, false, false)
      ensures Working(old(tools)) ==> Working(tools) && e != FailedBoot
      ensures e == Parked ==> Said(false)
    {
      var failed := GrowFs(id);
      if failed.Some? {
        return failed.value;
      }
      e := EnsureVar(id);
    }

    /** Mount the volume and let btrfs take all of the mapper. */
    method GrowFs(id: string) returns (e: Option<End>)
      requires Inv() && id in disks && IsLuks(disks[id], luksPartuuid) && Contained(disks[id]).inner.Holds?
      modifies this`tools, this`disks, this`log
      ensures Inv() && OnlyChanged(old(disks), disks, {id}) && SameVolume(old(disks[id]), disks[id])
      ensures IsLuks(disks[id], luksPartuuid) && Contained(disks[id]).inner.Holds?
      ensures VarOf(disks[id]) == VarOf(old(disks[id])) && Resized(old(disks[id]), disks[id])
      ensures e.None? ==> FsGrown(disks[id])
      ensures Halts(e) && AddsOnly(old(log), log, id, false, false)
      ensures Working(old(tools)) ==> Working(tools) && e != Some(FailedBoot)
    {
      InnerOps(ResizeFs, disks[id]);
      var s := Run();
      if s == Ok {
        s := Do(id, ResizeFs);
      }
      return if s == Ok then None else Some(EndOf(s));
    }

    method EnsureVar(id: string) returns (e: End)
      requires Inv() && id in disks && Contained(disks[id]).LuksVolume? && Contained(disks[id]).inner.Holds?
      modifies this`tools, this`disks, this`log, ui
      ensures e != Migrated
      ensures Inv() && OnlyChanged(old(disks), disks, {id}) && SameVolume(old(disks[id]), disks[id])
      ensures Continued(old(TalkOf(ui)), TalkOf(ui)) && (!Said(true) ==> disks == old(disks))
      ensures VarKept(old(disks[id]), disks[id])
      ensures VarOf(disks[id]) != VarOf(old(disks[id])) ==> VarOf(disks[id]) == Some([]) && Said(true)
      ensures FsGrown(old(disks[id])) ==> FsGrown(disks[id])
      ensures e == Released ==> VarOf(disks[id]).Some?
      ensures AddsOnly(old(log), log, id, false, false)
      ensures Working(old(tools)) ==> Working(tools) && e != FailedBoot
      ensures e == Parked ==> Said(false)
    {
      var s := Run();
      if s == Cut {
        return PowerLost;
      }
      // A failed `subvolume show` reads as a missing subvolume.
      if s == Err || VarOf(disks[id]).None? {
        e := AddMissingVar(id);
        if e != Released {
          return;
        }
      }
      s := Run();
      return if s == Ok then Released else EndOf(s);
    }

    method AddMissingVar(id: string) returns (e: End)
      requires Inv() && id in disks && Contained(disks[id]).LuksVolume? && Contained(disks[id]).inner.Holds?
      modifies this`tools, this`disks, this`log, ui
      ensures e != Migrated
      ensures Inv() && OnlyChanged(old(disks), disks, {id}) && SameVolume(old(disks[id]), disks[id])
      ensures Continued(old(TalkOf(ui)), TalkOf(ui))
      ensures (!Said(true) ==> disks == old(disks)) && (e == Parked ==> Said(false))
      ensures VarKept(old(disks[id]), disks[id])
      ensures VarOf(disks[id]) != VarOf(old(disks[id])) ==> VarOf(disks[id]) == Some([]) && Said(true)
      ensures FsGrown(old(disks[id])) ==> FsGrown(disks[id])
      ensures e == Released ==> VarOf(disks[id]).Some?
      ensures AddsOnly(old(log), log, id, false, false)
      ensures Working(old(tools)) ==> Working(tools) && (VarOf(old(disks[id])).None? ==> e != FailedBoot)
    {
      e := OfferVar(id);
    }

    /** Create the missing subvolume when told to; Released when it was created. */
    method OfferVar(id: string) returns (e: End)
      requires Inv() && id in disks && Contained(disks[id]).LuksVolume? && Contained(disks[id]).inner.Holds?
      modifies this`tools, this`disks, this`log, ui
      ensures e != Migrated
      ensures Inv() && Continued(old(TalkOf(ui)), TalkOf(ui))
      ensures (e == Released ==> Said(true)) && (e == Parked ==> Said(false))
      ensures e != Released ==> disks == old(disks) && log == old(log)
      ensures e == Released ==> Possible(CreateVar, old(disks[id])) && log == old(log) + [(id, CreateVar)] &&
                                disks == old(disks)[id := Effect(CreateVar, old(disks[id]))]
      ensures e == Released ==> SameVolume(old(disks[id]), disks[id]) && VarOf(disks[id]) == Some([]) &&
                                (FsGrown(old(disks[id])) ==> FsGrown(disks[id]))
      ensures Working(old(tools)) ==> Working(tools) && (VarOf(old(disks[id])).None? ==> e != FailedBoot)
    {
      var yes := AskConfirm(ui);
      if yes.None? {
        return PowerLost;
      }
      if !yes.value {
        var s := Run();
        return if s == Ok then Parked else EndOf(s);
      }
      var s := Do(id, CreateVar);
      if s != Ok {
        return EndOf(s);
      }
      InnerOps(CreateVar, old(disks[id]));
      return Released;
    }

    /** The mapper was proven empty: format it, but only when told to. */
    method FinishEmpty(id: string) returns (e: End)
      requires Inv() && id in disks && IsLuks(disks[id], luksPartuuid) && Contained(disks[id]).inner.Vacant?
      modifies this`tools, this`disks, this`log, ui
      ensures e != Migrated
      ensures Inv() && OnlyChanged(old(disks), disks, {id}) && SameVolume(old(disks[id]), disks[id])
      ensures Continued(old(TalkOf(ui)), TalkOf(ui))
      ensures (!Said(true) ==> disks == old(disks)) && (e == Parked ==> Said(false))
      ensures VarOf(disks[id]).None? || (VarOf(disks[id]) == Some([]) && Said(true))
      ensures e == Released ==> VarOf(disks[id]).Some? && FsGrown(disks[id])
      ensures AddsOnly(old(log), log, id, false, Said(true))
      ensures Working(old(tools)) ==> Working(tools) && e != FailedBoot
    {
      var yes := AskConfirm(ui);
      if yes.None? {
        return PowerLost;
      }
      if !yes.value {
        return Parked;
      }
      var c := FormatVolume(id);
      return if c.Some? then c.value else Released;
    }

    method FormatVolume(id: string) returns (e: Option<End>)
      requires Inv() && id in disks && Contained(disks[id]).LuksVolume? && VarOf(disks[id]).None?
      modifies this`tools, this`disks, this`log
      ensures Halts(e)
      ensures Inv() && OnlyChanged(old(disks), disks, {id}) && SameVolume(old(disks[id]), disks[id])
      ensures VarOf(disks[id]).None? || VarOf(disks[id]) == Some([])
      ensures e.None? ==> VarOf(disks[id]).Some? && FsGrown(disks[id])
      ensures AddsOnly(old(log), log, id, false, true)
      ensures Working(old(tools)) ==> Working(tools) && e != Some(FailedBoot)
    {
      var s := Do(id, MakeFs(fsLabel));
      if s != Ok {
        return Some(EndOf(s));
      }
      ghost var d0, d1, l1 := old(disks[id]), disks[id], log;
      InnerOps(MakeFs(fsLabel), d0);
      AddsOne(old(log), id, MakeFs(fsLabel));
      e := AddVar(id);
      SameVolumeTwice(d0, d1, disks[id]);
      AddsTwice(old(log), l1, log, id, false, true, false, false);
    }

    method AddVar(id: string) returns (e: Option<End>)
      requires Inv() && id in disks && Contained(disks[id]).LuksVolume? && Contained(disks[id]).inner.Holds?
      requires VarOf(disks[id]).None? && FsGrown(disks[id])
      modifies this`tools, this`disks, this`log
      ensures Halts(e)
      ensures Inv() && OnlyChanged(old(disks), disks, {id}) && SameVolume(old(disks[id]), disks[id])
      ensures e.None? ==> VarOf(disks[id]).Some?
      ensures VarOf(disks[id]).None? || VarOf(disks[id]) == Some([])
      ensures FsGrown(disks[id])
      ensures AddsOnly(old(log), log, id, false, false)
      ensures Working(old(tools)) ==> Working(tools) && e != Some(FailedBoot)
    {
      InnerOps(CreateVar, disks[id]);
      e := CreateVarSubvol(id);
    }

    /** After the mapping is open and sized: look inside, and act on what was proven. */
    method Finish(id: string) returns (e: End)
      requires Inv() && id in disks && IsLuks(disks[id], luksPartuuid)
      modifies this`tools, this`disks, this`log, ui
      ensures e != Migrated
      ensures Inv() && OnlyChanged(old(disks), disks, {id}) && SameVolume(old(disks[id]), disks[id])
      ensures Continued(old(TalkOf(ui)), TalkOf(ui))
      ensures VarKept(old(disks[id]), disks[id])
      ensures VarOf(disks[id]) != VarOf(old(disks[id])) ==> VarOf(disks[id]) == Some([]) && Said(true)
      ensures !Said(true) ==> Resized(old(disks[id]), disks[id])
      ensures e == Released ==> VarOf(disks[id]).Some? && FsGrown(disks[id])
      ensures AddsOnly(old(log), log, id, false, old(Contained(disks[id])).inner.Vacant? && Said(true))
      ensures Working(old(tools)) ==> Working(tools) && e != FailedBoot
      ensures Working(old(tools)) && e == Parked ==> Said(false) || old(Contained(disks[id])).inner.Alien?
    {
      var s := Run();
      if s == Cut {
        return PowerLost;
      }
      var probe := MapperProbe(disks[id]);
      var found := if s == Ok then MapperFsFromBlkid(probe.0, probe.1) else MapperFsFromBlkid(None, "");
      match found {
        case Btrfs => e := FinishBtrfs(id);
        case Empty => e := FinishEmpty(id);
        case Other(_) => e := Parked;
        case Unknown => e := Parked;
      }
    }

    /** The growth of the partition, the passphrase, and the mapping that follows it. */
    method OpenGrown(id: string) returns (e: Option<End>)
      requires Inv() && id in disks && IsLuks(disks[id], luksPartuuid)
      modifies this`tools, this`disks, this`log, ui
      ensures Halts(e)
      ensures Inv() && OnlyChanged(old(disks), disks, {id}) && IsLuks(disks[id], luksPartuuid)
      ensures Continued(old(TalkOf(ui)), TalkOf(ui))
      ensures Resized(old(disks[id]), disks[id]) && (e.None? ==> Grown(disks[id]))
      ensures e.None? || Contained(disks[id]) != old(Contained(disks[id])) ==>
                OpenedBy(old(ui.posted), TalkOf(ui), old(Contained(disks[id])).passphrase)
      ensures AddsOnly(old(log), log, id, !old(Grown(disks[id])), false)
      ensures Working(old(tools)) ==> Working(tools) && e != Some(FailedBoot)
    {
      ghost var d0, l0 := disks[id], log;
      var grew;
      e, grew := MaybeGrowPartition(id);
      ghost var d1, l1 := disks[id], log;
      ResizedKeeps(d0, d1);
      if e.Some? {
        return;
      }
      e := OpenVolume(id);
      if e.Some? {
        return;
      }
      e := MaybeResizeMapping(id, grew);
      ResizedTwice(d0, d1, disks[id]);
      ResizedKeeps(d0, disks[id]);
      AddsTwice(l0, l1, log, id, !Grown(d0), false, grew || !Grown(d1), false);
    }

    method Unlock(id: string) returns (e: End)
      requires Inv() && id in disks && IsLuks(disks[id], luksPartuuid)
      modifies this`tools, this`disks, this`log, ui
      ensures e != Migrated
      ensures Inv() && OnlyChanged(old(disks), disks, {id})
      ensures Continued(old(TalkOf(ui)), TalkOf(ui))
      ensures IsLuks(disks[id], luksPartuuid) && disks[id].part.value.start == old(disks[id].part.value.start)
      // An existing `var` is never changed; a new one is empty and was asked for.
      ensures VarKept(old(disks[id]), disks[id])
      ensures VarOf(disks[id]) != VarOf(old(disks[id])) ==> VarOf(disks[id]) == Some([]) && Said(true)
      // Without a yes nothing changes but sizes.
      ensures !Said(true) ==> Resized(old(disks[id]), disks[id])
      // Before the passphrase was given only the partition can have grown.
      ensures e == Released || Contained(disks[id]) != old(Contained(disks[id])) ==>
                OpenedBy(old(ui.posted), TalkOf(ui), old(Contained(disks[id])).passphrase)
      // A completed unlock closes the growth chain, whatever was left open before it.
      ensures e == Released ==> VarOf(disks[id]).Some? && Grown(disks[id]) && FsGrown(disks[id])
      // Where the chain is closed nothing grows; only a vacant volume is formatted, and
      // only after a yes.
      ensures AddsOnly(old(log), log, id, !old(Grown(disks[id])),
                       old(Contained(disks[id])).inner.Vacant? && Said(true))
      // While the tools work a boot does not fail, and is parked only on a no, or over
      // something that is not btrfs.
      ensures Working(old(tools)) ==> Working(tools) && e != FailedBoot
      ensures Working(old(tools)) && e == Parked ==> Said(false) || old(Contained(disks[id])).inner.Alien?
    {
      ghost var d0, l0 := disks[id], log;
      var halted := OpenGrown(id);
      ghost var d1, l1 := disks[id], log;
      ResizedKeeps(d0, d1);
      assert d1.part.value.start == d0.part.value.start;
      if halted.Some? {
        return halted.value;
      }
      ghost var t1 := TalkOf(ui);
      e := Finish(id);
      UnlockedKeeps(d0, d1, disks[id]);
      ContinuedTwice(old(TalkOf(ui)), t1, TalkOf(ui));
      SaidSince(old(ui.posted), t1, TalkOf(ui));
      OpenedLater(old(ui.posted), t1, TalkOf(ui), Contained(d0).passphrase);
      AddsTwice(l0, l1, log, id, !Grown(d0), false, false,
                Contained(d0).inner.Vacant? && Told(t1.hub.posted, TalkOf(ui), true));
    }

    // --- formatting, migrating, provisioning --------------------------------------------

    /** GPT, LUKS2 and btrfs on a blank disk. */
    method FormatEncrypted(id: string, pass: string) returns (e: Option<End>)
      requires Inv() && id in disks && VarOf(disks[id]).None?
      modifies this`tools, this`disks, this`log
      ensures Halts(e)
      ensures Inv() && OnlyChanged(old(disks), disks, {id}) && VarOf(disks[id]).None?
      ensures e.None? ==> Receiving(disks[id], None) && Locked(disks[id], luksPartuuid, pass)
      ensures FormatsOnly(old(log), log, id)
      ensures Working(old(tools)) ==> Working(tools) && e != Some(FailedBoot)
    {
      ghost var l0 := log;
      e := MakePartition(id);
      if e.None? {
        ghost var l1 := log;
        e := MakeVolume(id, pass);
        FormatsTwice(l0, l1, log, id);
      }
    }

    method MakePartition(id: string) returns (e: Option<End>)
      requires Inv() && id in disks && VarOf(disks[id]).None?
      modifies this`tools, this`disks, this`log
      ensures Halts(e)
      ensures Inv() && OnlyChanged(old(disks), disks, {id}) && VarOf(disks[id]).None?
      ensures e.None? ==> NewPart(disks[id], luksPartuuid)
      ensures FormatsOnly(old(log), log, id)
      ensures Working(old(tools)) ==> Working(tools) && e != Some(FailedBoot)
    {
      FormatOps(disks[id], ZapTable);
      var s := Do(id, ZapTable);
      if s != Ok {
        return Some(EndOf(s));
      }
      ghost var l1 := log;
      e := AddPartition(id);
      FormatsTwice(old(log), l1, log, id);
    }

    method AddPartition(id: string) returns (e: Option<End>)
      requires Inv() && id in disks && VarOf(disks[id]).None?
      modifies this`tools, this`disks, this`log
      ensures Halts(e)
      ensures Inv() && OnlyChanged(old(disks), disks, {id}) && VarOf(disks[id]).None?
      ensures e.None? ==> NewPart(disks[id], luksPartuuid)
      ensures FormatsOnly(old(log), log, id)
      ensures Working(old(tools)) ==> Working(tools) && (old(disks[id]).part.None? ==> e != Some(FailedBoot))
    {
      FormatOps(disks[id], NewPartition(luksPartuuid));
      var s := Do(id, NewPartition(luksPartuuid));
      if s != Ok {
        return Some(EndOf(s));
      }
      // The partition's device may never appear.
      s := Run();
      return if s == Ok then None else Some(EndOf(s));
    }

    method MakeVolume(id: string, pass: string) returns (e: Option<End>)
      requires Inv() && id in disks && VarOf(disks[id]).None? && NewPart(disks[id], luksPartuuid)
      modifies this`tools, this`disks, this`log
      ensures Halts(e)
      ensures Inv() && OnlyChanged(old(disks), disks, {id}) && VarOf(disks[id]).None?
      ensures e.None? ==> Receiving(disks[id], None) && Locked(disks[id], luksPartuuid, pass)
      ensures FormatsOnly(old(log), log, id)
      ensures Working(old(tools)) ==> Working(tools) && e != Some(FailedBoot)
    {
      e := MakeLuks(id, pass);
      if e.Some? {
        return;
      }
      ghost var d1, l1 := disks[id], log;
      e := FormatMapper(id);
      LockedKept(d1, disks[id], luksPartuuid, pass);
      FormatsTwice(old(log), l1, log, id);
    }

    /** Format the partition, and open it. */
    method MakeLuks(id: string, pass: string) returns (e: Option<End>)
      requires Inv() && id in disks && VarOf(disks[id]).None? && NewPart(disks[id], luksPartuuid)
      modifies this`tools, this`disks, this`log
      ensures Halts(e)
      ensures Inv() && OnlyChanged(old(disks), disks, {id}) && VarOf(disks[id]).None?
      ensures e.None? ==> Locked(disks[id], luksPartuuid, pass)
      ensures FormatsOnly(old(log), log, id)
      ensures Working(old(tools)) ==> Working(tools) && e != Some(FailedBoot)
    {
      FormatOps(disks[id], LuksFormat(pass));
      LockOps(disks[id], luksPartuuid, pass);
      var s := Do(id, LuksFormat(pass));
      if s == Ok {
        s := Run();
      }
      return if s == Ok then None else Some(EndOf(s));
    }

    method FormatMapper(id: string) returns (e: Option<End>)
      requires Inv() && id in disks && VarOf(disks[id]).None? && Contained(disks[id]).LuksVolume?
      modifies this`tools, this`disks, this`log
      ensures Halts(e)
      ensures Inv() && OnlyChanged(old(disks), disks, {id}) && VarOf(disks[id]).None?
      ensures SameVolume(old(disks[id]), disks[id]) && (e.None? ==> Receiving(disks[id], None))
      ensures FormatsOnly(old(log), log, id)
      ensures Working(old(tools)) ==> Working(tools) && e != Some(FailedBoot)
    {
      FormatOps(disks[id], MakeFs(fsLabel));
      InnerOps(MakeFs(fsLabel), disks[id]);
      var s := Do(id, MakeFs(fsLabel));
      return if s == Ok then None else Some(EndOf(s));
    }

    /** Pump the snapshot of the source to the target, a buffer at a time. */
    method CopyWithProgress(blank: string, src: Data) returns (e: Option<End>)
      requires Inv() && blank in disks && Receiving(disks[blank], None) && Contained(disks[blank]).LuksVolume?
      modifies this`tools, this`disks, this`log
      ensures Halts(e)
      ensures Inv() && OnlyChanged(old(disks), disks, {blank})
      ensures FilesystemOf(disks[blank]).Some? && VarOf(disks[blank]).None?
      ensures SameVolume(old(disks[blank]), disks[blank])
      ensures e.None? ==> Receiving(disks[blank], Some(src))
      ensures FormatsOnly(old(log), log, blank)
      ensures Working(old(tools)) ==> Working(tools) && e != Some(FailedBoot)
    {
      e := BeginCopy(blank);
      if e.Some? {
        return;
      }
      ghost var d1, l1 := disks[blank], log;
      e := Pump(blank, src);
      SameVolumeTwice(old(disks[blank]), d1, disks[blank]);
      FormatsTwice(old(log), l1, log, blank);
      if e.None? {
        var s := RunAll(2);  // the two ends of the pipe
        e := if s == Ok then None else Some(EndOf(s));
      }
    }

    /** Start both ends of the pipe. */
    method BeginCopy(blank: string) returns (e: Option<End>)
      requires Inv() && blank in disks && Receiving(disks[blank], None) && Contained(disks[blank]).LuksVolume?
      modifies this`tools, this`disks, this`log
      ensures Halts(e)
      ensures Inv() && OnlyChanged(old(disks), disks, {blank})
      ensures SameVolume(old(disks[blank]), disks[blank])
      ensures FilesystemOf(disks[blank]).Some? && VarOf(disks[blank]).None?
      ensures e.None? ==> Receiving(disks[blank], Some([]))
      ensures FormatsOnly(old(log), log, blank)
      ensures Working(old(tools)) ==> Working(tools) && e != Some(FailedBoot)
    {
      ReceiveOps(disks[blank], BeginReceive);
      var s := Run();
      if s == Ok {
        s := Do(blank, BeginReceive);
      }
      return if s == Ok then None else Some(EndOf(s));
    }

    /** Write the part of the stream between two positions. */
    method ReceiveChunk(blank: string, src: Data, i: nat, n: nat) returns (s: Status)
      requires i <= n <= |src|
      requires Inv() && blank in disks && Receiving(disks[blank], Some(src[..i])) && Contained(disks[blank]).LuksVolume?
      modifies this`tools, this`disks, this`log
      ensures Inv() && OnlyChanged(old(disks), disks, {blank})
      ensures SameVolume(old(disks[blank]), disks[blank])
      ensures Receiving(disks[blank], Some(src[..if s == Ok then n else i]))
      ensures FormatsOnly(old(log), log, blank)
      ensures Working(old(tools)) ==> Working(tools) && s != Err
    {
      ReceiveOps(disks[blank], Receive(src[i..n]));
      assert src[..i] + src[i..n] == src[..n];
      s := Do(blank, Receive(src[i..n]));
    }

    method Pump(blank: string, src: Data) returns (e: Option<End>)
      requires Inv() && blank in disks && Receiving(disks[blank], Some([])) && Contained(disks[blank]).LuksVolume?
      modifies this`tools, this`disks, this`log
      ensures Halts(e)
      ensures Inv() && OnlyChanged(old(disks), disks, {blank})
      ensures FilesystemOf(disks[blank]).Some? && VarOf(disks[blank]).None?
      ensures SameVolume(old(disks[blank]), disks[blank])
      ensures e.None? ==> Receiving(disks[blank], Some(src))
      ensures FormatsOnly(old(log), log, blank)
      ensures Working(old(tools)) ==> Working(tools) && e != Some(FailedBoot)
    {
      var copied := 0;
      while copied < |src|
        invariant 0 <= copied <= |src|
        invariant Inv() && OnlyChanged(old(disks), disks, {blank}) && Receiving(disks[blank], Some(src[..copied]))
        invariant SameVolume(old(disks[blank]), disks[blank]) && FormatsOnly(old(log), log, blank)
        invariant Working(old(tools)) ==> Working(tools)
      {
        var n := if copied + MIB <= |src| then copied + MIB else |src|;
        ghost var d1, l1 := disks[blank], log;
        var s := ReceiveChunk(blank, src, copied, n);
        SameVolumeTwice(old(disks[blank]), d1, disks[blank]);
        FormatsTwice(old(log), l1, log, blank);
        if s != Ok {
          return Some(EndOf(s));
        }
        copied := n;
      }
      assert src[..copied] == src;
      return None;
    }

    /** Copy the legacy `var` to a new encrypted disk, and park. A `var` appears there
        only as a whole. */
    method Migrate(legacy: string, blank: string, usageReadable: bool) returns (e: End)
      requires Inv() && legacy in disks && blank in disks && legacy != blank
      requires Contained(disks[legacy]).Plain? && VarOf(disks[blank]).None?
      modifies this`tools, this`disks, this`log, ui
      ensures e != Released
      ensures Inv() && OnlyChanged(old(disks), disks, {legacy, blank})
      ensures SnapshotOnly(old(disks[legacy]), disks[legacy])
      ensures VarOf(disks[blank]).Some? ==> VarOf(disks[blank]) == VarOf(old(disks[legacy]))
      ensures old(disks[blank]).bytes < FilesystemOf(old(disks[legacy])).value.base + SIZE_HEADROOM ==>
                disks[blank] == old(disks[blank])
      ensures FormatsOnly(old(log), log, blank)
      // What it calls complete is: the whole `var`, on a volume opened by a passphrase
      // that was long enough and given twice, and no leftover on either disk.
      ensures e == Migrated ==> Copied(old(disks), disks, legacy, blank) && IsLuks(disks[blank], luksPartuuid)
      ensures e == Migrated ==> Contained(disks[blank]).LuksVolume? && |Contained(disks[blank]).passphrase| >= minLength
      ensures e == Migrated ==> GivenTwice(old(ui.posted), TalkOf(ui), Contained(disks[blank]).passphrase)
      // Nothing is formatted before such a passphrase was given.
      ensures Continued(old(TalkOf(ui)), TalkOf(ui)) && (NoFormats(old(log), log) || SaidTwice())
      ensures Working(old(tools)) && VarOf(old(disks[legacy])).Some? ==> e != FailedBoot
    {
      ghost var d0, l0 := disks[legacy], log;
      var c := DropLeftover(legacy);
      ghost var d1, l1 := disks[legacy], log;
      SnapshotTwice(d0, d1, d1);
      if c.Some? {
        return c.value;
      }
      c := CheckSize(legacy, blank, usageReadable);
      if c.Some? {
        return c.value;
      }
      var pass := AskNewPassphrase(ui, minLength);
      if pass.None? {
        return PowerLost;
      }
      assert SaidTwice();
      e := CopyToNew(legacy, blank, pass.value);
      SnapshotTwice(d0, d1, disks[legacy]);
      FormatsTwice(l0, l1, log, blank);
    }

    /** Is there room for what the source uses, and to spare? */
    method CheckSize(legacy: string, blank: string, usageReadable: bool) returns (e: Option<End>)
      requires legacy in disks && blank in disks && FilesystemOf(disks[legacy]).Some?
      modifies this`tools
      ensures e != Some(Released) && e != Some(Migrated)
      ensures e.None? ==> disks[blank].bytes >= FilesystemOf(disks[legacy]).value.base + SIZE_HEADROOM
      ensures Working(old(tools)) ==> Working(tools) && e != Some(FailedBoot)
    {
      var s := Run();
      if s != Ok {
        return Some(EndOf(s));
      }
      var fs := FilesystemOf(disks[legacy]).value;
      var used := fs.base + if fs.migrateSrc.Some? then fs.pinned else 0;
      if !usageReadable {
        s := Run();
        return Some(if s == Cut then PowerLost else Parked);
      }
      s := Run();
      if s != Ok {
        return Some(EndOf(s));
      }
      if disks[blank].bytes < used + SIZE_HEADROOM {
        s := Run();
        return Some(if s == Cut then PowerLost else Parked);
      }
      return None;
    }

    /** Clean up after an interrupted attempt. */
    method DropLeftover(legacy: string) returns (e: Option<End>)
      requires Inv() && legacy in disks && Contained(disks[legacy]).Plain?
      modifies this`tools, this`disks, this`log
      ensures Halts(e)
      ensures Inv() && OnlyChanged(old(disks), disks, {legacy})
      ensures SnapshotOnly(old(disks[legacy]), disks[legacy])
      ensures NoFormats(old(log), log)
      ensures Working(old(tools)) ==> Working(tools) && e != Some(FailedBoot)
      ensures Working(old(tools)) && e.None? ==> NoLeftover(disks[legacy])
    {
      var s := Run();
      if s != Ok {
        return Some(EndOf(s));
      }
      // A failed `subvolume show` reads as no leftover snapshot.
      s := Run();
      if s == Cut {
        return Some(PowerLost);
      }
      SnapshotSelf(disks[legacy]);
      if s == Ok && FilesystemOf(disks[legacy]).value.migrateSrc.Some? {
        e := DeleteLeftover(legacy);
      } else {
        e := None;
      }
    }

    method DeleteLeftover(legacy: string) returns (e: Option<End>)
      requires Inv() && legacy in disks && Contained(disks[legacy]).Plain?
      requires FilesystemOf(disks[legacy]).value.migrateSrc.Some?
      modifies this`tools, this`disks, this`log
      ensures Halts(e)
      ensures Inv() && OnlyChanged(old(disks), disks, {legacy})
      ensures SnapshotOnly(old(disks[legacy]), disks[legacy])
      ensures NoFormats(old(log), log)
      ensures e.None? ==> NoLeftover(disks[legacy])
      ensures Working(old(tools)) ==> Working(tools) && e != Some(FailedBoot)
    {
      SnapshotSelf(disks[legacy]);
      SnapshotOps(disks[legacy], DropSnapshot);
      ReceiveOps(disks[legacy], DropSnapshot);
      var s := Do(legacy, DropSnapshot);
      if s == Ok {
        s := Run();
      }
      return if s == Ok then None else Some(EndOf(s));
    }

    method CopyToNew(legacy: string, blank: string, pass: string) returns (e: End)
      requires Inv() && legacy in disks && blank in disks && legacy != blank
      requires Contained(disks[legacy]).Plain? && VarOf(disks[blank]).None?
      modifies this`tools, this`disks, this`log
      ensures e != Released
      ensures Inv() && OnlyChanged(old(disks), disks, {legacy, blank})
      ensures SnapshotOnly(old(disks[legacy]), disks[legacy])
      ensures VarOf(disks[blank]).Some? ==> VarOf(disks[blank]) == VarOf(old(disks[legacy]))
      ensures FormatsOnly(old(log), log, blank)
      ensures e == Migrated ==> Copied(old(disks), disks, legacy, blank) && Locked(disks[blank], luksPartuuid, pass)
      ensures Working(old(tools)) ==> Working(tools)
      ensures Working(old(tools)) && VarOf(old(disks[legacy])).Some? && NoLeftover(old(disks[legacy])) ==>
                e != FailedBoot
    {
      ghost var b0, l0 := disks, log;
      SnapshotSelf(disks[legacy]);
      var c := FormatEncrypted(blank, pass);
      ghost var b1, l1 := disks, log;
      if c.Some? {
        return c.value;
      }
      e := CopyOver(legacy, blank);
      if e == Migrated {
        LockedKept(b1[blank], disks[blank], luksPartuuid, pass);
      }
      FormatsTwice(l0, l1, log, blank);
      ChangedTwice(b0, b1, disks, {blank}, {blank, legacy});
    }

    /** Send the source to the new file system, and make a `var` of it. */
    method CopyOver(legacy: string, blank: string) returns (e: End)
      requires Inv() && legacy in disks && blank in disks && legacy != blank
      requires Contained(disks[legacy]).Plain? && Receiving(disks[blank], None) && Contained(disks[blank]).LuksVolume?
      modifies this`tools, this`disks, this`log
      ensures e != Released
      ensures Inv() && OnlyChanged(old(disks), disks, {legacy, blank})
      ensures SnapshotOnly(old(disks[legacy]), disks[legacy])
      ensures VarOf(disks[blank]).Some? ==> VarOf(disks[blank]) == VarOf(old(disks[legacy]))
      ensures FormatsOnly(old(log), log, blank)
      ensures e == Migrated ==> Copied(old(disks), disks, legacy, blank) && SameVolume(old(disks[blank]), disks[blank])
      ensures Working(old(tools)) ==> Working(tools)
      ensures Working(old(tools)) && VarOf(old(disks[legacy])).Some? && NoLeftover(old(disks[legacy])) ==>
                e != FailedBoot
    {
      ghost var b0, l0 := disks, log;
      var c := SnapshotSource(legacy);
      ghost var b1, l1 := disks, log;
      if c.Some? {
        return c.value;
      }
      var src := FilesystemOf(disks[legacy]).value.migrateSrc.value;
      c := CopyWithProgress(blank, src);
      ghost var b2, l2 := disks, log;
      FormatsTwice(l0, l1, l2, blank);
      ChangedTwice(b0, b1, b2, {legacy}, {blank});
      if c.Some? {
        return c.value;
      }
      e := PublishCopy(legacy, blank, src);
      if e == Migrated {
        SameVolumeTwice(b0[blank], b2[blank], disks[blank]);
      }
      FormatsTwice(l0, l2, log, blank);
      ChangedTwice(b0, b2, disks, {legacy, blank}, {legacy, blank});
      SnapshotTwice(b0[legacy], b1[legacy], disks[legacy]);
    }

    method SnapshotSource(legacy: string) returns (e: Option<End>)
      requires Inv() && legacy in disks && Contained(disks[legacy]).Plain?
      modifies this`tools, this`disks, this`log
      ensures Halts(e)
      ensures Inv() && OnlyChanged(old(disks), disks, {legacy})
      ensures SnapshotOnly(old(disks[legacy]), disks[legacy])
      ensures e.None? ==> FilesystemOf(disks[legacy]).value.migrateSrc == VarOf(old(disks[legacy])) &&
                          VarOf(old(disks[legacy])).Some?
      ensures NoFormats(old(log), log)
      ensures Working(old(tools)) ==> Working(tools)
      ensures Working(old(tools)) && VarOf(old(disks[legacy])).Some? && NoLeftover(old(disks[legacy])) ==>
                e != Some(FailedBoot)
    {
      SnapshotSelf(disks[legacy]);
      if Possible(TakeSnapshot, disks[legacy]) {
        SnapshotOps(disks[legacy], TakeSnapshot);
      }
      var s := Do(legacy, TakeSnapshot);
      if s == Ok {
        s := RunAll(2);  // sync, mount
      }
      return if s == Ok then None else Some(EndOf(s));
    }

    method PublishCopy(legacy: string, blank: string, src: Data) returns (e: End)
      requires Inv() && legacy in disks && blank in disks && legacy != blank
      requires Contained(disks[legacy]).Plain? && FilesystemOf(disks[legacy]).value.migrateSrc.Some?
      requires Receiving(disks[blank], Some(src)) && Contained(disks[blank]).LuksVolume?
      modifies this`tools, this`disks, this`log
      ensures e != Released
      ensures Inv() && OnlyChanged(old(disks), disks, {legacy, blank})
      ensures SnapshotOnly(old(disks[legacy]), disks[legacy])
      ensures VarOf(disks[blank]).None? || VarOf(disks[blank]) == Some(src)
      ensures FormatsOnly(old(log), log, blank)
      ensures e == Migrated ==> VarOf(disks[blank]) == Some(src) && SameVolume(old(disks[blank]), disks[blank])
      ensures e == Migrated ==> NoLeftover(disks[blank]) && NoLeftover(disks[legacy])
      ensures Working(old(tools)) ==> Working(tools) && e != FailedBoot
    {
      ghost var b0, l0 := disks, log;
      SnapshotSelf(disks[legacy]);
      var c := PublishVarOn(blank, src);
      ghost var b1, l1 := disks, log;
      if c.Some? {
        return c.value;
      }
      e := DropSource(legacy);
      FormatsTwice(l0, l1, log, blank);
      ChangedTwice(b0, b1, disks, {blank}, {legacy});
    }

    method PublishVarOn(blank: string, src: Data) returns (e: Option<End>)
      requires Inv() && blank in disks && Receiving(disks[blank], Some(src)) && Contained(disks[blank]).LuksVolume?
      modifies this`tools, this`disks, this`log
      ensures Halts(e)
      ensures Inv() && OnlyChanged(old(disks), disks, {blank})
      ensures VarOf(disks[blank]).None? || VarOf(disks[blank]) == Some(src)
      ensures SameVolume(old(disks[blank]), disks[blank])
      ensures e.None? ==> VarOf(disks[blank]) == Some(src) && NoLeftover(disks[blank])
      ensures FormatsOnly(old(log), log, blank)
      ensures Working(old(tools)) ==> Working(tools) && e != Some(FailedBoot)
    {
      ghost var d0, l0 := disks[blank], log;
      PublishOps(d0, src);
      var s := Do(blank, PublishVar);
      if s != Ok {
        return Some(EndOf(s));
      }
      ghost var d1, l1 := disks[blank], log;
      e := DropReceived(blank, src);
      SameVolumeTwice(d0, d1, disks[blank]);
      FormatsTwice(l0, l1, log, blank);
    }

    method DropReceived(blank: string, src: Data) returns (e: Option<End>)
      requires Inv() && blank in disks && VarOf(disks[blank]) == Some(src) && Contained(disks[blank]).LuksVolume?
      requires FilesystemOf(disks[blank]).value.migrateSrc.Some?
      modifies this`tools, this`disks, this`log
      ensures Halts(e)
      ensures Inv() && OnlyChanged(old(disks), disks, {blank}) && VarOf(disks[blank]) == Some(src)
      ensures SameVolume(old(disks[blank]), disks[blank])
      ensures e.None? ==> NoLeftover(disks[blank])
      ensures FormatsOnly(old(log), log, blank)
      ensures Working(old(tools)) ==> Working(tools) && e != Some(FailedBoot)
    {
      ReceiveOps(disks[blank], DropSnapshot);
      var s := Do(blank, DropSnapshot);
      return if s == Ok then None else Some(EndOf(s));
    }

    method DropSource(legacy: string) returns (e: End)
      requires Inv() && legacy in disks && Contained(disks[legacy]).Plain?
      requires FilesystemOf(disks[legacy]).value.migrateSrc.Some?
      modifies this`tools, this`disks, this`log
      ensures e != Released
      ensures Inv() && OnlyChanged(old(disks), disks, {legacy})
      ensures SnapshotOnly(old(disks[legacy]), disks[legacy])
      ensures NoFormats(old(log), log)
      ensures e == Migrated ==> NoLeftover(disks[legacy])
      ensures Working(old(tools)) ==> Working(tools) && e != FailedBoot
    {
      SnapshotSelf(disks[legacy]);
      SnapshotOps(disks[legacy], DropSnapshot);
      ReceiveOps(disks[legacy], DropSnapshot);
      var s := Do(legacy, DropSnapshot);
      if s == Ok {
        s := RunAll(4);  // sync, umount twice, close
      }
      return if s == Ok then Migrated else EndOf(s);
    }

    method Provision(blank: string) returns (e: End)
      requires Inv() && blank in disks && VarOf(disks[blank]).None?
      modifies this`tools, this`disks, this`log, ui
      ensures e != Migrated
      ensures Inv() && OnlyChanged(old(disks), disks, {blank})
      ensures VarOf(disks[blank]).None? || VarOf(disks[blank]) == Some([])
      ensures e == Released ==> VarOf(disks[blank]).Some? && IsLuks(disks[blank], luksPartuuid)
      ensures e == Released ==> Contained(disks[blank]).LuksVolume? && |Contained(disks[blank]).passphrase| >= minLength
      ensures e == Released ==> GivenTwice(old(ui.posted), TalkOf(ui), Contained(disks[blank]).passphrase)
      ensures FormatsOnly(old(log), log, blank)
      // Nothing is formatted before such a passphrase was given.
      ensures Continued(old(TalkOf(ui)), TalkOf(ui)) && (NoFormats(old(log), log) || SaidTwice())
      ensures Working(old(tools)) ==> Working(tools) && e != FailedBoot
    {
      var pass := AskNewPassphrase(ui, minLength);
      if pass.None? {
        return PowerLost;
      }
      assert SaidTwice();
      e := MakeVar(blank, pass.value);
    }

    /** Format the disk, and make an empty `var` on it. */
    method MakeVar(blank: string, pass: string) returns (e: End)
      requires Inv() && blank in disks && VarOf(disks[blank]).None?
      modifies this`tools, this`disks, this`log
      ensures e != Migrated
      ensures Inv() && OnlyChanged(old(disks), disks, {blank})
      ensures VarOf(disks[blank]).None? || VarOf(disks[blank]) == Some([])
      ensures e == Released ==> VarOf(disks[blank]).Some? && Locked(disks[blank], luksPartuuid, pass)
      ensures FormatsOnly(old(log), log, blank)
      ensures Working(old(tools)) ==> Working(tools) && e != FailedBoot
    {
      var c := FormatEncrypted(blank, pass);
      if c.Some? {
        return c.value;
      }
      NewVarOps(disks[blank], luksPartuuid, pass);
      c := CreateVarSubvol(blank);
      return if c.Some? then c.value else Released;
    }

    method EnsureLabel(legacy: string) returns (e: End)
      requires Inv() && legacy in disks && Contained(disks[legacy]).Plain?
      modifies this`tools, this`disks, this`log
      ensures e != Migrated
      ensures Inv() && OnlyChanged(old(disks), disks, {legacy}) && VarOf(disks[legacy]) == VarOf(old(disks[legacy]))
      ensures FormatsOnly(old(log), log, legacy) && forall i :: |old(log)| <= i < |log| ==> log[i].1.SetLabel?
      ensures e == Released ==>
                FilesystemOf(disks[legacy]).Some? && FilesystemOf(disks[legacy]).value.labelled == fsLabel
      ensures Working(old(tools)) ==> Working(tools) && e != FailedBoot
    {
      var s := Run();
      if s == Cut {
        return PowerLost;
      }
      // A failed probe reads as a missing label.
      if s == Err || FilesystemOf(disks[legacy]).value.labelled != fsLabel {
        WithFsIs(disks[legacy], FilesystemOf(disks[legacy]).value.(labelled := fsLabel));
        s := Do(legacy, SetLabel(fsLabel));
        if s != Ok {
          return EndOf(s);
        }
      }
      return Released;
    }

    // --- one boot -------------------------------------------------------------------------

    /** Classify the attached disks, plan, and act. However the boot ends, and wherever
        power is lost in it, what it did is within `BootEffects`. `classes` is what the
        disks were seen as; a probe that fails reads as nothing found. */
    method Boot(attached: seq<string>, usageReadable: bool) returns (e: End, classes: Classes)
      requires Inv() && forall id :: id in attached ==> id in disks
      modifies this, ui
      ensures Inv() && Continued(old(TalkOf(ui)), TalkOf(ui))
      ensures SeenAs(old(disks), attached, classes, luksPartuuid) && AreClasses(old(disks), classes, luksPartuuid)
      ensures Working(old(tools)) ==> classes == ClassesOf(old(disks), attached, luksPartuuid)
      ensures BootEffects(old(disks), disks, classes, log, ConsentSince(old(ui.posted), TalkOf(ui), minLength), e)
      ensures NewVolume(disks, classes, luksPartuuid, e)
      ensures PassphraseFirst(old(disks), disks, classes, old(ui.posted), TalkOf(ui), e)
      ensures Working(old(tools)) && CanAct(old(disks), classes) ==> e != FailedBoot
    {
      log := [];
      var cut;
      classes, cut := ClassifyAll(attached);
      SeenAre(disks, attached, classes, luksPartuuid);
      if cut {
        e := PowerLost;
        NothingDone(disks, classes, luksPartuuid, ConsentSince(ui.posted, TalkOf(ui), minLength), e);
      } else {
        e := Carry(classes, usageReadable);
      }
    }

    /** Look for one thing. A probe that fails has found nothing. */
    method Look(truth: Option<string>) returns (found: Option<string>, cut: bool)
      modifies this`tools
      ensures found.None? || found == truth
      ensures Working(old(tools)) ==> Working(tools) && (!cut ==> found == truth)
    {
      var s := Run();
      return if s == Ok then truth else None, s == Cut;
    }

    /** Probe a disk. */
    method Probe(id: string) returns (p: DiskProbe, cut: bool)
      requires id in disks
      modifies this`tools
      ensures SomeMissing(p, ProbeOf(disks[id]))
      ensures Working(old(tools)) ==> Working(tools) && (!cut ==> p == ProbeOf(disks[id]))
    {
      var truth := ProbeOf(disks[id]);
      p := DiskProbe(truth.hasPart1, None, None, None, None);
      cut := false;
      if truth.hasPart1 {
        var fstype, cut1 := Look(truth.partFstype);
        var partuuid, cut2 := Look(truth.partPartuuid);
        p, cut := p.(partFstype := fstype, partPartuuid := partuuid), cut1 || cut2;
      }
      var pttype, cut3 := Look(truth.diskPttype);
      var whole, cut4 := Look(truth.diskFstype);
      p, cut := p.(diskPttype := pttype, diskFstype := whole), cut || cut3 || cut4;
    }

    /** Probe the attached disks, one after another; when it is cut off, the rest counts as
        they truly are, and nothing is done about any of them. */
    method ClassifyAll(attached: seq<string>) returns (classes: Classes, cut: bool)
      requires forall id :: id in attached ==> id in disks
      modifies this`tools
      ensures SeenAs(disks, attached, classes, luksPartuuid)
      ensures Working(old(tools)) ==> Working(tools) && classes == ClassesOf(disks, attached, luksPartuuid)
    {
      classes, cut := [], false;
      for i := 0 to |attached|
        invariant SeenAs(disks, attached[..i], classes, luksPartuuid)
        invariant Working(old(tools)) ==> Working(tools) && classes == ClassesOf(disks, attached[..i], luksPartuuid)
      {
        assert attached[..i + 1] == attached[..i] + [attached[i]];
        var p, over := Probe(attached[i]);
        cut := cut || over;
        if cut {
          p := ProbeOf(disks[attached[i]]);
        }
        ghost var had := classes;
        classes := classes + [(attached[i], Classify(p, luksPartuuid))];
        SeenOneMore(disks, attached[..i], had, luksPartuuid, attached[i], p);
      }
      assert attached[..|attached|] == attached;
    }

    /** The plan dispatch. */
    method Carry(classes: Classes, usageReadable: bool) returns (e: End)
      requires Inv() && log == [] && AreClasses(disks, classes, luksPartuuid)
      modifies this`tools, this`disks, this`log, ui
      ensures Inv() && Continued(old(TalkOf(ui)), TalkOf(ui))
      ensures BootEffects(old(disks), disks, classes, log, ConsentSince(old(ui.posted), TalkOf(ui), minLength), e)
      ensures NewVolume(disks, classes, luksPartuuid, e)
      ensures PassphraseFirst(old(disks), disks, classes, old(ui.posted), TalkOf(ui), e)
      ensures Working(old(tools)) && CanAct(old(disks), classes) ==> e != FailedBoot
    {
      var plan := PlanBoot(classes);
      match plan {
        case Unlock(luks) => e := CarryUnlock(luks, classes);
        case BootLegacy(legacy) => e := CarryLegacy(legacy, classes);
        case Migrate(legacy, blank) => e := CarryMigrate(legacy, blank, usageReadable, classes);
        case Provision(blank) => e := CarryProvision(blank, classes);
        case Block =>
          e := Parked;
          NoEffects(disks, classes, Agreed(), e);
        case NoDisks =>
          e := FailedBoot;
          NoEffects(disks, classes, Agreed(), e);
      }
    }

    method CarryUnlock(luks: string, ghost classes: Classes) returns (e: End)
      requires Inv() && log == []
      requires AreClasses(disks, classes, luksPartuuid) && Planned(classes) == DiskPlan.Unlock(luks)
      modifies this`tools, this`disks, this`log, ui
      ensures Inv() && Continued(old(TalkOf(ui)), TalkOf(ui))
      ensures BootEffects(old(disks), disks, classes, log, Agreed(), e) && NewVolume(disks, classes, luksPartuuid, e)
      ensures PassphraseFirst(old(disks), disks, classes, old(ui.posted), TalkOf(ui), e)
      ensures Working(old(tools)) && CanAct(old(disks), classes) ==> e != FailedBoot
    {
      UnlockPlan(disks, classes, luks, luksPartuuid);
      ghost var before := disks;
      e := Unlock(luks);
      UnlockEffects(before, disks, classes, luks, log, Agreed(), e);
    }

    method CarryLegacy(legacy: string, ghost classes: Classes) returns (e: End)
      requires Inv() && log == [] && AreClasses(disks, classes, luksPartuuid) && Planned(classes) == BootLegacy(legacy)
      modifies this`tools, this`disks, this`log, ui
      ensures Inv() && Continued(old(TalkOf(ui)), TalkOf(ui))
      ensures BootEffects(old(disks), disks, classes, log, Agreed(), e) && NewVolume(disks, classes, luksPartuuid, e)
      ensures PassphraseFirst(old(disks), disks, classes, old(ui.posted), TalkOf(ui), e)
      ensures Working(old(tools)) && CanAct(old(disks), classes) ==> e != FailedBoot
    {
      PlannedIds(classes);
      ghost var before := disks;
      e := EnsureLabel(legacy);
      LegacyEffects(before, disks, classes, legacy, log, Agreed(), e);
    }

    method CarryMigrate(legacy: string, blank: string, usageReadable: bool, ghost classes: Classes) returns (e: End)
      requires Inv() && log == []
      requires AreClasses(disks, classes, luksPartuuid) && Planned(classes) == DiskPlan.Migrate(legacy, blank)
      modifies this`tools, this`disks, this`log, ui
      ensures Inv() && Continued(old(TalkOf(ui)), TalkOf(ui))
      ensures BootEffects(old(disks), disks, classes, log, Agreed(), e) && NewVolume(disks, classes, luksPartuuid, e)
      ensures PassphraseFirst(old(disks), disks, classes, old(ui.posted), TalkOf(ui), e)
      ensures Working(old(tools)) && CanAct(old(disks), classes) ==> e != FailedBoot
    {
      PlannedIds(classes);
      PlannedBlank(classes);
      ghost var before := disks;
      e := Migrate(legacy, blank, usageReadable);
      MigrateEffects(before, disks, classes, legacy, blank, log, Agreed(), e);
    }

    method CarryProvision(blank: string, ghost classes: Classes) returns (e: End)
      requires Inv() && log == []
      requires AreClasses(disks, classes, luksPartuuid) && Planned(classes) == DiskPlan.Provision(blank)
      modifies this`tools, this`disks, this`log, ui
      ensures Inv() && Continued(old(TalkOf(ui)), TalkOf(ui))
      ensures BootEffects(old(disks), disks, classes, log, Agreed(), e) && NewVolume(disks, classes, luksPartuuid, e)
      ensures PassphraseFirst(old(disks), disks, classes, old(ui.posted), TalkOf(ui), e)
      ensures Working(old(tools)) && CanAct(old(disks), classes) ==> e != FailedBoot
    {
      PlannedIds(classes);
      PlannedBlank(classes);
      ghost var before := disks;
      e := Provision(blank);
      ProvisionEffects(before, disks, classes, blank, log, Agreed(), e);
    }
  }

  predicate AreClasses(disks: Disks, classes: Classes, luksPartuuid: string) {
    forall c :: c in classes ==>
      && c.0 in disks
      && (c.1 == Luks ==> IsLuks(disks[c.0], luksPartuuid))
      && (c.1 == Legacy ==> Contained(disks[c.0]).Plain?)
      && (c.1 == Blank ==> disks[c.0].part.None?)
  }

  lemma UnlockPlan(disks: Disks, classes: Classes, l: string, luksPartuuid: string)
    requires AreClasses(disks, classes, luksPartuuid) && Planned(classes) == Unlock(l)
    ensures l in disks && (l, Luks) in classes && IsLuks(disks[l], luksPartuuid)
  {
    PlannedIds(classes);
    assert (l, Luks) in classes;
  }

  lemma UnlockEffects(
    before: Disks, after: Disks, classes: Classes, l: string, log: Log, said: Consent, e: End)
    requires Planned(classes) == Unlock(l) && l in before && (l, Luks) in classes
    requires OnlyChanged(before, after, {l}) && VarKept(before[l], after[l]) && Contained(before[l]).LuksVolume?
    requires VarOf(after[l]) != VarOf(before[l]) ==> VarOf(after[l]) == Some([])
    requires !said.yes ==> Resized(before[l], after[l])
    requires e == Released ==> VarOf(after[l]).Some? && Grown(after[l]) && FsGrown(after[l])
    requires AddsOnly([], log, l, !Grown(before[l]), Contained(before[l]).inner.Vacant? && said.yes)
    requires e != Migrated
    ensures BootEffects(before, after, classes, log, said, e)
  {
    if !said.yes {
      ResizedKeeps(before[l], after[l]);
    }
    assert Made(before, classes, []);
  }

  lemma LegacyEffects(
    before: Disks, after: Disks, classes: Classes, l: string, log: Log, said: Consent, e: End)
    requires Planned(classes) == BootLegacy(l) && l in before && (l, Legacy) in classes
    requires OnlyChanged(before, after, {l}) && VarOf(after[l]) == VarOf(before[l])
    requires forall i :: 0 <= i < |log| ==> log[i].1.SetLabel?
    requires e != Migrated
    ensures BootEffects(before, after, classes, log, said, e)
  {
  }

  lemma MigrateEffects(
    before: Disks, after: Disks, classes: Classes, l: string, b: string, log: Log, said: Consent, e: End)
    requires Planned(classes) == Migrate(l, b) && l in before && b in before && l != b
    requires (l, Legacy) in classes && (b, Blank) in classes && OneOf(classes, Blank, b)
    requires OnlyChanged(before, after, {l, b}) && VarOf(before[b]).None? && e != Released
    requires SnapshotOnly(before[l], after[l])
    requires VarOf(after[b]).Some? ==> VarOf(after[b]) == VarOf(before[l])
    requires before[b].bytes < FilesystemOf(before[l]).value.base + SIZE_HEADROOM ==> after[b] == before[b]
    requires NoFormats([], log) || said.passphrase
    requires before[b].part.None?
    requires FormatsOnly([], log, b)
    requires e == Migrated ==> Copied(before, after, l, b)
    ensures BootEffects(before, after, classes, log, said, e)
  {
    SnapshotTwice(before[l], after[l], after[l]);
    if VarOf(after[b]).Some? {
      assert Made(before, classes, VarOf(after[b]).value);
    }
  }

  lemma ProvisionEffects(
    before: Disks, after: Disks, classes: Classes, b: string, log: Log, said: Consent, e: End)
    requires Planned(classes) == Provision(b) && b in before && (b, Blank) in classes && OneOf(classes, Blank, b)
    requires OnlyChanged(before, after, {b}) && VarOf(before[b]).None?
    requires VarOf(after[b]).None? || VarOf(after[b]) == Some([])
    requires e == Released ==> VarOf(after[b]).Some?
    requires NoFormats([], log) || said.passphrase
    requires before[b].part.None?
    requires FormatsOnly([], log, b)
    requires e != Migrated
    ensures BootEffects(before, after, classes, log, said, e)
  {
    assert Made(before, classes, []);
  }

  /** The class is that of the disk's probe, of which parts may be missing. */
  ghost predicate MayLookLike(truth: DiskProbe, c: DiskClass, luksPartuuid: string) {
    exists p :: SomeMissing(p, truth) && Classify(p, luksPartuuid) == c
  }

  ghost predicate SeenAs(disks: Disks, attached: seq<string>, classes: Classes, luksPartuuid: string) {
    |classes| == |attached| && forall i :: 0 <= i < |attached| ==>
      attached[i] in disks && classes[i].0 == attached[i] &&
      MayLookLike(ProbeOf(disks[attached[i]]), classes[i].1, luksPartuuid)
  }

  lemma SeenOneMore(
    disks: Disks, attached: seq<string>, classes: Classes, luksPartuuid: string, id: string, p: DiskProbe)
    requires SeenAs(disks, attached, classes, luksPartuuid) && id in disks && SomeMissing(p, ProbeOf(disks[id]))
    ensures SeenAs(disks, attached + [id], classes + [(id, Classify(p, luksPartuuid))], luksPartuuid)
    ensures p == ProbeOf(disks[id]) && classes == ClassesOf(disks, attached, luksPartuuid) ==>
              classes + [(id, Classify(p, luksPartuuid))] == ClassesOf(disks, attached + [id], luksPartuuid)
  {
    assert MayLookLike(ProbeOf(disks[id]), Classify(p, luksPartuuid), luksPartuuid);
    assert (attached + [id])[..|attached|] == attached;
  }

  /** However the probes fail, what was seen as a data disk is one, and what was seen as
      blank has no partition. */
  lemma SeenAre(disks: Disks, attached: seq<string>, classes: Classes, luksPartuuid: string)
    requires AllWellFormed(disks, luksPartuuid) && luksPartuuid != ""
    requires SeenAs(disks, attached, classes, luksPartuuid)
    ensures AreClasses(disks, classes, luksPartuuid)
  {
    forall c | c in classes
      ensures c.0 in disks
      ensures c.1 == Luks ==> IsLuks(disks[c.0], luksPartuuid)
      ensures c.1 == Legacy ==> Contained(disks[c.0]).Plain?
      ensures c.1 == Blank ==> disks[c.0].part.None?
    {
      var i :| 0 <= i < |classes| && classes[i] == c;
      var p :| SomeMissing(p, ProbeOf(disks[attached[i]])) && Classify(p, luksPartuuid) == c.1;
      MissingIsForeign(p, ProbeOf(disks[c.0]), luksPartuuid);
    }
  }

  function ClassesOf(disks: Disks, attached: seq<string>, luksPartuuid: string): Classes
    requires forall id :: id in attached ==> id in disks
  {
    if attached == [] then []
    else
      var n := |attached| - 1;
      ClassesOf(disks, attached[..n], luksPartuuid) +
      [(attached[n], Classify(ProbeOf(disks[attached[n]]), luksPartuuid))]
  }

  lemma PlannedBlank(classes: Classes)
    ensures Planned(classes).Migrate? ==> OneOf(classes, Blank, Planned(classes).blank)
    ensures Planned(classes).Provision? ==> OneOf(classes, Blank, Planned(classes).blank)
  {
    var plan := Planned(classes);
    if plan.Migrate? {
      PlanExactly(classes, plan.legacy, plan.blank);
    } else if plan.Provision? {
      PlanExactly(classes, plan.blank, plan.blank);
    }
  }

  /** What an operator agreed to in a boot: said yes, or gave a new passphrase twice. */
  datatype Consent = Consent(yes: bool, passphrase: bool)

  ghost function ConsentSince(since: nat, t: Talk, minLength: nat): Consent {
    Consent(Told(since, t, true), Chose(since, t, minLength))
  }

  /** What was said since then was said since the earlier prompt. */
  lemma SaidSince(since: nat, t1: Talk, t2: Talk)
    requires since <= t1.hub.posted
    ensures forall yes :: Told(t1.hub.posted, t2, yes) ==> Told(since, t2, yes)
  {
  }

  /** The formatting tools ran on the only blank disk attached, after a new passphrase was
      given twice, or mkfs ran on a volume found vacant, after a yes. */
  predicate Allowed(before: Disks, classes: Classes, entry: (string, Op), said: Consent) {
    Destructive(entry.1) ==>
      || (OneOf(classes, Blank, entry.0) && !Planned(classes).Unlock? && said.passphrase &&
          entry.0 in before && before[entry.0].part.None?)
      || (entry.1.MakeFs? && Planned(classes) == Unlock(entry.0) && entry.0 in before && said.yes &&
          Contained(before[entry.0]).LuksVolume? && Contained(before[entry.0]).inner.Vacant?)
  }

  /** A `var` that a boot made: new and empty, or the whole of a legacy disk's. */
  predicate Made(before: Disks, classes: Classes, data: Data) {
    data == [] || exists c :: c in classes && c.1 == Legacy && c.0 in before && VarOf(before[c.0]) == Some(data)
  }

  /** The whole of the legacy disk's `var` is on the new disk; no snapshot is left on either. */
  predicate Copied(before: Disks, after: Disks, l: string, b: string) {
    && l in before && l in after && b in after
    && VarOf(after[b]).Some? && VarOf(after[b]) == VarOf(before[l])
    && NoLeftover(after[b]) && NoLeftover(after[l])
  }

  /** There is a data disk, and a `var` to copy if there is to be a copy. */
  predicate CanAct(disks: Disks, classes: Classes) {
    match Planned(classes)
    case Migrate(l, _) => l in disks && VarOf(disks[l]).Some?
    case NoDisks => false
    case _ => true
  }

  /** A boot that formatted the blank disk to the end made a volume of this installation. */
  predicate NewVolume(after: Disks, classes: Classes, luksPartuuid: string, e: End) {
    match Planned(classes)
    case Migrate(_, b) => b in after && (e == Migrated ==> IsLuks(after[b], luksPartuuid))
    case Provision(b) => b in after && (e == Released ==> IsLuks(after[b], luksPartuuid))
    case _ => true
  }

  /** A volume is released, or anything in it changed, only after its passphrase was the
      answer to a prompt to unlock. */
  ghost predicate PassphraseFirst(before: Disks, after: Disks, classes: Classes, since: nat, t: Talk, e: End) {
    match Planned(classes)
    case Unlock(l) =>
      && l in before && l in after
      && (e == Released || Contained(after[l]) != Contained(before[l]) ==>
            Contained(before[l]).LuksVolume? && OpenedBy(since, t, Contained(before[l]).passphrase))
    case _ => true
  }

  ghost predicate BootEffects(
    before: Disks, after: Disks, classes: Classes, log: Log, said: Consent, e: End)
  {
    && AllKept(before, after)
    && (forall id :: id in before && (forall c :: c in classes ==> c.0 != id) ==> after[id] == before[id])
    && (forall i :: 0 <= i < |log| ==> Allowed(before, classes, log[i], said))
    && (forall id :: id in before && VarOf(after[id]) != VarOf(before[id]) ==>
                       VarOf(after[id]).Some? && Made(before, classes, VarOf(after[id]).value))
    && (e == Migrated ==> Planned(classes).Migrate?)
    && match Planned(classes)
       case Unlock(l) =>
         && l in before
         && (!said.yes ==> after[l] == before[l] || Resized(before[l], after[l]))
         && (e == Released ==> VarOf(after[l]).Some? && Grown(after[l]) && FsGrown(after[l]))
         && (Grown(before[l]) ==> forall i :: 0 <= i < |log| ==> !Growing(log[i].1))
       case Migrate(l, b) =>
         && l in before && b in before && e != Released
         && (e == Migrated ==> Copied(before, after, l, b))
         && (FilesystemOf(before[l]).Some? && before[b].bytes < FilesystemOf(before[l]).value.base + SIZE_HEADROOM ==>
               after[b] == before[b])
       case Provision(b) => b in before && (e == Released ==> VarOf(after[b]) == Some([]))
       case BootLegacy(l) => l in before && VarOf(after[l]) == VarOf(before[l])
       case _ => after == before && e != Released
  }

  lemma NothingDone(disks: Disks, classes: Classes, luksPartuuid: string, said: Consent, e: End)
    requires e != Released && e != Migrated && AreClasses(disks, classes, luksPartuuid)
    ensures BootEffects(disks, disks, classes, [], said, e) && NewVolume(disks, classes, luksPartuuid, e)
  {
    PlannedIds(classes);
    NoEffects(disks, classes, said, e);
  }

  lemma NoEffects(disks: Disks, classes: Classes, said: Consent, e: End)
    requires e != Released && e != Migrated
    requires match Planned(classes)
             case Unlock(l) => l in disks
             case Migrate(l, b) => l in disks && b in disks
             case Provision(b) => b in disks
             case BootLegacy(l) => l in disks
             case _ => true
    ensures BootEffects(disks, disks, classes, [], said, e)
  {
  }

  /** A new file system without `var`, holding this much of the copy. */
  predicate Receiving(d: Disk, copy: Option<Data>) {
    FilesystemOf(d).Some? && FilesystemOf(d).value.var_.None? && FilesystemOf(d).value.migrateSrc == copy
  }

  /** Nothing but the leftover snapshot differs. */
  predicate SnapshotOnly(d0: Disk, d1: Disk) {
    && FilesystemOf(d0).Some? && FilesystemOf(d1).Some? && Contained(d1).Plain?
    && d1 == WithFs(d0, FilesystemOf(d0).value.(migrateSrc := FilesystemOf(d1).value.migrateSrc))
  }

  predicate NoLeftover(d: Disk) {
    FilesystemOf(d).Some? && FilesystemOf(d).value.migrateSrc.None?
  }

  lemma ReceiveOps(d: Disk, op: Op)
    requires FilesystemOf(d).Some? && Possible(op, d)
    ensures Contained(d).LuksVolume? && (op.BeginReceive? || op.Receive? || op.PublishVar? || op.DropSnapshot?) ==>
              SameVolume(d, Effect(op, d))
    ensures op.BeginReceive? && Receiving(d, None) ==> Receiving(Effect(op, d), Some([]))
    ensures op.Receive? && FilesystemOf(d).value.var_.None? ==>
              Receiving(Effect(op, d), Some(FilesystemOf(d).value.migrateSrc.value + op.chunk))
    ensures op.PublishVar? ==> VarOf(Effect(op, d)) == FilesystemOf(d).value.migrateSrc &&
                               FilesystemOf(Effect(op, d)).value.migrateSrc == FilesystemOf(d).value.migrateSrc
    ensures op.DropSnapshot? ==> VarOf(Effect(op, d)) == VarOf(d) && NoLeftover(Effect(op, d))
    ensures op.CreateVar? ==> VarOf(Effect(op, d)) == Some([])
  {
  }

  lemma PublishOps(d: Disk, src: Data)
    requires Receiving(d, Some(src)) && Contained(d).LuksVolume?
    ensures var p := Effect(PublishVar, d);
            && SameVolume(d, d) && SameVolume(d, p) && VarOf(p) == Some(src) && Contained(p).LuksVolume?
            && FilesystemOf(p).Some? && FilesystemOf(p).value.migrateSrc.Some?
  {
    ReceiveOps(d, PublishVar);
  }

  lemma NewVarOps(d: Disk, luksPartuuid: string, passphrase: string)
    requires Receiving(d, None) && Locked(d, luksPartuuid, passphrase)
    ensures VarOf(Effect(CreateVar, d)) == Some([]) && Locked(Effect(CreateVar, d), luksPartuuid, passphrase)
  {
    InnerOps(CreateVar, d);
    LockedKept(d, Effect(CreateVar, d), luksPartuuid, passphrase);
  }

  predicate NewPart(d: Disk, partuuid: string) {
    d.part.Some? && d.part.value.start == FIRST && d.part.value.partuuid == partuuid
  }

  lemma FormatOps(d: Disk, op: Op)
    requires VarOf(d).None?
    ensures Possible(op, d) && op.ZapTable? ==> VarOf(Effect(op, d)).None? && Effect(op, d).part.None?
    ensures Possible(op, d) && op.NewPartition? ==>
              VarOf(Effect(op, d)).None? && NewPart(Effect(op, d), op.partuuid)
    ensures Possible(op, d) && op.LuksFormat? ==> VarOf(Effect(op, d)).None?
    ensures Possible(op, d) && op.MakeFs? ==> VarOf(Effect(op, d)).None? && Receiving(Effect(op, d), None)
  {
  }

  lemma SnapshotOps(d: Disk, op: Op)
    requires Contained(d).Plain? && Possible(op, d) && (op.TakeSnapshot? || op.DropSnapshot?)
    ensures SnapshotOnly(d, Effect(op, d)) && VarOf(Effect(op, d)) == VarOf(d)
    ensures op.TakeSnapshot? ==> FilesystemOf(Effect(op, d)).value.migrateSrc == VarOf(d)
  {
  }

  /** Every formatting tool in what a later log adds ran on this disk. */
  predicate FormatsOnly(before: Log, after: Log, id: string) {
    before <= after && forall i :: |before| <= i < |after| ==> Destructive(after[i].1) ==> after[i].0 == id
  }

  predicate NoFormats(before: Log, after: Log) {
    before <= after && forall i :: |before| <= i < |after| ==> !Destructive(after[i].1)
  }

  lemma FormatsTwice(l0: Log, l1: Log, l2: Log, id: string)
    requires FormatsOnly(l0, l1, id) && FormatsOnly(l1, l2, id)
    ensures FormatsOnly(l0, l2, id)
  {
  }

  lemma ChangedTwice(d0: Disks, d1: Disks, d2: Disks, s1: set<string>, s2: set<string>)
    requires OnlyChanged(d0, d1, s1) && OnlyChanged(d1, d2, s2)
    ensures OnlyChanged(d0, d2, s1 + s2)
  {
  }

  lemma SnapshotSelf(d: Disk)
    requires Contained(d).Plain?
    ensures SnapshotOnly(d, d)
  {
  }

  lemma SnapshotTwice(d0: Disk, d1: Disk, d2: Disk)
    requires SnapshotOnly(d0, d1) && SnapshotOnly(d1, d2)
    ensures SnapshotOnly(d0, d2) && VarOf(d1) == VarOf(d0) && VarOf(d2) == VarOf(d0)
    ensures FilesystemOf(d1).value.base == FilesystemOf(d0).value.base
  {
  }
}
