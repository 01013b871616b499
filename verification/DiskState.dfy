/** Disks, down to the data in their subvolumes, and what each external tool does to
    one (the tools called by packages/var-disk-manager/src/bin/daemon.rs). */
module DiskState {
  import opened Text
  import opened DiskPlan

  type Data = seq<int>

  const GIB: nat := 1024 * 1024 * 1024
  const MIB: nat := 1024 * 1024

  /** A btrfs file system: what it needs besides a leftover snapshot, and the two
      subvolumes that matter. */
  datatype Filesystem = Filesystem(
    labelled: string, bytes: nat, base: nat, pinned: nat, var_: Option<Data>, migrateSrc: Option<Data>)

  datatype Inner = Vacant | Holds(fs: Filesystem) | Alien(fstype: string)

  datatype Content =
    | Raw
    | LuksVolume(passphrase: string, mapped: nat, inner: Inner)
    | Plain(fs: Filesystem)
    | Unrelated(fstype: string)

  datatype Partition = Partition(start: nat, bytes: nat, partuuid: string, content: Content)

  /** A whole disk. `overhead` is what partition tables and alignment take of it, the
      first megabyte included; `header` what a LUKS2 header takes of its partition.
      No disk has a second partition. */
  datatype Disk = Disk(
    bytes: nat, overhead: nat, header: nat, table: Option<string>, wholeFs: Option<string>, part: Option<Partition>)

  /** Where sgdisk puts a partition on a disk that has no other. */
  const FIRST: nat := MIB

  const GROW_THRESHOLD: nat := 16 * MIB
  const LUKS_HEADER_SLACK: nat := 64 * MIB
  const SIZE_HEADROOM: nat := GIB

  function Minus(a: nat, b: nat): nat {
    if a >= b then a - b else 0
  }

  function FullSize(d: Disk): nat {
    Minus(d.bytes, d.overhead)
  }

  function Contained(d: Disk): Content {
    if d.part.Some? then d.part.value.content else Raw
  }

  function FilesystemOf(d: Disk): Option<Filesystem> {
    match Contained(d)
    case Plain(fs) => Some(fs)
    case LuksVolume(_, _, Holds(fs)) => Some(fs)
    case _ => None
  }

  /** The data of the `var` subvolume, if the disk has one. */
  function VarOf(d: Disk): Option<Data> {
    var fs := FilesystemOf(d);
    if fs.Some? then fs.value.var_ else None
  }

  function ProbeOf(d: Disk): DiskProbe {
    var fstype := match Contained(d)
      case Raw => None
      case LuksVolume(_, _, _) => Some("crypto_LUKS")
      case Plain(_) => Some("btrfs")
      case Unrelated(t) => Some(t);
    DiskProbe(d.part.Some?, fstype, if d.part.Some? then Some(d.part.value.partuuid) else None, d.table, d.wholeFs)
  }

  /** A probe that reads `crypto_LUKS` or `btrfs` reads it of what the disk holds. */
  predicate WellFormed(d: Disk, luksPartuuid: string) {
    && (d.part.Some? ==> d.table.Some?)
    && (Contained(d).Unrelated? ==> Contained(d).fstype != "crypto_LUKS" && Contained(d).fstype != "btrfs")
    && (Contained(d).LuksVolume? && Contained(d).inner.Alien? ==>
          Trim(IsSpace, Contained(d).inner.fstype) != "btrfs" && Trim(IsSpace, Contained(d).inner.fstype) != "")
    && FIRST <= d.overhead <= GROW_THRESHOLD
    && d.header <= LUKS_HEADER_SLACK
    && (FilesystemOf(d).Some? && FilesystemOf(d).value.var_.Some? ==>
          |FilesystemOf(d).value.var_.value| <= FilesystemOf(d).value.base)
    && (Classify(ProbeOf(d), luksPartuuid) == Luks ==> d.part.value.start == FIRST)
  }

  // --- tools ---------------------------------------------------------------------------

  datatype Op =
    | ZapTable                       // sgdisk --zap-all
    | NewPartition(partuuid: string) // sgdisk -n 1:0:0
    | MoveBackup                     // sgdisk -e
    | Recreate(partuuid: string)     // sgdisk -d 1 -n 1:0:0
    | LuksFormat(passphrase: string)
    | LuksResize
    | MakeFs(labelled: string)       // mkfs.btrfs on the open mapper
    | ResizeFs
    | SetLabel(labelled: string)
    | CreateVar
    | TakeSnapshot                   // /old/var -> /old/.migrate-src
    | BeginReceive                   // /new/.migrate-src appears, empty
    | Receive(chunk: Data)
    | PublishVar                     // /new/.migrate-src -> /new/var
    | DropSnapshot                   // delete .migrate-src

  function WithFs(d: Disk, fs: Filesystem): Disk
    requires FilesystemOf(d).Some?
  {
    var p := d.part.value;
    match p.content
    case Plain(_) => d.(part := Some(p.(content := Plain(fs))))
    case LuksVolume(_, _, _) => d.(part := Some(p.(content := p.content.(inner := Holds(fs)))))
  }

  /** Whether the tool can succeed on the disk as it is. */
  predicate Possible(op: Op, d: Disk) {
    var fs := FilesystemOf(d);
    match op
    case ZapTable => true
    case NewPartition(_) => d.part.None?
    case MoveBackup => d.part.Some?
    case Recreate(_) => d.part.Some?
    case LuksFormat(_) => d.part.Some?
    case LuksResize => Contained(d).LuksVolume?
    case MakeFs(_) => Contained(d).LuksVolume?
    case ResizeFs => Contained(d).LuksVolume? && fs.Some?
    case SetLabel(_) => fs.Some?
    case CreateVar => fs.Some? && fs.value.var_.None?
    case TakeSnapshot => fs.Some? && fs.value.var_.Some? && fs.value.migrateSrc.None?
    case BeginReceive => fs.Some? && fs.value.migrateSrc.None?
    case Receive(_) => fs.Some? && fs.value.migrateSrc.Some?
    case PublishVar => fs.Some? && fs.value.migrateSrc.Some? && fs.value.var_.None?
    case DropSnapshot => fs.Some? && fs.value.migrateSrc.Some?
  }

  function Effect(op: Op, d: Disk): Disk
    requires Possible(op, d)
  {
    match op
    case ZapTable => d.(table := None, part := None, wholeFs := None)
    case NewPartition(id) => d.(table := Some("gpt"), part := Some(Partition(FIRST, FullSize(d), id, Raw)))
    case MoveBackup => d
    case Recreate(id) =>
      // The new partition begins at the first free sector. Only if that is where the
      // old one began does it hold what the old one held.
      var p := d.part.value;
      d.(part := Some(Partition(FIRST, FullSize(d), id, if p.start == FIRST then p.content else Raw)))
    case LuksFormat(pass) =>
      var p := d.part.value;
      d.(part := Some(p.(content := LuksVolume(pass, Minus(p.bytes, d.header), Vacant))))
    case LuksResize =>
      var p := d.part.value;
      d.(part := Some(p.(content := p.content.(mapped := Minus(p.bytes, d.header)))))
    case MakeFs(l) =>
      var p := d.part.value;
      var fs := Filesystem(l, p.content.mapped, 0, 0, None, None);
      d.(part := Some(p.(content := p.content.(inner := Holds(fs)))))
    case ResizeFs => WithFs(d, FilesystemOf(d).value.(bytes := d.part.value.content.mapped))
    case SetLabel(l) => WithFs(d, FilesystemOf(d).value.(labelled := l))
    case CreateVar => WithFs(d, FilesystemOf(d).value.(var_ := Some([])))
    case TakeSnapshot => WithFs(d, FilesystemOf(d).value.(migrateSrc := FilesystemOf(d).value.var_))
    case BeginReceive => WithFs(d, FilesystemOf(d).value.(migrateSrc := Some([])))
    case Receive(chunk) =>
      WithFs(d, FilesystemOf(d).value.(migrateSrc := Some(FilesystemOf(d).value.migrateSrc.value + chunk)))
    case PublishVar =>
      var fs := FilesystemOf(d).value;
      WithFs(d, fs.(var_ := fs.migrateSrc, base := fs.base + |fs.migrateSrc.value|))
    case DropSnapshot => WithFs(d, FilesystemOf(d).value.(migrateSrc := None))
  }

  lemma WithFsIs(d: Disk, fs: Filesystem)
    requires FilesystemOf(d).Some?
    ensures FilesystemOf(WithFs(d, fs)) == Some(fs) && WithFs(d, fs).bytes == d.bytes
    ensures WithFs(WithFs(d, fs), FilesystemOf(d).value) == d
    ensures Contained(d).Plain? <==> Contained(WithFs(d, fs)).Plain?
  {
  }

  predicate Destructive(op: Op) {
    op.ZapTable? || op.NewPartition? || op.LuksFormat? || op.MakeFs?
  }

  /** No tool but the formatting ones can change or destroy an existing `var`; growing
      the partition keeps it exactly if the partition began where the new one does. */
  lemma VarKeptExactly(op: Op, d: Disk)
    requires Possible(op, d) && VarOf(d).Some?
    ensures VarOf(Effect(op, d)) == VarOf(d) <==>
            !op.ZapTable? && !op.LuksFormat? && !op.MakeFs? && (op.Recreate? ==> d.part.value.start == FIRST)
  {
  }

  /** What blkid answers for the mapper over the disk's volume. */
  function MapperProbe(d: Disk): (Option<int>, string)
    requires Contained(d).LuksVolume?
  {
    match Contained(d).inner
    case Vacant => (Some(2), "")
    case Holds(_) => (Some(0), "btrfs\n")
    case Alien(t) => (Some(0), t)
  }

  /** A probe that runs tells exactly what is in the volume; one that does not run tells
      nothing. */
  lemma ProbeTells(d: Disk, luksPartuuid: string)
    requires WellFormed(d, luksPartuuid) && Contained(d).LuksVolume?
    ensures var (exit, stdout) := MapperProbe(d);
            && (MapperFsFromBlkid(exit, stdout) == Btrfs <==> Contained(d).inner.Holds?)
            && (MapperFsFromBlkid(exit, stdout) == Empty <==> Contained(d).inner.Vacant?)
            && (MapperFsFromBlkid(exit, stdout).Other? <==> Contained(d).inner.Alien?)
    ensures MapperFsFromBlkid(None, "") == Unknown
  {
    var (exit, stdout) := MapperProbe(d);
    EmptyOnlyWhenProven(exit, stdout);
    assert Trim(IsSpace, "btrfs\n") == "btrfs" by {
      assert "btrfs\n"[..5] == "btrfs";
    }
  }
}
