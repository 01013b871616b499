/** Classification of data disks and the plan for a boot
    (packages/var-disk-manager/src/lib.rs). */
module DiskPlan {
  import opened Text

  const VAR_TYPE_GUID := "4d21b016-b534-45c2-a9fb-5c16e091fd2d"

  function LowerChar(c: char): char {
    if 'A' <= c <= 'Z' then c - 'A' + 'a' else c
  }

  function Lower(s: string): (r: string)
    ensures |r| == |s|
  {
    seq(|s|, i requires 0 <= i < |s| => LowerChar(s[i]))
  }

  predicate SameIgnoringCase(a: string, b: string) {
    Lower(a) == Lower(b)
  }

  /** The answer to a yes/no prompt; anything ambiguous is no answer. */
  function ParseConfirm(answer: string): Option<bool> {
    var a := Lower(Trim(IsSpace, answer));
    if a == "y" || a == "yes" then Some(true)
    else if a == "n" || a == "no" then Some(false)
    else None
  }

  datatype MapperFs = Btrfs | Empty | Other(fstype: string) | Unknown

  function MapperFsFromBlkid(exit: Option<int>, stdout: string): MapperFs {
    var t := Trim(IsSpace, stdout);
    if exit == Some(0) then (if t == "btrfs" then Btrfs else if t == "" then Unknown else Other(t))
    else if exit == Some(2) then Empty
    else Unknown
  }

  /** Emptiness is concluded from nothing but a probe that ran and found nothing. */
  lemma EmptyOnlyWhenProven(exit: Option<int>, stdout: string)
    ensures MapperFsFromBlkid(exit, stdout) == Empty <==> exit == Some(2)
    ensures MapperFsFromBlkid(exit, stdout) == Btrfs ==> exit == Some(0)
  {
  }

  // --- classification --------------------------------------------------------------

  datatype DiskClass = Luks | Legacy | Blank | Foreign

  datatype DiskProbe = DiskProbe(
    hasPart1: bool, partFstype: Option<string>, partPartuuid: Option<string>,
    diskPttype: Option<string>, diskFstype: Option<string>)

  /** Some of the probe's parts were not found, because what looks for them failed. */
  predicate SomeMissing(p: DiskProbe, truth: DiskProbe) {
    && p.hasPart1 == truth.hasPart1
    && (p.partFstype.None? || p.partFstype == truth.partFstype)
    && (p.partPartuuid.None? || p.partPartuuid == truth.partPartuuid)
    && (p.diskPttype.None? || p.diskPttype == truth.diskPttype)
    && (p.diskFstype.None? || p.diskFstype == truth.diskFstype)
  }

  function OrEmpty(o: Option<string>): string {
    if o.Some? then o.value else ""
  }

  function Classify(p: DiskProbe, luksPartuuid: string): DiskClass {
    if p.hasPart1 then
      if OrEmpty(p.partFstype) == "crypto_LUKS" && SameIgnoringCase(OrEmpty(p.partPartuuid), luksPartuuid) then Luks
      else if OrEmpty(p.partFstype) == "btrfs" && SameIgnoringCase(OrEmpty(p.partPartuuid), VAR_TYPE_GUID) then Legacy
      else Foreign
    else if p.diskPttype.None? && p.diskFstype.None? then Blank
    else Foreign
  }

  /** A probe that failed makes no disk look like a data disk, and none with a partition
      look blank. */
  lemma MissingIsForeign(p: DiskProbe, truth: DiskProbe, luksPartuuid: string)
    requires SomeMissing(p, truth) && luksPartuuid != ""
    ensures Classify(p, luksPartuuid) == Luks ==> Classify(truth, luksPartuuid) == Luks
    ensures Classify(p, luksPartuuid) == Legacy ==> Classify(truth, luksPartuuid) == Legacy
    ensures Classify(p, luksPartuuid) == Blank <==> !truth.hasPart1 && p.diskPttype.None? && p.diskFstype.None?
    ensures truth.hasPart1 && p != truth && Classify(p, luksPartuuid) != Classify(truth, luksPartuuid) ==>
              Classify(p, luksPartuuid) == Foreign
  {
    assert SameIgnoringCase("", luksPartuuid) ==> |Lower("")| == |Lower(luksPartuuid)|;
    assert SameIgnoringCase("", VAR_TYPE_GUID) ==> |Lower("")| == |Lower(VAR_TYPE_GUID)|;
  }

  // --- the plan ----------------------------------------------------------------------

  datatype Plan =
    | Unlock(luks: string)
    | BootLegacy(legacy: string)
    | Migrate(legacy: string, blank: string)
    | Provision(blank: string)
    | Block
    | NoDisks

  type Classes = seq<(string, DiskClass)>

  function Of(disks: Classes, class_: DiskClass): seq<string> {
    if disks == [] then []
    else
      Of(disks[..|disks| - 1], class_) +
      if disks[|disks| - 1].1 == class_ then [disks[|disks| - 1].0] else []
  }

  function Planned(disks: Classes): Plan {
    var luks, legacy, blank := Of(disks, Luks), Of(disks, Legacy), Of(disks, Blank);
    if |luks| > 1 || |legacy| > 1 || |blank| > 1 then Block
    else if luks != [] then if legacy != [] then Block else Unlock(luks[0])
    else if legacy != [] then if blank != [] then Migrate(legacy[0], blank[0]) else BootLegacy(legacy[0])
    else if blank != [] then Provision(blank[0])
    else NoDisks
  }

  method PlanBoot(disks: Classes) returns (plan: Plan)
    ensures plan == Planned(disks)
  {
    var luks: seq<string>, legacy: seq<string>, blank: seq<string> := [], [], [];
    for i := 0 to |disks|
      invariant luks == Of(disks[..i], Luks) && legacy == Of(disks[..i], Legacy) && blank == Of(disks[..i], Blank)
    {
      assert disks[..i + 1][..i] == disks[..i];
      match disks[i].1 {
        case Luks => luks := luks + [disks[i].0];
        case Legacy => legacy := legacy + [disks[i].0];
        case Blank => blank := blank + [disks[i].0];
        case Foreign =>
      }
    }
    assert disks[..|disks|] == disks;
    if |luks| > 1 || |legacy| > 1 || |blank| > 1 {
      return Block;
    }
    match (luks != [], legacy != [], blank != []) {
      case (true, true, _) => plan := Block;
      case (true, false, _) => plan := Unlock(luks[0]);
      case (false, true, true) => plan := Migrate(legacy[0], blank[0]);
      case (false, true, false) => plan := BootLegacy(legacy[0]);
      case (false, false, true) => plan := Provision(blank[0]);
      case (false, false, false) => plan := NoDisks;
    }
  }

  /** `id` is the one disk of its class. */
  predicate OneOf(disks: Classes, class_: DiskClass, id: string) {
    Of(disks, class_) == [id]
  }

  lemma {:induction false} OfCounts(disks: Classes, class_: DiskClass, id: string)
    ensures multiset(Of(disks, class_))[id] == multiset(disks)[(id, class_)]
  {
    if disks == [] {
      assert multiset(disks) == multiset{};
    } else {
      var init, last := disks[..|disks| - 1], disks[|disks| - 1];
      assert disks == init + [last];
      OfCounts(init, class_, id);
      CountOneMore(init, last, (id, class_));
      CountOneMore(Of(init, class_), last.0, id);
    }
  }

  lemma CountOneMore<T>(s: seq<T>, last: T, x: T)
    ensures multiset(s + [last])[x] == multiset(s)[x] + if last == x then 1 else 0
  {
    assert multiset(s + [last]) == multiset(s) + multiset{last};
  }

  lemma OfSameMultiset(d1: Classes, d2: Classes, class_: DiskClass)
    requires multiset(d1) == multiset(d2)
    ensures multiset(Of(d1, class_)) == multiset(Of(d2, class_))
    ensures |Of(d1, class_)| == |Of(d2, class_)|
    ensures |Of(d1, class_)| == 1 ==> Of(d1, class_) == Of(d2, class_)
  {
    var a, b := Of(d1, class_), Of(d2, class_);
    forall id
      ensures multiset(a)[id] == multiset(b)[id]
    {
      OfCounts(d1, class_, id);
      OfCounts(d2, class_, id);
    }
    assert multiset(a) == multiset(b);
    assert |a| == |multiset(a)| == |multiset(b)| == |b|;
    if |a| == 1 {
      assert a == [a[0]] && b == [b[0]];
      assert b[0] in multiset(a);
    }
  }

  /** The plan does not depend on the order in which the disks were found. */
  lemma PlanIgnoresOrder(d1: Classes, d2: Classes)
    requires multiset(d1) == multiset(d2)
    ensures Planned(d1) == Planned(d2)
  {
    OfSameMultiset(d1, d2, Luks);
    OfSameMultiset(d1, d2, Legacy);
    OfSameMultiset(d1, d2, Blank);
  }

  /** Which disks each plan is made for, exactly: what it will format is the only
      blank disk attached, what it will copy from the only legacy one. */
  lemma PlanExactly(disks: Classes, id: string, other: string)
    ensures Planned(disks) == Unlock(id) <==>
            OneOf(disks, Luks, id) && Of(disks, Legacy) == [] && |Of(disks, Blank)| <= 1
    ensures Planned(disks) == Migrate(id, other) <==>
            Of(disks, Luks) == [] && OneOf(disks, Legacy, id) && OneOf(disks, Blank, other)
    ensures Planned(disks) == BootLegacy(id) <==>
            Of(disks, Luks) == [] && OneOf(disks, Legacy, id) && Of(disks, Blank) == []
    ensures Planned(disks) == Provision(id) <==>
            Of(disks, Luks) == [] && Of(disks, Legacy) == [] && OneOf(disks, Blank, id)
    ensures Planned(disks) == NoDisks <==> forall d :: d in disks ==> d.1 == Foreign
  {
    NoneForeign(disks);
  }

  lemma OneOfExactly(disks: Classes, class_: DiskClass, id: string)
    ensures OneOf(disks, class_, id) <==>
            forall x :: multiset(disks)[(x, class_)] == if x == id then 1 else 0
  {
    var a := Of(disks, class_);
    forall x
      ensures multiset(a)[x] == multiset(disks)[(x, class_)]
    {
      OfCounts(disks, class_, x);
    }
    if forall x :: multiset(disks)[(x, class_)] == if x == id then 1 else 0 {
      assert multiset(a) == multiset{id};
      assert |a| == |multiset(a)| == 1;
      assert a == [a[0]] && a[0] in multiset(a);
    }
  }

  lemma NoneForeign(disks: Classes)
    ensures Of(disks, Luks) == Of(disks, Legacy) == Of(disks, Blank) == [] <==>
            forall d :: d in disks ==> d.1 == Foreign
  {
    forall class_
      ensures Of(disks, class_) == [] <==> forall d :: d in disks ==> d.1 != class_
    {
      OfEmpty(disks, class_);
    }
    forall d | d in disks && Of(disks, Luks) == Of(disks, Legacy) == Of(disks, Blank) == []
      ensures d.1 == Foreign
    {
      assert d.1 != Luks && d.1 != Legacy && d.1 != Blank;
    }
  }

  lemma {:induction false} OfEmpty(disks: Classes, class_: DiskClass)
    ensures Of(disks, class_) == [] <==> forall d :: d in disks ==> d.1 != class_
  {
    if disks != [] {
      assert disks == disks[..|disks| - 1] + [disks[|disks| - 1]];
      OfEmpty(disks[..|disks| - 1], class_);
    }
  }

  lemma PlannedIds(disks: Classes)
    ensures match Planned(disks)
            case Unlock(l) => (l, Luks) in disks
            case BootLegacy(l) => (l, Legacy) in disks
            case Migrate(l, b) => (l, Legacy) in disks && (b, Blank) in disks
            case Provision(b) => (b, Blank) in disks
            case _ => true
  {
    forall class_: DiskClass, id | id in Of(disks, class_)
      ensures (id, class_) in disks
    {
      OfCounts(disks, class_, id);
      assert id in multiset(Of(disks, class_));
      assert (id, class_) in multiset(disks);
    }
  }
}
