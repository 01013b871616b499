/** Replacing a file atomically: `write_secret`
    (packages/operator-secrets/src/bin/daemon.rs) and `writeCredentialFile`
    (services/zitadel-configure.ts), on a file system that may lose power.

    The file system journals its metadata in order: after a power cut it is as it
    was after some operation since the last sync. The body of a file that was not
    synced may then be anything. */
module AtomicFile {
  import opened Text
  import EnvFile

  datatype File = File(body: string, synced: bool, owner: nat, group: nat, mode: nat)

  /** No call fails. */
  predicate Working(calls: seq<Call>) {
    forall c :: c in calls ==> !c.Fails?
  }

  type Image = map<string, File>

  function At(img: Image, name: string): Option<File> {
    if name in img then Some(img[name]) else None
  }

  /** What one call comes to. `n` counts the characters a write got to; `Short` is a
      write that reports success for less than it was given. */
  datatype Call = Done | Short(n: nat) | Fails(n: nat) | Dies(n: nat)

  datatype Status = Ok | Err | Cut

  /** `after` is a state the disk may show when power comes back. */
  ghost predicate Survives(journal: seq<Image>, after: Image) {
    exists k :: 0 <= k < |journal| && CameBack(journal[k], after)
  }

  /** The names, owners and modes are those of `img`, and so is every synced file. */
  predicate CameBack(img: Image, after: Image) {
    && after.Keys == img.Keys
    && forall name :: name in after ==>
         && after[name] == img[name].(body := after[name].body, synced := true)
         && (img[name].synced ==> after[name] == img[name])
  }

  function Prefix(s: string, n: nat): string {
    if n <= |s| then s[..n] else s
  }

  class FileSystem {
    const wholeWrites: bool  // no write reports success for less than it was given
    var files: Image
    var journal: seq<Image>
    var calls: seq<Call>

    predicate Valid()
      reads this
    {
      journal != [] && journal[|journal| - 1] == files
    }

    /** Nothing is pending: all that was done is on the disk. */
    predicate Flushed()
      reads this
    {
      journal == [files]
    }

    predicate Settled()
      reads this
    {
      journal == [files] && forall name :: name in files ==> files[name].synced
    }

    constructor (files: Image, calls: seq<Call>, wholeWrites: bool)
      requires forall name :: name in files ==> files[name].synced
      ensures Settled() && Valid() && this.files == files && this.calls == calls
      ensures this.wholeWrites == wholeWrites
    {
      this.files, this.journal, this.calls, this.wholeWrites := files, [files], calls, wholeWrites;
    }

    method Next() returns (c: Call)
      modifies this`calls
      ensures old(calls) == [] ==> c == Dies(0) && calls == []
      ensures old(calls) != [] ==> c == old(calls)[0] && calls == old(calls)[1..]
      ensures Working(old(calls)) ==> Working(calls) && !c.Fails?
    {
      if calls == [] {
        return Dies(0);
      }
      assert calls[0] in calls && forall x :: x in calls[1..] ==> x in calls;
      c, calls := calls[0], calls[1..];
    }

    /** One metadata operation: it takes effect, or it fails or power is lost and nothing happened. */
    method Change(next: Image, possible: bool) returns (s: Status)
      requires Valid()
      modifies this
      ensures Valid()
      ensures s == Ok ==> possible && files == next && journal == old(journal) + [next]
      ensures s != Ok ==> files == old(files) && journal == old(journal)
      ensures Working(old(calls)) ==> Working(calls) && (possible ==> s != Err)
    {
      var c := Next();
      if c.Dies? {
        return Cut;
      }
      if c.Fails? || !possible {
        return Err;
      }
      files, journal := next, journal + [next];
      return Ok;
    }

    method Remove(name: string) returns (s: Status)
      requires Valid()
      modifies this
      ensures Valid()
      ensures s == Ok ==> files == old(files) - {name} && journal == old(journal) + [files]
      ensures s != Ok ==> files == old(files) && journal == old(journal)
      ensures Working(old(calls)) ==> Working(calls) && (name in old(files) ==> s != Err)
    {
      s := Change(files - {name}, name in files);
    }

    method CreateNew(name: string, mode: nat) returns (s: Status)
      requires Valid()
      modifies this
      ensures Valid()
      ensures s == Ok ==> name !in old(files) && files == old(files)[name := File("", false, 0, 0, mode)]
      ensures s == Ok ==> journal == old(journal) + [files]
      ensures s != Ok ==> files == old(files) && journal == old(journal)
      ensures Working(old(calls)) ==> Working(calls) && (name !in old(files) ==> s != Err)
    {
      s := Change(files[name := File("", false, 0, 0, mode)], name !in files);
    }

    /** Write to a file just created; a failed or cut write leaves a part of the text. */
    method Write(name: string, text: string, retryShort: bool) returns (s: Status, written: string)
      requires Valid() && name in files
      modifies this
      ensures Valid() && files == old(files)[name := old(files)[name].(body := written, synced := false)]
      ensures journal == old(journal) + [files]
      ensures written <= text
      ensures s == Ok && (retryShort || wholeWrites) ==> written == text
      ensures Working(old(calls)) ==> Working(calls) && s != Err
    {
      var c := Next();
      written := if c.Done? || (c.Short? && (retryShort || wholeWrites)) then text else Prefix(text, c.n);
      files := files[name := files[name].(body := written, synced := false)];
      journal := journal + [files];
      s := if c.Dies? then Cut else if c.Fails? then Err else Ok;
    }

    method SyncFile(name: string) returns (s: Status)
      requires Valid() && name in files
      modifies this
      ensures Valid()
      ensures s == Ok ==> files == old(files)[name := old(files)[name].(synced := true)] && journal == [files]
      ensures s != Ok ==> files == old(files) && journal == old(journal)
      ensures Working(old(calls)) ==> Working(calls) && s != Err
    {
      var c := Next();
      if c.Dies? {
        return Cut;
      }
      if c.Fails? {
        return Err;
      }
      files := files[name := files[name].(synced := true)];
      journal := [files];
      return Ok;
    }

    method Chown(name: string, owner: nat, group: nat) returns (s: Status)
      requires Valid() && name in files
      modifies this
      ensures Valid()
      ensures s == Ok ==> files == old(files)[name := old(files)[name].(owner := owner, group := group)]
      ensures s == Ok ==> journal == old(journal) + [files]
      ensures s != Ok ==> files == old(files) && journal == old(journal)
      ensures Working(old(calls)) ==> Working(calls) && s != Err
    {
      s := Change(files[name := files[name].(owner := owner, group := group)], true);
    }

    method Chmod(name: string, mode: nat) returns (s: Status)
      requires Valid() && name in files
      modifies this
      ensures Valid()
      ensures s == Ok ==> files == old(files)[name := old(files)[name].(mode := mode)]
      ensures s == Ok ==> journal == old(journal) + [files]
      ensures s != Ok ==> files == old(files) && journal == old(journal)
      ensures Working(old(calls)) ==> Working(calls) && s != Err
    {
      s := Change(files[name := files[name].(mode := mode)], true);
    }

    method Rename(from: string, to: string) returns (s: Status)
      requires Valid() && from in files && from != to
      modifies this
      ensures Valid()
      ensures s == Ok ==> files == (old(files) - {from})[to := old(files)[from]] && journal == old(journal) + [files]
      ensures s != Ok ==> files == old(files) && journal == old(journal)
      ensures Working(old(calls)) ==> Working(calls) && s != Err
    {
      s := Change((files - {from})[to := files[from]], true);
    }

    method SyncDir() returns (s: Status)
      requires Valid()
      modifies this
      ensures Valid() && files == old(files)
      ensures journal == if s == Ok then [files] else old(journal)
      ensures Working(old(calls)) ==> Working(calls) && s != Err
    {
      var c := Next();
      if c.Dies? {
        return Cut;
      }
      if c.Fails? {
        return Err;
      }
      journal := [files];
      return Ok;
    }

    /** Create a missing parent directory: no file changes. */
    method MakeDir() returns (s: Status)
      modifies this`calls
      ensures Working(old(calls)) ==> Working(calls) && s != Err
    {
      var c := Next();
      s := if c.Dies? then Cut else if c.Fails? then Err else Ok;
    }

    /** Power is lost and comes back: some state of the journal survived, and of a file
        that was not synced only its name, owner and mode are what they were. */
    method PowerCycle(k: nat, junk: map<string, string>, calls: seq<Call>)
      requires k < |journal|
      modifies this
      ensures Settled() && Valid() && Survives(old(journal), files) && this.calls == calls
      ensures files.Keys == old(journal)[k].Keys
      ensures forall name :: name in files && old(journal)[k][name].synced ==> files[name] == old(journal)[k][name]
    {
      var img := journal[k];
      files := map name | name in img ::
        if img[name].synced then img[name]
        else img[name].(body := if name in junk then junk[name] else "", synced := true);
      journal := [files];
      this.calls := calls;
    }
  }

  // --- what replacing a file promises ----------------------------------------------------

  const PRIVATE: nat := 6 * 64

  /** In `img`, `dest` is the old file or exactly `new`, the temporary file is private
      or has the final mode, and every other file is as it was. */
  ghost predicate Replacing(before: Image, img: Image, dest: string, tmp: string, new_: File) {
    && (At(img, dest) == At(before, dest) || At(img, dest) == Some(new_))
    && (tmp in img ==> At(img, tmp) == At(before, tmp) || img[tmp].mode == PRIVATE || img[tmp].mode == new_.mode)
    && forall name :: name != dest && name != tmp ==> At(img, name) == At(before, name)
  }

  ghost predicate OnlyReplacing(
    before: Image, earlier: seq<Image>, journal: seq<Image>, dest: string, tmp: string, new_: File)
  {
    forall img :: img in journal ==> img in earlier || Replacing(before, img, dest, tmp, new_)
  }

  /** The file system may be at, or come back after a power cut at, states that were
      possible before the call, or that replace `dest` as a whole or not at all. */
  twostate predicate Careful(fs: FileSystem, dest: string, tmp: string, new_: File)
    reads fs
  {
    fs.Valid() && OnlyReplacing(old(fs.files), old(fs.journal), fs.journal, dest, tmp, new_)
  }

  /** Whenever power is lost now, the new file is what comes back: see `LastingExactly`. */
  predicate Lasting(journal: seq<Image>, dest: string, new_: File) {
    forall img :: img in journal ==> At(img, dest) == Some(new_)
  }

  /** After a file was synced in `mid`, and nothing but replacements since. */
  lemma LastsExactly(
    mid: Image, journal: seq<Image>, files: Image, dest: string, tmp: string, new_: File)
    requires OnlyReplacing(mid, [mid], journal, dest, tmp, new_)
    requires At(files, dest) == Some(new_) && (journal == [files] || mid in journal)
    ensures Lasting(journal, dest, new_) <==> journal == [files] || At(mid, dest) == Some(new_)
  {
    if At(mid, dest) == Some(new_) {
      forall img | img in journal
        ensures At(img, dest) == Some(new_)
      {
        assert img == mid || Replacing(mid, img, dest, tmp, new_);
      }
    }
  }

  function TmpName(name: string, pid: string): (tmp: string)
    ensures tmp != name
  {
    "." + name + ".tmp." + pid
  }

  /** Nothing changed but a private temporary file. */
  ghost predicate Preparing(before: Image, img: Image, tmp: string) {
    && (forall name :: name != tmp ==> At(img, name) == At(before, name))
    && (tmp in img ==> At(img, tmp) == At(before, tmp) || img[tmp].mode == PRIVATE)
  }

  ghost predicate OnlyPreparing(before: Image, earlier: seq<Image>, journal: seq<Image>, tmp: string) {
    forall img :: img in journal ==> img in earlier || Preparing(before, img, tmp)
  }

  /** Preparing and then replacing is replacing. */
  lemma Composed(
    before: Image, j0: seq<Image>, mid: Image, j1: seq<Image>, j2: seq<Image>, dest: string, tmp: string, new_: File)
    requires dest != tmp
    requires OnlyPreparing(before, j0, j1, tmp) && Preparing(before, mid, tmp)
    requires OnlyReplacing(mid, j1, j2, dest, tmp, new_)
    ensures OnlyReplacing(before, j0, j2, dest, tmp, new_)
  {
    forall img | img in j2 && img !in j0
      ensures Replacing(before, img, dest, tmp, new_)
    {
      if img !in j1 {
        assert Replacing(mid, img, dest, tmp, new_);
        assert At(mid, dest) == At(before, dest);
        assert tmp in img && At(img, tmp) == At(mid, tmp) ==> tmp in mid;
      } else {
        assert Preparing(before, img, tmp);
      }
    }
  }

  /** The first half of both: a new private file with the text in it, synced. */
  method PrepareTemp(fs: FileSystem, dest: string, tmp: string, text: string, retryShort: bool)
    returns (s: Status, written: string)
    requires fs.Valid() && dest != tmp
    modifies fs
    ensures fs.Valid() && OnlyPreparing(old(fs.files), old(fs.journal), fs.journal, tmp)
    ensures Preparing(old(fs.files), fs.files, tmp)
    ensures s == Ok ==> At(fs.files, tmp) == Some(File(written, true, 0, 0, PRIVATE))
    ensures written <= text && (s == Ok && (retryShort || fs.wholeWrites) ==> written == text)
    ensures Working(old(fs.calls)) ==> Working(fs.calls) && (tmp !in old(fs.files) ==> s != Err)
    ensures tmp in old(fs.files) ==> s != Ok
    ensures tmp in old(fs.files) ==> fs.files == old(fs.files)
    ensures s == Ok ==> fs.Flushed()
  {
    written := "";
    s := fs.CreateNew(tmp, PRIVATE);
    if s != Ok {
      return;
    }
    s, written := fs.Write(tmp, text, retryShort);
    if s != Ok {
      return;
    }
    s := fs.SyncFile(tmp);
  }

  lemma Extended(
    before: Image, earlier: seq<Image>, journal: seq<Image>, img: Image, dest: string, tmp: string, new_: File)
    requires OnlyReplacing(before, earlier, journal, dest, tmp, new_) && Replacing(before, img, dest, tmp, new_)
    ensures OnlyReplacing(before, earlier, journal + [img], dest, tmp, new_)
    ensures OnlyReplacing(before, earlier, [img], dest, tmp, new_)
  {
  }

  /** The second half of `write_secret`: hand the synced file over and rename it. */
  method HandOver(fs: FileSystem, dest: string, tmp: string, uid: nat, gid: nat, mode: nat) returns (s: Status)
    requires fs.Valid() && dest != tmp && tmp in fs.files && fs.files[tmp].mode == PRIVATE
    modifies fs
    ensures Careful(fs, dest, tmp, old(fs.files[tmp]).(owner := uid, group := gid, mode := mode))
    ensures s == Ok ==> At(fs.files, dest) == Some(old(fs.files[tmp]).(owner := uid, group := gid, mode := mode))
    ensures s == Ok ==> tmp !in fs.files
    ensures s == Err ==> At(fs.files, dest) == At(old(fs.files), dest)
    ensures forall name :: name != dest && name != tmp ==> At(fs.files, name) == At(old(fs.files), name)
    ensures Working(old(fs.calls)) ==> s != Err
    ensures s == Ok ==> fs.Flushed() || old(fs.journal) <= fs.journal
    ensures Working(old(fs.calls)) && s == Ok ==> fs.Flushed()
  {
    ghost var before, earlier := fs.files, fs.journal;
    ghost var new_ := fs.files[tmp].(owner := uid, group := gid, mode := mode);
    s := fs.Chown(tmp, uid, gid);
    if s == Ok {
      Extended(before, earlier, earlier, fs.files, dest, tmp, new_);
      ghost var j := fs.journal;
      s := fs.Chmod(tmp, mode);
      if s == Ok {
        Extended(before, earlier, j, fs.files, dest, tmp, new_);
        j := fs.journal;
        s := fs.Rename(tmp, dest);
        if s == Ok {
          Extended(before, earlier, j, fs.files, dest, tmp, new_);
          var d := fs.SyncDir();
          return if d == Cut then Cut else Ok;
        }
      }
    }
    if s == Err {
      s := CleanUp(fs, before, earlier, dest, tmp, new_);
    }
  }

  /** A step failed: remove the temporary file, if possible. */
  method CleanUp(
    fs: FileSystem, ghost before: Image, ghost earlier: seq<Image>, dest: string, tmp: string, ghost new_: File)
    returns (s: Status)
    requires fs.Valid() && dest != tmp && OnlyReplacing(before, earlier, fs.journal, dest, tmp, new_)
    requires Replacing(before, fs.files, dest, tmp, new_)
    modifies fs
    ensures s != Ok && fs.Valid() && OnlyReplacing(before, earlier, fs.journal, dest, tmp, new_)
    ensures forall name :: name != tmp ==> At(fs.files, name) == At(old(fs.files), name)
  {
    ghost var j := fs.journal;
    var c := fs.Remove(tmp);
    if c == Ok {
      Extended(before, earlier, j, fs.files, dest, tmp, new_);
    }
    s := if c == Cut then Cut else Err;
  }

  /** `write_secret`. Whatever call fails or is cut, the destination is the old file
      or the complete, synced new one with its owner, group and mode. */
  method WriteSecret(
    fs: FileSystem, dest: string, pid: string, uid: nat, gid: nat, mode: nat, fields: EnvFile.Fields)
    returns (s: Status)
    requires fs.Valid()
    modifies fs
    ensures Careful(fs, dest, TmpName(dest, pid), File(EnvFile.Encoded(fields), true, uid, gid, mode))
    ensures s == Ok ==> At(fs.files, dest) == Some(File(EnvFile.Encoded(fields), true, uid, gid, mode))
    ensures s == Ok ==> TmpName(dest, pid) !in fs.files
    ensures s == Err ==> At(fs.files, dest) == At(old(fs.files), dest)
    // Nothing but a failing call makes it fail, leftovers of an earlier attempt included.
    ensures Working(old(fs.calls)) ==> s != Err
    // Once it is done, every state that may come back has the new file exactly if the
    // directory was synced, or the old file was the same. A failing sync is ignored.
    ensures s == Ok ==>
              (Lasting(fs.journal, dest, File(EnvFile.Encoded(fields), true, uid, gid, mode)) <==>
               fs.Flushed() || At(old(fs.files), dest) == Some(File(EnvFile.Encoded(fields), true, uid, gid, mode)))
    ensures Working(old(fs.calls)) && s == Ok ==> fs.Flushed()
  {
    var tmp := TmpName(dest, pid);
    ghost var new_ := File(EnvFile.Encoded(fields), true, uid, gid, mode);
    s := fs.MakeDir();
    if s != Ok {
      return;
    }
    s := fs.Remove(tmp);
    if s == Cut {
      return;
    }
    ghost var before, j0 := old(fs.files), old(fs.journal);
    assert OnlyPreparing(before, j0, fs.journal, tmp);
    ghost var removed, j1 := fs.files, fs.journal;
    var body := EnvFile.EncodeEnvFile(fields);
    var written;
    s, written := PrepareTemp(fs, dest, tmp, body, true);
    ghost var mid, j2 := fs.files, fs.journal;
    Chained(before, j0, removed, j1, mid, j2, tmp);
    if s == Ok {
      s := HandOver(fs, dest, tmp, uid, gid, mode);
      if s == Ok {
        LastsExactly(mid, fs.journal, fs.files, dest, tmp, new_);
      }
    } else {
      assert OnlyReplacing(mid, j2, j2, dest, tmp, new_);
    }
    Composed(before, j0, mid, j2, fs.journal, dest, tmp, new_);
  }

  lemma Chained(before: Image, j0: seq<Image>, mid: Image, j1: seq<Image>, later: Image, j2: seq<Image>, tmp: string)
    requires OnlyPreparing(before, j0, j1, tmp) && Preparing(before, mid, tmp)
    requires OnlyPreparing(mid, j1, j2, tmp) && Preparing(mid, later, tmp)
    ensures OnlyPreparing(before, j0, j2, tmp) && Preparing(before, later, tmp)
  {
    forall img | img in j2 && img !in j0
      ensures Preparing(before, img, tmp)
    {
      if img !in j1 {
        PreparingTrans(before, mid, img, tmp);
      }
    }
    PreparingTrans(before, mid, later, tmp);
  }

  lemma PreparingTrans(before: Image, mid: Image, img: Image, tmp: string)
    requires Preparing(before, mid, tmp) && Preparing(mid, img, tmp)
    ensures Preparing(before, img, tmp)
  {
  }

  /** `writeCredentialFile`. The text is written with a single call, so what replaces
      the file is the part of it that one call got to. The directory is not synced. */
  method WriteCredentialFile(fs: FileSystem, dest: string, pid: string, contents: string)
    returns (s: Status, ghost written: string)
    requires fs.Valid()
    modifies fs
    ensures written <= contents && (fs.wholeWrites ==> written == contents)
    ensures Careful(fs, dest, dest + ".tmp." + pid, File(written, true, 0, 0, PRIVATE))
    ensures s == Ok ==> At(fs.files, dest) == Some(File(written, true, 0, 0, PRIVATE))
    ensures s != Ok ==> OnlyPreparing(old(fs.files), old(fs.journal), fs.journal, dest + ".tmp." + pid)
    ensures s != Ok ==> At(fs.files, dest) == At(old(fs.files), dest)
    // A leftover of an interrupted attempt with the same process id makes it fail, and
    // nothing else but a failing call does.
    ensures dest + ".tmp." + pid in old(fs.files) ==> s != Ok
    ensures Working(old(fs.calls)) && dest + ".tmp." + pid !in old(fs.files) ==> s != Err
    ensures dest + ".tmp." + pid in old(fs.files) ==> fs.files == old(fs.files)
    // The directory is not synced: even when it is done the old file may come back.
    ensures s == Ok ==>
              (Lasting(fs.journal, dest, File(written, true, 0, 0, PRIVATE)) <==>
               At(old(fs.files), dest) == Some(File(written, true, 0, 0, PRIVATE)))
    ensures s == Ok ==> exists img :: img in fs.journal && At(img, dest) == At(old(fs.files), dest)
  {
    written := contents;
    var tmp := dest + ".tmp." + pid;
    assert tmp != dest by { assert |tmp| > |dest|; }
    s := fs.MakeDir();
    if s != Ok {
      return;
    }
    ghost var before, j0 := fs.files, fs.journal;
    var part;
    s, part := PrepareTemp(fs, dest, tmp, contents, false);
    written := if s == Ok then part else contents;
    ghost var mid, j1, new_ := fs.files, fs.journal, File(written, true, 0, 0, PRIVATE);
    if s == Ok {
      s := RenameOrRemove(fs, dest, tmp, new_);
      if s != Ok {
        Chained(before, j0, mid, j1, fs.files, fs.journal, tmp);
      } else {
        LastsExactly(mid, fs.journal, fs.files, dest, tmp, new_);
        assert tmp in mid && tmp !in fs.files;
        assert mid in fs.journal;
      }
    } else {
      assert OnlyReplacing(mid, j1, j1, dest, tmp, new_);
    }
    Composed(before, j0, mid, j1, fs.journal, dest, tmp, new_);
  }

  method RenameOrRemove(fs: FileSystem, dest: string, tmp: string, ghost new_: File) returns (s: Status)
    requires fs.Valid() && dest != tmp && At(fs.files, tmp) == Some(new_) && new_.mode == PRIVATE
    modifies fs
    ensures Careful(fs, dest, tmp, new_)
    ensures s == Ok ==> At(fs.files, dest) == Some(new_) && tmp !in fs.files
    ensures s != Ok ==> OnlyPreparing(old(fs.files), old(fs.journal), fs.journal, tmp)
    ensures s != Ok ==> Preparing(old(fs.files), fs.files, tmp)
    ensures Working(old(fs.calls)) ==> s != Err
    ensures s == Ok ==> old(fs.journal) <= fs.journal
  {
    ghost var before, earlier := fs.files, fs.journal;
    s := fs.Rename(tmp, dest);
    if s == Ok {
      Extended(before, earlier, earlier, fs.files, dest, tmp, new_);
    } else if s == Err {
      var c := fs.Remove(tmp);
      if c == Ok {
        Extended(before, earlier, earlier, fs.files, dest, tmp, new_);
      }
      s := if c == Cut then Cut else Err;
    }
  }

  /** A power cut in the middle of a replacement, on a disk that had settled before:
      what comes back under the name is the old file unchanged or the new one whole. */
  lemma PowerCutKeepsOldOrNew(
    before: Image, journal: seq<Image>, dest: string, tmp: string, new_: File, after: Image)
    requires dest in before ==> before[dest].synced
    requires new_.synced && OnlyReplacing(before, [before], journal, dest, tmp, new_)
    requires Survives(journal, after)
    ensures At(after, dest) == At(before, dest) || At(after, dest) == Some(new_)
    ensures tmp in after && At(after, tmp) != At(before, tmp) && tmp !in before ==>
              after[tmp].mode == PRIVATE || after[tmp].mode == new_.mode
  {
    var k :| 0 <= k < |journal| && CameBack(journal[k], after);
    assert journal[k] in journal;
    assert Replacing(before, journal[k], dest, tmp, new_);
  }

  /** The new file is what comes back of every power cut exactly if every state of the
      journal has it. */
  lemma LastingExactly(journal: seq<Image>, dest: string, new_: File)
    requires new_.synced
    ensures Lasting(journal, dest, new_) <==>
            forall after :: Survives(journal, after) ==> At(after, dest) == Some(new_)
  {
    if Lasting(journal, dest, new_) {
      forall after | Survives(journal, after)
        ensures At(after, dest) == Some(new_)
      {
        var k :| 0 <= k < |journal| && CameBack(journal[k], after);
        assert journal[k] in journal;
      }
    } else {
      var img :| img in journal && At(img, dest) != Some(new_);
      var k :| 0 <= k < |journal| && journal[k] == img;
      var after := Junk(img, new_.body + "x");
      assert CameBack(journal[k], after);
      assert Survives(journal, after);
      assert |new_.body + "x"| != |new_.body|;
    }
  }

  /** The disk after a cut that left `junk` in every file that was not synced. */
  function Junk(img: Image, junk: string): Image {
    map name | name in img :: if img[name].synced then img[name] else img[name].(body := junk, synced := true)
  }
}
