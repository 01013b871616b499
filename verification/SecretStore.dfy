/** The one step that operator-secretsd's model makes of writing a secret, and the calls
    on the file system that it stands for
    (packages/operator-secrets/src/bin/daemon.rs). */
module SecretStore {
  import opened Text
  import opened EnvFile
  import opened SecretForms
  import opened SecretDaemon
  import AtomicFile

  function FileStateOf(img: AtomicFile.Image, path: string): FileState {
    if path in img then Content(img[path].body) else NoFile
  }

  /** What each outcome means for the file. */
  predicate OutcomeIs(r: WriteResult, before: FileState, after: FileState, values: Fields) {
    after == if r == Written || r == CutAfter then Content(Encoded(values)) else before
  }

  /** The step does to the file what its outcome means, and the run goes on only when the
      values are written. */
  lemma StoredIs(w: World, spec: SecretSpec, values: Fields)
    requires w.writes != []
    ensures var r := Stored(w, spec, values);
            && OutcomeIs(w.writes[0], Read(w.files, spec.path), Read(r.w.files, spec.path), values)
            && (forall p :: p != spec.path ==> Read(r.w.files, p) == Read(w.files, p))
            && (r.Go? <==> w.writes[0] == Written)
            && (r.Stop? ==> r.how == if w.writes[0] == Refused then Failed else PowerLost)
  {
  }

  /** `write_secret` on a file system that has settled, and a power cut if it was cut off:
      every end of it is one of the four outcomes. */
  method WriteOnce(
    fs: AtomicFile.FileSystem, dest: string, pid: string, uid: nat, gid: nat, mode: nat, values: Fields, k: nat,
    junk: map<string, string>)
    returns (r: WriteResult)
    requires fs.Valid() && fs.Settled()
    modifies fs
    ensures OutcomeIs(r, FileStateOf(old(fs.files), dest), FileStateOf(fs.files, dest), values)
    ensures r == CutBefore || r == CutAfter ==> fs.Settled()
    ensures AtomicFile.Working(old(fs.calls)) ==> r != Refused
  {
    ghost var before := fs.files;
    var s := AtomicFile.WriteSecret(fs, dest, pid, uid, gid, mode, values);
    if s == AtomicFile.Ok {
      return Written;
    } else if s == AtomicFile.Err {
      return Refused;
    }
    ghost var journal := fs.journal;
    fs.PowerCycle(k % |fs.journal|, junk, []);
    ghost var new_ := AtomicFile.File(Encoded(values), true, uid, gid, mode);
    AtomicFile.PowerCutKeepsOldOrNew(before, journal, dest, AtomicFile.TmpName(dest, pid), new_, fs.files);
    r := if FileStateOf(fs.files, dest) == Content(Encoded(values)) then CutAfter else CutBefore;
  }
}
