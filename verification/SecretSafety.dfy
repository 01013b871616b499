/** What a run of operator-secretsd does to the files: only values that a client sent
    for a prompt of this run, that were accepted and judged Valid are ever written, and
    the boot is released only when every file holds values judged Valid. */
module SecretSafety {
  import opened Text
  import opened EnvFile
  import opened SecretForms
  import opened PromptHub
  import opened SecretDaemon
  import opened SecretRuns

  /** A prompt with this id was shown for the secret since then. */
  predicate ShownSince(spec: SecretSpec, id: nat, since: World, now: World) {
    exists i :: |since.trace| <= i < |now.trace| && now.trace[i].prompt.Some? &&
                now.trace[i].prompt.value.id == id && now.trace[i].prompt.value.secret == spec.name
  }

  /** The form is what a client sent for prompt `id`, shown for the secret since then. If
      clients answer only what they saw, it is the first answer anyone sent for it. */
  ghost predicate Answers(spec: SecretSpec, id: nat, form: Fields, since: World, now: World) {
    && since.hub.posted < id && ShownSince(spec, id, since, now)
    && (exists s :: s in now.hub.sent && s.msg == Submit(id, form))
    && (Honest(now.hub) ==> FirstAnswer(now.hub.sent, id) == Some(form))
  }

  /** The values are an answer to a prompt for the secret, accepted. */
  ghost predicate Typed(spec: SecretSpec, values: Fields, since: World, now: World) {
    exists id: nat, form :: Answers(spec, id, form, since, now) && Accepted(spec, form) == Success(values)
  }

  /** These values were given to the secret's validator since then, and it said Valid; or,
      if it has none, none of its fields is missing or empty. */
  predicate JudgedSince(spec: SecretSpec, values: Fields, since: World, now: World) {
    exists i :: |since.judged| <= i < |now.judged| && Passed(now.judged[i], spec, values)
  }

  predicate Passed(j: Judgement, spec: SecretSpec, values: Fields) {
    && j.secret == spec && j.values == values && j.verdict.status == Status.Valid
    && (!spec.hasValidator ==> AllPresent(spec.fields, values))
  }

  /** The file was written since then, from values typed, accepted and judged Valid. */
  ghost predicate Replaced(spec: SecretSpec, file: FileState, since: World, now: World) {
    exists v :: file == Content(Encoded(v)) && Typed(spec, v, since, now) && JudgedSince(spec, v, since, now)
  }

  /** The file reads as complete, with values judged Valid since then. */
  ghost predicate Proven(spec: SecretSpec, since: World, now: World) {
    exists v :: Classified(spec, ReadParsed(now.files, spec.path)) == Complete(v) && JudgedSince(spec, v, since, now)
  }

  predicate NoneValid(w: World) {
    forall v :: v in w.verdicts ==> v.status != Status.Valid
  }

  // --- what was true stays true ---------------------------------------------------------

  lemma AnswersLater(spec: SecretSpec, id: nat, form: Fields, since: World, now: World, later: World)
    requires Answers(spec, id, form, since, now) && Later(now, later)
    ensures Answers(spec, id, form, since, later)
  {
    var i :| |since.trace| <= i < |now.trace| && now.trace[i].prompt.Some? &&
             now.trace[i].prompt.value.id == id && now.trace[i].prompt.value.secret == spec.name;
    assert later.trace[i] == now.trace[i];
    var s :| s in now.hub.sent && s.msg == Submit(id, form);
    var k :| 0 <= k < |now.hub.sent| && now.hub.sent[k] == s;
    assert later.hub.sent[k] == s;
    if Honest(later.hub) {
      HonestBefore(now.hub, later.hub);
      FirstAnswerKept(now.hub.sent, later.hub.sent, id);
    }
  }

  lemma TypedLater(spec: SecretSpec, values: Fields, since: World, now: World, later: World)
    requires Typed(spec, values, since, now) && Later(now, later)
    ensures Typed(spec, values, since, later)
  {
    var id: nat, form :| Answers(spec, id, form, since, now) && Accepted(spec, form) == Success(values);
    AnswersLater(spec, id, form, since, now, later);
  }

  lemma JudgedLater(spec: SecretSpec, values: Fields, since: World, now: World, later: World)
    requires JudgedSince(spec, values, since, now) && Later(now, later)
    ensures JudgedSince(spec, values, since, later)
  {
    var i :| |since.judged| <= i < |now.judged| && Passed(now.judged[i], spec, values);
    assert later.judged[i] == now.judged[i];
  }

  lemma ReplacedLater(spec: SecretSpec, file: FileState, since: World, now: World, later: World)
    requires Replaced(spec, file, since, now) && Later(now, later)
    ensures Replaced(spec, file, since, later)
  {
    var v :| file == Content(Encoded(v)) && Typed(spec, v, since, now) && JudgedSince(spec, v, since, now);
    TypedLater(spec, v, since, now, later);
    JudgedLater(spec, v, since, now, later);
  }

  lemma ProvenLater(spec: SecretSpec, since: World, now: World, later: World)
    requires Proven(spec, since, now) && Later(now, later)
    requires Read(later.files, spec.path) == Read(now.files, spec.path)
    ensures Proven(spec, since, later)
  {
    var v :| Classified(spec, ReadParsed(now.files, spec.path)) == Complete(v) && JudgedSince(spec, v, since, now);
    JudgedLater(spec, v, since, now, later);
  }

  lemma ReplacedIsProven(spec: SecretSpec, since: World, now: World)
    requires WellFormed(spec) && Replaced(spec, Read(now.files, spec.path), since, now)
    ensures Proven(spec, since, now)
  {
    var file := Read(now.files, spec.path);
    var v :| file == Content(Encoded(v)) && Typed(spec, v, since, now) && JudgedSince(spec, v, since, now);
    var id: nat, form :| Answers(spec, id, form, since, now) && Accepted(spec, form) == Success(v);
    AcceptedReadsBackComplete(spec, form);
  }

  // --- a prompt and its answer ------------------------------------------------------------

  lemma TakenAnswers(since: World, w: World, spec: SecretSpec, reason: Reason, known: map<string, string>)
    requires PromptHub.Valid(w.hub) && Later(since, w)
    requires Awaited(Posted(w, spec, reason, known).hub).Answer?
    ensures var a := Awaited(Posted(w, spec, reason, known).hub);
            Answers(spec, w.hub.posted + 1, a.value, since, Taken(w, spec, reason, known))
  {
    var w1, w2 := Posted(w, spec, reason, known), Taken(w, spec, reason, known);
    AwaitedWasSent(w1.hub);
    AskedIsFirst(w.hub);
    assert w1.hub == w.hub.(posted := w.hub.posted + 1);
    assert w2.trace[|w.trace|] == w1.trace[|w.trace|] == w1.screen;
  }

  /** What a prompt loop takes is an accepted answer to a prompt of its own. */
  lemma {:induction false} FormTyped(
    since: World, w: World, spec: SecretSpec, reason: Reason, known: map<string, string>)
    requires PromptHub.Valid(w.hub) && Later(since, w)
    ensures var r := Form(w, spec, reason, known);
            r.Go? ==> Typed(spec, r.value, since, r.w)
    decreases |w.hub.arrivals|
  {
    var a := Awaited(Posted(w, spec, reason, known).hub);
    if a.Answer? {
      var w2 := Taken(w, spec, reason, known);
      TakenLater(w, spec, reason, known);
      TakenAnswers(since, w, spec, reason, known);
      LaterTrans(since, w, w2);
      if Accepted(spec, a.value).Failure? {
        var why := FormRefused(Accepted(spec, a.value).error);
        var w3 := Headline(w2, "prompt", spec.name, Because(why));
        LaterTrans(since, w2, w3);
        FormTyped(since, w3, spec, why, Visible(spec, a.value));
      }
    }
  }

  lemma {:induction false} FormKeeps(w: World, spec: SecretSpec, reason: Reason, known: map<string, string>)
    ensures var r := Form(w, spec, reason, known).w;
            && r.files == w.files && r.verdicts == w.verdicts && r.screen.done == w.screen.done
    decreases |w.hub.arrivals|
  {
    var a := Awaited(Posted(w, spec, reason, known).hub);
    if a.Answer? && Accepted(spec, a.value).Failure? {
      var why := FormRefused(Accepted(spec, a.value).error);
      var w3 := Headline(Taken(w, spec, reason, known), "prompt", spec.name, Because(why));
      FormKeeps(w3, spec, why, Visible(spec, a.value));
    }
  }

  lemma {:induction false} DecidedKeeps(w: World, spec: SecretSpec, values: Fields, what: Note, attempt: nat)
    ensures var r := Decided(w, spec, values, what, attempt);
            && r.w.files == w.files && r.w.screen.done == w.screen.done
            && (NoneValid(w) ==> NoneValid(r.w) && (r.Go? && spec.hasValidator ==> r.value.status == Invalid))
    decreases |w.verdicts|
  {
    var w1 := SetSecret(w, spec.name, SecretState.Validating, what);
    var j := Judged(w1, spec, values);
    if j.Go? && j.value.status == Error {
      DecidedKeeps(Retried(j.w, spec, j.value.message, attempt), spec, values, what, attempt + 1);
    }
  }

  lemma {:induction false} DecidedJudges(
    since: World, w: World, spec: SecretSpec, values: Fields, what: Note, attempt: nat)
    requires Later(since, w)
    ensures var r := Decided(w, spec, values, what, attempt);
            r.Go? && r.value.status == Status.Valid ==> JudgedSince(spec, values, since, r.w)
    decreases |w.verdicts|
  {
    var w1 := SetSecret(w, spec.name, SecretState.Validating, what);
    var j := Judged(w1, spec, values);
    if j.Go? && j.value.status == Error {
      DecidedJudges(since, Retried(j.w, spec, j.value.message, attempt), spec, values, what, attempt + 1);
    } else if j.Go? && j.value.status == Status.Valid {
      PresenceExactly(spec.fields, values);
      assert Concluded(j.w, attempt).judged == j.w.judged;
      assert Passed(j.w.judged[|w.judged|], spec, values);
    }
  }

  lemma DecidedSafe(since: World, w: World, spec: SecretSpec, values: Fields, what: Note, attempt: nat)
    requires Later(since, w)
    ensures var r := Decided(w, spec, values, what, attempt);
            && r.w.files == w.files && r.w.screen.done == w.screen.done
            && (r.Go? && r.value.status == Status.Valid ==> JudgedSince(spec, values, since, r.w))
            && (NoneValid(w) ==> NoneValid(r.w) && (r.Go? && spec.hasValidator ==> r.value.status == Invalid))
  {
    DecidedKeeps(w, spec, values, what, attempt);
    DecidedJudges(since, w, spec, values, what, attempt);
  }

  ghost predicate OnlyAt(path: string, w: World, w': World) {
    forall p :: p != path ==> Read(w'.files, p) == Read(w.files, p)
  }

  /** What one secret's turn may do: touch its own file only, and only to replace it. */
  ghost predicate Careful(spec: SecretSpec, since: World, w: World, w': World) {
    && Later(w, w')
    && w'.screen.done == w.screen.done
    && OnlyAt(spec.path, w, w')
    && (Read(w'.files, spec.path) == Read(w.files, spec.path)
        || Replaced(spec, Read(w'.files, spec.path), since, w'))
  }

  lemma LandedReads(files: Files, path: string, file: FileState)
    ensures Read(files[path := file], path) == file
    ensures forall p :: p != path ==> Read(files[path := file], p) == Read(files, p)
  {
  }

  lemma FinishedSafe(since: World, w: World, spec: SecretSpec, values: Fields)
    requires Typed(spec, values, since, w) && JudgedSince(spec, values, since, w)
    ensures var r := Finished(w, spec, values);
            && Careful(spec, since, w, r.w)
            && (r.Go? ==> Replaced(spec, Read(r.w.files, spec.path), since, r.w))
  {
    FinishedLater(w, spec, values);
    FinishedFiles(w, spec, values);
    WrittenReplaces(since, w, Finished(w, spec, values).w, spec, values);
  }

  /** A write leaves the old file or the new one. */
  lemma FinishedFiles(w: World, spec: SecretSpec, values: Fields)
    ensures var r := Finished(w, spec, values);
            && r.w.screen.done == w.screen.done
            && (r.w.files == w.files || r.w.files == w.files[spec.path := Content(Encoded(values))])
            && (r.Go? ==> r.w.files == w.files[spec.path := Content(Encoded(values))])
  {
  }

  lemma WrittenReplaces(since: World, w: World, r: World, spec: SecretSpec, values: Fields)
    requires Typed(spec, values, since, w) && JudgedSince(spec, values, since, w) && Later(w, r)
    requires r.screen.done == w.screen.done
    requires r.files == w.files || r.files == w.files[spec.path := Content(Encoded(values))]
    ensures Careful(spec, since, w, r)
    ensures r.files == w.files[spec.path := Content(Encoded(values))] ==>
              Replaced(spec, Read(r.files, spec.path), since, r)
  {
    TypedLater(spec, values, since, w, r);
    JudgedLater(spec, values, since, w, r);
    LandedReads(w.files, spec.path, Content(Encoded(values)));
    assert Replaced(spec, Content(Encoded(values)), since, r);
  }

  lemma CarefulAfter(spec: SecretSpec, since: World, w: World, w1: World, w2: World)
    requires Later(w, w1) && w1.files == w.files && w1.screen.done == w.screen.done
    requires Careful(spec, since, w1, w2)
    ensures Careful(spec, since, w, w2)
  {
    LaterTrans(w, w1, w2);
  }

  /** The only file a prompt can change is its own secret's, and only to values that
      were typed for it, accepted, and then judged Valid. */
  lemma {:induction false} PromptedSafe(
    since: World, w: World, spec: SecretSpec, known: map<string, string>, reason: Reason)
    requires PromptHub.Valid(w.hub) && Later(since, w)
    ensures var r := Prompted(w, spec, known, reason);
            && Careful(spec, since, w, r.w)
            && (r.Go? ==> Replaced(spec, Read(r.w.files, spec.path), since, r.w))
    decreases |w.hub.arrivals|
  {
    var w1 := SetSecret(w, spec.name, NeedsInput, Because(reason));
    LaterTrans(since, w, w1);
    var f := Form(w1, spec, reason, known);
    FormKeeps(w1, spec, reason, known);
    FormLater(w1, spec, reason, known);
    FormTyped(since, w1, spec, reason, known);
    LaterTrans(w, w1, f.w);
    LaterTrans(since, w, f.w);
    if f.Go? {
      AnswerSafe(since, w, f.w, spec, f.value);
      var d := Decided(f.w, spec, f.value, ValidatingEntered, 1);
      if d.Go? && d.value.status != Status.Valid {
        var why := EntryRejected(d.value.message);
        var w3 := Headline(d.w, "prompt", spec.name, Because(why));
        LaterTrans(w, d.w, w3);
        LaterTrans(since, w, w3);
        PromptedSafe(since, w3, spec, Visible(spec, f.value), why);
        CarefulAfter(spec, since, w, w3, Prompted(w3, spec, Visible(spec, f.value), why).w);
      }
    }
  }

  /** An answer is validated, and written if it is judged Valid. */
  lemma AnswerSafe(since: World, w: World, w1: World, spec: SecretSpec, values: Fields)
    requires Later(since, w) && Later(w, w1) && Typed(spec, values, since, w1)
    requires w1.files == w.files && w1.screen.done == w.screen.done
    ensures var d := Decided(w1, spec, values, ValidatingEntered, 1);
            && Later(w, d.w) && d.w.files == w.files && d.w.screen.done == w.screen.done
            && (d.Go? && d.value.status == Status.Valid ==>
                  var r := Finished(d.w, spec, values);
                  && Careful(spec, since, w, r.w)
                  && (r.Go? ==> Replaced(spec, Read(r.w.files, spec.path), since, r.w)))
  {
    var d := Decided(w1, spec, values, ValidatingEntered, 1);
    LaterTrans(since, w, w1);
    DecidedSafe(since, w1, spec, values, ValidatingEntered, 1);
    DecidedLater(w1, spec, values, ValidatingEntered, 1);
    LaterTrans(w, w1, d.w);
    if d.Go? && d.value.status == Status.Valid {
      TypedLater(spec, values, since, w1, d.w);
      FinishedSafe(since, d.w, spec, values);
      CarefulAfter(spec, since, w, d.w, Finished(d.w, spec, values).w);
    }
  }

  lemma TurnSafe(
    since: World, w: World, w1: World, spec: SecretSpec, known: map<string, string>, reason: Reason)
    requires WellFormed(spec) && PromptHub.Valid(w1.hub) && Later(since, w) && Later(w, w1)
    requires w1.files == w.files && w1.screen.done == w.screen.done
    ensures var r := Prompted(Headline(w1, "prompt", spec.name, Because(reason)), spec, known, reason);
            && Careful(spec, since, w, r.w)
            && (r.Go? ==> Proven(spec, since, r.w))
  {
    var w2 := Headline(w1, "prompt", spec.name, Because(reason));
    LaterTrans(w, w1, w2);
    LaterTrans(since, w, w2);
    PromptedSafe(since, w2, spec, known, reason);
    var r := Prompted(w2, spec, known, reason);
    CarefulAfter(spec, since, w, w2, r.w);
    if r.Go? {
      ReplacedIsProven(spec, since, r.w);
    }
  }

  /** A turn touches its own secret's file only, and one that ends satisfied leaves it
      complete, with values judged Valid. */
  lemma SatisfiedSafe(since: World, w: World, spec: SecretSpec)
    requires WellFormed(spec) && PromptHub.Valid(w.hub) && Later(since, w)
    ensures Careful(spec, since, w, SatisfiedSecret(w, spec).w)
    ensures SatisfiedSecret(w, spec).Go? ==> Proven(spec, since, SatisfiedSecret(w, spec).w)
  {
    var w1 := Begun(w, spec);
    assert Later(w, w1);
    if Read(w.files, spec.path) != Unreadable {
      match Classified(spec, ReadParsed(w.files, spec.path))
      case Absent => TurnSafe(since, w, w1, spec, map[], NotStoredYet);
      case Incomplete(missing, usable) =>
        TurnSafe(since, w, w1, spec, VisibleStored(spec, usable), FileIncomplete(missing));
      case Complete(values) => StoredTurnSafe(since, w, spec, values);
    }
  }

  lemma StoredTurnSafe(since: World, w: World, spec: SecretSpec, values: Fields)
    requires WellFormed(spec) && PromptHub.Valid(w.hub) && Later(since, w)
    requires Classified(spec, ReadParsed(w.files, spec.path)) == Complete(values)
    ensures Careful(spec, since, w, SatisfiedSecret(w, spec).w)
    ensures SatisfiedSecret(w, spec).Go? ==> Proven(spec, since, SatisfiedSecret(w, spec).w)
  {
    var w1 := Begun(w, spec);
    BegunLater(w, spec);
    CompleteTurn(w, spec, values);
    LaterTrans(since, w, w1);
    DecidedSafe(since, w1, spec, values, ValidatingStored, 1);
    DecidedLater(w1, spec, values, ValidatingStored, 1);
    var d := Decided(w1, spec, values, ValidatingStored, 1);
    LaterTrans(w, w1, d.w);
    if d.Go? && d.value.status != Status.Valid {
      TurnSafe(since, w, d.w, spec, Prefill(spec, MapOf(values)), StoredRejected(d.value.message));
    } else if d.Go? {
      FoundValid(since, w, d.w, spec, values);
    }
  }

  lemma FoundValid(since: World, w: World, d: World, spec: SecretSpec, values: Fields)
    requires Later(since, w) && Later(w, d) && d.files == w.files && d.screen.done == w.screen.done
    requires Classified(spec, ReadParsed(w.files, spec.path)) == Complete(values)
    requires JudgedSince(spec, values, since, d)
    ensures var r := Headline(SetSecret(d, spec.name, Satisfied, StoredValid), "check", spec.name, StoredValid);
            Careful(spec, since, w, r) && Proven(spec, since, r)
  {
    var r := Headline(SetSecret(d, spec.name, Satisfied, StoredValid), "check", spec.name, StoredValid);
    assert Later(d, r);
    LaterTrans(w, d, r);
    JudgedLater(spec, values, since, d, r);
  }

  predicate DistinctPaths(specs: seq<SecretSpec>) {
    forall i, j :: 0 <= i < j < |specs| ==> specs[i].path != specs[j].path
  }

  ghost predicate OnlyReplaced(specs: seq<SecretSpec>, since: World, w: World, w': World) {
    forall p :: Read(w'.files, p) == Read(w.files, p) ||
                exists s :: s in specs && s.path == p && Replaced(s, Read(w'.files, p), since, w')
  }

  lemma OnlyReplacedStep(specs: seq<SecretSpec>, since: World, w: World, w1: World, w2: World)
    requires specs != [] && Careful(specs[0], since, w, w1) && Later(w1, w2)
    requires OnlyReplaced(specs[1..], since, w1, w2)
    ensures OnlyReplaced(specs, since, w, w2)
  {
    var spec := specs[0];
    assert spec in specs && forall s :: s in specs[1..] ==> s in specs;
    if Replaced(spec, Read(w1.files, spec.path), since, w1) {
      ReplacedLater(spec, Read(w1.files, spec.path), since, w1, w2);
    }
  }

  lemma Untouched(specs: seq<SecretSpec>, since: World, w: World, w': World, path: string)
    requires OnlyReplaced(specs, since, w, w') && forall s :: s in specs ==> s.path != path
    ensures Read(w'.files, path) == Read(w.files, path)
  {
  }

  /** All turns, one after another. A file is what the last secret that has it left there. */
  lemma {:induction false} AllSafe(since: World, w: World, specs: seq<SecretSpec>)
    requires PromptHub.Valid(w.hub) && Later(since, w)
    requires forall s :: s in specs ==> WellFormed(s)
    ensures var r := AllSatisfiedFrom(w, specs);
            && OnlyReplaced(specs, since, w, r.w)
            && r.w.screen.done == (w.screen.done || r.Go?)
            && (r.Go? ==> LastProven(specs, since, r.w))
    decreases |specs|
  {
    if specs != [] {
      var spec, rest := specs[0], specs[1..];
      assert spec in specs && forall s :: s in rest ==> s in specs;
      SatisfiedSafe(since, w, spec);
      SatisfiedLater(w, spec);
      var r1 := SatisfiedSecret(w, spec);
      if r1.Go? {
        LaterTrans(since, w, r1.w);
        AllSafe(since, r1.w, rest);
        AllLater(r1.w, rest);
        var r := AllSatisfiedFrom(r1.w, rest);
        OnlyReplacedStep(specs, since, w, r1.w, r.w);
        if r.Go? {
          LastProvenStep(specs, since, r1.w, r.w);
        }
      } else {
        NothingReplaced(rest, since, r1.w);
        OnlyReplacedStep(specs, since, w, r1.w, r1.w);
      }
    }
  }

  /** No later secret has the same file. */
  predicate LastAt(specs: seq<SecretSpec>, i: nat)
    requires i < |specs|
  {
    forall j :: i < j < |specs| ==> specs[j].path != specs[i].path
  }

  ghost predicate LastProven(specs: seq<SecretSpec>, since: World, now: World) {
    forall i :: 0 <= i < |specs| && LastAt(specs, i) ==> Proven(specs[i], since, now)
  }

  lemma LastProvenStep(specs: seq<SecretSpec>, since: World, w1: World, w2: World)
    requires specs != [] && Proven(specs[0], since, w1) && Later(w1, w2)
    requires OnlyReplaced(specs[1..], since, w1, w2) && LastProven(specs[1..], since, w2)
    ensures LastProven(specs, since, w2)
  {
    var rest := specs[1..];
    forall i | 0 <= i < |specs| && LastAt(specs, i)
      ensures Proven(specs[i], since, w2)
    {
      assert forall j :: 0 <= j < |rest| ==> rest[j] == specs[j + 1];
      if i == 0 {
        Untouched(rest, since, w1, w2, specs[0].path);
        ProvenLater(specs[0], since, w1, w2);
      } else {
        assert LastAt(rest, i - 1);
      }
    }
  }

  ghost predicate AllProven(specs: seq<SecretSpec>, since: World, now: World) {
    forall s :: s in specs ==> Proven(s, since, now)
  }

  lemma NothingReplaced(specs: seq<SecretSpec>, since: World, w: World)
    ensures OnlyReplaced(specs, since, w, w)
  {
  }

  /** A boot run, from any state and against any clients, verdicts and write results:
      each file is what it was or the encoding of values that a client sent for a prompt
      of this run, that were accepted and judged Valid; `done` is shown only when every
      file holds complete values, judged Valid in this run for the last secret that has
      it; and the validators' verdicts were used in order, each for the values given. */
  lemma BootSafe(w: World, specs: seq<SecretSpec>)
    requires PromptHub.Valid(w.hub) && !w.screen.done
    requires forall s :: s in specs ==> WellFormed(s)
    ensures var r := Booted(w, specs);
            && OnlyReplaced(specs, w, w, r.w)
            && (r.w.screen.done ==> LastProven(specs, w, r.w))
            && (r.w.screen.done && DistinctPaths(specs) ==> AllProven(specs, w, r.w))
            && (r.w.screen.done <==> r.Go?)
            && Later(w, r.w)
  {
    var w1 := Listed(w, specs);
    assert Later(w, w1);
    AllSafe(w, w1, specs);
    AllLater(w1, specs);
    LaterTrans(w, w1, Booted(w, specs).w);
    var r := Booted(w, specs).w;
    if r.screen.done && DistinctPaths(specs) {
      forall s | s in specs
        ensures Proven(s, w, r)
      {
        var i :| 0 <= i < |specs| && specs[i] == s;
        assert LastAt(specs, i);
      }
    }
  }

  // --- verdicts that are not Valid ----------------------------------------------------------

  lemma AnswerFrame(w: World, spec: SecretSpec, values: Fields)
    ensures var d := Decided(w, spec, values, ValidatingEntered, 1);
            && d.w.files == w.files
            && OnlyAt(spec.path, w, Finished(d.w, spec, values).w)
  {
    DecidedKeeps(w, spec, values, ValidatingEntered, 1);
    var d := Decided(w, spec, values, ValidatingEntered, 1);
    FinishedFiles(d.w, spec, values);
    LandedReads(d.w.files, spec.path, Content(Encoded(values)));
  }

  lemma {:induction false} PromptedFrame(w: World, spec: SecretSpec, known: map<string, string>, reason: Reason)
    ensures OnlyAt(spec.path, w, Prompted(w, spec, known, reason).w)
    decreases |w.hub.arrivals|
  {
    var w1 := SetSecret(w, spec.name, NeedsInput, Because(reason));
    var f := Form(w1, spec, reason, known);
    FormKeeps(w1, spec, reason, known);
    if f.Go? {
      AnswerFrame(f.w, spec, f.value);
      var d := Decided(f.w, spec, f.value, ValidatingEntered, 1);
      if d.Go? && d.value.status != Status.Valid {
        var why := EntryRejected(d.value.message);
        PromptedFrame(Headline(d.w, "prompt", spec.name, Because(why)), spec, Visible(spec, f.value), why);
      }
    }
  }

  lemma SatisfiedFrame(w: World, spec: SecretSpec)
    ensures OnlyAt(spec.path, w, SatisfiedSecret(w, spec).w)
  {
    var w1 := Begun(w, spec);
    if Read(w.files, spec.path) != Unreadable {
      match Classified(spec, ReadParsed(w.files, spec.path))
      case Absent => PromptedFrame(Headline(w1, "prompt", spec.name, Because(NotStoredYet)), spec, map[], NotStoredYet);
      case Incomplete(missing, usable) =>
        var why := FileIncomplete(missing);
        PromptedFrame(Headline(w1, "prompt", spec.name, Because(why)), spec, VisibleStored(spec, usable), why);
      case Complete(values) =>
        DecidedKeeps(w1, spec, values, ValidatingStored, 1);
        var d := Decided(w1, spec, values, ValidatingStored, 1);
        if d.Go? && d.value.status != Status.Valid {
          var why := StoredRejected(d.value.message);
          PromptedFrame(Headline(d.w, "prompt", spec.name, Because(why)), spec, Prefill(spec, MapOf(values)), why);
        }
    }
  }

  lemma {:induction false} PromptedIdle(w: World, spec: SecretSpec, known: map<string, string>, reason: Reason)
    requires NoneValid(w)
    ensures var r := Prompted(w, spec, known, reason).w;
            && NoneValid(r)
            && (spec.hasValidator ==> r.files == w.files && Prompted(w, spec, known, reason).Stop?)
    decreases |w.hub.arrivals|
  {
    var w1 := SetSecret(w, spec.name, NeedsInput, Because(reason));
    var f := Form(w1, spec, reason, known);
    FormKeeps(w1, spec, reason, known);
    if f.Go? {
      AnswerIdle(f.w, spec, f.value);
      var d := Decided(f.w, spec, f.value, ValidatingEntered, 1);
      if d.Go? && d.value.status != Status.Valid {
        var why := EntryRejected(d.value.message);
        PromptedIdle(Headline(d.w, "prompt", spec.name, Because(why)), spec, Visible(spec, f.value), why);
      }
    }
  }

  lemma AnswerIdle(w: World, spec: SecretSpec, values: Fields)
    requires NoneValid(w)
    ensures var d := Decided(w, spec, values, ValidatingEntered, 1);
            && NoneValid(d.w) && d.w.files == w.files
            && (d.Go? && d.value.status == Status.Valid ==>
                  !spec.hasValidator && NoneValid(Finished(d.w, spec, values).w))
  {
    DecidedKeeps(w, spec, values, ValidatingEntered, 1);
    var d := Decided(w, spec, values, ValidatingEntered, 1);
    assert Finished(d.w, spec, values).w.verdicts == d.w.verdicts;
  }

  lemma SatisfiedIdle(w: World, spec: SecretSpec)
    requires NoneValid(w)
    ensures var r := SatisfiedSecret(w, spec).w;
            NoneValid(r) && (spec.hasValidator ==> r.files == w.files)
  {
    var w1 := Begun(w, spec);
    if Read(w.files, spec.path) != Unreadable {
      match Classified(spec, ReadParsed(w.files, spec.path))
      case Absent => PromptedIdle(Headline(w1, "prompt", spec.name, Because(NotStoredYet)), spec, map[], NotStoredYet);
      case Incomplete(missing, usable) =>
        var why := FileIncomplete(missing);
        PromptedIdle(Headline(w1, "prompt", spec.name, Because(why)), spec, VisibleStored(spec, usable), why);
      case Complete(values) =>
        DecidedKeeps(w1, spec, values, ValidatingStored, 1);
        var d := Decided(w1, spec, values, ValidatingStored, 1);
        if d.Go? && d.value.status != Status.Valid {
          var why := StoredRejected(d.value.message);
          PromptedIdle(Headline(d.w, "prompt", spec.name, Because(why)), spec, Prefill(spec, MapOf(values)), why);
        }
    }
  }

  lemma {:induction false} AllIdle(w: World, specs: seq<SecretSpec>, path: string)
    requires NoneValid(w) && forall s :: s in specs && s.path == path ==> s.hasValidator
    ensures Read(AllSatisfiedFrom(w, specs).w.files, path) == Read(w.files, path)
    decreases |specs|
  {
    if specs != [] {
      SatisfiedIdle(w, specs[0]);
      SatisfiedFrame(w, specs[0]);
      assert specs[0] in specs;
      if SatisfiedSecret(w, specs[0]).Go? {
        AllIdle(SatisfiedSecret(w, specs[0]).w, specs[1..], path);
      }
    }
  }

  /** Verdicts other than Valid, however many, leave the file of every secret that has a
      validator as it was, whatever other secrets have. */
  lemma UndecidedWritesNothing(w: World, specs: seq<SecretSpec>, path: string)
    requires NoneValid(w) && forall s :: s in specs && s.path == path ==> s.hasValidator
    ensures Read(Booted(w, specs).w.files, path) == Read(w.files, path)
  {
    AllIdle(Listed(w, specs), specs, path);
  }

  // --- edit sessions ------------------------------------------------------------------------

  lemma {:induction false} PublishedKeeps(w: World, specs: seq<SecretSpec>)
    ensures var w' := PublishedAll(w, specs);
            w'.files == w.files && w'.screen.done == w.screen.done && w'.verdicts == w.verdicts && w'.hub == w.hub
    decreases |specs|
  {
    if specs != [] {
      PublishedKeeps(Published(w, specs[0]), specs[1..]);
    }
  }

  /** The moment a secret was chosen. */
  function Offered(w: World, specs: seq<SecretSpec>): World {
    var w1 := PublishedAll(Listed(w, specs), specs);
    Headline(Show(w1, w1.screen.(choosing := true)), "choose", "", ChooseSecret)
  }

  lemma OfferedLater(w: World, specs: seq<SecretSpec>)
    ensures Later(w, Offered(w, specs)) && Offered(w, specs).hub == w.hub
    ensures Offered(w, specs).files == w.files && Offered(w, specs).screen.done == w.screen.done
  {
    var w0 := Listed(w, specs);
    PublishedLater(w0, specs);
    PublishedKeeps(w0, specs);
    LaterTrans(w, w0, PublishedAll(w0, specs));
  }

  /** An edit session changes at most the file of the secret that was chosen, and that
      one only to values that a client sent for a prompt of this session, that were
      accepted and judged Valid. */
  lemma EditSafe(w: World, specs: seq<SecretSpec>)
    requires PromptHub.Valid(w.hub) && !w.screen.done
    ensures var r := Edited(w, specs);
            var choice := Chosen(w.hub).0;
            && Later(w, r.w)
            && (r.w.screen.done <==> r.Go?)
            && (choice.None? || SpecNamed(specs, choice.value).None? ==> r.w.files == w.files && !r.Go?)
            && (choice.Some? && SpecNamed(specs, choice.value).Some? ==>
                  EditedOnly(SpecNamed(specs, choice.value).value, w, r))
  {
    OfferedLater(w, specs);
    var w2 := Offered(w, specs);
    var (choice, hub) := Chosen(w2.hub);
    ChosenContinues(w2.hub);
    var w4 := Show(w2.(hub := hub), w2.screen.(choosing := false));
    LaterTrans(w, w2, w2.(hub := hub));
    LaterTrans(w, w2, w4);
    if choice.Some? && SpecNamed(specs, choice.value).Some? {
      ReEnteredSafe(w, w4, SpecNamed(specs, choice.value).value);
    }
  }

  ghost predicate EditedOnly(spec: SecretSpec, w: World, r: Flow<()>) {
    && OnlyAt(spec.path, w, r.w)
    && (Read(r.w.files, spec.path) == Read(w.files, spec.path)
        || Replaced(spec, Read(r.w.files, spec.path), w, r.w))
    && (r.Go? ==> Replaced(spec, Read(r.w.files, spec.path), w, r.w))
  }

  lemma ReEnteredSafe(since: World, w: World, spec: SecretSpec)
    requires PromptHub.Valid(w.hub) && Later(since, w) && w.files == since.files && !w.screen.done
    ensures EditedOnly(spec, since, ReEntered(w, spec))
    ensures ReEntered(w, spec).w.screen.done <==> ReEntered(w, spec).Go?
    ensures Later(since, ReEntered(w, spec).w)
  {
    var stored := ReadParsed(w.files, spec.path);
    var known := Prefill(spec, if stored.Some? then stored.value else map[]);
    var w1 := Headline(w, "prompt", spec.name, ReEntering);
    LaterTrans(since, w, w1);
    PromptedSafe(since, w1, spec, known, Requested);
    var p := Prompted(w1, spec, known, Requested);
    PromptedLater(w1, spec, known, Requested);
    LaterTrans(since, w1, p.w);
    if p.Go? {
      ClosedEdit(since, p.w, spec);
      LaterTrans(since, p.w, ReEntered(w, spec).w);
    }
  }

  lemma ClosedEdit(since: World, w: World, spec: SecretSpec)
    requires Replaced(spec, Read(w.files, spec.path), since, w)
    ensures var shown := Show(w, w.screen.(done := true, blocked := false, prompt := None));
            var r := Headline(shown, "done", spec.name, Updated);
            && r.files == w.files && r.screen.done && Replaced(spec, Read(w.files, spec.path), since, r)
            && Later(w, r)
  {
    var shown := Show(w, w.screen.(done := true, blocked := false, prompt := None));
    var r := Headline(shown, "done", spec.name, Updated);
    assert Later(w, r);
    ReplacedLater(spec, Read(w.files, spec.path), since, w, r);
  }

  /** Verdicts other than Valid, however many: an edit session for a secret that has a
      validator changes no file, and does not succeed. */
  lemma UndecidedEditsNothing(w: World, specs: seq<SecretSpec>)
    requires NoneValid(w)
    requires var choice := Chosen(w.hub).0;
             choice.Some? && SpecNamed(specs, choice.value).Some? ==> SpecNamed(specs, choice.value).value.hasValidator
    ensures Edited(w, specs).w.files == w.files && Edited(w, specs).Stop?
  {
    var w0 := Listed(w, specs);
    PublishedKeeps(w0, specs);
    var w2 := Offered(w, specs);
    var (choice, hub) := Chosen(w2.hub);
    if choice.Some? && SpecNamed(specs, choice.value).Some? {
      var spec := SpecNamed(specs, choice.value).value;
      var w4 := Show(w2.(hub := hub), w2.screen.(choosing := false));
      var stored := ReadParsed(w4.files, spec.path);
      var known := Prefill(spec, if stored.Some? then stored.value else map[]);
      PromptedIdle(Headline(w4, "prompt", spec.name, ReEntering), spec, known, Requested);
    }
  }
}
