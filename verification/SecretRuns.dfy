/** What every step of a run of operator-secretsd keeps: nothing shown, sent or judged
    is taken back, and every verdict is one that was given for the values noted with it. */
module SecretRuns {
  import opened Text
  import opened EnvFile
  import opened SecretForms
  import opened PromptHub
  import opened SecretDaemon

  /** `w'` is a later moment of the run that `w` is a moment of. */
  ghost predicate Later(w: World, w': World) {
    && Continues(w.hub, w'.hub)
    && w.trace <= w'.trace
    && w.judged <= w'.judged
    && VerdictsOf(w) == VerdictsOf(w')
  }

  lemma LaterTrans(w: World, w1: World, w2: World)
    requires Later(w, w1) && Later(w1, w2)
    ensures Later(w, w2)
  {
  }

  lemma PostedLater(w: World, spec: SecretSpec, reason: Reason, known: map<string, string>)
    requires PromptHub.Valid(w.hub)
    ensures Later(w, Posted(w, spec, reason, known)) && PromptHub.Valid(Posted(w, spec, reason, known).hub)
  {
  }

  /** The prompt was answered, and its answer taken. */
  function Taken(w: World, spec: SecretSpec, reason: Reason, known: map<string, string>): World
    requires Awaited(Posted(w, spec, reason, known).hub).Answer?
  {
    var w1 := Posted(w, spec, reason, known);
    Show(w1.(hub := Awaited(w1.hub).hub), w1.screen.(prompt := None))
  }

  lemma TakenLater(w: World, spec: SecretSpec, reason: Reason, known: map<string, string>)
    requires PromptHub.Valid(w.hub) && Awaited(Posted(w, spec, reason, known).hub).Answer?
    ensures var t := Taken(w, spec, reason, known);
            Later(w, t) && Later(Posted(w, spec, reason, known), t) && PromptHub.Valid(t.hub)
  {
    PostedLater(w, spec, reason, known);
    AwaitedContinues(Posted(w, spec, reason, known).hub);
  }

  lemma {:induction false} FormLater(w: World, spec: SecretSpec, reason: Reason, known: map<string, string>)
    requires PromptHub.Valid(w.hub)
    ensures Later(w, Form(w, spec, reason, known).w) && PromptHub.Valid(Form(w, spec, reason, known).w.hub)
    decreases |w.hub.arrivals|
  {
    var w1 := Posted(w, spec, reason, known);
    PostedLater(w, spec, reason, known);
    AwaitedContinues(w1.hub);
    var a := Awaited(w1.hub);
    if a.Answer? {
      TakenLater(w, spec, reason, known);
      var w2 := Taken(w, spec, reason, known);
      if Accepted(spec, a.value).Failure? {
        var why := FormRefused(Accepted(spec, a.value).error);
        var w3 := Headline(w2, "prompt", spec.name, Because(why));
        FormLater(w3, spec, why, Visible(spec, a.value));
        LaterTrans(w, w2, w3);
        LaterTrans(w, w3, Form(w3, spec, why, Visible(spec, a.value)).w);
      }
    }
  }

  /** The form loop goes on from where its first answer was taken. */
  lemma FormAfterTaken(w: World, spec: SecretSpec, reason: Reason, known: map<string, string>)
    requires PromptHub.Valid(w.hub) && Awaited(Posted(w, spec, reason, known).hub).Answer?
    ensures Later(Taken(w, spec, reason, known), Form(w, spec, reason, known).w)
  {
    TakenLater(w, spec, reason, known);
    var w2, a := Taken(w, spec, reason, known), Awaited(Posted(w, spec, reason, known).hub);
    if Accepted(spec, a.value).Failure? {
      var why := FormRefused(Accepted(spec, a.value).error);
      var w3 := Headline(w2, "prompt", spec.name, Because(why));
      FormLater(w3, spec, why, Visible(spec, a.value));
      LaterTrans(w2, w3, Form(w3, spec, why, Visible(spec, a.value)).w);
    }
  }

  lemma {:induction false} DecidedLater(w: World, spec: SecretSpec, values: Fields, what: Note, attempt: nat)
    ensures Later(w, Decided(w, spec, values, what, attempt).w)
    decreases |w.verdicts|
  {
    var w1 := SetSecret(w, spec.name, SecretState.Validating, what);
    var j := Judged(w1, spec, values);
    JudgementLater(w1, spec, values);
    LaterTrans(w, w1, j.w);
    if j.Go? && j.value.status == Error {
      var next := Retried(j.w, spec, j.value.message, attempt);
      RetriedLater(j.w, spec, j.value.message, attempt);
      DecidedLater(next, spec, values, what, attempt + 1);
      LaterTrans(w, j.w, next);
      LaterTrans(w, next, Decided(next, spec, values, what, attempt + 1).w);
    } else if j.Go? {
      ConcludedLater(j.w, attempt);
      LaterTrans(w, j.w, Concluded(j.w, attempt));
    }
  }

  lemma JudgementLater(w: World, spec: SecretSpec, values: Fields)
    ensures Later(w, Judged(w, spec, values).w)
  {
    JudgedTakesNext(w, spec, values);
  }

  lemma RetriedLater(w: World, spec: SecretSpec, message: string, attempt: nat)
    ensures Later(w, Retried(w, spec, message, attempt))
  {
  }

  lemma ConcludedLater(w: World, attempt: nat)
    ensures Later(w, Concluded(w, attempt))
  {
  }

  lemma FinishedLater(w: World, spec: SecretSpec, values: Fields)
    ensures Later(w, Finished(w, spec, values).w) && Finished(w, spec, values).w.hub == w.hub
  {
  }

  lemma {:induction false} PromptedLater(w: World, spec: SecretSpec, known: map<string, string>, reason: Reason)
    requires PromptHub.Valid(w.hub)
    ensures Later(w, Prompted(w, spec, known, reason).w) && PromptHub.Valid(Prompted(w, spec, known, reason).w.hub)
    decreases |w.hub.arrivals|
  {
    var w1 := SetSecret(w, spec.name, NeedsInput, Because(reason));
    var f := Form(w1, spec, reason, known);
    FormLater(w1, spec, reason, known);
    LaterTrans(w, w1, f.w);
    if f.Go? {
      var d := Decided(f.w, spec, f.value, ValidatingEntered, 1);
      DecidedLater(f.w, spec, f.value, ValidatingEntered, 1);
      LaterTrans(w, f.w, d.w);
      if d.Go? && d.value.status == Status.Valid {
        FinishedLater(d.w, spec, f.value);
        LaterTrans(w, d.w, Finished(d.w, spec, f.value).w);
      } else if d.Go? {
        var why := EntryRejected(d.value.message);
        var w3 := Headline(d.w, "prompt", spec.name, Because(why));
        PromptedLater(w3, spec, Visible(spec, f.value), why);
        LaterTrans(w, d.w, w3);
        LaterTrans(w, w3, Prompted(w3, spec, Visible(spec, f.value), why).w);
      }
    }
  }

  /** The prompt loop goes on from where its first form was taken. */
  lemma PromptedAfterForm(w: World, spec: SecretSpec, known: map<string, string>, reason: Reason)
    requires PromptHub.Valid(w.hub)
    ensures var f := Form(SetSecret(w, spec.name, NeedsInput, Because(reason)), spec, reason, known);
            Later(f.w, Prompted(w, spec, known, reason).w) && PromptHub.Valid(f.w.hub)
  {
    var w1 := SetSecret(w, spec.name, NeedsInput, Because(reason));
    var f := Form(w1, spec, reason, known);
    FormLater(w1, spec, reason, known);
    if f.Go? {
      var d := Decided(f.w, spec, f.value, ValidatingEntered, 1);
      DecidedLater(f.w, spec, f.value, ValidatingEntered, 1);
      if d.Go? && d.value.status == Status.Valid {
        FinishedLater(d.w, spec, f.value);
        LaterTrans(f.w, d.w, Finished(d.w, spec, f.value).w);
      } else if d.Go? {
        var why := EntryRejected(d.value.message);
        TurnLater(f.w, d.w, spec, Visible(spec, f.value), why);
      }
    }
  }

  /** How a turn begins. */
  function Begun(w: World, spec: SecretSpec): World {
    Headline(SetSecret(w, spec.name, Checking, ReadingFile), "check", spec.name, ReadingFile)
  }

  /** The turn of a secret whose file is complete. */
  function StoredTurn(w: World, spec: SecretSpec, values: Fields): Flow<()> {
    match Decided(w, spec, values, ValidatingStored, 1)
    case Stop(how, w2) => Stop(how, w2)
    case Go(v, w2) =>
      if v.status == Status.Valid then
        Go((), Headline(SetSecret(w2, spec.name, Satisfied, StoredValid), "check", spec.name, StoredValid))
      else
        var why := StoredRejected(v.message);
        Prompted(Headline(w2, "prompt", spec.name, Because(why)), spec, Prefill(spec, MapOf(values)), why)
  }

  lemma CompleteTurn(w: World, spec: SecretSpec, values: Fields)
    requires Read(w.files, spec.path) != Unreadable
    requires Classified(spec, ReadParsed(w.files, spec.path)) == Complete(values)
    ensures SatisfiedSecret(w, spec) == StoredTurn(Begun(w, spec), spec, values)
  {
  }

  lemma IncompleteTurn(w: World, spec: SecretSpec, missing: seq<Lack>, usable: map<string, string>)
    requires Read(w.files, spec.path) != Unreadable
    requires Classified(spec, ReadParsed(w.files, spec.path)) == Incomplete(missing, usable)
    ensures var why := FileIncomplete(missing);
            var asked := Headline(Begun(w, spec), "prompt", spec.name, Because(why));
            SatisfiedSecret(w, spec) == Prompted(asked, spec, VisibleStored(spec, usable), why)
  {
  }

  lemma BegunLater(w: World, spec: SecretSpec)
    ensures Later(w, Begun(w, spec)) && Begun(w, spec).files == w.files
    ensures Begun(w, spec).screen.done == w.screen.done && Begun(w, spec).hub == w.hub
  {
  }

  lemma TurnLater(w: World, w1: World, spec: SecretSpec, known: map<string, string>, reason: Reason)
    requires Later(w, w1) && PromptHub.Valid(w1.hub)
    ensures var w2 := Headline(w1, "prompt", spec.name, Because(reason));
            var r := Prompted(w2, spec, known, reason).w;
            Later(w, w2) && Later(w, r) && PromptHub.Valid(r.hub)
  {
    var w2 := Headline(w1, "prompt", spec.name, Because(reason));
    LaterTrans(w, w1, w2);
    PromptedLater(w2, spec, known, reason);
    LaterTrans(w, w2, Prompted(w2, spec, known, reason).w);
  }

  lemma SatisfiedLater(w: World, spec: SecretSpec)
    requires PromptHub.Valid(w.hub)
    ensures Later(w, SatisfiedSecret(w, spec).w) && PromptHub.Valid(SatisfiedSecret(w, spec).w.hub)
  {
    var w1 := Begun(w, spec);
    BegunLater(w, spec);
    if Read(w.files, spec.path) != Unreadable {
      match Classified(spec, ReadParsed(w.files, spec.path))
      case Absent => TurnLater(w, w1, spec, map[], NotStoredYet);
      case Incomplete(missing, usable) =>
        IncompleteTurn(w, spec, missing, usable);
        TurnLater(w, w1, spec, VisibleStored(spec, usable), FileIncomplete(missing));
      case Complete(values) =>
        CompleteTurn(w, spec, values);
        StoredTurnLater(w1, spec, values);
        LaterTrans(w, w1, StoredTurn(w1, spec, values).w);
    }
  }

  lemma StoredTurnLater(w: World, spec: SecretSpec, values: Fields)
    requires PromptHub.Valid(w.hub)
    ensures Later(w, StoredTurn(w, spec, values).w) && PromptHub.Valid(StoredTurn(w, spec, values).w.hub)
  {
    var d := Decided(w, spec, values, ValidatingStored, 1);
    DecidedLater(w, spec, values, ValidatingStored, 1);
    if d.Go? && d.value.status != Status.Valid {
      TurnLater(w, d.w, spec, Prefill(spec, MapOf(values)), StoredRejected(d.value.message));
    }
  }

  lemma {:induction false} AllLater(w: World, specs: seq<SecretSpec>)
    requires PromptHub.Valid(w.hub)
    ensures Later(w, AllSatisfiedFrom(w, specs).w) && PromptHub.Valid(AllSatisfiedFrom(w, specs).w.hub)
    decreases |specs|
  {
    if specs != [] {
      var r := SatisfiedSecret(w, specs[0]);
      SatisfiedLater(w, specs[0]);
      if r.Go? {
        AllLater(r.w, specs[1..]);
        LaterTrans(w, r.w, AllSatisfiedFrom(r.w, specs[1..]).w);
      }
    }
  }

  lemma {:induction false} PublishedLater(w: World, specs: seq<SecretSpec>)
    ensures Later(w, PublishedAll(w, specs)) && PublishedAll(w, specs).hub == w.hub
    decreases |specs|
  {
    if specs != [] {
      var w1 := Published(w, specs[0]);
      assert Later(w, w1);
      PublishedLater(w1, specs[1..]);
      LaterTrans(w, w1, PublishedAll(w1, specs[1..]));
    }
  }
}
