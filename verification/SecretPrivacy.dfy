/** What operator-secretsd shows its clients says nothing about sensitive values:
    two runs that differ only in them broadcast the same snapshots. */
module SecretPrivacy {
  import opened Text
  import opened EnvFile
  import opened SecretForms
  import opened PromptHub
  import opened SecretDaemon
  import opened SecretRuns
  import SecretSafety

  /** The names of the secret that some field declares not sensitive: prompts may show
      their values. All other values are hidden. */
  function ShownNames(spec: SecretSpec): set<string> {
    set f | f in spec.fields && !f.sensitive :: f.name
  }

  /** Two values of one field that an observer of what is shown cannot tell apart:
      equally acceptable, and equal if they are shown. */
  predicate Alike(shown: set<string>, name: string, v1: string, v2: string) {
    CheckFieldValue(v1) == CheckFieldValue(v2) && (name in shown ==> v1 == v2)
  }

  predicate AlikeFields(shown: set<string>, a: Fields, b: Fields) {
    |a| == |b| && forall i :: 0 <= i < |a| ==> a[i].0 == b[i].0 && Alike(shown, a[i].0, a[i].1, b[i].1)
  }

  predicate AlikeMaps(shown: set<string>, a: map<string, string>, b: map<string, string>) {
    a.Keys == b.Keys && forall k :: k in a ==> Alike(shown, k, a[k], b[k])
  }

  /** For each prompt id, the names whose values agree in answers to it. */
  type Mask = nat -> set<string>

  predicate AlikeMsg(mask: Mask, a: Msg<Fields>, b: Msg<Fields>) {
    match (a, b)
    case (Submit(i, v), Submit(j, w)) => i == j && AlikeFields(mask(i), v, w)
    case (Edit(s), Edit(t)) => s == t
    case _ => false
  }

  predicate AlikeBatch(mask: Mask, a: seq<Msg<Fields>>, b: seq<Msg<Fields>>) {
    |a| == |b| && forall i :: 0 <= i < |a| ==> AlikeMsg(mask, a[i], b[i])
  }

  predicate AlikeSent(mask: Mask, a: seq<Sent<Fields>>, b: seq<Sent<Fields>>) {
    |a| == |b| && forall i :: 0 <= i < |a| ==> AlikeMsg(mask, a[i].msg, b[i].msg)
  }

  predicate AlikeHubs(mask: Mask, a: Hub<Fields>, b: Hub<Fields>) {
    && a.posted == b.posted && a.taken == b.taken
    && AlikeSent(mask, a.sent, b.sent)
    && |a.arrivals| == |b.arrivals|
    && forall i :: 0 <= i < |a.arrivals| ==> AlikeBatch(mask, a.arrivals[i], b.arrivals[i])
  }

  /** Two runs, so far, that differ only in hidden values: everything shown is equal. */
  predicate AlikeRuns(mask: Mask, a: World, b: World) {
    && AlikeHubs(mask, a.hub, b.hub)
    && a.verdicts == b.verdicts && a.writes == b.writes
    && a.screen == b.screen && a.trace == b.trace
  }

  /** In answers to the secret's prompts the values of these names agree. */
  predicate Masks(mask: Mask, spec: SecretSpec, shown: set<string>, trace: seq<Snapshot>) {
    forall i :: 0 <= i < |trace| && trace[i].prompt.Some? && trace[i].prompt.value.secret == spec.name ==>
                  shown <= mask(trace[i].prompt.value.id)
  }

  predicate AlikeStored(spec: SecretSpec, a: World, b: World) {
    var f, g := Read(a.files, spec.path), Read(b.files, spec.path);
    && (f.NoFile? <==> g.NoFile?)
    && (f.Unreadable? <==> g.Unreadable?)
    && (f.Content? && g.Content? ==> AlikeAt(ShownNames(spec), spec.fields, Parsed(f.text), Parsed(g.text)))
  }

  predicate AlikeFlows(mask: Mask, a: Flow<()>, b: Flow<()>) {
    && AlikeRuns(mask, a.w, b.w)
    && (a.Go? <==> b.Go?)
    && (a.Stop? && b.Stop? ==> a.how == b.how)
  }

  // --- forms and files ----------------------------------------------------------------

  lemma {:induction false} CollectAlike(
    shown: set<string>, spec: SecretSpec, found1: map<string, string>, found2: map<string, string>, a: Fields,
    b: Fields)
    requires AlikeFields(shown, a, b) && AlikeMaps(shown, found1, found2)
    ensures var (r1, r2) := (Collect(spec, found1, a), Collect(spec, found2, b));
            match (r1, r2)
            case (Success(m1), Success(m2)) => AlikeMaps(shown, m1, m2)
            case (Failure(e1), Failure(e2)) => e1 == e2
            case _ => false
    decreases |a|
  {
    if a != [] {
      assert a[0].0 == b[0].0 && Alike(shown, a[0].0, a[0].1, b[0].1);
      if FieldNamed(spec.fields, a[0].0).Some? && a[0].0 !in found1 {
        assert forall i :: 0 <= i < |a| - 1 ==> a[1..][i] == a[i + 1] && b[1..][i] == b[i + 1];
        CollectAlike(shown, spec, found1[a[0].0 := a[0].1], found2[b[0].0 := b[0].1], a[1..], b[1..]);
      }
    }
  }

  lemma {:induction false} ArrangeAlike(
    shown: set<string>, fields: seq<FieldSpec>, m1: map<string, string>, m2: map<string, string>, a: Fields, b: Fields)
    requires AlikeFields(shown, a, b) && AlikeMaps(shown, m1, m2)
    ensures var (r1, r2) := (Arrange(fields, m1, a), Arrange(fields, m2, b));
            match (r1, r2)
            case (Success(v1), Success(v2)) => AlikeFields(shown, v1, v2)
            case (Failure(e1), Failure(e2)) => e1 == e2
            case _ => false
    decreases |fields|
  {
    if fields != [] {
      var name := fields[0].name;
      if name in m1 && CheckFieldValue(m1[name]) == Fine {
        ArrangeAlike(shown, fields[1..], m1, m2, a + [(name, m1[name])], b + [(name, m2[name])]);
      }
    }
  }

  lemma AcceptedAlike(shown: set<string>, spec: SecretSpec, a: Fields, b: Fields)
    requires AlikeFields(shown, a, b)
    ensures match (Accepted(spec, a), Accepted(spec, b))
            case (Success(v1), Success(v2)) => AlikeFields(shown, v1, v2)
            case (Failure(e1), Failure(e2)) => e1 == e2
            case _ => false
  {
    CollectAlike(shown, spec, map[], map[], a, b);
    var (c, d) := (Collect(spec, map[], a), Collect(spec, map[], b));
    if c.Success? && d.Success? {
      ArrangeAlike(shown, spec.fields, c.value, d.value, [], []);
    }
  }

  lemma {:induction false} VisibleAlike(shown: set<string>, spec: SecretSpec, a: Fields, b: Fields)
    requires AlikeFields(shown, a, b) && ShownNames(spec) <= shown
    ensures Visible(spec, a) == Visible(spec, b)
    decreases |a|
  {
    if a != [] {
      var n := |a| - 1;
      assert a[n].0 == b[n].0 && Alike(shown, a[n].0, a[n].1, b[n].1);
      VisibleAlike(shown, spec, a[..n], b[..n]);
    }
  }

  lemma {:induction false} FirstValueAlike(shown: set<string>, a: Fields, b: Fields, name: string)
    requires AlikeFields(shown, a, b)
    ensures FirstValue(a, name) == "" <==> FirstValue(b, name) == ""
    decreases |a|
  {
    if a != [] {
      assert Alike(shown, a[0].0, a[0].1, b[0].1);
      assert forall i :: 0 <= i < |a| - 1 ==> a[1..][i] == a[i + 1] && b[1..][i] == b[i + 1];
      FirstValueAlike(shown, a[1..], b[1..], name);
    }
  }

  lemma {:induction false} PresenceAlike(shown: set<string>, fields: seq<FieldSpec>, a: Fields, b: Fields)
    requires AlikeFields(shown, a, b)
    ensures PresenceVerdict(fields, a) == PresenceVerdict(fields, b)
    decreases |fields|
  {
    if fields != [] {
      FirstValueAlike(shown, a, b, fields[0].name);
      PresenceAlike(shown, fields[1..], a, b);
    }
  }

  predicate AlikeAt(shown: set<string>, fields: seq<FieldSpec>, a: map<string, string>, b: map<string, string>) {
    forall d :: d in fields ==>
                  (d.name in a <==> d.name in b) && (d.name in a ==> Alike(shown, d.name, a[d.name], b[d.name]))
  }

  lemma {:induction false} StoredAlike(
    shown: set<string>, fields: seq<FieldSpec>, a: map<string, string>, b: map<string, string>)
    requires AlikeAt(shown, fields, a, b)
    ensures Lacking(fields, a) == Lacking(fields, b)
    ensures AlikeFields(shown, Usable(fields, a), Usable(fields, b))
    decreases |fields|
  {
    if fields != [] {
      var n := |fields| - 1;
      assert fields == fields[..n] + [fields[n]];
      StoredAlike(shown, fields[..n], a, b);
    }
  }

  lemma {:induction false} MapOfAlike(shown: set<string>, a: Fields, b: Fields)
    requires AlikeFields(shown, a, b)
    ensures AlikeMaps(shown, MapOf(a), MapOf(b))
    decreases |a|
  {
    if a != [] {
      var n := |a| - 1;
      assert a[n].0 == b[n].0 && Alike(shown, a[n].0, a[n].1, b[n].1);
      MapOfAlike(shown, a[..n], b[..n]);
    }
  }

  lemma PrefillAlike(shown: set<string>, spec: SecretSpec, a: map<string, string>, b: map<string, string>)
    requires AlikeAt(shown, spec.fields, a, b) && ShownNames(spec) <= shown
    ensures Prefill(spec, a) == Prefill(spec, b)
    ensures VisibleStored(spec, a) == VisibleStored(spec, b)
  {
    assert Prefill(spec, a).Keys == Prefill(spec, b).Keys;
    assert VisibleStored(spec, a).Keys == VisibleStored(spec, b).Keys;
  }

  // --- the hub ------------------------------------------------------------------------

  lemma ArriveAlike(mask: Mask, a: Hub<Fields>, b: Hub<Fields>)
    requires AlikeHubs(mask, a, b) && a.arrivals != []
    ensures AlikeHubs(mask, Arrive(a), Arrive(b))
  {
    assert AlikeBatch(mask, a.arrivals[0], b.arrivals[0]);
    var s, t := Arrive(a).sent, Arrive(b).sent;
    forall i | 0 <= i < |s|
      ensures AlikeMsg(mask, s[i].msg, t[i].msg)
    {
      if i < |a.sent| {
        assert AlikeMsg(mask, a.sent[i].msg, b.sent[i].msg);
      } else {
        assert AlikeMsg(mask, a.arrivals[0][i - |a.sent|], b.arrivals[0][i - |a.sent|]);
      }
    }
    forall i | 0 <= i < |a.arrivals| - 1
      ensures AlikeBatch(mask, a.arrivals[1..][i], b.arrivals[1..][i])
    {
      assert AlikeBatch(mask, a.arrivals[i + 1], b.arrivals[i + 1]);
    }
  }

  lemma {:induction false} AwaitedAlike(mask: Mask, a: Hub<Fields>, b: Hub<Fields>)
    requires AlikeHubs(mask, a, b)
    ensures AlikeHubs(mask, Awaited(a).hub, Awaited(b).hub)
    ensures Awaited(a).Answer? <==> Awaited(b).Answer?
    ensures Awaited(a).Answer? ==> AlikeFields(mask(a.posted), Awaited(a).value, Awaited(b).value)
    decreases |a.arrivals|
  {
    if a.arrivals != [] {
      var a1, b1 := Arrive(a), Arrive(b);
      ArriveAlike(mask, a, b);
      if a1.taken >= |a1.sent| {
        AwaitedAlike(mask, a1, b1);
      } else {
        var m := a1.sent[a1.taken].msg;
        assert AlikeMsg(mask, m, b1.sent[b1.taken].msg);
        if !(m.Submit? && m.id == a.posted) {
          AwaitedAlike(mask, a1.(taken := a1.taken + 1), b1.(taken := b1.taken + 1));
        }
      }
    }
  }

  lemma {:induction false} ChosenAlike(mask: Mask, a: Hub<Fields>, b: Hub<Fields>)
    requires AlikeHubs(mask, a, b)
    ensures AlikeHubs(mask, Chosen(a).1, Chosen(b).1) && Chosen(a).0 == Chosen(b).0
    decreases |a.arrivals|
  {
    if a.arrivals != [] {
      var a1, b1 := Arrive(a), Arrive(b);
      ArriveAlike(mask, a, b);
      if a1.taken >= |a1.sent| {
        ChosenAlike(mask, a1, b1);
      } else {
        assert AlikeMsg(mask, a1.sent[a1.taken].msg, b1.sent[b1.taken].msg);
        if !a1.sent[a1.taken].msg.Edit? {
          ChosenAlike(mask, a1.(taken := a1.taken + 1), b1.(taken := b1.taken + 1));
        }
      }
    }
  }

  // --- the daemon's steps ----------------------------------------------------------------

  lemma MasksBefore(mask: Mask, spec: SecretSpec, shown: set<string>, w: World, later: World)
    requires Later(w, later) && Masks(mask, spec, shown, later.trace)
    ensures Masks(mask, spec, shown, w.trace)
  {
    assert forall i :: 0 <= i < |w.trace| ==> w.trace[i] == later.trace[i];
  }

  lemma NarrowAlike(shown: set<string>, wide: set<string>, a: Fields, b: Fields)
    requires AlikeFields(wide, a, b) && shown <= wide
    ensures AlikeFields(shown, a, b)
  {
    forall i | 0 <= i < |a|
      ensures Alike(shown, a[i].0, a[i].1, b[i].1)
    {
      assert Alike(wide, a[i].0, a[i].1, b[i].1);
    }
  }

  /** The answers taken for a prompt, and what is shown with them. */
  lemma TakenAlike(
    mask: Mask, a: World, b: World, spec: SecretSpec, reason: Reason, known: map<string, string>)
    requires AlikeRuns(mask, a, b)
    ensures var x, y := Awaited(Posted(a, spec, reason, known).hub), Awaited(Posted(b, spec, reason, known).hub);
            && (x.Answer? <==> y.Answer?)
            && (x.Answer? ==>
                  && AlikeRuns(mask, Taken(a, spec, reason, known), Taken(b, spec, reason, known))
                  && AlikeFields(mask(a.hub.posted + 1), x.value, y.value))
            && AlikeHubs(mask, x.hub, y.hub)
  {
    AwaitedAlike(mask, Posted(a, spec, reason, known).hub, Posted(b, spec, reason, known).hub);
  }

  lemma PostedMasks(
    mask: Mask, w: World, spec: SecretSpec, shown: set<string>, reason: Reason, known: map<string, string>,
    later: World)
    requires Later(Posted(w, spec, reason, known), later) && Masks(mask, spec, shown, later.trace)
    ensures shown <= mask(w.hub.posted + 1)
  {
    var w1 := Posted(w, spec, reason, known);
    assert w1.trace[|w.trace|] == w1.screen && later.trace[|w.trace|] == w1.screen;
  }

  lemma HeadlineAlike(mask: Mask, a: World, b: World, phase: string, subject: string, message: Note)
    requires AlikeRuns(mask, a, b)
    ensures AlikeRuns(mask, Headline(a, phase, subject, message), Headline(b, phase, subject, message))
  {
  }

  predicate AlikeForms(mask: Mask, shown: set<string>, a: Flow<Fields>, b: Flow<Fields>) {
    && AlikeRuns(mask, a.w, b.w)
    && (a.Go? <==> b.Go?)
    && (a.Go? ==> AlikeFields(shown, a.value, b.value))
    && (a.Stop? ==> a.how == b.how)
  }

  /** Prompts whose answers differ in hidden values only look the same. */
  lemma {:induction false} FormAlike(
    mask: Mask, a: World, b: World, spec: SecretSpec, shown: set<string>, reason: Reason,
    known: map<string, string>)
    requires AlikeRuns(mask, a, b) && PromptHub.Valid(a.hub) && ShownNames(spec) <= shown
    requires Masks(mask, spec, shown, Form(a, spec, reason, known).w.trace)
    ensures AlikeForms(mask, shown, Form(a, spec, reason, known), Form(b, spec, reason, known))
    decreases |a.hub.arrivals|
  {
    TakenAlike(mask, a, b, spec, reason, known);
    var x, y := Awaited(Posted(a, spec, reason, known).hub), Awaited(Posted(b, spec, reason, known).hub);
    if x.Answer? {
      FormMasks(mask, a, spec, shown, reason, known);
      NarrowAlike(shown, mask(a.hub.posted + 1), x.value, y.value);
      AcceptedAlike(shown, spec, x.value, y.value);
      if Accepted(spec, x.value).Failure? {
        var why := FormRefused(Accepted(spec, x.value).error);
        VisibleAlike(shown, spec, x.value, y.value);
        TakenLater(a, spec, reason, known);
        var a2, b2 := Taken(a, spec, reason, known), Taken(b, spec, reason, known);
        HeadlineAlike(mask, a2, b2, "prompt", spec.name, Because(why));
        var a3, b3 := Headline(a2, "prompt", spec.name, Because(why)), Headline(b2, "prompt", spec.name, Because(why));
        FormAlike(mask, a3, b3, spec, shown, why, Visible(spec, x.value));
      }
    }
  }

  lemma FormMasks(
    mask: Mask, w: World, spec: SecretSpec, shown: set<string>, reason: Reason, known: map<string, string>)
    requires PromptHub.Valid(w.hub) && Masks(mask, spec, shown, Form(w, spec, reason, known).w.trace)
    requires Awaited(Posted(w, spec, reason, known).hub).Answer?
    ensures shown <= mask(w.hub.posted + 1)
  {
    TakenLater(w, spec, reason, known);
    FormAfterTaken(w, spec, reason, known);
    var w1, r := Posted(w, spec, reason, known), Form(w, spec, reason, known).w;
    LaterTrans(w1, Taken(w, spec, reason, known), r);
    PostedMasks(mask, w, spec, shown, reason, known, r);
  }

  predicate AlikeVerdicts(mask: Mask, a: Flow<Verdict>, b: Flow<Verdict>) {
    && AlikeRuns(mask, a.w, b.w)
    && (a.Go? <==> b.Go?)
    && (a.Go? ==> a.value == b.value)
    && (a.Stop? ==> a.how == b.how)
  }

  lemma JudgedAlike(mask: Mask, shown: set<string>, a: World, b: World, spec: SecretSpec, v1: Fields, v2: Fields)
    requires AlikeRuns(mask, a, b) && AlikeFields(shown, v1, v2)
    ensures AlikeVerdicts(mask, Judged(a, spec, v1), Judged(b, spec, v2))
  {
    PresenceAlike(shown, spec.fields, v1, v2);
  }

  lemma SetSecretAlike(mask: Mask, a: World, b: World, name: string, state: SecretState, detail: Note)
    requires AlikeRuns(mask, a, b)
    ensures AlikeRuns(mask, SetSecret(a, name, state, detail), SetSecret(b, name, state, detail))
  {
  }

  /** So do validations with the same verdicts. */
  lemma {:induction false} DecidedAlike(
    mask: Mask, shown: set<string>, a: World, b: World, spec: SecretSpec, v1: Fields, v2: Fields, what: Note,
    attempt: nat)
    requires AlikeRuns(mask, a, b) && AlikeFields(shown, v1, v2)
    ensures AlikeVerdicts(mask, Decided(a, spec, v1, what, attempt), Decided(b, spec, v2, what, attempt))
    decreases |a.verdicts|
  {
    SetSecretAlike(mask, a, b, spec.name, SecretState.Validating, what);
    var a1 := SetSecret(a, spec.name, SecretState.Validating, what);
    var b1 := SetSecret(b, spec.name, SecretState.Validating, what);
    JudgedAlike(mask, shown, a1, b1, spec, v1, v2);
    var x, y := Judged(a1, spec, v1), Judged(b1, spec, v2);
    if x.Go? && x.value.status == Error {
      var m := x.value.message;
      RetriedAlike(mask, x.w, y.w, spec, m, attempt);
      var a2, b2 := Retried(x.w, spec, m, attempt), Retried(y.w, spec, m, attempt);
      DecidedAlike(mask, shown, a2, b2, spec, v1, v2, what, attempt + 1);
    } else if x.Go? {
      ConcludedAlike(mask, x.w, y.w, attempt);
    }
  }

  lemma ConcludedAlike(mask: Mask, a: World, b: World, attempt: nat)
    requires AlikeRuns(mask, a, b)
    ensures AlikeRuns(mask, Concluded(a, attempt), Concluded(b, attempt))
  {
  }

  lemma RetriedAlike(mask: Mask, a: World, b: World, spec: SecretSpec, message: string, attempt: nat)
    requires AlikeRuns(mask, a, b)
    ensures AlikeRuns(mask, Retried(a, spec, message, attempt), Retried(b, spec, message, attempt))
  {
  }

  lemma FinishedAlike(mask: Mask, a: World, b: World, spec: SecretSpec, v1: Fields, v2: Fields)
    requires AlikeRuns(mask, a, b)
    ensures AlikeFlows(mask, Finished(a, spec, v1), Finished(b, spec, v2))
  {
    var x, y := Stored(a, spec, v1), Stored(b, spec, v2);
    assert AlikeFlows(mask, x, y);
    if x.Go? {
      SetSecretAlike(mask, x.w, y.w, spec.name, Satisfied, WrittenTo(spec.path));
    }
  }

  /** And whole prompt loops. */
  lemma {:induction false} PromptedAlike(
    mask: Mask, a: World, b: World, spec: SecretSpec, known: map<string, string>, reason: Reason)
    requires AlikeRuns(mask, a, b) && PromptHub.Valid(a.hub)
    requires Masks(mask, spec, ShownNames(spec), Prompted(a, spec, known, reason).w.trace)
    ensures AlikeFlows(mask, Prompted(a, spec, known, reason), Prompted(b, spec, known, reason))
    decreases |a.hub.arrivals|
  {
    var a1 := SetSecret(a, spec.name, NeedsInput, Because(reason));
    var b1 := SetSecret(b, spec.name, NeedsInput, Because(reason));
    SetSecretAlike(mask, a, b, spec.name, NeedsInput, Because(reason));
    var f, g := Form(a1, spec, reason, known), Form(b1, spec, reason, known);
    PromptedAfterForm(a, spec, known, reason);
    MasksBefore(mask, spec, ShownNames(spec), f.w, Prompted(a, spec, known, reason).w);
    FormAlike(mask, a1, b1, spec, ShownNames(spec), reason, known);
    if f.Go? {
      DecidedAlike(mask, ShownNames(spec), f.w, g.w, spec, f.value, g.value, ValidatingEntered, 1);
      var d, e := Decided(f.w, spec, f.value, ValidatingEntered, 1), Decided(g.w, spec, g.value, ValidatingEntered, 1);
      if d.Go? && d.value.status == Status.Valid {
        FinishedAlike(mask, d.w, e.w, spec, f.value, g.value);
      } else if d.Go? {
        var why := EntryRejected(d.value.message);
        VisibleAlike(ShownNames(spec), spec, f.value, g.value);
        HeadlineAlike(mask, d.w, e.w, "prompt", spec.name, Because(why));
        var a3 := Headline(d.w, "prompt", spec.name, Because(why));
        var b3 := Headline(e.w, "prompt", spec.name, Because(why));
        PromptedAlike(mask, a3, b3, spec, Visible(spec, f.value), why);
      }
    }
  }

  lemma TurnAlike(
    mask: Mask, a: World, b: World, spec: SecretSpec, known: map<string, string>, reason: Reason)
    requires AlikeRuns(mask, a, b) && PromptHub.Valid(a.hub)
    requires Masks(mask, spec, ShownNames(spec),
               Prompted(Headline(a, "prompt", spec.name, Because(reason)), spec, known, reason).w.trace)
    ensures AlikeFlows(mask,
              Prompted(Headline(a, "prompt", spec.name, Because(reason)), spec, known, reason),
              Prompted(Headline(b, "prompt", spec.name, Because(reason)), spec, known, reason))
  {
    HeadlineAlike(mask, a, b, "prompt", spec.name, Because(reason));
    var a1, b1 := Headline(a, "prompt", spec.name, Because(reason)), Headline(b, "prompt", spec.name, Because(reason));
    PromptedAlike(mask, a1, b1, spec, known, reason);
  }

  lemma BegunAlike(mask: Mask, a: World, b: World, spec: SecretSpec)
    requires AlikeRuns(mask, a, b)
    ensures AlikeRuns(mask, Begun(a, spec), Begun(b, spec))
  {
    SetSecretAlike(mask, a, b, spec.name, Checking, ReadingFile);
  }

  /** And whole turns, over stored values that differ in hidden ones only. */
  lemma SatisfiedAlike(mask: Mask, a: World, b: World, spec: SecretSpec)
    requires AlikeRuns(mask, a, b) && AlikeStored(spec, a, b) && PromptHub.Valid(a.hub)
    requires Masks(mask, spec, ShownNames(spec), SatisfiedSecret(a, spec).w.trace)
    ensures AlikeFlows(mask, SatisfiedSecret(a, spec), SatisfiedSecret(b, spec))
  {
    BegunAlike(mask, a, b, spec);
    var f := Read(a.files, spec.path);
    if f.NoFile? {
      TurnAlike(mask, Begun(a, spec), Begun(b, spec), spec, map[], NotStoredYet);
    } else if f.Content? {
      ContentAlike(mask, a, b, spec);
    }
  }

  lemma ContentAlike(mask: Mask, a: World, b: World, spec: SecretSpec)
    requires AlikeRuns(mask, Begun(a, spec), Begun(b, spec)) && AlikeStored(spec, a, b) && PromptHub.Valid(a.hub)
    requires Read(a.files, spec.path).Content? && Read(b.files, spec.path).Content?
    requires Masks(mask, spec, ShownNames(spec), SatisfiedSecret(a, spec).w.trace)
    ensures AlikeFlows(mask, SatisfiedSecret(a, spec), SatisfiedSecret(b, spec))
  {
    var a1, b1 := Begun(a, spec), Begun(b, spec);
    var m, n := Parsed(Read(a.files, spec.path).text), Parsed(Read(b.files, spec.path).text);
    StoredAlike(ShownNames(spec), spec.fields, m, n);
    var u, v := Usable(spec.fields, m), Usable(spec.fields, n);
    UsableAlike(spec, u, v);
    if Lacking(spec.fields, m) == [] {
      CompleteTurn(a, spec, u);
      CompleteTurn(b, spec, v);
      StoredTurnAlike(mask, a1, b1, spec, u, v);
    } else {
      IncompleteTurn(a, spec, Lacking(spec.fields, m), MapOf(u));
      IncompleteTurn(b, spec, Lacking(spec.fields, m), MapOf(v));
      TurnAlike(mask, a1, b1, spec, VisibleStored(spec, MapOf(u)), FileIncomplete(Lacking(spec.fields, m)));
    }
  }

  lemma UsableAlike(spec: SecretSpec, u: Fields, v: Fields)
    requires AlikeFields(ShownNames(spec), u, v)
    ensures Prefill(spec, MapOf(u)) == Prefill(spec, MapOf(v))
    ensures VisibleStored(spec, MapOf(u)) == VisibleStored(spec, MapOf(v))
  {
    MapOfAlike(ShownNames(spec), u, v);
    PrefillAlike(ShownNames(spec), spec, MapOf(u), MapOf(v));
  }

  lemma StoredTurnAlike(mask: Mask, a: World, b: World, spec: SecretSpec, u: Fields, v: Fields)
    requires AlikeRuns(mask, a, b) && PromptHub.Valid(a.hub) && AlikeFields(ShownNames(spec), u, v)
    requires Prefill(spec, MapOf(u)) == Prefill(spec, MapOf(v))
    requires Masks(mask, spec, ShownNames(spec), StoredTurn(a, spec, u).w.trace)
    ensures AlikeFlows(mask, StoredTurn(a, spec, u), StoredTurn(b, spec, v))
  {
    DecidedAlike(mask, ShownNames(spec), a, b, spec, u, v, ValidatingStored, 1);
    var d, e := Decided(a, spec, u, ValidatingStored, 1), Decided(b, spec, v, ValidatingStored, 1);
    if d.Go? && d.value.status != Status.Valid {
      TurnAlike(mask, d.w, e.w, spec, Prefill(spec, MapOf(u)), StoredRejected(d.value.message));
    } else if d.Go? {
      SetSecretAlike(mask, d.w, e.w, spec.name, Satisfied, StoredValid);
    }
  }

  // --- whole runs ----------------------------------------------------------------------

  predicate AllStoredAlike(specs: seq<SecretSpec>, a: World, b: World) {
    forall s :: s in specs ==> AlikeStored(s, a, b)
  }

  predicate AllMasked(mask: Mask, specs: seq<SecretSpec>, trace: seq<Snapshot>) {
    forall s :: s in specs ==> Masks(mask, s, ShownNames(s), trace)
  }

  // --- what a turn leaves in the file ----------------------------------------------------

  /** A turn of the secret left the file as it was, in both runs, or wrote values of which
      those shown agree. */
  ghost predicate AlikeLeft(spec: SecretSpec, shown: set<string>, a: World, b: World, a1: World, b1: World) {
    || (Read(a1.files, spec.path) == Read(a.files, spec.path) && Read(b1.files, spec.path) == Read(b.files, spec.path))
    || exists v1, v2 :: WroteAlike(spec, shown, a1, b1, v1, v2)
  }

  predicate WroteAlike(spec: SecretSpec, shown: set<string>, a1: World, b1: World, v1: Fields, v2: Fields) {
    && InSpecOrder(spec, v1) && InSpecOrder(spec, v2) && AlikeFields(shown, v1, v2)
    && Read(a1.files, spec.path) == Content(Encoded(v1)) && Read(b1.files, spec.path) == Content(Encoded(v2))
  }

  lemma {:induction false} FormOrdered(w: World, spec: SecretSpec, reason: Reason, known: map<string, string>)
    ensures var r := Form(w, spec, reason, known);
            r.Go? ==> InSpecOrder(spec, r.value)
    decreases |w.hub.arrivals|
  {
    var a := Awaited(Posted(w, spec, reason, known).hub);
    if a.Answer? {
      if Accepted(spec, a.value).Success? {
        KeptInSpecOrder(spec, a.value);
      } else {
        var why := FormRefused(Accepted(spec, a.value).error);
        var w3 := Headline(Taken(w, spec, reason, known), "prompt", spec.name, Because(why));
        FormOrdered(w3, spec, why, Visible(spec, a.value));
      }
    }
  }

  lemma FinishedLeaves(
    mask: Mask, a: World, b: World, spec: SecretSpec, shown: set<string>, v1: Fields, v2: Fields)
    requires AlikeRuns(mask, a, b)
    requires InSpecOrder(spec, v1) && InSpecOrder(spec, v2) && AlikeFields(shown, v1, v2)
    ensures AlikeLeft(spec, shown, a, b, Finished(a, spec, v1).w, Finished(b, spec, v2).w)
  {
    FinishedLands(a, spec, v1);
    FinishedLands(b, spec, v2);
    if Lands(a.writes) {
      assert WroteAlike(spec, shown, Finished(a, spec, v1).w, Finished(b, spec, v2).w, v1, v2);
    }
  }

  /** Whether the next write takes effect. */
  predicate Lands(writes: seq<WriteResult>) {
    writes != [] && (writes[0] == Written || writes[0] == CutAfter)
  }

  lemma FinishedLands(w: World, spec: SecretSpec, values: Fields)
    ensures Finished(w, spec, values).w.files ==
            if Lands(w.writes) then w.files[spec.path := Content(Encoded(values))] else w.files
  {
  }

  lemma LeftAfter(spec: SecretSpec, shown: set<string>, a: World, b: World, a1: World, b1: World, a2: World, b2: World)
    requires a1.files == a.files && b1.files == b.files && AlikeLeft(spec, shown, a1, b1, a2, b2)
    ensures AlikeLeft(spec, shown, a, b, a2, b2)
  {
  }

  lemma {:induction false} PromptedLeaves(
    mask: Mask, a: World, b: World, spec: SecretSpec, shown: set<string>, known: map<string, string>,
    reason: Reason)
    requires AlikeRuns(mask, a, b) && PromptHub.Valid(a.hub) && ShownNames(spec) <= shown
    requires Masks(mask, spec, shown, Prompted(a, spec, known, reason).w.trace)
    ensures AlikeLeft(spec, shown, a, b, Prompted(a, spec, known, reason).w, Prompted(b, spec, known, reason).w)
    decreases |a.hub.arrivals|
  {
    var a1 := SetSecret(a, spec.name, NeedsInput, Because(reason));
    var b1 := SetSecret(b, spec.name, NeedsInput, Because(reason));
    SetSecretAlike(mask, a, b, spec.name, NeedsInput, Because(reason));
    var f, g := Form(a1, spec, reason, known), Form(b1, spec, reason, known);
    PromptedAfterForm(a, spec, known, reason);
    MasksBefore(mask, spec, shown, f.w, Prompted(a, spec, known, reason).w);
    FormAlike(mask, a1, b1, spec, shown, reason, known);
    SecretSafety.FormKeeps(a1, spec, reason, known);
    SecretSafety.FormKeeps(b1, spec, reason, known);
    if f.Go? {
      FormOrdered(a1, spec, reason, known);
      FormOrdered(b1, spec, reason, known);
      AnswerLeaves(mask, f.w, g.w, spec, shown, f.value, g.value);
      var d, e := Decided(f.w, spec, f.value, ValidatingEntered, 1), Decided(g.w, spec, g.value, ValidatingEntered, 1);
      if d.Go? && d.value.status == Status.Valid {
        LeftAfter(spec, shown, a, b, f.w, g.w, Finished(d.w, spec, f.value).w, Finished(e.w, spec, g.value).w);
      } else if d.Go? {
        var why := EntryRejected(d.value.message);
        VisibleAlike(shown, spec, f.value, g.value);
        HeadlineAlike(mask, d.w, e.w, "prompt", spec.name, Because(why));
        var a3 := Headline(d.w, "prompt", spec.name, Because(why));
        var b3 := Headline(e.w, "prompt", spec.name, Because(why));
        PromptedLeaves(mask, a3, b3, spec, shown, Visible(spec, f.value), why);
        LeftAfter(spec, shown, a, b, a3, b3, Prompted(a3, spec, Visible(spec, f.value), why).w,
                  Prompted(b3, spec, Visible(spec, f.value), why).w);
      }
    }
  }

  lemma AnswerLeaves(
    mask: Mask, a: World, b: World, spec: SecretSpec, shown: set<string>, v1: Fields, v2: Fields)
    requires AlikeRuns(mask, a, b)
    requires InSpecOrder(spec, v1) && InSpecOrder(spec, v2) && AlikeFields(shown, v1, v2)
    ensures var d, e := Decided(a, spec, v1, ValidatingEntered, 1), Decided(b, spec, v2, ValidatingEntered, 1);
            && AlikeVerdicts(mask, d, e) && d.w.files == a.files && e.w.files == b.files
            && (d.Go? && d.value.status == Status.Valid ==>
                  AlikeLeft(spec, shown, a, b, Finished(d.w, spec, v1).w, Finished(e.w, spec, v2).w))
  {
    var d, e := Decided(a, spec, v1, ValidatingEntered, 1), Decided(b, spec, v2, ValidatingEntered, 1);
    DecidedAlike(mask, shown, a, b, spec, v1, v2, ValidatingEntered, 1);
    SecretSafety.DecidedKeeps(a, spec, v1, ValidatingEntered, 1);
    SecretSafety.DecidedKeeps(b, spec, v2, ValidatingEntered, 1);
    FinishedLeaves(mask, d.w, e.w, spec, shown, v1, v2);
    LeftAfter(spec, shown, a, b, d.w, e.w, Finished(d.w, spec, v1).w, Finished(e.w, spec, v2).w);
  }

  lemma TurnLeaves(
    mask: Mask, a: World, b: World, a1: World, b1: World, spec: SecretSpec, shown: set<string>,
    known: map<string, string>, reason: Reason)
    requires ShownNames(spec) <= shown
    requires AlikeRuns(mask, a1, b1) && PromptHub.Valid(a1.hub) && a1.files == a.files && b1.files == b.files
    requires Masks(mask, spec, shown,
               Prompted(Headline(a1, "prompt", spec.name, Because(reason)), spec, known, reason).w.trace)
    ensures AlikeLeft(spec, shown, a, b,
              Prompted(Headline(a1, "prompt", spec.name, Because(reason)), spec, known, reason).w,
              Prompted(Headline(b1, "prompt", spec.name, Because(reason)), spec, known, reason).w)
  {
    HeadlineAlike(mask, a1, b1, "prompt", spec.name, Because(reason));
    var a2 := Headline(a1, "prompt", spec.name, Because(reason));
    var b2 := Headline(b1, "prompt", spec.name, Because(reason));
    PromptedLeaves(mask, a2, b2, spec, shown, known, reason);
    LeftAfter(spec, shown, a, b, a2, b2, Prompted(a2, spec, known, reason).w, Prompted(b2, spec, known, reason).w);
  }

  lemma SatisfiedLeaves(mask: Mask, a: World, b: World, spec: SecretSpec, shown: set<string>)
    requires ShownNames(spec) <= shown
    requires AlikeRuns(mask, a, b) && AlikeStored(spec, a, b) && PromptHub.Valid(a.hub)
    requires Masks(mask, spec, shown, SatisfiedSecret(a, spec).w.trace)
    ensures AlikeLeft(spec, shown, a, b, SatisfiedSecret(a, spec).w, SatisfiedSecret(b, spec).w)
  {
    BegunAlike(mask, a, b, spec);
    var f := Read(a.files, spec.path);
    if f.NoFile? {
      TurnLeaves(mask, a, b, Begun(a, spec), Begun(b, spec), spec, shown, map[], NotStoredYet);
    } else if f.Content? {
      ContentLeaves(mask, a, b, spec, shown);
    }
  }

  lemma ContentLeaves(mask: Mask, a: World, b: World, spec: SecretSpec, shown: set<string>)
    requires ShownNames(spec) <= shown
    requires AlikeRuns(mask, Begun(a, spec), Begun(b, spec)) && AlikeStored(spec, a, b) && PromptHub.Valid(a.hub)
    requires Read(a.files, spec.path).Content? && Read(b.files, spec.path).Content?
    requires Masks(mask, spec, shown, SatisfiedSecret(a, spec).w.trace)
    ensures AlikeLeft(spec, shown, a, b, SatisfiedSecret(a, spec).w, SatisfiedSecret(b, spec).w)
  {
    var a1, b1 := Begun(a, spec), Begun(b, spec);
    var m, n := Parsed(Read(a.files, spec.path).text), Parsed(Read(b.files, spec.path).text);
    StoredAlike(ShownNames(spec), spec.fields, m, n);
    var u, v := Usable(spec.fields, m), Usable(spec.fields, n);
    UsableAlike(spec, u, v);
    if Lacking(spec.fields, m) == [] {
      CompleteTurn(a, spec, u);
      CompleteTurn(b, spec, v);
      StoredTurnLeaves(mask, a, b, a1, b1, spec, shown, u, v);
    } else {
      IncompleteTurn(a, spec, Lacking(spec.fields, m), MapOf(u));
      IncompleteTurn(b, spec, Lacking(spec.fields, m), MapOf(v));
      var why := FileIncomplete(Lacking(spec.fields, m));
      TurnLeaves(mask, a, b, a1, b1, spec, shown, VisibleStored(spec, MapOf(u)), why);
    }
  }

  lemma StoredTurnLeaves(
    mask: Mask, a: World, b: World, a1: World, b1: World, spec: SecretSpec, shown: set<string>, u: Fields,
    v: Fields)
    requires ShownNames(spec) <= shown
    requires AlikeRuns(mask, a1, b1) && PromptHub.Valid(a1.hub) && AlikeFields(ShownNames(spec), u, v)
    requires a1.files == a.files && b1.files == b.files
    requires Prefill(spec, MapOf(u)) == Prefill(spec, MapOf(v))
    requires Masks(mask, spec, shown, StoredTurn(a1, spec, u).w.trace)
    ensures AlikeLeft(spec, shown, a, b, StoredTurn(a1, spec, u).w, StoredTurn(b1, spec, v).w)
  {
    DecidedAlike(mask, ShownNames(spec), a1, b1, spec, u, v, ValidatingStored, 1);
    SecretSafety.DecidedKeeps(a1, spec, u, ValidatingStored, 1);
    SecretSafety.DecidedKeeps(b1, spec, v, ValidatingStored, 1);
    var d, e := Decided(a1, spec, u, ValidatingStored, 1), Decided(b1, spec, v, ValidatingStored, 1);
    if d.Go? && d.value.status != Status.Valid {
      TurnLeaves(mask, a, b, d.w, e.w, spec, shown, Prefill(spec, MapOf(u)), StoredRejected(d.value.message));
    }
  }

  // --- secrets that share a file ---------------------------------------------------------

  /** The names of a secret that it or a later one with the same file shows: prompts of
      that one may show what is typed for this. */
  function Watched(specs: seq<SecretSpec>): (shown: set<string>)
    requires specs != []
    ensures ShownNames(specs[0]) <= shown
  {
    ShownNames(specs[0]) +
    set s, f | s in specs && s.path == specs[0].path && f in s.fields && !f.sensitive && Declared(specs[0], f.name) ::
      f.name
  }

  predicate AllWatched(mask: Mask, specs: seq<SecretSpec>, trace: seq<Snapshot>) {
    specs != [] ==> Masks(mask, specs[0], Watched(specs), trace) && AllWatched(mask, specs[1..], trace)
  }

  /** What one secret's turn left is alike for another with the same file. */
  lemma LeftStored(
    spec: SecretSpec, shown: set<string>, s: SecretSpec, a: World, b: World, a1: World, b1: World)
    requires WellFormed(spec) && s.path == spec.path
    requires forall n :: n in ShownNames(s) && Declared(spec, n) ==> n in shown
    requires AlikeStored(s, a, b) && AlikeLeft(spec, shown, a, b, a1, b1)
    ensures AlikeStored(s, a1, b1)
  {
    if v1: Fields, v2: Fields :| WroteAlike(spec, shown, a1, b1, v1, v2) {
      InSpecOrderIsStorable(spec, v1);
      InSpecOrderIsStorable(spec, v2);
      ParseEncoded(v1);
      ParseEncoded(v2);
      MapOfAlike(shown, v1, v2);
      MapOfNames(v1);
      forall d | d in s.fields
        ensures d.name in MapOf(v1) <==> d.name in MapOf(v2)
        ensures d.name in MapOf(v1) ==> Alike(ShownNames(s), d.name, MapOf(v1)[d.name], MapOf(v2)[d.name])
      {
        if d.name in MapOf(v1) {
          var i :| 0 <= i < |v1| && v1[i].0 == d.name;
          assert spec.fields[i] in spec.fields && Declared(spec, d.name);
          assert Alike(shown, d.name, MapOf(v1)[d.name], MapOf(v2)[d.name]);
        }
      }
    }
  }

  lemma {:induction false} MapOfNames(fields: Fields)
    ensures forall k :: k in MapOf(fields) ==> exists i :: 0 <= i < |fields| && fields[i].0 == k
  {
    if fields != [] {
      var n := |fields| - 1;
      MapOfNames(fields[..n]);
      forall k | k in MapOf(fields)
        ensures exists i :: 0 <= i < |fields| && fields[i].0 == k
      {
        if k in MapOf(fields[..n]) {
          var i :| 0 <= i < n && fields[..n][i].0 == k;
          assert fields[i].0 == k;
        } else {
          assert fields[n].0 == k;
        }
      }
    }
  }

  lemma RestStoredAlike(specs: seq<SecretSpec>, a: World, b: World, a1: World, b1: World)
    requires specs != [] && WellFormed(specs[0]) && AllStoredAlike(specs, a, b)
    requires SecretSafety.OnlyAt(specs[0].path, a, a1) && SecretSafety.OnlyAt(specs[0].path, b, b1)
    requires AlikeLeft(specs[0], Watched(specs), a, b, a1, b1)
    ensures AllStoredAlike(specs[1..], a1, b1)
  {
    forall s | s in specs[1..]
      ensures AlikeStored(s, a1, b1)
    {
      assert s in specs && specs[0] in specs && AlikeStored(s, a, b);
      if s.path == specs[0].path {
        LeftStored(specs[0], Watched(specs), s, a, b, a1, b1);
      }
    }
  }

  lemma {:induction false} AllAlike(mask: Mask, a: World, b: World, specs: seq<SecretSpec>)
    requires AlikeRuns(mask, a, b) && PromptHub.Valid(a.hub)
    requires AllStoredAlike(specs, a, b) && forall s :: s in specs ==> WellFormed(s)
    requires AllWatched(mask, specs, AllSatisfiedFrom(a, specs).w.trace)
    ensures AlikeFlows(mask, AllSatisfiedFrom(a, specs), AllSatisfiedFrom(b, specs))
    decreases |specs|
  {
    if specs != [] {
      var rest, r, t := specs[1..], SatisfiedSecret(a, specs[0]), SatisfiedSecret(b, specs[0]);
      assert specs[0] in specs && forall s :: s in rest ==> s in specs;
      FirstMasked(mask, a, specs);
      FirstAlike(mask, a, b, specs);
      if r.Go? {
        AllAlike(mask, r.w, t.w, rest);
      }
    }
  }

  /** The first turn of two runs, and what it leaves for the rest. */
  lemma FirstAlike(mask: Mask, a: World, b: World, specs: seq<SecretSpec>)
    requires specs != [] && WellFormed(specs[0])
    requires AlikeRuns(mask, a, b) && PromptHub.Valid(a.hub) && AllStoredAlike(specs, a, b)
    requires Masks(mask, specs[0], Watched(specs), SatisfiedSecret(a, specs[0]).w.trace)
    ensures AlikeFlows(mask, SatisfiedSecret(a, specs[0]), SatisfiedSecret(b, specs[0]))
    ensures AllStoredAlike(specs[1..], SatisfiedSecret(a, specs[0]).w, SatisfiedSecret(b, specs[0]).w)
  {
    var spec := specs[0];
    assert spec in specs;
    FewerMasks(mask, spec, ShownNames(spec), Watched(specs), SatisfiedSecret(a, spec).w.trace);
    SatisfiedAlike(mask, a, b, spec);
    SecretSafety.SatisfiedFrame(a, spec);
    SecretSafety.SatisfiedFrame(b, spec);
    SatisfiedLeaves(mask, a, b, spec, Watched(specs));
    RestStoredAlike(specs, a, b, SatisfiedSecret(a, spec).w, SatisfiedSecret(b, spec).w);
  }

  lemma FewerMasks(mask: Mask, spec: SecretSpec, shown: set<string>, wide: set<string>, trace: seq<Snapshot>)
    requires Masks(mask, spec, wide, trace) && shown <= wide
    ensures Masks(mask, spec, shown, trace)
  {
  }

  lemma FirstMasked(mask: Mask, a: World, specs: seq<SecretSpec>)
    requires specs != [] && PromptHub.Valid(a.hub) && AllWatched(mask, specs, AllSatisfiedFrom(a, specs).w.trace)
    ensures Masks(mask, specs[0], Watched(specs), SatisfiedSecret(a, specs[0]).w.trace)
    ensures PromptHub.Valid(SatisfiedSecret(a, specs[0]).w.hub)
  {
    var r := SatisfiedSecret(a, specs[0]);
    SatisfiedLater(a, specs[0]);
    if r.Go? {
      AllLater(r.w, specs[1..]);
      MasksBefore(mask, specs[0], Watched(specs), r.w, AllSatisfiedFrom(a, specs).w);
    }
  }

  /** Two boots that differ only in hidden values, stored or submitted, with equally
      acceptable values and the same verdicts, broadcast the same snapshots, one by one,
      and end alike. What is typed for a secret is hidden if neither it nor a later one
      with the same file shows it, and what is stored if no secret with the file does. */
  lemma BootsLookAlike(mask: Mask, a: World, b: World, specs: seq<SecretSpec>)
    requires AlikeRuns(mask, a, b) && PromptHub.Valid(a.hub)
    requires AllStoredAlike(specs, a, b) && forall s :: s in specs ==> WellFormed(s)
    requires AllWatched(mask, specs, Booted(a, specs).w.trace)
    ensures Booted(a, specs).w.trace == Booted(b, specs).w.trace
    ensures AlikeFlows(mask, Booted(a, specs), Booted(b, specs))
  {
    var a1, b1 := Listed(a, specs), Listed(b, specs);
    ListedAlike(mask, a, b, specs);
    AllAlike(mask, a1, b1, specs);
  }

  lemma ListedAlike(mask: Mask, a: World, b: World, specs: seq<SecretSpec>)
    requires AlikeRuns(mask, a, b) && AllStoredAlike(specs, a, b)
    ensures AlikeRuns(mask, Listed(a, specs), Listed(b, specs))
    ensures AllStoredAlike(specs, Listed(a, specs), Listed(b, specs))
  {
    SameFilesAlike(specs, a, b, Listed(a, specs), Listed(b, specs));
  }

  lemma SameFilesAlike(specs: seq<SecretSpec>, a: World, b: World, a1: World, b1: World)
    requires AllStoredAlike(specs, a, b) && a1.files == a.files && b1.files == b.files
    ensures AllStoredAlike(specs, a1, b1)
  {
    forall s | s in specs
      ensures AlikeStored(s, a1, b1)
    {
      assert AlikeStored(s, a, b);
    }
  }

  lemma OnePublishedAlike(mask: Mask, a: World, b: World, s: SecretSpec)
    requires AlikeRuns(mask, a, b) && AlikeStored(s, a, b)
    ensures AlikeRuns(mask, Published(a, s), Published(b, s))
  {
    FindingAlike(a, b, s);
    var (state, note) := Finding(s, ReadParsed(a.files, s.path));
    SetSecretAlike(mask, a, b, s.name, state, note);
  }

  lemma FindingAlike(a: World, b: World, s: SecretSpec)
    requires AlikeStored(s, a, b)
    ensures Finding(s, ReadParsed(a.files, s.path)) == Finding(s, ReadParsed(b.files, s.path))
  {
    var f, g := Read(a.files, s.path), Read(b.files, s.path);
    if f.Content? {
      StoredAlike(ShownNames(s), s.fields, Parsed(f.text), Parsed(g.text));
    }
  }

  lemma PublishedStep(mask: Mask, a: World, b: World, specs: seq<SecretSpec>)
    requires specs != [] && AlikeRuns(mask, a, b) && AllStoredAlike(specs, a, b)
    ensures AlikeRuns(mask, Published(a, specs[0]), Published(b, specs[0]))
    ensures AllStoredAlike(specs[1..], Published(a, specs[0]), Published(b, specs[0]))
  {
    assert specs[0] in specs;
    OnePublishedAlike(mask, a, b, specs[0]);
    RestStored(specs, a, b);
    SameFilesAlike(specs[1..], a, b, Published(a, specs[0]), Published(b, specs[0]));
  }

  lemma RestStored(specs: seq<SecretSpec>, a: World, b: World)
    requires specs != [] && AllStoredAlike(specs, a, b)
    ensures AllStoredAlike(specs[1..], a, b)
  {
    assert forall x :: x in specs[1..] ==> x in specs;
  }

  lemma {:induction false} PublishedAlike(mask: Mask, a: World, b: World, specs: seq<SecretSpec>)
    requires AlikeRuns(mask, a, b) && AllStoredAlike(specs, a, b)
    ensures AlikeRuns(mask, PublishedAll(a, specs), PublishedAll(b, specs))
    decreases |specs|
  {
    if specs != [] {
      PublishedStep(mask, a, b, specs);
      PublishedAlike(mask, Published(a, specs[0]), Published(b, specs[0]), specs[1..]);
    }
  }

  lemma OfferedAlike(mask: Mask, a: World, b: World, specs: seq<SecretSpec>)
    requires AlikeRuns(mask, a, b) && AllStoredAlike(specs, a, b)
    ensures AlikeRuns(mask, SecretSafety.Offered(a, specs), SecretSafety.Offered(b, specs))
  {
    ListedAlike(mask, a, b, specs);
    PublishedAlike(mask, Listed(a, specs), Listed(b, specs), specs);
  }

  /** The same for two edit sessions. */
  lemma EditsLookAlike(mask: Mask, a: World, b: World, specs: seq<SecretSpec>)
    requires AlikeRuns(mask, a, b) && PromptHub.Valid(a.hub)
    requires AllStoredAlike(specs, a, b)
    requires AllMasked(mask, specs, Edited(a, specs).w.trace)
    ensures Edited(a, specs).w.trace == Edited(b, specs).w.trace
    ensures AlikeFlows(mask, Edited(a, specs), Edited(b, specs))
  {
    var a2, b2 := SecretSafety.Offered(a, specs), SecretSafety.Offered(b, specs);
    OfferedAlike(mask, a, b, specs);
    SecretSafety.OfferedLater(a, specs);
    SecretSafety.OfferedLater(b, specs);
    ChosenAlike(mask, a2.hub, b2.hub);
    ChosenContinues(a2.hub);
    var choice := Chosen(a2.hub).0;
    if choice.Some? && SpecNamed(specs, choice.value).Some? {
      var spec := SpecNamed(specs, choice.value).value;
      var a3, b3 := a2.(hub := Chosen(a2.hub).1), b2.(hub := Chosen(b2.hub).1);
      var a4, b4 := Show(a3, a3.screen.(choosing := false)), Show(b3, b3.screen.(choosing := false));
      assert AlikeStored(spec, a, b);
      ReEnteredAlike(mask, a4, b4, spec);
    }
  }

  lemma ReEnteredAlike(mask: Mask, a: World, b: World, spec: SecretSpec)
    requires AlikeRuns(mask, a, b) && AlikeStored(spec, a, b) && PromptHub.Valid(a.hub)
    requires Masks(mask, spec, ShownNames(spec), ReEntered(a, spec).w.trace)
    ensures AlikeFlows(mask, ReEntered(a, spec), ReEntered(b, spec))
  {
    var p, q := ReadParsed(a.files, spec.path), ReadParsed(b.files, spec.path);
    var m, n: map<string, string> := if p.Some? then p.value else map[], if q.Some? then q.value else map[];
    PrefillAlike(ShownNames(spec), spec, m, n);
    HeadlineAlike(mask, a, b, "prompt", spec.name, ReEntering);
    var a1, b1 := Headline(a, "prompt", spec.name, ReEntering), Headline(b, "prompt", spec.name, ReEntering);
    var r := Prompted(a1, spec, Prefill(spec, m), Requested);
    if r.Go? {
      MasksBefore(mask, spec, ShownNames(spec), r.w, ReEntered(a, spec).w);
    }
    PromptedAlike(mask, a1, b1, spec, Prefill(spec, m), Requested);
  }

  // --- what is hidden, exactly -----------------------------------------------------------

  /** A prompt says nothing about the values of a name exactly if every declaration of
      the name is sensitive. */
  lemma HiddenExactly(spec: SecretSpec, name: string)
    ensures (forall v1, v2 :: CheckFieldValue(v1) == CheckFieldValue(v2) ==>
                                SamePrompt(spec, map[name := v1], map[name := v2])) <==>
            forall f :: f in spec.fields && f.name == name ==> f.sensitive
  {
    if name in ShownNames(spec) {
      var f :| f in spec.fields && !f.sensitive && f.name == name;
      var i :| 0 <= i < |spec.fields| && spec.fields[i] == f;
      assert CheckFieldValue("1") == CheckFieldValue("2") == Fine;
      assert PromptFields(spec, Prefill(spec, map[name := "1"]))[i].value == "1";
      assert PromptFields(spec, Prefill(spec, map[name := "2"]))[i].value == "2";
      assert !SamePrompt(spec, map[name := "1"], map[name := "2"]);
    } else {
      forall v1, v2 | CheckFieldValue(v1) == CheckFieldValue(v2)
        ensures SamePrompt(spec, map[name := v1], map[name := v2])
      {
        PrefillAlike(ShownNames(spec), spec, map[name := v1], map[name := v2]);
      }
    }
  }

  predicate SamePrompt(spec: SecretSpec, a: map<string, string>, b: map<string, string>) {
    PromptFields(spec, Prefill(spec, a)) == PromptFields(spec, Prefill(spec, b))
  }

  /** So a name declared sensitive first and not sensitive later is shown. */
  lemma MixedDeclarationShows()
    ensures var spec := SecretSpec("s", "", [FieldSpec("K", "", true), FieldSpec("K", "", false)], "/s", true);
            && WellFormed(spec)
            && exists v1, v2 :: CheckFieldValue(v1) == CheckFieldValue(v2) &&
                                !SamePrompt(spec, map["K" := v1], map["K" := v2])
  {
    var spec := SecretSpec("s", "", [FieldSpec("K", "", true), FieldSpec("K", "", false)], "/s", true);
    assert spec.fields[1] in spec.fields;
    HiddenExactly(spec, "K");
  }
}
