/** operator-secretsd: bring every secret to the satisfied state, or re-enter one
    (packages/operator-secrets/src/bin/daemon.rs).

    A run is a function of what it meets: the files, the clients' messages, the
    verdicts of the validators and the results of the writes. Each stream is a
    finite prefix of what an endless run would meet; when one runs out, power is
    lost at that point, so the ends of runs are all the states a run passes
    through while it waits. The class at the end performs the same steps on fields. */
module SecretDaemon {
  import opened Text
  import opened EnvFile
  import opened SecretForms
  import opened PromptHub

  // --- what the daemon sees and shows ---------------------------------------------

  datatype FileState = NoFile | Unreadable | Content(text: string)

  type Files = map<string, FileState>

  function Read(files: Files, path: string): FileState {
    if path in files then files[path] else NoFile
  }

  function ReadParsed(files: Files, path: string): Option<map<string, string>> {
    var f := Read(files, path);
    if f.Content? then Some(Parsed(f.text)) else None
  }

  datatype Status = Valid | Invalid | Error

  datatype Verdict = Verdict(status: Status, message: string)

  /** The outcomes of one atomic write: done, failed with the old file in place, or
      cut off just before or just after the rename took effect. */
  datatype WriteResult = Written | Refused | CutBefore | CutAfter

  datatype SecretState = Pending | Checking | NeedsInput | Validating | Satisfied | Undecided

  /** Why a prompt is shown. */
  datatype Reason =
    | NotStoredYet
    | FileIncomplete(missing: seq<Lack>)
    | StoredRejected(message: string)
    | EntryRejected(message: string)
    | FormRefused(error: SubmitError)
    | Requested

  /** Every line of text the daemon shows, by what it is built from. */
  datatype Note =
    | NoNote
    | ReadingFile
    | ValidatingStored
    | ValidatingEntered
    | CannotDecide(message: string)
    | Retrying(message: string, attempt: nat)
    | StoredValid
    | StoredIn(path: string)
    | WrittenTo(path: string)
    | Because(reason: Reason)
    | ChooseSecret
    | ReEntering
    | Updated
    | AllSatisfied

  datatype SecretStatus = SecretStatus(name: string, description: string, state: SecretState, detail: Note)

  datatype Prompt = Prompt(id: nat, secret: string, description: string, reason: Reason, fields: seq<PromptField>)

  datatype Snapshot = Snapshot(
    phase: string, subject: string, message: Note, blocked: bool, secrets: seq<SecretStatus>,
    prompt: Option<Prompt>, done: bool, choosing: bool)

  /** What a validator, or the rule that stands in for one, was given and what it said. */
  datatype Judgement = Judgement(secret: SecretSpec, values: Fields, verdict: Verdict)

  datatype World = World(
    files: Files, hub: Hub<Fields>, verdicts: seq<Verdict>, writes: seq<WriteResult>,
    screen: Snapshot, trace: seq<Snapshot>, judged: seq<Judgement>)

  datatype Ending = PowerLost | Failed

  datatype Flow<T> = Go(value: T, w: World) | Stop(how: Ending, w: World)

  // --- steps ---------------------------------------------------------------------

  function Show(w: World, screen: Snapshot): World {
    w.(screen := screen, trace := w.trace + [screen])
  }

  function Headline(w: World, phase: string, subject: string, message: Note): World {
    Show(w, w.screen.(phase := phase, subject := subject, message := message))
  }

  function Restated(secrets: seq<SecretStatus>, name: string, state: SecretState, detail: Note): seq<SecretStatus> {
    if secrets == [] then []
    else if secrets[0].name == name then [secrets[0].(state := state, detail := detail)] + secrets[1..]
    else [secrets[0]] + Restated(secrets[1..], name, state, detail)
  }

  lemma {:induction false} RestatedAt(
    secrets: seq<SecretStatus>, name: string, state: SecretState, detail: Note, i: nat)
    requires i <= |secrets| && forall j :: 0 <= j < i ==> secrets[j].name != name
    requires i < |secrets| ==> secrets[i].name == name
    ensures Restated(secrets, name, state, detail) ==
            if i < |secrets| then secrets[i := secrets[i].(state := state, detail := detail)] else secrets
  {
    if i > 0 {
      RestatedAt(secrets[1..], name, state, detail, i - 1);
    }
  }

  function SetSecret(w: World, name: string, state: SecretState, detail: Note): World {
    Show(w, w.screen.(secrets := Restated(w.screen.secrets, name, state, detail)))
  }

  function SetBlocked(w: World, blocked: bool): World {
    Show(w, w.screen.(blocked := blocked))
  }

  function Posted(w: World, spec: SecretSpec, reason: Reason, known: map<string, string>): World {
    var id := w.hub.posted + 1;
    var prompt := Prompt(id, spec.name, spec.description, reason, PromptFields(spec, known));
    Show(w.(hub := w.hub.(posted := id)), w.screen.(prompt := Some(prompt)))
  }

  /** Prompt until a client submits a good form. */
  function Form(w: World, spec: SecretSpec, reason: Reason, known: map<string, string>): (r: Flow<Fields>)
    ensures r.Go? ==> |r.w.hub.arrivals| < |w.hub.arrivals|
    decreases |w.hub.arrivals|
  {
    var w1 := Posted(w, spec, reason, known);
    match Awaited(w1.hub)
    case NoAnswer(h) => Stop(PowerLost, w1.(hub := h))
    case Answer(values, h) =>
      var w2 := Show(w1.(hub := h), w1.screen.(prompt := None));
      match Accepted(spec, values)
      case Success(v) => Go(v, w2)
      case Failure(e) =>
        Form(Headline(w2, "prompt", spec.name, Because(FormRefused(e))), spec, FormRefused(e), Visible(spec, values))
  }

  function FirstValue(values: Fields, name: string): string {
    if values == [] then "" else if values[0].0 == name then values[0].1 else FirstValue(values[1..], name)
  }

  /** Without a validator: every declared field present and not empty. */
  function PresenceVerdict(fields: seq<FieldSpec>, values: Fields): Verdict {
    if fields == [] then Verdict(Valid, "")
    else if FirstValue(values, fields[0].name) == "" then
      Verdict(Invalid, "field " + fields[0].name + " is missing or empty")
    else PresenceVerdict(fields[1..], values)
  }

  function Noted(w: World, spec: SecretSpec, values: Fields, v: Verdict): World {
    w.(judged := w.judged + [Judgement(spec, values, v)])
  }

  /** One judgement: by the rule without a validator, else by the validator, which is
      given the values and whose verdict is the next one. */
  function Judged(w: World, spec: SecretSpec, values: Fields): (r: Flow<Verdict>)
    ensures r.w.hub == w.hub && |r.w.verdicts| <= |w.verdicts|
    ensures r.Go? && r.value.status == Error ==> |r.w.verdicts| < |w.verdicts|
  {
    if !spec.hasValidator then
      PresenceExactly(spec.fields, values);
      var v := PresenceVerdict(spec.fields, values);
      Go(v, Noted(w, spec, values, v))
    else if w.verdicts == [] then Stop(PowerLost, w)
    else Go(w.verdicts[0], Noted(w.(verdicts := w.verdicts[1..]), spec, values, w.verdicts[0]))
  }

  predicate AllPresent(fields: seq<FieldSpec>, values: Fields) {
    forall f :: f in fields ==> FirstValue(values, f.name) != ""
  }

  lemma {:induction false} PresenceExactly(fields: seq<FieldSpec>, values: Fields)
    ensures PresenceVerdict(fields, values).status == if AllPresent(fields, values) then Valid else Invalid
  {
    if fields != [] {
      assert fields == [fields[0]] + fields[1..];
      PresenceExactly(fields[1..], values);
    }
  }

  /** The verdicts that validators gave. */
  function Given(judged: seq<Judgement>): seq<Verdict> {
    if judged == [] then []
    else
      Given(judged[..|judged| - 1]) +
      if judged[|judged| - 1].secret.hasValidator then [judged[|judged| - 1].verdict] else []
  }

  /** All verdicts of a run, those given and those to come. */
  function VerdictsOf(w: World): seq<Verdict> {
    Given(w.judged) + w.verdicts
  }

  /** A judgement takes the next verdict of a validator, and no other. */
  lemma JudgedTakesNext(w: World, spec: SecretSpec, values: Fields)
    ensures VerdictsOf(Judged(w, spec, values).w) == VerdictsOf(w)
  {
    var r := Judged(w, spec, values);
    if r.Go? {
      assert r.w.judged[..|w.judged|] == w.judged;
    }
  }

  /** A validator that cannot decide shows the secret as blocked until it can. */
  function Retried(w: World, spec: SecretSpec, message: string, attempt: nat): World {
    var w1 := SetBlocked(SetSecret(w, spec.name, Undecided, CannotDecide(message)), true);
    Headline(w1, "undecided", spec.name, Retrying(message, attempt))
  }

  function Concluded(w: World, attempt: nat): World {
    if attempt > 1 then SetBlocked(w, false) else w
  }

  /** Validate, parked for as long as the validator cannot decide. */
  function Decided(w: World, spec: SecretSpec, values: Fields, what: Note, attempt: nat): (r: Flow<Verdict>)
    ensures r.w.hub == w.hub
    ensures r.Go? ==> r.value.status != Error
    decreases |w.verdicts|
  {
    var w1 := SetSecret(w, spec.name, SecretState.Validating, what);
    match Judged(w1, spec, values)
    case Stop(how, w2) => Stop(how, w2)
    case Go(v, w2) =>
      if v.status == Error then
        Decided(Retried(w2, spec, v.message, attempt), spec, values, what, attempt + 1)
      else
        Go(v, Concluded(w2, attempt))
  }

  function Stored(w: World, spec: SecretSpec, values: Fields): Flow<()> {
    var landed := w.(files := w.files[spec.path := Content(Encoded(values))]);
    if w.writes == [] then Stop(PowerLost, w)
    else
      match w.writes[0]
      case Written => Go((), landed.(writes := w.writes[1..]))
      case Refused => Stop(Failed, w.(writes := w.writes[1..]))
      case CutBefore => Stop(PowerLost, w)
      case CutAfter => Stop(PowerLost, landed)
  }

  /** Write the values, and report the secret as satisfied. */
  function Finished(w: World, spec: SecretSpec, values: Fields): Flow<()> {
    match Stored(w, spec, values)
    case Stop(how, w1) => Stop(how, w1)
    case Go(_, w1) =>
      var w2 := SetSecret(w1, spec.name, Satisfied, WrittenTo(spec.path));
      Go((), Headline(w2, "check", spec.name, WrittenTo(spec.path)))
  }

  /** Ask until an answer is accepted and judged Valid, then write it. */
  function Prompted(w: World, spec: SecretSpec, known: map<string, string>, reason: Reason): Flow<()>
    decreases |w.hub.arrivals|
  {
    var w1 := SetSecret(w, spec.name, NeedsInput, Because(reason));
    match Form(w1, spec, reason, known)
    case Stop(how, w2) => Stop(how, w2)
    case Go(values, w2) =>
      match Decided(w2, spec, values, ValidatingEntered, 1)
      case Stop(how, w3) => Stop(how, w3)
      case Go(v, w3) =>
        if v.status == Status.Valid then Finished(w3, spec, values)
        else
          var why := EntryRejected(v.message);
          Prompted(Headline(w3, "prompt", spec.name, Because(why)), spec, Visible(spec, values), why)
  }

  /** Bring one secret to the satisfied state. */
  function SatisfiedSecret(w: World, spec: SecretSpec): Flow<()> {
    var w1 := Headline(SetSecret(w, spec.name, Checking, ReadingFile), "check", spec.name, ReadingFile);
    if Read(w.files, spec.path).Unreadable? then Stop(Failed, w1)
    else
      match Classified(spec, ReadParsed(w.files, spec.path))
      case Absent => Prompted(Headline(w1, "prompt", spec.name, Because(NotStoredYet)), spec, map[], NotStoredYet)
      case Incomplete(missing, usable) =>
        var why := FileIncomplete(missing);
        Prompted(Headline(w1, "prompt", spec.name, Because(why)), spec, VisibleStored(spec, usable), why)
      case Complete(values) =>
        match Decided(w1, spec, values, ValidatingStored, 1)
        case Stop(how, w2) => Stop(how, w2)
        case Go(v, w2) =>
          if v.status == Status.Valid then
            Go((), Headline(SetSecret(w2, spec.name, Satisfied, StoredValid), "check", spec.name, StoredValid))
          else
            var why := StoredRejected(v.message);
            Prompted(Headline(w2, "prompt", spec.name, Because(why)), spec, Prefill(spec, MapOf(values)), why)
  }

  function AllSatisfiedFrom(w: World, specs: seq<SecretSpec>): Flow<()>
    decreases |specs|
  {
    if specs == [] then
      var w1 := Show(w, w.screen.(done := true, blocked := false, prompt := None));
      Go((), Headline(w1, "done", "", AllSatisfied))
    else
      match SatisfiedSecret(w, specs[0])
      case Stop(how, w1) => Stop(how, w1)
      case Go(_, w1) => AllSatisfiedFrom(w1, specs[1..])
  }

  function PendingAll(specs: seq<SecretSpec>): seq<SecretStatus> {
    seq(|specs|, i requires 0 <= i < |specs| => SecretStatus(specs[i].name, specs[i].description, Pending, NoNote))
  }

  function Listed(w: World, specs: seq<SecretSpec>): World {
    Show(w, w.screen.(secrets := PendingAll(specs)))
  }

  /** A boot: Go when the daemon releases it. */
  function Booted(w: World, specs: seq<SecretSpec>): Flow<()> {
    AllSatisfiedFrom(Listed(w, specs), specs)
  }

  /** What an edit session shows of a secret before anything is chosen. */
  function Finding(spec: SecretSpec, stored: Option<map<string, string>>): (SecretState, Note) {
    match Classified(spec, stored)
    case Absent => (NeedsInput, Because(NotStoredYet))
    case Incomplete(missing, _) => (NeedsInput, Because(FileIncomplete(missing)))
    case Complete(_) => (Satisfied, StoredIn(spec.path))
  }

  function Published(w: World, spec: SecretSpec): World {
    var (state, note) := Finding(spec, ReadParsed(w.files, spec.path));
    SetSecret(w, spec.name, state, note)
  }

  function PublishedAll(w: World, specs: seq<SecretSpec>): World
    decreases |specs|
  {
    if specs == [] then w else PublishedAll(Published(w, specs[0]), specs[1..])
  }

  function SpecNamed(specs: seq<SecretSpec>, name: string): (r: Option<SecretSpec>)
    ensures r.Some? ==> r.value in specs && r.value.name == name
  {
    if specs == [] then None
    else if specs[0].name == name then Some(specs[0])
    else SpecNamed(specs[1..], name)
  }

  function ReEntered(w: World, spec: SecretSpec): Flow<()> {
    var stored := ReadParsed(w.files, spec.path);
    var known := Prefill(spec, if stored.Some? then stored.value else map[]);
    match Prompted(Headline(w, "prompt", spec.name, ReEntering), spec, known, Requested)
    case Stop(how, w1) => Stop(how, w1)
    case Go(_, w1) =>
      Go((), Headline(Show(w1, w1.screen.(done := true, blocked := false, prompt := None)), "done", spec.name, Updated))
  }

  /** An edit session. */
  function Edited(w: World, specs: seq<SecretSpec>): Flow<()> {
    var w1 := PublishedAll(Listed(w, specs), specs);
    var w2 := Headline(Show(w1, w1.screen.(choosing := true)), "choose", "", ChooseSecret);
    var (choice, hub) := Chosen(w2.hub);
    var w3 := w2.(hub := hub);
    if choice.None? then Stop(PowerLost, w3)
    else
      var w4 := Show(w3, w3.screen.(choosing := false));
      match SpecNamed(specs, choice.value)
      case None => Stop(Failed, w4)
      case Some(spec) => ReEntered(w4, spec)
  }

  // --- the daemon ------------------------------------------------------------------

  class Daemon {
    const ui: Ui<Fields>
    var files: Files
    var verdicts: seq<Verdict>
    var writes: seq<WriteResult>
    var screen: Snapshot
    var trace: seq<Snapshot>
    ghost var judged: seq<Judgement>

    ghost function View(): World
      reads this, ui
    {
      World(files, ui.State(), verdicts, writes, screen, trace, judged)
    }

    constructor (ui: Ui<Fields>, files: Files, verdicts: seq<Verdict>, writes: seq<WriteResult>)
      ensures this.ui == ui && this.files == files && this.verdicts == verdicts && this.writes == writes
      ensures trace == [] && judged == []
    {
      this.ui, this.files, this.verdicts, this.writes := ui, files, verdicts, writes;
      this.screen := Snapshot("", "", NoNote, false, [], None, false, false);
      this.trace, this.judged := [], [];
    }

    method Mutate(next: Snapshot)
      modifies this
      ensures View() == Show(old(View()), next)
    {
      screen, trace := next, trace + [next];
    }

    method State(phase: string, subject: string, message: Note)
      modifies this
      ensures View() == Headline(old(View()), phase, subject, message)
    {
      Mutate(screen.(phase := phase, subject := subject, message := message));
    }

    method Secret(name: string, state: SecretState, detail: Note)
      modifies this
      ensures View() == SetSecret(old(View()), name, state, detail)
    {
      var i := 0;
      while i < |screen.secrets| && screen.secrets[i].name != name
        invariant 0 <= i <= |screen.secrets|
        invariant forall j :: 0 <= j < i ==> screen.secrets[j].name != name
      {
        i := i + 1;
      }
      RestatedAt(screen.secrets, name, state, detail, i);
      var secrets := screen.secrets;
      Mutate(screen.(secrets :=
        if i < |secrets| then secrets[i := secrets[i].(state := state, detail := detail)] else secrets));
    }

    method Ask(spec: SecretSpec, reason: Reason, known: map<string, string>) returns (r: Option<Fields>)
      modifies this, ui
      ensures Form(old(View()), spec, reason, known) ==
              if r.Some? then Go(r.value, View()) else Stop(PowerLost, View())
    {
      var why, prefill := reason, known;
      while true
        invariant Form(View(), spec, why, prefill) == Form(old(View()), spec, reason, known)
        decreases |ui.arrivals|
      {
        Post(spec, why, prefill);
        var values := ui.WaitForSubmission();
        if values.None? {
          return None;
        }
        Mutate(screen.(prompt := None));
        var accepted := AcceptSubmission(spec, values.value);
        match accepted {
          case Success(v) =>
            return Some(v);
          case Failure(e) =>
            prefill := Visible(spec, values.value);
            why := FormRefused(e);
            State("prompt", spec.name, Because(why));
        }
      }
    }

    method Post(spec: SecretSpec, why: Reason, prefill: map<string, string>)
      modifies this, ui
      ensures View() == Posted(old(View()), spec, why, prefill)
    {
      ui.posted := ui.posted + 1;
      var prompt := Prompt(ui.posted, spec.name, spec.description, why, PromptFields(spec, prefill));
      Mutate(screen.(prompt := Some(prompt)));
    }

    method Validate(spec: SecretSpec, values: Fields) returns (r: Option<Verdict>)
      modifies this
      ensures Judged(old(View()), spec, values) == if r.Some? then Go(r.value, View()) else Stop(PowerLost, View())
    {
      if !spec.hasValidator {
        for i := 0 to |spec.fields|
          invariant View() == old(View())
          invariant PresenceVerdict(spec.fields[i..], values) == PresenceVerdict(spec.fields, values)
        {
          assert spec.fields[i..][1..] == spec.fields[i + 1..];
          if FirstValue(values, spec.fields[i].name) == "" {
            r := Some(Verdict(Invalid, "field " + spec.fields[i].name + " is missing or empty"));
            judged := judged + [Judgement(spec, values, r.value)];
            return;
          }
        }
        r := Some(Verdict(Valid, ""));
      } else if verdicts == [] {
        return None;
      } else {
        r, verdicts := Some(verdicts[0]), verdicts[1..];
      }
      judged := judged + [Judgement(spec, values, r.value)];
    }

    method ValidateUntilDecided(spec: SecretSpec, values: Fields, what: Note) returns (r: Option<Verdict>)
      modifies this
      ensures Decided(old(View()), spec, values, what, 1) ==
              if r.Some? then Go(r.value, View()) else Stop(PowerLost, View())
    {
      var attempt := 0;
      while true
        invariant Decided(View(), spec, values, what, attempt + 1) == Decided(old(View()), spec, values, what, 1)
        decreases |verdicts|
      {
        attempt := attempt + 1;
        Secret(spec.name, SecretState.Validating, what);
        r := Validate(spec, values);
        if r.None? {
          return;
        }
        if r.value.status != Error {
          if attempt > 1 {
            Mutate(screen.(blocked := false));
          }
          return;
        }
        Secret(spec.name, Undecided, CannotDecide(r.value.message));
        Mutate(screen.(blocked := true));
        State("undecided", spec.name, Retrying(r.value.message, attempt));
      }
    }

    method WriteSecret(spec: SecretSpec, values: Fields) returns (r: Option<Ending>)
      modifies this
      ensures Stored(old(View()), spec, values) == if r.None? then Go((), View()) else Stop(r.value, View())
    {
      if writes == [] || writes[0] == CutBefore {
        return Some(PowerLost);
      }
      if writes[0] == Refused {
        writes := writes[1..];
        return Some(Failed);
      }
      var body := EncodeEnvFile(values);
      files := files[spec.path := Content(body)];
      if writes[0] == CutAfter {
        return Some(PowerLost);
      }
      writes := writes[1..];
      return None;
    }

    method PromptUntilAccepted(spec: SecretSpec, known: map<string, string>, reason: Reason)
      returns (r: Option<Ending>)
      modifies this, ui
      ensures Prompted(old(View()), spec, known, reason) == if r.None? then Go((), View()) else Stop(r.value, View())
    {
      var prefill, why := known, reason;
      while true
        invariant Prompted(View(), spec, prefill, why) == Prompted(old(View()), spec, known, reason)
        decreases |ui.arrivals|
      {
        Secret(spec.name, NeedsInput, Because(why));
        var values := Ask(spec, why, prefill);
        if values.None? {
          return Some(PowerLost);
        }
        var verdict := ValidateUntilDecided(spec, values.value, ValidatingEntered);
        if verdict.None? {
          return Some(PowerLost);
        }
        if verdict.value.status == Status.Valid {
          r := WriteSecret(spec, values.value);
          if r.None? {
            Secret(spec.name, Satisfied, WrittenTo(spec.path));
            State("check", spec.name, WrittenTo(spec.path));
          }
          return;
        }
        prefill := Visible(spec, values.value);
        why := EntryRejected(verdict.value.message);
        State("prompt", spec.name, Because(why));
      }
    }

    method Satisfy(spec: SecretSpec) returns (r: Option<Ending>)
      modifies this, ui
      ensures SatisfiedSecret(old(View()), spec) == if r.None? then Go((), View()) else Stop(r.value, View())
    {
      Secret(spec.name, Checking, ReadingFile);
      State("check", spec.name, ReadingFile);
      var file := Read(files, spec.path);
      if file.Unreadable? {
        return Some(Failed);
      }
      var stored := None;
      if file.Content? {
        var m := ParseEnvFile(file.text);
        stored := Some(m);
      }
      var state := ClassifyStored(spec, stored);
      var known: map<string, string>, why := map[], NotStoredYet;
      match state {
        case Absent =>
        case Incomplete(missing, usable) =>
          known, why := VisibleStored(spec, usable), FileIncomplete(missing);
        case Complete(values) =>
          var verdict := ValidateUntilDecided(spec, values, ValidatingStored);
          if verdict.None? {
            return Some(PowerLost);
          }
          if verdict.value.status == Status.Valid {
            Secret(spec.name, Satisfied, StoredValid);
            State("check", spec.name, StoredValid);
            return None;
          }
          known, why := Prefill(spec, MapOf(values)), StoredRejected(verdict.value.message);
      }
      State("prompt", spec.name, Because(why));
      r := PromptUntilAccepted(spec, known, why);
    }

    method Run(specs: seq<SecretSpec>) returns (r: Option<Ending>)
      modifies this, ui
      ensures Booted(old(View()), specs) == if r.None? then Go((), View()) else Stop(r.value, View())
    {
      Mutate(screen.(secrets := PendingAll(specs)));
      for i := 0 to |specs|
        invariant AllSatisfiedFrom(View(), specs[i..]) == Booted(old(View()), specs)
      {
        assert specs[i..][1..] == specs[i + 1..];
        r := Satisfy(specs[i]);
        if r.Some? {
          return;
        }
      }
      Mutate(screen.(done := true, blocked := false, prompt := None));
      State("done", "", AllSatisfied);
      return None;
    }

    method EditSession(specs: seq<SecretSpec>) returns (r: Option<Ending>)
      modifies this, ui
      ensures Edited(old(View()), specs) == if r.None? then Go((), View()) else Stop(r.value, View())
    {
      Mutate(screen.(secrets := PendingAll(specs)));
      for i := 0 to |specs|
        invariant PublishedAll(View(), specs[i..]) == PublishedAll(Listed(old(View()), specs), specs)
      {
        assert specs[i..][1..] == specs[i + 1..];
        var s := specs[i];
        var state := ClassifyStored(s, ReadParsed(files, s.path));
        match state {
          case Absent => Secret(s.name, NeedsInput, Because(NotStoredYet));
          case Incomplete(missing, _) => Secret(s.name, NeedsInput, Because(FileIncomplete(missing)));
          case Complete(_) => Secret(s.name, Satisfied, StoredIn(s.path));
        }
      }
      Mutate(screen.(choosing := true));
      State("choose", "", ChooseSecret);
      var chosen := ui.WaitForChoice();
      if chosen.None? {
        return Some(PowerLost);
      }
      Mutate(screen.(choosing := false));
      var spec := SpecNamed(specs, chosen.value);
      if spec.None? {
        return Some(Failed);
      }
      var secret := spec.value;
      var stored := ReadParsed(files, secret.path);
      State("prompt", secret.name, ReEntering);
      r := PromptUntilAccepted(secret, Prefill(secret, if stored.Some? then stored.value else map[]), Requested);
      if r.None? {
        Mutate(screen.(done := true, blocked := false, prompt := None));
        State("done", secret.name, Updated);
      }
    }
  }
}
