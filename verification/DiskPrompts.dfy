/** The prompts of var-disk-managerd, and what its clients answered to them
    (packages/var-disk-manager/src/bin/daemon.rs). */
module DiskPrompts {
  import opened Text
  import opened PromptHub
  import opened DiskPlan

  /** The queue, and the kind of every prompt posted so far. */
  datatype Talk = Talk(hub: Hub<string>, kinds: map<nat, PromptKind>)

  function TalkOf(ui: Ui<string>): Talk
    reads ui
  {
    Talk(ui.State(), ui.kinds)
  }

  predicate TalkValid(t: Talk) {
    PromptHub.Valid(t.hub) && forall id :: id in t.kinds ==> id <= t.hub.posted
  }

  /** `later` goes on from `t`: nothing was taken back, and no prompt changed its kind. */
  ghost predicate Continued(t: Talk, later: Talk) {
    && Continues(t.hub, later.hub)
    && forall id :: id in t.kinds ==> id in later.kinds && later.kinds[id] == t.kinds[id]
  }

  lemma ContinuedTwice(t0: Talk, t1: Talk, t2: Talk)
    requires Continued(t0, t1) && Continued(t1, t2)
    ensures Continued(t0, t2)
  {
  }

  /** Prompt `id` was of this kind, and a client sent this answer to it; the first one
      anyone sent, if clients answer only what they saw. */
  ghost predicate AnsweredTo(t: Talk, id: nat, kind: PromptKind, answer: string) {
    && id in t.kinds && t.kinds[id] == kind
    && (exists s :: s in t.hub.sent && s.msg == Submit(id, answer))
    && (Honest(t.hub) ==> FirstAnswer(t.hub.sent, id) == Some(answer))
  }

  lemma AnsweredLater(t: Talk, later: Talk, id: nat, kind: PromptKind, answer: string)
    requires AnsweredTo(t, id, kind, answer) && Continued(t, later)
    ensures AnsweredTo(later, id, kind, answer)
  {
    var s :| s in t.hub.sent && s.msg == Submit(id, answer);
    var i :| 0 <= i < |t.hub.sent| && t.hub.sent[i] == s;
    assert later.hub.sent[i] == s;
    if Honest(later.hub) {
      HonestBefore(t.hub, later.hub);
      FirstAnswerKept(t.hub.sent, later.hub.sent, id);
    }
  }

  /** Since prompt `since` a Confirm prompt was posted and answered with a clear yes or no. */
  ghost predicate Told(since: nat, t: Talk, yes: bool) {
    exists id: nat, answer ::
      since < id <= t.hub.posted && AnsweredTo(t, id, Confirm, answer) && ParseConfirm(answer) == Some(yes)
  }

  /** Since prompt `since` this passphrase was the answer to a prompt to unlock. */
  ghost predicate OpenedBy(since: nat, t: Talk, passphrase: string) {
    exists id: nat :: since < id <= t.hub.posted && AnsweredTo(t, id, UnlockPassphrase, passphrase)
  }

  lemma OpenedLater(since: nat, t: Talk, later: Talk, passphrase: string)
    requires OpenedBy(since, t, passphrase) && Continued(t, later)
    ensures OpenedBy(since, later, passphrase)
  {
    var id: nat :| since < id <= t.hub.posted && AnsweredTo(t, id, UnlockPassphrase, passphrase);
    AnsweredLater(t, later, id, UnlockPassphrase, passphrase);
  }

  /** Since prompt `since` this passphrase was the answer to a prompt for a new one, and
      to the prompt to repeat it right after. */
  ghost predicate GivenTwice(since: nat, t: Talk, passphrase: string) {
    exists id: nat ::
      && since < id < t.hub.posted
      && AnsweredTo(t, id, NewPassphrase, passphrase) && AnsweredTo(t, id + 1, RepeatPassphrase, passphrase)
  }

  /** So was some passphrase that is long enough. */
  ghost predicate Chose(since: nat, t: Talk, minLength: nat) {
    exists p :: |p| >= minLength && GivenTwice(since, t, p)
  }

  /** Post a prompt and wait for its answer. */
  method AskFor(ui: Ui<string>, kind: PromptKind) returns (r: Option<string>)
    requires TalkValid(TalkOf(ui))
    modifies ui
    ensures TalkValid(TalkOf(ui)) && Continued(old(TalkOf(ui)), TalkOf(ui))
    ensures ui.posted == old(ui.posted) + 1 && |ui.arrivals| <= |old(ui.arrivals)|
    ensures r.Some? ==> AnsweredTo(TalkOf(ui), ui.posted, kind, r.value) && |ui.arrivals| < |old(ui.arrivals)|
  {
    ghost var h := ui.State();
    AskedIsFirst(h);
    r := ui.Ask(kind);
    if r.Some? {
      AwaitedWasSent(h.(posted := h.posted + 1));
    }
  }

  /** Ask twice until a long enough passphrase was given twice. */
  method AskNewPassphrase(ui: Ui<string>, minLength: nat) returns (r: Option<string>)
    requires TalkValid(TalkOf(ui))
    modifies ui
    ensures TalkValid(TalkOf(ui)) && Continued(old(TalkOf(ui)), TalkOf(ui))
    ensures r.Some? ==> |r.value| >= minLength && GivenTwice(old(ui.posted), TalkOf(ui), r.value)
  {
    while true
      invariant TalkValid(TalkOf(ui)) && Continued(old(TalkOf(ui)), TalkOf(ui))
      decreases |ui.arrivals|
    {
      var a := AskFor(ui, NewPassphrase);
      if a.None? {
        return None;
      }
      if |a.value| < minLength {
        continue;
      }
      ghost var t1 := TalkOf(ui);
      var b := AskFor(ui, RepeatPassphrase);
      if b.None? {
        return None;
      }
      if a == b {
        AnsweredLater(t1, TalkOf(ui), t1.hub.posted, NewPassphrase, a.value);
        return a;
      }
    }
  }

  /** Ask until the answer is a yes or a no: there is no default. */
  method AskConfirm(ui: Ui<string>) returns (r: Option<bool>)
    requires TalkValid(TalkOf(ui))
    modifies ui
    ensures TalkValid(TalkOf(ui)) && Continued(old(TalkOf(ui)), TalkOf(ui))
    ensures r.Some? ==> Told(old(ui.posted), TalkOf(ui), r.value)
    ensures r.Some? ==>
              exists answer :: AnsweredTo(TalkOf(ui), ui.posted, Confirm, answer) && ParseConfirm(answer) == r
  {
    while true
      invariant TalkValid(TalkOf(ui)) && Continued(old(TalkOf(ui)), TalkOf(ui))
      decreases |ui.arrivals|
    {
      var answer := AskFor(ui, Confirm);
      if answer.None? {
        return None;
      }
      r := ParseConfirm(answer.value);
      if r.Some? {
        return;
      }
    }
  }
}
