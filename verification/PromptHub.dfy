/** The prompt hub both daemons share: one queue that any number of clients feed,
    one prompt at a time, answers matched by prompt id. */
module PromptHub {
  import opened Text

  /** A client's message: the answer to a prompt, or the choice of a secret. */
  datatype Msg<V> = Submit(id: nat, value: V) | Edit(secret: string)

  /** A message as it was sent: `posted` is the newest prompt id broadcast by then. */
  datatype Sent<V> = Sent(msg: Msg<V>, posted: nat)

  /** The channel is kept as everything sent so far and the daemon's read position.
      `arrivals` is what clients will send, one batch per poll, in any amount and
      order; when it runs out the machine loses power while the daemon waits. */
  datatype Hub<V> = Hub(posted: nat, taken: nat, sent: seq<Sent<V>>, arrivals: seq<seq<Msg<V>>>)

  datatype Wait<V> = Answer(value: V, hub: Hub<V>) | NoAnswer(hub: Hub<V>)

  function Stamp<V>(msgs: seq<Msg<V>>, posted: nat): seq<Sent<V>> {
    seq(|msgs|, i requires 0 <= i < |msgs| => Sent(msgs[i], posted))
  }

  function Arrive<V>(h: Hub<V>): Hub<V>
    requires h.arrivals != []
  {
    h.(sent := h.sent + Stamp(h.arrivals[0], h.posted), arrivals := h.arrivals[1..])
  }

  /** Wait for the answer to the newest prompt, dropping everything else. */
  function Awaited<V>(h: Hub<V>): (w: Wait<V>)
    ensures |w.hub.arrivals| <= |h.arrivals|
    ensures w.Answer? ==> |w.hub.arrivals| < |h.arrivals|
    decreases |h.arrivals|
  {
    if h.arrivals == [] then NoAnswer(h)
    else
      var h1 := Arrive(h);
      if h1.taken >= |h1.sent| then Awaited(h1)
      else
        var msg, h2 := h1.sent[h1.taken].msg, h1.(taken := h1.taken + 1);
        if msg.Submit? && msg.id == h.posted then Answer(msg.value, h2) else Awaited(h2)
  }

  /** Post a new prompt and wait for its answer. */
  function Asked<V>(h: Hub<V>): Wait<V> {
    Awaited(h.(posted := h.posted + 1))
  }

  /** Wait for an edit session's choice, dropping every form answer. */
  function Chosen<V>(h: Hub<V>): (Option<string>, Hub<V>)
    decreases |h.arrivals|
  {
    if h.arrivals == [] then (None, h)
    else
      var h1 := Arrive(h);
      if h1.taken >= |h1.sent| then Chosen(h1)
      else
        var msg, h2 := h1.sent[h1.taken].msg, h1.(taken := h1.taken + 1);
        if msg.Edit? then (Some(msg.secret), h2) else Chosen(h2)
  }

  // --- which answer a prompt gets ----------------------------------------------------

  /** Clients answer only prompts they have seen. */
  ghost predicate Honest<V>(h: Hub<V>) {
    forall s :: s in h.sent && s.msg.Submit? ==> s.msg.id <= s.posted
  }

  predicate Valid<V>(h: Hub<V>) {
    && h.taken <= |h.sent|
    && forall i :: 0 <= i < |h.sent| ==> h.sent[i].posted <= h.posted
  }

  /** The first answer any client ever sent to prompt `id`. */
  function FirstAnswer<V>(sent: seq<Sent<V>>, id: nat): Option<V> {
    if sent == [] then None
    else
      var before := FirstAnswer(sent[..|sent| - 1], id);
      var m := sent[|sent| - 1].msg;
      if before.Some? then before else if m.Submit? && m.id == id then Some(m.value) else None
  }

  /** `later` continues `earlier`: more was sent, more was read, nothing was taken back. */
  ghost predicate Continues<V>(earlier: Hub<V>, later: Hub<V>) {
    && earlier.sent <= later.sent
    && earlier.taken <= later.taken
    && earlier.posted <= later.posted
    && |later.arrivals| <= |earlier.arrivals|
  }

  lemma {:induction false} FirstAnswerNone<V>(sent: seq<Sent<V>>, id: nat)
    ensures FirstAnswer(sent, id).None? <==> forall s :: s in sent && s.msg.Submit? ==> s.msg.id != id
  {
    if sent != [] {
      assert sent == sent[..|sent| - 1] + [sent[|sent| - 1]];
      FirstAnswerNone(sent[..|sent| - 1], id);
    }
  }

  lemma {:induction false} FirstAnswerStable<V>(sent: seq<Sent<V>>, more: seq<Sent<V>>, id: nat)
    requires FirstAnswer(sent, id).Some?
    ensures FirstAnswer(sent + more, id) == FirstAnswer(sent, id)
  {
    if more == [] {
      assert sent + more == sent;
    } else {
      FirstAnswerStable(sent, more[..|more| - 1], id);
      assert (sent + more)[..|sent + more| - 1] == sent + more[..|more| - 1];
    }
  }

  lemma FirstAnswerKept<V>(sent: seq<Sent<V>>, later: seq<Sent<V>>, id: nat)
    requires FirstAnswer(sent, id).Some? && sent <= later
    ensures FirstAnswer(later, id) == FirstAnswer(sent, id)
  {
    FirstAnswerStable(sent, later[|sent|..], id);
    assert sent + later[|sent|..] == later;
  }

  lemma ArriveFacts<V>(h: Hub<V>)
    requires h.arrivals != [] && Valid(h)
    ensures Valid(Arrive(h)) && Continues(h, Arrive(h))
    ensures Arrive(h).sent[..h.taken] == h.sent[..h.taken]
  {
    var h1 := Arrive(h);
    forall i | 0 <= i < |h1.sent|
      ensures h1.sent[i].posted <= h1.posted
    {
      if i < |h.sent| {
        assert h1.sent[i] == h.sent[i];
      }
    }
  }

  lemma {:induction false} AwaitedIsFirst<V>(h: Hub<V>)
    requires Valid(h) && FirstAnswer(h.sent[..h.taken], h.posted).None?
    ensures Valid(Awaited(h).hub) && Continues(h, Awaited(h).hub) && Awaited(h).hub.posted == h.posted
    ensures Awaited(h).Answer? ==> FirstAnswer(Awaited(h).hub.sent, h.posted) == Some(Awaited(h).value)
    decreases |h.arrivals|
  {
    if h.arrivals != [] {
      var h1 := Arrive(h);
      ArriveFacts(h);
      if h1.taken >= |h1.sent| {
        AwaitedIsFirst(h1);
      } else {
        var h2 := h1.(taken := h1.taken + 1);
        var msg := h1.sent[h1.taken].msg;
        assert h2.sent[..h2.taken][..h1.taken] == h1.sent[..h1.taken];
        assert FirstAnswer(h2.sent[..h2.taken], h.posted) ==
               if msg.Submit? && msg.id == h.posted then Some(msg.value) else None;
        if msg.Submit? && msg.id == h.posted {
          FirstAnswerKept(h2.sent[..h2.taken], h2.sent, h.posted);
        } else {
          AwaitedIsFirst(h2);
        }
      }
    }
  }

  /** An answer is one that a client sent for the prompt. */
  lemma {:induction false} AwaitedWasSent<V>(h: Hub<V>)
    requires Awaited(h).Answer?
    ensures exists s :: s in Awaited(h).hub.sent && s.msg == Submit(h.posted, Awaited(h).value)
    decreases |h.arrivals|
  {
    var h1 := Arrive(h);
    if h1.taken >= |h1.sent| {
      AwaitedWasSent(h1);
    } else if h1.sent[h1.taken].msg.Submit? && h1.sent[h1.taken].msg.id == h.posted {
      assert h1.sent[h1.taken] in h1.sent;
    } else {
      AwaitedWasSent(h1.(taken := h1.taken + 1));
    }
  }

  lemma {:induction false} HonestBefore<V>(earlier: Hub<V>, later: Hub<V>)
    requires Continues(earlier, later) && Honest(later)
    ensures Honest(earlier)
  {
    forall s | s in earlier.sent
      ensures s in later.sent
    {
      var i :| 0 <= i < |earlier.sent| && earlier.sent[i] == s;
      assert later.sent[i] == s;
    }
  }

  /** With clients that answer only prompts they have seen, the answer taken for a
      prompt is the first one sent for it: nothing stale, nothing left over from an
      earlier prompt, nothing sent twice. No message sent before the prompt was
      posted carries its id. */
  lemma AskedIsFirst<V>(h: Hub<V>)
    requires Valid(h)
    ensures Valid(Asked(h).hub) && Continues(h, Asked(h).hub) && Asked(h).hub.posted == h.posted + 1
    ensures Honest(Asked(h).hub) ==> FirstAnswer(h.sent, h.posted + 1).None?
    ensures Asked(h).Answer? && Honest(Asked(h).hub) ==>
              FirstAnswer(Asked(h).hub.sent, h.posted + 1) == Some(Asked(h).value)
  {
    var p := h.(posted := h.posted + 1);
    AwaitedContinues(p);
    if Honest(Asked(h).hub) {
      HonestBefore(p, Asked(h).hub);
      forall s | s in h.sent && s.msg.Submit?
        ensures s.msg.id != p.posted
      {
        assert s.msg.id <= s.posted;
      }
      FirstAnswerNone(h.sent, p.posted);
      FirstAnswerNone(h.sent[..h.taken], p.posted);
      AwaitedIsFirst(p);
    }
  }

  lemma {:induction false} AwaitedContinues<V>(h: Hub<V>)
    requires Valid(h)
    ensures Valid(Awaited(h).hub) && Continues(h, Awaited(h).hub) && Awaited(h).hub.posted == h.posted
    decreases |h.arrivals|
  {
    if h.arrivals != [] {
      var h1 := Arrive(h);
      ArriveFacts(h);
      if h1.taken >= |h1.sent| {
        AwaitedContinues(h1);
      } else {
        AwaitedContinues(h1.(taken := h1.taken + 1));
      }
    }
  }

  lemma {:induction false} ChosenContinues<V>(h: Hub<V>)
    requires Valid(h)
    ensures Valid(Chosen(h).1) && Continues(h, Chosen(h).1)
    decreases |h.arrivals|
  {
    if h.arrivals != [] {
      var h1 := Arrive(h);
      ArriveFacts(h);
      if h1.taken >= |h1.sent| {
        ChosenContinues(h1);
      } else if !h1.sent[h1.taken].msg.Edit? {
        ChosenContinues(h1.(taken := h1.taken + 1));
      }
    }
  }

  /** The honesty of clients is needed: an answer guessed ahead of its prompt and
      read while another prompt is up is dropped, and a later one is taken. */
  lemma GuessedAnswerIsDropped()
    ensures exists h: Hub<string> ::
              && Valid(h) && Asked(h).Answer? && !Honest(Asked(h).hub)
              && FirstAnswer(Asked(h).hub.sent, Asked(h).hub.posted) != Some(Asked(h).value)
  {
    var guess := Sent(Submit(1, "guess"), 0);
    var h := Hub(0, 1, [guess], [[Submit(1, "real")]]);
    var p := h.(posted := 1);
    var h1 := Arrive(p);
    assert h1.sent == [guess, Sent(Submit(1, "real"), 1)];
    assert Awaited(p) == Answer("real", h1.(taken := 2));
    assert h1.sent[..1] == [guess] && [guess][..0] == [];
    assert FirstAnswer([guess], 1) == Some("guess");
    FirstAnswerKept([guess], h1.sent, 1);
    assert guess in h1.sent;
    assert Valid(h) && Asked(h) == Awaited(p);
  }

  // --- the hub as the daemons use it ---------------------------------------------------

  /** What the disk manager asks for. The secret daemon asks for forms, and shows which on
      its screen. */
  datatype PromptKind = UnlockPassphrase | NewPassphrase | RepeatPassphrase | Confirm

  class Ui<V> {
    var kinds: map<nat, PromptKind>
    var posted: nat
    var taken: nat
    var sent: seq<Sent<V>>
    var arrivals: seq<seq<Msg<V>>>

    function State(): Hub<V>
      reads this
    {
      Hub(posted, taken, sent, arrivals)
    }

    constructor (arrivals: seq<seq<Msg<V>>>)
      ensures State() == Hub(0, 0, [], arrivals) && kinds == map[]
    {
      this.posted, this.taken, this.sent, this.arrivals, this.kinds := 0, 0, [], arrivals, map[];
    }

    /** Wait for the answer to prompt `posted`; None when power is lost first. */
    method WaitForSubmission() returns (r: Option<V>)
      modifies this`taken, this`sent, this`arrivals
      ensures Awaited(old(State())) == if r.Some? then Answer(r.value, State()) else NoAnswer(State())
    {
      while arrivals != []
        invariant Awaited(State()) == Awaited(old(State()))
        decreases |arrivals|
      {
        sent, arrivals := sent + Stamp(arrivals[0], posted), arrivals[1..];
        if taken < |sent| {
          var msg := sent[taken].msg;
          taken := taken + 1;
          if msg.Submit? && msg.id == posted {
            return Some(msg.value);
          }
        }
      }
      return None;
    }

    method Ask(kind: PromptKind) returns (r: Option<V>)
      modifies this
      ensures Asked(old(State())) == if r.Some? then Answer(r.value, State()) else NoAnswer(State())
      ensures kinds == old(kinds)[old(posted) + 1 := kind]
    {
      posted := posted + 1;
      kinds := kinds[posted := kind];
      r := WaitForSubmission();
    }

    method WaitForChoice() returns (r: Option<string>)
      modifies this`taken, this`sent, this`arrivals
      ensures Chosen(old(State())) == (r, State())
    {
      while arrivals != []
        invariant Chosen(State()) == Chosen(old(State()))
        decreases |arrivals|
      {
        sent, arrivals := sent + Stamp(arrivals[0], posted), arrivals[1..];
        if taken < |sent| {
          var msg := sent[taken].msg;
          taken := taken + 1;
          if msg.Edit? {
            return Some(msg.secret);
          }
        }
      }
      return None;
    }
  }
}
