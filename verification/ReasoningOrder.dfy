/** Which event may follow which in a reasoning run (crates/vyrm-core/src/reasoning.rs). */
module ReasoningOrder {
  import opened Common
  import opened Reasoning

  ghost predicate EveryCheckPassed(p: Payload)
    requires p.Verification?
  {
    forall i :: 0 <= i < |p.checks| ==> p.checks[i].status == Passed
  }

  /**
   The next payload, by what came last: a goal, a plan, then attempts with their observations and decisions; a decision
   other than to continue is verified; a verification that passed leaves only an outcome, one that failed another
   attempt, or stopping with an outcome that is no success.
   */
  ghost predicate MayFollow(events: seq<Event>, p: Payload) {
    if events == [] then p.Goal?
    else
      var n := |events| - 1;
      match events[n].payload
      case Goal(_, _) => p.Plan?
      case Plan(_, _) => p.Attempt?
      case Attempt(_, _) => p.Observation?
      case Observation(_, _) => p.Decision?
      case Decision(Continue, _) => p.Attempt?
      case Decision(_, _) =>
        if n > 0 && events[n - 1].payload.Verification? then p.Outcome? && p.outcome != Succeeded else p.Verification?
      case Verification(_) =>
        if EveryCheckPassed(events[n].payload) then p.Outcome? else p.Decision? && p.decision != Verify
      case Outcome(_, _) => false
  }

  /** What a run remembers, in terms of its last events. */
  ghost predicate Remembers(r: Run) {
    if r.events == [] then r.state == Empty
    else
      var n := |r.events| - 1;
      match r.events[n].payload
      case Goal(_, _) => r.state == NeedsPlan
      case Plan(_, _) => r.state == NeedsAttempt
      case Attempt(_, _) => r.state == NeedsObservation
      case Observation(_, _) => r.state == NeedsDecision
      case Decision(Continue, _) => r.state == NeedsAttempt
      case Decision(kind, _) =>
        if n > 0 && r.events[n - 1].payload.Verification?
        then kind == Stop && r.state == NeedsOutcome && r.lastVerificationPassed == Some(false)
        else r.state == NeedsVerification
      case Verification(_) =>
        if EveryCheckPassed(r.events[n].payload) then r.state == NeedsOutcome && r.lastVerificationPassed == Some(true)
        else r.state == NeedsPostVerificationDecision && r.lastVerificationPassed == Some(false)
      case Outcome(_, _) => r.state == Complete
  }

  lemma TransitionIff(r: Run, p: Payload)
    requires Remembers(r)
    ensures Transition(r.state, r.lastVerificationPassed, p).Some? <==> MayFollow(r.events, p)
  {
  }

  lemma AppendRemembers(r: Run, i: Input)
    requires Remembers(r) && AppendTo(r, i).Some?
    ensures Remembers(AppendTo(r, i).value)
  {
    hide ValidPayload;
    hide ValidText;
    hide EventDigest;
  }

  lemma {:induction false} BuildRemembers(id: Text, inputs: seq<Input>)
    requires Build(id, inputs).Some?
    ensures Remembers(Build(id, inputs).value)
  {
    hide AppendTo;
    hide Remembers;
    if inputs == [] {
      EmptyRemembers(id);
    } else {
      BuildRemembers(id, inputs[..|inputs| - 1]);
      AppendRemembers(Build(id, inputs[..|inputs| - 1]).value, inputs[|inputs| - 1]);
    }
  }

  lemma EmptyRemembers(id: Text)
    requires EmptyRun(id).Some?
    ensures Remembers(EmptyRun(id).value)
  {
    hide ValidText;
  }

  /**
   In every run, an event with valid fields that is not earlier than the last is accepted if and only if it may follow
   the history so far.
   */
  lemma AcceptedIffFollows(id: Text, inputs: seq<Input>, next: Input)
    requires Build(id, inputs).Some?
    ensures var r := Build(id, inputs).value;
            AppendTo(r, next).Some? <==>
            && ValidText(next.actor) && ValidPayload(next.payload) && MayFollow(r.events, next.payload)
            && (r.events != [] ==> r.events[|r.events| - 1].at <= next.at)
  {
    hide ValidPayload;
    hide ValidText;
    hide EventDigest;
    hide Build;
    BuildRemembers(id, inputs);
    TransitionIff(Build(id, inputs).value, next.payload);
    hide MayFollow;
    hide Transition;
    hide Remembers;
  }

  lemma FrontAppends(id: Text, inputs: seq<Input>, k: nat)
    requires Build(id, inputs).Some? && k < |inputs|
    ensures Build(id, inputs[..k]).Some? && AppendTo(Build(id, inputs[..k]).value, inputs[k]).Some?
    ensures var events := Build(id, inputs).value.events;
            && |events| == |inputs| && events[..k] == Build(id, inputs[..k]).value.events
            && events[k] == NextEvent(Build(id, inputs[..k]).value, inputs[k])
  {
    hide AppendTo;
    hide NextEvent;
    hide EmptyRun;
    BuildShape(id, inputs);
    assert inputs[..k + 1][..k] == inputs[..k];
    if k + 1 == |inputs| { assert inputs[..k + 1] == inputs; }
  }

  /** So in every run each event follows what came before it, and times never go back. */
  lemma EveryEventFollows(id: Text, inputs: seq<Input>, k: nat)
    requires Build(id, inputs).Some? && k < |inputs|
    ensures var events := Build(id, inputs).value.events;
            && |events| == |inputs| && MayFollow(events[..k], events[k].payload)
            && (k > 0 ==> events[k - 1].at <= events[k].at)
            && events[k].payload == inputs[k].payload && events[k].actor == inputs[k].actor &&
               events[k].at == inputs[k].at
  {
    hide MayFollow;
    hide AppendTo;
    hide NextEvent;
    hide Build;
    hide ValidPayload;
    hide ValidText;
    FrontAppends(id, inputs, k);
    AcceptedIffFollows(id, inputs[..k], inputs[k]);
    NextEventFields(Build(id, inputs[..k]).value, inputs[k]);
  }

  lemma NextEventFields(r: Run, i: Input)
    ensures var e := NextEvent(r, i); e.payload == i.payload && e.actor == i.actor && e.at == i.at
  {
    hide EventDigest;
  }

  // ---- Valid fields ----

  /** Something is left when white space is trimmed. */
  ghost predicate Says(t: Text) {
    exists i :: 0 <= i < |t| && t[i] != 32 && !(9 <= t[i] <= 13)
  }

  ghost predicate AllSay(ts: seq<Text>) {
    forall i :: 0 <= i < |ts| ==> Says(ts[i])
  }

  /** Evidence names its source, sums up, and carries a digest of sixty-four hexadecimal digits. */
  ghost predicate Evident(es: seq<Evidence>) {
    && |es| > 0
    && forall i :: 0 <= i < |es| ==>
         && Says(es[i].source) && Says(es[i].summary) && |es[i].digest| == 64
         && forall j :: 0 <= j < 64 ==>
              var b := es[i].digest[j]; (48 <= b <= 57) || (65 <= b <= 70) || (97 <= b <= 102)
  }

  /** What each kind of payload must contain. */
  ghost predicate Filled(p: Payload) {
    match p
    case Goal(statement, acceptance) => Says(statement) && |acceptance| > 0 && AllSay(acceptance)
    case Plan(hypothesis, steps) => Says(hypothesis) && |steps| > 0 && AllSay(steps)
    case Attempt(summary, actions) => Says(summary) && AllSay(actions)
    case Observation(summary, evidence) => Says(summary) && Evident(evidence)
    case Decision(_, rationale) => Says(rationale)
    case Verification(checks) =>
      |checks| > 0 && forall i :: 0 <= i < |checks| ==> Says(checks[i].name) && Evident(checks[i].evidence)
    case Outcome(_, summary) => Says(summary)
  }

  lemma FilledIff(p: Payload)
    ensures ValidPayload(p) <==> Filled(p)
  {
    forall t: Text ensures ValidText(t) <==> Says(t) { SaysIff(t); }
    hide ValidText;
    hide Says;
  }

  lemma SaysIff(t: Text)
    ensures ValidText(t) <==> Says(t)
  {
    if i :| 0 <= i < |t| && t[i] != 32 && !(9 <= t[i] <= 13) { assert !IsSpace(t[i]); }
    if i :| 0 <= i < |t| && !IsSpace(t[i]) { assert t[i] != 32 && !(9 <= t[i] <= 13); }
  }

  // ---- One encoding ----

  lemma EightByteNumbers()
    ensures Num(0) == [0, 0, 0, 0, 0, 0, 0, 0] && Num(1) == [0, 0, 0, 0, 0, 0, 0, 1] &&
            Num(2) == [0, 0, 0, 0, 0, 0, 0, 2]
    ensures Num(258) == [0, 0, 0, 0, 0, 0, 1, 2]
  {
  }

  /** Everything hashed before the previous digest. */
  function FrontBytes(runId: Text, ordinal: nat, at: nat, actor: Text, p: Payload): Bytes {
    EVENT_TAG + TextBytes(runId) + Num(ordinal) + Num(at) + TextBytes(actor) + PayloadBytes(p)
  }

  lemma Regroup(a: Bytes, b: Bytes, c: Bytes, d: Bytes, e: Bytes, f: Bytes, g: Bytes)
    ensures a + (b + (c + (d + (e + (f + g))))) == a + b + c + d + e + f + g
  {
    AppendAssoc(a, b, c + (d + (e + (f + g))));
    AppendAssoc(a + b, c, d + (e + (f + g)));
    AppendAssoc(a + b + c, d, e + (f + g));
    AppendAssoc(a + b + c + d, e, f + g);
    AppendAssoc(a + b + c + d + e, f, g);
  }

  /** The hashed bytes end with a flag and, after the first event, the length and text of the digest before. */
  lemma PreviousIsLast(runId: Text, ordinal: nat, at: nat, actor: Text, p: Payload, previous: Text)
    ensures EventBytes(runId, ordinal, at, actor, p, None) == FrontBytes(runId, ordinal, at, actor, p) + [0]
    ensures EventBytes(runId, ordinal, at, actor, p, Some(previous)) ==
            FrontBytes(runId, ordinal, at, actor, p) + ([1] + (BigEndian(|previous|, 8) + previous))
  {
    hide PayloadBytes;
    hide BigEndian;
    Regroup(EVENT_TAG, TextBytes(runId), Num(ordinal), Num(at), TextBytes(actor), PayloadBytes(p), [0]);
    Regroup(EVENT_TAG, TextBytes(runId), Num(ordinal), Num(at), TextBytes(actor), PayloadBytes(p),
            [1] + (BigEndian(|previous|, 8) + previous));
    assert TextBytes(previous) == BigEndian(|previous|, 8) + previous;
    hide TextBytes;
    hide Num;
  }

  /** The bytes hashed for a first event: run "r", place 1, instant 258, actor "a", and the decision to verify, "go". */
  lemma DecisionBytes()
    ensures EventBytes([114], 1, 258, [97], Decision(Verify, [103, 111]), None) ==
            [118, 121, 114, 109, 45, 114, 101, 97, 115, 111, 110, 105, 110, 103, 45, 101, 118, 101, 110, 116, 45, 118,
             49, 0]
            + [0, 0, 0, 0, 0, 0, 0, 1, 114] + [0, 0, 0, 0, 0, 0, 0, 1] + [0, 0, 0, 0, 0, 0, 1, 2]
            + [0, 0, 0, 0, 0, 0, 0, 1, 97] + [4, 1, 0, 0, 0, 0, 0, 0, 0, 2, 103, 111] + [0]
  {
    var p := Decision(Verify, [103, 111]);
    PreviousIsLast([114], 1, 258, [97], p, []);
    EightByteNumbers();
    SmallTexts();
    hide EventBytes;
    hide Num;
    hide TextBytes;
    hide PayloadBytes;
  }

  lemma SmallTexts()
    ensures TextBytes([114]) == [0, 0, 0, 0, 0, 0, 0, 1, 114] && TextBytes([97]) == [0, 0, 0, 0, 0, 0, 0, 1, 97]
    ensures PayloadBytes(Decision(Verify, [103, 111])) == [4, 1, 0, 0, 0, 0, 0, 0, 0, 2, 103, 111]
  {
    EightByteNumbers();
    hide Num;
  }
}
