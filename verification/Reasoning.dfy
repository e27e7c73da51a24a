/** The hash-chained reasoning run (crates/vyrm-core/src/reasoning.rs). */
module Reasoning {
  import opened Common
  import HexDigest

  type Text = Bytes

  datatype Evidence = Evidence(source: Text, digest: Text, summary: Text)

  datatype CheckStatus = Passed | FailedCheck

  datatype Check = Check(name: Text, status: CheckStatus, evidence: seq<Evidence>)

  datatype DecisionKind = Continue | Verify | Stop

  datatype RunOutcome = Succeeded | Failed | Blocked

  datatype Payload =
    | Goal(statement: Text, acceptance: seq<Text>)
    | Plan(hypothesis: Text, steps: seq<Text>)
    | Attempt(summary: Text, actions: seq<Text>)
    | Observation(summary: Text, evidence: seq<Evidence>)
    | Decision(decision: DecisionKind, rationale: Text)
    | Verification(checks: seq<Check>)
    | Outcome(outcome: RunOutcome, summary: Text)

  datatype Event = Event(runId: Text, ordinal: nat, at: nat, actor: Text, payload: Payload, previous: Option<Text>,
                         digest: Text)

  datatype State =
    | Empty | NeedsPlan | NeedsAttempt | NeedsObservation | NeedsDecision | NeedsVerification
    | NeedsPostVerificationDecision | NeedsOutcome | Complete

  datatype Run = Run(id: Text, events: seq<Event>, state: State, lastVerificationPassed: Option<bool>)

  // ---- Validation ----

  predicate IsHex(b: Byte) {
    48 <= b <= 57 || 65 <= b <= 70 || 97 <= b <= 102
  }

  predicate ValidEvidence(e: Evidence) {
    ValidText(e.source) && ValidText(e.summary) && |e.digest| == 64 && forall i :: 0 <= i < 64 ==> IsHex(e.digest[i])
  }

  predicate ValidPayload(p: Payload) {
    match p
    case Goal(statement, acceptance) =>
      ValidText(statement) && acceptance != [] && forall i :: 0 <= i < |acceptance| ==> ValidText(acceptance[i])
    case Plan(hypothesis, steps) => ValidText(hypothesis) && steps != [] && forall i :: 0 <= i < |steps| ==>
      ValidText(steps[i])
    case Attempt(summary, actions) => ValidText(summary) && forall i :: 0 <= i < |actions| ==> ValidText(actions[i])
    case Observation(summary, evidence) =>
      ValidText(summary) && evidence != [] && forall i :: 0 <= i < |evidence| ==> ValidEvidence(evidence[i])
    case Decision(_, rationale) => ValidText(rationale)
    case Verification(checks) =>
      checks != [] && forall i :: 0 <= i < |checks| ==>
        ValidText(checks[i].name) && checks[i].evidence != [] &&
        forall j :: 0 <= j < |checks[i].evidence| ==> ValidEvidence(checks[i].evidence[j])
    case Outcome(_, summary) => ValidText(summary)
  }

  predicate AllPassed(checks: seq<Check>) {
    forall i :: 0 <= i < |checks| ==> checks[i].status == Passed
  }

  // ---- The state machine ----

  function Transition(state: State, lastPassed: Option<bool>, p: Payload): Option<State> {
    match (state, p)
    case (Empty, Goal(_, _)) => Some(NeedsPlan)
    case (NeedsPlan, Plan(_, _)) => Some(NeedsAttempt)
    case (NeedsAttempt, Attempt(_, _)) => Some(NeedsObservation)
    case (NeedsObservation, Observation(_, _)) => Some(NeedsDecision)
    case (NeedsDecision, Decision(kind, _)) => if kind == Continue then Some(NeedsAttempt) else Some(NeedsVerification)
    case (NeedsVerification, Verification(checks)) => if AllPassed(checks) then Some(NeedsOutcome)
      else Some(NeedsPostVerificationDecision)
    case (NeedsPostVerificationDecision, Decision(kind, _)) =>
      if kind == Continue then Some(NeedsAttempt) else if kind == Stop then Some(NeedsOutcome) else None
    case (NeedsOutcome, Outcome(outcome, _)) =>
      if lastPassed == Some(true) || (lastPassed == Some(false) && outcome != Succeeded) then Some(Complete) else None
    case _ => None
  }

  // ---- The event encoding ----

  const U64_BOUND: nat := 0x1_0000_0000_0000_0000

  // "vyrm-reasoning-event-v1" and a zero byte
  const EVENT_TAG: Bytes :=
      [118, 121, 114, 109, 45, 114, 101, 97, 115, 111, 110, 105, 110, 103, 45, 101, 118, 101, 110, 116, 45, 118, 49, 0]

  function Num(n: nat): (b: Bytes)
    ensures |b| == 8
  {
    BigEndian(n, 8)
  }

  function TextBytes(t: Text): Bytes {
    Num(|t|) + t
  }

  function TextItems(ts: seq<Text>): Bytes {
    if ts == [] then [] else TextBytes(ts[0]) + TextItems(ts[1..])
  }

  function TextsBytes(ts: seq<Text>): Bytes {
    Num(|ts|) + TextItems(ts)
  }

  function OneEvidence(e: Evidence): Bytes {
    TextBytes(e.source) + (TextBytes(e.digest) + TextBytes(e.summary))
  }

  function EvidenceItems(es: seq<Evidence>): Bytes {
    if es == [] then [] else OneEvidence(es[0]) + EvidenceItems(es[1..])
  }

  function EvidenceBytes(es: seq<Evidence>): Bytes {
    Num(|es|) + EvidenceItems(es)
  }

  function OneCheck(c: Check): Bytes {
    TextBytes(c.name) + ([if c.status == Passed then 0 else 1] + EvidenceBytes(c.evidence))
  }

  function CheckItems(cs: seq<Check>): Bytes {
    if cs == [] then [] else OneCheck(cs[0]) + CheckItems(cs[1..])
  }

  function PayloadBytes(p: Payload): Bytes {
    match p
    case Goal(statement, acceptance) => [0] + (TextBytes(statement) + TextsBytes(acceptance))
    case Plan(hypothesis, steps) => [1] + (TextBytes(hypothesis) + TextsBytes(steps))
    case Attempt(summary, actions) => [2] + (TextBytes(summary) + TextsBytes(actions))
    case Observation(summary, evidence) => [3] + (TextBytes(summary) + EvidenceBytes(evidence))
    case Decision(decision, rationale) =>
      [4] + ([match decision case Continue => 0 case Verify => 1 case Stop => 2] + TextBytes(rationale))
    case Verification(checks) => [5] + (Num(|checks|) + CheckItems(checks))
    case Outcome(outcome, summary) =>
      [6] + ([match outcome case Succeeded => 0 case Failed => 1 case Blocked => 2] + TextBytes(summary))
  }

  /** A flag and, after the first event, the digest of the event before. */
  function PreviousBytes(previous: Option<Text>): Bytes {
    match previous
    case None => [0]
    case Some(digest) => [1] + TextBytes(digest)
  }

  /** Everything an event's digest covers. */
  function EventBytes(runId: Text, ordinal: nat, at: nat, actor: Text, p: Payload, previous: Option<Text>): Bytes {
    EVENT_TAG + (TextBytes(runId)
                 + (Num(ordinal) + (Num(at) + (TextBytes(actor) + (PayloadBytes(p) + PreviousBytes(previous))))))
  }

  function BytesOf(e: Event): Bytes {
    EventBytes(e.runId, e.ordinal, e.at, e.actor, e.payload, e.previous)
  }

  /** `event_digest`. */
  function EventDigest(runId: Text, ordinal: nat, at: nat, actor: Text, p: Payload, previous: Option<Text>): (d: Text)
    ensures |d| == 64
  {
    HexDigest.Sha256Hex(EventBytes(runId, ordinal, at, actor, p, previous))
  }

  // Every length and number fits the eight bytes it is written in.

  predicate Fits(t: Text) {
    |t| < U64_BOUND
  }

  predicate TextsFit(ts: seq<Text>) {
    |ts| < U64_BOUND && forall i :: 0 <= i < |ts| ==> Fits(ts[i])
  }

  predicate EvidenceFits(es: seq<Evidence>) {
    |es| < U64_BOUND && forall i :: 0 <= i < |es| ==> Fits(es[i].source) && Fits(es[i].digest) && Fits(es[i].summary)
  }

  predicate ChecksFit(cs: seq<Check>) {
    |cs| < U64_BOUND && forall i :: 0 <= i < |cs| ==> Fits(cs[i].name) && EvidenceFits(cs[i].evidence)
  }

  predicate PayloadFits(p: Payload) {
    match p
    case Goal(statement, acceptance) => Fits(statement) && TextsFit(acceptance)
    case Plan(hypothesis, steps) => Fits(hypothesis) && TextsFit(steps)
    case Attempt(summary, actions) => Fits(summary) && TextsFit(actions)
    case Observation(summary, evidence) => Fits(summary) && EvidenceFits(evidence)
    case Decision(_, rationale) => Fits(rationale)
    case Verification(checks) => ChecksFit(checks)
    case Outcome(_, summary) => Fits(summary)
  }

  predicate EventFits(e: Event) {
    && Fits(e.runId) && e.ordinal < U64_BOUND && e.at < U64_BOUND && Fits(e.actor) && PayloadFits(e.payload)
    && (e.previous.Some? ==> Fits(e.previous.value))
  }

  // ---- Every field can be read back, so equal bytes mean equal fields ----

  lemma NumSplit(m: nat, r: Bytes, n: nat, s: Bytes)
    requires m < U64_BOUND && n < U64_BOUND && Num(m) + r == Num(n) + s
    ensures m == n && r == s
  {
    AppendCancel(Num(m), r, Num(n), s);
    Pow256Of8();
    BigEndianInjective(m, n, 8);
  }

  lemma TextSplit(t: Text, r: Bytes, u: Text, s: Bytes)
    requires Fits(t) && Fits(u) && TextBytes(t) + r == TextBytes(u) + s
    ensures t == u && r == s
  {
    hide Num;
    AppendAssoc(Num(|t|), t, r);
    AppendAssoc(Num(|u|), u, s);
    NumSplit(|t|, t + r, |u|, u + s);
    AppendCancel(t, r, u, s);
  }

  lemma {:induction false} TextItemsSplit(ts: seq<Text>, r: Bytes, us: seq<Text>, s: Bytes)
    requires |ts| == |us| && TextsFit(ts) && TextsFit(us) && TextItems(ts) + r == TextItems(us) + s
    ensures ts == us && r == s
  {
    hide TextBytes;
    if ts == [] {
      assert [] + r == r && [] + s == s;
    } else {
      AppendAssoc(TextBytes(ts[0]), TextItems(ts[1..]), r);
      AppendAssoc(TextBytes(us[0]), TextItems(us[1..]), s);
      TextSplit(ts[0], TextItems(ts[1..]) + r, us[0], TextItems(us[1..]) + s);
      TextItemsSplit(ts[1..], r, us[1..], s);
      assert ts == [ts[0]] + ts[1..] && us == [us[0]] + us[1..];
    }
  }

  lemma TextsSplit(ts: seq<Text>, r: Bytes, us: seq<Text>, s: Bytes)
    requires TextsFit(ts) && TextsFit(us) && TextsBytes(ts) + r == TextsBytes(us) + s
    ensures ts == us && r == s
  {
    hide Num;
    hide TextItems;
    AppendAssoc(Num(|ts|), TextItems(ts), r);
    AppendAssoc(Num(|us|), TextItems(us), s);
    NumSplit(|ts|, TextItems(ts) + r, |us|, TextItems(us) + s);
    TextItemsSplit(ts, r, us, s);
  }

  lemma OneEvidenceSplit(d: Evidence, r: Bytes, e: Evidence, s: Bytes)
    requires EvidenceFits([d]) && EvidenceFits([e]) && OneEvidence(d) + r == OneEvidence(e) + s
    ensures d == e && r == s
  {
    hide TextBytes;
    assert [d][0] == d && [e][0] == e;
    var (a, b, c) := (TextBytes(d.source), TextBytes(d.digest), TextBytes(d.summary));
    var (x, y, z) := (TextBytes(e.source), TextBytes(e.digest), TextBytes(e.summary));
    assert OneEvidence(d) + r == a + (b + (c + r)) && OneEvidence(e) + s == x + (y + (z + s));
    TextSplit(d.source, b + (c + r), e.source, y + (z + s));
    TextSplit(d.digest, c + r, e.digest, z + s);
    TextSplit(d.summary, r, e.summary, s);
  }

  lemma {:induction false} EvidenceItemsSplit(ds: seq<Evidence>, r: Bytes, es: seq<Evidence>, s: Bytes)
    requires |ds| == |es| && EvidenceFits(ds) && EvidenceFits(es) && EvidenceItems(ds) + r == EvidenceItems(es) + s
    ensures ds == es && r == s
  {
    hide OneEvidence;
    if ds == [] {
      assert [] + r == r && [] + s == s;
    } else {
      AppendAssoc(OneEvidence(ds[0]), EvidenceItems(ds[1..]), r);
      AppendAssoc(OneEvidence(es[0]), EvidenceItems(es[1..]), s);
      OneEvidenceSplit(ds[0], EvidenceItems(ds[1..]) + r, es[0], EvidenceItems(es[1..]) + s);
      EvidenceItemsSplit(ds[1..], r, es[1..], s);
      assert ds == [ds[0]] + ds[1..] && es == [es[0]] + es[1..];
    }
  }

  lemma EvidenceSplit(ds: seq<Evidence>, r: Bytes, es: seq<Evidence>, s: Bytes)
    requires EvidenceFits(ds) && EvidenceFits(es) && EvidenceBytes(ds) + r == EvidenceBytes(es) + s
    ensures ds == es && r == s
  {
    hide Num;
    hide EvidenceItems;
    AppendAssoc(Num(|ds|), EvidenceItems(ds), r);
    AppendAssoc(Num(|es|), EvidenceItems(es), s);
    NumSplit(|ds|, EvidenceItems(ds) + r, |es|, EvidenceItems(es) + s);
    EvidenceItemsSplit(ds, r, es, s);
  }

  lemma OneCheckSplit(c: Check, r: Bytes, d: Check, s: Bytes)
    requires ChecksFit([c]) && ChecksFit([d]) && OneCheck(c) + r == OneCheck(d) + s
    ensures c == d && r == s
  {
    hide TextBytes;
    hide EvidenceBytes;
    assert [c][0] == c && [d][0] == d;
    var flagC: Bytes, flagD: Bytes := [if c.status == Passed then 0 else 1], [if d.status == Passed then 0 else 1];
    var restC, restD := EvidenceBytes(c.evidence) + r, EvidenceBytes(d.evidence) + s;
    assert OneCheck(c) + r == TextBytes(c.name) + (flagC + restC) &&
           OneCheck(d) + s == TextBytes(d.name) + (flagD + restD);
    TextSplit(c.name, flagC + restC, d.name, flagD + restD);
    AppendCancel(flagC, restC, flagD, restD);
    EvidenceSplit(c.evidence, r, d.evidence, s);
  }

  lemma {:induction false} CheckItemsSplit(cs: seq<Check>, r: Bytes, ds: seq<Check>, s: Bytes)
    requires |cs| == |ds| && ChecksFit(cs) && ChecksFit(ds) && CheckItems(cs) + r == CheckItems(ds) + s
    ensures cs == ds && r == s
  {
    hide OneCheck;
    if cs == [] {
      assert [] + r == r && [] + s == s;
    } else {
      AppendAssoc(OneCheck(cs[0]), CheckItems(cs[1..]), r);
      AppendAssoc(OneCheck(ds[0]), CheckItems(ds[1..]), s);
      OneCheckSplit(cs[0], CheckItems(cs[1..]) + r, ds[0], CheckItems(ds[1..]) + s);
      CheckItemsSplit(cs[1..], r, ds[1..], s);
      assert cs == [cs[0]] + cs[1..] && ds == [ds[0]] + ds[1..];
    }
  }

  lemma TextThenTexts(t: Text, ts: seq<Text>, r: Bytes, u: Text, us: seq<Text>, s: Bytes)
    requires Fits(t) && Fits(u) && TextsFit(ts) && TextsFit(us)
    requires (TextBytes(t) + TextsBytes(ts)) + r == (TextBytes(u) + TextsBytes(us)) + s
    ensures t == u && ts == us && r == s
  {
    hide TextBytes;
    hide TextsBytes;
    AppendAssoc(TextBytes(t), TextsBytes(ts), r);
    AppendAssoc(TextBytes(u), TextsBytes(us), s);
    TextSplit(t, TextsBytes(ts) + r, u, TextsBytes(us) + s);
    TextsSplit(ts, r, us, s);
  }

  lemma TextThenEvidence(t: Text, ds: seq<Evidence>, r: Bytes, u: Text, es: seq<Evidence>, s: Bytes)
    requires Fits(t) && Fits(u) && EvidenceFits(ds) && EvidenceFits(es)
    requires (TextBytes(t) + EvidenceBytes(ds)) + r == (TextBytes(u) + EvidenceBytes(es)) + s
    ensures t == u && ds == es && r == s
  {
    hide TextBytes;
    hide EvidenceBytes;
    AppendAssoc(TextBytes(t), EvidenceBytes(ds), r);
    AppendAssoc(TextBytes(u), EvidenceBytes(es), s);
    TextSplit(t, EvidenceBytes(ds) + r, u, EvidenceBytes(es) + s);
    EvidenceSplit(ds, r, es, s);
  }

  lemma FlagThenText(x: Byte, t: Text, r: Bytes, y: Byte, u: Text, s: Bytes)
    requires Fits(t) && Fits(u) && ([x] + TextBytes(t)) + r == ([y] + TextBytes(u)) + s
    ensures x == y && t == u && r == s
  {
    hide TextBytes;
    AppendAssoc([x], TextBytes(t), r);
    AppendAssoc([y], TextBytes(u), s);
    AppendCancel([x], TextBytes(t) + r, [y], TextBytes(u) + s);
    TextSplit(t, r, u, s);
  }

  lemma NumThenChecks(cs: seq<Check>, r: Bytes, ds: seq<Check>, s: Bytes)
    requires ChecksFit(cs) && ChecksFit(ds) && (Num(|cs|) + CheckItems(cs)) + r == (Num(|ds|) + CheckItems(ds)) + s
    ensures cs == ds && r == s
  {
    hide Num;
    hide CheckItems;
    AppendAssoc(Num(|cs|), CheckItems(cs), r);
    AppendAssoc(Num(|ds|), CheckItems(ds), s);
    NumSplit(|cs|, CheckItems(cs) + r, |ds|, CheckItems(ds) + s);
    CheckItemsSplit(cs, r, ds, s);
  }

  /** The kind of a payload is its first byte. */
  lemma PayloadKind(p: Payload, r: Bytes, q: Payload, s: Bytes)
    requires PayloadBytes(p) + r == PayloadBytes(q) + s
    ensures p.Goal? == q.Goal? && p.Plan? == q.Plan? && p.Attempt? == q.Attempt? && p.Observation? == q.Observation?
    ensures p.Decision? == q.Decision? && p.Verification? == q.Verification? && p.Outcome? == q.Outcome?
    ensures PayloadBytes(p)[1..] + r == PayloadBytes(q)[1..] + s
  {
    hide TextBytes;
    hide TextsBytes;
    hide EvidenceBytes;
    hide CheckItems;
    hide Num;
    var x, y := PayloadBytes(p), PayloadBytes(q);
    assert (x + r)[0] == x[0] && (y + s)[0] == y[0];
    assert (x + r)[1..] == x[1..] + r && (y + s)[1..] == y[1..] + s;
  }

  /** A payload's encoding ends where it says: what follows it can be told apart. */
  lemma PayloadSplit(p: Payload, r: Bytes, q: Payload, s: Bytes)
    requires PayloadFits(p) && PayloadFits(q) && PayloadBytes(p) + r == PayloadBytes(q) + s
    ensures p == q && r == s
  {
    hide TextBytes;
    hide TextsBytes;
    hide EvidenceBytes;
    hide CheckItems;
    hide Num;
    hide Fits;
    hide TextsFit;
    hide EvidenceFits;
    hide ChecksFit;
    PayloadKind(p, r, q, s);
    match p
    case Goal(statement, acceptance) => TextThenTexts(statement, acceptance, r, q.statement, q.acceptance, s);
    case Plan(hypothesis, steps) => TextThenTexts(hypothesis, steps, r, q.hypothesis, q.steps, s);
    case Attempt(summary, actions) => TextThenTexts(summary, actions, r, q.summary, q.actions, s);
    case Observation(summary, evidence) => TextThenEvidence(summary, evidence, r, q.summary, q.evidence, s);
    case Decision(decision, rationale) =>
      FlagThenText(match decision case Continue => 0 case Verify => 1 case Stop => 2, rationale, r,
                   match q.decision case Continue => 0 case Verify => 1 case Stop => 2, q.rationale, s);
    case Verification(checks) => NumThenChecks(checks, r, q.checks, s);
    case Outcome(outcome, summary) =>
      FlagThenText(match outcome case Succeeded => 0 case Failed => 1 case Blocked => 2, summary, r,
                   match q.outcome case Succeeded => 0 case Failed => 1 case Blocked => 2, q.summary, s);
  }

  lemma PreviousInjective(p: Option<Text>, q: Option<Text>)
    requires (p.Some? ==> Fits(p.value)) && (q.Some? ==> Fits(q.value)) && PreviousBytes(p) == PreviousBytes(q)
    ensures p == q
  {
    hide TextBytes;
    assert PreviousBytes(p)[0] == PreviousBytes(q)[0];
    if p.Some? {
      assert PreviousBytes(p)[1..] == TextBytes(p.value) && PreviousBytes(q)[1..] == TextBytes(q.value);
      assert TextBytes(p.value) + [] == TextBytes(q.value) + [];
      TextSplit(p.value, [], q.value, []);
    }
  }

  /** Events with the same encoding agree in every field the digest covers, the previous digest included. */
  lemma EncodingInjective(e: Event, f: Event)
    requires EventFits(e) && EventFits(f) && BytesOf(e) == BytesOf(f)
    ensures e.runId == f.runId && e.ordinal == f.ordinal && e.at == f.at && e.actor == f.actor && e.payload == f.payload
    ensures e.previous == f.previous
  {
    hide TextBytes;
    hide PayloadBytes;
    hide PreviousBytes;
    hide Num;
    hide PayloadFits;
    hide Fits;
    var e5, f5 := PayloadBytes(e.payload) + PreviousBytes(e.previous),
        PayloadBytes(f.payload) + PreviousBytes(f.previous);
    var e4, f4 := TextBytes(e.actor) + e5, TextBytes(f.actor) + f5;
    var e3, f3 := Num(e.at) + e4, Num(f.at) + f4;
    var e2, f2 := Num(e.ordinal) + e3, Num(f.ordinal) + f3;
    AppendCancel(EVENT_TAG, TextBytes(e.runId) + e2, EVENT_TAG, TextBytes(f.runId) + f2);
    TextSplit(e.runId, e2, f.runId, f2);
    NumSplit(e.ordinal, e3, f.ordinal, f3);
    NumSplit(e.at, e4, f.at, f4);
    TextSplit(e.actor, e5, f.actor, f5);
    PayloadSplit(e.payload, PreviousBytes(e.previous), f.payload, PreviousBytes(f.previous));
    PreviousInjective(e.previous, f.previous);
  }

  // ---- Appending and replaying ----

  function EmptyRun(id: Text): Option<Run> {
    if ValidText(id) && 0 !in id then Some(Run(id, [], Empty, None)) else None
  }

  datatype Input = Input(at: nat, actor: Text, payload: Payload)

  function NextEvent(r: Run, i: Input): Event {
    var previous := if r.events == [] then None else Some(r.events[|r.events| - 1].digest);
    var ordinal := |r.events| + 1;
    Event(r.id, ordinal, i.at, i.actor, i.payload, previous,
          EventDigest(r.id, ordinal, i.at, i.actor, i.payload, previous))
  }

  function AppendTo(r: Run, i: Input): Option<Run> {
    if !ValidText(i.actor) || (r.events != [] && i.at < r.events[|r.events| - 1].at) then None
    else if !ValidPayload(i.payload) then None
    else
      match Transition(r.state, r.lastVerificationPassed, i.payload)
      case None => None
      case Some(next) =>
        Some(Run(r.id, r.events + [NextEvent(r, i)], next,
                 if i.payload.Verification? then Some(AllPassed(i.payload.checks)) else r.lastVerificationPassed))
  }

  /** Every run the interface can build. */
  function Build(id: Text, inputs: seq<Input>): Option<Run> {
    if inputs == [] then EmptyRun(id)
    else
      match Build(id, inputs[..|inputs| - 1])
      case None => None
      case Some(r) => AppendTo(r, inputs[|inputs| - 1])
  }

  function InputOf(e: Event): Input {
    Input(e.at, e.actor, e.payload)
  }

  /** Replays stored events after the first `n`, comparing each with what appending it gives. */
  function ReplayUpTo(events: seq<Event>, n: nat): Option<Run>
    requires events != [] && n <= |events|
  {
    if n == 0 then EmptyRun(events[0].runId)
    else
      match ReplayUpTo(events, n - 1)
      case None => None
      case Some(r) =>
        if NextEvent(r, InputOf(events[n - 1])) != events[n - 1] then None else AppendTo(r, InputOf(events[n - 1]))
  }

  function ReplayEvents(events: seq<Event>): Option<Run> {
    if events == [] then None else ReplayUpTo(events, |events|)
  }

  class ReasoningRun {
    var id: Text
    var events: seq<Event>
    var state: State
    var lastVerificationPassed: Option<bool>

    ghost function View(): Run
      reads this
    {
      Run(id, events, state, lastVerificationPassed)
    }

    constructor (id: Text)
      requires EmptyRun(id).Some?
      ensures Some(View()) == EmptyRun(id)
    {
      this.id, events, state, lastVerificationPassed := id, [], Empty, None;
    }

    /** A refused event leaves the run as it was. */
    method Append(at: nat, actor: Text, payload: Payload) returns (event: Option<Event>)
      modifies this
      ensures event.Some? <==> AppendTo(old(View()), Input(at, actor, payload)).Some?
      ensures event.Some? ==> Some(View()) == AppendTo(old(View()), Input(at, actor, payload))
      ensures event.Some? ==> event.value == NextEvent(old(View()), Input(at, actor, payload))
      ensures event.None? ==> View() == old(View())
    {
      hide EventDigest;
      if !ValidText(actor) { return None; }
      if events != [] && at < events[|events| - 1].at { return None; }
      if !ValidPayload(payload) { return None; }
      var next := Transition(state, lastVerificationPassed, payload);
      if next.None? { return None; }
      var ordinal := |events| + 1;
      var previous := if events == [] then None else Some(events[|events| - 1].digest);
      var stored :=
          Event(id, ordinal, at, actor, payload, previous, EventDigest(id, ordinal, at, actor, payload, previous));
      if payload.Verification? {
        lastVerificationPassed := Some(AllPassed(payload.checks));
      }
      state := next.value;
      events := events + [stored];
      return Some(stored);
    }
  }

  method Replay(events: seq<Event>) returns (r: Option<ReasoningRun>)
    ensures r.Some? <==> ReplayEvents(events).Some?
    ensures r.Some? ==> fresh(r.value) && Some(r.value.View()) == ReplayEvents(events)
  {
    hide AppendTo;
    hide NextEvent;
    if events == [] { return None; }
    if EmptyRun(events[0].runId).None? {
      FailureStays(events, 0);
      return None;
    }
    var run := new ReasoningRun(events[0].runId);
    for i := 0 to |events|
      invariant fresh(run) && ReplayUpTo(events, i) == Some(run.View())
    {
      var stored := events[i];
      var expected := run.Append(stored.at, stored.actor, stored.payload);
      if expected.None? || expected.value != stored {
        FailureStays(events, i + 1);
        return None;
      }
    }
    return Some(run);
  }

  lemma {:induction false} FailureStays(events: seq<Event>, n: nat)
    requires events != [] && n <= |events| && ReplayUpTo(events, n).None?
    ensures ReplayUpTo(events, |events|).None?
    decreases |events| - n
  {
    hide NextEvent;
    hide AppendTo;
    hide EmptyRun;
    if n < |events| { FailureStays(events, n + 1); }
  }

  // ---- Replay accepts exactly what append produces ----

  function Inputs(events: seq<Event>): seq<Input> {
    seq(|events|, i requires 0 <= i < |events| => InputOf(events[i]))
  }

  lemma AppendedEvent(r: Run, i: Input)
    requires AppendTo(r, i).Some?
    ensures AppendTo(r, i).value.events == r.events + [NextEvent(r, i)] && AppendTo(r, i).value.id == r.id
  {
    hide NextEvent;
    hide Transition;
    hide ValidPayload;
    hide ValidText;
  }

  lemma {:induction false} ReplayIsBuild(events: seq<Event>, n: nat)
    requires events != [] && n <= |events| && ReplayUpTo(events, n).Some?
    ensures Build(events[0].runId, Inputs(events[..n])) == ReplayUpTo(events, n)
    ensures ReplayUpTo(events, n).value.events == events[..n]
    decreases n
  {
    hide NextEvent;
    hide AppendTo;
    hide ValidText;
    if n > 0 {
      ReplayIsBuild(events, n - 1);
      var inputs := Inputs(events[..n]);
      assert inputs[..n - 1] == Inputs(events[..n - 1]) && inputs[n - 1] == InputOf(events[n - 1]);
      AppendedEvent(ReplayUpTo(events, n - 1).value, InputOf(events[n - 1]));
      assert events[..n] == events[..n - 1] + [events[n - 1]];
    }
  }

  lemma {:induction false} BuildShape(id: Text, inputs: seq<Input>)
    requires Build(id, inputs).Some?
    ensures var r := Build(id, inputs).value;
            && r.id == id && |r.events| == |inputs|
            && forall k :: 0 <= k < |inputs| ==>
                 && Build(id, inputs[..k]).Some?
                 && r.events[k] == NextEvent(Build(id, inputs[..k]).value, inputs[k])
                 && r.events[..k] == Build(id, inputs[..k]).value.events
  {
    hide NextEvent;
    hide AppendTo;
    hide ValidText;
    if inputs != [] {
      var n := |inputs| - 1;
      var front := inputs[..n];
      BuildShape(id, front);
      AppendedEvent(Build(id, front).value, inputs[n]);
      var r, before := Build(id, inputs).value, Build(id, front).value;
      forall k | 0 <= k < |inputs|
        ensures Build(id, inputs[..k]).Some? && r.events[k] == NextEvent(Build(id, inputs[..k]).value, inputs[k])
        ensures Build(id, inputs[..k]).Some? && r.events[..k] == Build(id, inputs[..k]).value.events
      {
        if k < n {
          assert front[..k] == inputs[..k];
          assert r.events[..k] == before.events[..k];
        } else {
          assert inputs[..k] == front && r.events[..k] == before.events;
        }
      }
    }
  }

  lemma {:induction false} BuildReplays(id: Text, inputs: seq<Input>, n: nat)
    requires inputs != [] && n <= |inputs| && Build(id, inputs).Some?
    ensures var events := Build(id, inputs).value.events;
            events != [] && n <= |events| && ReplayUpTo(events, n) == Build(id, inputs[..n])
    decreases n
  {
    hide AppendTo;
    hide NextEvent;
    hide EmptyRun;
    BuildShape(id, inputs);
    var events := Build(id, inputs).value.events;
    if n == 0 {
      assert inputs[..0] == [] && events[0] == NextEvent(Build(id, inputs[..0]).value, inputs[0]);
      BuildShape(id, inputs[..0]);
      NextEventInput(Build(id, inputs[..0]).value, inputs[0]);
    } else {
      BuildReplays(id, inputs, n - 1);
      var before := Build(id, inputs[..n - 1]).value;
      assert inputs[..n][..n - 1] == inputs[..n - 1];
      assert events[n - 1] == NextEvent(before, inputs[n - 1]);
      NextEventInput(before, inputs[n - 1]);
      hide InputOf;
    }
  }

  lemma NextEventInput(r: Run, i: Input)
    ensures InputOf(NextEvent(r, i)) == i && NextEvent(r, i).runId == r.id
  {
  }

  /** A stored list replays to a run exactly when it is the non-empty history of a run that appending builds. */
  lemma ReplayExactly(events: seq<Event>, run: Run)
    ensures ReplayEvents(events) == Some(run) <==>
            events != [] && run.events == events && exists inputs :: Build(run.id, inputs) == Some(run)
  {
    hide Build;
    hide ReplayUpTo;
    if ReplayEvents(events) == Some(run) {
      ReplayIsBuild(events, |events|);
      assert events[..|events|] == events;
      BuildShape(events[0].runId, Inputs(events));
      assert Build(run.id, Inputs(events)) == Some(run);
    }
    if events != [] && run.events == events && exists inputs :: Build(run.id, inputs) == Some(run) {
      var inputs :| Build(run.id, inputs) == Some(run);
      BuildShape(run.id, inputs);
      BuildReplays(run.id, inputs, |inputs|);
      assert inputs[..|inputs|] == inputs;
    }
  }

  // ---- What every run guarantees ----

  ghost predicate RunOk(r: Run) {
    && (r.state == NeedsPostVerificationDecision ==> r.lastVerificationPassed == Some(false))
    && (r.state == NeedsOutcome && r.lastVerificationPassed == Some(true) ==>
          && r.events != [] && r.events[|r.events| - 1].payload.Verification?
          && AllPassed(r.events[|r.events| - 1].payload.checks))
  }

  ghost predicate SuccessIsVerified(events: seq<Event>) {
    forall k :: 0 <= k < |events| && events[k].payload.Outcome? && events[k].payload.outcome == Succeeded ==>
      && k > 0 && events[k - 1].payload.Verification? && AllPassed(events[k - 1].payload.checks)
  }

  /** In every run a Succeeded outcome directly follows a verification all of whose checks passed. */
  lemma {:induction false} SuccessFollowsVerification(id: Text, inputs: seq<Input>)
    requires Build(id, inputs).Some?
    ensures RunOk(Build(id, inputs).value) && SuccessIsVerified(Build(id, inputs).value.events)
  {
    hide ValidPayload;
    hide ValidText;
    hide EventDigest;
    hide AllPassed;
    if inputs != [] {
      SuccessFollowsVerification(id, inputs[..|inputs| - 1]);
      AppendKeepsOk(Build(id, inputs[..|inputs| - 1]).value, inputs[|inputs| - 1]);
    }
  }

  lemma AppendKeepsOk(r: Run, i: Input)
    requires RunOk(r) && SuccessIsVerified(r.events) && AppendTo(r, i).Some?
    ensures RunOk(AppendTo(r, i).value) && SuccessIsVerified(AppendTo(r, i).value.events)
  {
    hide ValidPayload;
    hide ValidText;
    hide EventDigest;
    hide AllPassed;
  }

  /** An event carries its place, the digest of the one before it, and the digest of its own fields. */
  ghost predicate Linked(events: seq<Event>, k: nat)
    requires k < |events|
  {
    && events[k].ordinal == k + 1
    && events[k].previous == (if k == 0 then None else Some(events[k - 1].digest))
    && events[k].digest == HexDigest.Sha256Hex(BytesOf(events[k]))
  }

  ghost predicate Chained(events: seq<Event>) {
    forall k :: 0 <= k < |events| ==> Linked(events, k)
  }

  lemma NextIsLinked(r: Run, i: Input)
    ensures Linked(r.events + [NextEvent(r, i)], |r.events|)
  {
    hide EventBytes;
  }

  lemma LinkStays(events: seq<Event>, more: seq<Event>, k: nat)
    requires k < |events| && Linked(events, k)
    ensures Linked(events + more, k)
  {
    hide BytesOf;
  }

  lemma {:induction false} BuildChains(id: Text, inputs: seq<Input>)
    requires Build(id, inputs).Some?
    ensures Chained(Build(id, inputs).value.events)
  {
    hide AppendTo;
    hide NextEvent;
    hide ValidText;
    hide Linked;
    if inputs != [] {
      BuildChains(id, inputs[..|inputs| - 1]);
      var before, input := Build(id, inputs[..|inputs| - 1]).value, inputs[|inputs| - 1];
      AppendedEvent(before, input);
      var last := [NextEvent(before, input)];
      NextIsLinked(before, input);
      forall k | 0 <= k < |before.events| ensures Linked(before.events + last, k) {
        LinkStays(before.events, last, k);
      }
    }
  }

  lemma ChainPrefix(events: seq<Event>, n: nat)
    requires Chained(events) && n <= |events|
    ensures Chained(events[..n])
  {
    hide EventDigest;
    forall k | 0 <= k < n ensures Linked(events[..n], k) { assert Linked(events, k); }
  }

  /** Two different event encodings with one SHA-256 digest, `j` events before the last of each list. */
  ghost predicate CollisionAt(es: seq<Event>, fs: seq<Event>, j: nat) {
    && j < |es| && j < |fs|
    && BytesOf(es[|es| - 1 - j]) != BytesOf(fs[|fs| - 1 - j])
    && HexDigest.Sha256Hex(BytesOf(es[|es| - 1 - j])) == HexDigest.Sha256Hex(BytesOf(fs[|fs| - 1 - j]))
  }

  ghost predicate Collide(es: seq<Event>, fs: seq<Event>) {
    exists j: nat :: CollisionAt(es, fs, j)
  }

  ghost predicate InputFits(e: Event) {
    Fits(e.runId) && e.ordinal < U64_BOUND && e.at < U64_BOUND && Fits(e.actor) && PayloadFits(e.payload)
  }

  lemma LinkFits(events: seq<Event>, k: nat)
    requires Chained(events) && k < |events| && InputFits(events[k])
    ensures EventFits(events[k])
  {
    hide PayloadFits;
    hide BytesOf;
    hide HexDigest.Sha256Hex;
    assert Linked(events, k);
    if k > 0 { assert Linked(events, k - 1); }
  }

  lemma LastLink(events: seq<Event>)
    requires Chained(events) && events != [] && InputFits(events[|events| - 1])
    ensures var n := |events| - 1;
            && EventFits(events[n]) && events[n].ordinal == |events| &&
               events[n].digest == HexDigest.Sha256Hex(BytesOf(events[n]))
            && events[n].previous == (if n == 0 then None else Some(events[n - 1].digest))
  {
    hide InputFits;
    hide EventFits;
    hide BytesOf;
    hide HexDigest.Sha256Hex;
    assert Linked(events, |events| - 1);
    LinkFits(events, |events| - 1);
  }

  lemma {:induction false} ChainsAgree(es: seq<Event>, fs: seq<Event>)
    requires Chained(es) && Chained(fs) && es != [] && fs != []
    requires (forall k :: 0 <= k < |es| ==> InputFits(es[k])) && (forall k :: 0 <= k < |fs| ==> InputFits(fs[k]))
    requires es[|es| - 1].digest == fs[|fs| - 1].digest
    ensures es == fs || Collide(es, fs)
    decreases |es|
  {
    hide BytesOf;
    hide InputFits;
    hide EventFits;
    hide Chained;
    hide HexDigest.Sha256Hex;
    var e, f := es[|es| - 1], fs[|fs| - 1];
    LastLink(es);
    LastLink(fs);
    if BytesOf(e) != BytesOf(f) {
      assert CollisionAt(es, fs, 0);
    } else {
      EncodingInjective(e, f);
      assert |es| == |fs| && e == f;
      var front, other := es[..|es| - 1], fs[..|fs| - 1];
      if front != [] {
        ChainPrefix(es, |es| - 1);
        ChainPrefix(fs, |fs| - 1);
        ChainsAgree(front, other);
        CollisionLater(front, e, other, f);
      }
      assert es == front + [e] && fs == other + [f];
    }
  }

  lemma CollisionLater(es: seq<Event>, e: Event, fs: seq<Event>, f: Event)
    ensures Collide(es, fs) ==> Collide(es + [e], fs + [f])
  {
    hide BytesOf;
    hide HexDigest.Sha256Hex;
    if Collide(es, fs) {
      var j: nat :| CollisionAt(es, fs, j);
      assert CollisionAt(es + [e], fs + [f], j + 1);
    }
  }

  /**
   Two runs with the same final digest have identical histories, unless two of their events, equally far from the end,
   are different messages with one SHA-256 digest.
   */
  lemma FinalDigestFixesHistory(id: Text, inputs: seq<Input>, other: Text, others: seq<Input>)
    requires Build(id, inputs).Some? && Build(other, others).Some? && inputs != [] && others != []
    requires forall e :: e in Build(id, inputs).value.events ==> InputFits(e)
    requires forall e :: e in Build(other, others).value.events ==> InputFits(e)
    requires var es, fs := Build(id, inputs).value.events, Build(other, others).value.events;
             es != [] && fs != [] && es[|es| - 1].digest == fs[|fs| - 1].digest
    ensures var es, fs := Build(id, inputs).value.events, Build(other, others).value.events;
            (es == fs && id == other && inputs == others) || Collide(es, fs)
  {
    hide Build;
    hide InputFits;
    hide Chained;
    hide Collide;
    BuildChains(id, inputs);
    BuildChains(other, others);
    var es, fs := Build(id, inputs).value.events, Build(other, others).value.events;
    ChainsAgree(es, fs);
    BuildShape(id, inputs);
    BuildShape(other, others);
    if es == fs { SameHistory(id, inputs, other, others); }
  }

  lemma SameHistory(id: Text, inputs: seq<Input>, other: Text, others: seq<Input>)
    requires Build(id, inputs).Some? && Build(other, others).Some? && inputs != []
    requires Build(id, inputs).value.events == Build(other, others).value.events
    ensures id == other && inputs == others
  {
    hide Build;
    hide NextEvent;
    BuildShape(id, inputs);
    BuildShape(other, others);
    forall k | 0 <= k < |inputs| ensures inputs[k] == others[k] && id == other {
      NextEventInput(Build(id, inputs[..k]).value, inputs[k]);
      NextEventInput(Build(other, others[..k]).value, others[k]);
      FrontIds(id, inputs, k);
      FrontIds(other, others, k);
    }
    assert inputs[0] == others[0];
  }

  lemma FrontIds(id: Text, inputs: seq<Input>, k: nat)
    requires k < |inputs| && Build(id, inputs[..k]).Some?
    ensures Build(id, inputs[..k]).value.id == id
  {
    BuildShape(id, inputs[..k]);
  }
}
