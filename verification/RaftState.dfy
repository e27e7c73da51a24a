/**
 Applying the replicated log to the shard's state machine
 (crates/vyrm-cluster/src/openraft_adapter.rs). Digests are modelled by what they digest;
 preparing a runtime commit is an arbitrary deterministic function of the stored keyspace.
 */
module RaftState {
  import opened Common
  import opened Batch
  import opened Versions
  import Q = Quorum

  const REQUEST_RETENTION_LOGS: nat := 4096

  // "vyrm/raft/v4/state/current"
  const KEY_STATE: Bytes := [
    118, 121, 114, 109, 47, 114, 97, 102, 116, 47, 118, 52, 47,
    115, 116, 97, 116, 101, 47, 99, 117, 114, 114, 101, 110, 116]

  // ---- Membership ----

  datatype RaftNode = RaftNode(canonicalId: Bytes, zone: Bytes, endpoint: Bytes) {
    predicate Valid() {
      Name(canonicalId) && Name(zone) && Name(endpoint)
    }

    static predicate Name(value: Bytes) {
      1 <= |value| <= 512 && 0 !in value
    }
  }

  datatype Membership = Membership(voters: set<nat>, nodes: map<nat, RaftNode>)

  /** Voter identities with their zones. */
  type Binding = set<(Bytes, Bytes)>

  /** The binding of a membership whose voters are all known, valid and pairwise distinct. */
  function MembershipBinding(m: Membership): Option<Binding> {
    if m.voters == {} || (exists v :: v in m.voters && (v !in m.nodes || !m.nodes[v].Valid())) then None
    else
      var binding := set v | v in m.voters :: (m.nodes[v].canonicalId, m.nodes[v].zone);
      if |binding| == |m.voters| then Some(binding) else None
  }

  function DeclaredVoters(p: Q.Placement): Binding {
    set r | r in p.replicas && r.role == Q.Voter :: (r.node, r.zone)
  }

  /** The binding a placement establishes: the declared voters must be the applied ones. */
  function PlacementBinding(p: Q.Placement, m: Membership): Option<Binding> {
    match MembershipBinding(m)
    case None => None
    case Some(binding) => if binding == DeclaredVoters(p) then Some(binding) else None
  }

  // ---- Log and state ----

  datatype LogId = LogId(term: nat, index: nat)

  datatype Operation =
    | PlacementTransition(placement: Q.Placement)
    | Probe(payload: Bytes)
    | RuntimeCommit(commit: Bytes)

  datatype Command = Command(requestId: Bytes, shard: nat, epoch: nat, expectedIndex: Option<nat>, operation: Operation)

  datatype Payload = Blank | Members(membership: Membership) | Normal(command: Command)

  datatype Entry = Entry(id: LogId, payload: Payload)

  /** The command's digest covers everything but the request identifier. */
  datatype Identity = Identity(shard: nat, epoch: nat, expectedIndex: Option<nat>, operation: Operation)

  /** The hash chain over accepted commands. */
  datatype StateDigest = Genesis | Transition(previous: StateDigest, term: nat, index: nat, operation: Operation)

  datatype Response = Response(
    accepted: bool, duplicate: bool, term: nat, index: nat, digest: StateDigest, outcome: Option<Bytes>)

  datatype Applied = Applied(firstIndex: nat, identity: Identity, response: Response)

  type Requests = map<Bytes, Applied>

  datatype State = State(
    lastApplied: Option<LogId>, membership: Membership,
    placementEpoch: Option<nat>, placement: Option<Q.Placement>, placementBinding: Option<Binding>,
    generation: nat, placementGeneration: Option<nat>,
    commitCount: nat, digest: StateDigest, requests: Requests)

  const INITIAL_STATE: State := State(None, Membership({}, map[]), None, None, None, 0, None, 0, Genesis, map[])

  /** What one write makes durable: the state record and the runtime keyspace. */
  datatype Durable = Durable(state: State, store: Store)

  datatype Prepared =
    | AlreadyCommitted(outcome: Bytes)
    | Plan(outcome: Bytes, operations: WriteBatch)
    | RejectedCommit
    | StorageFailure

  /** `record` is the serialized form of a state. */
  datatype Machine = Machine(shard: nat, prepare: (Store, Bytes) -> Prepared, record: State -> Bytes)

  datatype Error = InvalidCommand | WrongShard | StorageError

  // ---- Applying one command ----

  predicate ValidOperation(op: Operation) {
    match op
    case PlacementTransition(p) => Q.ValidPlacement(p)
    case Probe(payload) => payload != []
    case RuntimeCommit(_) => true
  }

  predicate ValidCommand(c: Command) {
    && 1 <= |c.requestId| <= 256 && 0 !in c.requestId && c.epoch != 0
    && ValidOperation(c.operation)
    && (c.operation.PlacementTransition? ==> c.operation.placement.epoch == c.epoch)
  }

  function IdentityOf(c: Command): Identity {
    Identity(c.shard, c.epoch, c.expectedIndex, c.operation)
  }

  function CurrentIndex(s: State): nat {
    if s.lastApplied.Some? then s.lastApplied.value.index else 0
  }

  predicate EpochMatches(s: State, c: Command) {
    if c.operation.PlacementTransition? then
      && c.operation.placement.epoch == (if s.placementEpoch.None? then 1 else s.placementEpoch.value + 1)
      && c.epoch == c.operation.placement.epoch
    else s.placementEpoch == Some(c.epoch)
  }

  /** The voters are those the epoch was established with, and have not changed in between. */
  predicate MembershipMatches(s: State, c: Command) {
    || c.operation.PlacementTransition?
    || (s.placementBinding == MembershipBinding(s.membership) && s.placementGeneration == Some(s.generation))
  }

  predicate Admitted(s: State, c: Command) {
    && EpochMatches(s, c) && MembershipMatches(s, c)
    && (c.expectedIndex.None? || c.expectedIndex.value == CurrentIndex(s))
  }

  datatype Effect = Effect(state: State, accepted: bool, outcome: Option<Bytes>, operations: WriteBatch)

  /** What an admitted command does, before the digest and the request table are updated. */
  function Perform(m: Machine, store: Store, s: State, op: Operation): Result<Effect, Error> {
    match op
    case PlacementTransition(p) =>
      (match PlacementBinding(p, s.membership)
       case None => Ok(Effect(s, false, None, []))
       case Some(binding) =>
         Ok(Effect(s.(placementEpoch := Some(p.epoch), placement := Some(p), placementBinding := Some(binding),
                      placementGeneration := Some(s.generation)), true, None, [])))
    case Probe(_) => Ok(Effect(s, true, None, []))
    case RuntimeCommit(commit) =>
      (match m.prepare(store, commit)
       case AlreadyCommitted(outcome) => Ok(Effect(s, true, Some(outcome), []))
       case Plan(outcome, operations) =>
         Ok(Effect(s.(commitCount := s.commitCount + 1), true, Some(outcome), operations))
       case RejectedCommit => Ok(Effect(s, false, None, []))
       case StorageFailure => Err(StorageError))
  }

  datatype Application = Application(state: State, response: Response, operations: WriteBatch)

  /** A request that is not in the table is decided and remembered. */
  function FirstTime(m: Machine, store: Store, s: State, id: LogId, c: Command): Result<Application, Error> {
    var performed := if Admitted(s, c) then Perform(m, store, s, c.operation) else Ok(Effect(s, false, None, []));
    match performed
    case Err(error) => Err(error)
    case Ok(effect) =>
      var digest := if effect.accepted then Transition(s.digest, id.term, id.index, c.operation) else s.digest;
      var response := Response(effect.accepted, false, id.term, id.index, digest, effect.outcome);
      Ok(Application(
           effect.state.(digest := digest,
                         requests := s.requests[c.requestId := Applied(id.index, IdentityOf(c), response)]),
           response, effect.operations))
  }

  function ApplyCommand(m: Machine, store: Store, s: State, id: LogId, c: Command): Result<Application, Error> {
    if !ValidCommand(c) then Err(InvalidCommand)
    else if c.shard != m.shard then Err(WrongShard)
    else if c.requestId in s.requests then
      var previous := s.requests[c.requestId];
      if previous.identity != IdentityOf(c) then
        Ok(Application(s, Response(false, false, id.term, id.index, s.digest, None), []))
      else
        Ok(Application(s, previous.response.(duplicate := true, term := id.term, index := id.index), []))
    else FirstTime(m, store, s, id, c)
  }

  // ---- Applying entries ----

  /** Requests first applied among the last 4096 indexes. */
  function Pruned(requests: Requests, through: nat): Requests {
    map r | r in requests && requests[r].firstIndex + REQUEST_RETENTION_LOGS > through :: requests[r]
  }

  function BlankResponse(s: State, id: LogId): Response {
    Response(true, false, id.term, id.index, s.digest, None)
  }

  /** A change of the voter binding starts a new generation; a return to an earlier one does not undo it. */
  function ChangeMembership(s: State, membership: Membership): State {
    var changed := MembershipBinding(s.membership) != MembershipBinding(membership);
    s.(membership := membership, generation := if changed then s.generation + 1 else s.generation)
  }

  function Decide(m: Machine, d: Durable, e: Entry): Result<Application, Error> {
    match e.payload
    case Blank => Ok(Application(d.state, BlankResponse(d.state, e.id), []))
    case Members(membership) =>
      var changed := ChangeMembership(d.state, membership);
      Ok(Application(changed, BlankResponse(changed, e.id), []))
    case Normal(command) => ApplyCommand(m, d.store, d.state, e.id, command)
  }

  function Finish(s: State, id: LogId): State {
    s.(lastApplied := Some(id), requests := Pruned(s.requests, id.index))
  }

  /** What is written for an entry: the runtime operations and the state record. */
  function EntryBatch(m: Machine, s: State, operations: WriteBatch): WriteBatch {
    operations + [Put(KEY_STATE, m.record(s))]
  }

  /** One entry: the new state record and the runtime operations become durable in one write, unless it is refused. */
  function ApplyEntry(m: Machine, d: Durable, e: Entry): Result<(Durable, Response), Error> {
    match Decide(m, d, e)
    case Err(error) => Err(error)
    case Ok(a) =>
      var state := Finish(a.state, e.id);
      if Encodable(EntryBatch(m, state, a.operations)) then
        Ok((Durable(state, ApplyToStore(d.store, a.operations)), a.response))
      else Err(StorageError)
  }

  /** The durable states a log goes through, one entry after the other, with the responses it gives. */
  ghost predicate Trace(m: Machine, states: seq<Durable>, log: seq<Entry>, responses: seq<Response>) {
    && |states| == |log| + 1 && |responses| == |log|
    && forall k :: 0 <= k < |log| ==> ApplyEntry(m, states[k], log[k]) == Ok((states[k + 1], responses[k]))
  }

  lemma TraceStep(m: Machine, states: seq<Durable>, log: seq<Entry>, responses: seq<Response>, k: nat)
    requires Trace(m, states, log, responses) && k < |log|
    ensures ApplyEntry(m, states[k], log[k]) == Ok((states[k + 1], responses[k]))
  {
    var response := responses[k];
  }

  ghost predicate Consecutive(log: seq<Entry>, start: nat) {
    forall k :: 0 <= k < |log| ==> log[k].id.index == start + k
  }

  // ---- Epochs ----

  /** A first-time command that was accepted. */
  ghost predicate AcceptedFirst(log: seq<Entry>, responses: seq<Response>, k: nat)
    requires k < |log| == |responses|
  {
    log[k].payload.Normal? && responses[k].accepted && !responses[k].duplicate
  }

  ghost predicate AcceptedTransition(log: seq<Entry>, responses: seq<Response>, k: nat)
    requires k < |log| == |responses|
  {
    AcceptedFirst(log, responses, k) && log[k].payload.command.operation.PlacementTransition?
  }

  ghost function Transitions(log: seq<Entry>, responses: seq<Response>, k: nat): nat
    requires k <= |log| == |responses|
  {
    if k == 0 then 0 else Transitions(log, responses, k - 1) + if AcceptedTransition(log, responses, k - 1) then 1
      else 0
  }

  ghost predicate EpochIs(s: State, transitions: nat) {
    s.placementEpoch == if transitions == 0 then None else Some(transitions)
  }

  lemma EntryEpoch(m: Machine, d: Durable, e: Entry, transitions: nat)
    requires ApplyEntry(m, d, e).Ok? && EpochIs(d.state, transitions)
    ensures var (d', response) := ApplyEntry(m, d, e).value;
            var accepted := e.payload.Normal? && response.accepted && !response.duplicate
                            && e.payload.command.operation.PlacementTransition?;
            && (accepted ==> e.payload.command.epoch == transitions + 1)
            && (accepted ==> e.payload.command.operation.placement.epoch == transitions + 1)
            && EpochIs(d'.state, if accepted then transitions + 1 else transitions)
  {
    hide Q.ValidPlacement;
    hide Encodable;
    hide ApplyToStore;
    hide Pruned;
  }

  /**
   Over every log, accepted placement transitions carry the epochs 1, 2, 3, ... and nothing else changes the epoch.
   */
  lemma {:induction false} EpochsAreConsecutive(m: Machine, states: seq<Durable>, log: seq<Entry>,
                                                responses: seq<Response>, k: nat)
    requires Trace(m, states, log, responses) && states[0].state.placementEpoch.None? && k <= |log|
    ensures EpochIs(states[k].state, Transitions(log, responses, k))
    ensures k < |log| && AcceptedTransition(log, responses, k) ==>
              log[k].payload.command.operation.placement.epoch == Transitions(log, responses, k) + 1
  {
    hide ApplyEntry;
    if k > 0 {
      EpochsAreConsecutive(m, states, log, responses, k - 1);
      TraceStep(m, states, log, responses, k - 1);
      EntryEpoch(m, states[k - 1], log[k - 1], Transitions(log, responses, k - 1));
    }
    if k < |log| {
      TraceStep(m, states, log, responses, k);
      EntryEpoch(m, states[k], log[k], Transitions(log, responses, k));
    }
  }

  // ---- Fencing ----

  /** The voter binding stayed what it is from state `from` through state `to`. */
  ghost predicate BindingUnchanged(states: seq<Durable>, from: nat, to: nat)
    requires to < |states|
  {
    forall j :: from <= j <= to ==>
        MembershipBinding(states[j].state.membership) == MembershipBinding(states[to].state.membership)
  }

  /** Between the transition that established the current epoch and now, the generation tells whether voters changed. */
  ghost predicate Established(m: Machine, states: seq<Durable>, log: seq<Entry>, responses: seq<Response>, t: nat,
                              k: nat)
    requires |states| == |log| + 1 && |responses| == |log| && t < k <= |log|
  {
    && AcceptedTransition(log, responses, t)
    && states[k].state.placementEpoch == Some(log[t].payload.command.epoch)
    && states[k].state.placement == Some(log[t].payload.command.operation.placement)
    && (forall j :: t < j < k ==> !AcceptedTransition(log, responses, j))
    && states[k].state.placementGeneration.Some?
    && states[k].state.placementGeneration.value <= states[k].state.generation
    && (states[k].state.placementGeneration.value == states[k].state.generation <==> BindingUnchanged(states, t, k))
    && states[k].state.placementBinding ==
       PlacementBinding(log[t].payload.command.operation.placement, states[t].state.membership)
    && states[k].state.placementBinding.Some?
  }

  lemma EntryGeneration(m: Machine, d: Durable, e: Entry)
    requires ApplyEntry(m, d, e).Ok?
    ensures var (d', response) := ApplyEntry(m, d, e).value;
            var s, s' := d.state, d'.state;
            var transition := e.payload.Normal? && response.accepted && !response.duplicate
                              && e.payload.command.operation.PlacementTransition?;
            && s'.generation >= s.generation
            && (s'.generation == s.generation <==> MembershipBinding(s'.membership) == MembershipBinding(s.membership))
            && (transition ==>
                  && s'.generation == s.generation && s'.membership == s.membership
                  && s'.placementGeneration == Some(s.generation)
                  && s'.placementEpoch == Some(e.payload.command.epoch)
                  && s'.placement == Some(e.payload.command.operation.placement)
                  && s'.placementBinding == PlacementBinding(e.payload.command.operation.placement, s.membership)
                  && s'.placementBinding.Some?)
            && (!transition ==>
                  && s'.placementEpoch == s.placementEpoch && s'.placement == s.placement
                  && s'.placementBinding == s.placementBinding && s'.placementGeneration == s.placementGeneration)
  {
    hide Q.ValidPlacement;
    hide MembershipBinding;
    hide DeclaredVoters;
    hide Encodable;
    hide ApplyToStore;
    hide Pruned;
    hide ValidCommand;
  }

  lemma {:induction false} EpochEstablished(m: Machine, states: seq<Durable>, log: seq<Entry>, responses: seq<Response>,
                                            k: nat) returns (t: nat)
    requires Trace(m, states, log, responses) && states[0].state.placementEpoch.None? && k <= |log|
    requires states[k].state.placementEpoch.Some?
    ensures t < k && Established(m, states, log, responses, t, k)
    decreases k
  {
    hide ApplyEntry;
    hide MembershipBinding;
    hide PlacementBinding;
    EntryGeneration(m, states[k - 1], log[k - 1]);
    if AcceptedTransition(log, responses, k - 1) {
      t := k - 1;
    } else {
      t := EpochEstablished(m, states, log, responses, k - 1);
    }
  }

  /**
   Fencing: a probe or runtime commit accepted for the first time runs under the epoch it names, and since the
   transition that established that epoch the voters have been the placement's at every moment. A change that was
   reverted later (A to B to A) is fenced all the same.
   */
  lemma AcceptedUnderItsEpoch(m: Machine, states: seq<Durable>, log: seq<Entry>, responses: seq<Response>, k: nat)
      returns (t: nat)
    requires Trace(m, states, log, responses) && states[0].state.placementEpoch.None? && k < |log|
    requires AcceptedFirst(log, responses, k) && !AcceptedTransition(log, responses, k)
    ensures t < k && AcceptedTransition(log, responses, t)
    ensures log[t].payload.command.operation.placement.epoch == log[k].payload.command.epoch
    ensures forall j :: t < j < k ==> !AcceptedTransition(log, responses, j)
    ensures forall j :: t <= j <= k ==>
              MembershipBinding(states[j].state.membership) ==
                  Some(DeclaredVoters(log[t].payload.command.operation.placement))
  {
    hide Q.ValidPlacement;
    TraceStep(m, states, log, responses, k);
    FirstAcceptedIsAdmitted(m, states[k], log[k]);
    hide MembershipBinding;
    hide ApplyEntry;
    t := EpochEstablished(m, states, log, responses, k);
    EpochsAreConsecutive(m, states, log, responses, t);
    TraceStep(m, states, log, responses, t);
    EntryEpoch(m, states[t], log[t], Transitions(log, responses, t));
  }

  lemma FirstAcceptedIsAdmitted(m: Machine, d: Durable, e: Entry)
    requires ApplyEntry(m, d, e).Ok? && e.payload.Normal?
    requires var response := ApplyEntry(m, d, e).value.1; response.accepted && !response.duplicate
    ensures Admitted(d.state, e.payload.command)
  {
    hide Q.ValidPlacement;
    hide MembershipBinding;
  }

  // ---- Request deduplication ----

  /** The only way into the table is a first application; the only way out is the window. */
  lemma EntryRequests(m: Machine, d: Durable, e: Entry, r: Bytes)
    requires ApplyEntry(m, d, e).Ok?
    ensures var (d', response) := ApplyEntry(m, d, e).value;
            var before, after := d.state.requests, d'.state.requests;
            && (r in before ==> (r in after <==> before[r].firstIndex + REQUEST_RETENTION_LOGS > e.id.index))
            && (r in before && r in after ==> after[r] == before[r])
            && (r !in before && r in after ==>
                  && e.payload.Normal? && e.payload.command.requestId == r
                  && after[r] == Applied(e.id.index, IdentityOf(e.payload.command), response))
            && (r !in before && e.payload.Normal? && e.payload.command.requestId == r ==> r in after)
  {
    hide Q.ValidPlacement;
    hide Encodable;
    hide ApplyToStore;
    hide MembershipBinding;
    hide Perform;
    hide Admitted;
    PerformKeepsRequests(m, d, e);
  }

  lemma PerformKeepsRequests(m: Machine, d: Durable, e: Entry)
    ensures e.payload.Normal? ==>
              var performed := Perform(m, d.store, d.state, e.payload.command.operation);
              performed.Ok? ==> performed.value.state.requests == d.state.requests
  {
    hide PlacementBinding;
  }

  /** Repeating a remembered request changes nothing but the position in the log. */
  lemma RetryHasNoEffect(m: Machine, d: Durable, e: Entry)
    requires ApplyEntry(m, d, e).Ok? && e.payload.Normal? && e.payload.command.requestId in d.state.requests
    ensures var (d', response) := ApplyEntry(m, d, e).value;
            var previous := d.state.requests[e.payload.command.requestId];
            && d' == Durable(Finish(d.state, e.id), d.store)
            && (if previous.identity == IdentityOf(e.payload.command)
                then response == previous.response.(duplicate := true, term := e.id.term, index := e.id.index)
                else !response.accepted && !response.duplicate)
  {
    hide Q.ValidPlacement;
  }

  /** The record a first application leaves is the same through the next 4096 indexes, whatever is retried meanwhile. */
  lemma {:induction false} Remembered(m: Machine, states: seq<Durable>, log: seq<Entry>, responses: seq<Response>,
                                      start: nat, a: nat, b: nat)
    requires Trace(m, states, log, responses) && Consecutive(log, start) && a < b <= |log|
    requires b <= a + REQUEST_RETENTION_LOGS
    requires log[a].payload.Normal? && log[a].payload.command.requestId !in states[a].state.requests
    ensures var r := log[a].payload.command.requestId;
            && r in states[b].state.requests
            && states[b].state.requests[r] == Applied(start + a, IdentityOf(log[a].payload.command), responses[a])
    decreases b
  {
    hide ApplyEntry;
    hide IdentityOf;
    TraceStep(m, states, log, responses, b - 1);
    EntryRequests(m, states[b - 1], log[b - 1], log[a].payload.command.requestId);
    if b > a + 1 {
      Remembered(m, states, log, responses, start, a, b - 1);
    }
  }

  /**
   A request first applied at index f is answered as a duplicate, with no effect, for every retry at f + 1 through
   f + 4096; a reuse of its identifier for another command is refused just as long.
   */
  lemma RetryWithinWindow(m: Machine, states: seq<Durable>, log: seq<Entry>, responses: seq<Response>, start: nat,
                          a: nat, b: nat)
    requires Trace(m, states, log, responses) && Consecutive(log, start) && a < b < |log|
    requires b <= a + REQUEST_RETENTION_LOGS
    requires log[a].payload.Normal? && log[a].payload.command.requestId !in states[a].state.requests
    requires log[b].payload.Normal? && log[b].payload.command.requestId == log[a].payload.command.requestId
    ensures states[b + 1] == Durable(Finish(states[b].state, log[b].id), states[b].store)
    ensures IdentityOf(log[b].payload.command) == IdentityOf(log[a].payload.command) ==>
              && responses[b].duplicate && responses[b].accepted == responses[a].accepted
              && responses[b].digest == responses[a].digest && responses[b].outcome == responses[a].outcome
    ensures IdentityOf(log[b].payload.command) != IdentityOf(log[a].payload.command) ==>
              !responses[b].accepted && !responses[b].duplicate
  {
    hide ApplyEntry;
    hide IdentityOf;
    hide Finish;
    Remembered(m, states, log, responses, start, a, b);
    TraceStep(m, states, log, responses, b);
    RetryHasNoEffect(m, states[b], log[b]);
  }

  /** At f + 4097 the request is gone: retries never extended its window. */
  lemma ForgottenAfterWindow(m: Machine, states: seq<Durable>, log: seq<Entry>, responses: seq<Response>, start: nat,
                             a: nat)
    requires Trace(m, states, log, responses) && Consecutive(log, start) && a + REQUEST_RETENTION_LOGS < |log|
    requires log[a].payload.Normal? && log[a].payload.command.requestId !in states[a].state.requests
    ensures log[a].payload.command.requestId !in states[a + REQUEST_RETENTION_LOGS + 1].state.requests
  {
    hide ApplyEntry;
    hide IdentityOf;
    var b := a + REQUEST_RETENTION_LOGS;
    Remembered(m, states, log, responses, start, a, b);
    TraceStep(m, states, log, responses, b);
    EntryRequests(m, states[b], log[b], log[a].payload.command.requestId);
  }

  /** Every remembered request was first applied at its own index, among the last 4096. */
  ghost predicate WindowOk(s: State) {
    && (s.requests != map[] ==> s.lastApplied.Some?)
    && (forall r :: r in s.requests ==>
        s.requests[r].firstIndex <= CurrentIndex(s) < s.requests[r].firstIndex + REQUEST_RETENTION_LOGS)
    && (forall r, q :: r in s.requests && q in s.requests && s.requests[r].firstIndex == s.requests[q].firstIndex ==>
        r == q)
  }

  lemma EntryWindow(m: Machine, d: Durable, e: Entry)
    requires ApplyEntry(m, d, e).Ok? && WindowOk(d.state)
    requires (d.state.lastApplied.None? || CurrentIndex(d.state) < e.id.index)
    ensures WindowOk(ApplyEntry(m, d, e).value.0.state) && ApplyEntry(m, d, e).value.0.state.lastApplied == Some(e.id)
  {
    EntryPosition(m, d, e);
    hide ApplyEntry;
    hide IdentityOf;
    var before, after := d.state, ApplyEntry(m, d, e).value.0.state;
    forall r | r in after.requests
      ensures r !in before.requests ==>
              after.requests[r].firstIndex == e.id.index && e.payload.Normal? && e.payload.command.requestId == r
      ensures r in before.requests ==>
                before.requests[r] == after.requests[r] &&
                    before.requests[r].firstIndex + REQUEST_RETENTION_LOGS > e.id.index
    {
      EntryRequests(m, d, e, r);
    }
  }

  lemma EntryPosition(m: Machine, d: Durable, e: Entry)
    requires ApplyEntry(m, d, e).Ok?
    ensures ApplyEntry(m, d, e).value.0.state.lastApplied == Some(e.id)
  {
  }

  lemma {:induction false} RunWindow(m: Machine, states: seq<Durable>, log: seq<Entry>, responses: seq<Response>,
                                     start: nat, k: nat)
    requires Trace(m, states, log, responses) && Consecutive(log, start) && k <= |log|
    requires states[0].state.lastApplied.None? && states[0].state.requests == map[]
    ensures WindowOk(states[k].state) && |states[k].state.requests| <= REQUEST_RETENTION_LOGS
    ensures k > 0 ==> states[k].state.lastApplied == Some(log[k - 1].id)
  {
    hide ApplyEntry;
    if k > 0 {
      RunWindow(m, states, log, responses, start, k - 1);
      TraceStep(m, states, log, responses, k - 1);
      EntryWindow(m, states[k - 1], log[k - 1]);
    }
    WindowBounds(states[k].state);
  }

  /**
   From the empty state every log keeps the epoch equal to the number of transitions and the table within its window.
   */
  lemma FreshLog(m: Machine, states: seq<Durable>, log: seq<Entry>, responses: seq<Response>, start: nat, k: nat)
    requires Trace(m, states, log, responses) && Consecutive(log, start) && k <= |log|
    requires states[0].state == INITIAL_STATE
    ensures EpochIs(states[k].state, Transitions(log, responses, k))
    ensures WindowOk(states[k].state) && |states[k].state.requests| <= REQUEST_RETENTION_LOGS
  {
    hide Trace;
    hide WindowOk;
    EpochsAreConsecutive(m, states, log, responses, k);
    RunWindow(m, states, log, responses, start, k);
  }

  /** Distinct first indexes inside a window of 4096 leave room for no more requests. */
  lemma WindowBounds(s: State)
    requires WindowOk(s)
    ensures |s.requests| <= REQUEST_RETENTION_LOGS
  {
    var first := set r | r in s.requests :: s.requests[r].firstIndex;
    var low := if CurrentIndex(s) < REQUEST_RETENTION_LOGS then 0 else CurrentIndex(s) + 1 - REQUEST_RETENTION_LOGS;
    FirstIndexes(s.requests, s.requests.Keys);
    assert first == set r | r in s.requests.Keys :: s.requests[r].firstIndex;
    IntervalHolds(first, low, CurrentIndex(s) + 1);
  }

  lemma {:induction false} FirstIndexes(requests: Requests, some: set<Bytes>)
    requires some <= requests.Keys
    requires forall r, q :: r in requests && q in requests && requests[r].firstIndex == requests[q].firstIndex ==>
             r == q
    ensures |set r | r in some :: requests[r].firstIndex| == |some|
    decreases |some|
  {
    var first := set r | r in some :: requests[r].firstIndex;
    if x :| x in some {
      var rest := set r | r in some - {x} :: requests[r].firstIndex;
      FirstIndexes(requests, some - {x});
      assert first == rest + {requests[x].firstIndex};
      assert requests[x].firstIndex !in rest;
    } else {
      assert first == {};
    }
  }

  lemma {:induction false} IntervalHolds(some: set<nat>, low: nat, high: nat)
    requires low <= high && forall x :: x in some ==> low <= x < high
    ensures |some| <= high - low
    decreases high
  {
    if low == high {
      if x :| x in some { assert false; }
    } else {
      IntervalHolds(some - {high - 1}, low, high - 1);
    }
  }
}
