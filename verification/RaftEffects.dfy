/**
 What applying the replicated log does and answers, spelt out (crates/vyrm-cluster/src/openraft_adapter.rs): which
 commands are accepted, what each writes, and what the state digest commits to.
 */
module RaftEffects {
  import opened Common
  import opened Batch
  import opened Versions
  import opened RaftState
  import Q = Quorum

  // ---- Which commands are accepted ----

  /** Every voter is a known node with well-formed names, and no two are one identity in one zone. */
  ghost predicate VotersKnown(m: Membership) {
    && m.voters != {}
    && (forall v :: v in m.voters ==>
          && v in m.nodes && WellNamed(m.nodes[v].canonicalId) && WellNamed(m.nodes[v].zone) &&
             WellNamed(m.nodes[v].endpoint))
    && (forall v, w :: v in m.voters && w in m.voters && v != w ==>
          m.nodes[v].canonicalId != m.nodes[w].canonicalId || m.nodes[v].zone != m.nodes[w].zone)
  }

  predicate WellNamed(name: Bytes) {
    name != [] && |name| <= 512 && forall i :: 0 <= i < |name| ==> name[i] != 0
  }

  /** The membership's voters are exactly the placement's, by identity and zone. */
  ghost predicate Binds(p: Q.Placement, m: Membership) {
    && VotersKnown(m)
    && (forall v :: v in m.voters ==>
          exists r :: r in p.replicas && r.role == Q.Voter && r.node == m.nodes[v].canonicalId &&
              r.zone == m.nodes[v].zone)
    && (forall r :: r in p.replicas && r.role == Q.Voter ==>
          exists v :: v in m.voters && r.node == m.nodes[v].canonicalId && r.zone == m.nodes[v].zone)
  }

  function Pair(m: Membership, v: nat): (Bytes, Bytes)
    requires v in m.nodes
  {
    (m.nodes[v].canonicalId, m.nodes[v].zone)
  }

  lemma {:induction false} PairsSize(m: Membership, some: set<nat>)
    requires forall v :: v in some ==> v in m.nodes
    ensures |set v | v in some :: Pair(m, v)| <= |some|
    ensures |set v | v in some :: Pair(m, v)| == |some| <==>
            forall v, w :: v in some && w in some && v != w ==> Pair(m, v) != Pair(m, w)
    decreases |some|
  {
    var pairs := set v | v in some :: Pair(m, v);
    if x :| x in some {
      var rest := some - {x};
      var fewer := set v | v in rest :: Pair(m, v);
      PairsSize(m, rest);
      if w :| w in rest && Pair(m, w) == Pair(m, x) {
        assert pairs == fewer;
      } else {
        assert pairs == fewer + {Pair(m, x)};
        assert Pair(m, x) !in fewer;
      }
    } else {
      assert pairs == {};
    }
  }

  /** A membership has a binding exactly when its voters are known and distinct. */
  lemma BindingIff(m: Membership)
    ensures MembershipBinding(m).Some? <==> VotersKnown(m)
    ensures MembershipBinding(m).Some? ==>
              forall pair :: pair in MembershipBinding(m).value <==>
                  exists v :: v in m.voters && v in m.nodes && pair == Pair(m, v)
  {
    if forall v :: v in m.voters ==> v in m.nodes {
      PairsSize(m, m.voters);
      assert (set v | v in m.voters :: (m.nodes[v].canonicalId, m.nodes[v].zone)) == set v | v in m.voters ::
             Pair(m, v);
    }
  }

  lemma BindsIff(p: Q.Placement, m: Membership)
    ensures PlacementBinding(p, m).Some? <==> Binds(p, m)
    ensures PlacementBinding(p, m).Some? ==> PlacementBinding(p, m) == MembershipBinding(m)
  {
    BindingIff(m);
    hide VotersKnown;
    if MembershipBinding(m).Some? {
      var binding := MembershipBinding(m).value;
      hide MembershipBinding;
      if Binds(p, m) {
        forall pair ensures pair in binding <==> pair in DeclaredVoters(p) {
          if pair in binding {
            var v :| v in m.voters && v in m.nodes && pair == Pair(m, v);
          }
          if pair in DeclaredVoters(p) {
            var r :| r in p.replicas && r.role == Q.Voter && pair == (r.node, r.zone);
            var v :| v in m.voters && r.node == m.nodes[v].canonicalId && r.zone == m.nodes[v].zone;
            assert pair == Pair(m, v);
          }
        }
      }
      if binding == DeclaredVoters(p) { DeclaredBinds(p, m, binding); }
    }
  }

  lemma DeclaredBinds(p: Q.Placement, m: Membership, binding: Binding)
    requires VotersKnown(m) && binding == DeclaredVoters(p)
    requires forall pair :: pair in binding <==> exists v :: v in m.voters && v in m.nodes && pair == Pair(m, v)
    ensures Binds(p, m)
  {
    forall v | v in m.voters
      ensures exists r ::
                r in p.replicas && r.role == Q.Voter && r.node == m.nodes[v].canonicalId && r.zone == m.nodes[v].zone
    {
      assert Pair(m, v) in binding;
    }
    forall r | r in p.replicas && r.role == Q.Voter
      ensures exists v :: v in m.voters && r.node == m.nodes[v].canonicalId && r.zone == m.nodes[v].zone
    {
      assert (r.node, r.zone) in binding;
    }
  }

  /** A command that can be decided at all. */
  ghost predicate WellFormed(m: Machine, c: Command) {
    && c.requestId != [] && |c.requestId| <= 256 && (forall i :: 0 <= i < |c.requestId| ==> c.requestId[i] != 0)
    && c.epoch > 0 && c.shard == m.shard
    && (c.operation.PlacementTransition? ==>
        Q.ValidPlacement(c.operation.placement) && c.operation.placement.epoch == c.epoch)
    && (c.operation.Probe? ==> c.operation.payload != [])
  }

  /** The epoch a command must name: the next one for a transition, the current one for anything else. */
  ghost predicate RightEpoch(s: State, c: Command) {
    if c.operation.PlacementTransition? then
      c.operation.placement.epoch == 1 + (if s.placementEpoch.Some? then s.placementEpoch.value else 0)
    else s.placementEpoch.Some? && s.placementEpoch.value == c.epoch
  }

  /** Anything but a transition needs the voters of the epoch, with no change since. */
  ghost predicate VotersStand(s: State, c: Command) {
    c.operation.PlacementTransition? ||
    (s.placementBinding == MembershipBinding(s.membership) && s.placementGeneration == Some(s.generation))
  }

  ghost predicate RightIndex(s: State, c: Command) {
    c.expectedIndex.Some? ==> c.expectedIndex.value == if s.lastApplied.Some? then s.lastApplied.value.index else 0
  }

  ghost predicate Due(d: Durable, c: Command) {
    RightEpoch(d.state, c) && VotersStand(d.state, c) && RightIndex(d.state, c)
  }

  /** A placement must bind the voters, a runtime commit must not be rejected by its preparation. */
  ghost predicate Executable(m: Machine, d: Durable, op: Operation) {
    match op
    case PlacementTransition(p) => Binds(p, d.state.membership)
    case Probe(_) => true
    case RuntimeCommit(commit) => !m.prepare(d.store, commit).RejectedCommit?
  }

  /** The entry is a first-time command. */
  ghost predicate FirstCommand(d: Durable, e: Entry) {
    e.payload.Normal? && e.payload.command.requestId !in d.state.requests
  }

  /**
   A first-time command is accepted if and only if it names the right epoch and index under standing voters and its
   placement binds the voters, or its preparation does not reject it. The answer carries the entry's position.
   */
  lemma AcceptedIff(m: Machine, d: Durable, e: Entry)
    requires ApplyEntry(m, d, e).Ok? && FirstCommand(d, e)
    ensures WellFormed(m, e.payload.command)
    ensures var (d', r) := ApplyEntry(m, d, e).value;
            var c := e.payload.command;
            && (r.accepted <==> Due(d, c) && Executable(m, d, c.operation))
            && !r.duplicate && r.term == e.id.term && r.index == e.id.index && r.digest == d'.state.digest
  {
    hide Q.ValidPlacement;
    hide MembershipBinding;
    hide Encodable;
    hide ApplyToStore;
    hide Pruned;
    if e.payload.command.operation.PlacementTransition? {
      BindsIff(e.payload.command.operation.placement, d.state.membership);
      hide PlacementBinding;
    }
    hide Binds;
  }

  /** An entry is an error exactly when its command is malformed, its storage fails, or its batch cannot be encoded. */
  lemma ErrorIff(m: Machine, d: Durable, e: Entry)
    ensures Decide(m, d, e).Err? <==>
            && e.payload.Normal?
            && (|| !WellFormed(m, e.payload.command)
                || (&& e.payload.command.requestId !in d.state.requests && e.payload.command.operation.RuntimeCommit?
                    && Due(d, e.payload.command) &&
                       m.prepare(d.store, e.payload.command.operation.commit).StorageFailure?))
    ensures ApplyEntry(m, d, e).Err? <==>
            || Decide(m, d, e).Err?
            || var a := Decide(m, d, e).value; !Encodable(EntryBatch(m, Finish(a.state, e.id), a.operations))
  {
    hide Q.ValidPlacement;
    hide MembershipBinding;
    hide PlacementBinding;
    hide Encodable;
    hide ApplyToStore;
    hide Pruned;
  }

  // ---- What an entry writes ----

  /** The plan of a due first-time runtime commit. */
  ghost function Planned(m: Machine, d: Durable, e: Entry): Option<Prepared> {
    if FirstCommand(d, e) && e.payload.command.operation.RuntimeCommit? && Due(d, e.payload.command) then
      var prepared := m.prepare(d.store, e.payload.command.operation.commit);
      if prepared.Plan? then Some(prepared) else None
    else None
  }

  /**
   The keyspace changes exactly by the plan of a due first-time runtime commit, which is accepted with the plan's
   outcome and counted; a commit found applied already is accepted with its known outcome and writes nothing.
   */
  lemma EntryWrites(m: Machine, d: Durable, e: Entry)
    requires ApplyEntry(m, d, e).Ok?
    ensures var (d', r) := ApplyEntry(m, d, e).value;
            match Planned(m, d, e)
            case Some(plan) =>
              && d'.store == ApplyToStore(d.store, plan.operations) && d'.state.commitCount == d.state.commitCount + 1
              && r.accepted && !r.duplicate && r.outcome == Some(plan.outcome)
            case None =>
              && d'.store == d.store && d'.state.commitCount == d.state.commitCount
              && (FirstCommand(d, e) && r.outcome.Some? ==>
                    && r.accepted && e.payload.command.operation.RuntimeCommit?
                    && m.prepare(d.store, e.payload.command.operation.commit) == AlreadyCommitted(r.outcome.value))
  {
    hide Q.ValidPlacement;
    hide MembershipBinding;
    hide PlacementBinding;
    hide Encodable;
    hide Pruned;
    assert d.store == ApplyToStore(d.store, []);
  }

  /** The keyspace after `k` entries: the plans written so far, in order. */
  ghost function Written(m: Machine, states: seq<Durable>, log: seq<Entry>, k: nat): Store
    requires |states| == |log| + 1 && k <= |log|
  {
    if k == 0 then states[0].store
    else
      match Planned(m, states[k - 1], log[k - 1])
      case Some(plan) => ApplyToStore(Written(m, states, log, k - 1), plan.operations)
      case None => Written(m, states, log, k - 1)
  }

  ghost function PlansUpTo(m: Machine, states: seq<Durable>, log: seq<Entry>, k: nat): nat
    requires |states| == |log| + 1 && k <= |log|
  {
    if k == 0 then 0 else PlansUpTo(m, states, log, k - 1) + if Planned(m, states[k - 1], log[k - 1]).Some? then 1
      else 0
  }

  /** Over every log the keyspace is exactly the plans of the accepted commits, in order, and the count their number. */
  lemma {:induction false} LogWrites(m: Machine, states: seq<Durable>, log: seq<Entry>, responses: seq<Response>,
                                     k: nat)
    requires Trace(m, states, log, responses) && k <= |log|
    ensures states[k].store == Written(m, states, log, k)
    ensures states[k].state.commitCount == states[0].state.commitCount + PlansUpTo(m, states, log, k)
    decreases k
  {
    hide ApplyEntry;
    hide Planned;
    hide ApplyToStore;
    if k > 0 {
      LogWrites(m, states, log, responses, k - 1);
      TraceStep(m, states, log, responses, k - 1);
      EntryWrites(m, states[k - 1], log[k - 1]);
    }
  }

  // ---- Fencing, both ways ----

  /**
   Under the current epoch, at its expected index and not rejected by its preparation, a first-time probe or commit is
   accepted if and only if the voters have been the same at every moment since the transition of that epoch.
   */
  lemma FencedIff(m: Machine, states: seq<Durable>, log: seq<Entry>, responses: seq<Response>, k: nat) returns (t: nat)
    requires Trace(m, states, log, responses) && states[0].state.placementEpoch.None? && k < |log|
    requires FirstCommand(states[k], log[k])
    requires var c := log[k].payload.command;
             && !c.operation.PlacementTransition? && states[k].state.placementEpoch == Some(c.epoch)
             && RightIndex(states[k].state, c)
             && (c.operation.RuntimeCommit? ==> !m.prepare(states[k].store, c.operation.commit).RejectedCommit?)
    ensures t < k && AcceptedTransition(log, responses, t) &&
            log[t].payload.command.epoch == log[k].payload.command.epoch
    ensures responses[k].accepted <==>
            forall j :: t <= j <= k ==>
              MembershipBinding(states[j].state.membership) == MembershipBinding(states[t].state.membership)
  {
    hide MembershipBinding;
    hide PlacementBinding;
    hide ApplyEntry;
    TraceStep(m, states, log, responses, k);
    AcceptedIff(m, states[k], log[k]);
    t := EpochEstablished(m, states, log, responses, k);
    BindsIff(log[t].payload.command.operation.placement, states[t].state.membership);
    assert BindingUnchanged(states, t, k) <==>
           forall j :: t <= j <= k ==>
             MembershipBinding(states[j].state.membership) == MembershipBinding(states[t].state.membership);
  }

  /** What a transition establishes: the membership's voters are exactly the placement's. */
  lemma TransitionBinds(m: Machine, states: seq<Durable>, log: seq<Entry>, responses: seq<Response>, t: nat)
    requires Trace(m, states, log, responses) && t < |log| && AcceptedTransition(log, responses, t)
    ensures FirstCommand(states[t], log[t]) &&
            Binds(log[t].payload.command.operation.placement, states[t].state.membership)
  {
    hide ApplyEntry;
    hide Binds;
    hide Due;
    TraceStep(m, states, log, responses, t);
    if FirstCommand(states[t], log[t]) {
      AcceptedIff(m, states[t], log[t]);
    } else {
      RetryEntry(m, states[t], log[t]);
    }
  }

  // ---- Requests ----

  /** One request identifier stands for one command: shard, epoch, expected index and operation. */
  lemma SameIdentityIff(a: Command, b: Command)
    requires a.requestId == b.requestId
    ensures IdentityOf(a) == IdentityOf(b) <==> a == b
  {
  }

  /**
   Within the window a request is answered as its first application was; any other command under its name is refused.
   */
  lemma RetryAnswers(m: Machine, states: seq<Durable>, log: seq<Entry>, responses: seq<Response>, start: nat, a: nat,
                     b: nat)
    requires Trace(m, states, log, responses) && Consecutive(log, start) && a < b < |log| && b <= a + 4096
    requires FirstCommand(states[a], log[a]) && log[b].payload.Normal?
    requires log[b].payload.command.requestId == log[a].payload.command.requestId
    ensures states[b + 1].store == states[b].store && states[b + 1].state.digest == states[b].state.digest
    ensures responses[b].term == log[b].id.term && responses[b].index == log[b].id.index
    ensures if log[b].payload.command == log[a].payload.command
            then responses[b] == responses[a].(duplicate := true, term := log[b].id.term, index := log[b].id.index)
            else !responses[b].accepted && !responses[b].duplicate && responses[b].outcome.None?
  {
    hide ApplyEntry;
    hide IdentityOf;
    SameIdentityIff(log[a].payload.command, log[b].payload.command);
    Remembered(m, states, log, responses, start, a, b);
    TraceStep(m, states, log, responses, b);
    RetryEntry(m, states[b], log[b]);
  }

  lemma RetryEntry(m: Machine, d: Durable, e: Entry)
    requires ApplyEntry(m, d, e).Ok? && e.payload.Normal? && e.payload.command.requestId in d.state.requests
    ensures var (d', r) := ApplyEntry(m, d, e).value;
            var previous := d.state.requests[e.payload.command.requestId];
            && d'.store == d.store && d'.state.digest == d.state.digest
            && r == if previous.identity == IdentityOf(e.payload.command)
                    then previous.response.(duplicate := true, term := e.id.term, index := e.id.index)
                    else Response(false, false, e.id.term, e.id.index, d.state.digest, None)
  {
    hide Q.ValidPlacement;
    hide Encodable;
    assert d.store == ApplyToStore(d.store, []);
  }

  // ---- The state digest ----

  datatype Step = Step(term: nat, index: nat, operation: Operation)

  /** The operations accepted for the first time, with the positions they were applied at. */
  ghost function AcceptedSteps(log: seq<Entry>, responses: seq<Response>, k: nat): seq<Step>
    requires k <= |log| == |responses|
  {
    if k == 0 then []
    else
      AcceptedSteps(log, responses, k - 1) +
      if AcceptedFirst(log, responses, k - 1)
      then [Step(log[k - 1].id.term, log[k - 1].id.index, log[k - 1].payload.command.operation)] else []
  }

  ghost function Chain(steps: seq<Step>): StateDigest {
    if steps == [] then Genesis
    else
      var last := steps[|steps| - 1];
      Transition(Chain(steps[..|steps| - 1]), last.term, last.index, last.operation)
  }

  lemma EntryDigest(m: Machine, d: Durable, e: Entry)
    requires ApplyEntry(m, d, e).Ok?
    ensures var (d', r) := ApplyEntry(m, d, e).value;
            d'.state.digest ==
            if e.payload.Normal? && r.accepted && !r.duplicate
            then Transition(d.state.digest, e.id.term, e.id.index, e.payload.command.operation) else d.state.digest
  {
    hide Q.ValidPlacement;
    hide MembershipBinding;
    hide PlacementBinding;
    hide Encodable;
    hide Pruned;
    hide ApplyToStore;
  }

  /** From the empty state the digest is the chain over what was accepted, and nothing else. */
  lemma {:induction false} DigestIsChain(m: Machine, states: seq<Durable>, log: seq<Entry>, responses: seq<Response>,
                                         k: nat)
    requires Trace(m, states, log, responses) && states[0].state.digest == Genesis && k <= |log|
    ensures states[k].state.digest == Chain(AcceptedSteps(log, responses, k))
    decreases k
  {
    hide ApplyEntry;
    if k > 0 {
      DigestIsChain(m, states, log, responses, k - 1);
      TraceStep(m, states, log, responses, k - 1);
      EntryDigest(m, states[k - 1], log[k - 1]);
      var before := AcceptedSteps(log, responses, k - 1);
      if AcceptedFirst(log, responses, k - 1) {
        var step := Step(log[k - 1].id.term, log[k - 1].id.index, log[k - 1].payload.command.operation);
        assert (before + [step])[..|before|] == before;
      } else {
        assert before + [] == before;
      }
    }
  }

  lemma {:induction false} ChainInjective(a: seq<Step>, b: seq<Step>)
    requires Chain(a) == Chain(b)
    ensures a == b
  {
    if a != [] {
      ChainInjective(a[..|a| - 1], b[..|b| - 1]);
      assert a == a[..|a| - 1] + [a[|a| - 1]] && b == b[..|b| - 1] + [b[|b| - 1]];
    }
  }

  /** Two machines with one state digest have accepted the same operations at the same positions. */
  lemma DigestFixesAccepted(
    m: Machine, states: seq<Durable>, log: seq<Entry>, responses: seq<Response>,
    n: Machine, others: seq<Durable>, other: seq<Entry>, answers: seq<Response>)
    requires Trace(m, states, log, responses) && Trace(n, others, other, answers)
    requires states[0].state.digest == others[0].state.digest == Genesis
    ensures states[|log|].state.digest == others[|other|].state.digest <==>
            AcceptedSteps(log, responses, |log|) == AcceptedSteps(other, answers, |other|)
  {
    hide ApplyEntry;
    DigestIsChain(m, states, log, responses, |log|);
    DigestIsChain(n, others, other, answers, |other|);
    if states[|log|].state.digest == others[|other|].state.digest {
      ChainInjective(AcceptedSteps(log, responses, |log|), AcceptedSteps(other, answers, |other|));
    }
  }

  // ---- Entries without a command ----

  /**
   A blank entry changes nothing but the position; a membership becomes the state's. Both are answered as accepted.
   */
  lemma OtherEntries(m: Machine, d: Durable, e: Entry)
    requires ApplyEntry(m, d, e).Ok? && !e.payload.Normal?
    ensures var (d', r) := ApplyEntry(m, d, e).value;
            && r == Response(true, false, e.id.term, e.id.index, d.state.digest, None)
            && d'.store == d.store && d'.state.lastApplied == Some(e.id) && d'.state.digest == d.state.digest
            && d'.state.membership == (if e.payload.Members? then e.payload.membership else d.state.membership)
            && d'.state.placement == d.state.placement && d'.state.placementEpoch == d.state.placementEpoch
            && d'.state.placementBinding == d.state.placementBinding
  {
    hide MembershipBinding;
    hide Encodable;
    hide Pruned;
    assert d.store == ApplyToStore(d.store, []);
  }
}
