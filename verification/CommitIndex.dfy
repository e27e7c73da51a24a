/**
 The leader's commit index (crates/vyrm-cluster/src/sim.rs). It is assigned and not maximised, so it may fall: this
 module says exactly when, and shows a run in which it does.
 */
module CommitIndex {
  import opened Common
  import opened Quorum
  import opened QuorumSafety

  ghost function LeaderCommit(c: Cluster): nat {
    if c.leader in c.replicas then c.replicas[c.leader].commitIndex else 0
  }

  /** The index whose quorum the delivery of message `id` completes. */
  ghost function Completed(c: Cluster, id: nat): Option<nat> {
    var position := Position(c.pending, id);
    if position.None? || !CanDeliver(c, c.pending[position.value]) then None
    else
      var m := c.pending[position.value];
      if && m.kind.Ack? && m.kind.index !in c.acknowledged && m.kind.index in c.acknowledgements
         && |c.acknowledgements[m.kind.index] + {m.from}| >= c.placement.policy.Quorum()
      then Some(m.kind.index) else None
  }

  /** The last index whose quorum a row of deliveries completes. */
  ghost function LastCompleted(c: Cluster, ids: seq<nat>): Option<nat>
    decreases |ids|
  {
    if ids == [] then None
    else
      var (before, outcome) := DeliverAll(c, ids[..|ids| - 1]);
      var last := if outcome.Failed? then None else Completed(before, ids[|ids| - 1]);
      if last.Some? then last else LastCompleted(c, ids[..|ids| - 1])
  }

  /**
   Out-of-order acknowledgements lower the commit index by completing the quorum of a lower index after that of a higher
   one, and a lost disk resets it. No other operation lowers it.
   */
  ghost predicate Lowers(c: Cluster, op: Operation) {
    match op
    case FaultOp(Deliver(id)) => Completed(c, id).Some? && Completed(c, id).value < LeaderCommit(c)
    case FaultOp(Reorder(ids)) => LastCompleted(c, ids).Some? && LastCompleted(c, ids).value < LeaderCommit(c)
    case FaultOp(DiskLoss(node)) => node == c.leader && LeaderCommit(c) > 0
    case _ => false
  }

  lemma CommitAssigned(c: Cluster, h: History, index: nat)
    requires Inv(c, h) && c.leader !in c.diskLosses && index in c.acknowledgements
    ensures var c' := MaybeCommit(c, index).0;
            LeaderCommit(c') ==
            if index !in c.acknowledged && |c.acknowledgements[index]| >= c.placement.policy.Quorum() then index
            else LeaderCommit(c)
  {
    hide Voters;
    hide Broadcast;
    var leader := c.replicas[c.leader];
    assert index in leader.log;
    hide Inv;
    var entry, c1 := leader.log[index], Update(c, c.leader, leader.(commitIndex := index));
    BroadcastShape(c1.(acknowledged := c.acknowledged[index := entry.command]), Voters(c.placement.replicas),
                   Commit(entry.term, index));
  }

  lemma DeliverCommit(c: Cluster, h: History, id: nat)
    requires Inv(c, h)
    ensures LeaderCommit(DeliverMessage(c, id).0) ==
            if Completed(c, id).Some? then Completed(c, id).value else LeaderCommit(c)
  {
    hide SafetyHolds;
    hide Voters;
    hide Broadcast;
    var position := Position(c.pending, id);
    if position.Some? && CanDeliver(c, c.pending[position.value]) {
      var at := position.value;
      var m, c1 := c.pending[at], c.(pending := c.pending[..at] + c.pending[at + 1..]);
      assert MessageOk(c, h, m);
      if m.kind.Ack? {
        Dequeue(c, h, at);
        SameMemory(c, c1, h, m);
        CountedOk(c1, h, m);
        CommitAssigned(Acknowledge(c1, m.kind.index, m.from), h, m.kind.index);
      }
    }
  }

  lemma {:induction false} DeliverAllCommit(c: Cluster, h: History, ids: seq<nat>)
    requires Inv(c, h)
    ensures LeaderCommit(DeliverAll(c, ids).0) ==
            if LastCompleted(c, ids).Some? then LastCompleted(c, ids).value else LeaderCommit(c)
    decreases |ids|
  {
    hide Inv;
    hide DeliverMessage;
    hide Completed;
    hide LeaderCommit;
    if ids != [] {
      var front := ids[..|ids| - 1];
      DeliverAllCommit(c, h, front);
      DeliverAllOk(c, h, front);
      DeliverCommit(DeliverAll(c, front).0, h, ids[|ids| - 1]);
    }
  }

  /** A proposal counts the leader alone, which is no quorum. */
  lemma ProposeCommit(c: Cluster, h: History, command: Bytes)
    requires Inv(c, h)
    ensures LeaderCommit(Propose(c, command).0) == LeaderCommit(c)
  {
    hide Voters;
    hide Broadcast;
    var leader := c.replicas[c.leader];
    if leader.Up() {
      LeaderLog(c, h);
      var entry := Entry(1, LastIndex(leader.log) + 1, command);
      var c2 := Acknowledge(Update(c, c.leader, leader.(log := leader.log[entry.index := entry])), entry.index,
                            c.leader);
      BroadcastShape(c2, Voters(c.placement.replicas), Append(entry));
      assert entry.index !in c.acknowledgements;
      assert c2.acknowledgements[entry.index] == {c.leader};
    }
  }

  /** In every state that a run reaches, an operation lowers the leader's commit index exactly when `Lowers` says so. */
  lemma LeaderCommitFallsIff(c: Cluster, h: History, op: Operation)
    requires Inv(c, h)
    ensures LeaderCommit(Step(c, op).0) < LeaderCommit(c) <==> Lowers(c, op)
  {
    hide Inv;
    hide SafetyHolds;
    hide DeliverMessage;
    hide Completed;
    hide LastCompleted;
    hide Propose;
    match op
    case ProposeOp(command) => ProposeCommit(c, h, command);
    case FaultOp(fault) =>
      if fault.Deliver? { DeliverCommit(c, h, fault.messageId); }
      if fault.Reorder? { DeliverAllCommit(c, h, fault.messageIds); }
    case AdvanceOp(ticks) =>
  }

  lemma EveryRunCommitFallsIff(p: Placement, leader: NodeId, ops: seq<Operation>, next: Operation)
    requires Start(p, leader).Ok?
    ensures var c := Run(Start(p, leader).value, ops);
            LeaderCommit(Step(c, next).0) < LeaderCommit(c) <==> Lowers(c, next)
  {
    hide Inv;
    hide Step;
    hide Lowers;
    StartOk(p, leader);
    var h := RunInvariant(Start(p, leader).value, [], ops);
    LeaderCommitFallsIff(Run(Start(p, leader).value, ops), h, next);
  }

  // ---- A run in which it falls ----

  const A: NodeId := [1]
  const B: NodeId := [2]
  const C: NodeId := [3]
  const THREE: Placement :=
      Placement(1, Policy(3, 2, 2),
                [ReplicaPlacement(A, [1], Voter), ReplicaPlacement(B, [2], Voter), ReplicaPlacement(C, [3], Voter)])
  const FIRST: Entry := Entry(1, 1, [1])
  const SECOND: Entry := Entry(1, 2, [2])

  /** Both entries reach the second voter, and its acknowledgement of the second entry overtakes that of the first. */
  const OVERTAKING: seq<Operation> := [
    ProposeOp([1]), ProposeOp([2]), FaultOp(Deliver(1)), FaultOp(Deliver(3)), FaultOp(Deliver(6))]

  lemma ThreeVoters()
    ensures Voters(THREE.replicas) == [A, B, C]
    ensures Voters(THREE.replicas[..1]) == [A]
  {
    var rs := THREE.replicas;
    assert rs[..2][..1] == rs[..1] && rs[..1][..0] == [];
    assert Voters(rs[..1]) == [A];
    assert Voters(rs[..2]) == [A, B];
    assert rs[..3] == rs;
  }

  lemma OneVoterPerZone(zone: Bytes)
    ensures VotersIn(THREE.replicas, zone) <= 1
  {
    var rs := THREE.replicas;
    assert rs[..2][..1] == rs[..1] && rs[..1][..0] == [];
    assert VotersIn(rs[..1], zone) == if zone == [1] then 1 else 0;
    assert VotersIn(rs[..2], zone) == (if zone == [1] then 1 else 0) + if zone == [2] then 1 else 0;
  }

  lemma ThreeStart()
    ensures Start(THREE, A) == Ok(Cluster(THREE, A, 0, 1, Replicas(map[], 0, map[]), {}, [], map[], map[], {}))
  {
    ThreeVoters();
    hide Voters;
    var rs := THREE.replicas;
    assert rs[0] in rs && rs[1] in rs && rs[2] in rs;
    SubsetSize({[1], [2]}, VoterZones(rs));
    assert |{[1], [2]}| == 2;
    forall z | z in VoterZones(rs) ensures VotersIn(rs, z) <= 2 { OneVoterPerZone(z); }
    hide VotersIn;
    assert ValidPlacement(THREE);
    assert (map r | r in rs :: r.node := Replica(true, true, 0, map[], 0)) == Replicas(map[], 0, map[]);
  }

  /** The leader and the second voter as given, the third voter empty. */
  function Replicas(leader: Log, commit: nat, second: Log): map<NodeId, Replica> {
    map[A := Replica(true, true, 0, leader, commit), B := Replica(true, true, 0, second, 0),
        C := Replica(true, true, 0, map[], 0)]
  }

  lemma BroadcastTwo(c: Cluster, kind: Kind)
    requires c.leader == A
    ensures Broadcast(c, [A, B, C], kind) == Enqueue(Enqueue(c, A, B, kind), A, C, kind)
  {
    assert [A, B, C][..2] == [A, B] && [A, B][..1] == [A] && [A][..0] == [];
    assert Broadcast(c, [A], kind) == c;
    assert Broadcast(c, [A, B], kind) == Enqueue(c, A, B, kind);
  }

  function Sent(id: nat, from: NodeId, to: NodeId, kind: Kind): Message {
    Message(id, from, to, 0, kind)
  }

  function AfterFirst(): Cluster {
    Cluster(THREE, A, 0, 3, Replicas(map[1 := FIRST], 0, map[]), {},
            [Sent(1, A, B, Append(FIRST)), Sent(2, A, C, Append(FIRST))], map[1 := {A}], map[], {})
  }

  function AfterSecond(): Cluster {
    Cluster(THREE, A, 0, 5, Replicas(map[1 := FIRST, 2 := SECOND], 0, map[]), {},
            [Sent(1, A, B, Append(FIRST)), Sent(2, A, C, Append(FIRST)), Sent(3, A, B, Append(SECOND)),
             Sent(4, A, C, Append(SECOND))],
            map[1 := {A}, 2 := {A}], map[], {})
  }

  function AfterThird(): Cluster {
    Cluster(THREE, A, 0, 6, Replicas(map[1 := FIRST, 2 := SECOND], 0, map[1 := FIRST]), {},
            [Sent(2, A, C, Append(FIRST)), Sent(3, A, B, Append(SECOND)), Sent(4, A, C, Append(SECOND)),
             Sent(5, B, A, Ack(1, 1))],
            map[1 := {A}, 2 := {A}], map[], {})
  }

  function AfterFourth(): Cluster {
    Cluster(THREE, A, 0, 7, Replicas(map[1 := FIRST, 2 := SECOND], 0, map[1 := FIRST, 2 := SECOND]), {},
            [Sent(2, A, C, Append(FIRST)), Sent(4, A, C, Append(SECOND)), Sent(5, B, A, Ack(1, 1)),
             Sent(6, B, A, Ack(1, 2))],
            map[1 := {A}, 2 := {A}], map[], {})
  }

  function AfterFifth(): Cluster {
    Cluster(THREE, A, 0, 9, Replicas(map[1 := FIRST, 2 := SECOND], 2, map[1 := FIRST, 2 := SECOND]), {},
            [Sent(2, A, C, Append(FIRST)), Sent(4, A, C, Append(SECOND)), Sent(5, B, A, Ack(1, 1)),
             Sent(7, A, B, Commit(1, 2)), Sent(8, A, C, Commit(1, 2))],
            map[1 := {A}, 2 := {A, B}], map[2 := [2]], {})
  }

  /** A proposal in this cluster, before any quorum. */
  lemma Proposed(c: Cluster, entry: Entry)
    requires c.placement == THREE && c.leader == A && A in c.replicas && c.replicas[A].Up() && entry.term == 1
    requires entry.index == LastIndex(c.replicas[A].log) + 1 && entry.index !in c.acknowledgements
    ensures var c1 := Update(c, A, c.replicas[A].(log := c.replicas[A].log[entry.index := entry]));
            Propose(c, entry.command).0 ==
            Enqueue(Enqueue(c1.(acknowledgements := c.acknowledgements[entry.index := {A}]), A, B, Append(entry)), A, C,
                    Append(entry))
  {
    ThreeVoters();
    hide Voters;
    var c1 := Update(c, A, c.replicas[A].(log := c.replicas[A].log[entry.index := entry]));
    var c2 := c1.(acknowledgements := c.acknowledgements[entry.index := {A}]);
    assert Acknowledge(c1, entry.index, A) == c2 by { assert {} + {A} == {A}; }
    BroadcastTwo(c2, Append(entry));
  }

  lemma FirstProposed()
    ensures Start(THREE, A).Ok? && Propose(Start(THREE, A).value, [1]).0 == AfterFirst()
  {
    hide Propose;
    ThreeStart();
    hide Start;
    Proposed(Start(THREE, A).value, FIRST);
  }

  lemma SecondProposed()
    ensures Propose(AfterFirst(), [2]).0 == AfterSecond()
  {
    hide Propose;
    var log := AfterFirst().replicas[A].log;
    assert log == map[1 := FIRST] && 1 in log;
    assert LastIndex(log) == 1;
    hide LastIndex;
    Proposed(AfterFirst(), SECOND);
  }

  lemma Found(pending: seq<Message>, at: nat)
    requires at < |pending| && forall i :: 0 <= i < at ==> pending[i].id != pending[at].id
    ensures Position(pending, pending[at].id) == Some(at)
  {
  }

  /** What the delivery of an entry to a voter that is ready for it does. */
  lemma Appended(c: Cluster, at: nat, entry: Entry)
    requires at < |c.pending| && CanDeliver(c, c.pending[at]) && c.pending[at].kind == Append(entry)
    requires forall i :: 0 <= i < at ==> c.pending[i].id != c.pending[at].id
    requires var log := c.replicas[c.pending[at].to].log;
             entry.index !in log && (entry.index > 1 ==> entry.index - 1 in log)
    ensures var m := c.pending[at];
            var target := c.replicas[m.to];
            var c1 := Update(c, m.to, target.(log := target.log[entry.index := entry]));
            DeliverMessage(c, m.id).0 ==
            Enqueue(c1.(pending := c.pending[..at] + c.pending[at + 1..]), m.to, m.from, Ack(entry.term, entry.index))
  {
    hide SafetyHolds;
    Found(c.pending, at);
    hide Position;
  }

  lemma AppendsRun()
    ensures DeliverMessage(AfterSecond(), 1).0 == AfterThird()
    ensures DeliverMessage(AfterThird(), 3).0 == AfterFourth()
  {
    hide DeliverMessage;
    Appended(AfterSecond(), 0, FIRST);
    assert DeliverMessage(AfterSecond(), 1).0.replicas == AfterThird().replicas;
    Appended(AfterThird(), 1, SECOND);
    assert DeliverMessage(AfterThird(), 3).0.replicas == AfterFourth().replicas;
  }

  lemma AckRuns()
    ensures DeliverMessage(AfterFourth(), 6).0 == AfterFifth()
  {
    hide SafetyHolds;
    ThreeVoters();
    hide Voters;
    var c, m := AfterFourth(), AfterFourth().pending[3];
    Found(c.pending, 3);
    hide Position;
    var c1 := Acknowledge(c.(pending := c.pending[..3] + c.pending[4..]), 2, B);
    assert {A} + {B} == {A, B};
    assert c1.acknowledgements == map[1 := {A}, 2 := {A, B}];
    assert |c1.acknowledgements[2]| == 2;
    var c2 := Update(c1, A, c1.replicas[A].(commitIndex := 2)).(acknowledged := map[2 := [2]]);
    BroadcastTwo(c2, Commit(1, 2));
    hide Broadcast;
    assert MaybeCommit(c1, 2).0 == Enqueue(Enqueue(c2, A, B, Commit(1, 2)), A, C, Commit(1, 2));
    assert AfterFifth().replicas == c2.replicas;
    assert Enqueue(Enqueue(c2, A, B, Commit(1, 2)), A, C, Commit(1, 2)).pending == AfterFifth().pending;
  }

  lemma RunNext(c: Cluster, ops: seq<Operation>, next: Operation)
    ensures Run(c, ops + [next]) == Step(Run(c, ops), next).0
  {
    hide Step;
    assert (ops + [next])[..|ops|] == ops;
  }

  lemma OvertakingRuns()
    ensures Start(THREE, A).Ok? && Run(Start(THREE, A).value, OVERTAKING) == AfterFifth()
  {
    hide Propose;
    hide DeliverMessage;
    hide SafetyHolds;
    FirstProposed();
    SecondProposed();
    AppendsRun();
    AckRuns();
    var start, ops := Start(THREE, A).value, OVERTAKING;
    assert ops == [] + [ops[0]] + [ops[1]] + [ops[2]] + [ops[3]] + [ops[4]];
    RunNext(start, [], ops[0]);
    RunNext(start, [] + [ops[0]], ops[1]);
    RunNext(start, [] + [ops[0]] + [ops[1]], ops[2]);
    RunNext(start, [] + [ops[0]] + [ops[1]] + [ops[2]], ops[3]);
    RunNext(start, [] + [ops[0]] + [ops[1]] + [ops[2]] + [ops[3]], ops[4]);
  }

  /** After that run the late acknowledgement takes the leader's commit index from 2 back to 1. */
  lemma LeaderCommitCanFall()
    ensures Start(THREE, A).Ok?
    ensures var c := Run(Start(THREE, A).value, OVERTAKING);
            LeaderCommit(c) == 2 && LeaderCommit(Step(c, FaultOp(Deliver(5))).0) == 1
  {
    hide Step;
    hide Run;
    hide Inv;
    OvertakingRuns();
    StartOk(THREE, A);
    hide Start;
    var h := RunInvariant(Start(THREE, A).value, [], OVERTAKING);
    LateCompletes();
    DeliverCommit(AfterFifth(), h, 5);
    DeliverStep(AfterFifth(), 5);
    hide DeliverMessage;
    hide Completed;
  }

  lemma LateCompletes()
    ensures Completed(AfterFifth(), 5) == Some(1)
  {
    var c := AfterFifth();
    Found(c.pending, 2);
    hide Position;
    assert c.acknowledgements[1] == {A} && c.pending[2].from == B;
    assert |{A} + {B}| == 2;
  }

  lemma DeliverStep(c: Cluster, id: nat)
    ensures Step(c, FaultOp(Deliver(id))).0 == DeliverMessage(c, id).0
  {
    hide DeliverMessage;
    hide SafetyHolds;
  }
}
