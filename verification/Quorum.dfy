/**
 The single-term quorum simulator as state transitions
 (crates/vyrm-cluster/src/sim.rs, contract.rs). A command's digest is modelled by the command itself.
 */
module Quorum {
  import opened Common

  type NodeId = Bytes

  // ---- Placement ----

  datatype Policy = Policy(voterCount: nat, minimumZones: nat, maximumPerZone: nat) {
    predicate Valid() {
      && voterCount >= 3 && voterCount % 2 == 1
      && 2 <= minimumZones <= voterCount && maximumPerZone != 0
    }

    function Quorum(): nat {
      voterCount / 2 + 1
    }

    function ToleratedFailures(): nat
      requires voterCount >= 1
    {
      (voterCount - 1) / 2
    }
  }

  datatype Role = Voter | Learner

  datatype ReplicaPlacement = ReplicaPlacement(node: NodeId, zone: Bytes, role: Role)

  datatype Placement = Placement(epoch: nat, policy: Policy, replicas: seq<ReplicaPlacement>)

  /** The voting nodes in placement order. */
  function Voters(replicas: seq<ReplicaPlacement>): (nodes: seq<NodeId>)
    ensures forall n :: n in nodes <==> exists r :: r in replicas && r.role == Voter && r.node == n
  {
    if replicas == [] then []
    else
      var n := |replicas| - 1;
      assert replicas == replicas[..n] + [replicas[n]];
      Voters(replicas[..n]) + if replicas[n].role == Voter then [replicas[n].node] else []
  }

  function VoterZones(replicas: seq<ReplicaPlacement>): set<Bytes> {
    set r | r in replicas && r.role == Voter :: r.zone
  }

  function VotersIn(replicas: seq<ReplicaPlacement>, zone: Bytes): nat {
    if replicas == [] then 0
    else
      var n := |replicas| - 1;
      VotersIn(replicas[..n], zone) + if replicas[n].role == Voter && replicas[n].zone == zone then 1 else 0
  }

  predicate ValidPlacement(p: Placement) {
    && p.epoch != 0 && p.policy.Valid()
    && (forall i :: 0 <= i < |p.replicas| - 1 ==> Less(p.replicas[i].node, p.replicas[i + 1].node))
    && |Voters(p.replicas)| == p.policy.voterCount
    && |VoterZones(p.replicas)| >= p.policy.minimumZones
    && forall z :: z in VoterZones(p.replicas) ==> VotersIn(p.replicas, z) <= p.policy.maximumPerZone
  }

  /** Any quorum outnumbers the disks the policy tolerates losing. */
  lemma QuorumSurvives(p: Policy, quorum: set<NodeId>, losses: set<NodeId>) returns (survivor: NodeId)
    requires p.Valid() && |quorum| >= p.Quorum() && |losses| <= p.ToleratedFailures()
    ensures survivor in quorum && survivor !in losses
  {
    if quorum <= losses { SubsetSize(quorum, losses); }
    survivor :| survivor in quorum && survivor !in losses;
  }

  // ---- State ----

  datatype Entry = Entry(term: nat, index: nat, command: Bytes)

  type Log = map<nat, Entry>

  datatype Kind = Append(entry: Entry) | Ack(term: nat, index: nat) | Commit(term: nat, index: nat)

  datatype Message = Message(id: nat, from: NodeId, to: NodeId, deliverAt: nat, kind: Kind)

  datatype Replica = Replica(online: bool, diskPresent: bool, clockOffset: int, log: Log, commitIndex: nat) {
    predicate Up() {
      online && diskPresent
    }
  }

  datatype Cluster = Cluster(
    placement: Placement, leader: NodeId, now: nat, nextMessageId: nat, replicas: map<NodeId, Replica>,
    blocked: set<(NodeId, NodeId)>, pending: seq<Message>, acknowledgements: map<nat, set<NodeId>>,
    acknowledged: map<nat, Bytes>, diskLosses: set<NodeId>)

  datatype Error = Invalid | NotFound | Unavailable | Denied

  datatype Outcome = Done | Failed(error: Error)

  datatype Fault =
    | Partition(left: NodeId, right: NodeId)
    | Heal(left: NodeId, right: NodeId)
    | Delay(messageId: nat, ticks: nat)
    | Duplicate(messageId: nat)
    | Deliver(messageId: nat)
    | Reorder(messageIds: seq<nat>)
    | Crash(node: NodeId)
    | Restart(node: NodeId)
    | ClockSkew(node: NodeId, offset: int)
    | DiskLoss(node: NodeId)

  function SaturatingAdd(a: nat, b: nat): nat {
    if a + b <= U64_MAX then a + b else U64_MAX
  }

  function Start(p: Placement, leader: NodeId): Result<Cluster, Error> {
    if !ValidPlacement(p) then Err(Invalid)
    else if leader !in Voters(p.replicas) then Err(Invalid)
    else
      Ok(Cluster(p, leader, 0, 1,
        map r | r in p.replicas :: r.node := Replica(true, true, 0, map[], 0),
        {}, [], map[], map[], {}))
  }

  // ---- Messages ----

  function Enqueue(c: Cluster, from: NodeId, to: NodeId, kind: Kind): Cluster {
    c.(nextMessageId := SaturatingAdd(c.nextMessageId, 1),
       pending := c.pending + [Message(c.nextMessageId, from, to, c.now, kind)])
  }

  /** The leader addresses every listed node except itself. */
  function Broadcast(c: Cluster, nodes: seq<NodeId>, kind: Kind): Cluster {
    if nodes == [] then c
    else
      var last := nodes[|nodes| - 1];
      var before := Broadcast(c, nodes[..|nodes| - 1], kind);
      if last == c.leader then before else Enqueue(before, c.leader, last, kind)
  }

  function Position(pending: seq<Message>, id: nat): (r: Option<nat>)
    ensures r.Some? ==> r.value < |pending| && pending[r.value].id == id && forall i :: 0 <= i < r.value ==>
            pending[i].id != id
    ensures r.None? ==> forall i :: 0 <= i < |pending| ==> pending[i].id != id
  {
    if pending == [] then None
    else
      match Position(pending[..|pending| - 1], id)
      case Some(i) => Some(i)
      case None => if pending[|pending| - 1].id == id then Some(|pending| - 1) else None
  }

  predicate CanDeliver(c: Cluster, m: Message) {
    && m.deliverAt <= c.now
    && m.from in c.replicas && c.replicas[m.from].Up()
    && m.to in c.replicas && c.replicas[m.to].Up()
    && (m.from, m.to) !in c.blocked
  }

  // ---- The safety check ----

  predicate CommitsBacked(c: Cluster) {
    forall n :: n in c.replicas && c.replicas[n].commitIndex > 0 ==> c.replicas[n].commitIndex in c.replicas[n].log
  }

  predicate LogsAgree(c: Cluster) {
    forall n, m, i :: n in c.replicas && m in c.replicas && i in c.replicas[n].log && i in c.replicas[m].log ==>
      && c.replicas[n].log[i].term == c.replicas[m].log[i].term
      && c.replicas[n].log[i].command == c.replicas[m].log[i].command
  }

  predicate AcknowledgedSurvive(c: Cluster) {
    c.placement.policy.voterCount >= 1 && |c.diskLosses| <= c.placement.policy.ToleratedFailures() ==>
      forall i :: i in c.acknowledged ==>
        exists n :: n in c.replicas && i in c.replicas[n].log && c.replicas[n].log[i].command == c.acknowledged[i]
  }

  predicate SafetyHolds(c: Cluster) {
    CommitsBacked(c) && LogsAgree(c) && AcknowledgedSurvive(c)
  }

  function VerifySafety(c: Cluster): Outcome {
    if SafetyHolds(c) then Done else Failed(Denied)
  }

  // ---- Transitions ----

  function Update(c: Cluster, node: NodeId, replica: Replica): Cluster {
    c.(replicas := c.replicas[node := replica])
  }

  function MaybeCommit(c: Cluster, index: nat): (Cluster, Outcome) {
    if index in c.acknowledged
       || (if index in c.acknowledgements then |c.acknowledgements[index]| else 0) < c.placement.policy.Quorum() then
           (c, Done)
    else if c.leader !in c.replicas then (c, Failed(NotFound))
    else
      var leader := c.replicas[c.leader];
      if index !in leader.log then (c, Failed(Denied))
      else
        var entry := leader.log[index];
        var c1 := Update(c, c.leader, leader.(commitIndex := index));
        (Broadcast(c1.(acknowledged := c.acknowledged[index := entry.command]), Voters(c.placement.replicas),
                   Commit(entry.term, index)), Done)
  }

  function Acknowledge(c: Cluster, index: nat, node: NodeId): Cluster {
    var known := if index in c.acknowledgements then c.acknowledgements[index] else {};
    c.(acknowledgements := c.acknowledgements[index := known + {node}])
  }

  /** The greatest index of a log, zero when it is empty. */
  ghost function LastIndex(log: Log): (last: nat)
    ensures forall i :: i in log ==> i <= last
    ensures last == 0 || last in log
    decreases |log.Keys|
  {
    if log == map[] then 0
    else
      var i :| i in log;
      var rest := log - {i};
      assert rest.Keys == log.Keys - {i};
      assert forall j :: j in log ==> j == i || j in rest;
      var last := LastIndex(rest);
      if i > last then i else last
  }

  /** The leader stores an entry, counts itself and addresses the other voters. */
  function Submit(c: Cluster, entry: Entry): Cluster
    requires c.leader in c.replicas
  {
    var leader := c.replicas[c.leader];
    var c1 := Update(c, c.leader, leader.(log := leader.log[entry.index := entry]));
    Broadcast(Acknowledge(c1, entry.index, c.leader), Voters(c.placement.replicas), Append(entry))
  }

  ghost function Propose(c: Cluster, command: Bytes): (Cluster, Result<nat, Error>) {
    if c.leader !in c.replicas then (c, Err(NotFound)) else
    var leader := c.replicas[c.leader];
    if !leader.Up() then (c, Err(Unavailable)) else
    var index := LastIndex(leader.log) + 1;
    var (c1, committed) := MaybeCommit(Submit(c, Entry(1, index, command)), index);
    (c1, if committed.Failed? then Err(committed.error) else Ok(index))
  }

  function Receive(c: Cluster, m: Message): (Cluster, Outcome)
    requires m.to in c.replicas
  {
    var target := c.replicas[m.to];
    match m.kind
    case Append(entry) =>
      if entry.index > 1 && entry.index - 1 !in target.log then (c, Failed(Unavailable))
      else if entry.index in target.log && target.log[entry.index] != entry then (c, Failed(Denied))
      else
        var c1 := Update(c, m.to, target.(log := target.log[entry.index := entry]));
        (Enqueue(c1, m.to, m.from, Ack(entry.term, entry.index)), Done)
    case Ack(term, index) =>
      if term != 1 || m.to != c.leader then (c, Failed(Denied))
      else MaybeCommit(Acknowledge(c, index, m.from), index)
    case Commit(term, index) =>
      if term != 1 || m.from != c.leader then (c, Failed(Denied))
      else if index !in target.log then (c, Failed(Unavailable))
      else
        var commit := if target.commitIndex >= index then target.commitIndex else index;
        (Update(c, m.to, target.(commitIndex := commit)), Done)
  }

  /** A message leaves the queue once it can be delivered, whatever its receiver then does with it. */
  function DeliverMessage(c: Cluster, id: nat): (Cluster, Outcome) {
    var position := Position(c.pending, id);
    if position.None? then (c, Failed(NotFound)) else
    var m := c.pending[position.value];
    if !CanDeliver(c, m) then (c, Failed(Unavailable)) else
    var (c1, received) := Receive(c.(pending := c.pending[..position.value] + c.pending[position.value + 1..]), m);
    (c1, if received.Failed? then received else VerifySafety(c1))
  }

  function DeliverAll(c: Cluster, ids: seq<nat>): (Cluster, Outcome)
    decreases |ids|
  {
    if ids == [] then (c, Done)
    else
      var (before, outcome) := DeliverAll(c, ids[..|ids| - 1]);
      if outcome.Failed? then (before, outcome) else DeliverMessage(before, ids[|ids| - 1])
  }

  /** A fault's own effect, before the closing safety check. */
  function Disturb(c: Cluster, fault: Fault): (Cluster, Outcome) {
    match fault
    case Partition(left, right) =>
      if left !in c.replicas || right !in c.replicas then (c, Failed(NotFound))
      else (c.(blocked := c.blocked + {(left, right), (right, left)}), Done)
    case Heal(left, right) => (c.(blocked := c.blocked - {(left, right), (right, left)}), Done)
    case Delay(id, ticks) =>
      var position := Position(c.pending, id);
      if position.None? then (c, Failed(NotFound))
      else
        var m := c.pending[position.value];
        (c.(pending := c.pending[position.value := m.(deliverAt := SaturatingAdd(m.deliverAt, ticks))]), Done)
    case Duplicate(id) =>
      var position := Position(c.pending, id);
      if position.None? then (c, Failed(NotFound))
      else
        (c.(nextMessageId := SaturatingAdd(c.nextMessageId, 1),
            pending := c.pending + [c.pending[position.value].(id := c.nextMessageId)]), Done)
    case Deliver(id) => DeliverMessage(c, id)
    case Reorder(ids) => DeliverAll(c, ids)
    case Crash(node) =>
      if node !in c.replicas then (c, Failed(NotFound)) else (Update(c, node, c.replicas[node].(online := false)), Done)
    case Restart(node) =>
      if node !in c.replicas then (c, Failed(NotFound))
      else if !c.replicas[node].diskPresent then (c, Failed(Unavailable))
      else (Update(c, node, c.replicas[node].(online := true)), Done)
    case ClockSkew(node, offset) =>
      if node !in c.replicas then (c, Failed(NotFound))
        else (Update(c, node, c.replicas[node].(clockOffset := offset)), Done)
    case DiskLoss(node) =>
      if node !in c.replicas then (c, Failed(NotFound))
      else
        var lost := Update(c, node, Replica(false, false, c.replicas[node].clockOffset, map[], 0));
        (lost.(diskLosses := c.diskLosses + {node}), Done)
  }

  function ApplyFault(c: Cluster, fault: Fault): (Cluster, Outcome) {
    var (c1, disturbed) := Disturb(c, fault);
    (c1, if disturbed.Failed? then disturbed else VerifySafety(c1))
  }

  function Advance(c: Cluster, ticks: nat): Cluster {
    c.(now := SaturatingAdd(c.now, ticks))
  }

  // ---- Runs ----

  datatype Operation = ProposeOp(command: Bytes) | FaultOp(fault: Fault) | AdvanceOp(ticks: nat)

  ghost function Step(c: Cluster, op: Operation): (Cluster, Outcome) {
    match op
    case ProposeOp(command) =>
      var (c1, proposed) := Propose(c, command);
      (c1, if proposed.Err? then Failed(proposed.error) else Done)
    case FaultOp(fault) => ApplyFault(c, fault)
    case AdvanceOp(ticks) => (Advance(c, ticks), Done)
  }

  /** Failed steps do not end a run: it goes on from whatever state they left. */
  ghost function Run(c: Cluster, ops: seq<Operation>): Cluster {
    if ops == [] then c else Step(Run(c, ops[..|ops| - 1]), ops[|ops| - 1]).0
  }
}
