/** Safety of the quorum simulator in every reachable state. */
module QuorumSafety {
  import opened Common
  import opened Quorum

  /** The proposals so far: entry number `i` of the single term is `h[i - 1]`. */
  type History = seq<Entry>

  ghost predicate HistoryOk(h: History) {
    forall i :: 0 <= i < |h| ==> h[i].term == 1 && h[i].index == i + 1
  }

  /** A log is a contiguous prefix of the history. */
  ghost predicate LogOk(log: Log, h: History) {
    && (forall i :: i in log ==> 1 <= i <= |h| && log[i] == h[i - 1])
    && (forall i, j :: i in log && 1 <= j <= i ==> j in log)
  }

  /** Node `n` has `i` on disk, unless it has lost its disk since. */
  ghost predicate Stored(c: Cluster, n: NodeId, i: nat) {
    n in c.diskLosses || (n in c.replicas && i in c.replicas[n].log)
  }

  ghost predicate NodesOk(c: Cluster) {
    && c.placement.policy.Valid()
    && c.leader in c.replicas && c.leader in Voters(c.placement.replicas)
    && (forall n :: n in Voters(c.placement.replicas) ==> n in c.replicas)
  }

  ghost predicate ReplicaOk(r: Replica, lost: bool, h: History) {
    && LogOk(r.log, h)
    && (r.commitIndex > 0 ==> r.commitIndex in r.log)
    && (lost <==> !r.diskPresent)
    && (lost ==> !r.online && r.log == map[])
  }

  ghost predicate ReplicasOk(c: Cluster, h: History) {
    && (forall n :: n in c.replicas ==> ReplicaOk(c.replicas[n], n in c.diskLosses, h))
    && (c.leader !in c.diskLosses && c.leader in c.replicas ==> forall i :: 1 <= i <= |h| ==>
        i in c.replicas[c.leader].log)
  }

  ghost predicate MessageOk(c: Cluster, h: History, m: Message) {
    match m.kind
    case Append(entry) => m.from == c.leader && m.to in Voters(c.placement.replicas) && 1 <= entry.index <= |h| &&
      entry == h[entry.index - 1]
    case Ack(term, index) => m.to == c.leader && m.from in Voters(c.placement.replicas) && term == 1 &&
      1 <= index <= |h| && Stored(c, m.from, index)
    case Commit(term, index) => m.from == c.leader && m.to != c.leader && term == 1 && index in c.acknowledged
  }

  ghost predicate PendingOk(c: Cluster, h: History) {
    forall i :: 0 <= i < |c.pending| ==> MessageOk(c, h, c.pending[i])
  }

  ghost predicate AcknowledgementsOk(c: Cluster, h: History) {
    && (forall i :: i in c.acknowledgements <==> 1 <= i <= |h|)
    && (forall i, n :: i in c.acknowledgements && n in c.acknowledgements[i] ==>
        n in Voters(c.placement.replicas) && Stored(c, n, i))
    && (forall i :: i in c.acknowledged ==>
          && i in c.acknowledgements && c.acknowledged[i] == h[i - 1].command
          && |c.acknowledgements[i]| >= c.placement.policy.Quorum())
  }

  ghost predicate Inv(c: Cluster, h: History) {
    NodesOk(c) && HistoryOk(h) && ReplicasOk(c, h) && PendingOk(c, h) && AcknowledgementsOk(c, h)
  }

  // ---- The invariant makes the safety check succeed ----

  lemma InvIsSafe(c: Cluster, h: History)
    requires Inv(c, h)
    ensures SafetyHolds(c)
  {
    assert CommitsBacked(c);
    assert LogsAgree(c);
    if |c.diskLosses| <= c.placement.policy.ToleratedFailures() {
      forall i | i in c.acknowledged
        ensures exists n ::
                  n in c.replicas && i in c.replicas[n].log && c.replicas[n].log[i].command == c.acknowledged[i]
      {
        var n := QuorumSurvives(c.placement.policy, c.acknowledgements[i], c.diskLosses);
        assert Stored(c, n, i);
      }
    }
  }

  /** An acknowledged index that no other acknowledged index exceeds. */
  lemma HighestAcknowledged(acknowledged: set<nat>) returns (top: nat)
    requires acknowledged != {}
    ensures top in acknowledged && forall i :: i in acknowledged ==> i <= top
    decreases |acknowledged|
  {
    var i :| i in acknowledged;
    if acknowledged == {i} {
      top := i;
    } else {
      var rest := acknowledged - {i};
      top := HighestAcknowledged(rest);
      if i > top { top := i; }
      assert forall j :: j in acknowledged ==> j == i || j in rest;
    }
  }

  /**
   Within the tolerated number of lost disks one voter that kept its disk holds every acknowledged entry: a quorum
   of the highest acknowledged index has a survivor, and its log has no gaps.
   */
  lemma OneSurvivorHoldsAll(c: Cluster, h: History) returns (survivor: NodeId)
    requires Inv(c, h) && |c.diskLosses| <= c.placement.policy.ToleratedFailures() && c.acknowledged != map[]
    ensures survivor in Voters(c.placement.replicas) && survivor in c.replicas
    ensures survivor !in c.diskLosses && c.replicas[survivor].diskPresent
    ensures forall i :: i in c.acknowledged ==>
              i in c.replicas[survivor].log && c.replicas[survivor].log[i].command == c.acknowledged[i]
  {
    var first :| first in c.acknowledged;
    var top := HighestAcknowledged(c.acknowledged.Keys);
    survivor := QuorumSurvives(c.placement.policy, c.acknowledgements[top], c.diskLosses);
    assert Stored(c, survivor, top);
    assert ReplicaOk(c.replicas[survivor], false, h);
  }

  // ---- What transitions keep ----

  /** Same cluster, longer history, nothing forgotten except by losing disks. */
  ghost predicate Grows(c: Cluster, h: History, c': Cluster, h': History) {
    && c'.placement == c.placement && c'.leader == c.leader && h <= h'
    && (forall n, i :: Stored(c, n, i) ==> Stored(c', n, i))
    && c.acknowledged.Keys <= c'.acknowledged.Keys
  }

  lemma MessagesKept(c: Cluster, h: History, c': Cluster, h': History)
    requires PendingOk(c, h) && Grows(c, h, c', h')
    ensures forall i :: 0 <= i < |c.pending| ==> MessageOk(c', h', c.pending[i])
  {
    forall i | 0 <= i < |c.pending| ensures MessageOk(c', h', c.pending[i]) {
      assert MessageOk(c, h, c.pending[i]);
    }
  }

  /** Broadcasting only appends messages of one kind from the leader. */
  lemma {:induction false} BroadcastShape(c: Cluster, nodes: seq<NodeId>, kind: Kind)
    ensures var c' := Broadcast(c, nodes, kind);
            && c' == c.(nextMessageId := c'.nextMessageId, pending := c'.pending)
            && c.pending <= c'.pending
            && (forall i :: |c.pending| <= i < |c'.pending| ==>
                 c'.pending[i].from == c.leader && c'.pending[i].to in nodes && c'.pending[i].to != c.leader &&
                     c'.pending[i].kind == kind)
  {
    if nodes != [] {
      BroadcastShape(c, nodes[..|nodes| - 1], kind);
    }
  }

  /** Queue, links and clocks may change as long as every queued message stays justified. */
  lemma QueueChange(c: Cluster, c': Cluster, h: History)
    requires Inv(c, h)
    requires c' == c.(pending := c'.pending, nextMessageId := c'.nextMessageId, blocked := c'.blocked, now := c'.now)
    requires forall i :: 0 <= i < |c'.pending| ==> MessageOk(c, h, c'.pending[i])
    ensures Inv(c', h)
  {
    hide ReplicaOk;
    hide HistoryOk;
    hide Policy.Valid;
    hide Voters;
    assert forall n, i :: Stored(c, n, i) <==> Stored(c', n, i);
    forall i | 0 <= i < |c'.pending| ensures MessageOk(c', h, c'.pending[i]) { assert MessageOk(c, h, c'.pending[i]); }
  }

  lemma BroadcastOk(c: Cluster, h: History, kind: Kind)
    requires Inv(c, h)
    requires kind.Append? ==> 1 <= kind.entry.index <= |h| && kind.entry == h[kind.entry.index - 1]
    requires kind.Commit? ==> kind.term == 1 && kind.index in c.acknowledged
    requires !kind.Ack?
    ensures Inv(Broadcast(c, Voters(c.placement.replicas), kind), h)
  {
    InvParts(c, h);
    hide Inv;
    hide Broadcast;
    hide Voters;
    var voters := Voters(c.placement.replicas);
    BroadcastShape(c, voters, kind);
    var c' := Broadcast(c, voters, kind);
    forall i | 0 <= i < |c'.pending| ensures MessageOk(c, h, c'.pending[i]) {
      if i < |c.pending| { assert c'.pending[i] == c.pending[i]; }
    }
    QueueChange(c, c', h);
  }

  /** Growing storage keeps queued messages and counted acknowledgements justified. */
  lemma StoredGrows(c: Cluster, c': Cluster, h: History)
    requires PendingOk(c, h) && AcknowledgementsOk(c, h)
    requires c' == c.(replicas := c'.replicas, diskLosses := c'.diskLosses)
    requires forall n, i :: Stored(c, n, i) ==> Stored(c', n, i)
    ensures PendingOk(c', h) && AcknowledgementsOk(c', h)
  {
    hide Voters;
    hide Stored;
    assert Grows(c, h, c', h);
    MessagesKept(c, h, c', h);
  }

  /** One replica may change in any way that loses nothing, unless it loses its disk. */
  lemma UpdateOk(c: Cluster, h: History, node: NodeId, r: Replica, losses: set<NodeId>)
    requires Inv(c, h) && node in c.replicas && ReplicaOk(r, node in losses, h)
    requires losses == c.diskLosses || losses == c.diskLosses + {node}
    requires node !in losses ==> c.replicas[node].log.Keys <= r.log.Keys
    ensures Inv(Update(c, node, r).(diskLosses := losses), h)
  {
    hide HistoryOk;
    hide Policy.Valid;
    hide Voters;
    hide ReplicaOk;
    hide PendingOk;
    hide AcknowledgementsOk;
    var c' := Update(c, node, r).(diskLosses := losses);
    forall n, i | Stored(c, n, i) ensures Stored(c', n, i) {
    }
    StoredGrows(c, c', h);
    assert c'.replicas.Keys == c.replicas.Keys;
  }

  lemma AcknowledgedOk(c: Cluster, h: History, index: nat)
    requires Inv(c, h) && index in c.acknowledgements && |c.acknowledgements[index]| >= c.placement.policy.Quorum()
    ensures Inv(c.(acknowledged := c.acknowledged[index := h[index - 1].command]), h)
  {
    hide HistoryOk;
    hide Policy.Valid;
    hide Voters;
    hide ReplicaOk;
    var c' := c.(acknowledged := c.acknowledged[index := h[index - 1].command]);
    assert forall n, i :: Stored(c, n, i) <==> Stored(c', n, i);
    MessagesKept(c, h, c', h);
  }

  lemma MaybeCommitOk(c: Cluster, h: History, index: nat)
    requires Inv(c, h) && c.leader !in c.diskLosses
    ensures Inv(MaybeCommit(c, index).0, h) && MaybeCommit(c, index).1 == Done
  {
    hide Broadcast;
    hide Voters;
    if !(index in c.acknowledged
         || (if index in c.acknowledgements then |c.acknowledgements[index]| else 0) < c.placement.policy.Quorum()) {
      var leader := c.replicas[c.leader];
      assert ReplicaOk(leader, false, h);
      assert index in leader.log && leader.log[index] == h[index - 1];
      HistoryTerm(h, index);
      hide Inv;
      var c1 := Update(c, c.leader, leader.(commitIndex := index));
      UpdateOk(c, h, c.leader, leader.(commitIndex := index), c.diskLosses);
      assert c1.(diskLosses := c.diskLosses) == c1;
      AcknowledgedOk(c1, h, index);
      BroadcastOk(c1.(acknowledged := c.acknowledged[index := leader.log[index].command]), h,
                  Commit(leader.log[index].term, index));
    }
  }

  lemma HistoryTerm(h: History, index: nat)
    requires HistoryOk(h) && 1 <= index <= |h|
    ensures h[index - 1].term == 1 && h[index - 1].index == index
  {
  }

  lemma ProposeOk(c: Cluster, h: History, command: Bytes) returns (h': History)
    requires Inv(c, h)
    ensures Inv(Propose(c, command).0, h') && h <= h'
    ensures Propose(c, command).1.Err? ==> Propose(c, command).1.error == Unavailable
  {
    hide MaybeCommit;
    hide Submit;
    h' := h;
    LeaderLog(c, h);
    hide Inv;
    if c.replicas[c.leader].Up() {
      var entry := Entry(1, |h| + 1, command);
      h' := h + [entry];
      SubmitOk(c, h, entry);
      MaybeCommitOk(Submit(c, entry), h', entry.index);
    }
  }

  lemma SubmitOk(c: Cluster, h: History, entry: Entry)
    requires Inv(c, h) && c.leader !in c.diskLosses && entry.term == 1 && entry.index == |h| + 1
    ensures Inv(Submit(c, entry), h + [entry])
    ensures Submit(c, entry).leader == c.leader && Submit(c, entry).diskLosses == c.diskLosses
  {
    hide Broadcast;
    hide Voters;
    ProposedOk(c, h, entry);
    var leader := c.replicas[c.leader];
    var c2 := Acknowledge(Update(c, c.leader, leader.(log := leader.log[entry.index := entry])), entry.index, c.leader);
    hide Inv;
    BroadcastOk(c2, h + [entry], Append(entry));
    BroadcastShape(c2, Voters(c.placement.replicas), Append(entry));
  }

  /** While the leader is up, the history is its log. */
  lemma LeaderLog(c: Cluster, h: History)
    requires Inv(c, h)
    ensures c.leader in c.replicas
    ensures c.replicas[c.leader].Up() ==> c.leader !in c.diskLosses && LastIndex(c.replicas[c.leader].log) == |h|
  {
    var leader := c.replicas[c.leader];
    assert ReplicaOk(leader, c.leader in c.diskLosses, h);
    if leader.Up() {
      assert |h| > 0 ==> |h| in leader.log;
    }
  }

  /** The leader appends, and counts itself. */
  lemma ProposedOk(c: Cluster, h: History, entry: Entry)
    requires Inv(c, h) && c.leader !in c.diskLosses && entry.term == 1 && entry.index == |h| + 1
    ensures var leader := c.replicas[c.leader];
            Inv(Acknowledge(Update(c, c.leader, leader.(log := leader.log[entry.index := entry])), entry.index,
                            c.leader), h + [entry])
  {
    hide Policy.Valid;
    hide Voters;
    hide LogOk;
    var leader := c.replicas[c.leader];
    var longer, h' := leader.(log := leader.log[entry.index := entry]), h + [entry];
    var c' := Acknowledge(Update(c, c.leader, longer), entry.index, c.leader);
    assert forall n, i :: Stored(c, n, i) ==> Stored(c', n, i);
    MessagesKept(c, h, c', h');
    assert AcknowledgementsOk(c', h') by { assert entry.index !in c.acknowledgements; }
    hide MessageOk;
    hide Stored;
    hide AcknowledgementsOk;
    assert ReplicaOk(longer, false, h') by { LongerLog(leader.log, h, entry); }
    hide ReplicaOk;
    forall n | n in c'.replicas ensures ReplicaOk(c'.replicas[n], n in c'.diskLosses, h') {
      if n != c.leader { LongerHistory(c.replicas[n], n in c.diskLosses, h, entry); }
    }
  }

  lemma LongerLog(log: Log, h: History, entry: Entry)
    requires LogOk(log, h) && entry.index == |h| + 1 && forall i :: 1 <= i <= |h| ==> i in log
    ensures LogOk(log[entry.index := entry], h + [entry])
  {
  }

  lemma LongerHistory(r: Replica, lost: bool, h: History, entry: Entry)
    requires ReplicaOk(r, lost, h)
    ensures ReplicaOk(r, lost, h + [entry])
  {
  }

  // ---- Deliveries ----

  /** A message taken from the queue is as good as it was in it. */
  lemma Dequeue(c: Cluster, h: History, at: nat)
    requires Inv(c, h) && at < |c.pending|
    ensures Inv(c.(pending := c.pending[..at] + c.pending[at + 1..]), h) && MessageOk(c, h, c.pending[at])
  {
    InvParts(c, h);
    hide Inv;
    hide MessageOk;
    var c' := c.(pending := c.pending[..at] + c.pending[at + 1..]);
    forall i | 0 <= i < |c'.pending| ensures MessageOk(c, h, c'.pending[i]) {
      var j := if i < at then i else i + 1;
      assert c'.pending[i] == c.pending[j];
    }
    QueueChange(c, c', h);
  }

  lemma ReceiveAppendOk(c: Cluster, h: History, m: Message)
    requires Inv(c, h) && MessageOk(c, h, m) && m.kind.Append? && CanDeliver(c, m)
    ensures Inv(Receive(c, m).0, h) && Receive(c, m).1 != Failed(Denied)
  {
    hide Voters;
    var entry, target := m.kind.entry, c.replicas[m.to];
    HistoryTerm(h, entry.index);
    assert ReplicaOk(target, m.to in c.diskLosses, h);
    if entry.index == 1 || entry.index - 1 in target.log {
      hide Inv;
      var longer := target.(log := target.log[entry.index := entry]);
      var c1 := Update(c, m.to, longer);
      UpdateOk(c, h, m.to, longer, c.diskLosses);
      assert c1.(diskLosses := c.diskLosses) == c1;
      assert Stored(c1, m.to, entry.index);
      EnqueueAckOk(c1, h, m.to, entry.index);
    }
  }

  lemma EnqueueAckOk(c: Cluster, h: History, from: NodeId, index: nat)
    requires Inv(c, h) && from in Voters(c.placement.replicas) && 1 <= index <= |h| && Stored(c, from, index)
    ensures Inv(Enqueue(c, from, c.leader, Ack(1, index)), h)
  {
    InvParts(c, h);
    hide Inv;
    hide Voters;
    hide Stored;
    var c' := Enqueue(c, from, c.leader, Ack(1, index));
    assert MessageOk(c, h, c'.pending[|c.pending|]);
    QueueChange(c, c', h);
  }

  /** Counting a justified acknowledgement keeps the invariant. */
  lemma CountedOk(c: Cluster, h: History, m: Message)
    requires Inv(c, h) && MessageOk(c, h, m) && m.kind.Ack? && CanDeliver(c, m)
    ensures Inv(Acknowledge(c, m.kind.index, m.from), h) && c.leader !in c.diskLosses
  {
    hide ReplicaOk;
    hide HistoryOk;
    hide Policy.Valid;
    hide Voters;
    var index := m.kind.index;
    var c' := Acknowledge(c, index, m.from);
    assert forall n, i :: Stored(c, n, i) <==> Stored(c', n, i);
    MessagesKept(c, h, c', h);
    SubsetSize(c.acknowledgements[index], c'.acknowledgements[index]);
    UpKeepsDisk(c, h, c.leader);
  }

  lemma ReceiveAckOk(c: Cluster, h: History, m: Message)
    requires Inv(c, h) && MessageOk(c, h, m) && m.kind.Ack? && CanDeliver(c, m)
    ensures Inv(Receive(c, m).0, h) && Receive(c, m).1 == Done
  {
    hide Inv;
    hide MaybeCommit;
    CountedOk(c, h, m);
    MaybeCommitOk(Acknowledge(c, m.kind.index, m.from), h, m.kind.index);
  }

  lemma UpKeepsDisk(c: Cluster, h: History, n: NodeId)
    requires ReplicasOk(c, h) && n in c.replicas && c.replicas[n].Up()
    ensures n !in c.diskLosses
  {
  }

  lemma ReceiveCommitOk(c: Cluster, h: History, m: Message)
    requires Inv(c, h) && MessageOk(c, h, m) && m.kind.Commit? && CanDeliver(c, m)
    ensures Inv(Receive(c, m).0, h) && Receive(c, m).1 != Failed(Denied)
  {
    hide Voters;
    var index, target := m.kind.index, c.replicas[m.to];
    assert ReplicaOk(target, m.to in c.diskLosses, h);
    hide Inv;
    if index in target.log {
      var r := target.(commitIndex := if target.commitIndex >= index then target.commitIndex else index);
      UpdateOk(c, h, m.to, r, c.diskLosses);
      assert Update(c, m.to, r).(diskLosses := c.diskLosses) == Update(c, m.to, r);
    }
  }

  lemma DeliverOk(c: Cluster, h: History, id: nat)
    requires Inv(c, h)
    ensures Inv(DeliverMessage(c, id).0, h) && DeliverMessage(c, id).1 != Failed(Denied)
  {
    hide Inv;
    hide Receive;
    hide SafetyHolds;
    var position := Position(c.pending, id);
    if position.Some? && CanDeliver(c, c.pending[position.value]) {
      var at := position.value;
      var m, c1 := c.pending[at], c.(pending := c.pending[..at] + c.pending[at + 1..]);
      Dequeue(c, h, at);
      assert MessageOk(c1, h, m) by { SameMemory(c, c1, h, m); }
      match m.kind {
        case Append(_) => ReceiveAppendOk(c1, h, m);
        case Ack(_, _) => ReceiveAckOk(c1, h, m);
        case Commit(_, _) => ReceiveCommitOk(c1, h, m);
      }
      InvIsSafe(Receive(c1, m).0, h);
    }
  }

  lemma SameMemory(c: Cluster, c': Cluster, h: History, m: Message)
    requires MessageOk(c, h, m) && c' == c.(pending := c'.pending)
    ensures MessageOk(c', h, m)
  {
  }

  lemma {:induction false} DeliverAllOk(c: Cluster, h: History, ids: seq<nat>)
    requires Inv(c, h)
    ensures Inv(DeliverAll(c, ids).0, h) && DeliverAll(c, ids).1 != Failed(Denied)
    decreases |ids|
  {
    hide Inv;
    hide DeliverMessage;
    if ids != [] {
      DeliverAllOk(c, h, ids[..|ids| - 1]);
      DeliverOk(DeliverAll(c, ids[..|ids| - 1]).0, h, ids[|ids| - 1]);
    }
  }

  // ---- Faults ----

  lemma DisturbOk(c: Cluster, h: History, fault: Fault)
    requires Inv(c, h)
    ensures Inv(Disturb(c, fault).0, h) && Disturb(c, fault).1 != Failed(Denied)
  {
    hide Inv;
    hide DeliverMessage;
    match fault
    case Partition(left, right) => InvParts(c, h); QueueChange(c, Disturb(c, fault).0, h);
    case Heal(left, right) => InvParts(c, h); QueueChange(c, Disturb(c, fault).0, h);
    case Delay(id, ticks) =>
      InvParts(c, h);
      var position := Position(c.pending, id);
      if position.Some? {
        assert MessageOk(c, h, c.pending[position.value]);
        QueueChange(c, Disturb(c, fault).0, h);
      }
    case Duplicate(id) =>
      InvParts(c, h);
      var position := Position(c.pending, id);
      if position.Some? {
        assert MessageOk(c, h, c.pending[position.value]);
        QueueChange(c, Disturb(c, fault).0, h);
      }
    case Deliver(id) => DeliverOk(c, h, id);
    case Reorder(ids) => DeliverAllOk(c, h, ids);
    case Crash(node) =>
      InvParts(c, h);
      if node in c.replicas { UpdateOk(c, h, node, c.replicas[node].(online := false), c.diskLosses); }
    case Restart(node) =>
      InvParts(c, h);
      if node in c.replicas && c.replicas[node].diskPresent {
        UpdateOk(c, h, node, c.replicas[node].(online := true), c.diskLosses);
      }
    case ClockSkew(node, offset) =>
      InvParts(c, h);
      if node in c.replicas { UpdateOk(c, h, node, c.replicas[node].(clockOffset := offset), c.diskLosses); }
    case DiskLoss(node) =>
      InvParts(c, h);
      if node in c.replicas {
        UpdateOk(c, h, node, Replica(false, false, c.replicas[node].clockOffset, map[], 0), c.diskLosses + {node});
      }
  }

  lemma InvParts(c: Cluster, h: History)
    requires Inv(c, h)
    ensures ReplicasOk(c, h) && PendingOk(c, h)
  {
  }

  // ---- Runs ----

  lemma StartOk(p: Placement, leader: NodeId)
    requires Start(p, leader).Ok?
    ensures Inv(Start(p, leader).value, [])
  {
  }

  lemma StepOk(c: Cluster, h: History, op: Operation) returns (h': History)
    requires Inv(c, h)
    ensures Inv(Step(c, op).0, h') && h <= h'
    ensures Step(c, op).1 != Failed(Denied)
  {
    hide Inv;
    hide SafetyHolds;
    hide Disturb;
    hide Propose;
    h' := h;
    match op
    case ProposeOp(command) => h' := ProposeOk(c, h, command);
    case FaultOp(fault) =>
      DisturbOk(c, h, fault);
      InvIsSafe(Disturb(c, fault).0, h);
    case AdvanceOp(ticks) => InvParts(c, h); QueueChange(c, Advance(c, ticks), h);
  }

  lemma {:induction false} RunInvariant(c: Cluster, h: History, ops: seq<Operation>) returns (h': History)
    requires Inv(c, h)
    ensures Inv(Run(c, ops), h') && h <= h'
  {
    hide Inv;
    hide Step;
    h' := h;
    if ops != [] {
      h' := RunInvariant(c, h, ops[..|ops| - 1]);
      h' := StepOk(Run(c, ops[..|ops| - 1]), h', ops[|ops| - 1]);
    }
  }

  /** In every reachable state the safety check succeeds, and no step whatever is denied. */
  lemma EveryRunIsSafe(p: Placement, leader: NodeId, ops: seq<Operation>, next: Operation)
    requires Start(p, leader).Ok?
    ensures var c := Run(Start(p, leader).value, ops);
            VerifySafety(c) == Done && Step(c, next).1 != Failed(Denied)
  {
    hide Inv;
    hide Step;
    StartOk(p, leader);
    var h := RunInvariant(Start(p, leader).value, [], ops);
    InvIsSafe(Run(Start(p, leader).value, ops), h);
    var _ := StepOk(Run(Start(p, leader).value, ops), h, next);
  }

  lemma DeliverSamePlacement(c: Cluster, id: nat)
    ensures DeliverMessage(c, id).0.placement == c.placement
  {
    hide SafetyHolds;
    var position := Position(c.pending, id);
    if position.Some? && CanDeliver(c, c.pending[position.value]) {
      var at := position.value;
      var m, c1 := c.pending[at], c.(pending := c.pending[..at] + c.pending[at + 1..]);
      if m.kind.Ack? { CommitSamePlacement(Acknowledge(c1, m.kind.index, m.from), m.kind.index); }
    }
  }

  lemma CommitSamePlacement(c: Cluster, index: nat)
    ensures MaybeCommit(c, index).0.placement == c.placement
  {
    if c.leader in c.replicas && index in c.replicas[c.leader].log {
      var leader := c.replicas[c.leader];
      var c1 := Update(c, c.leader, leader.(commitIndex := index));
      BroadcastShape(c1.(acknowledged := c.acknowledged[index := leader.log[index].command]),
                     Voters(c.placement.replicas), Commit(leader.log[index].term, index));
    }
  }

  lemma {:induction false} DeliverAllSamePlacement(c: Cluster, ids: seq<nat>)
    ensures DeliverAll(c, ids).0.placement == c.placement
    decreases |ids|
  {
    hide DeliverMessage;
    if ids != [] {
      DeliverAllSamePlacement(c, ids[..|ids| - 1]);
      DeliverSamePlacement(DeliverAll(c, ids[..|ids| - 1]).0, ids[|ids| - 1]);
    }
  }

  lemma StepSamePlacement(c: Cluster, op: Operation)
    ensures Step(c, op).0.placement == c.placement
  {
    hide SafetyHolds;
    hide MaybeCommit;
    hide DeliverMessage;
    match op
    case ProposeOp(command) =>
      if c.leader in c.replicas && c.replicas[c.leader].Up() {
        var leader := c.replicas[c.leader];
        var entry := Entry(1, LastIndex(leader.log) + 1, command);
        var c2 := Acknowledge(Update(c, c.leader, leader.(log := leader.log[entry.index := entry])), entry.index,
                              c.leader);
        BroadcastShape(c2, Voters(c.placement.replicas), Append(entry));
        CommitSamePlacement(Submit(c, entry), entry.index);
      }
    case FaultOp(fault) =>
      if fault.Deliver? { DeliverSamePlacement(c, fault.messageId); }
      if fault.Reorder? { DeliverAllSamePlacement(c, fault.messageIds); }
    case AdvanceOp(ticks) =>
  }

  lemma {:induction false} RunSamePlacement(c: Cluster, ops: seq<Operation>)
    ensures Run(c, ops).placement == c.placement
  {
    hide Step;
    if ops != [] {
      RunSamePlacement(c, ops[..|ops| - 1]);
      StepSamePlacement(Run(c, ops[..|ops| - 1]), ops[|ops| - 1]);
    }
  }

  /** Acknowledged entries live on in one voter's log through every run that stays within the tolerated losses. */
  lemma EveryRunKeepsAcknowledged(p: Placement, leader: NodeId, ops: seq<Operation>) returns (survivor: NodeId)
    requires Start(p, leader).Ok?
    requires var c := Run(Start(p, leader).value, ops);
             |c.diskLosses| <= p.policy.voterCount / 2 && c.acknowledged != map[]
    ensures var c := Run(Start(p, leader).value, ops);
            && survivor in Voters(p.replicas) && survivor in c.replicas && survivor !in c.diskLosses
            && forall i :: i in c.acknowledged ==>
                 i in c.replicas[survivor].log && c.replicas[survivor].log[i].command == c.acknowledged[i]
  {
    hide Inv;
    hide Step;
    StartOk(p, leader);
    var c := Run(Start(p, leader).value, ops);
    var h := RunInvariant(Start(p, leader).value, [], ops);
    RunSamePlacement(Start(p, leader).value, ops);
    assert p.policy.ToleratedFailures() == p.policy.voterCount / 2;
    survivor := OneSurvivorHoldsAll(c, h);
  }
}
