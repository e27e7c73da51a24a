/** What each fault of the simulator does to the traffic and the disks (crates/vyrm-cluster/src/sim.rs). */
module Faults {
  import opened Common
  import opened Quorum
  import QuorumSafety

  // ---- When a message is delivered ----

  /**
   A delivery takes its message from the queue exactly when the message is due, both ends are online with their disks
   and the link is open; otherwise it is refused and changes nothing.
   */
  lemma DeliveredIff(c: Cluster, id: nat)
    ensures Position(c.pending, id).None? ==> DeliverMessage(c, id) == (c, Failed(NotFound))
    ensures Position(c.pending, id).Some? ==>
              var at := Position(c.pending, id).value;
              var m, rest := c.pending[at], c.pending[..at] + c.pending[at + 1..];
              if && m.deliverAt <= c.now && (m.from, m.to) !in c.blocked
                 && m.from in c.replicas && c.replicas[m.from].online && c.replicas[m.from].diskPresent
                 && m.to in c.replicas && c.replicas[m.to].online && c.replicas[m.to].diskPresent
              then rest <= DeliverMessage(c, id).0.pending && SameStations(c, DeliverMessage(c, id).0)
              else DeliverMessage(c, id) == (c, Failed(Unavailable))
  {
    hide SafetyHolds;
    hide Receive;
    hide Position;
    if Position(c.pending, id).Some? && CanDeliver(c, c.pending[Position(c.pending, id).value]) {
      var at := Position(c.pending, id).value;
      ReceiveAppends(c.(pending := c.pending[..at] + c.pending[at + 1..]), c.pending[at]);
    }
  }

  /** The same nodes are up over the same links, and whatever is down keeps all it had. */
  ghost predicate SameStations(c: Cluster, c': Cluster) {
    && c'.blocked == c.blocked && c'.leader == c.leader && c'.diskLosses == c.diskLosses
    && c'.replicas.Keys == c.replicas.Keys
    && forall n :: n in c.replicas ==>
         && c'.replicas[n].online == c.replicas[n].online && c'.replicas[n].diskPresent == c.replicas[n].diskPresent
         && (!c.replicas[n].Up() ==> c'.replicas[n] == c.replicas[n])
  }

  /** A received message only adds to the queue. */
  lemma ReceiveAppends(c: Cluster, m: Message)
    requires m.to in c.replicas && c.replicas[m.to].Up()
    ensures c.pending <= Receive(c, m).0.pending && SameStations(c, Receive(c, m).0)
  {
    hide MaybeCommit;
    if m.kind.Ack? && m.to == c.leader { CommitAppends(Acknowledge(c, m.kind.index, m.from), m.kind.index); }
  }

  lemma CommitAppends(c: Cluster, index: nat)
    requires c.leader in c.replicas && c.replicas[c.leader].Up()
    ensures c.pending <= MaybeCommit(c, index).0.pending && SameStations(c, MaybeCommit(c, index).0)
  {
    hide Broadcast;
    hide Voters;
    if index in c.replicas[c.leader].log {
      var entry, c1 := c.replicas[c.leader].log[index],
          Update(c, c.leader, c.replicas[c.leader].(commitIndex := index));
      QuorumSafety.BroadcastShape(c1.(acknowledged := c.acknowledged[index := entry.command]),
                                  Voters(c.placement.replicas), Commit(entry.term, index));
    }
  }

  lemma ProposeAppends(c: Cluster, command: Bytes)
    ensures c.pending <= Propose(c, command).0.pending && SameStations(c, Propose(c, command).0)
  {
    hide Broadcast;
    hide Voters;
    hide MaybeCommit;
    if c.leader in c.replicas && c.replicas[c.leader].Up() {
      var leader := c.replicas[c.leader];
      var entry := Entry(1, LastIndex(leader.log) + 1, command);
      var c2 := Acknowledge(Update(c, c.leader, leader.(log := leader.log[entry.index := entry])), entry.index,
                            c.leader);
      QuorumSafety.BroadcastShape(c2, Voters(c.placement.replicas), Append(entry));
      CommitAppends(Submit(c, entry), entry.index);
    }
  }

  // ---- Wires that are cut ----

  /** A link between two nodes, or everything from and to one node. */
  datatype Wire = Link(left: NodeId, right: NodeId) | Station(node: NodeId) {
    predicate Carries(m: Message) {
      match this
      case Link(left, right) => (m.from == left && m.to == right) || (m.from == right && m.to == left)
      case Station(node) => m.from == node || m.to == node
    }
  }

  ghost predicate Cut(c: Cluster, w: Wire) {
    match w
    case Link(left, right) => (left, right) in c.blocked && (right, left) in c.blocked
    case Station(node) => node in c.replicas && !(c.replicas[node].online && c.replicas[node].diskPresent)
  }

  /** The operation that can bring a wire back. */
  predicate Restores(op: Operation, w: Wire) {
    match w
    case Link(left, right) => op == FaultOp(Heal(left, right)) || op == FaultOp(Heal(right, left))
    case Station(node) => op == FaultOp(Restart(node))
  }

  datatype Letter = Letter(id: nat, from: NodeId, to: NodeId, kind: Kind)

  /** What waits in the queue for a wire, in order. */
  function Waiting(pending: seq<Message>, w: Wire): seq<Letter> {
    if pending == [] then []
    else
      var before, m := Waiting(pending[..|pending| - 1], w), pending[|pending| - 1];
      if w.Carries(m) then before + [Letter(m.id, m.from, m.to, m.kind)] else before
  }

  lemma {:induction false} WaitingConcat(a: seq<Message>, b: seq<Message>, w: Wire)
    ensures Waiting(a + b, w) == Waiting(a, w) + Waiting(b, w)
  {
    if b == [] {
      assert a + b == a;
    } else {
      var n := |b| - 1;
      assert (a + b)[..|a + b| - 1] == a + b[..n];
      WaitingConcat(a, b[..n], w);
    }
  }

  lemma WaitingGrows(a: seq<Message>, b: seq<Message>, w: Wire)
    requires a <= b
    ensures Waiting(a, w) <= Waiting(b, w)
  {
    assert b == a + b[|a|..];
    WaitingConcat(a, b[|a|..], w);
  }

  lemma WaitingSplit(pending: seq<Message>, at: nat, w: Wire)
    requires at < |pending|
    ensures Waiting(pending, w) == Waiting(pending[..at], w) + Waiting([pending[at]], w) + Waiting(pending[at + 1..], w)
  {
    assert pending == pending[..at] + [pending[at]] + pending[at + 1..];
    WaitingConcat(pending[..at] + [pending[at]], pending[at + 1..], w);
    WaitingConcat(pending[..at], [pending[at]], w);
  }

  lemma WaitingOne(m: Message, w: Wire)
    ensures Waiting([m], w) == if w.Carries(m) then [Letter(m.id, m.from, m.to, m.kind)] else []
  {
    assert [m][..0] == [];
  }

  /** The message with that identifier waits for the wire. */
  predicate Waits(c: Cluster, id: nat, w: Wire) {
    Position(c.pending, id).Some? && w.Carries(c.pending[Position(c.pending, id).value])
  }

  /** Over a cut wire nothing is delivered: a delivery is refused and changes nothing. */
  lemma CutRefuses(c: Cluster, w: Wire, id: nat)
    requires Cut(c, w) && Waits(c, id, w)
    ensures DeliverMessage(c, id) == (c, Failed(Unavailable))
  {
    hide DeliverMessage;
    DeliveredIff(c, id);
  }

  lemma DeliverKeepsCut(c: Cluster, w: Wire, id: nat)
    requires Cut(c, w)
    ensures Cut(DeliverMessage(c, id).0, w) && Waiting(c.pending, w) <= Waiting(DeliverMessage(c, id).0.pending, w)
  {
    hide DeliverMessage;
    hide Waiting;
    DeliveredIff(c, id);
    if Position(c.pending, id).Some? {
      var at := Position(c.pending, id).value;
      if DeliverMessage(c, id).0 != c {
        var rest := c.pending[..at] + c.pending[at + 1..];
        WaitingSplit(c.pending, at, w);
        WaitingOne(c.pending[at], w);
        WaitingConcat(c.pending[..at], c.pending[at + 1..], w);
        WaitingGrows(rest, DeliverMessage(c, id).0.pending, w);
      }
    }
  }

  lemma {:induction false} DeliverAllKeepsCut(c: Cluster, w: Wire, ids: seq<nat>)
    requires Cut(c, w)
    ensures Cut(DeliverAll(c, ids).0, w) && Waiting(c.pending, w) <= Waiting(DeliverAll(c, ids).0.pending, w)
    decreases |ids|
  {
    hide DeliverMessage;
    hide Waiting;
    hide Cut;
    if ids != [] {
      DeliverAllKeepsCut(c, w, ids[..|ids| - 1]);
      DeliverKeepsCut(DeliverAll(c, ids[..|ids| - 1]).0, w, ids[|ids| - 1]);
    }
  }

  lemma DelayKeepsWaiting(pending: seq<Message>, at: nat, deliverAt: nat, w: Wire)
    requires at < |pending|
    ensures Waiting(pending[at := pending[at].(deliverAt := deliverAt)], w) == Waiting(pending, w)
  {
    hide Waiting;
    var later := pending[at].(deliverAt := deliverAt);
    WaitingSplit(pending, at, w);
    WaitingSplit(pending[at := later], at, w);
    assert pending[at := later][..at] == pending[..at] && pending[at := later][at + 1..] == pending[at + 1..];
    WaitingOne(pending[at], w);
    WaitingOne(later, w);
  }

  lemma DisturbKeepsCut(c: Cluster, w: Wire, fault: Fault)
    requires Cut(c, w) && !Restores(FaultOp(fault), w)
    ensures Cut(Disturb(c, fault).0, w) && Waiting(c.pending, w) <= Waiting(Disturb(c, fault).0.pending, w)
  {
    hide DeliverMessage;
    hide Waiting;
    match fault
    case Delay(id, ticks) =>
      if Position(c.pending, id).Some? {
        var at := Position(c.pending, id).value;
        DelayKeepsWaiting(c.pending, at, SaturatingAdd(c.pending[at].deliverAt, ticks), w);
      }
    case Duplicate(id) => WaitingGrows(c.pending, Disturb(c, fault).0.pending, w);
    case Deliver(id) => DeliverKeepsCut(c, w, id);
    case Reorder(ids) => DeliverAllKeepsCut(c, w, ids);
    case _ =>
  }

  /**
   A wire stays cut through every run that does not restore it, and nothing that waits for it is delivered: it all
   stays in the queue, in order.
   */
  lemma {:induction false} StaysCut(c: Cluster, ops: seq<Operation>, w: Wire)
    requires Cut(c, w) && forall i :: 0 <= i < |ops| ==> !Restores(ops[i], w)
    ensures Cut(Run(c, ops), w) && Waiting(c.pending, w) <= Waiting(Run(c, ops).pending, w)
  {
    hide Disturb;
    hide Propose;
    hide SafetyHolds;
    hide Waiting;
    if ops != [] {
      var before, op := Run(c, ops[..|ops| - 1]), ops[|ops| - 1];
      StaysCut(c, ops[..|ops| - 1], w);
      match op {
        case ProposeOp(command) =>
          ProposeAppends(before, command);
          WaitingGrows(before.pending, Propose(before, command).0.pending, w);
        case FaultOp(fault) => DisturbKeepsCut(before, w, fault);
        case AdvanceOp(ticks) =>
      }
    }
  }

  // ---- Partition and heal ----

  /** The link may carry messages one way. */
  predicate Open(c: Cluster, from: NodeId, to: NodeId) {
    (from, to) !in c.blocked
  }

  /** A partition of known nodes closes their link both ways and nothing else. */
  lemma PartitionCuts(c: Cluster, left: NodeId, right: NodeId)
    requires left in c.replicas && right in c.replicas
    ensures var c' := ApplyFault(c, Partition(left, right)).0;
            && Cut(c', Link(left, right)) && c'.(blocked := c.blocked) == c
            && (forall id :: Waits(c, id, Link(left, right)) ==> DeliverMessage(c', id) == (c', Failed(Unavailable)))
            && (forall m :: CanDeliver(c', m) <==> CanDeliver(c, m) && !Link(left, right).Carries(m))
  {
    hide DeliverMessage;
    hide SafetyHolds;
    var c' := ApplyFault(c, Partition(left, right)).0;
    forall id | Waits(c, id, Link(left, right))
      ensures DeliverMessage(c', id) == (c', Failed(Unavailable))
    {
      CutRefuses(c', Link(left, right), id);
    }
  }

  lemma UnknownNodes(c: Cluster, left: NodeId, right: NodeId)
    requires left !in c.replicas || right !in c.replicas
    ensures ApplyFault(c, Partition(left, right)) == (c, Failed(NotFound))
  {
    hide SafetyHolds;
  }

  /** Healing opens exactly that link again; after a partition of an open link it brings back the cluster as it was. */
  lemma HealOpens(c: Cluster, left: NodeId, right: NodeId)
    ensures var c' := ApplyFault(c, Heal(left, right)).0;
            && c'.(blocked := c.blocked) == c && Open(c', left, right) && Open(c', right, left)
            && (forall a, b :: (a, b) != (left, right) && (a, b) != (right, left) ==>
                (Open(c', a, b) <==> Open(c, a, b)))
    ensures left in c.replicas && right in c.replicas && Open(c, left, right) && Open(c, right, left) ==>
              ApplyFault(ApplyFault(c, Partition(left, right)).0, Heal(left, right)).0 == c
  {
    hide SafetyHolds;
    if left in c.replicas && right in c.replicas && Open(c, left, right) && Open(c, right, left) {
      assert c.blocked + {(left, right), (right, left)} - {(left, right), (right, left)} == c.blocked;
    }
  }

  /** Over every run from a partition whose link is not healed, no message between the two nodes is delivered. */
  lemma PartitionHolds(c: Cluster, left: NodeId, right: NodeId, ops: seq<Operation>, id: nat)
    requires left in c.replicas && right in c.replicas
    requires forall i :: 0 <= i < |ops| ==> ops[i] != FaultOp(Heal(left, right)) && ops[i] != FaultOp(Heal(right, left))
    ensures var after := Run(ApplyFault(c, Partition(left, right)).0, ops);
            && Waiting(c.pending, Link(left, right)) <= Waiting(after.pending, Link(left, right))
            && (Waits(after, id, Link(left, right)) ==>
                  DeliverMessage(after, id) == (after, Failed(Unavailable)))
  {
    hide Run;
    hide DeliverMessage;
    hide ApplyFault;
    hide Waiting;
    var c1 := ApplyFault(c, Partition(left, right)).0;
    PartitionCuts(c, left, right);
    assert c1.pending == c.pending by { assert c1.(blocked := c.blocked).pending == c1.pending; }
    StaysCut(c1, ops, Link(left, right));
    var after := Run(c1, ops);
    if Waits(after, id, Link(left, right)) {
      CutRefuses(after, Link(left, right), id);
    }
  }

  // ---- Crash, restart and disk loss ----

  /** What a node has on disk. */
  ghost predicate SameDisk(c: Cluster, c': Cluster, node: NodeId) {
    && node in c.replicas && node in c'.replicas
    && c'.replicas[node].diskPresent == c.replicas[node].diskPresent
    && c'.replicas[node].log == c.replicas[node].log && c'.replicas[node].commitIndex == c.replicas[node].commitIndex
  }

  lemma {:induction false} DeliverAllSameStations(c: Cluster, ids: seq<nat>)
    ensures SameStations(c, DeliverAll(c, ids).0)
    decreases |ids|
  {
    hide DeliverMessage;
    if ids != [] {
      DeliverAllSameStations(c, ids[..|ids| - 1]);
      DeliveredIff(DeliverAll(c, ids[..|ids| - 1]).0, ids[|ids| - 1]);
    }
  }

  /** Deliveries and proposals touch nothing that is down. */
  lemma TrafficKeepsStations(c: Cluster, op: Operation)
    requires Traffic(op)
    ensures SameStations(c, Step(c, op).0)
  {
    hide DeliverMessage;
    hide Propose;
    hide SafetyHolds;
    hide SameStations;
    match op
    case ProposeOp(command) => ProposeAppends(c, command);
    case FaultOp(fault) =>
      if fault.Deliver? {
        DeliverKeepsStations(c, fault.messageId);
      } else {
        DeliverAllSameStations(c, fault.messageIds);
      }
  }

  lemma DeliverKeepsStations(c: Cluster, id: nat)
    ensures SameStations(c, DeliverMessage(c, id).0)
  {
    hide DeliverMessage;
    DeliveredIff(c, id);
  }

  /** What an operation other than traffic does to one node. */
  function Struck(r: Replica, op: Operation, node: NodeId): Replica {
    if op == FaultOp(Crash(node)) then r.(online := false)
    else if op == FaultOp(Restart(node)) && r.diskPresent then r.(online := true)
    else if op.FaultOp? && op.fault.ClockSkew? && op.fault.node == node then r.(clockOffset := op.fault.offset)
    else if op == FaultOp(DiskLoss(node)) then Replica(false, false, r.clockOffset, map[], 0)
    else r
  }

  predicate Traffic(op: Operation) {
    op.ProposeOp? || (op.FaultOp? && (op.fault.Deliver? || op.fault.Reorder?))
  }

  lemma FaultStrikes(c: Cluster, op: Operation, node: NodeId)
    requires node in c.replicas && !Traffic(op)
    ensures node in Step(c, op).0.replicas && Step(c, op).0.replicas[node] == Struck(c.replicas[node], op, node)
    ensures Step(c, op).0.diskLosses == c.diskLosses || exists n :: Step(c, op).0.diskLosses == c.diskLosses + {n}
  {
    hide SafetyHolds;
    hide Position;
    if op.FaultOp? && op.fault.DiskLoss? {
      assert Step(c, op).0.diskLosses == c.diskLosses || Step(c, op).0.diskLosses == c.diskLosses + {op.fault.node};
    }
  }

  /** A node that is down keeps its disk through every step but the loss of that disk. */
  lemma StepKeepsDownDisk(c: Cluster, op: Operation, node: NodeId)
    requires Cut(c, Station(node)) && op != FaultOp(DiskLoss(node))
    ensures SameDisk(c, Step(c, op).0, node)
  {
    hide Step;
    if Traffic(op) { TrafficKeepsStations(c, op); } else { FaultStrikes(c, op, node); }
  }

  lemma {:induction false} DownKeepsDisk(c: Cluster, ops: seq<Operation>, node: NodeId)
    requires Cut(c, Station(node))
    requires forall i :: 0 <= i < |ops| ==> ops[i] != FaultOp(DiskLoss(node)) && ops[i] != FaultOp(Restart(node))
    ensures Cut(Run(c, ops), Station(node)) && SameDisk(c, Run(c, ops), node)
  {
    hide Step;
    StaysCut(c, ops, Station(node));
    if ops != [] {
      var before := Run(c, ops[..|ops| - 1]);
      StaysCut(c, ops[..|ops| - 1], Station(node));
      DownKeepsDisk(c, ops[..|ops| - 1], node);
      StepKeepsDownDisk(before, ops[|ops| - 1], node);
    }
  }

  /**
   A crashed node takes part in nothing until it is restarted: its messages wait, its disk stays as it was, and a
   restart brings it back online with exactly that disk.
   */
  lemma CrashAndRestart(c: Cluster, node: NodeId, ops: seq<Operation>)
    requires node in c.replicas && c.replicas[node].diskPresent
    requires forall i :: 0 <= i < |ops| ==> ops[i] != FaultOp(DiskLoss(node)) && ops[i] != FaultOp(Restart(node))
    ensures var down := ApplyFault(c, Crash(node)).0;
            var later := Run(down, ops);
            var up := ApplyFault(later, Restart(node)).0;
            && Cut(later, Station(node)) && Waiting(c.pending, Station(node)) <= Waiting(later.pending, Station(node))
            && node in up.replicas && up.replicas[node].online && SameDisk(c, up, node)
            && up == later.(replicas := later.replicas[node := later.replicas[node].(online := true)])
  {
    hide Run;
    hide ApplyFault;
    hide Waiting;
    var down := ApplyFault(c, Crash(node)).0;
    CrashedNode(c, node);
    StaysCut(down, ops, Station(node));
    DownKeepsDisk(down, ops, node);
    RestartedNode(Run(down, ops), node);
  }

  lemma CrashedNode(c: Cluster, node: NodeId)
    requires node in c.replicas
    ensures var down := ApplyFault(c, Crash(node)).0;
            down.pending == c.pending && Cut(down, Station(node)) && SameDisk(c, down, node)
  {
    hide SafetyHolds;
  }

  lemma RestartedNode(c: Cluster, node: NodeId)
    requires node in c.replicas && c.replicas[node].diskPresent
    ensures ApplyFault(c, Restart(node)).0 ==
            c.(replicas := c.replicas[node := c.replicas[node].(online := true)])
  {
    hide SafetyHolds;
  }

  ghost predicate Lost(c: Cluster, node: NodeId) {
    && node in c.replicas && node in c.diskLosses
    && c.replicas[node].(clockOffset := 0) == Replica(false, false, 0, map[], 0)
  }

  lemma StepKeepsLost(c: Cluster, op: Operation, node: NodeId)
    requires Lost(c, node)
    ensures Lost(Step(c, op).0, node)
  {
    hide Step;
    if Traffic(op) { TrafficKeepsStations(c, op); } else { FaultStrikes(c, op, node); }
  }

  lemma {:induction false} StaysLost(c: Cluster, ops: seq<Operation>, node: NodeId)
    requires Lost(c, node)
    ensures Lost(Run(c, ops), node)
  {
    hide Step;
    hide Lost;
    if ops != [] {
      StaysLost(c, ops[..|ops| - 1], node);
      StepKeepsLost(Run(c, ops[..|ops| - 1]), ops[|ops| - 1], node);
    }
  }

  /** A lost disk is lost for good: over every run the node holds nothing, counts as lost and cannot be restarted. */
  lemma DiskLossIsFinal(c: Cluster, node: NodeId, ops: seq<Operation>)
    requires node in c.replicas
    ensures var later := Run(ApplyFault(c, DiskLoss(node)).0, ops);
            && node in later.replicas && node in later.diskLosses && later.replicas[node].log == map[]
            && later.replicas[node].commitIndex == 0 && !later.replicas[node].online
            && ApplyFault(later, Restart(node)) == (later, Failed(Unavailable))
  {
    hide Run;
    hide SafetyHolds;
    var lost := ApplyFault(c, DiskLoss(node)).0;
    assert Lost(lost, node);
    StaysLost(lost, ops, node);
  }

  // ---- Delay, duplication, reordering and skew ----

  /** A delayed message cannot be delivered until its old time plus the delay has come, nor is anything else changed. */
  lemma DelayHolds(c: Cluster, id: nat, ticks: nat, wait: nat)
    requires Position(c.pending, id).Some?
    ensures var at := Position(c.pending, id).value;
            var due := c.pending[at].deliverAt + ticks;
            var c' := Disturb(c, Delay(id, ticks)).0;
            && |c'.pending| == |c.pending| && c'.(pending := c.pending) == c
            && (forall i :: 0 <= i < |c.pending| && i != at ==> c'.pending[i] == c.pending[i])
            && (due <= U64_MAX ==> c'.pending[at] == c.pending[at].(deliverAt := due))
            && (c.now + wait < due <= U64_MAX ==>
                  DeliverMessage(Advance(c', wait), id) == (Advance(c', wait), Failed(Unavailable)))
  {
    hide DeliverMessage;
    var at, c' := Position(c.pending, id).value, Disturb(c, Delay(id, ticks)).0;
    var due := c.pending[at].deliverAt + ticks;
    forall i | 0 <= i <= at ensures c'.pending[i].id == c.pending[i].id {}
    if c.now + wait < due <= U64_MAX {
      DeliveredIff(Advance(c', wait), id);
      assert Position(c'.pending, id) == Some(at);
    }
  }

  /** A duplicate is a second message with the same ends, time and content under a fresh identifier. */
  lemma DuplicateCopies(c: Cluster, id: nat)
    requires Position(c.pending, id).Some?
    ensures var m, c' := c.pending[Position(c.pending, id).value], Disturb(c, Duplicate(id)).0;
            && |c'.pending| == |c.pending| + 1 && c.pending <= c'.pending
            && c'.pending[|c.pending|] == Message(c.nextMessageId, m.from, m.to, m.deliverAt, m.kind)
            && (c.nextMessageId < U64_MAX ==> c'.nextMessageId == c.nextMessageId + 1)
            && c'.(pending := c.pending, nextMessageId := c.nextMessageId) == c
  {
  }

  /** Reordering is delivering one message after the other in the given order, up to the first refusal. */
  lemma {:induction false} ReorderIsDeliveries(c: Cluster, first: nat, rest: seq<nat>)
    ensures var (next, outcome) := DeliverMessage(c, first);
            DeliverAll(c, [first] + rest) == if outcome.Failed? then (next, outcome) else DeliverAll(next, rest)
    decreases |rest|
  {
    hide DeliverMessage;
    var ids := [first] + rest;
    if rest == [] {
      assert ids[..0] == [] && ids[0] == first;
      assert DeliverAll(c, []) == (c, Done);
    } else {
      assert ids[..|ids| - 1] == [first] + rest[..|rest| - 1];
      ReorderIsDeliveries(c, first, rest[..|rest| - 1]);
    }
  }

  /** A skewed clock changes one node's offset, which nothing else reads: messages are due by the simulated time. */
  lemma SkewIsolated(c: Cluster, node: NodeId, offset: int, m: Message)
    requires node in c.replicas
    ensures var c' := Disturb(c, ClockSkew(node, offset)).0;
            && c'.replicas[node].clockOffset == offset
            && c'.replicas[node].(clockOffset := c.replicas[node].clockOffset) == c.replicas[node]
            && c'.(replicas := c.replicas) == c && c'.replicas.Keys == c.replicas.Keys
            && (forall n :: n in c.replicas && n != node ==> c'.replicas[n] == c.replicas[n])
            && (CanDeliver(c', m) <==> CanDeliver(c, m))
  {
  }

  /** Time passes up to the largest instant; what was due stays due, and nothing but time changes. */
  lemma AdvancePasses(c: Cluster, ticks: nat)
    ensures var c' := Advance(c, ticks);
            && c'.(now := c.now) == c && (c.now + ticks <= U64_MAX ==> c'.now == c.now + ticks)
            && (c.now + ticks > U64_MAX ==> c'.now == U64_MAX)
            && (c.now <= U64_MAX ==> forall m :: CanDeliver(c, m) ==> CanDeliver(c', m))
  {
  }
}
