/** The simulator as an object (crates/vyrm-cluster/src/sim.rs), proved against the transitions of `Quorum`. */
module Simulator {
  import opened Common
  import opened QuorumSafety
  import Q = Quorum

  type NodeId = Q.NodeId

  // ---- Progress of deliveries ----

  /** A delivered append is replaced by one acknowledgement; the other kinds are simply consumed. */
  function Weight(pending: seq<Q.Message>): nat {
    if pending == [] then 0
    else Weight(pending[..|pending| - 1]) + if pending[|pending| - 1].kind.Append? then 2 else 1
  }

  lemma {:induction false} WeightConcat(a: seq<Q.Message>, b: seq<Q.Message>)
    ensures Weight(a + b) == Weight(a) + Weight(b)
  {
    if b == [] {
      assert a + b == a;
    } else {
      var n := |b| - 1;
      assert (a + b)[..|a + b| - 1] == a + b[..n];
      WeightConcat(a, b[..n]);
    }
  }

  lemma WeightWithout(pending: seq<Q.Message>, at: nat)
    requires at < |pending|
    ensures Weight(pending) == Weight(pending[..at] + pending[at + 1..]) + if pending[at].kind.Append? then 2 else 1
  {
    hide Weight;
    assert pending == pending[..at] + ([pending[at]] + pending[at + 1..]);
    WeightBetween(pending[..at], pending[at], pending[at + 1..]);
  }

  lemma WeightBetween(a: seq<Q.Message>, m: Q.Message, b: seq<Q.Message>)
    ensures Weight(a + ([m] + b)) == Weight(a + b) + if m.kind.Append? then 2 else 1
  {
    WeightOne(m);
    hide Weight;
    WeightConcat(a, [m] + b);
    WeightConcat([m], b);
    WeightConcat(a, b);
  }

  lemma WeightOne(m: Q.Message)
    ensures Weight([m]) == if m.kind.Append? then 2 else 1
  {
    assert [m][..0] == [];
  }

  /** Proposed indexes that have not been acknowledged yet. */
  function Open(c: Q.Cluster): set<nat> {
    c.acknowledgements.Keys - c.acknowledged.Keys
  }

  /** The measure that falls with every successful delivery, although deliveries enqueue new messages. */
  ghost predicate Falls(c: Q.Cluster, c': Q.Cluster) {
    |Open(c')| < |Open(c)| || (|Open(c')| == |Open(c)| && Weight(c'.pending) < Weight(c.pending))
  }

  lemma CommitShape(c: Q.Cluster, index: nat)
    ensures var c' := Q.MaybeCommit(c, index).0;
            && c'.acknowledgements == c.acknowledgements
            && (c' == c || (index !in c.acknowledged && c'.acknowledged.Keys == c.acknowledged.Keys + {index}))
  {
    hide Q.Broadcast;
    hide Q.Voters;
    if c.leader in c.replicas && index in c.replicas[c.leader].log {
      var leader := c.replicas[c.leader];
      var committed := Q.Update(c, c.leader, leader.(commitIndex := index));
      var c1 := committed.(acknowledged := c.acknowledged[index := leader.log[index].command]);
      BroadcastShape(c1, Q.Voters(c.placement.replicas), Q.Commit(leader.log[index].term, index));
    }
  }

  lemma CommitProgress(c: Q.Cluster, index: nat)
    requires index in c.acknowledgements
    ensures var c' := Q.MaybeCommit(c, index).0;
            || |Open(c')| < |Open(c)|
            || (Open(c') == Open(c) && c'.pending == c.pending)
  {
    hide Q.MaybeCommit;
    CommitShape(c, index);
    var c' := Q.MaybeCommit(c, index).0;
    if c' != c {
      assert index in Open(c) && Open(c') == Open(c) - {index};
    }
  }

  lemma AckIsCounted(c: Q.Cluster, h: History, m: Q.Message)
    requires Inv(c, h) && MessageOk(c, h, m) && m.kind.Ack?
    ensures m.kind.index in c.acknowledgements
  {
    hide Q.Voters;
  }

  lemma AckProgress(c: Q.Cluster, h: History, m: Q.Message)
    requires Inv(c, h) && MessageOk(c, h, m) && m.kind.Ack?
    ensures var c' := Q.MaybeCommit(Q.Acknowledge(c, m.kind.index, m.from), m.kind.index).0;
            || |Open(c')| < |Open(c)|
            || (Open(c') == Open(c) && c'.pending == c.pending)
  {
    hide Q.MaybeCommit;
    hide Inv;
    hide MessageOk;
    AckIsCounted(c, h, m);
    var c1 := Q.Acknowledge(c, m.kind.index, m.from);
    assert Open(c1) == Open(c);
    CommitProgress(c1, m.kind.index);
  }

  lemma AppendProgress(c: Q.Cluster, m: Q.Message)
    requires m.kind.Append? && m.to in c.replicas && Q.Receive(c, m).1 == Q.Done
    ensures var c' := Q.Receive(c, m).0; Open(c') == Open(c) && Weight(c'.pending) < Weight(c.pending) + 2
  {
    hide Weight;
    var ack := Q.Message(c.nextMessageId, m.to, m.from, c.now, Q.Ack(m.kind.entry.term, m.kind.entry.index));
    WeightConcat(c.pending, [ack]);
    WeightOne(ack);
  }

  lemma ReceiveProgress(c: Q.Cluster, h: History, m: Q.Message)
    requires Inv(c, h) && MessageOk(c, h, m) && Q.CanDeliver(c, m) && Q.Receive(c, m).1 == Q.Done
    ensures var c' := Q.Receive(c, m).0;
            || |Open(c')| < |Open(c)|
            || (Open(c') == Open(c) && Weight(c'.pending) < Weight(c.pending) + if m.kind.Append? then 2 else 1)
  {
    hide Q.MaybeCommit;
    hide Inv;
    hide MessageOk;
    hide Weight;
    match m.kind
    case Append(_) => AppendProgress(c, m);
    case Ack(_, _) => AckProgress(c, h, m);
    case Commit(_, _) =>
  }

  lemma DeliverProgress(c: Q.Cluster, h: History, id: nat)
    requires Inv(c, h) && Q.DeliverMessage(c, id).1 == Q.Done
    ensures Falls(c, Q.DeliverMessage(c, id).0)
  {
    hide Inv;
    hide Q.Receive;
    hide Q.SafetyHolds;
    hide Weight;
    hide MessageOk;
    var at := Q.Position(c.pending, id).value;
    var m, c1 := c.pending[at], c.(pending := c.pending[..at] + c.pending[at + 1..]);
    Dequeue(c, h, at);
    SameMemory(c, c1, h, m);
    WeightWithout(c.pending, at);
    ReceiveProgress(c1, h, m);
    assert Open(c1) == Open(c);
  }

  // ---- What deliver_ready promises ----

  ghost predicate Ready(c: Q.Cluster, id: nat) {
    exists i :: 0 <= i < |c.pending| && c.pending[i].id == id && Q.CanDeliver(c, c.pending[i])
  }

  ghost predicate LeastReady(c: Q.Cluster, id: nat) {
    Ready(c, id) && forall j :: Ready(c, j) ==> id <= j
  }

  /** Each delivery takes the least identifier that is ready at its moment. */
  ghost predicate InReadyOrder(c: Q.Cluster, ids: seq<nat>) {
    forall k :: 0 <= k < |ids| ==> LeastReady(Q.DeliverAll(c, ids[..k]).0, ids[k])
  }

  class SimCluster {
    var placement: Q.Placement
    var leader: NodeId
    var now: nat
    var nextMessageId: nat
    var replicas: map<NodeId, Q.Replica>
    var blocked: set<(NodeId, NodeId)>
    var pending: seq<Q.Message>
    var acknowledgements: map<nat, set<NodeId>>
    var acknowledged: map<nat, Bytes>
    var diskLosses: set<NodeId>
    ghost var history: History

    ghost function View(): Q.Cluster
      reads this
    {
      Q.Cluster(placement, leader, now, nextMessageId, replicas, blocked, pending, acknowledgements, acknowledged,
                diskLosses)
    }

    ghost predicate Valid()
      reads this
    {
      Inv(View(), history)
    }

    constructor (placement: Q.Placement, leader: NodeId)
      requires Q.ValidPlacement(placement) && leader in Q.Voters(placement.replicas)
      ensures Q.Start(placement, leader) == Ok(View()) && Valid()
    {
      this.placement, this.leader, now, nextMessageId := placement, leader, 0, 1;
      replicas := map r | r in placement.replicas :: r.node := Q.Replica(true, true, 0, map[], 0);
      blocked, pending, acknowledgements, acknowledged, diskLosses := {}, [], map[], map[], {};
      history := [];
      new;
      StartOk(placement, leader);
    }

    method Enqueue(from: NodeId, to: NodeId, kind: Q.Kind)
      modifies `pending, `nextMessageId
      ensures View() == Q.Enqueue(old(View()), from, to, kind)
    {
      var id := nextMessageId;
      nextMessageId := Q.SaturatingAdd(nextMessageId, 1);
      pending := pending + [Q.Message(id, from, to, now, kind)];
    }

    method Broadcast(kind: Q.Kind)
      modifies `pending, `nextMessageId
      ensures View() == Q.Broadcast(old(View()), Q.Voters(placement.replicas), kind)
    {
      var voters := Q.Voters(placement.replicas);
      for i := 0 to |voters|
        invariant View() == Q.Broadcast(old(View()), voters[..i], kind)
      {
        assert voters[..i + 1][..i] == voters[..i];
        if voters[i] != leader {
          Enqueue(leader, voters[i], kind);
        }
      }
      assert voters[..|voters|] == voters;
    }

    method MaybeCommit(index: nat) returns (outcome: Q.Outcome)
      modifies `pending, `nextMessageId, `replicas, `acknowledged
      ensures (View(), outcome) == Q.MaybeCommit(old(View()), index)
    {
      hide Q.Broadcast;
      hide Q.Voters;
      var count := if index in acknowledgements then |acknowledgements[index]| else 0;
      if index in acknowledged || count < placement.policy.Quorum() { return Q.Done; }
      if leader !in replicas { return Q.Failed(Q.NotFound); }
      var replica := replicas[leader];
      if index !in replica.log { return Q.Failed(Q.Denied); }
      var entry := replica.log[index];
      acknowledged := acknowledged[index := entry.command];
      replicas := replicas[leader := replica.(commitIndex := index)];
      Broadcast(Q.Commit(entry.term, index));
      return Q.Done;
    }

    /** The greatest key of the leader's log plus one. */
    method Propose(command: Bytes) returns (r: Result<nat, Q.Error>)
      modifies `pending, `nextMessageId, `replicas, `acknowledged, `acknowledgements, `history
      ensures (View(), r) == Q.Propose(old(View()), command)
      ensures old(Valid()) ==> Valid() && old(history) <= history
    {
      hide Inv;
      hide Q.Broadcast;
      hide Q.MaybeCommit;
      hide Q.Voters;
      ghost var before := View();
      if Inv(before, history) { history := ProposeOk(before, history, command); }
      if leader !in replicas { return Err(Q.NotFound); }
      var replica := replicas[leader];
      if !replica.Up() { return Err(Q.Unavailable); }
      var last := LastKey(replica.log);
      var entry := Q.Entry(1, last + 1, command);
      replicas := replicas[leader := replica.(log := replica.log[entry.index := entry])];
      var known := if entry.index in acknowledgements then acknowledgements[entry.index] else {};
      acknowledgements := acknowledgements[entry.index := known + {leader}];
      Broadcast(Q.Append(entry));
      assert View() == Q.Submit(before, entry);
      var committed := MaybeCommit(entry.index);
      return if committed.Failed? then Err(committed.error) else Ok(entry.index);
    }

    /** Commit indexes, log agreement and the survival of acknowledged entries, checked one after the other. */
    method VerifySafety() returns (outcome: Q.Outcome)
      ensures outcome == Q.VerifySafety(View())
    {
      var nodes := replicas.Keys;
      while nodes != {}
        invariant nodes <= replicas.Keys
        invariant forall n :: n in replicas && n !in nodes && replicas[n].commitIndex > 0 ==>
                  replicas[n].commitIndex in replicas[n].log
        decreases nodes
      {
        var n :| n in nodes;
        if replicas[n].commitIndex > 0 && replicas[n].commitIndex !in replicas[n].log { return Q.Failed(Q.Denied); }
        nodes := nodes - {n};
      }
      assert Q.CommitsBacked(View());
      var agree := CheckLogs(replicas);
      LogsAgreeAt(View());
      if !agree { return Q.Failed(Q.Denied); }
      if placement.policy.voterCount >= 1 && |diskLosses| <= placement.policy.ToleratedFailures() {
        var survive := CheckAcknowledged(replicas, acknowledged);
        if !survive { return Q.Failed(Q.Denied); }
      }
      return Q.Done;
    }

    method Receive(m: Q.Message) returns (outcome: Q.Outcome)
      requires m.to in replicas
      modifies `pending, `nextMessageId, `replicas, `acknowledged, `acknowledgements
      ensures (View(), outcome) == Q.Receive(old(View()), m)
    {
      hide Q.MaybeCommit;
      var target := replicas[m.to];
      match m.kind
      case Append(entry) =>
        if entry.index > 1 && entry.index - 1 !in target.log { return Q.Failed(Q.Unavailable); }
        if entry.index in target.log {
          if target.log[entry.index] != entry { return Q.Failed(Q.Denied); }
          assert target.log[entry.index := entry] == target.log;
          assert replicas[m.to := target] == replicas;
        } else {
          replicas := replicas[m.to := target.(log := target.log[entry.index := entry])];
        }
        Enqueue(m.to, m.from, Q.Ack(entry.term, entry.index));
        return Q.Done;
      case Ack(term, index) =>
        if term != 1 || m.to != leader { return Q.Failed(Q.Denied); }
        var known := if index in acknowledgements then acknowledgements[index] else {};
        acknowledgements := acknowledgements[index := known + {m.from}];
        outcome := MaybeCommit(index);
      case Commit(term, index) =>
        if term != 1 || m.from != leader { return Q.Failed(Q.Denied); }
        if index !in target.log { return Q.Failed(Q.Unavailable); }
        var commit := if target.commitIndex >= index then target.commitIndex else index;
        replicas := replicas[m.to := target.(commitIndex := commit)];
        return Q.Done;
    }

    method Deliver(id: nat) returns (outcome: Q.Outcome)
      modifies `pending, `nextMessageId, `replicas, `acknowledged, `acknowledgements
      ensures (View(), outcome) == Q.DeliverMessage(old(View()), id)
      ensures old(Valid()) ==> Valid() && outcome != Q.Failed(Q.Denied)
    {
      hide Inv;
      hide Q.Receive;
      hide Q.SafetyHolds;
      ghost var before := View();
      if Inv(before, history) { DeliverOk(before, history, id); }
      var position := Q.Position(pending, id);
      if position.None? { return Q.Failed(Q.NotFound); }
      var at := position.value;
      var m := pending[at];
      if !CanDeliver(m) { return Q.Failed(Q.Unavailable); }
      pending := pending[..at] + pending[at + 1..];
      outcome := Receive(m);
      if outcome.Failed? { return; }
      outcome := VerifySafety();
    }

    predicate CanDeliver(m: Q.Message)
      reads this
      ensures CanDeliver(m) == Q.CanDeliver(View(), m)
    {
      && m.deliverAt <= now
      && m.from in replicas && replicas[m.from].Up()
      && m.to in replicas && replicas[m.to].Up()
      && (m.from, m.to) !in blocked
    }

    /** The least identifier among the messages that can be delivered now. */
    method NextReady() returns (next: Option<nat>)
      ensures next.None? ==> forall id :: !Ready(View(), id)
      ensures next.Some? ==> LeastReady(View(), next.value)
    {
      next := None;
      for i := 0 to |pending|
        invariant next.None? ==> forall j :: 0 <= j < i ==> !Q.CanDeliver(View(), pending[j])
        invariant next.Some? ==> Ready(View(), next.value)
        invariant next.Some? ==> forall j :: 0 <= j < i && Q.CanDeliver(View(), pending[j]) ==>
                  next.value <= pending[j].id
      {
        if CanDeliver(pending[i]) && (next.None? || pending[i].id < next.value) {
          next := Some(pending[i].id);
        }
      }
    }

    /** Delivers until nothing is ready. Each delivery may enqueue more, yet the loop ends. */
    method DeliverReady() returns (delivered: nat, outcome: Q.Outcome)
      requires Valid()
      modifies `pending, `nextMessageId, `replicas, `acknowledged, `acknowledgements
      ensures Valid() && outcome != Q.Failed(Q.Denied)
      ensures exists ids :: InReadyOrder(old(View()), ids) && Q.DeliverAll(old(View()), ids) == (View(), outcome)
                         && (outcome == Q.Done ==> |ids| == delivered)
      ensures outcome == Q.Done ==> forall id :: !Ready(View(), id)
    {
      hide Inv;
      hide Q.DeliverMessage;
      hide Q.DeliverAll;
      hide InReadyOrder;
      hide LeastReady;
      hide Ready;
      hide Weight;
      hide Open;
      delivered := 0;
      ghost var ids: seq<nat> := [];
      ReadyStart(View());
      while true
        invariant Valid() && |ids| == delivered
        invariant InReadyOrder(old(View()), ids) && Q.DeliverAll(old(View()), ids) == (View(), Q.Done)
        decreases |Open(View())|, Weight(pending)
      {
        ghost var before := View();
        var next := NextReady();
        if next.None? { return delivered, Q.Done; }
        outcome := Deliver(next.value);
        ReadyExtends(old(View()), ids, next.value);
        ids := ids + [next.value];
        if outcome.Failed? { return; }
        DeliverProgress(before, history, next.value);
        delivered := delivered + 1;
      }
    }

    method DeliverSeveral(ids: seq<nat>) returns (outcome: Q.Outcome)
      modifies `pending, `nextMessageId, `replicas, `acknowledged, `acknowledgements
      ensures (View(), outcome) == Q.DeliverAll(old(View()), ids)
    {
      hide Q.DeliverMessage;
      hide Inv;
      for i := 0 to |ids|
        invariant Q.DeliverAll(old(View()), ids[..i]) == (View(), Q.Done)
      {
        assert ids[..i + 1][..i] == ids[..i];
        outcome := Deliver(ids[i]);
        if outcome.Failed? {
          FailureStops(old(View()), ids, i);
          return;
        }
      }
      assert ids[..|ids|] == ids;
      return Q.Done;
    }

    /** One fault, followed by the safety check. */
    method Apply(fault: Q.Fault) returns (outcome: Q.Outcome)
      modifies this
      ensures (View(), outcome) == Q.ApplyFault(old(View()), fault)
      ensures old(Valid()) ==> Valid() && outcome != Q.Failed(Q.Denied)
    {
      hide Inv;
      hide Q.SafetyHolds;
      hide Q.Disturb;
      ghost var before := View();
      if Inv(before, history) {
        DisturbOk(before, history, fault);
        InvIsSafe(Q.Disturb(before, fault).0, history);
      }
      outcome := Disturb(fault);
      if outcome.Failed? { return; }
      outcome := VerifySafety();
    }

    method Disturb(fault: Q.Fault) returns (outcome: Q.Outcome)
      modifies this
      ensures (View(), outcome) == Q.Disturb(old(View()), fault) && history == old(history)
    {
      hide Inv;
      hide Q.DeliverMessage;
      match fault {
        case Partition(left, right) =>
          if left !in replicas || right !in replicas { return Q.Failed(Q.NotFound); }
          blocked := blocked + {(left, right)};
          blocked := blocked + {(right, left)};
          assert blocked == old(blocked) + {(left, right), (right, left)};
        case Heal(left, right) =>
          blocked := blocked - {(left, right)};
          blocked := blocked - {(right, left)};
          assert blocked == old(blocked) - {(left, right), (right, left)};
        case Delay(id, ticks) =>
          var position := Q.Position(pending, id);
          if position.None? { return Q.Failed(Q.NotFound); }
          var m := pending[position.value];
          pending := pending[position.value := m.(deliverAt := Q.SaturatingAdd(m.deliverAt, ticks))];
        case Duplicate(id) =>
          var position := Q.Position(pending, id);
          if position.None? { return Q.Failed(Q.NotFound); }
          var duplicate := pending[position.value].(id := nextMessageId);
          nextMessageId := Q.SaturatingAdd(nextMessageId, 1);
          pending := pending + [duplicate];
        case Deliver(id) =>
          outcome := Deliver(id);
          return;
        case Reorder(ids) =>
          outcome := DeliverSeveral(ids);
          return;
        case Crash(node) =>
          if node !in replicas { return Q.Failed(Q.NotFound); }
          replicas := replicas[node := replicas[node].(online := false)];
        case Restart(node) =>
          if node !in replicas { return Q.Failed(Q.NotFound); }
          if !replicas[node].diskPresent { return Q.Failed(Q.Unavailable); }
          replicas := replicas[node := replicas[node].(online := true)];
        case ClockSkew(node, offset) =>
          if node !in replicas { return Q.Failed(Q.NotFound); }
          replicas := replicas[node := replicas[node].(clockOffset := offset)];
        case DiskLoss(node) =>
          if node !in replicas { return Q.Failed(Q.NotFound); }
          replicas := replicas[node := Q.Replica(false, false, replicas[node].clockOffset, map[], 0)];
          diskLosses := diskLosses + {node};
      }
      return Q.Done;
    }
  }

  // ---- Loops over maps ----

  method LastKey(log: Q.Log) returns (last: nat)
    ensures last == Q.LastIndex(log)
  {
    last := 0;
    var keys := log.Keys;
    while keys != {}
      invariant keys <= log.Keys
      invariant forall i :: i in log && i !in keys ==> i <= last
      invariant last == 0 || last in log
      decreases keys
    {
      var i :| i in keys;
      if i > last { last := i; }
      keys := keys - {i};
    }
  }

  predicate Same(replicas: map<NodeId, Q.Replica>, index: nat) {
    forall n, m :: n in replicas && m in replicas && index in replicas[n].log && index in replicas[m].log ==>
      && replicas[n].log[index].term == replicas[m].log[index].term
      && replicas[n].log[index].command == replicas[m].log[index].command
  }

  lemma LogsAgreeAt(c: Q.Cluster)
    ensures Q.LogsAgree(c) <==> forall index :: Same(c.replicas, index)
  {
    if forall index :: Same(c.replicas, index) {
      forall n, m, i | n in c.replicas && m in c.replicas && i in c.replicas[n].log && i in c.replicas[m].log
        ensures c.replicas[n].log[i].term == c.replicas[m].log[i].term &&
                c.replicas[n].log[i].command == c.replicas[m].log[i].command
      {
        assert Same(c.replicas, i);
      }
    }
  }

  /** At each index, the set of stored (term, digest) pairs must not have two members. */
  method CheckLogs(replicas: map<NodeId, Q.Replica>) returns (agree: bool)
    ensures agree <==> forall index :: Same(replicas, index)
  {
    var indexes := set n, i | n in replicas && i in replicas[n].log :: i;
    ghost var all := indexes;
    while indexes != {}
      invariant indexes <= all
      invariant forall i :: i in all && i !in indexes ==> Same(replicas, i)
      decreases indexes
    {
      var index :| index in indexes;
      var digests := set n | n in replicas && index in replicas[n].log ::
        (replicas[n].log[index].term, replicas[n].log[index].command);
      OneDigest(replicas, index, digests);
      if |digests| > 1 { return false; }
      indexes := indexes - {index};
    }
    return true;
  }

  lemma OneDigest(replicas: map<NodeId, Q.Replica>, index: nat, digests: set<(nat, Bytes)>)
    requires digests == set n | n in replicas && index in replicas[n].log ::
                          (replicas[n].log[index].term, replicas[n].log[index].command)
    ensures |digests| <= 1 <==> Same(replicas, index)
  {
    if |digests| > 1 {
      var x :| x in digests;
      assert |digests - {x}| > 0;
      var y :| y in digests - {x};
    } else {
      forall n, m | n in replicas && m in replicas && index in replicas[n].log && index in replicas[m].log
        ensures (replicas[n].log[index].term, replicas[n].log[index].command) ==
                (replicas[m].log[index].term, replicas[m].log[index].command)
      {
        var x, y := (replicas[n].log[index].term, replicas[n].log[index].command),
            (replicas[m].log[index].term, replicas[m].log[index].command);
        assert x in digests && y in digests;
        if x != y { SubsetSize({x, y}, digests); }
      }
    }
  }

  method CheckAcknowledged(replicas: map<NodeId, Q.Replica>, acknowledged: map<nat, Bytes>) returns (survive: bool)
    ensures survive <==> forall i :: i in acknowledged ==>
              exists n :: n in replicas && i in replicas[n].log && replicas[n].log[i].command == acknowledged[i]
  {
    var indexes := acknowledged.Keys;
    while indexes != {}
      invariant indexes <= acknowledged.Keys
      invariant forall i :: i in acknowledged && i !in indexes ==>
                  exists n :: n in replicas && i in replicas[n].log && replicas[n].log[i].command == acknowledged[i]
      decreases indexes
    {
      var i :| i in indexes;
      var durable := set n | n in replicas && i in replicas[n].log && replicas[n].log[i].command == acknowledged[i];
      if |durable| == 0 {
        assert forall n :: n in replicas && i in replicas[n].log && replicas[n].log[i].command == acknowledged[i] ==>
               n in durable;
        return false;
      }
      assert exists n :: n in durable;
      indexes := indexes - {i};
    }
    return true;
  }

  lemma {:induction false} FailureStops(c: Q.Cluster, ids: seq<nat>, i: nat)
    requires i < |ids| && Q.DeliverAll(c, ids[..i + 1]).1.Failed?
    ensures Q.DeliverAll(c, ids) == Q.DeliverAll(c, ids[..i + 1])
    decreases |ids|
  {
    if i + 1 < |ids| {
      var front := ids[..|ids| - 1];
      assert front[..i + 1] == ids[..i + 1];
      FailureStops(c, front, i);
    } else {
      assert ids[..i + 1] == ids;
    }
  }

  lemma ReadyStart(c: Q.Cluster)
    ensures InReadyOrder(c, []) && Q.DeliverAll(c, []) == (c, Q.Done)
  {
  }

  lemma ReadyExtends(c: Q.Cluster, ids: seq<nat>, id: nat)
    requires InReadyOrder(c, ids) && LeastReady(Q.DeliverAll(c, ids).0, id)
    ensures InReadyOrder(c, ids + [id])
    ensures Q.DeliverAll(c, ids).1 == Q.Done ==>
            Q.DeliverAll(c, ids + [id]) == Q.DeliverMessage(Q.DeliverAll(c, ids).0, id)
  {
    var longer := ids + [id];
    assert longer[..|ids|] == ids;
    forall k | 0 <= k < |longer| ensures LeastReady(Q.DeliverAll(c, longer[..k]).0, longer[k]) {
      if k < |ids| { assert longer[..k] == ids[..k]; }
    }
  }
}
