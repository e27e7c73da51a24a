/**
 What the simulator's protocol sends, stores and promises, spelt out (crates/vyrm-cluster/src/sim.rs, contract.rs).
 */
module Replication {
  import opened Common
  import opened ByteOrder
  import opened Quorum
  import opened QuorumSafety

  // ---- Broadcasts ----

  /** A message of the kind to `node` was queued after the first `from` messages, due at once. */
  ghost predicate Queued(c: Cluster, from: nat, node: NodeId, kind: Kind) {
    exists i :: from <= i < |c.pending| && c.pending[i].from == c.leader && c.pending[i].to == node
             && c.pending[i].kind == kind && c.pending[i].deliverAt == c.now
  }

  /** A broadcast queues a message for every listed node but the leader, and changes nothing else. */
  lemma {:induction false} BroadcastReaches(c: Cluster, nodes: seq<NodeId>, kind: Kind)
    ensures var c' := Broadcast(c, nodes, kind);
            && c' == c.(nextMessageId := c'.nextMessageId, pending := c'.pending) && c.pending <= c'.pending
            && |c'.pending| <= |c.pending| + |nodes|
            && forall n :: n in nodes && n != c.leader ==> Queued(c', |c.pending|, n, kind)
  {
    if nodes != [] {
      var front, last := nodes[..|nodes| - 1], nodes[|nodes| - 1];
      BroadcastReaches(c, front, kind);
      var before, c' := Broadcast(c, front, kind), Broadcast(c, nodes, kind);
      assert nodes == front + [last];
      forall n | n in nodes && n != c.leader ensures Queued(c', |c.pending|, n, kind) {
        if n in front {
          var i :| |c.pending| <= i < |before.pending| && before.pending[i].from == c.leader &&
              before.pending[i].to == n
                && before.pending[i].kind == kind && before.pending[i].deliverAt == c.now;
          assert c'.pending[i] == before.pending[i];
        } else {
          assert c'.pending[|before.pending|] == Message(before.nextMessageId, c.leader, last, c.now, kind);
        }
      }
    }
  }

  // ---- Steps of the protocol ----

  /** Whether a node of the placement votes. */
  ghost predicate Votes(c: Cluster, n: NodeId) {
    exists r :: r in c.placement.replicas && r.role == Voter && r.node == n
  }

  /**
   A proposal to a leader that is up is accepted: it gets the index after all proposals so far, is stored by the leader
   and sent to every other voter. A leader that is down refuses it.
   */
  lemma ProposalReaches(c: Cluster, h: History, command: Bytes)
    requires Inv(c, h)
    ensures var (c', r) := Propose(c, command);
            var entry := Entry(1, |h| + 1, command);
            && c.leader in c.replicas && c.leader in c'.replicas
            && (c.replicas[c.leader].online && c.replicas[c.leader].diskPresent ==>
                  && r == Ok(entry.index) && c'.replicas[c.leader].log == c.replicas[c.leader].log[entry.index := entry]
                  && (forall n :: n in c.replicas && n != c.leader ==>
                      n in c'.replicas && c'.replicas[n] == c.replicas[n])
                  && (forall n :: Votes(c, n) && n != c.leader ==> Queued(c', |c.pending|, n, Append(entry))))
            && (!(c.replicas[c.leader].online && c.replicas[c.leader].diskPresent) ==> (c', r) == (c, Err(Unavailable)))
  {
    hide Voters;
    hide Broadcast;
    hide LastIndex;
    hide HistoryOk;
    hide MessageOk;
    hide LogOk;
    var leader := c.replicas[c.leader];
    if leader.Up() {
      LeaderLog(c, h);
      var entry := Entry(1, LastIndex(leader.log) + 1, command);
      var c2 := Acknowledge(Update(c, c.leader, leader.(log := leader.log[entry.index := entry])), entry.index,
                            c.leader);
      BroadcastReaches(c2, Voters(c.placement.replicas), Append(entry));
      assert entry.index !in c.acknowledgements;
      assert c2.acknowledgements[entry.index] == {c.leader};
    }
  }

  /** A delivered entry is stored, and its acknowledgement queued for the sender. */
  lemma AppendStored(c: Cluster, id: nat, entry: Entry)
    requires Position(c.pending, id).Some?
    requires var m := c.pending[Position(c.pending, id).value];
             m.kind == Append(entry) && CanDeliver(c, m)
             && var log := c.replicas[m.to].log;
                && (entry.index > 1 ==> entry.index - 1 in log) && (entry.index in log ==> log[entry.index] == entry)
    ensures var at := Position(c.pending, id).value;
            var m, c' := c.pending[at], DeliverMessage(c, id).0;
            && c'.replicas == c.replicas[m.to := c.replicas[m.to].(log := c.replicas[m.to].log[entry.index := entry])]
            && c'.pending == c.pending[..at] + c.pending[at + 1..]
                             + [Message(c.nextMessageId, m.to, m.from, c.now, Ack(entry.term, entry.index))]
  {
    hide SafetyHolds;
  }

  /** An entry that would leave a gap is refused as unavailable: its message is consumed and nothing is stored. */
  lemma GapRefused(c: Cluster, id: nat, entry: Entry)
    requires Position(c.pending, id).Some?
    requires var m := c.pending[Position(c.pending, id).value];
             && m.kind == Append(entry) && CanDeliver(c, m) && entry.index > 1
             && entry.index - 1 !in c.replicas[m.to].log
    ensures var at := Position(c.pending, id).value;
            DeliverMessage(c, id) == (c.(pending := c.pending[..at] + c.pending[at + 1..]), Failed(Unavailable))
  {
    hide SafetyHolds;
  }

  /** A follower's commit index follows the leader's announcements and never goes back. */
  lemma CommitFollowed(c: Cluster, id: nat, index: nat)
    requires Position(c.pending, id).Some?
    requires var m := c.pending[Position(c.pending, id).value];
             && m.kind == Commit(1, index) && CanDeliver(c, m) && m.from == c.leader && index in c.replicas[m.to].log
    ensures var m, c' := c.pending[Position(c.pending, id).value], DeliverMessage(c, id).0;
            && m.to in c'.replicas && c'.replicas[m.to].commitIndex >= index
            && c'.replicas[m.to].commitIndex >= c.replicas[m.to].commitIndex
            && (c'.replicas[m.to].commitIndex == index || c'.replicas[m.to].commitIndex == c.replicas[m.to].commitIndex)
            && c'.replicas[m.to].(commitIndex := 0) == c.replicas[m.to].(commitIndex := 0)
            && (forall n :: n in c.replicas && n != m.to ==> n in c'.replicas && c'.replicas[n] == c.replicas[n])
  {
    hide SafetyHolds;
  }

  /**
   An index is acknowledged exactly when a majority of the voters is counted for it; then its command is recorded, the
   leader commits it and every other voter is told.
   */
  lemma QuorumAcknowledges(c: Cluster, h: History, index: nat)
    requires Inv(c, h) && c.leader !in c.diskLosses && index in c.acknowledgements && index !in c.acknowledged
    ensures var c' := MaybeCommit(c, index).0;
            && c.leader in c.replicas && c.leader in c'.replicas
            && (2 * |c.acknowledgements[index]| > c.placement.policy.voterCount ==>
                  && index in c.replicas[c.leader].log
                  && c'.acknowledged == c.acknowledged[index := c.replicas[c.leader].log[index].command]
                  && c'.replicas[c.leader].commitIndex == index
                  && (forall n :: Votes(c, n) && n != c.leader ==> Queued(c', |c.pending|, n, Commit(1, index))))
            && (2 * |c.acknowledgements[index]| < c.placement.policy.voterCount ==> c' == c)
            && 2 * |c.acknowledgements[index]| != c.placement.policy.voterCount
  {
    hide Voters;
    hide Broadcast;
    var leader := c.replicas[c.leader];
    assert index in leader.log;
    HistoryTerm(h, index);
    hide HistoryOk;
    var c1 := Update(c, c.leader, leader.(commitIndex := index));
    BroadcastReaches(c1.(acknowledged := c.acknowledged[index := leader.log[index].command]),
                     Voters(c.placement.replicas), Commit(leader.log[index].term, index));
  }

  // ---- Safety in plain words ----

  /**
   In every reachable state: one index holds one entry in every log that holds it, every commit index is backed by its
   log, and no log has a gap.
   */
  lemma EveryRunAgrees(p: Placement, leader: NodeId, ops: seq<Operation>)
    requires Start(p, leader).Ok?
    ensures var c := Run(Start(p, leader).value, ops);
            && (forall n, m, i ::
                  n in c.replicas && m in c.replicas && i in c.replicas[n].log && i in c.replicas[m].log ==>
                  c.replicas[n].log[i] == c.replicas[m].log[i])
            && (forall n :: n in c.replicas && c.replicas[n].commitIndex > 0 ==>
                c.replicas[n].commitIndex in c.replicas[n].log)
            && (forall n, i, j :: n in c.replicas && i in c.replicas[n].log && 1 <= j <= i ==> j in c.replicas[n].log)
  {
    hide Step;
    StartOk(p, leader);
    var h := RunInvariant(Start(p, leader).value, [], ops);
    var c := Run(Start(p, leader).value, ops);
    hide Run;
    forall n | n in c.replicas ensures ReplicaOk(c.replicas[n], n in c.diskLosses, h) {}
  }

  // ---- Placements ----

  /** The voters of a zone. */
  function InZone(replicas: seq<ReplicaPlacement>, zone: Bytes): set<NodeId> {
    set r | r in replicas && r.role == Voter && r.zone == zone :: r.node
  }

  /** No node is listed twice. */
  ghost predicate NodesDistinct(replicas: seq<ReplicaPlacement>) {
    forall i, j :: 0 <= i < j < |replicas| ==> replicas[i].node != replicas[j].node
  }

  lemma LastIsNew(replicas: seq<ReplicaPlacement>, r: ReplicaPlacement)
    requires NodesDistinct(replicas) && replicas != [] && r in replicas[..|replicas| - 1]
    ensures r.node != replicas[|replicas| - 1].node
  {
    var i :| 0 <= i < |replicas| - 1 && replicas[..|replicas| - 1][i] == r;
    assert replicas[i] == r;
  }

  lemma InZoneNext(front: seq<ReplicaPlacement>, last: ReplicaPlacement, zone: Bytes)
    ensures InZone(front + [last], zone) ==
            if last.role == Voter && last.zone == zone then InZone(front, zone) + {last.node} else InZone(front, zone)
  {
  }

  lemma {:induction false} ZoneCount(replicas: seq<ReplicaPlacement>, zone: Bytes)
    requires NodesDistinct(replicas)
    ensures |InZone(replicas, zone)| == VotersIn(replicas, zone)
  {
    if replicas == [] {
      assert InZone(replicas, zone) == {};
    } else {
      var front, last := replicas[..|replicas| - 1], replicas[|replicas| - 1];
      ZoneCount(front, zone);
      assert replicas == front + [last];
      InZoneNext(front, last, zone);
      forall r | r in front ensures r.node != last.node { LastIsNew(replicas, r); }
      assert last.node !in InZone(front, zone);
      hide InZone;
    }
  }

  lemma {:induction false} OrderedNodes(replicas: seq<ReplicaPlacement>, i: nat, j: nat)
    requires forall k :: 0 <= k < |replicas| - 1 ==> Less(replicas[k].node, replicas[k + 1].node)
    requires i < j < |replicas|
    ensures Less(replicas[i].node, replicas[j].node)
    decreases j
  {
    hide Less;
    if i + 1 < j {
      OrderedNodes(replicas, i, j - 1);
      LessTransitive(replicas[i].node, replicas[j - 1].node, replicas[j].node);
    }
  }

  function VoterNodes(replicas: seq<ReplicaPlacement>): set<NodeId> {
    set r | r in replicas && r.role == Voter :: r.node
  }

  lemma VoterNodesNext(front: seq<ReplicaPlacement>, last: ReplicaPlacement)
    ensures VoterNodes(front + [last]) == if last.role == Voter then VoterNodes(front) + {last.node}
            else VoterNodes(front)
  {
  }

  lemma {:induction false} VoterCount(replicas: seq<ReplicaPlacement>)
    requires NodesDistinct(replicas)
    ensures |VoterNodes(replicas)| == |Voters(replicas)|
  {
    if replicas == [] {
      assert VoterNodes(replicas) == {};
    } else {
      var front, last := replicas[..|replicas| - 1], replicas[|replicas| - 1];
      VoterCount(front);
      assert replicas == front + [last];
      VoterNodesNext(front, last);
      forall r | r in front ensures r.node != last.node { LastIsNew(replicas, r); }
      assert last.node !in VoterNodes(front);
      hide VoterNodes;
    }
  }

  ghost predicate StrictlyOrdered(replicas: seq<ReplicaPlacement>) {
    forall i, j :: 0 <= i < j < |replicas| ==> Less(replicas[i].node, replicas[j].node)
  }

  /** What the validation of a placement decides: distinct ordered nodes, the voters, and how they spread over zones. */
  lemma PlacementMeaning(p: Placement)
    ensures ValidPlacement(p) <==>
            && p.epoch > 0 && p.policy.voterCount >= 3 && p.policy.voterCount % 2 == 1
            && 2 <= p.policy.minimumZones <= p.policy.voterCount && p.policy.maximumPerZone >= 1
            && StrictlyOrdered(p.replicas) && |VoterNodes(p.replicas)| == p.policy.voterCount
            && |set r | r in p.replicas && r.role == Voter :: r.zone| >= p.policy.minimumZones
            && forall zone :: |InZone(p.replicas, zone)| <= p.policy.maximumPerZone
  {
    var rs := p.replicas;
    hide Less;
    if forall i :: 0 <= i < |rs| - 1 ==> Less(rs[i].node, rs[i + 1].node) {
      forall i, j | 0 <= i < j < |rs| ensures Less(rs[i].node, rs[j].node) && rs[i].node != rs[j].node {
        OrderedNodes(rs, i, j);
        LessIrreflexive(rs[i].node);
      }
      VoterCount(rs);
      forall zone ensures |InZone(rs, zone)| == VotersIn(rs, zone) &&
          (zone !in VoterZones(rs) ==> InZone(rs, zone) == {}) {
        ZoneCount(rs, zone);
      }
    }
    hide InZone;
    hide VotersIn;
    hide Voters;
  }

  lemma LessIrreflexive(a: Bytes)
    ensures !Less(a, a)
  {
    if Less(a, a) { LessAsymmetric(a, a); }
  }

  /** When no zone holds more voters than may fail, the voters outside any zone still form a quorum. */
  lemma ZoneLossLeavesQuorum(p: Placement, zone: Bytes)
    requires ValidPlacement(p) && p.policy.maximumPerZone <= p.policy.ToleratedFailures()
    ensures |VoterNodes(p.replicas) - InZone(p.replicas, zone)| >= p.policy.Quorum()
  {
    PlacementMeaning(p);
    hide ValidPlacement;
    assert InZone(p.replicas, zone) <= VoterNodes(p.replicas);
  }

  /**
   A cluster starts exactly from a valid placement with a voting leader: every placed node, voting or not, is online
   with an empty disk, and nothing is queued, blocked, counted or lost.
   */
  lemma StartMeaning(p: Placement, leader: NodeId)
    ensures Start(p, leader).Ok? <==>
            ValidPlacement(p) && exists r :: r in p.replicas && r.role == Voter && r.node == leader
    ensures Start(p, leader).Ok? ==>
              var c := Start(p, leader).value;
              && c.placement == p && c.leader == leader && c.now == 0
              && (forall n :: n in c.replicas <==> exists r :: r in p.replicas && r.node == n)
              && (forall n :: n in c.replicas ==> c.replicas[n] == Replica(true, true, 0, map[], 0))
              && c.pending == [] && c.blocked == {} && c.acknowledgements == map[] && c.acknowledged == map[] &&
                 c.diskLosses == {}
  {
    hide ValidPlacement;
  }

  // ---- The safety check ----

  /** Some node holds an acknowledged command at its index. */
  ghost predicate Survives(c: Cluster, i: nat) {
    exists n :: n in c.replicas && i in c.replicas[n].log && i in c.acknowledged &&
        c.replicas[n].log[i].command == c.acknowledged[i]
  }

  /** What the safety check decides. */
  lemma SafetyIff(c: Cluster)
    requires c.placement.policy.voterCount >= 1
    ensures VerifySafety(c) == Done <==>
            && (forall n :: n in c.replicas ==>
                c.replicas[n].commitIndex == 0 || c.replicas[n].commitIndex in c.replicas[n].log)
            && (forall n, m, i ::
                  n in c.replicas && m in c.replicas && i in c.replicas[n].log && i in c.replicas[m].log ==>
                  c.replicas[n].log[i].term == c.replicas[m].log[i].term &&
                      c.replicas[n].log[i].command == c.replicas[m].log[i].command)
            && (2 * |c.diskLosses| < c.placement.policy.voterCount ==> forall i :: i in c.acknowledged ==>
                Survives(c, i))
    ensures VerifySafety(c) != Done ==> VerifySafety(c) == Failed(Denied)
  {
    assert |c.diskLosses| <= c.placement.policy.ToleratedFailures() <==>
           2 * |c.diskLosses| < c.placement.policy.voterCount;
    assert AcknowledgedSurvive(c) <==>
           (2 * |c.diskLosses| < c.placement.policy.voterCount ==> forall i :: i in c.acknowledged ==> Survives(c, i));
  }
}
