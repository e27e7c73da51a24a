/** Breadth-first traversal of a graph snapshot (crates/vyrm-core/src/runtime.rs). */
module Traversal {
  import opened Common
  import opened RuntimeModel

  type Relations = map<Ref, Relation>

  /** An empty set of kinds permits every edge. */
  predicate Permitted(r: Relation, kinds: set<Bytes>) {
    kinds == {} || r.reference.kind in kinds
  }

  ghost predicate Edge(relations: Relations, kinds: set<Bytes>, a: Ref, b: Ref) {
    exists k ::
      && k in relations && relations[k].from == a && relations[k].to == b
      && (kinds == {} || relations[k].reference.kind in kinds)
  }

  /** `b` can be reached from `start` over at most `n` permitted edges. */
  ghost predicate Within(relations: Relations, kinds: set<Bytes>, start: Ref, b: Ref, n: nat)
    decreases n
  {
    b == start || (n > 0 && exists a :: Within(relations, kinds, start, a, n - 1) && Edge(relations, kinds, a, b))
  }

  type Queue = seq<(Ref, nat)>

  /** The FIFO queue holds at most two consecutive depths, in order, and no visited depth is beyond the second. */
  ghost predicate QueueOk(queue: Queue, dist: map<Ref, nat>) {
    && (forall i :: 0 <= i < |queue| ==> queue[i].0 in dist && dist[queue[i].0] == queue[i].1)
    && (forall i, j :: 0 <= i < j < |queue| ==> queue[i].1 <= queue[j].1)
    && (forall x :: x in dist && |queue| > 0 ==> dist[x] <= queue[0].1 + 1)
  }

  ghost predicate Queued(queue: Queue, x: Ref) {
    exists i :: 0 <= i < |queue| && queue[i].0 == x
  }

  /** Everything one edge beyond `x` has been found, no deeper than one level below it. */
  ghost predicate Expanded(relations: Relations, kinds: set<Bytes>, dist: map<Ref, nat>, x: Ref)
    requires x in dist
  {
    forall k :: k in relations && relations[k].from == x && Permitted(relations[k], kinds) ==>
      relations[k].to in dist && dist[relations[k].to] <= dist[x] + 1
  }

  ghost predicate FoundOk(relations: Relations, kinds: set<Bytes>, start: Ref, maxDepth: nat, dist: map<Ref, nat>) {
    && start in dist && dist[start] == 0
    && forall x :: x in dist ==> dist[x] <= maxDepth && Within(relations, kinds, start, x, dist[x])
  }

  ghost predicate WorkLeft(relations: Relations, kinds: set<Bytes>, maxDepth: nat, dist: map<Ref, nat>, queue: Queue) {
    forall x :: x in dist ==> Queued(queue, x) || dist[x] >= maxDepth || Expanded(relations, kinds, dist, x)
  }

  lemma OneEdgeFurther(relations: Relations, kinds: set<Bytes>, start: Ref, k: Ref, n: nat)
    requires k in relations && Permitted(relations[k], kinds) && Within(relations, kinds, start, relations[k].from, n)
    ensures Within(relations, kinds, start, relations[k].to, n + 1)
  {
    assert Edge(relations, kinds, relations[k].from, relations[k].to);
  }

  lemma {:induction false} Monotone(relations: Relations, kinds: set<Bytes>, start: Ref, b: Ref, m: nat, n: nat)
    requires m <= n && Within(relations, kinds, start, b, m)
    ensures Within(relations, kinds, start, b, n)
    decreases m
  {
    if b != start {
      var a :| Within(relations, kinds, start, a, m - 1) && Edge(relations, kinds, a, b);
      Monotone(relations, kinds, start, a, m - 1, n - 1);
    }
  }

  /** When no work is left, everything within the depth has been found at its shortest distance. */
  lemma {:induction false} AllFound(relations: Relations, kinds: set<Bytes>, start: Ref, maxDepth: nat,
                                    dist: map<Ref, nat>, b: Ref, n: nat)
    requires FoundOk(relations, kinds, start, maxDepth, dist) && WorkLeft(relations, kinds, maxDepth, dist, [])
    requires n <= maxDepth && Within(relations, kinds, start, b, n)
    ensures b in dist && dist[b] <= n
    decreases n
  {
    if b != start {
      var a :| Within(relations, kinds, start, a, n - 1) && Edge(relations, kinds, a, b);
      AllFound(relations, kinds, start, maxDepth, dist, a, n - 1);
      assert Expanded(relations, kinds, dist, a);
    }
  }

  /** Taking the front keeps the queue in order and leaves only the front to expand. */
  lemma PopFront(queue: Queue, dist: map<Ref, nat>)
    requires queue != [] && QueueOk(queue, dist)
    ensures QueueOk(queue[1..], dist)
    ensures forall x :: Queued(queue, x) ==> x == queue[0].0 || Queued(queue[1..], x)
  {
    forall x | Queued(queue, x) ensures x == queue[0].0 || Queued(queue[1..], x) {
      var i :| 0 <= i < |queue| && queue[i].0 == x;
      if i > 0 { assert queue[1..][i - 1].0 == x; }
    }
  }

  lemma PushBack(queue: Queue, dist: map<Ref, nat>, x: Ref, depth: nat)
    requires QueueOk(queue, dist) && x !in dist
    requires (forall y :: y in dist ==> dist[y] <= depth + 1) && (forall i :: 0 <= i < |queue| ==> depth <= queue[i].1)
    ensures QueueOk(queue + [(x, depth + 1)], dist[x := depth + 1])
    ensures Queued(queue + [(x, depth + 1)], x)
    ensures forall y :: Queued(queue, y) ==> Queued(queue + [(x, depth + 1)], y)
  {
    var longer := queue + [(x, depth + 1)];
    assert longer[|queue|].0 == x;
    forall y | Queued(queue, y) ensures Queued(longer, y) {
      var i :| 0 <= i < |queue| && queue[i].0 == y;
      assert longer[i].0 == y;
    }
  }

  /**
   What is known while the node `current` at `depth` is being expanded, with the relations `todo` still to look at.
   */
  ghost predicate Expanding(relations: Relations, kinds: set<Bytes>, start: Ref, maxDepth: nat, dist: map<Ref, nat>,
                            queue: Queue,
                            current: Ref, depth: nat, todo: set<Ref>) {
    && FoundOk(relations, kinds, start, maxDepth, dist) && QueueOk(queue, dist)
    && current in dist && dist[current] == depth < maxDepth
    && (forall y :: y in dist ==> dist[y] <= depth + 1) && (forall i :: 0 <= i < |queue| ==> depth <= queue[i].1)
    && (forall x :: x in dist && x != current ==>
        Queued(queue, x) || dist[x] >= maxDepth || Expanded(relations, kinds, dist, x))
    && (forall k :: k in relations && k !in todo && relations[k].from == current && Permitted(relations[k], kinds) ==>
        relations[k].to in dist)
  }

  lemma Discover(relations: Relations, kinds: set<Bytes>, start: Ref, maxDepth: nat, dist: map<Ref, nat>, queue: Queue,
                 current: Ref, depth: nat, todo: set<Ref>, k: Ref)
    requires Expanding(relations, kinds, start, maxDepth, dist, queue, current, depth, todo)
    requires k in relations && relations[k].from == current && Permitted(relations[k], kinds)
    requires relations[k].to !in dist
    ensures Expanding(relations, kinds, start, maxDepth, dist[relations[k].to := depth + 1],
                      queue + [(relations[k].to, depth + 1)],
                      current, depth, todo - {k})
  {
    hide Within;
    hide Queued;
    var x := relations[k].to;
    var dist', queue' := dist[x := depth + 1], queue + [(x, depth + 1)];
    OneEdgeFurther(relations, kinds, start, k, depth);
    PushBack(queue, dist, x, depth);
    hide QueueOk;
    assert FoundOk(relations, kinds, start, maxDepth, dist');
    forall y | y in dist' && y != current
      ensures Queued(queue', y) || dist'[y] >= maxDepth || Expanded(relations, kinds, dist', y)
    {
      if y != x && !Queued(queue, y) && dist[y] < maxDepth {
        assert Expanded(relations, kinds, dist, y);
        MoreFound(relations, kinds, dist, y, x, depth + 1);
      }
    }
  }

  lemma MoreFound(relations: Relations, kinds: set<Bytes>, dist: map<Ref, nat>, y: Ref, x: Ref, d: nat)
    requires y in dist && x !in dist && Expanded(relations, kinds, dist, y)
    ensures Expanded(relations, kinds, dist[x := d], y)
  {
  }

  lemma FinishNode(relations: Relations, kinds: set<Bytes>, start: Ref, maxDepth: nat, dist: map<Ref, nat>,
                   queue: Queue, current: Ref, depth: nat)
    requires Expanding(relations, kinds, start, maxDepth, dist, queue, current, depth, {})
    ensures WorkLeft(relations, kinds, maxDepth, dist, queue)
  {
    hide Within;
    hide QueueOk;
    assert Expanded(relations, kinds, dist, current);
  }

  lemma StartNode(relations: Relations, kinds: set<Bytes>, start: Ref, maxDepth: nat, dist: map<Ref, nat>, queue: Queue)
    requires queue != [] && FoundOk(relations, kinds, start, maxDepth, dist) && QueueOk(queue, dist)
    requires WorkLeft(relations, kinds, maxDepth, dist, queue)
    ensures queue[0].1 < maxDepth ==>
            Expanding(relations, kinds, start, maxDepth, dist, queue[1..], queue[0].0, queue[0].1, relations.Keys)
    ensures queue[0].1 >= maxDepth ==>
            QueueOk(queue[1..], dist) && WorkLeft(relations, kinds, maxDepth, dist, queue[1..])
  {
    hide Within;
    PopFront(queue, dist);
    hide Queued;
    hide Expanded;
  }

  /** Looks at every edge of one node; each new reference is marked and queued one level deeper. */
  method ExpandNode(relations: Relations, kinds: set<Bytes>, seen: set<Ref>, pending: Queue, current: Ref, depth: nat,
                    ghost start: Ref, ghost maxDepth: nat, ghost known: map<Ref, nat>, ghost universe: set<Ref>)
    returns (visited: set<Ref>, queue: Queue, ghost dist: map<Ref, nat>)
    requires seen == known.Keys && seen <= universe && forall k :: k in relations ==> relations[k].to in universe
    requires Expanding(relations, kinds, start, maxDepth, known, pending, current, depth, relations.Keys)
    ensures visited == dist.Keys && seen <= visited <= universe
    ensures FoundOk(relations, kinds, start, maxDepth, dist) && QueueOk(queue, dist) &&
            WorkLeft(relations, kinds, maxDepth, dist, queue)
    ensures visited == seen ==> queue == pending
  {
    hide FoundOk;
    hide QueueOk;
    hide WorkLeft;
    visited, queue, dist := seen, pending, known;
    var remaining := relations.Keys;
    while remaining != {}
      invariant remaining <= relations.Keys
      invariant visited == dist.Keys && seen <= visited <= universe
      invariant visited == seen ==> queue == pending
      invariant Expanding(relations, kinds, start, maxDepth, dist, queue, current, depth, remaining)
      decreases remaining
    {
      hide Expanding;
      var k :| k in remaining;
      var relation := relations[k];
      if relation.from == current && Permitted(relation, kinds) && relation.to !in visited {
        Discover(relations, kinds, start, maxDepth, dist, queue, current, depth, remaining, k);
        visited := visited + {relation.to};
        queue := queue + [(relation.to, depth + 1)];
        dist := dist[relation.to := depth + 1];
      } else {
        SkipRelation(relations, kinds, start, maxDepth, dist, queue, current, depth, remaining, k);
      }
      remaining := remaining - {k};
    }
    FinishNode(relations, kinds, start, maxDepth, dist, queue, current, depth);
  }

  /**
   The loop ends, and what it visits are exactly the references reachable over at most `maxDepth` permitted edges,
   whatever order a node's edges are listed in.
   */
  method Traverse(relations: Relations, start: Ref, maxDepth: nat, kinds: set<Bytes>) returns (visited: set<Ref>)
    ensures forall b :: b in visited <==> Within(relations, kinds, start, b, maxDepth)
  {
    hide Within;
    hide QueueOk;
    hide WorkLeft;
    hide Expanding;
    visited := {start};
    var queue: Queue := [(start, 0)];
    ghost var dist: map<Ref, nat> := map[start := 0];
    ghost var universe := {start} + set k | k in relations :: relations[k].to;
    StartQueue(relations, kinds, start, maxDepth);
    while queue != []
      invariant visited == dist.Keys && visited <= universe
      invariant FoundOk(relations, kinds, start, maxDepth, dist) && QueueOk(queue, dist)
      invariant WorkLeft(relations, kinds, maxDepth, dist, queue)
      decreases |universe - visited|, |queue|
    {
      var (current, depth) := queue[0];
      StartNode(relations, kinds, start, maxDepth, dist, queue);
      queue := queue[1..];
      if depth < maxDepth {
        ghost var seen := visited;
        visited, queue,
            dist := ExpandNode(relations, kinds, visited, queue, current, depth, start, maxDepth, dist, universe);
        if visited != seen { Smaller(universe - visited, universe - seen); }
      }
    }
    forall b ensures b in visited <==> Within(relations, kinds, start, b, maxDepth) {
      if Within(relations, kinds, start, b, maxDepth) { AllFound(relations, kinds, start, maxDepth, dist, b, maxDepth);
                                                       }
      if b in visited { Monotone(relations, kinds, start, b, dist[b], maxDepth); }
    }
  }

  lemma StartQueue(relations: Relations, kinds: set<Bytes>, start: Ref, maxDepth: nat)
    ensures var queue, dist: map<Ref, nat> := [(start, 0)], map[start := 0];
            FoundOk(relations, kinds, start, maxDepth, dist) && QueueOk(queue, dist) &&
                WorkLeft(relations, kinds, maxDepth, dist, queue)
  {
    var queue: Queue := [(start, 0)];
    assert queue[0].0 == start;
  }

  lemma SkipRelation(relations: Relations, kinds: set<Bytes>, start: Ref, maxDepth: nat, dist: map<Ref, nat>,
                     queue: Queue,
                     current: Ref, depth: nat, todo: set<Ref>, k: Ref)
    requires Expanding(relations, kinds, start, maxDepth, dist, queue, current, depth, todo) && k in relations
    requires relations[k].from != current || !Permitted(relations[k], kinds) || relations[k].to in dist
    ensures Expanding(relations, kinds, start, maxDepth, dist, queue, current, depth, todo - {k})
  {
    hide FoundOk;
    hide QueueOk;
    hide Expanded;
    hide Queued;
  }

  lemma Smaller<T>(a: set<T>, b: set<T>)
    requires a <= b && a != b
    ensures |a| < |b|
  {
    var x :| x in b && x !in a;
    assert |a| + |b - a| == |b| by { assert a + (b - a) == b; }
    assert x in b - a;
  }
}
