/** Runs of commits, all accepted, after which a snapshot breaks a constraint of the schema. */
module HistoryRuns {
  import opened Common
  import opened Keys
  import opened RuntimeModel
  import opened Graph
  import opened Schema
  import opened History

  const SCOPE: Bytes := [115]
  const NODE: Bytes := [110]
  const LINK: Bytes := [108]
  const PING: Bytes := [112]
  const NAME: Bytes := [118]
  const A: Ref := Ref(NODE, [97])
  const B: Ref := Ref(NODE, [98])
  const NAMED: Properties := map[NAME := Null]
  const NAMES: map<Bytes, PropertySchema> := map[NAME := PropertySchema(NullType, false)]

  /** Nodes with a unique name, at most one relation of the kind out of a node, and two kinds of events. */
  function RegistryFor(kind: Bytes): Registry {
    Registry(1, [109], map[NODE := RecordSchema(NAMES, false, {NAME})],
             map[kind := RelationSchema({NODE}, {NODE}, map[], false, false, Some(1), None)],
             map[PING := EventSchema(true, {}, map[], false), NODE := EventSchema(false, {}, NAMES, false)])
  }

  lemma RegistryIsOk(kind: Bytes)
    ensures RegistryOk(RegistryFor(kind)) && NeedsRecords(RegistryFor(kind)) && NeedsRelations(RegistryFor(kind))
  {
    var reg := RegistryFor(kind);
    assert !IsSpace(reg.migration[0]) && NODE in reg.records && NAME in reg.records[NODE].unique;
    assert kind in reg.relations && reg.relations[kind].maxOutgoing.Some?;
  }

  function CommitAt(cursor: nat, mutations: seq<Mutation>): Commit {
    Commit(SCOPE, 0, [117], cursor, mutations)
  }

  function Opening(kind: Bytes, first: Record): Commit {
    CommitAt(0, [SchemaMutation(RegistryFor(kind)), RecordMutation(first)])
  }

  /** Tables without two named nodes or two relations valid at one instant satisfy the registry. */
  lemma OneAtATime(kind: Bytes, records: Records, relations: Relations)
    requires forall r, q, t: Millis ::
               (&& r in relations && q in relations && ValidAtWindow(relations[r].validFrom, relations[r].validTo, t)
                && ValidAtWindow(relations[q].validFrom, relations[q].validTo, t)) ==> r == q
    requires forall r, q, t: Millis :: r in records && q in records && BothAt(records[r], records[q], t) ==> r == q
    ensures SchemaHolds(RegistryFor(kind), records, relations)
  {
    forall key, t ensures |Live(relations, relations.Keys, kind, ByFrom, key, t)| <= 1 {
      var live := Live(relations, relations.Keys, kind, ByFrom, key, t);
      if live != {} {
        var r :| r in live;
        assert live == {r};
      }
    }
    hide Live;
    assert Limited(relations, kind, ByFrom, 1);
    assert RelationSchemaHolds(RegistryFor(kind).relations[kind], kind, relations);
    assert UniqueOk(records, NODE, NAME);
    assert RecordSchemaHolds(RegistryFor(kind).records[NODE], NODE, records);
  }

  /** The registry and a first node are accepted. */
  lemma Opened(kind: Bytes, first: Record)
    requires first.reference.kind == NODE && ValidWindow(first.validFrom, first.validTo)
    requires first.properties == map[] || first.properties == NAMED
    ensures AfterCommit(EMPTY_STORE, Opening(kind, first)) ==
            Store(2, Changes(Opening(kind, first), 0),
                  map[SCOPE := Space(Some(RegistryFor(kind)), map[first.reference := first], map[])])
  {
    var commit := Opening(kind, first);
    MergeOpening(kind, first);
    OneAtATime(kind, map[first.reference := first], map[]);
    RegistryIsOk(kind);
    hide RegistryOk;
    hide SchemaHolds;
    hide NeedsRecords;
    hide NeedsRelations;
    hide MergeRecords;
    hide MergeRelations;
    hide ProposedSchema;
    OpeningIsValid(kind, first);
    hide ValidCommit;
    hide Typed;
    assert Accepts(EMPTY_STORE, commit);
  }

  lemma OpeningIsValid(kind: Bytes, first: Record)
    requires first.reference.kind == NODE && ValidWindow(first.validFrom, first.validTo)
    requires first.properties == map[] || first.properties == NAMED
    ensures ValidCommit(Opening(kind, first))
    ensures Typed(RegistryFor(kind), Opening(kind, first).mutations[0])
    ensures Typed(RegistryFor(kind), Opening(kind, first).mutations[1])
  {
    RegistryIsOk(kind);
    hide RegistryOk;
    var commit := Opening(kind, first);
    assert ValidMutation(commit.mutations[0]) && ValidMutation(commit.mutations[1]);
  }

  lemma MergeOpening(kind: Bytes, first: Record)
    ensures var opening := Opening(kind, first).mutations;
            && ProposedSchema(opening) == Some(RegistryFor(kind))
            && MergeRecords(map[], opening) == map[first.reference := first] && MergeRelations(map[], opening) == map[]
  {
    var opening := Opening(kind, first).mutations;
    var front := [opening[0]];
    assert opening[..1] == front && front[..0] == [];
    assert ProposedSchema(front) == Some(RegistryFor(kind));
    assert MergeRecords(map[], front) == map[] && MergeRelations(map[], front) == map[];
  }

  lemma MergeSingle(records: Records, relations: Relations, m: Mutation)
    ensures MergeRecords(records, [m]) == WriteRecord(records, m) &&
            MergeRelations(relations, [m]) == WriteRelation(relations, m)
    ensures !m.SchemaMutation? ==> ProposedSchema([m]) == None
  {
    assert [m][..0] == [];
    assert MergeRecords(records, []) == records && MergeRelations(relations, []) == relations;
  }

  /** A commit of one mutation is accepted when the tables then satisfy the registry. */
  lemma Single(store: Store, kind: Bytes, m: Mutation)
    requires var space := SpaceOf(store, SCOPE);
             && space.schema == Some(RegistryFor(kind)) && ReferencesKnown(space, [m])
             && SchemaHolds(RegistryFor(kind), WriteRecord(space.records, m), WriteRelation(space.relations, m))
    requires ValidMutation(m) && Typed(RegistryFor(kind), m) && !m.SchemaMutation?
    ensures var space := SpaceOf(store, SCOPE);
            AfterCommit(store, CommitAt(store.cursor, [m])) ==
            Store(store.cursor + 1, store.log + [Change(store.cursor + 1, SCOPE, 0, m)], store.spaces[SCOPE :=
              Space(Some(RegistryFor(kind)), WriteRecord(space.records, m), WriteRelation(space.relations, m))])
  {
    var commit, space := CommitAt(store.cursor, [m]), SpaceOf(store, SCOPE);
    MergeSingle(space.records, space.relations, m);
    RegistryIsOk(kind);
    hide SchemaHolds;
    hide RegistryOk;
    hide NeedsRecords;
    hide NeedsRelations;
    hide MergeRecords;
    hide MergeRelations;
    hide ProposedSchema;
    hide ReferencesKnown;
    hide Typed;
    assert ValidCommit(commit);
    assert Accepts(store, commit);
    assert Changes(commit, store.cursor) == [Change(store.cursor + 1, SCOPE, 0, m)];
  }

  lemma RunNext(commits: seq<Commit>, next: Commit)
    ensures Run(EMPTY_STORE, commits + [next]) == AfterCommit(Run(EMPTY_STORE, commits), next)
  {
    assert (commits + [next])[..|commits|] == commits;
  }

  lemma ReplayNext(log: seq<Change>, c: Change, scope: Bytes, t: Millis, knownAt: nat)
    requires Seen(c, scope, knownAt)
    ensures Replay(log + [c], scope, t, knownAt) ==
            ApplyMutation(Replay(log, scope, t, knownAt), c.mutation, c.cursor, c.at, t)
  {
    assert (log + [c])[..|log|] == log;
  }

  lemma ReplayOpening(kind: Bytes, first: Record, t: Millis, knownAt: nat)
    requires knownAt >= 2 && first.validFrom <= t
    ensures Replay(Changes(Opening(kind, first), 0), SCOPE, t, knownAt) == Maps(map[first.reference := first], map[])
  {
    var changes := Changes(Opening(kind, first), 0);
    assert changes == [] + [changes[0]] + [changes[1]];
    ReplayNext([], changes[0], SCOPE, t, knownAt);
    ReplayNext([] + [changes[0]], changes[1], SCOPE, t, knownAt);
  }

  // ---- A link moved to a later start ----

  const NODE_A: Record := Record(A, 0, None, map[])

  function Link(id: Byte, from: Millis, to: Option<Millis>): Relation {
    Relation(Ref(LINK, [id]), A, A, from, to, map[])
  }

  /** A link for ever is moved to start at 100, which makes room for a second link until 100. */
  const MOVED_LINK: seq<Commit> := [
    Opening(LINK, NODE_A), CommitAt(2, [RelationMutation(Link(1, 0, None))]),
    CommitAt(3, [RelationMutation(Link(1, 100, None))]), CommitAt(4, [RelationMutation(Link(2, 0, Some(100)))])]

  lemma Linked(store: Store, link: Relation)
    requires SpaceOf(store, SCOPE).schema == Some(RegistryFor(LINK))
    requires SpaceOf(store, SCOPE).records == map[A := NODE_A]
    requires link.reference.kind == LINK && link.from == link.to == A && link.properties == map[]
    requires ValidWindow(link.validFrom, link.validTo)
    requires forall r, t: Millis :: r in SpaceOf(store, SCOPE).relations && r != link.reference ==>
               !(ValidAtWindow(SpaceOf(store, SCOPE).relations[r].validFrom, SpaceOf(store, SCOPE).relations[r].validTo,
                               t)
                 && ValidAtWindow(link.validFrom, link.validTo, t))
    requires forall r :: r in SpaceOf(store, SCOPE).relations ==> r == Ref(LINK, [1])
    ensures AfterCommit(store, CommitAt(store.cursor, [RelationMutation(link)])) ==
            Store(store.cursor + 1, store.log + [Change(store.cursor + 1, SCOPE, 0, RelationMutation(link))],
                  store.spaces[SCOPE := Space(Some(RegistryFor(LINK)), map[A := NODE_A],
                                              SpaceOf(store, SCOPE).relations[link.reference := link])])
  {
    var space := SpaceOf(store, SCOPE);
    OneAtATime(LINK, space.records, space.relations[link.reference := link]);
    hide SchemaHolds;
    Single(store, LINK, RelationMutation(link));
  }

  lemma MovedLinkRuns()
    ensures var store := Run(EMPTY_STORE, MOVED_LINK);
            && store.cursor == 5 && SpaceOf(store, SCOPE).schema == Some(RegistryFor(LINK))
            && store.log ==
               Changes(Opening(LINK, NODE_A), 0) + [Change(3, SCOPE, 0, RelationMutation(Link(1, 0, None)))]
               + [Change(4, SCOPE, 0, RelationMutation(Link(1, 100, None)))]
               + [Change(5, SCOPE, 0, RelationMutation(Link(2, 0, Some(100))))]
  {
    hide AfterCommit;
    var c0, c1, c2, c3 := MOVED_LINK[0], MOVED_LINK[1], MOVED_LINK[2], MOVED_LINK[3];
    assert MOVED_LINK == [] + [c0] + [c1] + [c2] + [c3];
    RunNext([], c0);
    RunNext([] + [c0], c1);
    RunNext([] + [c0] + [c1], c2);
    RunNext([] + [c0] + [c1] + [c2], c3);
    Opened(LINK, NODE_A);
    var s0 := AfterCommit(EMPTY_STORE, c0);
    assert Run(EMPTY_STORE, []) == EMPTY_STORE;
    hide Run;
    Linked(s0, Link(1, 0, None));
    var s1 := AfterCommit(s0, c1);
    Linked(s1, Link(1, 100, None));
    var s2 := AfterCommit(s1, c2);
    assert SpaceOf(s2, SCOPE).relations == map[Ref(LINK, [1]) := Link(1, 100, None)];
    Linked(s2, Link(2, 0, Some(100)));
  }

  /** The snapshot at instant 50 shows two links out of a node limited to one. */
  lemma ReplacedVersionEscapes()
    ensures var store := Run(EMPTY_STORE, MOVED_LINK);
            var shown := SnapshotOf(store.log, SCOPE, 50, store.cursor).graph.relations;
            && SpaceOf(store, SCOPE).schema == Some(RegistryFor(LINK))
            && |Shown(store.log, SCOPE, LINK, ByFrom, (Some(A), None), 50, store.cursor)| == 2
            && !RelationSchemaHolds(RegistryFor(LINK).relations[LINK], LINK, shown)
  {
    hide Run;
    MovedLinkRuns();
    var log, opening := Run(EMPTY_STORE, MOVED_LINK).log, Changes(Opening(LINK, NODE_A), 0);
    var c2, c3 := Change(3, SCOPE, 0, RelationMutation(Link(1, 0, None))),
        Change(4, SCOPE, 0, RelationMutation(Link(1, 100, None)));
    var c4 := Change(5, SCOPE, 0, RelationMutation(Link(2, 0, Some(100))));
    ReplayOpening(LINK, NODE_A, 50, 5);
    ReplayNext(opening, c2, SCOPE, 50, 5);
    ReplayNext(opening + [c2], c3, SCOPE, 50, 5);
    ReplayNext(opening + [c2] + [c3], c4, SCOPE, 50, 5);
    hide Replay;
    var shown := SnapshotOf(log, SCOPE, 50, 5).graph.relations;
    assert shown == map[Ref(LINK, [1]) := Link(1, 0, None), Ref(LINK, [2]) := Link(2, 0, Some(100))];
    var live := Live(shown, shown.Keys, LINK, ByFrom, (Some(A), None), 50);
    assert live == {Ref(LINK, [1]), Ref(LINK, [2])};
    assert |live| == 2;
  }

  // ---- A named node moved to a later start ----

  function Node(reference: Ref, from: Millis, to: Option<Millis>): Record {
    Record(reference, from, to, NAMED)
  }

  /** A node for ever is moved to start at 100, which makes room for a second node of the same name until 100. */
  const MOVED_NODE: seq<Commit> := [
    Opening(LINK, Node(A, 0, None)), CommitAt(2, [RecordMutation(Node(A, 100, None))]),
    CommitAt(3, [RecordMutation(Node(B, 0, Some(100)))])]

  lemma MovedNodeRuns()
    ensures var store := Run(EMPTY_STORE, MOVED_NODE);
            && store.cursor == 4 && SpaceOf(store, SCOPE).schema == Some(RegistryFor(LINK))
            && store.log == Changes(Opening(LINK, Node(A, 0, None)), 0)
               + [Change(3, SCOPE, 0, RecordMutation(Node(A, 100, None)))]
               + [Change(4, SCOPE, 0, RecordMutation(Node(B, 0, Some(100))))]
  {
    hide AfterCommit;
    var c0, c1, c2 := MOVED_NODE[0], MOVED_NODE[1], MOVED_NODE[2];
    assert MOVED_NODE == [] + [c0] + [c1] + [c2];
    RunNext([], c0);
    RunNext([] + [c0], c1);
    RunNext([] + [c0] + [c1], c2);
    Opened(LINK, Node(A, 0, None));
    assert Run(EMPTY_STORE, []) == EMPTY_STORE;
    hide Run;
    var s0 := AfterCommit(EMPTY_STORE, c0);
    var moved := map[A := Node(A, 100, None)];
    OneAtATime(LINK, moved, map[]);
    assert WriteRecord(SpaceOf(s0, SCOPE).records, RecordMutation(Node(A, 100, None))) == moved;
    hide SchemaHolds;
    Single(s0, LINK, RecordMutation(Node(A, 100, None)));
    var s1 := AfterCommit(s0, c1);
    OneAtATime(LINK, moved[B := Node(B, 0, Some(100))], map[]);
    Single(s1, LINK, RecordMutation(Node(B, 0, Some(100))));
  }

  /** The snapshot at instant 50 shows two nodes with one value of the unique property. */
  lemma ReplacedRecordEscapes()
    ensures var store := Run(EMPTY_STORE, MOVED_NODE);
            var shown := SnapshotOf(store.log, SCOPE, 50, store.cursor).graph.records;
            && SpaceOf(store, SCOPE).schema == Some(RegistryFor(LINK))
            && NAME in RegistryFor(LINK).records[NODE].unique && !UniqueOk(shown, NODE, NAME)
  {
    hide Run;
    MovedNodeRuns();
    var log, opening := Run(EMPTY_STORE, MOVED_NODE).log, Changes(Opening(LINK, Node(A, 0, None)), 0);
    var c2, c3 := Change(3, SCOPE, 0, RecordMutation(Node(A, 100, None))),
        Change(4, SCOPE, 0, RecordMutation(Node(B, 0, Some(100))));
    ReplayOpening(LINK, Node(A, 0, None), 50, 4);
    ReplayNext(opening, c2, SCOPE, 50, 4);
    ReplayNext(opening + [c2], c3, SCOPE, 50, 4);
    hide Replay;
    var shown := SnapshotOf(log, SCOPE, 50, 4).graph.records;
    assert A in shown && B in shown && A != B;
    assert SameProperty(shown[A], shown[B], NODE, NAME) && BothAt(shown[A], shown[B], 50);
  }

  // ---- Events ----

  const PINGED: Mutation := EventMutation(Event(PING, Some(A), map[]))
  const NAMING: Mutation := EventMutation(Event(NODE, None, NAMED))

  /** The registry and a node, then the same event twice. */
  function Twice(kind: Bytes, event: Mutation): seq<Commit> {
    [Opening(kind, NODE_A), CommitAt(2, [event]), CommitAt(3, [event])]
  }

  lemma TwiceRuns(kind: Bytes, event: Mutation)
    requires event == PINGED || event == NAMING
    ensures var store := Run(EMPTY_STORE, Twice(kind, event));
            && store.cursor == 4 && SpaceOf(store, SCOPE).schema == Some(RegistryFor(kind))
            && store.log ==
               Changes(Opening(kind, NODE_A), 0) + [Change(3, SCOPE, 0, event)] + [Change(4, SCOPE, 0, event)]
  {
    hide AfterCommit;
    var c0, c1, c2 := Twice(kind, event)[0], Twice(kind, event)[1], Twice(kind, event)[2];
    assert Twice(kind, event) == [] + [c0] + [c1] + [c2];
    RunNext([], c0);
    RunNext([] + [c0], c1);
    RunNext([] + [c0] + [c1], c2);
    Opened(kind, NODE_A);
    assert Run(EMPTY_STORE, []) == EMPTY_STORE;
    hide Run;
    OneAtATime(kind, map[A := NODE_A], map[]);
    hide SchemaHolds;
    Single(AfterCommit(EMPTY_STORE, c0), kind, event);
    Single(AfterCommit(AfterCommit(EMPTY_STORE, c0), c1), kind, event);
  }

  /** Two events about one node are shown under a limit of one outgoing `emitted` relation. */
  lemma EmittedEscapes()
    ensures var store := Run(EMPTY_STORE, Twice(EMITTED, PINGED));
            var shown := SnapshotOf(store.log, SCOPE, 0, store.cursor).graph.relations;
            && SpaceOf(store, SCOPE).schema == Some(RegistryFor(EMITTED))
            && |Shown(store.log, SCOPE, EMITTED, ByFrom, (Some(A), None), 0, store.cursor)| >= 2
            && !RelationSchemaHolds(RegistryFor(EMITTED).relations[EMITTED], EMITTED, shown)
  {
    hide Run;
    TwiceRuns(EMITTED, PINGED);
    var log := Run(EMPTY_STORE, Twice(EMITTED, PINGED)).log;
    TwoStand(log);
    hide Live;
    hide SnapshotOf;
    var schema := RegistryFor(EMITTED).relations[EMITTED];
    assert schema.maxOutgoing == Some(1);
  }

  lemma TwoStand(log: seq<Change>)
    requires log == Changes(Opening(EMITTED, NODE_A), 0) + [Change(3, SCOPE, 0, PINGED)] + [Change(4, SCOPE, 0, PINGED)]
    ensures |Shown(log, SCOPE, EMITTED, ByFrom, (Some(A), None), 0, 4)| >= 2
  {
    assert log[2] == Change(3, SCOPE, 0, PINGED) && log[3] == Change(4, SCOPE, 0, PINGED);
    assert Numbered(log);
    hide Shown;
    ShownCount(log, SCOPE, EMITTED, ByFrom, (Some(A), None), 0, 4);
    var events := Events(log, SCOPE, ByFrom, (Some(A), None), 0);
    assert Stands(log, SCOPE, 0, 2) && Stands(log, SCOPE, 0, 3) && 2 in events && 3 in events;
    SubsetSize({2, 3}, events);
    assert |{2, 3}| == 2;
  }

  /** Two events of a kind that is also a record kind are shown as records with one value of its unique property. */
  lemma EventRecordsEscape()
    ensures var store := Run(EMPTY_STORE, Twice(LINK, NAMING));
            var shown := SnapshotOf(store.log, SCOPE, 0, store.cursor).graph.records;
            && SpaceOf(store, SCOPE).schema == Some(RegistryFor(LINK))
            && NAME in RegistryFor(LINK).records[NODE].unique && !UniqueOk(shown, NODE, NAME)
  {
    hide Run;
    TwiceRuns(LINK, NAMING);
    TwoNamed(Run(EMPTY_STORE, Twice(LINK, NAMING)).log);
  }

  lemma TwoNamed(log: seq<Change>)
    requires log == Changes(Opening(LINK, NODE_A), 0) + [Change(3, SCOPE, 0, NAMING)] + [Change(4, SCOPE, 0, NAMING)]
    ensures !UniqueOk(SnapshotOf(log, SCOPE, 0, 4).graph.records, NODE, NAME)
  {
    var opening := Changes(Opening(LINK, NODE_A), 0);
    ReplayOpening(LINK, NODE_A, 0, 4);
    ReplayNext(opening, Change(3, SCOPE, 0, NAMING), SCOPE, 0, 4);
    ReplayNext(opening + [Change(3, SCOPE, 0, NAMING)], Change(4, SCOPE, 0, NAMING), SCOPE, 0, 4);
    hide Replay;
    var shown := SnapshotOf(log, SCOPE, 0, 4).graph.records;
    var first, second := Ref(NODE, CursorId(3)), Ref(NODE, CursorId(4));
    if first == second { CursorIdInjective(3, 4); }
    hide CursorId;
    assert first in shown && second in shown;
    assert SameProperty(shown[first], shown[second], NODE, NAME) && BothAt(shown[first], shown[second], 0);
  }
}
