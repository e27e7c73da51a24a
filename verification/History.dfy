/**
 What a graph snapshot shows at an instant, against the tables the schema is checked on
 (crates/vyrm-core/src/runtime.rs, schema.rs, crates/vyrm-store/src/native.rs). The tables hold the latest version of
 every identity; a snapshot holds the last version that starts at or before the instant, and what events write.
 */
module History {
  import opened Common
  import opened Keys
  import opened RuntimeModel
  import opened Graph
  import opened Schema

  // ---- The tables are the latest versions of the log ----

  function WriteRecord(records: Records, m: Mutation): Records {
    if m.RecordMutation? then records[m.record.reference := m.record] else records
  }

  function WriteRelation(relations: Relations, m: Mutation): Relations {
    if m.RelationMutation? then relations[m.relation.reference := m.relation] else relations
  }

  function LatestRecords(log: seq<Change>, scope: Bytes): Records {
    if log == [] then map[]
    else
      var before, c := LatestRecords(log[..|log| - 1], scope), log[|log| - 1];
      if c.scope == scope then WriteRecord(before, c.mutation) else before
  }

  function LatestRelations(log: seq<Change>, scope: Bytes): Relations {
    if log == [] then map[]
    else
      var before, c := LatestRelations(log[..|log| - 1], scope), log[|log| - 1];
      if c.scope == scope then WriteRelation(before, c.mutation) else before
  }

  lemma LatestWrites(log: seq<Change>, c: Change, scope: Bytes)
    ensures LatestRecords(log + [c], scope) ==
            if c.scope == scope then WriteRecord(LatestRecords(log, scope), c.mutation) else LatestRecords(log, scope)
    ensures LatestRelations(log + [c], scope) ==
            if c.scope == scope then WriteRelation(LatestRelations(log, scope), c.mutation)
              else LatestRelations(log, scope)
  {
    assert (log + [c])[..|log|] == log;
  }

  lemma MergeWrites(records: Records, relations: Relations, done: seq<Mutation>, m: Mutation)
    ensures MergeRecords(records, done + [m]) == WriteRecord(MergeRecords(records, done), m)
    ensures MergeRelations(relations, done + [m]) == WriteRelation(MergeRelations(relations, done), m)
  {
    assert (done + [m])[..|done|] == done;
  }

  lemma {:induction false} LatestAfter(log: seq<Change>, commit: Commit, cursor: nat, n: nat, scope: Bytes)
    requires n <= |commit.mutations|
    ensures var longer, done := log + Changes(commit, cursor)[..n], if scope == commit.scope then commit.mutations[..n]
            else [];
            && LatestRecords(longer, scope) == MergeRecords(LatestRecords(log, scope), done)
            && LatestRelations(longer, scope) == MergeRelations(LatestRelations(log, scope), done)
  {
    hide LatestRecords;
    hide LatestRelations;
    hide MergeRecords;
    hide MergeRelations;
    hide WriteRecord;
    hide WriteRelation;
    var changes := Changes(commit, cursor);
    if n == 0 {
      assert log + changes[..0] == log && commit.mutations[..0] == [];
      MergeNone(LatestRecords(log, scope), LatestRelations(log, scope));
    } else {
      LatestAfter(log, commit, cursor, n - 1, scope);
      var before, done := log + changes[..n - 1], if scope == commit.scope then commit.mutations[..n - 1] else [];
      LatestWrites(before, changes[n - 1], scope);
      MergeWrites(LatestRecords(log, scope), LatestRelations(log, scope), done, commit.mutations[n - 1]);
      assert log + changes[..n] == before + [changes[n - 1]];
      assert commit.mutations[..n] == commit.mutations[..n - 1] + [commit.mutations[n - 1]];
    }
  }

  lemma MergeNone(records: Records, relations: Relations)
    ensures MergeRecords(records, []) == records && MergeRelations(relations, []) == relations
  {
  }

  /** The log is numbered from one without gaps, and every scope's tables are the latest versions in it. */
  ghost predicate LogOk(store: Store) {
    && |store.log| == store.cursor
    && (forall i :: 0 <= i < |store.log| ==> store.log[i].cursor == i + 1)
    && (forall scope :: SpaceOf(store, scope).records == LatestRecords(store.log, scope)
                     && SpaceOf(store, scope).relations == LatestRelations(store.log, scope))
  }

  lemma CommitKeepsLog(store: Store, commit: Commit)
    requires LogOk(store)
    ensures LogOk(AfterCommit(store, commit))
  {
    hide Accepts;
    if Accepts(store, commit) {
      var n := |commit.mutations|;
      assert Changes(commit, store.cursor)[..n] == Changes(commit, store.cursor) &&
             commit.mutations[..n] == commit.mutations;
      forall scope
        ensures var after := AfterCommit(store, commit);
                && SpaceOf(after, scope).records == LatestRecords(after.log, scope)
                && SpaceOf(after, scope).relations == LatestRelations(after.log, scope)
      {
        LatestAfter(store.log, commit, store.cursor, n, scope);
      }
    }
  }

  lemma {:induction false} RunKeepsLog(commits: seq<Commit>)
    ensures LogOk(Run(EMPTY_STORE, commits))
  {
    hide LogOk;
    if commits == [] {
      assert LogOk(EMPTY_STORE) by { EmptyLogOk(); }
    } else {
      RunKeepsLog(commits[..|commits| - 1]);
      CommitKeepsLog(Run(EMPTY_STORE, commits[..|commits| - 1]), commits[|commits| - 1]);
    }
  }

  lemma EmptyLogOk()
    ensures LogOk(EMPTY_STORE)
  {
  }

  // ---- The last write of an identity ----

  ghost predicate EventAt(log: seq<Change>, scope: Bytes, i: nat) {
    i < |log| && log[i].scope == scope && log[i].mutation.EventMutation?
  }

  ghost predicate EmitsAt(log: seq<Change>, scope: Bytes, i: nat) {
    EventAt(log, scope, i) && log[i].mutation.event.subject.Some?
  }

  /** The record of an event. */
  function RecordOf(c: Change): Record
    requires c.mutation.EventMutation?
  {
    Record(EventRef(c.mutation.event, c.cursor), c.at, None, c.mutation.event.properties)
  }

  /** The relation from its subject to an event. */
  function EmittedBy(c: Change): Relation
    requires c.mutation.EventMutation? && c.mutation.event.subject.Some?
  {
    var event := c.mutation.event;
    Relation(Ref(EMITTED, CursorId(c.cursor)), event.subject.value, EventRef(event, c.cursor), c.at, None, map[])
  }

  /** The change states a version of record `r` that has started at `t`. */
  predicate StatesRecord(c: Change, scope: Bytes, r: Ref, t: Millis) {
    && c.scope == scope && c.mutation.RecordMutation?
    && c.mutation.record.reference == r && c.mutation.record.validFrom <= t
  }

  predicate StatesRelation(c: Change, scope: Bytes, r: Ref, t: Millis) {
    && c.scope == scope && c.mutation.RelationMutation?
    && c.mutation.relation.reference == r && c.mutation.relation.validFrom <= t
  }

  /** The last version stated for `r` among those that start at or before `t`. */
  function RecordInEffect(log: seq<Change>, scope: Bytes, r: Ref, t: Millis): Option<Record> {
    if log == [] then None
    else if StatesRecord(log[|log| - 1], scope, r, t) then Some(log[|log| - 1].mutation.record)
    else RecordInEffect(log[..|log| - 1], scope, r, t)
  }

  function RelationInEffect(log: seq<Change>, scope: Bytes, r: Ref, t: Millis): Option<Relation> {
    if log == [] then None
    else if StatesRelation(log[|log| - 1], scope, r, t) then Some(log[|log| - 1].mutation.relation)
    else RelationInEffect(log[..|log| - 1], scope, r, t)
  }

  /** The event that wrote `r` last, when the last write of `r` is an event's and not a stated version. */
  function RecordTaker(log: seq<Change>, scope: Bytes, r: Ref, t: Millis): Option<nat> {
    if log == [] then None
    else
      var c := log[|log| - 1];
      if StatesRecord(c, scope, r, t) then None
      else if c.scope == scope && c.mutation.EventMutation? && RecordOf(c).reference == r then Some(|log| - 1)
      else RecordTaker(log[..|log| - 1], scope, r, t)
  }

  function RelationTaker(log: seq<Change>, scope: Bytes, r: Ref, t: Millis): Option<nat> {
    if log == [] then None
    else
      var c := log[|log| - 1];
      if StatesRelation(c, scope, r, t) then None
      else if && c.scope == scope && c.mutation.EventMutation? && c.mutation.event.subject.Some?
              && EmittedBy(c).reference == r then Some(|log| - 1)
      else RelationTaker(log[..|log| - 1], scope, r, t)
  }

  function Find<V>(m: map<Ref, V>, r: Ref): Option<V> {
    if r in m then Some(m[r]) else None
  }

  ghost predicate Known(log: seq<Change>, knownAt: nat) {
    forall i :: 0 <= i < |log| ==> log[i].cursor <= knownAt
  }

  /** Replaying finds what the last write was: an event's record or the version in effect. */
  lemma {:induction false} ReplayFindsRecord(log: seq<Change>, scope: Bytes, r: Ref, t: Millis, knownAt: nat)
    requires Known(log, knownAt)
    ensures var taker := RecordTaker(log, scope, r, t);
            && (taker.Some? ==> EventAt(log, scope, taker.value) && RecordOf(log[taker.value]).reference == r)
            && Find(Replay(log, scope, t, knownAt).records, r) ==
               if taker.Some? then Some(RecordOf(log[taker.value])) else RecordInEffect(log, scope, r, t)
  {
    hide CursorId;
    if log != [] { ReplayFindsRecord(log[..|log| - 1], scope, r, t, knownAt); }
  }

  lemma {:induction false} ReplayFindsRelation(log: seq<Change>, scope: Bytes, r: Ref, t: Millis, knownAt: nat)
    requires Known(log, knownAt)
    ensures var taker := RelationTaker(log, scope, r, t);
            && (taker.Some? ==> EmitsAt(log, scope, taker.value) && EmittedBy(log[taker.value]).reference == r)
            && Find(Replay(log, scope, t, knownAt).relations, r) ==
               if taker.Some? then Some(EmittedBy(log[taker.value])) else RelationInEffect(log, scope, r, t)
  {
    hide CursorId;
    if log != [] { ReplayFindsRelation(log[..|log| - 1], scope, r, t, knownAt); }
  }

  /** The latest version is the one in effect from its start on. */
  lemma {:induction false} LatestInEffect(log: seq<Change>, scope: Bytes, r: Ref, t: Millis)
    ensures var table := LatestRecords(log, scope);
            && (r !in table ==> RecordInEffect(log, scope, r, t).None?)
            && (r in table && table[r].validFrom <= t ==> RecordInEffect(log, scope, r, t) == Some(table[r]))
    ensures var table := LatestRelations(log, scope);
            && (r !in table ==> RelationInEffect(log, scope, r, t).None?)
            && (r in table && table[r].validFrom <= t ==> RelationInEffect(log, scope, r, t) == Some(table[r]))
  {
    if log != [] { LatestInEffect(log[..|log| - 1], scope, r, t); }
  }

  // ---- When a snapshot shows the tables ----

  /** The part of a graph whose last writes are stated versions. */
  function Stated(log: seq<Change>, scope: Bytes, t: Millis, g: Maps): Maps {
    Maps(map r | r in g.records && RecordTaker(log, scope, r, t).None? :: g.records[r],
         map r | r in g.relations && RelationTaker(log, scope, r, t).None? :: g.relations[r])
  }

  function Tables(log: seq<Change>, scope: Bytes): Maps {
    Maps(LatestRecords(log, scope), LatestRelations(log, scope))
  }

  /** The latest version of `r` starts after `t`, so that the snapshot at `t` shows an earlier one, if any. */
  predicate RecordReplaced(log: seq<Change>, scope: Bytes, r: Ref, t: Millis) {
    var table := LatestRecords(log, scope);
    r in table && t < table[r].validFrom
  }

  predicate RelationReplaced(log: seq<Change>, scope: Bytes, r: Ref, t: Millis) {
    var table := LatestRelations(log, scope);
    r in table && t < table[r].validFrom
  }

  /** No identity whose latest version has not begun at `t` has an earlier version in effect that is valid at `t`. */
  ghost predicate NoReplacedRecord(log: seq<Change>, scope: Bytes, t: Millis) {
    forall r :: RecordReplaced(log, scope, r, t) && RecordTaker(log, scope, r, t).None? ==>
      var v := RecordInEffect(log, scope, r, t);
      !(v.Some? && ValidAtWindow(v.value.validFrom, v.value.validTo, t))
  }

  ghost predicate NoReplacedRelation(log: seq<Change>, scope: Bytes, t: Millis) {
    forall r :: RelationReplaced(log, scope, r, t) && RelationTaker(log, scope, r, t).None? ==>
      var v := RelationInEffect(log, scope, r, t);
      !(v.Some? && ValidAtWindow(v.value.validFrom, v.value.validTo, t))
  }

  /**
   A snapshot states exactly the records of the table valid at its instant, if and only if none was replaced by a later
   start.
   */
  lemma RecordsAreTableIff(log: seq<Change>, scope: Bytes, t: Millis, knownAt: nat)
    requires Known(log, knownAt)
    ensures Stated(log, scope, t, SnapshotOf(log, scope, t, knownAt).graph).records ==
            Stated(log, scope, t, ValidPart(Tables(log, scope), t)).records <==>
            NoReplacedRecord(log, scope, t)
  {
    hide Replay;
    hide RecordTaker;
    hide RelationTaker;
    hide LatestRecords;
    hide RecordInEffect;
    var shown := Stated(log, scope, t, SnapshotOf(log, scope, t, knownAt).graph).records;
    var current := Stated(log, scope, t, ValidPart(Tables(log, scope), t)).records;
    forall r
      ensures Find(shown, r) == Find(current, r) <==> !(RecordReplaced(log, scope, r, t) && r in shown)
      ensures RecordTaker(log, scope, r, t).None? ==>
                (r in shown <==>
                 var v := RecordInEffect(log, scope, r, t);
                     v.Some? && ValidAtWindow(v.value.validFrom, v.value.validTo, t))
      ensures r in shown ==> RecordTaker(log, scope, r, t).None?
    {
      ReplayFindsRecord(log, scope, r, t, knownAt);
      LatestInEffect(log, scope, r, t);
    }
    SameFinds(shown, current);
  }

  lemma RelationsAreTableIff(log: seq<Change>, scope: Bytes, t: Millis, knownAt: nat)
    requires Known(log, knownAt)
    ensures Stated(log, scope, t, SnapshotOf(log, scope, t, knownAt).graph).relations ==
            Stated(log, scope, t, ValidPart(Tables(log, scope), t)).relations <==>
            NoReplacedRelation(log, scope, t)
  {
    hide Replay;
    hide RecordTaker;
    hide RelationTaker;
    hide LatestRelations;
    hide RelationInEffect;
    var shown := Stated(log, scope, t, SnapshotOf(log, scope, t, knownAt).graph).relations;
    var current := Stated(log, scope, t, ValidPart(Tables(log, scope), t)).relations;
    forall r
      ensures Find(shown, r) == Find(current, r) <==> !(RelationReplaced(log, scope, r, t) && r in shown)
      ensures RelationTaker(log, scope, r, t).None? ==>
                (r in shown <==>
                 var v := RelationInEffect(log, scope, r, t);
                     v.Some? && ValidAtWindow(v.value.validFrom, v.value.validTo, t))
      ensures r in shown ==> RelationTaker(log, scope, r, t).None?
    {
      ReplayFindsRelation(log, scope, r, t, knownAt);
      LatestInEffect(log, scope, r, t);
    }
    SameFinds(shown, current);
  }

  lemma SameFinds<V>(a: map<Ref, V>, b: map<Ref, V>)
    ensures a == b <==> forall r :: Find(a, r) == Find(b, r)
  {
    if forall r :: Find(a, r) == Find(b, r) {
      forall r ensures (r in a <==> r in b) && (r in a ==> a[r] == b[r]) {
        assert Find(a, r) == Find(b, r);
      }
    }
  }

  // ---- Constraints carry over to a part of a table ----

  ghost predicate Part<V(!new)>(a: map<Ref, V>, b: map<Ref, V>) {
    forall r :: r in a ==> r in b && a[r] == b[r]
  }

  lemma LimitedPart(part: Relations, whole: Relations, kind: Bytes, g: Grouping, limit: nat)
    requires Part(part, whole) && Limited(whole, kind, g, limit)
    ensures Limited(part, kind, g, limit)
  {
    forall key, t ensures |Live(part, part.Keys, kind, g, key, t)| <= limit {
      var few, many := Live(part, part.Keys, kind, g, key, t), Live(whole, whole.Keys, kind, g, key, t);
      assert |many| <= limit;
      SubsetSize(few, many);
    }
  }

  lemma SchemaHoldsPart(reg: Registry, records: Records, relations: Relations, allRecords: Records,
                        allRelations: Relations)
    requires Part(records, allRecords) && Part(relations, allRelations) && SchemaHolds(reg, allRecords, allRelations)
    ensures SchemaHolds(reg, records, relations)
  {
    hide Limited;
    forall kind | kind in reg.records ensures RecordSchemaHolds(reg.records[kind], kind, records) {
      assert RecordSchemaHolds(reg.records[kind], kind, allRecords);
    }
    forall kind | kind in reg.relations ensures RelationSchemaHolds(reg.relations[kind], kind, relations) {
      var schema := reg.relations[kind];
      assert RelationSchemaHolds(schema, kind, allRelations);
      if schema.uniquePair { LimitedPart(relations, allRelations, kind, ByPair, 1); }
      if schema.maxOutgoing.Some? { LimitedPart(relations, allRelations, kind, ByFrom, schema.maxOutgoing.value); }
      if schema.maxIncoming.Some? { LimitedPart(relations, allRelations, kind, ByTo, schema.maxIncoming.value); }
    }
  }

  /**
   After any run of commits a snapshot at the head states exactly the valid part of the tables if and only if no version
   was replaced by one that starts after the instant; then what it states satisfies every constraint of the schema.
   */
  lemma SnapshotKeepsSchema(commits: seq<Commit>, scope: Bytes, t: Millis)
    ensures var store := Run(EMPTY_STORE, commits);
            var shown := Stated(store.log, scope, t, SnapshotOf(store.log, scope, t, store.cursor).graph);
            var space := SpaceOf(store, scope);
            var replaced := !(NoReplacedRecord(store.log, scope, t) && NoReplacedRelation(store.log, scope, t));
            && (shown == Stated(store.log, scope, t, ValidPart(Maps(space.records, space.relations), t)) <==> !replaced)
            && (!replaced && space.schema.Some? ==> SchemaHolds(space.schema.value, shown.records, shown.relations))
  {
    hide Run;
    hide SnapshotOf;
    hide SchemaHolds;
    hide RecordTaker;
    hide RelationTaker;
    hide NoReplacedRecord;
    hide NoReplacedRelation;
    var store, space := Run(EMPTY_STORE, commits), SpaceOf(Run(EMPTY_STORE, commits), scope);
    RunKeepsSchema(commits);
    RunKeepsLog(commits);
    assert SpaceOk(space);
    assert Tables(store.log, scope) == Maps(space.records, space.relations);
    RecordsAreTableIff(store.log, scope, t, store.cursor);
    RelationsAreTableIff(store.log, scope, t, store.cursor);
    var current := Stated(store.log, scope, t, ValidPart(Maps(space.records, space.relations), t));
    if space.schema.Some? {
      SchemaHoldsPart(space.schema.value, current.records, current.relations, space.records, space.relations);
    }
  }

  // ---- When a unique property is unique in a snapshot ----

  lemma {:induction false} RecordKeys(log: seq<Change>, scope: Bytes, t: Millis, knownAt: nat)
    ensures forall r :: r in Replay(log, scope, t, knownAt).records ==>
            Replay(log, scope, t, knownAt).records[r].reference == r
  {
    if log != [] { RecordKeys(log[..|log| - 1], scope, t, knownAt); }
  }

  lemma {:induction false} RelationKeys(log: seq<Change>, scope: Bytes, t: Millis, knownAt: nat)
    ensures forall r :: r in Replay(log, scope, t, knownAt).relations ==>
            Replay(log, scope, t, knownAt).relations[r].reference == r
  {
    if log != [] { RelationKeys(log[..|log| - 1], scope, t, knownAt); }
  }

  /** The validator never compared what a snapshot shows of `r`: an event wrote it, or a later start replaced it. */
  predicate Unchecked(log: seq<Change>, scope: Bytes, r: Ref, t: Millis) {
    RecordTaker(log, scope, r, t).Some? || RecordReplaced(log, scope, r, t)
  }

  /** No two records share a value of the property, at least one of them unchecked. */
  ghost predicate UncheckedUnique(
    log: seq<Change>, scope: Bytes, t: Millis, records: Records, kind: Bytes, property: Bytes)
  {
    forall r, q ::
      r in records && q in records && r != q && (Unchecked(log, scope, r, t) || Unchecked(log, scope, q, t)) ==>
      !SameProperty(records[r], records[q], kind, property)
  }

  /** What a snapshot shows of a checked record is the table's version. */
  lemma CheckedIsLatest(log: seq<Change>, scope: Bytes, r: Ref, t: Millis, knownAt: nat)
    requires Known(log, knownAt) && !Unchecked(log, scope, r, t)
    requires r in SnapshotOf(log, scope, t, knownAt).graph.records
    ensures r in LatestRecords(log, scope)
    ensures SnapshotOf(log, scope, t, knownAt).graph.records[r] == LatestRecords(log, scope)[r]
  {
    ReplayFindsRecord(log, scope, r, t, knownAt);
    LatestInEffect(log, scope, r, t);
    hide Replay;
    hide RecordTaker;
    hide RecordInEffect;
    hide LatestRecords;
  }

  lemma ShownAt(log: seq<Change>, scope: Bytes, r: Ref, t: Millis, knownAt: nat)
    requires r in SnapshotOf(log, scope, t, knownAt).graph.records
    ensures var v := SnapshotOf(log, scope, t, knownAt).graph.records[r]; ValidAtWindow(v.validFrom, v.validTo, t)
  {
    hide Replay;
  }

  /**
   After any run and before the last instant, a property the schema declares unique is unique in a snapshot exactly when
   no unchecked record of the snapshot shares its value with another.
   */
  lemma SnapshotUniqueIff(commits: seq<Commit>, scope: Bytes, t: Millis, kind: Bytes, property: Bytes)
    requires t < U64_MAX
    requires var schema := SpaceOf(Run(EMPTY_STORE, commits), scope).schema;
             schema.Some? && kind in schema.value.records && property in schema.value.records[kind].unique
    ensures var store := Run(EMPTY_STORE, commits);
            var shown := SnapshotOf(store.log, scope, t, store.cursor).graph.records;
            UniqueOk(shown, kind, property) <==> UncheckedUnique(store.log, scope, t, shown, kind, property)
  {
    hide Run;
    hide SnapshotOf;
    hide Unchecked;
    hide LatestRecords;
    var store := Run(EMPTY_STORE, commits);
    var shown, table := SnapshotOf(store.log, scope, t, store.cursor).graph.records, SpaceOf(store, scope).records;
    RunKeepsSchema(commits);
    RunKeepsLog(commits);
    TableUnique(SpaceOf(store, scope), kind, property);
    hide SpaceOk;
    forall r, q | r in shown && q in shown && r != q
      ensures BothAt(shown[r], shown[q], t)
      ensures SameProperty(shown[r], shown[q], kind, property) ==>
                Unchecked(store.log, scope, r, t) || Unchecked(store.log, scope, q, t)
    {
      ShownAt(store.log, scope, r, t, store.cursor);
      ShownAt(store.log, scope, q, t, store.cursor);
      if !Unchecked(store.log, scope, r, t) && !Unchecked(store.log, scope, q, t) {
        CheckedIsLatest(store.log, scope, r, t, store.cursor);
        CheckedIsLatest(store.log, scope, q, t, store.cursor);
        assert !(SameProperty(table[r], table[q], kind, property) && BothAt(table[r], table[q], t));
      }
    }
    hide SameProperty;
  }

  lemma TableUnique(space: Space, kind: Bytes, property: Bytes)
    requires SpaceOk(space) && space.schema.Some?
    requires kind in space.schema.value.records && property in space.schema.value.records[kind].unique
    ensures UniqueOk(space.records, kind, property)
  {
    hide UniqueOk;
    assert RecordSchemaHolds(space.schema.value.records[kind], kind, space.records);
  }

  /** Kinds of which no event was recorded have only stated records, so uniqueness speaks of the whole snapshot. */
  lemma KindsWithoutEvents(log: seq<Change>, scope: Bytes, t: Millis, knownAt: nat, kind: Bytes, property: Bytes)
    requires Known(log, knownAt)
    requires forall i :: 0 <= i < |log| && EventAt(log, scope, i) ==> log[i].mutation.event.kind != kind
    ensures var shown := SnapshotOf(log, scope, t, knownAt).graph;
            UniqueOk(shown.records, kind, property) <==> UniqueOk(Stated(log, scope, t, shown).records, kind, property)
  {
    var shown := SnapshotOf(log, scope, t, knownAt).graph.records;
    var stated := Stated(log, scope, t, SnapshotOf(log, scope, t, knownAt).graph).records;
    RecordKeys(log, scope, t, knownAt);
    forall r | r in shown && shown[r].reference.kind == kind ensures r in stated && stated[r] == shown[r] {
      ReplayFindsRecord(log, scope, r, t, knownAt);
    }
    hide Stated;
    hide BothAt;
    assert Part(stated, shown) by { StatedPart(log, scope, t, knownAt); }
    hide SnapshotOf;
    forall r, q | r in shown && q in shown && SameProperty(shown[r], shown[q], kind, property)
      ensures r in stated && q in stated && stated[r] == shown[r] && stated[q] == shown[q]
    {
    }
  }

  lemma StatedPart(log: seq<Change>, scope: Bytes, t: Millis, knownAt: nat)
    ensures var shown := SnapshotOf(log, scope, t, knownAt).graph;
            Part(Stated(log, scope, t, shown).records, shown.records)
  {
    hide SnapshotOf;
    hide RecordTaker;
    hide RelationTaker;
  }

  // ---- How many relations a snapshot shows ----

  lemma {:induction false} DecimalInjective(m: nat, n: nat)
    requires DecimalText(m) == DecimalText(n)
    ensures m == n
  {
    if m >= 10 && n >= 10 {
      AppendCancel(DecimalText(m / 10), [48 + m % 10], DecimalText(n / 10), [48 + n % 10]);
      DecimalInjective(m / 10, n / 10);
    } else {
      DecimalLength(m / 10);
      DecimalLength(n / 10);
      assert |DecimalText(m)| == |DecimalText(n)|;
      assert DecimalText(m)[0] == DecimalText(n)[0];
    }
  }

  lemma DecimalLength(n: nat)
    ensures |DecimalText(n)| >= 1
  {
  }

  lemma CursorIdInjective(m: nat, n: nat)
    requires CursorId(m) == CursorId(n)
    ensures m == n
  {
    assert CursorId(m)[7..] == DecimalText(m) && CursorId(n)[7..] == DecimalText(n);
    DecimalInjective(m, n);
  }

  ghost predicate Numbered(log: seq<Change>) {
    forall i :: 0 <= i < |log| ==> log[i].cursor == i + 1
  }

  /** The event `i` still stands at `t`: no later change states a relation under its identity. */
  ghost predicate Stands(log: seq<Change>, scope: Bytes, t: Millis, i: nat) {
    && EmitsAt(log, scope, i)
    && forall j :: i < j < |log| ==> !StatesRelation(log[j], scope, EmittedBy(log[i]).reference, t)
  }

  /** Of an event and a statement under one identity the later one in the log wins. */
  lemma {:induction false} StandingIsTaker(log: seq<Change>, scope: Bytes, t: Millis, i: nat)
    requires Numbered(log) && EmitsAt(log, scope, i)
    ensures Stands(log, scope, t, i) <==> RelationTaker(log, scope, EmittedBy(log[i]).reference, t) == Some(i)
  {
    hide CursorId;
    var n := |log| - 1;
    var front, c, r := log[..n], log[n], EmittedBy(log[i]).reference;
    if i < n {
      StandingIsTaker(front, scope, t, i);
      assert Stands(log, scope, t, i) <==> Stands(front, scope, t, i) && !StatesRelation(c, scope, r, t);
      if EmitsAt(log, scope, n) && EmittedBy(c).reference == r { CursorIdInjective(log[i].cursor, c.cursor); }
    }
  }

  /** The standing events whose relation falls into a group and has begun at `t`. */
  ghost function Events(log: seq<Change>, scope: Bytes, g: Grouping, key: Key, t: Millis): set<nat> {
    set i: nat | i < |log| && Stands(log, scope, t, i) && GroupKey(g, EmittedBy(log[i])) == key && log[i].at <= t
  }

  predicate InGroup(v: Option<Relation>, kind: Bytes, g: Grouping, key: Key, t: Millis) {
    && v.Some? && v.value.reference.kind == kind && GroupKey(g, v.value) == key
    && ValidAtWindow(v.value.validFrom, v.value.validTo, t)
  }

  /** What the table holds of a group at `t`, without the identities that events have taken. */
  ghost function Held(log: seq<Change>, scope: Bytes, kind: Bytes, g: Grouping, key: Key, t: Millis): set<Ref> {
    var table := LatestRelations(log, scope);
    set r | r in table && InGroup(Some(table[r]), kind, g, key, t) && RelationTaker(log, scope, r, t).None?
  }

  /** Events take only identities of kind `emitted`. */
  lemma HeldIsTable(log: seq<Change>, scope: Bytes, kind: Bytes, g: Grouping, key: Key, t: Millis)
    requires kind != EMITTED
    ensures var table := LatestRelations(log, scope);
            Held(log, scope, kind, g, key, t) == Live(table, table.Keys, kind, g, key, t)
  {
    var table := LatestRelations(log, scope);
    LatestKeys(log, scope);
    forall r | r in table && r.kind != EMITTED ensures RelationTaker(log, scope, r, t).None? {
      TakesEmitted(log, scope, r, t);
    }
    hide LatestRelations;
    hide RelationTaker;
  }

  lemma {:induction false} LatestKeys(log: seq<Change>, scope: Bytes)
    ensures forall r :: r in LatestRelations(log, scope) ==> LatestRelations(log, scope)[r].reference == r
  {
    if log != [] { LatestKeys(log[..|log| - 1], scope); }
  }

  lemma {:induction false} TakesEmitted(log: seq<Change>, scope: Bytes, r: Ref, t: Millis)
    requires r.kind != EMITTED
    ensures RelationTaker(log, scope, r, t).None?
  {
    if log != [] { TakesEmitted(log[..|log| - 1], scope, r, t); }
  }

  /** Identities whose version in effect is in the group at `t` although a later start has replaced it. */
  ghost function Replaced(log: seq<Change>, scope: Bytes, kind: Bytes, g: Grouping, key: Key, t: Millis): set<Ref> {
    set r | r in LatestRelations(log, scope) && RelationReplaced(log, scope, r, t)
            && InGroup(RelationInEffect(log, scope, r, t), kind, g, key, t) && RelationTaker(log, scope, r, t).None?
  }

  /** The relations of a kind and group that a snapshot shows at its instant. */
  ghost function Shown(
    log: seq<Change>, scope: Bytes, kind: Bytes, g: Grouping, key: Key, t: Millis, knownAt: nat): set<Ref>
  {
    var shown := SnapshotOf(log, scope, t, knownAt).graph.relations;
    Live(shown, shown.Keys, kind, g, key, t)
  }

  lemma ShownByLastWrite(
    log: seq<Change>, scope: Bytes, kind: Bytes, g: Grouping, key: Key, t: Millis, knownAt: nat, r: Ref)
    requires Known(log, knownAt)
    ensures var taker := RelationTaker(log, scope, r, t);
            && (taker.Some? ==> EmitsAt(log, scope, taker.value) && EmittedBy(log[taker.value]).reference == r)
            && (r in Shown(log, scope, kind, g, key, t, knownAt) <==>
                InGroup(if taker.Some? then Some(EmittedBy(log[taker.value])) else RelationInEffect(log, scope, r, t),
                        kind, g, key, t))
  {
    ReplayFindsRelation(log, scope, r, t, knownAt);
    hide Replay;
    hide RelationTaker;
    hide RelationInEffect;
    hide EmittedBy;
  }

  lemma UntakenIsHeldOrReplaced(log: seq<Change>, scope: Bytes, kind: Bytes, g: Grouping, key: Key, t: Millis, r: Ref)
    requires RelationTaker(log, scope, r, t).None?
    ensures InGroup(RelationInEffect(log, scope, r, t), kind, g, key, t) <==>
            r in Held(log, scope, kind, g, key, t) || r in Replaced(log, scope, kind, g, key, t)
    ensures !(r in Held(log, scope, kind, g, key, t) && r in Replaced(log, scope, kind, g, key, t))
  {
    LatestInEffect(log, scope, r, t);
    hide LatestRelations;
    hide RelationTaker;
    hide RelationInEffect;
  }

  /** `r` is the relation of one of the events. */
  ghost predicate EmittedAmong(log: seq<Change>, scope: Bytes, events: set<nat>, r: Ref) {
    exists i :: i in events && EmitsAt(log, scope, i) && EmittedBy(log[i]).reference == r
  }

  lemma {:induction false} ImageSize(log: seq<Change>, scope: Bytes, events: set<nat>, refs: set<Ref>)
    requires Numbered(log) && forall i :: i in events ==> EmitsAt(log, scope, i)
    requires forall r :: r in refs <==> EmittedAmong(log, scope, events, r)
    ensures |refs| == |events|
    decreases |events|
  {
    hide CursorId;
    if events == {} {
      assert refs == {};
    } else {
      var i :| i in events;
      var r := EmittedBy(log[i]).reference;
      assert EmittedAmong(log, scope, events, r);
      forall q ensures q in refs - {r} <==> EmittedAmong(log, scope, events - {i}, q) {
        assert q in refs <==> EmittedAmong(log, scope, events, q);
        if EmittedAmong(log, scope, events - {i}, q) {
          var j :| j in events - {i} && EmitsAt(log, scope, j) && EmittedBy(log[j]).reference == q;
          if q == r { CursorIdInjective(log[i].cursor, log[j].cursor); }
        }
      }
      ImageSize(log, scope, events - {i}, refs - {r});
    }
  }

  /** The relations of a group that events show. */
  ghost function Taken(log: seq<Change>, scope: Bytes, g: Grouping, key: Key, t: Millis, knownAt: nat): set<Ref> {
    set r | r in Shown(log, scope, EMITTED, g, key, t, knownAt) && RelationTaker(log, scope, r, t).Some?
  }

  lemma TakenByEvents(log: seq<Change>, scope: Bytes, g: Grouping, key: Key, t: Millis, knownAt: nat)
    requires Known(log, knownAt) && Numbered(log)
    ensures |Taken(log, scope, g, key, t, knownAt)| == |Events(log, scope, g, key, t)|
  {
    hide RelationTaker;
    hide Shown;
    hide Stands;
    hide CursorId;
    var taken, events := Taken(log, scope, g, key, t, knownAt), Events(log, scope, g, key, t);
    forall i | i in events ensures EmitsAt(log, scope, i) { StandsEmits(log, scope, t, i); }
    forall r ensures r in taken <==> EmittedAmong(log, scope, events, r) {
      ShownByLastWrite(log, scope, EMITTED, g, key, t, knownAt, r);
      if r in taken {
        var i := RelationTaker(log, scope, r, t).value;
        StandingIsTaker(log, scope, t, i);
        assert i in events;
      }
      if EmittedAmong(log, scope, events, r) {
        var i :| i in events && EmitsAt(log, scope, i) && EmittedBy(log[i]).reference == r;
        StandingIsTaker(log, scope, t, i);
      }
    }
    hide Taken;
    hide Events;
    ImageSize(log, scope, events, taken);
  }

  lemma StandsEmits(log: seq<Change>, scope: Bytes, t: Millis, i: nat)
    requires Stands(log, scope, t, i)
    ensures EmitsAt(log, scope, i)
  {
  }

  /**
   In every group a snapshot shows the relations the table holds there at its instant, those replaced by a later start
   and, for the kind `emitted`, one per standing event about a subject. The validator counts the first alone.
   */
  lemma ShownCount(log: seq<Change>, scope: Bytes, kind: Bytes, g: Grouping, key: Key, t: Millis, knownAt: nat)
    requires Known(log, knownAt) && Numbered(log)
    ensures |Shown(log, scope, kind, g, key, t, knownAt)| ==
            |Held(log, scope, kind, g, key, t)| + |Replaced(log, scope, kind, g, key, t)|
            + if kind == EMITTED then |Events(log, scope, g, key, t)| else 0
  {
    hide Shown;
    hide Held;
    hide Replaced;
    hide RelationTaker;
    hide RelationInEffect;
    var shown := Shown(log, scope, kind, g, key, t, knownAt);
    var held, replaced := Held(log, scope, kind, g, key, t), Replaced(log, scope, kind, g, key, t);
    var taken := if kind == EMITTED then Taken(log, scope, g, key, t, knownAt) else {};
    forall r
      ensures r in shown <==> r in held || r in replaced || r in taken
      ensures !(r in held && r in replaced) && !(r in held && r in taken) && !(r in replaced && r in taken)
    {
      ShownByLastWrite(log, scope, kind, g, key, t, knownAt, r);
      HeldUntaken(log, scope, kind, g, key, t, r);
      if RelationTaker(log, scope, r, t).None? { UntakenIsHeldOrReplaced(log, scope, kind, g, key, t, r); }
    }
    assert shown == held + replaced + taken;
    assert held !! replaced && (held + replaced) !! taken;
    if kind == EMITTED { TakenByEvents(log, scope, g, key, t, knownAt); }
  }

  lemma HeldUntaken(log: seq<Change>, scope: Bytes, kind: Bytes, g: Grouping, key: Key, t: Millis, r: Ref)
    ensures r in Held(log, scope, kind, g, key, t) || r in Replaced(log, scope, kind, g, key, t) ==>
              RelationTaker(log, scope, r, t).None?
  {
    hide RelationTaker;
    hide RelationInEffect;
    hide LatestRelations;
  }

  /**
   After any run, a limit on a kind holds in the snapshot of an instant exactly when in every group the table, the
   versions replaced by a later start and, for `emitted`, the standing events together stay within it.
   */
  lemma SnapshotWithinIff(commits: seq<Commit>, scope: Bytes, kind: Bytes, g: Grouping, limit: nat, t: Millis)
    ensures var store := Run(EMPTY_STORE, commits);
            (forall key :: |Shown(store.log, scope, kind, g, key, t, store.cursor)| <= limit) <==>
            forall key ::
              |Held(store.log, scope, kind, g, key, t)| + |Replaced(store.log, scope, kind, g, key, t)|
              + (if kind == EMITTED then |Events(store.log, scope, g, key, t)| else 0) <= limit
  {
    hide Run;
    hide Events;
    hide Shown;
    hide Held;
    hide Replaced;
    hide LatestRelations;
    hide LatestRecords;
    var store := Run(EMPTY_STORE, commits);
    RunKeepsLog(commits);
    forall key
      ensures |Shown(store.log, scope, kind, g, key, t, store.cursor)| ==
              |Held(store.log, scope, kind, g, key, t)| + |Replaced(store.log, scope, kind, g, key, t)|
              + if kind == EMITTED then |Events(store.log, scope, g, key, t)| else 0
    {
      ShownCount(store.log, scope, kind, g, key, t, store.cursor);
    }
  }

  /** Kinds other than `emitted` have only stated relations, so their limits speak of the whole snapshot. */
  lemma OtherKindsAreStated(
    log: seq<Change>, scope: Bytes, t: Millis, knownAt: nat, kind: Bytes, g: Grouping, limit: nat)
    requires Known(log, knownAt) && kind != EMITTED
    ensures var shown := SnapshotOf(log, scope, t, knownAt).graph;
            Limited(shown.relations, kind, g, limit) <==>
                Limited(Stated(log, scope, t, shown).relations, kind, g, limit)
  {
    var shown := SnapshotOf(log, scope, t, knownAt).graph.relations;
    var stated := Stated(log, scope, t, SnapshotOf(log, scope, t, knownAt).graph).relations;
    RelationKeys(log, scope, t, knownAt);
    forall r | r in shown && shown[r].reference.kind == kind ensures RelationTaker(log, scope, r, t).None? {
      ReplayFindsRelation(log, scope, r, t, knownAt);
    }
    hide Replay;
    hide RelationTaker;
    hide RecordTaker;
    forall key, at ensures Live(shown, shown.Keys, kind, g, key, at) == Live(stated, stated.Keys, kind, g, key, at) {
    }
  }
}
