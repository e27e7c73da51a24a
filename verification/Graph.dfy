/** Graph snapshots, prospective transaction views, traversal and differences (crates/vyrm-core/src/runtime.rs). */
module Graph {
  import opened Common
  import opened Keys
  import opened RuntimeModel

  /** Versions by identity; a snapshot lists the values of these maps in key order. */
  datatype Maps = Maps(records: map<Ref, Record>, relations: map<Ref, Relation>)

  datatype Snapshot = Snapshot(scope: Bytes, validAt: Millis, knownAt: nat, graph: Maps)

  // ---- What one mutation writes ----

  function EventRef(event: Event, cursor: nat): Ref {
    Ref(event.kind, CursorId(cursor))
  }

  /** The record version a mutation writes, as seen at `validAt`. */
  function RecordWrite(m: Mutation, cursor: nat, at: Millis, validAt: Millis): Option<Record> {
    match m
    case RecordMutation(record) => if record.validFrom <= validAt then Some(record) else None
    case EventMutation(event) => Some(Record(EventRef(event, cursor), at, None, event.properties))
    case _ => None
  }

  function RelationWrite(m: Mutation, cursor: nat, at: Millis, validAt: Millis): Option<Relation> {
    match m
    case RelationMutation(relation) => if relation.validFrom <= validAt then Some(relation) else None
    case EventMutation(event) =>
      if event.subject.None? then None
      else Some(Relation(Ref(EMITTED, CursorId(cursor)), event.subject.value, EventRef(event, cursor), at, None, map[]))
    case _ => None
  }

  function ApplyMutation(g: Maps, m: Mutation, cursor: nat, at: Millis, validAt: Millis): Maps {
    var record, relation := RecordWrite(m, cursor, at, validAt), RelationWrite(m, cursor, at, validAt);
    Maps(if record.None? then g.records else g.records[record.value.reference := record.value],
         if relation.None? then g.relations else g.relations[relation.value.reference := relation.value])
  }

  predicate Seen(c: Change, scope: Bytes, knownAt: nat) {
    c.cursor <= knownAt && c.scope == scope
  }

  /** The last visible version of each identity. */
  function Replay(changes: seq<Change>, scope: Bytes, validAt: Millis, knownAt: nat): Maps {
    if changes == [] then Maps(map[], map[])
    else
      var before, c := Replay(changes[..|changes| - 1], scope, validAt, knownAt), changes[|changes| - 1];
      if Seen(c, scope, knownAt) then ApplyMutation(before, c.mutation, c.cursor, c.at, validAt) else before
  }

  /** The versions valid at an instant. */
  function ValidPart(g: Maps, validAt: Millis): Maps {
    Maps(map r | r in g.records && ValidAtWindow(g.records[r].validFrom, g.records[r].validTo, validAt) :: g.records[r],
         map r | r in g.relations && ValidAtWindow(g.relations[r].validFrom, g.relations[r].validTo, validAt) ::
           g.relations[r])
  }

  function SnapshotOf(changes: seq<Change>, scope: Bytes, validAt: Millis, knownAt: nat): Snapshot {
    Snapshot(scope, validAt, knownAt, ValidPart(Replay(changes, scope, validAt, knownAt), validAt))
  }

  /** `from_changes`. */
  method FromChanges(changes: seq<Change>, scope: Bytes, validAt: Millis, knownAt: nat) returns (snapshot: Snapshot)
    ensures snapshot == SnapshotOf(changes, scope, validAt, knownAt)
  {
    var records: map<Ref, Record>, relations: map<Ref, Relation> := map[], map[];
    for i := 0 to |changes|
      invariant Maps(records, relations) == Replay(changes[..i], scope, validAt, knownAt)
    {
      assert changes[..i + 1][..i] == changes[..i];
      var change := changes[i];
      if Seen(change, scope, knownAt) {
        match change.mutation {
          case RecordMutation(record) =>
            if record.validFrom <= validAt { records := records[record.reference := record]; }
          case RelationMutation(relation) =>
            if relation.validFrom <= validAt { relations := relations[relation.reference := relation]; }
          case EventMutation(event) =>
            var eventRef := Ref(event.kind, CursorId(change.cursor));
            records := records[eventRef := Record(eventRef, change.at, None, event.properties)];
            if event.subject.Some? {
              var relationRef := Ref(EMITTED, CursorId(change.cursor));
              var emitted := Relation(relationRef, event.subject.value, eventRef, change.at, None, map[]);
              relations := relations[relationRef := emitted];
            }
          case _ =>
        }
      }
    }
    assert changes[..|changes|] == changes;
    snapshot := Snapshot(scope, validAt, knownAt, ValidPart(Maps(records, relations), validAt));
  }

  /** Changes after the cursor and changes of other scopes do not show. */
  lemma {:induction false} UnseenChanges(log: seq<Change>, more: seq<Change>, scope: Bytes, validAt: Millis,
                                         knownAt: nat)
    requires forall i :: 0 <= i < |more| ==> more[i].cursor > knownAt || more[i].scope != scope
    ensures SnapshotOf(log + more, scope, validAt, knownAt) == SnapshotOf(log, scope, validAt, knownAt)
  {
    hide ValidPart;
    hide ApplyMutation;
    if more == [] {
      assert log + more == log;
    } else {
      var n := |more| - 1;
      assert (log + more)[..|log + more| - 1] == log + more[..n];
      UnseenChanges(log, more[..n], scope, validAt, knownAt);
    }
  }

  // ---- Replay is "the last write wins" ----

  function RecordWriteAt(changes: seq<Change>, i: nat, scope: Bytes, validAt: Millis, knownAt: nat): Option<Record>
    requires i < |changes|
  {
    if Seen(changes[i], scope, knownAt) then RecordWrite(changes[i].mutation, changes[i].cursor, changes[i].at, validAt)
      else None
  }

  /** `i` is the last visible write of identity `r`. */
  ghost predicate LastWrite(changes: seq<Change>, i: nat, r: Ref, scope: Bytes, validAt: Millis, knownAt: nat)
    requires i < |changes|
  {
    && RecordWriteAt(changes, i, scope, validAt, knownAt).Some?
    && RecordWriteAt(changes, i, scope, validAt, knownAt).value.reference == r
    && forall j :: i < j < |changes| && RecordWriteAt(changes, j, scope, validAt, knownAt).Some? ==>
         RecordWriteAt(changes, j, scope, validAt, knownAt).value.reference != r
  }

  /** Replaying gives an identity the record of its last visible write. */
  lemma {:induction false} SnapshotMeaning(changes: seq<Change>, scope: Bytes, validAt: Millis, knownAt: nat, r: Ref,
                                           v: Record)
    ensures var g := Replay(changes, scope, validAt, knownAt);
            (r in g.records && g.records[r] == v) <==>
            exists i :: 0 <= i < |changes| && LastWrite(changes, i, r, scope, validAt, knownAt)
                     && RecordWriteAt(changes, i, scope, validAt, knownAt).value == v
    decreases |changes|
  {
    if changes != [] {
      var n := |changes| - 1;
      var front := changes[..n];
      SnapshotMeaning(front, scope, validAt, knownAt, r, v);
      assert forall i :: 0 <= i < n ==>
             RecordWriteAt(front, i, scope, validAt, knownAt) == RecordWriteAt(changes, i, scope, validAt, knownAt);
      var last := RecordWriteAt(changes, n, scope, validAt, knownAt);
      if last.Some? && last.value.reference == r {
        assert LastWrite(changes, n, r, scope, validAt, knownAt);
        assert forall i :: 0 <= i < n ==> !LastWrite(changes, i, r, scope, validAt, knownAt);
      } else {
        assert !LastWrite(changes, n, r, scope, validAt, knownAt);
        assert forall i :: 0 <= i < n ==>
          (LastWrite(changes, i, r, scope, validAt, knownAt) <==> LastWrite(front, i, r, scope, validAt, knownAt));
      }
    }
  }

  function RelationWriteAt(changes: seq<Change>, i: nat, scope: Bytes, validAt: Millis, knownAt: nat): Option<Relation>
    requires i < |changes|
  {
    if Seen(changes[i], scope, knownAt) then
      RelationWrite(changes[i].mutation, changes[i].cursor, changes[i].at, validAt) else None
  }

  ghost predicate LastRelationWrite(changes: seq<Change>, i: nat, r: Ref, scope: Bytes, validAt: Millis, knownAt: nat)
    requires i < |changes|
  {
    && RelationWriteAt(changes, i, scope, validAt, knownAt).Some?
    && RelationWriteAt(changes, i, scope, validAt, knownAt).value.reference == r
    && forall j :: i < j < |changes| && RelationWriteAt(changes, j, scope, validAt, knownAt).Some? ==>
         RelationWriteAt(changes, j, scope, validAt, knownAt).value.reference != r
  }

  /** The same for relations, stated or emitted by events. */
  lemma {:induction false} SnapshotRelationMeaning(changes: seq<Change>, scope: Bytes, validAt: Millis, knownAt: nat,
                                                   r: Ref, v: Relation)
    ensures var g := Replay(changes, scope, validAt, knownAt);
            (r in g.relations && g.relations[r] == v) <==>
            exists i :: 0 <= i < |changes| && LastRelationWrite(changes, i, r, scope, validAt, knownAt)
                     && RelationWriteAt(changes, i, scope, validAt, knownAt).value == v
    decreases |changes|
  {
    if changes != [] {
      var n := |changes| - 1;
      var front := changes[..n];
      SnapshotRelationMeaning(front, scope, validAt, knownAt, r, v);
      assert forall i :: 0 <= i < n ==>
             RelationWriteAt(front, i, scope, validAt, knownAt) == RelationWriteAt(changes, i, scope, validAt, knownAt);
      var last := RelationWriteAt(changes, n, scope, validAt, knownAt);
      if last.Some? && last.value.reference == r {
        assert LastRelationWrite(changes, n, r, scope, validAt, knownAt);
        assert forall i :: 0 <= i < n ==> !LastRelationWrite(changes, i, r, scope, validAt, knownAt);
      } else {
        assert !LastRelationWrite(changes, n, r, scope, validAt, knownAt);
        assert forall i :: 0 <= i < n ==>
          (LastRelationWrite(changes, i, r, scope, validAt, knownAt) <==>
           LastRelationWrite(front, i, r, scope, validAt, knownAt));
      }
    }
  }

  // ---- Prospective views ----

  /** A commit bound to the scope and cursor it read; `stampValid` is the verdict of the read stamp's own validation. */
  datatype Transaction = Transaction(stampValid: bool, scope: Bytes, cursor: nat, commit: Commit)

  predicate ValidTransaction(t: Transaction) {
    t.stampValid && ValidCommit(t.commit) && t.scope == t.commit.scope && t.cursor == t.commit.expectedCursor
  }

  /** The pending mutations applied over a graph, at the cursors they will get. */
  function ApplyPending(g: Maps, commit: Commit, cursor: nat, count: nat, validAt: Millis): Maps
    requires count <= |commit.mutations|
  {
    if count == 0 then g
    else ApplyMutation(ApplyPending(g, commit, cursor, count - 1, validAt), commit.mutations[count - 1], cursor + count,
                       commit.at, validAt)
  }

  predicate Previewable(t: Transaction, base: Snapshot) {
    ValidTransaction(t) && base.scope == t.scope && base.knownAt == t.cursor
  }

  /** `preview`: the view over the base, refused when the base is not the state the transaction read. */
  method Preview(t: Transaction, base: Snapshot) returns (view: Option<Snapshot>)
    ensures view.Some? <==> Previewable(t, base)
    ensures view.Some? ==>
              view.value == Snapshot(base.scope, base.validAt, t.cursor + |t.commit.mutations|,
                ValidPart(ApplyPending(base.graph, t.commit, t.cursor, |t.commit.mutations|, base.validAt),
                          base.validAt))
  {
    if !ValidTransaction(t) || base.scope != t.scope || base.knownAt != t.cursor { return None; }
    var records: map<Ref, Record>, relations: map<Ref, Relation> := base.graph.records, base.graph.relations;
    for ordinal := 0 to |t.commit.mutations|
      invariant Maps(records, relations) == ApplyPending(base.graph, t.commit, t.cursor, ordinal, base.validAt)
    {
      match t.commit.mutations[ordinal] {
        case RecordMutation(record) =>
          if record.validFrom <= base.validAt { records := records[record.reference := record]; }
        case RelationMutation(relation) =>
          if relation.validFrom <= base.validAt { relations := relations[relation.reference := relation]; }
        case EventMutation(event) =>
          var cursor := t.cursor + ordinal + 1;
          var eventRef := Ref(event.kind, CursorId(cursor));
          records := records[eventRef := Record(eventRef, t.commit.at, None, event.properties)];
          if event.subject.Some? {
            var relationRef := Ref(EMITTED, CursorId(cursor));
            var emitted := Relation(relationRef, event.subject.value, eventRef, t.commit.at, None, map[]);
            relations := relations[relationRef := emitted];
          }
        case _ =>
      }
    }
    return Some(Snapshot(base.scope, base.validAt, t.cursor + |t.commit.mutations|,
                         ValidPart(Maps(records, relations), base.validAt)));
  }

  /** Writing does not look at what was there: expired versions may be dropped before or after. */
  lemma DropBeforeOrAfter(g: Maps, m: Mutation, cursor: nat, at: Millis, validAt: Millis)
    ensures ValidPart(ApplyMutation(ValidPart(g, validAt), m, cursor, at, validAt), validAt) ==
            ValidPart(ApplyMutation(g, m, cursor, at, validAt), validAt)
  {
    hide RecordWrite;
    hide RelationWrite;
    hide ValidAtWindow;
    var early, late := ValidPart(ApplyMutation(ValidPart(g, validAt), m, cursor, at, validAt), validAt),
                       ValidPart(ApplyMutation(g, m, cursor, at, validAt), validAt);
    assert early.records == late.records;
    assert early.relations == late.relations;
  }

  lemma SameValidPart(g: Maps, f: Maps, m: Mutation, cursor: nat, at: Millis, validAt: Millis)
    requires ValidPart(g, validAt) == ValidPart(f, validAt)
    ensures ValidPart(ApplyMutation(g, m, cursor, at, validAt), validAt) ==
            ValidPart(ApplyMutation(f, m, cursor, at, validAt), validAt)
  {
    hide ApplyMutation;
    hide ValidPart;
    DropBeforeOrAfter(g, m, cursor, at, validAt);
    DropBeforeOrAfter(f, m, cursor, at, validAt);
  }

  lemma {:induction false} PendingIsReplay(log: seq<Change>, commit: Commit, cursor: nat, count: nat, validAt: Millis)
    requires count <= |commit.mutations| && forall i :: 0 <= i < |log| ==> log[i].cursor <= cursor
    ensures var after := cursor + |commit.mutations|;
            ValidPart(ApplyPending(SnapshotOf(log, commit.scope, validAt, cursor).graph, commit, cursor, count,
                                   validAt), validAt) ==
            ValidPart(Replay(log + Changes(commit, cursor)[..count], commit.scope, validAt, after), validAt)
    decreases count
  {
    hide ApplyMutation;
    hide ValidPart;
    var after, base := cursor + |commit.mutations|, SnapshotOf(log, commit.scope, validAt, cursor).graph;
    if count == 0 {
      assert log + Changes(commit, cursor)[..0] == log;
      ReplayKnown(log, commit.scope, validAt, cursor, after);
      ValidPartTwice(Replay(log, commit.scope, validAt, cursor), validAt);
    } else {
      PendingIsReplay(log, commit, cursor, count - 1, validAt);
      var longer := log + Changes(commit, cursor)[..count];
      assert longer[..|longer| - 1] == log + Changes(commit, cursor)[..count - 1];
      assert longer[|longer| - 1] == Change(cursor + count, commit.scope, commit.at, commit.mutations[count - 1]);
      SameValidPart(ApplyPending(base, commit, cursor, count - 1, validAt),
                    Replay(longer[..|longer| - 1], commit.scope, validAt, after),
                    commit.mutations[count - 1], cursor + count, commit.at, validAt);
    }
  }

  lemma ValidPartTwice(g: Maps, validAt: Millis)
    ensures ValidPart(ValidPart(g, validAt), validAt) == ValidPart(g, validAt)
  {
  }

  lemma {:induction false} ReplayKnown(log: seq<Change>, scope: Bytes, validAt: Millis, cursor: nat, after: nat)
    requires cursor <= after && forall i :: 0 <= i < |log| ==> log[i].cursor <= cursor
    ensures Replay(log, scope, validAt, cursor) == Replay(log, scope, validAt, after)
  {
    hide ApplyMutation;
    if log != [] { ReplayKnown(log[..|log| - 1], scope, validAt, cursor, after); }
  }

  /**
   A transaction's prospective view is the committed future: previewing over the snapshot of the log gives exactly the
   graph of the log extended by the commit's changes at consecutive cursors, at every valid-time instant.
   */
  lemma PreviewIsFuture(log: seq<Change>, t: Transaction, validAt: Millis)
    requires ValidTransaction(t) && forall i :: 0 <= i < |log| ==> log[i].cursor <= t.cursor
    ensures Previewable(t, SnapshotOf(log, t.scope, validAt, t.cursor))
    ensures var base := SnapshotOf(log, t.scope, validAt, t.cursor);
            var after := t.cursor + |t.commit.mutations|;
            Snapshot(base.scope, base.validAt, after,
              ValidPart(ApplyPending(base.graph, t.commit, t.cursor, |t.commit.mutations|, validAt), validAt)) ==
            SnapshotOf(log + Changes(t.commit, t.cursor), t.scope, validAt, after)
  {
    hide ValidPart;
    hide ApplyPending;
    PendingIsReplay(log, t.commit, t.cursor, |t.commit.mutations|, validAt);
    assert Changes(t.commit, t.cursor)[..|t.commit.mutations|] == Changes(t.commit, t.cursor);
  }

  // ---- Differences ----

  datatype Diff<!V> = Diff(added: map<Ref, V>, removed: map<Ref, V>, changed: map<Ref, (V, V)>)

  function DiffOf<V(==)>(before: map<Ref, V>, after: map<Ref, V>): Diff<V> {
    Diff(map r | r in after && r !in before :: after[r],
         map r | r in before && r !in after :: before[r],
         map r | r in before && r in after && before[r] != after[r] :: (before[r], after[r]))
  }

  function Patch<V>(before: map<Ref, V>, d: Diff<V>): map<Ref, V> {
    (map r | r in before && r !in d.removed :: if r in d.changed then d.changed[r].1 else before[r]) + d.added
  }

  function Reverse<V>(d: Diff<V>): Diff<V> {
    Diff(d.removed, d.added, map r | r in d.changed :: (d.changed[r].1, d.changed[r].0))
  }

  /**
   A difference names exactly the identities on which the two graphs differ.
   */
  lemma DiffIsMinimal<V>(before: map<Ref, V>, after: map<Ref, V>, r: Ref)
    ensures var d := DiffOf(before, after);
            && (r in d.added <==> r !in before && r in after) && (r in d.removed <==> r in before && r !in after)
            && (r in d.changed <==> r in before && r in after && before[r] != after[r])
            && (r in d.added ==> d.added[r] == after[r]) && (r in d.removed ==> d.removed[r] == before[r])
            && (r in d.changed ==> d.changed[r] == (before[r], after[r]))
    ensures var d := DiffOf(before, after); before == after ==> r !in d.added && r !in d.removed && r !in d.changed
  {
  }

  /** Only equal graphs have an empty difference. */
  lemma EmptyDiffIsEqual<V>(before: map<Ref, V>, after: map<Ref, V>)
    requires forall q :: q !in DiffOf(before, after).added && q !in DiffOf(before, after).removed
    requires forall q :: q !in DiffOf(before, after).changed
    ensures before == after
  {
    forall q ensures (q in before <==> q in after) && (q in before ==> before[q] == after[q]) {
      DiffIsMinimal(before, after, q);
    }
  }

  /** A difference is exact: it leads from the older graph to the newer one, and its reverse leads back. */
  lemma DiffRoundTrip<V>(before: map<Ref, V>, after: map<Ref, V>)
    ensures Patch(before, DiffOf(before, after)) == after
    ensures Reverse(DiffOf(before, after)) == DiffOf(after, before)
    ensures Patch(after, Reverse(DiffOf(before, after))) == before
  {
    var d := DiffOf(before, after);
    assert Patch(before, d) == after;
    assert Reverse(d).changed == DiffOf(after, before).changed;
    assert Patch(after, DiffOf(after, before)) == before;
  }
}
