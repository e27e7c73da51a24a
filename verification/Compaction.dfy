/** Compaction under protected snapshots (crates/vyrm-kv/src/database.rs). */
module Compaction {
  import opened Common
  import opened Versions
  import opened Engine
  import opened EngineInvariant

  /** What compaction leaves of one key's versions. */
  ghost function Survivors(pool: set<Version>, protected: set<nat>): set<Version> {
    if exists v :: v in Kept(pool, protected) && v.value.Some? then Kept(pool, protected) else {}
  }

  /** Reads at protected sequences and at or above the head see the survivors as they saw the pool. */
  lemma SurvivorReads(pool: set<Version>, protected: set<nat>, head: nat, s: nat)
    requires Coherent(pool) && head in protected
    requires forall v :: v in pool ==> v.sequence <= head
    requires s in protected || s >= head
    ensures ReadIn(Survivors(pool, protected), s) == ReadIn(pool, s)
  {
    if exists v :: v in Kept(pool, protected) && v.value.Some? {
      KeptReads(pool, protected, head, s);
    } else {
      DroppedReads(pool, protected, head, s);
    }
  }

  lemma SurvivorsIdempotent(pool: set<Version>, protected: set<nat>, head: nat)
    requires Coherent(pool) && head in protected
    requires forall v :: v in pool ==> v.sequence <= head
    ensures Survivors(Survivors(pool, protected), protected) == Survivors(pool, protected)
  {
    KeptIdempotent(pool, protected, head);
  }

  // ---- The compacted table ----

  lemma SelectedList(ds: seq<Descriptor>, protected: set<nat>, durable: nat, k: Bytes)
    requires SegmentsOk(ds, durable)
    ensures Coherent(Selected(ds, protected, k))
    ensures var list := Ascending(MapOf(Selected(ds, protected, k)), durable + 1);
            && Ordered(list) && Elements(list) == Selected(ds, protected, k)
            && forall v :: v in list ==> 1 <= v.sequence <= durable
  {
    hide SegmentPool;
    hide SegmentsOk;
    hide NewestIn;
    PoolOk(ds, durable, k);
    SelectedCoherent(ds, protected, k);
    var selected := Selected(ds, protected, k);
    AscendingMeaning(MapOf(selected), durable + 1);
  }

  lemma SegmentsOkAgree(ds: seq<Descriptor>, durable: nat)
    requires SegmentsOk(ds, durable)
    ensures SegmentsAgree(ds)
    ensures forall k :: k in Keys(ds) ==> k != []
  {
    hide SegmentPool;
    forall k | k in Keys(ds) ensures Coherent(SegmentPool(ds, k)) && k != [] {
      PoolOk(ds, durable, k);
      var i :| 0 <= i < |ds| && k in ds[i].segment.table;
      assert ds[i] in ds;
      assert SegmentOk(ds[i].segment, durable);
    }
  }

  lemma RetainedOk(ds: seq<Descriptor>, protected: set<nat>, durable: nat)
    requires SegmentsOk(ds, durable)
    ensures SegmentsAgree(ds) && TableOk(Retained(ds, protected, durable), 1, durable)
  {
    hide SegmentPool;
    hide SegmentsOk;
    hide Selected;
    hide MapOf;
    hide Ascending;
    hide SegmentsAgree;
    SegmentsOkAgree(ds, durable);
    var t := Retained(ds, protected, durable);
    forall k | k in t ensures k != [] && t[k] != [] && Ordered(t[k]) &&
        (forall v: Version :: v in t[k] ==> 1 <= v.sequence <= durable) {
      SelectedList(ds, protected, durable, k);
      var v :| v in Selected(ds, protected, k) && v.value.Some?;
      assert v in Elements(t[k]);
    }
  }

  lemma RetainedVersions(ds: seq<Descriptor>, protected: set<nat>, durable: nat, k: Bytes)
    requires SegmentsOk(ds, durable) && SegmentsAgree(ds)
    ensures Elements(Lookup(Retained(ds, protected, durable), k)) == Survivors(SegmentPool(ds, k), protected)
  {
    hide SegmentsOk;
    hide MapOf;
    hide Ascending;
    hide SegmentsAgree;
    hide NewestIn;
    SelectedList(ds, protected, durable, k);
    if v :| v in Selected(ds, protected, k) && v.value.Some? {
      assert v in SegmentPool(ds, k);
      var i :| 0 <= i < |ds| && v in Lookup(ds[i].segment.table, k);
      assert k in Keys(ds);
    }
  }

  lemma CompactedPool(ds: seq<Descriptor>, table: Table, durable: nat, k: Bytes)
    ensures SegmentPool(CompactedSegments(ds, table, durable), k) == Elements(Lookup(table, k))
  {
    var cs := CompactedSegments(ds, table, durable);
    if cs != [] {
      forall v | v in Lookup(table, k) ensures v in SegmentPool(cs, k) { assert v in Lookup(cs[0].segment.table, k); }
    }
  }

  lemma CompactedOk(ds: seq<Descriptor>, table: Table, durable: nat)
    requires TableOk(table, 1, durable)
    ensures SegmentsOk(CompactedSegments(ds, table, durable), durable)
  {
    var cs := CompactedSegments(ds, table, durable);
    if cs != [] {
      assert SegmentOk(cs[0].segment, durable);
    }
  }

  // ---- The transition ----

  /** Compaction of an engine that has just been flushed. */
  lemma CompactFlushed(e0: Engine, snapshots: set<nat>, at: nat, failure: Option<CompactionBoundary>)
    requires Inv(e0)
    requires var (e, flushed) := Flush(e0, at, None);
             Inv(e) && flushed == Done && e.manifest.durable == e.Head() && e.segments != []
    ensures var (e, _) := Flush(e0, at, None);
            var (e', outcome) := Compact(e0, snapshots, at, failure);
            && Inv(e') && e'.Head() == e.Head()
            && (outcome == Done || (outcome == Refused(Injected) && failure.Some?))
            && (failure == Some(CompactionSegmentSynced) ==> forall k :: Visible(e', k) == Visible(e, k))
            && (failure != Some(CompactionSegmentSynced) ==>
                  forall k :: Visible(e', k) == Survivors(Visible(e, k), ProtectedSequences(snapshots, e.Head())))
  {
    hide Inv;
    hide Flush;
    hide SegmentsOk;
    hide SegmentsAgree;
    hide TableOk;
    hide Retained;
    hide CompactedSegments;
    hide NewManifest;
    hide Publish;
    hide Gained;
    hide ProtectedSequences;
    hide SegmentPool;
    hide Over;
    hide Survivors;
    var (e, _) := Flush(e0, at, None);
    InvMemory(e);
    InvWal(e);
    IdleWal(e);
    var durable := e.Head();
    var protected := ProtectedSequences(snapshots, durable);
    RetainedOk(e.segments, protected, durable);
    var table := Retained(e.segments, protected, durable);
    var compacted := CompactedSegments(e.segments, table, durable);
    CompactedOk(e.segments, table, durable);
    var disk1 := e.disk.(segments := e.disk.segments + set i | 0 <= i < |compacted| :: compacted[i].segment);
    assert Gained(e.disk, disk1) by { SegmentsGained(e.disk, disk1.segments); }
    GainedKeepsInv(e, disk1);
    PublicationSucceeds(disk1, e.manifest, at, durable, compacted);
    var m := NewManifest(e.manifest.generation + 1, Some(e.manifest), at, durable, durable + 1, compacted).value;
    PublishedInv(e, disk1, m, compacted);
    forall k ensures Over(map[], k, SegmentPool(compacted, k)) == Survivors(Visible(e, k), protected) {
      CompactedPool(e.segments, table, durable, k);
      RetainedVersions(e.segments, protected, durable, k);
      FlushedPool(map[], 0, e.segments, k);
      FlushedPool(map[], 0, compacted, k);
    }
  }

  lemma SegmentsGained(disk: Disk, segments: set<Segment>)
    requires disk.segments <= segments
    ensures Gained(disk, disk.(segments := segments))
  {
  }

  lemma CompactState(e: Engine, snapshots: set<nat>, at: nat, failure: Option<CompactionBoundary>)
    requires Inv(e)
    ensures var (e', outcome) := Compact(e, snapshots, at, failure);
            && Inv(e') && e'.Head() == e.Head()
            && (outcome == Done || (outcome == Refused(Injected) && failure.Some?))
  {
    hide Inv;
    hide Flush;
    hide Visible;
    hide CompactedSegments;
    hide Retained;
    FlushOk(e, at, None);
    var (e1, flushed) := Flush(e, at, None);
    if e1.segments != [] {
      CompactFlushed(e, snapshots, at, failure);
    }
  }

  lemma CompactRead(e: Engine, snapshots: set<nat>, at: nat, failure: Option<CompactionBoundary>, k: Bytes, s: nat)
    requires Inv(e) && (s in snapshots || s >= e.Head())
    ensures Read(Compact(e, snapshots, at, failure).0, k, s) == Read(e, k, s)
  {
    hide Inv;
    hide Flush;
    hide Visible;
    hide ReadIn;
    hide Survivors;
    hide CompactedSegments;
    hide Retained;
    FlushOk(e, at, None);
    var (e1, flushed) := Flush(e, at, None);
    if e1.segments != [] {
      CompactFlushed(e, snapshots, at, failure);
      InvVisible(e1, k);
      SurvivorReads(Visible(e1, k), ProtectedSequences(snapshots, e1.Head()), e1.Head(), s);
    }
  }

  /**
   Compaction changes no protected read: for every key, the answer at each protected snapshot and at every
   sequence at or above the head is the same before and after, whichever boundary fails.
   */
  lemma CompactOk(e: Engine, snapshots: set<nat>, at: nat, failure: Option<CompactionBoundary>)
    requires Inv(e)
    ensures var (e', outcome) := Compact(e, snapshots, at, failure);
            && Inv(e') && e'.Head() == e.Head()
            && (outcome == Done || (outcome == Refused(Injected) && failure.Some?))
            && forall k, s :: s in snapshots || s >= e.Head() ==> Read(e', k, s) == Read(e, k, s)
  {
    hide Inv;
    hide Compact;
    hide Read;
    CompactState(e, snapshots, at, failure);
    forall k, s | s in snapshots || s >= e.Head()
        ensures Read(Compact(e, snapshots, at, failure).0, k, s) == Read(e, k, s) {
      CompactRead(e, snapshots, at, failure, k, s);
    }
  }

  /** `v` is what some read answers that compaction must keep: at a snapshot up to the head, or at the head. */
  ghost predicate Answers(e: Engine, snapshots: set<nat>, k: Bytes, v: Version) {
    exists p :: ((p in snapshots && p <= e.Head()) || p == e.Head()) && IsNewest(Visible(e, k), p, Some(v))
  }

  /**
   A completed compaction leaves of a key exactly the answers at the protected sequences, unless they are all
   tombstones: then it leaves nothing.
   */
  lemma CompactKeepsExactly(e: Engine, snapshots: set<nat>, at: nat, k: Bytes, v: Version)
    requires Inv(e)
    ensures v in Visible(Compact(e, snapshots, at, None).0, k) <==>
            Answers(e, snapshots, k, v) && exists w: Version :: Answers(e, snapshots, k, w) && w.value.Some?
  {
    hide Inv;
    hide Flush;
    hide Visible;
    hide CompactedSegments;
    hide Retained;
    FlushOk(e, at, None);
    var (e1, flushed) := Flush(e, at, None);
    var protected := ProtectedSequences(snapshots, e.Head());
    InvVisible(e1, k);
    forall w: Version ensures w in Kept(Visible(e, k), protected) <==> Answers(e, snapshots, k, w) {
      KeptIsAnswers(Visible(e, k), protected, w);
    }
    if e1.segments != [] {
      CompactFlushed(e, snapshots, at, None);
    } else {
      NothingVisible(e1, k);
    }
    hide Answers;
    hide Kept;
  }

  lemma NothingVisible(e: Engine, k: Bytes)
    requires Inv(e) && e.segments == [] && e.manifest.durable == e.Head()
    ensures Visible(e, k) == {}
  {
    IdleWal(e);
    hide Inv;
  }

  /** In particular every version that is left answers a protected read. */
  lemma CompactKeepsOnlyAnswers(e: Engine, snapshots: set<nat>, at: nat, k: Bytes, v: Version)
    requires Inv(e) && v in Visible(Compact(e, snapshots, at, None).0, k)
    ensures exists p :: ((p in snapshots && p <= e.Head()) || p == e.Head()) && IsNewest(Visible(e, k), p, Some(v))
  {
    hide Inv;
    hide Compact;
    hide Visible;
    CompactKeepsExactly(e, snapshots, at, k, v);
  }

  /** Compacting again with the same protections keeps the same versions. */
  lemma CompactIdempotent(e: Engine, snapshots: set<nat>, at: nat, again: nat, k: Bytes)
    requires Inv(e)
    ensures var once := Compact(e, snapshots, at, None).0;
            Visible(Compact(once, snapshots, again, None).0, k) == Visible(once, k)
  {
    hide Inv;
    hide Flush;
    hide Visible;
    hide Survivors;
    hide CompactedSegments;
    hide Retained;
    hide NewestIn;
    FlushOk(e, at, None);
    CompactOk(e, snapshots, at, None);
    var flushed, once := Flush(e, at, None).0, Compact(e, snapshots, at, None).0;
    FlushOk(once, again, None);
    if flushed.segments != [] {
      CompactFlushed(e, snapshots, at, None);
      if Flush(once, again, None).0.segments != [] {
        CompactFlushed(once, snapshots, again, None);
        InvVisible(flushed, k);
        SurvivorsIdempotent(Visible(flushed, k), ProtectedSequences(snapshots, e.Head()), e.Head());
      }
    } else {
      assert once == flushed;
      IdleFlush(once, again);
    }
  }

  /** Flushing with nothing in memory does nothing. */
  lemma IdleFlush(e: Engine, at: nat)
    requires Inv(e) && e.Head() == e.manifest.durable
    ensures Flush(e, at, None) == (e, Done)
  {
    InvMemory(e);
  }

  /** The compacted segment goes one level below everything it replaces, as far as there are levels. */
  lemma {:induction false} CompactedLevel(ds: seq<Descriptor>, table: Table, durable: nat)
    requires table != map[] && ds != []
    ensures var cs := CompactedSegments(ds, table, durable);
            && |cs| == 1 && cs[0].segment == Segment(table, durable) && cs[0].level <= MAX_LEVEL
            && ((forall d :: d in ds ==> d.level < cs[0].level) || cs[0].level == MAX_LEVEL)
            && ((exists d :: d in ds && d.level + 1 >= cs[0].level) || cs[0].level == 1)
  {
    HighestLevelMeaning(ds);
  }

  lemma {:induction false} HighestLevelMeaning(ds: seq<Descriptor>)
    ensures forall d :: d in ds ==> d.level <= HighestLevel(ds)
    ensures HighestLevel(ds) == 0 || exists d :: d in ds && d.level == HighestLevel(ds)
  {
    if ds != [] {
      var front, last := ds[..|ds| - 1], ds[|ds| - 1];
      HighestLevelMeaning(front);
      assert ds == front + [last];
    }
  }
}
