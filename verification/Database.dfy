/** The open database as an object (crates/vyrm-kv/src/database.rs), proved against the transitions of `Engine`. */
module Database {
  import opened Common
  import opened Batch
  import opened Versions
  import opened EngineInvariant
  import opened Compaction
  import opened EngineRuns
  import opened ActiveMemtable
  import opened Reads
  import E = Engine

  // ---- Compaction's merge and selection loops ----

  type Merged = map<Bytes, map<nat, Option<Bytes>>>

  function MergedGet(merged: Merged, k: Bytes): map<nat, Option<Bytes>> {
    if k in merged then merged[k] else map[]
  }

  lemma AsSetCoherent(m: map<nat, Option<Bytes>>)
    ensures Coherent(AsSet(m))
  {
  }

  lemma InsertVersion(m: map<nat, Option<Bytes>>, v: Version)
    requires v.sequence !in m
    ensures AsSet(m[v.sequence := v.value]) == AsSet(m) + {v}
  {
    var longer := m[v.sequence := v.value];
    forall x | x in AsSet(m) + {v} ensures x in AsSet(longer) {
      assert x.sequence in longer && x == Version(x.sequence, longer[x.sequence]);
    }
  }

  /** Adds one segment's versions of a key; two values for one sequence are refused. */
  method MergeVersions(target: map<nat, Option<Bytes>>, versions: seq<Version>)
      returns (r: Result<map<nat, Option<Bytes>>, E.Error>)
    ensures r.Ok? <==> Coherent(AsSet(target) + Elements(versions))
    ensures r.Ok? ==> AsSet(r.value) == AsSet(target) + Elements(versions)
  {
    var merged: map<nat, Option<Bytes>> := target;
    var i := 0;
    while i < |versions|
      invariant 0 <= i <= |versions|
      invariant AsSet(merged) == AsSet(target) + Elements(versions[..i])
    {
      var v := versions[i];
      assert Elements(versions[..i + 1]) == Elements(versions[..i]) + {v};
      if v.sequence in merged {
        assert Version(v.sequence, merged[v.sequence]) in AsSet(merged);
        if merged[v.sequence] != v.value {
          return Err(E.InvalidSegment);
        }
      } else {
        InsertVersion(merged, v);
        merged := merged[v.sequence := v.value];
      }
      i := i + 1;
    }
    assert versions[..|versions|] == versions;
    AsSetCoherent(merged);
    return Ok(merged);
  }

  /** Adds every key of one segment. */
  method MergeTable(merged: Merged, table: Table) returns (r: Result<Merged, E.Error>)
    ensures r.Ok? <==> forall k :: k in table ==> Coherent(AsSet(MergedGet(merged, k)) + Elements(table[k]))
    ensures r.Ok? ==> r.value.Keys == merged.Keys + table.Keys
    ensures r.Ok? ==> forall k :: k in r.value ==>
            AsSet(r.value[k]) == AsSet(MergedGet(merged, k)) + Elements(Lookup(table, k))
  {
    var result := merged;
    var remaining := table.Keys;
    ghost var done: set<Bytes> := {};
    while remaining != {}
      invariant done + remaining == table.Keys && done !! remaining
      invariant result.Keys == merged.Keys + done
      invariant forall k :: k in done ==> Coherent(AsSet(MergedGet(merged, k)) + Elements(table[k]))
      invariant forall k :: k in done ==> AsSet(result[k]) == AsSet(MergedGet(merged, k)) + Elements(table[k])
      invariant forall k :: k in merged && k !in done ==> result[k] == merged[k]
      decreases remaining
    {
      var k :| k in remaining;
      var target := if k in result then result[k] else map[];
      assert target == MergedGet(merged, k);
      var one := MergeVersions(target, table[k]);
      if one.Err? {
        return Err(one.error);
      }
      result := result[k := one.value];
      remaining := remaining - {k};
      done := done + {k};
    }
    assert done == table.Keys;
    return Ok(result);
  }

  lemma KeysOfPrefix(ds: seq<E.Descriptor>, i: nat)
    requires i < |ds|
    ensures E.Keys(ds[..i + 1]) == E.Keys(ds[..i]) + ds[i].segment.table.Keys
    ensures E.Keys(ds[..i + 1]) <= E.Keys(ds)
  {
    var longer := ds[..i + 1];
    forall k | k in ds[i].segment.table ensures k in E.Keys(longer) { assert k in longer[i].segment.table; }
    forall k | k in E.Keys(ds[..i]) ensures k in E.Keys(longer) {
      var j :| 0 <= j < i && k in ds[..i][j].segment.table;
      assert k in longer[j].segment.table;
    }
    forall k | k in E.Keys(longer) ensures k in E.Keys(ds) && k in E.Keys(ds[..i]) + ds[i].segment.table.Keys {
      var j :| 0 <= j < i + 1 && k in longer[j].segment.table;
      assert k in ds[j].segment.table;
      if j < i { assert k in ds[..i][j].segment.table; }
    }
  }

  ghost predicate MergedIs(merged: Merged, ds: seq<E.Descriptor>) {
    && merged.Keys == E.Keys(ds)
    && forall k :: k in merged ==> AsSet(merged[k]) == E.SegmentPool(ds, k)
  }

  /** Merges all segments, refusing segments that disagree. */
  method MergeSegments(ds: seq<E.Descriptor>) returns (r: Result<Merged, E.Error>)
    ensures r.Ok? <==> E.SegmentsAgree(ds)
    ensures r.Ok? ==> MergedIs(r.value, ds)
    ensures r.Err? ==> r.error == E.InvalidSegment
  {
    hide E.SegmentPool;
    hide E.Keys;
    var merged: Merged := map[];
    var i := 0;
    assert E.Keys(ds[..0]) == {} by { NoSegments(ds[..0]); }
    while i < |ds|
      invariant 0 <= i <= |ds|
      invariant MergedIs(merged, ds[..i])
    {
      KeysOfPrefix(ds, i);
      var table := ds[i].segment.table;
      forall k ensures AsSet(MergedGet(merged, k)) + Elements(Lookup(table, k)) == E.SegmentPool(ds[..i + 1], k)
        ensures E.SegmentPool(ds[..i + 1], k) <= E.SegmentPool(ds, k)
      {
        PoolOfPrefix(ds, i, k);
        if k !in merged { OutsideKeys(ds[..i], k); }
      }
      var next := MergeTable(merged, table);
      if next.Err? {
        ghost var k :| k in table && !Coherent(AsSet(MergedGet(merged, k)) + Elements(table[k]));
        assert k in E.Keys(ds) && !Coherent(E.SegmentPool(ds, k));
        return Err(E.InvalidSegment);
      }
      merged := next.value;
      i := i + 1;
    }
    assert ds[..|ds|] == ds;
    forall k | k in E.Keys(ds) ensures Coherent(E.SegmentPool(ds, k)) { AsSetCoherent(merged[k]); }
    return Ok(merged);
  }

  lemma NoSegments(ds: seq<E.Descriptor>)
    requires ds == []
    ensures E.Keys(ds) == {}
  {
  }

  lemma OutsideKeys(ds: seq<E.Descriptor>, k: Bytes)
    requires k !in E.Keys(ds)
    ensures E.SegmentPool(ds, k) == {}
  {
    if v :| v in E.SegmentPool(ds, k) {
      PooledKey(ds, k, v);
    }
  }

  lemma PooledKey(ds: seq<E.Descriptor>, k: Bytes, v: Version)
    requires v in E.SegmentPool(ds, k)
    ensures k in E.Keys(ds)
  {
    var i :| 0 <= i < |ds| && v in Lookup(ds[i].segment.table, k);
  }

  /** The last entry at or below `sequence` of an ordered map. */
  method LastAtOrBelow(versions: map<nat, Option<Bytes>>, sequence: nat) returns (r: Option<Version>)
    ensures IsNewest(AsSet(versions), sequence, r)
  {
    var s: nat := sequence;
    while s !in versions
      invariant s <= sequence
      invariant forall x :: s < x <= sequence ==> x !in versions
      decreases s
    {
      if s == 0 { return None; }
      s := s - 1;
    }
    return Some(Version(s, versions[s]));
  }

  /** The versions answering some protected read. */
  method SelectVersions(versions: map<nat, Option<Bytes>>, protected: set<nat>)
      returns (selected: map<nat, Option<Bytes>>)
    ensures AsSet(selected) == Kept(AsSet(versions), protected)
  {
    hide Kept;
    hide IsNewest;
    selected := map[];
    var remaining := protected;
    ghost var done: set<nat> := {};
    AsSetCoherent(versions);
    NoneKept(AsSet(versions));
    while remaining != {}
      invariant done + remaining == protected
      invariant AsSet(selected) == Kept(AsSet(versions), done)
      decreases remaining
    {
      var p :| p in remaining;
      var newest := LastAtOrBelow(versions, p);
      NewestUnique(AsSet(versions), p, newest);
      KeptOneMore(AsSet(versions), done, p);
      if newest.Some? {
        SelectOne(selected, AsSet(versions), newest.value, p);
        selected := selected[newest.value.sequence := newest.value.value];
      }
      remaining := remaining - {p};
      done := done + {p};
    }
    assert done == protected;
  }

  /** Collecting an answer twice is collecting it once: the pool has one value per sequence. */
  lemma SelectOne(selected: map<nat, Option<Bytes>>, pool: set<Version>, v: Version, p: nat)
    requires Coherent(pool) && AsSet(selected) <= pool && IsNewest(pool, p, Some(v))
    ensures AsSet(selected[v.sequence := v.value]) == AsSet(selected) + {v}
  {
    if v.sequence in selected {
      assert Version(v.sequence, selected[v.sequence]) in AsSet(selected);
      assert selected[v.sequence := v.value] == selected;
    } else {
      InsertVersion(selected, v);
    }
  }

  lemma NoneKept(pool: set<Version>)
    ensures Kept(pool, {}) == {} == AsSet(map[])
  {
  }

  lemma KeptOneMore(pool: set<Version>, done: set<nat>, p: nat)
    ensures Kept(pool, done + {p}) == Kept(pool, done) + match NewestIn(pool, p) case None => {} case Some(v) => {v}
    ensures Kept(pool, done) <= pool
  {
  }

  /** An ordered map's entries in key order. */
  method ListVersions(selected: map<nat, Option<Bytes>>, bound: nat) returns (list: seq<Version>)
    ensures list == Ascending(selected, bound)
  {
    list := [];
    var s := 0;
    while s < bound
      invariant 0 <= s <= bound
      invariant list == Ascending(selected, s)
    {
      if s in selected { list := list + [Version(s, selected[s])]; }
      s := s + 1;
    }
  }

  method RetainVersions(merged: Merged, ghost ds: seq<E.Descriptor>, protected: set<nat>, durable: nat)
      returns (table: Table)
    requires MergedIs(merged, ds) && E.SegmentsAgree(ds)
    ensures table == E.Retained(ds, protected, durable)
  {
    hide E.SegmentPool;
    hide E.Keys;
    hide Ascending;
    hide MapOf;
    hide Kept;
    table := map[];
    ghost var whole := E.Retained(ds, protected, durable);
    var remaining := merged.Keys;
    ghost var done: set<Bytes> := {};
    while remaining != {}
      invariant done + remaining == merged.Keys && done !! remaining
      invariant forall k :: k in table <==> k in whole && k in done
      invariant forall k :: k in table ==> table[k] == whole[k]
      decreases remaining
    {
      var k :| k in remaining;
      var selected := SelectVersions(merged[k], protected);
      E.SelectedCoherent(ds, protected, k);
      AsSetInjective(selected, MapOf(E.Selected(ds, protected, k)));
      assert (exists v :: v in AsSet(selected) && v.value.Some?) <==>
             exists s :: s in selected && selected[s].Some? by {
        SomeSelected(selected);
      }
      if exists s :: s in selected && selected[s].Some? {
        var list := ListVersions(selected, durable + 1);
        table := table[k := list];
      }
      remaining := remaining - {k};
      done := done + {k};
    }
    assert forall k :: k in table <==> k in whole;
  }

  lemma SomeSelected(m: map<nat, Option<Bytes>>)
    ensures (exists v :: v in AsSet(m) && v.value.Some?) <==> exists s :: s in m && m[s].Some?
  {
    if s :| s in m && m[s].Some? { assert Version(s, m[s]) in AsSet(m); }
  }

  /** The merge, the selection and the final order check of a compaction. */
  method CompactedVersions(ds: seq<E.Descriptor>, protected: set<nat>, durable: nat) returns (r: Option<Table>)
    ensures r.Some? <==> E.SegmentsAgree(ds) && TableOk(E.Retained(ds, protected, durable), 1, durable)
    ensures r.Some? ==> r.value == E.Retained(ds, protected, durable)
  {
    hide E.SegmentsAgree;
    hide MergedIs;
    hide TableOk;
    hide E.Retained;
    var merged := MergeSegments(ds);
    if merged.Err? { return None; }
    var table := RetainVersions(merged.value, ds, protected, durable);
    var accepted := FromVersions(table, durable);
    return if accepted then Some(table) else None;
  }

  /** The single output segment, one level above its inputs, or none when nothing is retained. */
  method OneLevelUp(ds: seq<E.Descriptor>, table: Table, durable: nat) returns (compacted: seq<E.Descriptor>)
    ensures compacted == E.CompactedSegments(ds, table, durable)
  {
    if table == map[] { return []; }
    var highest := E.HighestLevel(ds);
    return [E.Descriptor(E.Segment(table, durable), if highest < E.MAX_LEVEL then highest + 1 else E.MAX_LEVEL)];
  }

  // ---- The open database ----

  class Database {
    var disk: E.Disk
    var manifest: E.Manifest
    var memtable: Memtable
    var wal: nat
    var nextSequence: nat
    var segments: seq<E.Descriptor>

    ghost function View(): E.Engine
      reads this, memtable
    {
      E.Engine(disk, manifest, memtable.Value(), wal, nextSequence, segments)
    }

    /** What every database created or recovered from its own directory keeps. */
    ghost predicate Valid()
      reads this, memtable
    {
      Inv(View())
    }

    constructor Create()
      ensures View() == E.Created() && Valid() && fresh(memtable)
    {
      var first := E.Manifest(1, None, 0, 0, 1, []);
      disk := E.Disk(Some(first), {first}, {}, map[1 := []], map[]);
      manifest := first;
      memtable := new Memtable.AtSequence(0);
      wal, nextSequence, segments := 1, 1, [];
      new;
      CreatedOk();
    }

    constructor FromParts(disk: E.Disk, manifest: E.Manifest, memtable: Memtable)
      ensures View() == E.Engine(disk, manifest, memtable.Value(), manifest.walStart, memtable.maximumSequence + 1,
                                 manifest.segments)
      ensures this.memtable == memtable
    {
      this.disk, this.manifest, this.memtable := disk, manifest, memtable;
      wal, nextSequence, segments := manifest.walStart, memtable.maximumSequence + 1, manifest.segments;
    }

    /** The batch is encoded, appended to the WAL and only then applied to the memtable. */
    method Write(batch: WriteBatch) returns (outcome: E.Outcome)
      modifies this, memtable
      ensures memtable == old(memtable)
      ensures (View(), outcome) == E.Write(old(View()), batch)
      ensures old(Valid()) ==> Valid()
    {
      hide Inv;
      hide ApplyOperations;
      hide Encoding;
      hide ValidMutation;
      ghost var before := View();
      if Inv(before) { WriteOk(before, batch); }
      var encoded := Encode(batch);
      if encoded.Err? {
        return E.Refused(E.BadBatch);
      }
      var first, last := nextSequence, nextSequence + |batch| - 1;
      var frames := if wal in disk.wals then disk.wals[wal] else [];
      disk := disk.(wals := disk.wals[wal := frames + [E.Record(first, last, encoded.value)]]);
      nextSequence := last + 1;
      var accepted := memtable.ApplyWriteBatch(batch, first, last);
      return if accepted then E.Done else E.Refused(E.BadBatch);
    }

    /** Memtable to segment, successor WAL, manifest: each boundary leaves a recoverable directory. */
    method Flush(at: nat, failure: Option<E.FlushBoundary>) returns (outcome: E.Outcome)
      modifies this
      ensures memtable == old(memtable) || fresh(memtable)
      ensures (View(), outcome) == E.Flush(old(View()), at, failure)
      ensures old(Valid()) ==> Valid()
    {
      hide Inv;
      hide E.NewManifest;
      hide E.Publish;
      hide E.Successor;
      hide E.HasVersions;
      ghost var before := View();
      if Inv(before) { FlushOk(before, at, failure); }
      var empty := memtable.IsEmpty();
      if empty { return E.Done; }
      var sequence := if nextSequence == 0 then 0 else nextSequence - 1;
      if failure == Some(E.WalSynced) { return E.Refused(E.Injected); }
      var segment := E.Segment(memtable.versions, memtable.maximumSequence);
      disk := disk.(segments := disk.segments + {segment});
      if failure == Some(E.FlushSegmentSynced) { return E.Refused(E.Injected); }
      var successor := E.Successor(disk, sequence + 1);
      if successor.Err? { return E.Refused(successor.error); }
      disk := successor.value;
      if failure == Some(E.FlushSuccessorSynced) { return E.Refused(E.Injected); }
      var next := E.NewManifest(manifest.generation + 1, Some(manifest), at, sequence, sequence + 1,
                                manifest.segments + [E.Descriptor(segment, 0)]);
      if next.Err? { return E.Refused(next.error); }
      var published := E.Publish(disk, next.value, Some(manifest));
      if published.Err? { return E.Refused(published.error); }
      disk := published.value;
      wal, nextSequence := sequence + 1, sequence + 1;
      memtable := new Memtable.AtSequence(sequence);
      segments := segments + [E.Descriptor(segment, 0)];
      manifest := next.value;
      return if failure == Some(E.FlushPublished) then E.Refused(E.Injected) else E.Done;
    }

    /** Rewrites all segments into one, keeping the versions some protected read answers. */
    method Compact(snapshots: set<nat>, at: nat, failure: Option<E.CompactionBoundary>) returns (outcome: E.Outcome)
      modifies this
      ensures memtable == old(memtable) || fresh(memtable)
      ensures (View(), outcome) == E.Compact(old(View()), snapshots, at, failure)
      ensures old(Valid()) ==> Valid()
    {
      hide Inv;
      hide E.Flush;
      hide E.NewManifest;
      hide E.Publish;
      hide E.Retained;
      hide E.SegmentsAgree;
      hide TableOk;
      hide E.CompactedSegments;
      ghost var before := View();
      if Inv(before) { CompactState(before, snapshots, at, failure); }
      outcome := Flush(at, None);
      if outcome.Refused? || segments == [] { return; }
      var durable := manifest.durable;
      var protected := (set s | s in snapshots && s <= durable) + {durable};
      assert protected == E.ProtectedSequences(snapshots, durable);
      var merged := CompactedVersions(segments, protected, durable);
      if merged.None? { return E.Refused(E.InvalidSegment); }
      var compacted := OneLevelUp(segments, merged.value, durable);
      disk := disk.(segments := disk.segments + set i | 0 <= i < |compacted| :: compacted[i].segment);
      if failure == Some(E.CompactionSegmentSynced) { return E.Refused(E.Injected); }
      var next := E.NewManifest(manifest.generation + 1, Some(manifest), at, durable, manifest.walStart, compacted);
      if next.Err? { return E.Refused(next.error); }
      var published := E.Publish(disk, next.value, Some(manifest));
      if published.Err? { return E.Refused(published.error); }
      disk := published.value;
      segments := compacted;
      manifest := next.value;
      return if failure == Some(E.CompactionPublished) then E.Refused(E.Injected) else E.Done;
    }

    /** Replaces the image by a newer snapshot through one publication of CURRENT. */
    method Install(bundle: E.Manifest, at: nat, failure: Option<E.InstallBoundary>) returns (outcome: E.Outcome)
      modifies this
      ensures memtable == old(memtable) || fresh(memtable)
      ensures (View(), outcome) == E.Install(old(View()), bundle, at, failure)
      ensures old(Valid()) && ManifestOk(bundle) ==> Valid()
    {
      hide Inv;
      hide ManifestOk;
      hide E.BundleOk;
      hide E.NewManifest;
      hide E.Publish;
      hide E.Successor;
      ghost var before := View();
      if Inv(before) && ManifestOk(bundle) { InstallOk(before, bundle, at, failure); }
      if !E.BundleOk(bundle) { return E.Refused(E.InvalidManifest); }
      if bundle.durable == memtable.maximumSequence && manifest.segments == bundle.segments { return E.Done; }
      if bundle.durable <= memtable.maximumSequence { return E.Refused(E.InvalidManifest); }
      var files := ImportSegments(disk.segments, bundle.segments);
      disk := disk.(segments := files);
      if failure == Some(E.InstallSegmentsSynced) { return E.Refused(E.Injected); }
      var successor := E.Successor(disk, bundle.durable + 1);
      if successor.Err? { return E.Refused(successor.error); }
      disk := successor.value;
      if failure == Some(E.InstallSuccessorSynced) { return E.Refused(E.Injected); }
      var created := if at >= manifest.createdAt then at else manifest.createdAt;
      created := if created >= bundle.createdAt then created else bundle.createdAt;
      var next := E.NewManifest(manifest.generation + 1, Some(manifest), created, bundle.durable, bundle.durable + 1,
                                bundle.segments);
      if next.Err? { return E.Refused(next.error); }
      var published := E.Publish(disk, next.value, Some(manifest));
      if published.Err? { return E.Refused(published.error); }
      disk := published.value;
      wal, nextSequence := bundle.durable + 1, bundle.durable + 1;
      memtable := new Memtable.AtSequence(bundle.durable);
      segments := bundle.segments;
      manifest := next.value;
      return if failure == Some(E.InstallPublished) then E.Refused(E.Injected) else E.Done;
    }

    /** Deletes everything CURRENT and the checkpoints do not name, after the inventory has been read. */
    method GarbageCollect() returns (outcome: E.Outcome)
      modifies this`disk
      ensures (View(), outcome) == E.Collect(old(View()))
      ensures old(Valid()) ==> Valid()
    {
      hide Inv;
      ghost var before := View();
      if Inv(before) { CollectOk(before); }
      if exists name :: name in disk.checkpoints && disk.checkpoints[name].manifest !in disk.manifests {
        return E.Refused(E.MissingFile);
      }
      var roots := {manifest} + set name | name in disk.checkpoints :: disk.checkpoints[name].manifest;
      var starts := set m | m in roots :: m.walStart;
      disk := disk.(
        manifests := disk.manifests * roots,
        segments := disk.segments * E.Named(roots),
        wals := map s | s in disk.wals && s in starts :: disk.wals[s]);
      return E.Done;
    }

    // ---- Reads ----

    /** The memtable short cut, then the newest version over all segments in whatever order they are listed. */
    method Get(key: Bytes, snapshot: nat) returns (value: Option<Bytes>)
      requires Valid()
      ensures value == E.Read(View(), key, snapshot)
    {
      hide Inv;
      hide SegmentsOk;
      hide E.SegmentPool;
      hide NewestIn;
      hide Coherent;
      hide Ordered;
      MemtableFirst(View(), key, snapshot);
      InvMemory(View());
      var found := memtable.GetVersion(key, snapshot);
      if found.Some? { return found.value.value; }
      var bestSequence: nat, bestValue: Option<Bytes> := 0, None;
      NoVersions(segments, key, snapshot);
      for i := 0 to |segments|
        invariant BestIs(E.SegmentPool(segments[..i], key), snapshot, bestSequence, bestValue)
      {
        SegmentStep(segments, manifest.durable, i, key);
        var version := FindNewest(Lookup(segments[i].segment.table, key), snapshot);
        BestStep(E.SegmentPool(segments[..i], key), Lookup(segments[i].segment.table, key), snapshot, bestSequence,
                 bestValue);
        if version.Some? && version.value.sequence > bestSequence {
          bestSequence, bestValue := version.value.sequence, version.value.value;
        }
      }
      assert segments[..|segments|] == segments;
      return bestValue;
    }

    method GetMany(keys: seq<Bytes>, snapshot: nat) returns (values: Values)
      requires Valid()
      ensures |values| == |keys|
      ensures forall i :: 0 <= i < |keys| ==> values[i] == E.Read(View(), keys[i], snapshot)
    {
      hide Inv;
      hide SegmentsOk;
      hide E.SegmentPool;
      hide NewestIn;
      hide E.Read;
      hide LeftToSegments;
      hide BestsAre;
      hide Positions;
      var unresolved;
      values, unresolved := AnswerFromMemtable(keys, snapshot);
      if unresolved == [] { return; }
      PositionsBound(unresolved, |keys|);
      var unresolvedKeys := seq(|unresolved|, p requires 0 <= p < |unresolved| => keys[unresolved[p]]);
      var idle := memtable.IsEmpty();
      InvMemory(View());
      if |segments| == 1 && idle {
        var found := SegmentGetVersions(segments[0].segment.table, unresolvedKeys, snapshot);
        values := FillAnswers(found, values, unresolved);
        forall j | 0 <= j < |keys| ensures values[j] == E.Read(View(), keys[j], snapshot) {
          if j in unresolved {
            var p :| 0 <= p < |unresolved| && unresolved[p] == j;
            SingleSegment(segments, manifest.durable, keys[j], snapshot);
            LeftToSegmentsAt(keys, unresolved, View(), snapshot, j);
          }
        }
        return;
      }
      var best: seq<nat> := seq(|unresolved|, _ => 0);
      NoBests(values, keys, unresolved, segments, snapshot);
      for i := 0 to |segments|
        invariant |best| == |unresolved| && Answered(values, keys, unresolved, |keys|, View(), snapshot)
        invariant BestsAre(values, best, keys, unresolved, segments[..i], snapshot)
      {
        var found := SegmentGetVersions(segments[i].segment.table, unresolvedKeys, snapshot);
        ghost var oldBest, oldValues := best, values;
        best, values := MergeBest(found, best, values, unresolved);
        BestsStep(oldValues, oldBest, values, best, keys, unresolved, found, segments, manifest.durable, i, snapshot);
      }
      assert segments[..|segments|] == segments;
      SegmentsAnswer(values, best, keys, unresolved, View(), snapshot);
    }

    /** The first pass of `GetMany`: what the memtable shows is final, the rest is left to the segments. */
    method AnswerFromMemtable(keys: seq<Bytes>, snapshot: nat) returns (values: Values, unresolved: seq<nat>)
      requires Valid()
      ensures Positions(unresolved, |keys|) && Answered(values, keys, unresolved, |keys|, View(), snapshot)
      ensures LeftToSegments(keys, unresolved, View(), snapshot)
      ensures forall j :: j in unresolved && j < |values| ==> values[j] == None
    {
      hide Inv;
      hide E.SegmentPool;
      hide NewestIn;
      hide E.Visible;
      hide FindNewest;
      values := seq(|keys|, _ => None);
      unresolved := [];
      for i := 0 to |keys|
        invariant Positions(unresolved, i) && Answered(values, keys, unresolved, i, View(), snapshot)
        invariant forall j :: 0 <= j < |keys| && (j >= i || j in unresolved) ==> values[j] == None
        invariant LeftToSegments(keys, unresolved, View(), snapshot)
      {
        MemtableFirst(View(), keys[i], snapshot);
        var found := memtable.GetVersion(keys[i], snapshot);
        if found.Some? {
          values := values[i := found.value.value];
        } else {
          unresolved := unresolved + [i];
        }
      }
    }

    /** Every live row of the range in key order, through the single-segment path or the merge. */
    method Scan(start: Bytes, end: Option<Bytes>, snapshot: nat) returns (rows: Rows)
      requires Valid()
      ensures ScanResult(rows, View(), start, end, snapshot)
    {
      hide Inv;
      hide InRange;
      hide SegmentsOk;
      hide E.SegmentPool;
      hide NewestIn;
      hide FindNewest;
      hide Coherent;
      hide VisibleIn;
      InvMemory(View());
      var idle := memtable.IsEmpty();
      var visible: VisibleMap := map[];
      assert SegmentsScanned(visible, segments[..0], start, end, snapshot) by {
        forall k ensures NewestIn(E.SegmentPool(segments[..0], k), snapshot).None? {
          NoVersions(segments, k, snapshot);
        }
      }
      if |segments| == 1 && idle {
        visible := VisibleFrom(segments[0].segment.table, start, end, snapshot);
        SingleScan(View(), visible, start, end, snapshot);
        rows := LiveRows(visible);
        return;
      }
      for i := 0 to |segments|
        invariant SegmentsScanned(visible, segments[..i], start, end, snapshot)
      {
        var found := VisibleFrom(segments[i].segment.table, start, end, snapshot);
        var merged := MergeVisible(visible, found);
        ScanStep(visible, found, merged, segments, manifest.durable, i, start, end, snapshot);
        visible := merged;
      }
      assert segments[..|segments|] == segments;
      var found := VisibleFrom(memtable.versions, start, end, snapshot);
      var merged := MergeVisible(visible, found);
      ScanMemtable(visible, found, merged, View(), start, end, snapshot);
      rows := LiveRows(merged);
    }
  }

  lemma SingleScan(e: E.Engine, visible: VisibleMap, start: Bytes, end: Option<Bytes>, s: nat)
    requires Inv(e) && |e.segments| == 1 && !E.HasVersions(e.memtable.versions)
    requires VisibleIn(visible, e.segments[0].segment.table, start, end, s)
    ensures forall k :: (k in visible <==> InRange(k, start, end) && NewestIn(E.Visible(e, k), s).Some?)
                     && (k in visible ==> Some(visible[k]) == NewestIn(E.Visible(e, k), s))
  {
    hide Inv;
    hide InRange;
    hide NewestIn;
    hide E.SegmentPool;
    hide SegmentsOk;
    InvMemory(e);
    forall k ensures NewestIn(E.Visible(e, k), s) == FindNewest(Lookup(e.segments[0].segment.table, k), s) {
      MemtableFirst(e, k, s);
      SingleSegment(e.segments, e.manifest.durable, k, s);
    }
  }

  /** `Database::open`. */
  method Open(disk: E.Disk) returns (r: Result<Database, E.Error>)
    ensures r.Ok? <==> E.Open(disk).Ok?
    ensures r.Ok? ==> fresh(r.value) && fresh(r.value.memtable) && r.value.View() == E.Open(disk).value
    ensures r.Err? ==> r.error == E.Open(disk).error
  {
    hide E.Replay;
    if disk.current.None? { return Err(E.InvalidManifest); }
    var manifest := disk.current.value;
    if manifest !in disk.manifests { return Err(E.MissingFile); }
    for i := 0 to |manifest.segments|
      invariant forall j :: 0 <= j < i ==> manifest.segments[j].segment in disk.segments
    {
      if manifest.segments[i].segment !in disk.segments { return Err(E.MissingFile); }
    }
    if manifest.walStart !in disk.wals { return Err(E.MissingFile); }
    var recovered := RecoverFrom(disk.wals[manifest.walStart], manifest.durable);
    if recovered.None? { return Err(E.BadBatch); }
    var database := new Database.FromParts(disk, manifest, recovered.value);
    return Ok(database);
  }

  /** Copies every segment of a bundle into the segment directory. */
  method ImportSegments(files: set<E.Segment>, ds: seq<E.Descriptor>) returns (imported: set<E.Segment>)
    ensures imported == files + set i | 0 <= i < |ds| :: ds[i].segment
  {
    imported := files;
    for i := 0 to |ds|
      invariant imported == files + set j | 0 <= j < i :: ds[j].segment
    {
      imported := imported + {ds[i].segment};
    }
  }
}
