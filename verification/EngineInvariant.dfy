/** What every engine transition keeps, and what it does to reads. */
module EngineInvariant {
  import opened Common
  import opened Batch
  import opened Versions
  import opened Engine

  // ---- Permutations of segment lists ----

  ghost predicate DistinctSegments(ds: seq<Descriptor>) {
    forall i, j :: 0 <= i < j < |ds| ==> ds[i].segment != ds[j].segment
  }

  lemma {:induction false} TwiceMeansTwoIndexes<T>(s: seq<T>, x: T)
    ensures (exists i, j :: 0 <= i < j < |s| && s[i] == x && s[j] == x) <==> multiset(s)[x] >= 2
  {
    if s != [] {
      var n := |s| - 1;
      var front := s[..n];
      assert s == front + [s[n]];
      TwiceMeansTwoIndexes(front, x);
      if s[n] == x && multiset(front)[x] >= 1 {
        assert x in front;
        var i :| 0 <= i < n && front[i] == x;
        assert s[i] == x && s[n] == x;
      }
      if i, j :| 0 <= i < j < |s| && s[i] == x && s[j] == x {
        if j < n { assert front[i] == x && front[j] == x; } else { assert front[i] == x && x in multiset(front); }
      }
      if multiset(front)[x] >= 2 {
        var i, j :| 0 <= i < j < n && front[i] == x && front[j] == x;
        assert s[i] == x && s[j] == x;
      }
    }
  }

  /** Two positions of a permuted list come from two positions of the original. */
  lemma PermutedPositions<T>(a: seq<T>, b: seq<T>, i: nat, j: nat) returns (p: nat, q: nat)
    requires multiset(a) == multiset(b) && i < j < |b|
    ensures p < |a| && q < |a| && p != q && a[p] == b[i] && a[q] == b[j]
  {
    TwiceMeansTwoIndexes(b, b[i]);
    TwiceMeansTwoIndexes(a, b[i]);
    assert b[i] in multiset(b) && b[j] in multiset(b);
    assert b[i] in a && b[j] in a;
    if b[i] == b[j] {
      p, q :| 0 <= p < q < |a| && a[p] == b[i] && a[q] == b[i];
    } else {
      p :| 0 <= p < |a| && a[p] == b[i];
      q :| 0 <= q < |a| && a[q] == b[j];
    }
  }

  lemma DistinctUnderPermutation(a: seq<Descriptor>, b: seq<Descriptor>)
    requires multiset(a) == multiset(b) && DistinctSegments(a)
    ensures DistinctSegments(b)
  {
    forall i, j | 0 <= i < j < |b| ensures b[i].segment != b[j].segment {
      var p, q := PermutedPositions(a, b, i, j);
    }
  }

  lemma PermutationPool(a: seq<Descriptor>, b: seq<Descriptor>, k: Bytes)
    requires multiset(a) == multiset(b)
    ensures SegmentPool(a, k) == SegmentPool(b, k)
  {
    PermutationPoolHalf(a, b, k);
    PermutationPoolHalf(b, a, k);
  }

  lemma PermutationPoolHalf(a: seq<Descriptor>, b: seq<Descriptor>, k: Bytes)
    requires multiset(a) == multiset(b)
    ensures SegmentPool(a, k) <= SegmentPool(b, k)
  {
    forall v | v in SegmentPool(a, k) ensures v in SegmentPool(b, k) {
      var i :| 0 <= i < |a| && v in Lookup(a[i].segment.table, k);
      assert a[i] in multiset(b);
      var j :| 0 <= j < |b| && b[j] == a[i];
      assert v in Lookup(b[j].segment.table, k);
    }
  }

  // ---- Segments ----

  /** No key has versions with one sequence in both tables. */
  ghost predicate Disjoint(a: Table, b: Table) {
    forall k, v, w :: v in Lookup(a, k) && w in Lookup(b, k) ==> v.sequence != w.sequence
  }

  ghost predicate SegmentOk(s: Segment, durable: nat) {
    s.table != map[] && TableOk(s.table, 1, s.maximum) && s.maximum <= durable
  }

  ghost predicate SegmentsOk(ds: seq<Descriptor>, durable: nat) {
    && (forall d :: d in ds ==> SegmentOk(d.segment, durable))
    && (forall d, d' :: d in ds && d' in ds && d.segment != d'.segment ==> Disjoint(d.segment.table, d'.segment.table))
    && DistinctSegments(ds)
  }

  lemma SegmentsOkUnderPermutation(a: seq<Descriptor>, b: seq<Descriptor>, durable: nat)
    requires multiset(a) == multiset(b) && SegmentsOk(a, durable)
    ensures SegmentsOk(b, durable)
  {
    DistinctUnderPermutation(a, b);
    forall d | d in b ensures d in a { assert d in multiset(a); }
  }

  lemma SegmentVersions(s: Segment, durable: nat, k: Bytes, v: Version, w: Version)
    requires SegmentOk(s, durable) && v in Lookup(s.table, k) && w in Lookup(s.table, k)
    ensures 1 <= v.sequence <= durable && (v.sequence == w.sequence ==> v == w)
  {
  }

  lemma PoolPair(ds: seq<Descriptor>, durable: nat, k: Bytes, v: Version, w: Version)
    requires SegmentsOk(ds, durable) && v in SegmentPool(ds, k) && w in SegmentPool(ds, k)
    ensures 1 <= v.sequence <= durable && (v.sequence == w.sequence ==> v == w)
  {
    hide SegmentOk;
    hide Lookup;
    var i :| 0 <= i < |ds| && v in Lookup(ds[i].segment.table, k);
    var j :| 0 <= j < |ds| && w in Lookup(ds[j].segment.table, k);
    assert ds[i] in ds && ds[j] in ds;
    SegmentVersions(ds[i].segment, durable, k, v, if ds[i].segment == ds[j].segment then w else v);
    if ds[i].segment != ds[j].segment {
      assert Disjoint(ds[i].segment.table, ds[j].segment.table);
    }
  }

  lemma PoolOk(ds: seq<Descriptor>, durable: nat, k: Bytes)
    requires SegmentsOk(ds, durable)
    ensures Coherent(SegmentPool(ds, k))
    ensures forall v :: v in SegmentPool(ds, k) ==> 1 <= v.sequence <= durable
  {
    hide SegmentPool;
    hide SegmentsOk;
    forall v, w | v in SegmentPool(ds, k) && w in SegmentPool(ds, k)
      ensures 1 <= v.sequence <= durable && (v.sequence == w.sequence ==> v == w)
    {
      PoolPair(ds, durable, k, v, w);
    }
  }

  lemma SegmentDescribed(d: Descriptor, durable: nat)
    requires SegmentOk(d.segment, durable)
    ensures DescriptorOk(d)
  {
    var k :| k in d.segment.table;
    var v := d.segment.table[k][0];
    assert v in d.segment.table[k];
  }

  // ---- Manifests ----

  ghost predicate ManifestOk(m: Manifest) {
    ValidComponents(m) && m.walStart == m.durable + 1 && SegmentsOk(m.segments, m.durable)
  }

  /** Publishing well-formed segments over the CURRENT one holds always succeeds. */
  lemma PublicationSucceeds(disk: Disk, previous: Manifest, at: nat, durable: nat, ds: seq<Descriptor>)
    requires disk.current == Some(previous) && previous in disk.manifests
    requires previous.generation >= 1 && SegmentsOk(ds, durable)
    ensures var next := NewManifest(previous.generation + 1, Some(previous), at, durable, durable + 1, ds);
            && next.Ok? && ManifestOk(next.value) && multiset(next.value.segments) == multiset(ds)
            && next.value.durable == durable
            && Publish(disk, next.value, Some(previous)) ==
               Ok(disk.(manifests := disk.manifests + {next.value}, current := Some(next.value)))
  {
    hide DescriptorOk;
    hide SegmentOk;
    var sorted := SortByLevel(ds);
    SegmentsOkUnderPermutation(ds, sorted, durable);
    forall i | 0 <= i < |sorted| ensures DescriptorOk(sorted[i]) && sorted[i].segment.maximum <= durable {
      assert sorted[i] in sorted;
      SegmentDescribed(sorted[i], durable);
      assert sorted[i].segment.maximum <= durable by { SegmentBounded(sorted[i].segment, durable); }
    }
  }

  lemma SegmentBounded(s: Segment, durable: nat)
    requires SegmentOk(s, durable)
    ensures s.maximum <= durable
  {
  }

  // ---- WAL replay ----

  lemma ApplyOperationsHas(t: Table, ops: WriteBatch, first: nat)
    requires ops != []
    ensures HasVersions(ApplyOperations(t, ops, first))
  {
    var last := ops[|ops| - 1].key;
    assert ApplyOperations(t, ops, first)[last] != [];
  }

  lemma {:induction false} ReplayOk(records: seq<Record>, durable: nat)
    requires Replay(records, durable).Some?
    ensures var m := Replay(records, durable).value;
            && TableOk(m.versions, durable + 1, m.maximum) && durable <= m.maximum
            && (HasVersions(m.versions) <==> m.maximum > durable)
  {
    hide DecodeBatch;
    hide Encoding;
    hide ApplyOperations;
    if records != [] {
      hide TableOk;
      hide HasVersions;
      var before := Replay(records[..|records| - 1], durable).value;
      var r := records[|records| - 1];
      var ops := DecodeBatch(r.payload).value;
      ReplayOk(records[..|records| - 1], durable);
      EncodingOfDecode(r.payload);
      ApplyOperationsOk(before.versions, ops, durable + 1, before.maximum);
      ApplyOperationsHas(before.versions, ops, r.first);
    }
  }

  function Frame(m: Memtable, batch: WriteBatch): Record {
    Record(m.maximum + 1, m.maximum + |batch|, Encoding(batch))
  }

  lemma FrameReplays(m: Memtable, batch: WriteBatch)
    requires Encodable(batch)
    ensures ReplayRecord(m, Frame(m, batch)) ==
            Some(Memtable(ApplyOperations(m.versions, batch, m.maximum + 1), m.maximum + |batch|))
  {
    hide DecodeBatch;
    hide Encoding;
    hide ApplyOperations;
    DecodeOfEncoding(batch);
  }

  /** Appending the frame of an accepted batch extends the replay by that batch. */
  lemma ReplayExtends(records: seq<Record>, durable: nat, m: Memtable, batch: WriteBatch)
    requires Replay(records, durable) == Some(m) && Encodable(batch)
    ensures Replay(records + [Frame(m, batch)], durable) ==
            Some(Memtable(ApplyOperations(m.versions, batch, m.maximum + 1), m.maximum + |batch|))
  {
    hide ReplayRecord;
    hide Frame;
    hide Encodable;
    FrameReplays(m, batch);
    var longer := records + [Frame(m, batch)];
    assert longer[..|longer| - 1] == records;
  }

  // ---- The invariant ----

  /** The disk can still serve `m`: its files are there and its WAL replays. */
  ghost predicate Held(disk: Disk, m: Manifest) {
    && m in disk.manifests && m.walStart in disk.wals && m.walStart == m.durable + 1
    && Replay(disk.wals[m.walStart], m.durable).Some?
    && forall d :: d in m.segments ==> d.segment in disk.segments
  }

  /**
   CURRENT names a servable manifest bounded by its WAL, memory is exactly what opening the disk
   would rebuild (up to the order of segments), every later WAL is still empty, and every checkpoint is servable.
   */
  ghost predicate Inv(e: Engine) {
    && e.disk.current == Some(e.manifest) && ManifestOk(e.manifest) && Held(e.disk, e.manifest)
    && multiset(e.segments) == multiset(e.manifest.segments)
    && e.wal == e.manifest.walStart
    && Replay(e.disk.wals[e.wal], e.manifest.durable) == Some(e.memtable)
    && e.nextSequence == e.memtable.maximum + 1
    && (forall s :: s in e.disk.wals && s > e.wal ==> e.disk.wals[s] == [])
    && (forall name :: name in e.disk.checkpoints ==>
          Held(e.disk, e.disk.checkpoints[name].manifest) && ManifestOk(e.disk.checkpoints[name].manifest))
  }

  lemma InvMemory(e: Engine)
    requires Inv(e)
    ensures TableOk(e.memtable.versions, e.manifest.durable + 1, e.Head()) && e.manifest.durable <= e.Head()
    ensures HasVersions(e.memtable.versions) <==> e.Head() > e.manifest.durable
    ensures SegmentsOk(e.segments, e.manifest.durable) && SegmentsOk(e.manifest.segments, e.manifest.durable)
    ensures e.manifest.generation >= 1 && e.wal == e.manifest.durable + 1
  {
    hide Replay;
    hide SegmentsOk;
    ReplayOk(e.disk.wals[e.wal], e.manifest.durable);
    SegmentsOkUnderPermutation(e.manifest.segments, e.segments, e.manifest.durable);
  }

  lemma InvVisible(e: Engine, k: Bytes)
    requires Inv(e)
    ensures Coherent(Visible(e, k)) && Coherent(SegmentPool(e.segments, k))
    ensures forall v :: v in Visible(e, k) ==> v.sequence <= e.Head()
    ensures forall v :: v in SegmentPool(e.segments, k) ==> 1 <= v.sequence <= e.manifest.durable
    ensures forall v :: v in Lookup(e.memtable.versions, k) ==> v.sequence > e.manifest.durable
  {
    InvMemory(e);
    PoolOk(e.segments, e.manifest.durable, k);
    OverCoherent(e.memtable.versions, k, SegmentPool(e.segments, k), e.manifest.durable + 1, e.Head());
  }

  /** An empty memtable means an empty WAL. */
  lemma IdleWal(e: Engine)
    requires Inv(e) && e.Head() == e.manifest.durable
    ensures e.memtable == Memtable(map[], e.manifest.durable) && e.disk.wals[e.wal] == []
  {
    hide ManifestOk;
    var frames := e.disk.wals[e.wal];
    if frames != [] {
      ReplayGrows(frames, e.manifest.durable);
    }
  }

  lemma ReplayGrows(records: seq<Record>, durable: nat)
    requires Replay(records, durable).Some? && records != []
    ensures Replay(records, durable).value.maximum > durable
  {
    hide DecodeBatch;
    ReplayOk(records[..|records| - 1], durable);
  }

  lemma CreatedOk()
    ensures Inv(Created()) && Created().Head() == 0
    ensures forall k, s :: Read(Created(), k, s) == None
  {
    forall k ensures Visible(Created(), k) == {} {
    }
  }

  /** Opening the disk at any moment succeeds and shows exactly what was open before. */
  lemma OpenOk(e: Engine)
    requires Inv(e)
    ensures Open(e.disk).Ok? && Inv(Open(e.disk).value)
    ensures Open(e.disk).value.memtable == e.memtable
    ensures forall k :: Visible(Open(e.disk).value, k) == Visible(e, k)
  {
    var m := e.manifest;
    assert forall i :: 0 <= i < |m.segments| ==> m.segments[i] in m.segments;
    forall k ensures SegmentPool(m.segments, k) == SegmentPool(e.segments, k) {
      PermutationPool(m.segments, e.segments, k);
    }
  }

  // ---- Write ----

  lemma AppendKeepsInv(e: Engine, frames: seq<Record>, m: Memtable)
    requires Inv(e) && Replay(frames, e.manifest.durable) == Some(m)
    ensures Inv(e.(disk := e.disk.(wals := e.disk.wals[e.wal := frames]), memtable := m, nextSequence := m.maximum + 1))
  {
    hide Replay;
    hide ManifestOk;
  }

  lemma InvWal(e: Engine)
    requires Inv(e)
    ensures e.wal in e.disk.wals && Replay(e.disk.wals[e.wal], e.manifest.durable) == Some(e.memtable)
    ensures e.nextSequence == e.memtable.maximum + 1
    ensures e.disk.current == Some(e.manifest) && e.manifest in e.disk.manifests && e.wal == e.manifest.walStart
  {
    hide Replay;
    hide ManifestOk;
  }

  lemma WriteOk(e: Engine, batch: WriteBatch)
    requires Inv(e)
    ensures var (e', outcome) := Write(e, batch);
            && Inv(e')
            && (outcome == Done <==> Encodable(batch))
            && (outcome != Done ==> e' == e)
            && (outcome == Done ==> e'.Head() == e.Head() + |batch|)
            && (outcome == Done ==> e'.manifest == e.manifest && e'.segments == e.segments)
            && (outcome == Done ==> e'.memtable.versions == ApplyOperations(e.memtable.versions, batch, e.Head() + 1))
  {
    hide Inv;
    hide Replay;
    hide ApplyOperations;
    hide Encoding;
    hide Encodable;
    if Encodable(batch) {
      InvWal(e);
      ReplayExtends(e.disk.wals[e.wal], e.manifest.durable, e.memtable, batch);
      AppendKeepsInv(e, e.disk.wals[e.wal] + [Frame(e.memtable, batch)],
                     Memtable(ApplyOperations(e.memtable.versions, batch, e.Head() + 1), e.Head() + |batch|));
    }
  }

  // ---- Flush ----

  /** The memtable becomes one more segment without any version appearing or disappearing. */
  lemma FlushedPool(t: Table, maximum: nat, ds: seq<Descriptor>, k: Bytes)
    ensures SegmentPool(ds + [Descriptor(Segment(t, maximum), 0)], k) == Over(t, k, SegmentPool(ds, k))
    ensures Over(map[], k, SegmentPool(ds, k)) == SegmentPool(ds, k)
  {
    var d := Descriptor(Segment(t, maximum), 0);
    var all := ds + [d];
    forall v | v in Over(t, k, SegmentPool(ds, k)) ensures v in SegmentPool(all, k) {
      if v in Lookup(t, k) {
        assert v in Lookup(all[|ds|].segment.table, k);
      } else {
        var i :| 0 <= i < |ds| && v in Lookup(ds[i].segment.table, k);
        assert v in Lookup(all[i].segment.table, k);
      }
    }
    forall v | v in SegmentPool(all, k) ensures v in Over(t, k, SegmentPool(ds, k)) {
      var i :| 0 <= i < |all| && v in Lookup(all[i].segment.table, k);
      if i < |ds| { assert v in Lookup(ds[i].segment.table, k); }
    }
  }

  lemma FlushedSegmentsOk(ds: seq<Descriptor>, durable: nat, t: Table, head: nat)
    requires SegmentsOk(ds, durable) && TableOk(t, durable + 1, head) && HasVersions(t) && durable <= head
    ensures SegmentsOk(ds + [Descriptor(Segment(t, head), 0)], head)
  {
    var d := Descriptor(Segment(t, head), 0);
    var all := ds + [d];
    assert SegmentOk(d.segment, head);
    forall x | x in all ensures SegmentOk(x.segment, head) {
      if x != d { assert x in ds; assert SegmentOk(x.segment, durable); }
    }
    forall x | x in ds ensures x.segment != d.segment && Disjoint(x.segment.table, t) && Disjoint(t, x.segment.table) {
      assert SegmentOk(x.segment, durable);
      OlderTablesDisjoint(x.segment.table, t, durable, head, x.segment.maximum);
    }
    forall x, y | x in all && y in all && x.segment != y.segment ensures Disjoint(x.segment.table, y.segment.table) {
      assert x == d || x in ds;
      assert y == d || y in ds;
    }
    forall i, j | 0 <= i < j < |all| ensures all[i].segment != all[j].segment {
      assert all[i] in ds;
      if j < |ds| { assert all[i] == ds[i] && all[j] == ds[j]; }
    }
  }

  lemma OlderTablesDisjoint(a: Table, b: Table, durable: nat, head: nat, maximum: nat)
    requires TableOk(a, 1, maximum) && maximum <= durable && TableOk(b, durable + 1, head) && a != map[]
    ensures Disjoint(a, b) && Disjoint(b, a) && a != b
  {
    var k :| k in a;
    assert a[k][0] in a[k];
  }

  /** A disk that only gained segment files and empty later WALs. */
  ghost predicate Gained(disk: Disk, disk': Disk) {
    && disk'.current == disk.current && disk'.manifests == disk.manifests && disk'.checkpoints == disk.checkpoints
    && disk.segments <= disk'.segments && disk.wals.Keys <= disk'.wals.Keys
    && (forall s :: s in disk.wals ==> disk'.wals[s] == disk.wals[s])
    && (forall s :: s in disk'.wals && s !in disk.wals ==> disk'.wals[s] == [])
  }

  lemma GainedKeepsInv(e: Engine, disk: Disk)
    requires Inv(e) && Gained(e.disk, disk)
    ensures Inv(e.(disk := disk))
  {
    hide Replay;
    hide ManifestOk;
  }

  /** No WAL past the current one holds data, so continuing at any later sequence is never refused. */
  lemma SuccessorOk(e: Engine, segments: set<Segment>, next: nat)
    requires Inv(e) && next > e.wal && e.disk.segments <= segments
    ensures var successor := Successor(e.disk.(segments := segments), next);
            && successor.Ok? && successor.value.current == e.disk.current &&
               successor.value.manifests == e.disk.manifests
            && Gained(e.disk, successor.value) && Gained(e.disk, e.disk.(segments := segments))
            && successor.value.segments == segments
            && next in successor.value.wals && successor.value.wals[next] == []
  {
    hide Replay;
    hide ManifestOk;
  }

  /** The image a publication installs: a manifest over segments on disk and an empty continuation WAL. */
  function Published(disk: Disk, m: Manifest, ds: seq<Descriptor>): Engine {
    Engine(disk.(manifests := disk.manifests + {m}, current := Some(m)), m, Memtable(map[], m.durable),
           m.durable + 1, m.durable + 1, ds)
  }

  lemma PublishedInv(e: Engine, disk: Disk, m: Manifest, ds: seq<Descriptor>)
    requires Inv(e) && Gained(e.disk, disk) && ManifestOk(m) && multiset(m.segments) == multiset(ds)
    requires forall d :: d in ds ==> d.segment in disk.segments
    requires m.durable + 1 >= e.wal && m.durable + 1 in disk.wals && disk.wals[m.durable + 1] == []
    ensures Inv(Published(disk, m, ds))
  {
    hide SegmentsOk;
    var e' := Published(disk, m, ds);
    forall d | d in m.segments ensures d.segment in disk.segments {
      assert d in multiset(ds);
    }
    assert Replay(disk.wals[m.durable + 1], m.durable) == Some(e'.memtable);
  }

  lemma FlushOk(e: Engine, at: nat, failure: Option<FlushBoundary>)
    requires Inv(e)
    ensures var (e', outcome) := Flush(e, at, failure);
            && Inv(e') && e'.Head() == e.Head()
            && (outcome == Done || (outcome == Refused(Injected) && failure.Some?))
            && (outcome == Done ==> e'.manifest.durable == e'.Head())
            && forall k :: Visible(e', k) == Visible(e, k)
  {
    hide Replay;
    hide SegmentsOk;
    hide TableOk;
    hide SegmentPool;
    hide Over;
    hide NewManifest;
    hide Publish;
    hide Successor;
    hide HasVersions;
    hide Inv;
    hide Gained;
    InvMemory(e);
    InvWal(e);
    if HasVersions(e.memtable.versions) {
      var head := e.Head();
      var d := Descriptor(Segment(e.memtable.versions, head), 0);
      SuccessorOk(e, e.disk.segments + {d.segment}, head + 1);
      var disk1 := e.disk.(segments := e.disk.segments + {d.segment});
      var disk2 := Successor(disk1, head + 1).value;
      GainedKeepsInv(e, disk1);
      GainedKeepsInv(e, disk2);
      FlushedSegmentsOk(e.manifest.segments, e.manifest.durable, e.memtable.versions, head);
      PublicationSucceeds(disk2, e.manifest, at, head, e.manifest.segments + [d]);
      var m := NewManifest(e.manifest.generation + 1, Some(e.manifest), at, head, head + 1,
                           e.manifest.segments + [d]).value;
      FlushedInv(e, disk2, m, d);
      forall k ensures Over(map[], k, SegmentPool(e.segments + [d], k)) == Visible(e, k) {
        FlushedPool(e.memtable.versions, head, e.segments, k);
        FlushedPool(e.memtable.versions, head, e.segments + [d], k);
      }
    }
  }

  lemma FlushedInv(e: Engine, disk: Disk, m: Manifest, d: Descriptor)
    requires Inv(e) && Gained(e.disk, disk) && ManifestOk(m)
    requires multiset(m.segments) == multiset(e.manifest.segments + [d])
    requires d.segment in disk.segments && m.durable + 1 > e.wal && m.durable + 1 in disk.wals
    requires disk.wals[m.durable + 1] == []
    ensures Inv(Published(disk, m, e.segments + [d]))
  {
    hide Replay;
    hide ManifestOk;
    var ds := e.segments + [d];
    assert multiset(ds) == multiset(e.segments) + multiset{d} == multiset(e.manifest.segments) + multiset{d};
    assert multiset(e.manifest.segments + [d]) == multiset(e.manifest.segments) + multiset{d};
    forall x | x in ds ensures x.segment in disk.segments {
      if x != d { assert x in multiset(e.segments); assert x in e.manifest.segments; }
    }
    PublishedInv(e, disk, m, ds);
  }
}
