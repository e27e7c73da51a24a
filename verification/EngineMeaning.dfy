/** What the steps of the store mean, spelt out (crates/vyrm-kv/src/batch.rs, database.rs, manifest.rs). */
module EngineMeaning {
  import opened Common
  import opened Batch
  import opened Versions
  import opened Engine
  import opened EngineInvariant
  import opened EngineRuns

  // ---- Batches ----

  /** The bytes of a batch of one write and one deletion. */
  lemma TwoOperationBytes()
    ensures Encoding([Put([107], [1, 2]), Delete([100])]) ==
            [86, 89, 82, 66, 65, 84, 48, 49, 0, 1, 0, 0, 0, 0, 0, 2]
            + [1, 0, 0, 0, 0, 0, 0, 1, 0, 0, 0, 2, 107, 1, 2] + [2, 0, 0, 0, 0, 0, 0, 1, 0, 0, 0, 0, 100]
  {
    var b := [Put([107], [1, 2]), Delete([100])];
    PutBytes();
    DeleteBytes();
    HeaderBytes();
    hide OperationBytes;
    hide Header;
    TwoOperations(b[0], b[1]);
    assert b == [b[0], b[1]];
    hide OperationsBytes;
  }

  lemma HeaderBytes()
    ensures Header(2) == [86, 89, 82, 66, 65, 84, 48, 49, 0, 1, 0, 0, 0, 0, 0, 2]
  {
    FourByteNumbers();
    hide BigEndian;
  }

  lemma PutBytes()
    ensures OperationBytes(Put([107], [1, 2])) == [1, 0, 0, 0, 0, 0, 0, 1, 0, 0, 0, 2, 107, 1, 2]
  {
    FourByteNumbers();
    hide BigEndian;
  }

  lemma DeleteBytes()
    ensures OperationBytes(Delete([100])) == [2, 0, 0, 0, 0, 0, 0, 1, 0, 0, 0, 0, 100]
  {
    FourByteNumbers();
    hide BigEndian;
  }

  lemma TwoOperations(a: Mutation, c: Mutation)
    ensures OperationsBytes([a, c]) == OperationBytes(a) + OperationBytes(c)
  {
    hide OperationBytes;
    var b := [a, c];
    NoOperations();
    OperationsBytesNext(b, 0);
    OperationsBytesNext(b, 1);
    hide OperationsBytes;
    assert b[..0] == [] && b[..2] == b;
    assert OperationsBytes(b[..1]) == OperationBytes(a);
  }

  lemma NoOperations()
    ensures OperationsBytes([]) == []
  {
  }

  lemma FourByteNumbers()
    ensures BigEndian(0, 4) == [0, 0, 0, 0] && BigEndian(1, 4) == [0, 0, 0, 1] && BigEndian(2, 4) == [0, 0, 0, 2]
    ensures BigEndian(1, 2) == [0, 1]
  {
  }

  /** What an operation leaves under its key. */
  function Left(m: Mutation): Option<Bytes> {
    match m
    case Put(_, value) => Some(value)
    case Delete(_) => None
  }

  /**
   After a batch the last operation on a key decides what the head reads there; a key it does not name is as before.
   */
  lemma LastOperationWins(e: Engine, batch: WriteBatch, k: Bytes, i: nat)
    requires Inv(e) && Encodable(batch) && i <= |batch|
    requires i > 0 ==> batch[i - 1].key == k
    requires forall j :: i <= j < |batch| ==> batch[j].key != k
    ensures Read(Write(e, batch).0, k, e.Head() + |batch|) == if i > 0 then Left(batch[i - 1]) else Read(e, k, e.Head())
  {
    hide Write;
    hide Inv;
    hide Read;
    hide Encodable;
    var m: Store := match Read(e, k, e.Head()) case None => map[] case Some(v) => map[k := v];
    WriteReads(e, batch, m, k, 0);
    AppliedLast(m, batch, k, i);
  }

  lemma {:induction false} AppliedLast(m: Store, batch: WriteBatch, k: Bytes, i: nat)
    requires i <= |batch|
    requires i > 0 ==> batch[i - 1].key == k
    requires forall j :: i <= j < |batch| ==> batch[j].key != k
    ensures StoreGet(ApplyToStore(m, batch), k) == if i > 0 then Left(batch[i - 1]) else StoreGet(m, k)
    decreases |batch|
  {
    if batch != [] {
      ApplyToStoreLast(m, batch, k);
      if i < |batch| { AppliedLast(m, batch[..|batch| - 1], k, i); }
    }
  }

  // ---- Manifests ----

  /** Some version is in the segment, all are numbered from one, and one is within its maximum. */
  ghost predicate Populated(s: Segment) {
    && (exists k :: k in s.table && |s.table[k]| > 0)
    && (forall k, v :: k in s.table && v in s.table[k] ==> v.sequence > 0)
    && (exists k, v :: k in s.table && v in s.table[k] && v.sequence <= s.maximum)
  }

  /**
   A manifest is published if and only if CURRENT is the expected one and still there, the manifest is the next in its
   chain, and its segments are populated, distinct and within its durable sequence, which its WAL does not skip. Then
   CURRENT names it and nothing else changes.
   */
  lemma PublicationIff(disk: Disk, m: Manifest, expected: Option<Manifest>)
    ensures Publish(disk, m, expected).Ok? <==>
            && disk.current == expected && (disk.current.Some? ==> disk.current.value in disk.manifests)
            && m.parent == disk.current
            && m.generation == (if disk.current.Some? then disk.current.value.generation + 1 else 1)
            && m.walStart <= m.durable + 1
            && (forall d :: d in m.segments ==> Populated(d.segment) && d.segment.maximum <= m.durable)
            && (forall i, j :: 0 <= i < j < |m.segments| ==> m.segments[i].segment != m.segments[j].segment)
            && (disk.current.Some? ==> m.generation > 1)
    ensures Publish(disk, m, expected).Ok? ==>
              Publish(disk, m, expected).value == disk.(current := Some(m), manifests := disk.manifests + {m})
  {
    forall d ensures DescriptorOk(d) <==> Populated(d.segment) { PopulatedIff(d); }
    hide DescriptorOk;
    hide Populated;
    assert (forall d :: d in m.segments ==> Populated(d.segment) && d.segment.maximum <= m.durable) <==>
           forall i :: 0 <= i < |m.segments| ==>
               Populated(m.segments[i].segment) && m.segments[i].segment.maximum <= m.durable;
  }

  lemma PopulatedIff(d: Descriptor)
    ensures DescriptorOk(d) <==> Populated(d.segment)
  {
    if HasVersions(d.segment.table) {
      var k :| k in d.segment.table && d.segment.table[k] != [];
      assert |d.segment.table[k]| > 0;
    }
    if k :| k in d.segment.table && |d.segment.table[k]| > 0 {
      assert d.segment.table[k] != [];
    }
  }

  // ---- Installing ----

  /** The manifest of an install that has advanced. */
  lemma InstalledManifest(e: Engine, bundle: Manifest, at: nat)
    requires BundleOk(bundle) && bundle.durable > e.Head() && Install(e, bundle, at, None).1 == Done
    ensures var m := Install(e, bundle, at, None).0.manifest;
            && m.segments == SortByLevel(bundle.segments) && m.durable == bundle.durable
            && m.generation == e.manifest.generation + 1 && m.parent == Some(e.manifest)
            && m.createdAt >= at && m.createdAt >= e.manifest.createdAt && m.createdAt >= bundle.createdAt
            && (m.createdAt == at || m.createdAt == e.manifest.createdAt || m.createdAt == bundle.createdAt)
  {
    hide Publish;
    hide Successor;
    hide ValidComponents;
    hide SortByLevel;
  }

  /**
   What an install of a well-formed bundle answers without an injected failure: it advances, finds nothing to do, or is
   refused because the node is ahead, or level with other segments.
   */
  lemma InstallOutcome(e: Engine, bundle: Manifest, at: nat)
    requires Inv(e) && ManifestOk(bundle)
    ensures var (e', outcome) := Install(e, bundle, at, None);
            if bundle.durable > e.Head() then
              && outcome == Done && e'.manifest.durable == bundle.durable && Descends(e'.manifest, e.manifest, 1)
              && multiset(e'.manifest.segments) == multiset(bundle.segments)
            else
              && e' == e
              && (outcome == Done <==> bundle.durable == e.Head() && bundle.segments == e.manifest.segments)
              && (outcome != Done ==> outcome == Refused(InvalidManifest))
  {
    hide Inv;
    if bundle.durable > e.Head() {
      InstallOk(e, bundle, at, None);
      assert BundleOk(bundle) by { ManifestBundles(bundle); }
      hide Install;
      hide ManifestOk;
      hide BundleOk;
      hide Visible;
      InstalledManifest(e, bundle, at);
      var m := Install(e, bundle, at, None).0.manifest;
      assert Descends(m.parent.value, e.manifest, 0);
    } else {
      ManifestBundles(bundle);
      hide ManifestOk;
      hide BundleOk;
    }
  }

  lemma ManifestBundles(m: Manifest)
    requires ManifestOk(m)
    ensures BundleOk(m)
  {
    hide ValidComponents;
    hide SegmentsOk;
  }

  // ---- Collection ----

  /**
   Collection keeps a file exactly when CURRENT or a checkpoint needs it: its manifest, the segments the manifest lists,
   and the WAL that continues it.
   */
  lemma CollectKeepsIff(e: Engine, m: Manifest, s: Segment, start: nat)
    requires Inv(e)
    ensures var disk := Collect(e).0.disk;
            && (m in disk.manifests <==> Needed(e, m))
            && (s in disk.segments <==>
                exists n, i :: Needed(e, n) && 0 <= i < |n.segments| && n.segments[i].segment == s)
            && (start in disk.wals <==> exists n :: Needed(e, n) && n.walStart == start)
            && (start in disk.wals ==> start in e.disk.wals && disk.wals[start] == e.disk.wals[start])
            && disk.current == e.disk.current && disk.checkpoints == e.disk.checkpoints
  {
    CollectedWals(e, start);
    CollectOk(e);
    forall n ensures n in Roots(e) <==> Needed(e, n) { NeededIff(e, n); }
    hide Inv;
    hide Roots;
    hide Needed;
    hide Collect;
    hide Visible;
  }

  lemma NeededIff(e: Engine, m: Manifest)
    ensures m in Roots(e) <==> Needed(e, m)
  {
  }

  lemma CollectedWals(e: Engine, start: nat)
    ensures var disk := Collect(e).0.disk;
            && (start in disk.wals ==> start in e.disk.wals && disk.wals[start] == e.disk.wals[start])
            && disk.current == e.disk.current && disk.checkpoints == e.disk.checkpoints
  {
    hide Roots;
    hide Named;
  }

  ghost predicate Needed(e: Engine, m: Manifest) {
    m == e.manifest || exists name :: name in e.disk.checkpoints && e.disk.checkpoints[name].manifest == m
  }

  // ---- Checkpoints ----

  /** Pinning names the current manifest; pinning again is accepted only as the same checkpoint, and changes nothing. */
  lemma PinOutcome(e: Engine, name: string, at: nat)
    requires Inv(e)
    ensures var (e', outcome) := Pin(e, name, at);
            if name in e.disk.checkpoints then
              && e' == e
              && (outcome == Done <==>
                  e.disk.checkpoints[name].manifest == e.manifest && e.disk.checkpoints[name].createdAt == at)
            else
              && outcome == Done && e'.disk.checkpoints == e.disk.checkpoints[name := Checkpoint(e.manifest, at)]
              && e'.disk.(checkpoints := e.disk.checkpoints) == e.disk && e'.(disk := e.disk) == e
  {
    InvWal(e);
    hide Inv;
  }

  /** Releasing removes that checkpoint, and nothing else changes. */
  lemma ReleaseOutcome(e: Engine, name: string, other: string)
    ensures var e' := Release(e, name);
            && name !in e'.disk.checkpoints &&
               (other != name ==> (other in e'.disk.checkpoints <==> other in e.disk.checkpoints))
            && (other in e'.disk.checkpoints ==> e'.disk.checkpoints[other] == e.disk.checkpoints[other])
            && e'.disk.(checkpoints := e.disk.checkpoints) == e.disk && e'.(disk := e.disk) == e
  {
  }
}
