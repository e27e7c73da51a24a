/**
 Whole runs of the engine: every interleaving of writes, flushes, compactions, snapshot installs, checkpoints,
 garbage collections and reopenings, with a failure injected at any named boundary.
 */
module EngineRuns {
  import opened Common
  import opened Batch
  import opened Versions
  import opened Engine
  import opened EngineInvariant
  import opened Compaction

  // ---- Snapshot transfer ----

  /** Exporting flushes, so the manifest handed out carries every visible version. */
  lemma ExportOk(e: Engine, at: nat)
    requires Inv(e)
    ensures var (e', outcome, bundle) := Export(e, at);
            && outcome == Done && Inv(e') && ManifestOk(bundle) && BundleOk(bundle) && bundle.durable == e.Head()
            && forall k :: SegmentPool(bundle.segments, k) == Visible(e, k)
  {
    hide Flush;
    hide SegmentPool;
    hide Replay;
    hide SegmentsOk;
    FlushOk(e, at, None);
    var (e', _, bundle) := Export(e, at);
    IdleWal(e');
    forall k ensures SegmentPool(bundle.segments, k) == Visible(e', k) {
      PermutationPool(bundle.segments, e'.segments, k);
      FlushedPool(map[], 0, e'.segments, k);
    }
  }

  /** A failure before publication leaves the old image, anything later shows the bundle's. */
  predicate ShowsBundle(failure: Option<InstallBoundary>) {
    failure.None? || failure.value == InstallPublished
  }

  /** The disks and the manifest an advancing install goes through. */
  lemma InstallPath(e: Engine, bundle: Manifest, at: nat, failure: Option<InstallBoundary>)
      returns (disk1: Disk, disk2: Disk, m: Manifest)
    requires Inv(e) && ManifestOk(bundle) && bundle.durable > e.Head()
    ensures Inv(e.(disk := disk1)) && Inv(e.(disk := disk2)) && Inv(Published(disk2, m, bundle.segments)) &&
            m.durable == bundle.durable
    ensures Install(e, bundle, at, failure) ==
            match failure
            case None => (Published(disk2, m, bundle.segments), Done)
            case Some(InstallSegmentsSynced) => (e.(disk := disk1), Refused(Injected))
            case Some(InstallSuccessorSynced) => (e.(disk := disk2), Refused(Injected))
            case Some(InstallPublished) => (Published(disk2, m, bundle.segments), Refused(Injected))
  {
    hide Inv;
    hide SegmentsOk;
    hide NewManifest;
    hide Publish;
    hide Successor;
    hide Gained;
    hide ValidComponents;
    hide TableOk;
    hide HasVersions;
    hide Replay;
    hide Held;
    InvMemory(e);
    InvWal(e);
    var files := e.disk.segments + set i | 0 <= i < |bundle.segments| :: bundle.segments[i].segment;
    SuccessorOk(e, files, bundle.durable + 1);
    disk1 := e.disk.(segments := files);
    disk2 := Successor(disk1, bundle.durable + 1).value;
    GainedKeepsInv(e, disk1);
    GainedKeepsInv(e, disk2);
    var created := if at >= e.manifest.createdAt then at else e.manifest.createdAt;
    var created' := if created >= bundle.createdAt then created else bundle.createdAt;
    PublicationSucceeds(disk2, e.manifest, created', bundle.durable, bundle.segments);
    m := NewManifest(e.manifest.generation + 1, Some(e.manifest), created', bundle.durable, bundle.durable + 1,
                     bundle.segments).value;
    PublishedInv(e, disk2, m, bundle.segments);
  }

  lemma InstallOk(e: Engine, bundle: Manifest, at: nat, failure: Option<InstallBoundary>)
    requires Inv(e) && ManifestOk(bundle)
    ensures var (e', outcome) := Install(e, bundle, at, failure);
            && Inv(e')
            && (bundle.durable <= e.Head() ==> e' == e && outcome != Refused(Injected))
            && (bundle.durable > e.Head() ==> outcome == if failure.None? then Done else Refused(Injected))
            && (bundle.durable > e.Head() && !ShowsBundle(failure) ==>
                  e'.Head() == e.Head() && forall k :: Visible(e', k) == Visible(e, k))
            && (bundle.durable > e.Head() && ShowsBundle(failure) ==>
                  e'.Head() == bundle.durable && forall k :: Visible(e', k) == SegmentPool(bundle.segments, k))
  {
    hide Inv;
    hide ManifestOk;
    hide SegmentPool;
    hide Over;
    if bundle.durable > e.Head() {
      hide Install;
      var disk1, disk2, m := InstallPath(e, bundle, at, failure);
      forall k ensures Over(map[], k, SegmentPool(bundle.segments, k)) == SegmentPool(bundle.segments, k) {
        FlushedPool(map[], 0, bundle.segments, k);
      }
    }
  }

  /**
   Shipping a snapshot to a node that is behind: after a reopen, every read at every snapshot agrees with the
   source, or, when the failure came before publication, with the target's old image.
   */
  lemma TransferAgrees(source: Engine, target: Engine, at: nat, installedAt: nat, failure: Option<InstallBoundary>)
    requires Inv(source) && Inv(target) && source.Head() > target.Head()
    ensures var bundle := Export(source, at).2;
            var reopened := Open(Install(target, bundle, installedAt, failure).0.disk);
            && reopened.Ok? && Inv(reopened.value)
            && forall k, s :: Read(reopened.value, k, s) == Read(if ShowsBundle(failure) then source else target, k, s)
  {
    hide Inv;
    hide Visible;
    hide ManifestOk;
    hide Install;
    hide Export;
    hide Open;
    ExportOk(source, at);
    var bundle := Export(source, at).2;
    InstallOk(target, bundle, installedAt, failure);
    OpenOk(Install(target, bundle, installedAt, failure).0);
  }

  /**
   Installing at an equal sequence is accepted without looking at the memtable. The versions it leaves agree
   with the bundle's exactly when nothing is waiting in memory.
   */
  lemma InstallAtEqualSequence(e: Engine, bundle: Manifest, at: nat)
    requires Inv(e) && ManifestOk(bundle)
    requires bundle.durable == e.Head() && bundle.segments == e.manifest.segments
    ensures Install(e, bundle, at, None) == (e, Done)
    ensures (forall k, s :: NewestIn(Visible(e, k), s) == NewestIn(SegmentPool(bundle.segments, k), s))
            <==> e.manifest.durable == e.Head()
  {
    InvMemory(e);
    forall k ensures SegmentPool(e.segments, k) == SegmentPool(bundle.segments, k) {
      PermutationPool(e.segments, bundle.segments, k);
    }
    if e.manifest.durable == e.Head() {
      IdleWal(e);
      forall k ensures Visible(e, k) == SegmentPool(bundle.segments, k) {
        FlushedPool(map[], 0, e.segments, k);
      }
    } else {
      PendingVersionShows(e);
    }
  }

  lemma PendingVersionShows(e: Engine)
    requires Inv(e) && e.manifest.durable < e.Head()
    ensures exists k, s :: NewestIn(Visible(e, k), s) != NewestIn(SegmentPool(e.segments, k), s)
  {
    InvMemory(e);
    var k :| k in e.memtable.versions && e.memtable.versions[k] != [];
    var v := e.memtable.versions[k][0];
    InvVisible(e, k);
    assert v in Visible(e, k);
    assert NewestIn(Visible(e, k), v.sequence) == Some(v);
  }

  /**
   A node holding one unflushed write "installs" the snapshot of a source whose store is empty, and keeps its write.
   */
  lemma InstallAtEqualSequenceDiffers()
    ensures var source := Compact(Write(Created(), [Delete([7])]).0, {}, 0, None).0;
            var target := Write(Created(), [Put([7], [1])]).0;
            && Inv(source) && Inv(target)
            && Install(target, source.manifest, 0, None) == (target, Done)
            && Read(source, [7], 1) == None && Read(target, [7], 1) == Some([1])
  {
    hide Inv;
    hide Flush;
    hide Compact;
    hide Encodable;
    var deletion, put: WriteBatch := [Delete([7])], [Put([7], [1])];
    CreatedOk();
    SmallEncodable(deletion);
    SmallEncodable(put);
    WriteOk(Created(), deletion);
    WriteOk(Created(), put);
    var written, target := Write(Created(), deletion).0, Write(Created(), put).0;
    assert written.memtable.versions == map[[7] := [Version(1, None)]] by { SingleOperation(deletion); }
    assert target.memtable.versions == map[[7] := [Version(1, Some([1]))]] by { SingleOperation(put); }
    CompactOk(written, {}, 0, None);
    var source := Compact(written, {}, 0, None).0;
    EmptySource(written);
    assert Visible(target, [7]) == {Version(1, Some([1]))};
    assert NewestIn(Visible(target, [7]), 1) == Some(Version(1, Some([1])));
  }

  lemma SmallEncodable(b: WriteBatch)
    requires |b| == 1 && |b[0].key| == 1 && (b[0].Put? ==> |b[0].value| == 1)
    ensures Encodable(b)
  {
    hide OperationBytes;
    OperationsBytesHead(b);
    assert OperationsBytes(b[1..]) == [];
    assert |OperationBytes(b[0])| <= 14 by { OperationLength(b[0]); }
    HeaderShape(1);
  }

  lemma OperationLength(m: Mutation)
    ensures |OperationBytes(m)| == 12 + |m.key| + |Payload(m)|
  {
  }

  lemma SingleOperation(ops: WriteBatch)
    requires |ops| == 1
    ensures ApplyOperations(map[], ops, 1) == map[ops[0].key := [Version(1, Written(ops[0]))]]
  {
    assert ops[..0] == [];
    var v := Version(1, Written(ops[0]));
    assert Lookup(map[], ops[0].key) + [v] == [v];
  }

  lemma TombstonesVanish(pool: set<Version>, protected: set<nat>)
    requires forall v :: v in pool ==> v.value.None?
    ensures Survivors(pool, protected) == {}
  {
  }

  lemma SegmentShows(e: Engine) returns (k: Bytes)
    requires SegmentsOk(e.segments, e.manifest.durable) && e.segments != []
    ensures Visible(e, k) != {}
  {
    var s := e.segments[0].segment;
    assert e.segments[0] in e.segments;
    assert SegmentOk(s, e.manifest.durable);
    k :| k in s.table;
    assert s.table[k][0] in Lookup(e.segments[0].segment.table, k);
    assert s.table[k][0] in Visible(e, k);
  }

  lemma PendingShows(e: Engine) returns (k: Bytes)
    requires Inv(e) && e.manifest.durable < e.Head()
    ensures Visible(e, k) != {}
  {
    InvMemory(e);
    k :| k in e.memtable.versions && e.memtable.versions[k] != [];
    assert e.memtable.versions[k][0] in Visible(e, k);
  }

  /** A store holding one tombstone compacts to no segment at all. */
  lemma EmptySource(written: Engine)
    requires Inv(written) && written.Head() == 1 && written.segments == []
    requires written.memtable.versions == map[[7] := [Version(1, None)]]
    ensures var source := Compact(written, {}, 0, None).0;
            && Inv(source) && ManifestOk(source.manifest) && source.manifest.durable == 1 &&
               source.manifest.segments == []
            && Read(source, [7], 1) == None
  {
    hide Flush;
    hide CompactedSegments;
    hide Retained;
    hide NewestIn;
    hide Replay;
    hide Inv;
    hide Survivors;
    hide ManifestOk;
    FlushOk(written, 0, None);
    CompactState(written, {}, 0, None);
    var flushed, source := Flush(written, 0, None).0, Compact(written, {}, 0, None).0;
    assert flushed.segments != [] by {
      IdleWal(flushed);
      assert Version(1, None) in Visible(written, [7]);
    }
    CompactFlushed(written, {}, 0, None);
    forall k ensures Visible(source, k) == {} {
      TombstonesVanish(Visible(flushed, k), ProtectedSequences({}, 1));
    }
    hide Visible;
    EmptyEngine(source);
  }

  lemma EmptyEngine(e: Engine)
    requires Inv(e) && forall k :: Visible(e, k) == {}
    ensures ManifestOk(e.manifest) && e.manifest.durable == e.Head() && e.manifest.segments == []
  {
    hide Visible;
    hide Replay;
    InvMemory(e);
    if e.segments != [] {
      var k := SegmentShows(e);
    }
    if e.manifest.durable < e.Head() {
      var k := PendingShows(e);
    }
    assert |e.manifest.segments| == |multiset(e.manifest.segments)| == |multiset(e.segments)| == |e.segments|;
  }

  // ---- Garbage collection ----

  /** Collection keeps CURRENT and every checkpoint servable, keeps nothing else, and changes no read. */
  lemma CollectOk(e: Engine)
    requires Inv(e)
    ensures var (e', outcome) := Collect(e);
            && outcome == Done && Inv(e') && e'.Head() == e.Head()
            && (forall k :: Visible(e', k) == Visible(e, k))
            && e'.disk.checkpoints == e.disk.checkpoints
            && e'.disk.manifests == Roots(e) && e'.disk.segments == Named(Roots(e))
            && e'.disk.wals.Keys == set m | m in Roots(e) :: m.walStart
  {
    hide Replay;
    hide ManifestOk;
    hide SegmentPool;
    var (e', outcome) := Collect(e);
    forall m | m in Roots(e) ensures Held(e.disk, m) && Held(e'.disk, m) {
      forall d | d in m.segments ensures d.segment in Named(Roots(e)) {
        var i :| 0 <= i < |m.segments| && m.segments[i] == d;
      }
    }
    assert e.manifest in Roots(e);
    forall name | name in e.disk.checkpoints ensures e.disk.checkpoints[name].manifest in Roots(e) {
    }
    forall s | s in Named(Roots(e)) ensures s in e.disk.segments {
      var m, i :| m in Roots(e) && 0 <= i < |m.segments| && m.segments[i].segment == s;
      assert m.segments[i] in m.segments;
    }
  }

  // ---- Runs ----

  datatype Operation =
    | WriteOp(batch: WriteBatch)
    | FlushOp(at: nat, flushFailure: Option<FlushBoundary>)
    | CompactOp(snapshots: set<nat>, at: nat, compactFailure: Option<CompactionBoundary>)
    | InstallOp(bundle: Manifest, at: nat, installFailure: Option<InstallBoundary>)
    | CollectOp
    | PinOp(name: string, at: nat)
    | ReleaseOp(name: string)
    | ReopenOp

  ghost function Step(e: Engine, op: Operation): (Engine, Outcome) {
    match op
    case WriteOp(batch) => Write(e, batch)
    case FlushOp(at, failure) => Flush(e, at, failure)
    case CompactOp(snapshots, at, failure) => Compact(e, snapshots, at, failure)
    case InstallOp(bundle, at, failure) => Install(e, bundle, at, failure)
    case CollectOp => Collect(e)
    case PinOp(name, at) => Pin(e, name, at)
    case ReleaseOp(name) => (Release(e, name), Done)
    case ReopenOp => match Open(e.disk) case Ok(e') => (e', Done) case Err(error) => (e, Refused(error))
  }

  ghost function Run(e: Engine, ops: seq<Operation>): Engine {
    if ops == [] then e else Step(Run(e, ops[..|ops| - 1]), ops[|ops| - 1]).0
  }

  /** Bundles come from exports of well-formed databases. */
  ghost predicate Genuine(op: Operation) {
    op.InstallOp? ==> ManifestOk(op.bundle)
  }

  /** The only reasons for which a step is ever refused. */
  predicate ExpectedRefusal(e: Engine, op: Operation) {
    match op
    case WriteOp(batch) => !Encodable(batch)
    case FlushOp(_, failure) => failure.Some?
    case CompactOp(_, _, failure) => failure.Some?
    case InstallOp(bundle, _, failure) => failure.Some? || bundle.durable <= e.Head()
    case PinOp(name, at) => name in e.disk.checkpoints && e.disk.checkpoints[name] != Checkpoint(e.manifest, at)
    case _ => false
  }

  /** Every step keeps the invariant, and no internal consistency check ever fires. */
  lemma StepOk(e: Engine, op: Operation)
    requires Inv(e) && Genuine(op)
    ensures Inv(Step(e, op).0)
    ensures Step(e, op).1.Refused? ==> ExpectedRefusal(e, op)
    ensures Step(e, op).1 != Refused(SuccessorHasData) && Step(e, op).1 != Refused(ManifestConflict)
    ensures Step(e, op).1 != Refused(MissingFile) && Step(e, op).1 != Refused(InvalidSegment)
  {
    hide Write;
    hide Flush;
    hide Compact;
    hide Install;
    hide Collect;
    hide ManifestOk;
    hide Replay;
    match op
    case WriteOp(batch) => WriteRefusal(e, batch); WriteOk(e, batch);
    case FlushOp(at, failure) => FlushOk(e, at, failure);
    case CompactOp(snapshots, at, failure) => CompactState(e, snapshots, at, failure);
    case InstallOp(bundle, at, failure) => 
      InstallOk(e, bundle, at, failure);
      if bundle.durable <= e.Head() { InstallRefusal(e, bundle, at, failure); }
    case CollectOp => CollectOk(e);
    case PinOp(name, at) =>
    case ReleaseOp(name) =>
    case ReopenOp => hide Open; OpenOk(e);
  }

  lemma WriteRefusal(e: Engine, batch: WriteBatch)
    ensures Write(e, batch).1 == Done || Write(e, batch).1 == Refused(BadBatch)
  {
  }

  lemma InstallRefusal(e: Engine, bundle: Manifest, at: nat, failure: Option<InstallBoundary>)
    requires bundle.durable <= e.Head()
    ensures Install(e, bundle, at, failure).1 == Done || Install(e, bundle, at, failure).1 == Refused(InvalidManifest)
  {
  }

  lemma {:induction false} RunOk(e: Engine, ops: seq<Operation>)
    requires Inv(e) && forall i :: 0 <= i < |ops| ==> Genuine(ops[i])
    ensures Inv(Run(e, ops))
  {
    if ops != [] {
      RunOk(e, ops[..|ops| - 1]);
      StepOk(Run(e, ops[..|ops| - 1]), ops[|ops| - 1]);
    }
  }

  /** The abstract database: a head sequence and a plain map. */
  datatype Abstract = Abstract(sequence: nat, store: Store)

  /** The map a bundle carries: each key's newest value. */
  ghost function ImageStore(bundle: Manifest): Store {
    map k | k in Keys(bundle.segments) && ReadIn(SegmentPool(bundle.segments, k), bundle.durable).Some? ::
      ReadIn(SegmentPool(bundle.segments, k), bundle.durable).value
  }

  /** Accepted batches apply, an installed snapshot replaces everything, and nothing else is visible. */
  ghost function AbstractStep(a: Abstract, op: Operation): Abstract {
    match op
    case WriteOp(batch) =>
      if Encodable(batch) then Abstract(a.sequence + |batch|, ApplyToStore(a.store, batch)) else a
    case InstallOp(bundle, _, failure) =>
      if bundle.durable > a.sequence && ShowsBundle(failure) then Abstract(bundle.durable, ImageStore(bundle)) else a
    case _ => a
  }

  ghost function AbstractRun(a: Abstract, ops: seq<Operation>): Abstract {
    if ops == [] then a else AbstractStep(AbstractRun(a, ops[..|ops| - 1]), ops[|ops| - 1])
  }

  ghost predicate Represents(e: Engine, a: Abstract) {
    e.Head() == a.sequence && forall k :: Read(e, k, e.Head()) == StoreGet(a.store, k)
  }

  lemma ImageStoreGet(bundle: Manifest, k: Bytes)
    ensures StoreGet(ImageStore(bundle), k) == ReadIn(SegmentPool(bundle.segments, k), bundle.durable)
  {
    var pool := SegmentPool(bundle.segments, k);
    if ReadIn(pool, bundle.durable).Some? {
      var v := NewestIn(pool, bundle.durable).value;
      var i :| 0 <= i < |bundle.segments| && v in Lookup(bundle.segments[i].segment.table, k);
      assert k in Keys(bundle.segments);
    }
  }

  lemma WriteReads(e: Engine, batch: WriteBatch, m: Store, k: Bytes, s: nat)
    requires Inv(e) && Encodable(batch) && Read(e, k, e.Head()) == StoreGet(m, k)
    ensures var e' := Write(e, batch).0;
            && Read(e', k, e.Head() + |batch|) == StoreGet(ApplyToStore(m, batch), k)
            && (s <= e.Head() ==> Read(e', k, s) == Read(e, k, s))
  {
    hide Write;
    hide Inv;
    hide ApplyOperations;
    hide ApplyToStore;
    hide StoreGet;
    hide NewestIn;
    hide Encoding;
    hide TableOk;
    hide SegmentsOk;
    hide SegmentPool;
    hide Over;
    hide Coherent;
    hide HasVersions;
    hide ValidMutation;
    WriteOk(e, batch);
    InvMemory(e);
    InvVisible(e, k);
    ApplyOperationsReads(e.memtable.versions, batch, e.manifest.durable + 1, e.Head(), k, SegmentPool(e.segments, k), m,
                         s);
  }

  lemma StepRefines(e: Engine, a: Abstract, op: Operation)
    requires Inv(e) && Genuine(op) && Represents(e, a)
    ensures Represents(Step(e, op).0, AbstractStep(a, op))
  {
    hide Write;
    hide Flush;
    hide Compact;
    hide Install;
    hide Collect;
    hide Inv;
    hide ManifestOk;
    hide Visible;
    hide ReadIn;
    hide StoreGet;
    hide ApplyToStore;
    hide ImageStore;
    match op
    case WriteOp(batch) =>
      WriteOk(e, batch);
      if Encodable(batch) {
        forall k ensures Read(Write(e, batch).0, k, e.Head() + |batch|) == StoreGet(ApplyToStore(a.store, batch), k) {
          WriteReads(e, batch, a.store, k, 0);
        }
      }
    case FlushOp(at, failure) => FlushOk(e, at, failure);
    case CompactOp(snapshots, at, failure) => CompactOk(e, snapshots, at, failure);
    case InstallOp(bundle, at, failure) =>
      InstallOk(e, bundle, at, failure);
      forall k ensures StoreGet(ImageStore(bundle), k) == ReadIn(SegmentPool(bundle.segments, k), bundle.durable) {
        ImageStoreGet(bundle, k);
      }
    case CollectOp => CollectOk(e);
    case PinOp(name, at) => SameMemoryReads(e, Pin(e, name, at).0);
    case ReleaseOp(name) => SameMemoryReads(e, Release(e, name));
    case ReopenOp => hide Open; OpenOk(e);
  }

  lemma SameMemoryReads(e: Engine, e': Engine)
    requires e'.memtable == e.memtable && e'.segments == e.segments
    ensures forall k :: Visible(e', k) == Visible(e, k)
  {
  }

  /**
   Over every run from a fresh database, the head sequence and the head map are those of the accepted batches
   and snapshots, no matter where failures were injected and when the database was reopened.
   */
  lemma {:induction false} RunRefines(ops: seq<Operation>)
    requires forall i :: 0 <= i < |ops| ==> Genuine(ops[i])
    ensures Inv(Run(Created(), ops)) && Represents(Run(Created(), ops), AbstractRun(Abstract(0, map[]), ops))
    ensures var m := Run(Created(), ops).disk.current; m.Some? && m.value.walStart == m.value.durable + 1
  {
    hide Inv;
    hide Step;
    hide Genuine;
    if ops == [] {
      CreatedOk();
      CurrentBounded(Created());
    } else {
      var before := ops[..|ops| - 1];
      RunRefines(before);
      StepOk(Run(Created(), before), ops[|ops| - 1]);
      StepRefines(Run(Created(), before), AbstractRun(Abstract(0, map[]), before), ops[|ops| - 1]);
      CurrentBounded(Run(Created(), ops));
    }
  }

  lemma CurrentBounded(e: Engine)
    requires Inv(e)
    ensures e.disk.current.Some? && e.disk.current.value.walStart == e.disk.current.value.durable + 1
  {
    hide Replay;
  }

  /** An operation that may not change what snapshot `s` sees: compactions must protect it, installs are excluded. */
  ghost predicate Respects(op: Operation, s: nat) {
    !op.InstallOp? && (op.CompactOp? ==> s in op.snapshots)
  }

  lemma StepKeepsSnapshot(e: Engine, op: Operation, s: nat, k: Bytes)
    requires Inv(e) && Respects(op, s) && s <= e.Head()
    ensures Read(Step(e, op).0, k, s) == Read(e, k, s) && s <= Step(e, op).0.Head()
  {
    hide Write;
    hide Flush;
    hide Compact;
    hide Collect;
    hide Inv;
    hide Visible;
    match op
    case WriteOp(batch) =>
      WriteOk(e, batch);
      if Encodable(batch) {
        var m := match Read(e, k, e.Head()) case None => map[] case Some(v) => map[k := v];
        WriteReads(e, batch, m, k, s);
      }
    case FlushOp(at, failure) => FlushOk(e, at, failure);
    case CompactOp(snapshots, at, failure) => CompactOk(e, snapshots, at, failure);
    case CollectOp => CollectOk(e);
    case PinOp(name, at) => SameMemoryReads(e, Pin(e, name, at).0);
    case ReleaseOp(name) => SameMemoryReads(e, Release(e, name));
    case ReopenOp => hide Open; OpenOk(e);
  }

  /** A snapshot once taken reads the same for ever, through failures and reopenings, while compactions protect it. */
  lemma {:induction false} RunKeepsSnapshot(e: Engine, ops: seq<Operation>, s: nat, k: Bytes)
    requires Inv(e) && s <= e.Head() && forall i :: 0 <= i < |ops| ==> Respects(ops[i], s)
    ensures Read(Run(e, ops), k, s) == Read(e, k, s) && s <= Run(e, ops).Head()
  {
    hide Inv;
    hide Step;
    hide Read;
    if ops != [] {
      var before := ops[..|ops| - 1];
      RunKeepsSnapshot(e, before, s, k);
      RunOk(e, before);
      StepKeepsSnapshot(Run(e, before), ops[|ops| - 1], s, k);
    }
  }

  /** A held manifest can be opened again, and shows at and below its own sequence exactly what its segments hold. */
  lemma HeldOpens(disk: Disk, m: Manifest)
    requires Held(disk, m) && ManifestOk(m)
    ensures var served := Open(disk.(current := Some(m)));
            && served.Ok? && served.value.manifest == m
            && forall k, s: nat :: s <= m.durable ==> Read(served.value, k, s) == ReadIn(SegmentPool(m.segments, k), s)
  {
    hide ManifestOk;
    hide Replay;
    assert forall i :: 0 <= i < |m.segments| ==> m.segments[i] in m.segments;
    var e := Open(disk.(current := Some(m))).value;
    ReplayOk(disk.wals[m.walStart], m.durable);
    forall k, s: nat | s <= m.durable ensures Read(e, k, s) == ReadIn(SegmentPool(m.segments, k), s) {
      ManifestPool(m, k);
      OverBelow(e.memtable.versions, k, SegmentPool(m.segments, k), m.durable, e.memtable.maximum, s);
    }
  }

  lemma ManifestPool(m: Manifest, k: Bytes)
    requires ManifestOk(m)
    ensures Coherent(SegmentPool(m.segments, k))
  {
    PoolOk(m.segments, m.durable, k);
  }

  /** Versions above a snapshot do not take part in its reads. */
  lemma OverBelow(t: Table, k: Bytes, pool: set<Version>, durable: nat, head: nat, s: nat)
    requires TableOk(t, durable + 1, head) && Coherent(pool) && s <= durable
    ensures ReadIn(Over(t, k, pool), s) == ReadIn(pool, s)
  {
    var r := NewestIn(Over(t, k, pool), s);
    assert forall v :: v in Lookup(t, k) ==> v.sequence > s;
    NewestUnique(pool, s, r);
  }

  /**
   Collections and crashes never cost a checkpoint: what was pinned and not released opens again in every reachable
   state and reads, at and below the sequence it was published at, what its segments hold.
   */
  lemma CheckpointsServable(ops: seq<Operation>, name: string)
    requires forall i :: 0 <= i < |ops| ==> Genuine(ops[i])
    requires name in Run(Created(), ops).disk.checkpoints
    ensures var disk := Run(Created(), ops).disk;
            var m := disk.checkpoints[name].manifest;
            var served := Open(disk.(current := Some(m)));
            && served.Ok? && served.value.manifest == m
            && forall k, s: nat :: s <= m.durable ==> Read(served.value, k, s) == ReadIn(SegmentPool(m.segments, k), s)
  {
    hide Held;
    hide ManifestOk;
    hide Open;
    CreatedOk();
    RunOk(Created(), ops);
    var disk := Run(Created(), ops).disk;
    HeldOpens(disk, disk.checkpoints[name].manifest);
  }

  // ---- A checkpoint keeps what its moment showed ----

  lemma FlushKeepsCheckpoints(e: Engine, at: nat, failure: Option<FlushBoundary>)
    ensures Flush(e, at, failure).0.disk.checkpoints == e.disk.checkpoints
  {
    hide NewManifest;
    hide HasVersions;
    hide ValidComponents;
  }

  lemma CompactKeepsCheckpoints(e: Engine, snapshots: set<nat>, at: nat, failure: Option<CompactionBoundary>)
    ensures Compact(e, snapshots, at, failure).0.disk.checkpoints == e.disk.checkpoints
  {
    hide Flush;
    hide NewManifest;
    hide ValidComponents;
    hide Retained;
    hide TableOk;
    hide SegmentsAgree;
    FlushKeepsCheckpoints(e, at, None);
  }

  lemma InstallKeepsCheckpoints(e: Engine, bundle: Manifest, at: nat, failure: Option<InstallBoundary>)
    ensures Install(e, bundle, at, failure).0.disk.checkpoints == e.disk.checkpoints
  {
    hide NewManifest;
    hide ValidComponents;
  }

  /** Only releasing a checkpoint removes it, and nothing changes it. */
  lemma StepKeepsCheckpoint(e: Engine, op: Operation, name: string)
    requires name in e.disk.checkpoints && op != ReleaseOp(name)
    ensures name in Step(e, op).0.disk.checkpoints
    ensures Step(e, op).0.disk.checkpoints[name] == e.disk.checkpoints[name]
  {
    hide Flush;
    hide Compact;
    hide Install;
    hide Replay;
    hide Encodable;
    match op
    case FlushOp(at, failure) => FlushKeepsCheckpoints(e, at, failure);
    case CompactOp(snapshots, at, failure) => CompactKeepsCheckpoints(e, snapshots, at, failure);
    case InstallOp(bundle, at, failure) => InstallKeepsCheckpoints(e, bundle, at, failure);
    case _ =>
  }

  lemma {:induction false} RunKeepsCheckpoint(e: Engine, ops: seq<Operation>, name: string)
    requires name in e.disk.checkpoints && forall i :: 0 <= i < |ops| ==> ops[i] != ReleaseOp(name)
    ensures name in Run(e, ops).disk.checkpoints && Run(e, ops).disk.checkpoints[name] == e.disk.checkpoints[name]
  {
    hide Step;
    if ops != [] {
      RunKeepsCheckpoint(e, ops[..|ops| - 1], name);
      StepKeepsCheckpoint(Run(e, ops[..|ops| - 1]), ops[|ops| - 1], name);
    }
  }

  /** Below its durable sequence a database reads what the segments of its manifest hold. */
  lemma DurableReads(e: Engine, k: Bytes, s: nat)
    requires Inv(e) && s <= e.manifest.durable
    ensures Read(e, k, s) == ReadIn(SegmentPool(e.manifest.segments, k), s)
  {
    InvMemory(e);
    PermutationPool(e.manifest.segments, e.segments, k);
    InvVisible(e, k);
    OverBelow(e.memtable.versions, k, SegmentPool(e.segments, k), e.manifest.durable, e.Head(), s);
  }

  /**
   What was pinned in any reachable state can be opened in every later state until it is released, whatever was
   flushed, compacted, installed or collected in between, and reads at and below the durable sequence of that moment
   what the database read then.
   */
  lemma PinnedReads(ops: seq<Operation>, name: string, at: nat, later: seq<Operation>)
    requires forall i :: 0 <= i < |ops| ==> Genuine(ops[i])
    requires forall i :: 0 <= i < |later| ==> Genuine(later[i]) && later[i] != ReleaseOp(name)
    requires name !in Run(Created(), ops).disk.checkpoints
    ensures var e := Run(Created(), ops);
            var disk := Run(Pin(e, name, at).0, later).disk;
            var served := Open(disk.(current := Some(e.manifest)));
            && name in disk.checkpoints && disk.checkpoints[name] == Checkpoint(e.manifest, at)
            && served.Ok? && served.value.manifest == e.manifest
            && forall k, s: nat :: s <= e.manifest.durable ==> Read(served.value, k, s) == Read(e, k, s)
  {
    hide Inv;
    hide Run;
    hide Held;
    hide ManifestOk;
    hide Open;
    hide Read;
    CreatedOk();
    RunOk(Created(), ops);
    var e := Run(Created(), ops);
    var pinned := Pin(e, name, at).0;
    PinOk(e, name, at);
    RunOk(pinned, later);
    RunKeepsCheckpoint(pinned, later, name);
    var disk := Run(pinned, later).disk;
    CheckpointHeld(Run(pinned, later), name);
    HeldOpens(disk, e.manifest);
    forall k, s: nat | s <= e.manifest.durable
      ensures Read(Open(disk.(current := Some(e.manifest))).value, k, s) == Read(e, k, s)
    {
      DurableReads(e, k, s);
    }
  }

  lemma PinOk(e: Engine, name: string, at: nat)
    requires Inv(e) && name !in e.disk.checkpoints
    ensures var pinned := Pin(e, name, at).0;
            Inv(pinned) && name in pinned.disk.checkpoints &&
                pinned.disk.checkpoints[name] == Checkpoint(e.manifest, at)
  {
    hide Replay;
    hide ManifestOk;
  }

  lemma CheckpointHeld(e: Engine, name: string)
    requires Inv(e) && name in e.disk.checkpoints
    ensures Held(e.disk, e.disk.checkpoints[name].manifest) && ManifestOk(e.disk.checkpoints[name].manifest)
  {
    hide Replay;
    hide ManifestOk;
  }

  // ---- The chain of manifests ----

  /** `m` comes after `ancestor` in the chain of parents, `steps` publications later. */
  predicate Descends(m: Manifest, ancestor: Manifest, steps: nat) {
    if steps == 0 then m == ancestor
    else
      && m.parent.Some? && m.generation == m.parent.value.generation + 1
      && Descends(m.parent.value, ancestor, steps - 1)
  }

  /** A flush publishes exactly when there is something to flush and no failure comes before publication. */
  lemma FlushPublishesIff(e: Engine, at: nat, failure: Option<FlushBoundary>)
    requires Inv(e)
    ensures var e' := Flush(e, at, failure).0;
            if e.Head() > e.manifest.durable && (failure.None? || failure == Some(FlushPublished)) then
              && Descends(e'.manifest, e.manifest, 1) && e'.manifest.durable == e.Head() && e'.manifest.createdAt == at
            else e'.manifest == e.manifest && e'.disk.current == e.disk.current && e'.memtable == e.memtable
  {
    hide Inv;
    hide Flush;
    hide HasVersions;
    InvMemory(e);
    FlushOk(e, at, None);
    FlushBoundaries(e, at, failure);
    if HasVersions(e.memtable.versions) {
      InvWal(e);
      FlushManifest(e, at);
    }
  }

  lemma FlushBoundaries(e: Engine, at: nat, failure: Option<FlushBoundary>)
    ensures var e' := Flush(e, at, failure).0;
            if failure.None? || failure == Some(FlushPublished) then e' == Flush(e, at, None).0
            else e'.manifest == e.manifest && e'.disk.current == e.disk.current && e'.memtable == e.memtable
    ensures !HasVersions(e.memtable.versions) ==> Flush(e, at, failure).0 == e
  {
    hide NewManifest;
    hide Publish;
    hide HasVersions;
    if failure.Some? {
      match failure.value
      case WalSynced =>
      case FlushSegmentSynced =>
      case FlushSuccessorSynced =>
      case FlushPublished =>
    }
  }

  lemma FlushManifest(e: Engine, at: nat)
    requires HasVersions(e.memtable.versions) && Flush(e, at, None).1 == Done && e.nextSequence == e.Head() + 1
    ensures var m := Flush(e, at, None).0.manifest;
            m.generation == e.manifest.generation + 1 && m.parent == Some(e.manifest) && m.durable == e.Head() &&
                m.createdAt == at
  {
    hide ValidComponents;
    hide HasVersions;
    hide Publish;
    hide Successor;
  }
}
