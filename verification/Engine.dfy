/**
 The vyrmKV engine as state transitions over an explicit disk
 (crates/vyrm-kv/src/database.rs, manifest.rs, wal.rs).

 Content-addressed names are modelled by the content they address: a segment file is
 named by its segment and a manifest digest is the manifest it digests.
 */
module Engine {
  import opened Common
  import opened Batch
  import opened Versions

  /** An immutable segment file. */
  datatype Segment = Segment(table: Table, maximum: nat)

  datatype Descriptor = Descriptor(segment: Segment, level: nat)

  datatype Manifest = Manifest(
    generation: nat, parent: Option<Manifest>, createdAt: nat,
    durable: nat, walStart: nat, segments: seq<Descriptor>)

  /** One synced frame of a WAL file. */
  datatype Record = Record(first: nat, last: nat, payload: Bytes)

  datatype Checkpoint = Checkpoint(manifest: Manifest, createdAt: nat)

  datatype Disk = Disk(
    current: Option<Manifest>, manifests: set<Manifest>, segments: set<Segment>,
    wals: map<nat, seq<Record>>, checkpoints: map<string, Checkpoint>)

  datatype Memtable = Memtable(versions: Table, maximum: nat)

  /** The disk together with the in-memory half of an open database. */
  datatype Engine = Engine(
    disk: Disk, manifest: Manifest, memtable: Memtable,
    wal: nat, nextSequence: nat, segments: seq<Descriptor>)
  {
    function Head(): nat {
      memtable.maximum
    }
  }

  datatype Error =
    | BadBatch | InvalidManifest | ManifestConflict | SuccessorHasData | InvalidSegment | MissingFile | Injected

  datatype Outcome = Done | Refused(error: Error)

  datatype FlushBoundary = WalSynced | FlushSegmentSynced | FlushSuccessorSynced | FlushPublished

  datatype CompactionBoundary = CompactionSegmentSynced | CompactionPublished

  datatype InstallBoundary = InstallSegmentsSynced | InstallSuccessorSynced | InstallPublished

  const MAX_LEVEL: nat := 255

  // ---- Manifests ----

  predicate HasVersions(t: Table) {
    exists k :: k in t && t[k] != []
  }

  /** Entries are present and numbered from one up to the declared maximum. */
  predicate DescriptorOk(d: Descriptor) {
    && HasVersions(d.segment.table)
    && (forall k, v :: k in d.segment.table && v in d.segment.table[k] ==> v.sequence >= 1)
    && (exists k, v :: k in d.segment.table && v in d.segment.table[k] && v.sequence <= d.segment.maximum)
  }

  predicate ValidComponents(m: Manifest) {
    && m.generation != 0
    && m.walStart <= m.durable + 1
    && (m.generation == 1 ==> m.parent.None?)
    && (m.generation > 1 ==> m.parent.Some?)
    && (forall i :: 0 <= i < |m.segments| ==> DescriptorOk(m.segments[i]) && m.segments[i].segment.maximum <= m.durable)
    && (forall i, j :: 0 <= i < j < |m.segments| ==> m.segments[i].segment != m.segments[j].segment)
  }

  function InsertByLevel(d: Descriptor, sorted: seq<Descriptor>): (r: seq<Descriptor>)
    ensures multiset(r) == multiset(sorted) + multiset{d}
  {
    if sorted == [] then [d]
    else if sorted[|sorted| - 1].level <= d.level then sorted + [d]
    else
      assert sorted == sorted[..|sorted| - 1] + [sorted[|sorted| - 1]];
      InsertByLevel(d, sorted[..|sorted| - 1]) + [sorted[|sorted| - 1]]
  }

  /** Manifests list their segments by level. */
  function SortByLevel(ds: seq<Descriptor>): (r: seq<Descriptor>)
    ensures multiset(r) == multiset(ds)
  {
    if ds == [] then []
    else
      assert ds == ds[..|ds| - 1] + [ds[|ds| - 1]];
      InsertByLevel(ds[|ds| - 1], SortByLevel(ds[..|ds| - 1]))
  }

  function NewManifest(generation: nat, parent: Option<Manifest>, at: nat, durable: nat, walStart: nat,
                       ds: seq<Descriptor>)
    : Result<Manifest, Error>
  {
    var m := Manifest(generation, parent, at, durable, walStart, SortByLevel(ds));
    if ValidComponents(m) then Ok(m) else Err(InvalidManifest)
  }

  /** Compare-and-swap of CURRENT. */
  function Publish(disk: Disk, m: Manifest, expected: Option<Manifest>): Result<Disk, Error> {
    if !ValidComponents(m) then Err(InvalidManifest)
    else if disk.current.Some? && disk.current.value !in disk.manifests then Err(MissingFile)
    else if disk.current != expected then Err(ManifestConflict)
    else if (disk.current.None? && m.generation == 1 && m.parent.None?)
         || (disk.current.Some? && m.generation == disk.current.value.generation + 1 && m.parent == disk.current)
    then Ok(disk.(manifests := disk.manifests + {m}, current := Some(m)))
    else Err(InvalidManifest)
  }

  // ---- WAL files ----

  /** One recovered frame applied to the memtable: it must decode and continue the sequence. */
  function ReplayRecord(m: Memtable, r: Record): Option<Memtable> {
    match DecodeBatch(r.payload)
    case Err(_) => None
    case Ok(ops) =>
      if ops == [] || r.first != m.maximum + 1 || r.last != r.first + |ops| - 1 then None
      else Some(Memtable(ApplyOperations(m.versions, ops, r.first), r.last))
  }

  /** The memtable rebuilt from a WAL file, or nothing when a frame is refused. */
  function Replay(records: seq<Record>, durable: nat): Option<Memtable> {
    if records == [] then Some(Memtable(map[], durable))
    else
      match Replay(records[..|records| - 1], durable)
      case None => None
      case Some(before) => ReplayRecord(before, records[|records| - 1])
  }

  /** Opens or creates the WAL that continues at `next`; a file that already holds data is refused. */
  function Successor(disk: Disk, next: nat): Result<Disk, Error> {
    if next in disk.wals then if disk.wals[next] == [] then Ok(disk) else Err(SuccessorHasData)
    else Ok(disk.(wals := disk.wals[next := []]))
  }

  // ---- Opening ----

  /** `Database::create` in an empty directory. */
  function Created(): Engine {
    var m := Manifest(1, None, 0, 0, 1, []);
    Engine(Disk(Some(m), {m}, {}, map[1 := []], map[]), m, Memtable(map[], 0), 1, 1, [])
  }

  /** `Database::open`: everything in memory is rebuilt from the disk. */
  function Open(disk: Disk): Result<Engine, Error> {
    if disk.current.None? then Err(InvalidManifest) else
    var m := disk.current.value;
    if m !in disk.manifests then Err(MissingFile) else
    if exists i :: 0 <= i < |m.segments| && m.segments[i].segment !in disk.segments then Err(MissingFile) else
    if m.walStart !in disk.wals then Err(MissingFile) else
    var replayed := Replay(disk.wals[m.walStart], m.durable);
    if replayed.None? then Err(BadBatch)
    else Ok(Engine(disk, m, replayed.value, m.walStart, replayed.value.maximum + 1, m.segments))
  }

  // ---- Writing and flushing ----

  function Write(e: Engine, batch: WriteBatch): (Engine, Outcome) {
    if !Encodable(batch) then (e, Refused(BadBatch)) else
    var last := e.nextSequence + |batch| - 1;
    var frames := if e.wal in e.disk.wals then e.disk.wals[e.wal] else [];
    var disk := e.disk.(wals := e.disk.wals[e.wal := frames + [Record(e.nextSequence, last, Encoding(batch))]]);
    var appended := e.(disk := disk, nextSequence := last + 1);
    if e.nextSequence != e.memtable.maximum + 1 then (appended, Refused(BadBatch))
    else (appended.(memtable := Memtable(ApplyOperations(e.memtable.versions, batch, e.nextSequence), last)), Done)
  }

  ghost function Flush(e: Engine, at: nat, failure: Option<FlushBoundary>): (Engine, Outcome) {
    if !HasVersions(e.memtable.versions) then (e, Done) else
    var sequence := if e.nextSequence == 0 then 0 else e.nextSequence - 1;
    if failure == Some(WalSynced) then (e, Refused(Injected)) else
    var segment := Segment(e.memtable.versions, e.memtable.maximum);
    var e1 := e.(disk := e.disk.(segments := e.disk.segments + {segment}));
    if failure == Some(FlushSegmentSynced) then (e1, Refused(Injected)) else
    var successor := Successor(e1.disk, sequence + 1);
    if successor.Err? then (e1, Refused(successor.error)) else
    var e2 := e1.(disk := successor.value);
    if failure == Some(FlushSuccessorSynced) then (e2, Refused(Injected)) else
    var next := NewManifest(e.manifest.generation + 1, Some(e.manifest), at, sequence, sequence + 1,
                            e.manifest.segments + [Descriptor(segment, 0)]);
    if next.Err? then (e2, Refused(next.error)) else
    var published := Publish(e2.disk, next.value, Some(e.manifest));
    if published.Err? then (e2, Refused(published.error)) else
    var e3 := Engine(published.value, next.value, Memtable(map[], sequence), sequence + 1, sequence + 1,
                     e.segments + [Descriptor(segment, 0)]);
    (e3, if failure == Some(FlushPublished) then Refused(Injected) else Done)
  }

  // ---- Compaction ----

  /** Every version of `k` held by any of the segments. */
  ghost function SegmentPool(ds: seq<Descriptor>, k: Bytes): set<Version> {
    set i, v | 0 <= i < |ds| && v in Lookup(ds[i].segment.table, k) :: v
  }

  ghost function Keys(ds: seq<Descriptor>): set<Bytes> {
    set i, k | 0 <= i < |ds| && k in ds[i].segment.table :: k
  }

  /** No key has two segment versions with one sequence and different values. */
  ghost predicate SegmentsAgree(ds: seq<Descriptor>) {
    forall k :: k in Keys(ds) ==> Coherent(SegmentPool(ds, k))
  }

  ghost function ProtectedSequences(snapshots: set<nat>, durable: nat): set<nat> {
    (set s | s in snapshots && s <= durable) + {durable}
  }

  ghost function Selected(ds: seq<Descriptor>, protected: set<nat>, k: Bytes): set<Version> {
    Kept(SegmentPool(ds, k), protected)
  }

  /** The compacted table: the versions some protected read answers, without keys that only answer "absent". */
  ghost function Retained(ds: seq<Descriptor>, protected: set<nat>, durable: nat): Table
    requires SegmentsAgree(ds)
  {
    map k | k in Keys(ds) && (exists v :: v in Selected(ds, protected, k) && v.value.Some?) ::
      SelectedCoherent(ds, protected, k); Ascending(MapOf(Selected(ds, protected, k)), durable + 1)
  }

  lemma SelectedCoherent(ds: seq<Descriptor>, protected: set<nat>, k: Bytes)
    requires Coherent(SegmentPool(ds, k))
    ensures Coherent(Selected(ds, protected, k)) && Selected(ds, protected, k) <= SegmentPool(ds, k)
  {
  }

  function HighestLevel(ds: seq<Descriptor>): nat {
    if ds == [] then 0
    else
      var before := HighestLevel(ds[..|ds| - 1]);
      if ds[|ds| - 1].level > before then ds[|ds| - 1].level else before
  }

  ghost function CompactedSegments(ds: seq<Descriptor>, table: Table, durable: nat): seq<Descriptor> {
    if table == map[] then []
    else [Descriptor(Segment(table, durable), if HighestLevel(ds) < MAX_LEVEL then HighestLevel(ds) + 1 else MAX_LEVEL)]
  }

  ghost function Compact(e0: Engine, snapshots: set<nat>, at: nat,
                         failure: Option<CompactionBoundary>): (Engine, Outcome) {
    var (e, flushed) := Flush(e0, at, None);
    if flushed.Refused? || e.segments == [] then (e, flushed) else
    var durable := e.manifest.durable;
    var protected := ProtectedSequences(snapshots, durable);
    if !SegmentsAgree(e.segments) then (e, Refused(InvalidSegment)) else
    var table := Retained(e.segments, protected, durable);
    if !TableOk(table, 1, durable) then (e, Refused(InvalidSegment)) else
    var compacted := CompactedSegments(e.segments, table, durable);
    var e1 := e.(disk := e.disk.(segments := e.disk.segments + set i | 0 <= i < |compacted| :: compacted[i].segment));
    if failure == Some(CompactionSegmentSynced) then (e1, Refused(Injected)) else
    var next := NewManifest(e.manifest.generation + 1, Some(e.manifest), at, durable, e.manifest.walStart, compacted);
    if next.Err? then (e1, Refused(next.error)) else
    var published := Publish(e1.disk, next.value, Some(e.manifest));
    if published.Err? then (e1, Refused(published.error)) else
    var e2 := e1.(disk := published.value, segments := compacted, manifest := next.value);
    (e2, if failure == Some(CompactionPublished) then Refused(Injected) else Done)
  }

  // ---- Snapshot transfer ----

  /** A bundle is a source manifest together with the segment files it names. */
  predicate BundleOk(bundle: Manifest) {
    ValidComponents(bundle) && bundle.walStart == bundle.durable + 1
  }

  ghost function Install(e: Engine, bundle: Manifest, at: nat, failure: Option<InstallBoundary>): (Engine, Outcome) {
    if !BundleOk(bundle) then (e, Refused(InvalidManifest)) else
    if bundle.durable == e.Head() && e.manifest.segments == bundle.segments then (e, Done) else
    if bundle.durable <= e.Head() then (e, Refused(InvalidManifest)) else
    var imported := set i | 0 <= i < |bundle.segments| :: bundle.segments[i].segment;
    var e1 := e.(disk := e.disk.(segments := e.disk.segments + imported));
    if failure == Some(InstallSegmentsSynced) then (e1, Refused(Injected)) else
    var successor := Successor(e1.disk, bundle.durable + 1);
    if successor.Err? then (e1, Refused(successor.error)) else
    var e2 := e1.(disk := successor.value);
    if failure == Some(InstallSuccessorSynced) then (e2, Refused(Injected)) else
    var created := if at >= e.manifest.createdAt then at else e.manifest.createdAt;
    var created' := if created >= bundle.createdAt then created else bundle.createdAt;
    var next := NewManifest(e.manifest.generation + 1, Some(e.manifest), created', bundle.durable, bundle.durable + 1,
                            bundle.segments);
    if next.Err? then (e2, Refused(next.error)) else
    var published := Publish(e2.disk, next.value, Some(e.manifest));
    if published.Err? then (e2, Refused(published.error)) else
    var e3 := Engine(published.value, next.value, Memtable(map[], bundle.durable), bundle.durable + 1,
                     bundle.durable + 1, bundle.segments);
    (e3, if failure == Some(InstallPublished) then Refused(Injected) else Done)
  }

  /** Flushes and hands out the published manifest. */
  ghost function Export(e: Engine, at: nat): (Engine, Outcome, Manifest) {
    var (flushed, outcome) := Flush(e, at, None);
    (flushed, outcome, flushed.manifest)
  }

  // ---- Checkpoints and garbage collection ----

  function Pin(e: Engine, name: string, at: nat): (Engine, Outcome) {
    if e.manifest !in e.disk.manifests then (e, Refused(MissingFile))
    else if name in e.disk.checkpoints then
      (e, if e.disk.checkpoints[name] == Checkpoint(e.manifest, at) then Done else Refused(InvalidManifest))
    else (e.(disk := e.disk.(checkpoints := e.disk.checkpoints[name := Checkpoint(e.manifest, at)])), Done)
  }

  function Release(e: Engine, name: string): Engine {
    e.(disk := e.disk.(checkpoints := e.disk.checkpoints - {name}))
  }

  /** CURRENT and every checkpointed manifest. */
  function Roots(e: Engine): set<Manifest> {
    {e.manifest} + set name | name in e.disk.checkpoints :: e.disk.checkpoints[name].manifest
  }

  function Named(roots: set<Manifest>): set<Segment> {
    set m, i | m in roots && 0 <= i < |m.segments| :: m.segments[i].segment
  }

  function Collect(e: Engine): (Engine, Outcome) {
    if exists name :: name in e.disk.checkpoints && e.disk.checkpoints[name].manifest !in e.disk.manifests then
      (e, Refused(MissingFile))
    else
      var roots := Roots(e);
      var starts := set m | m in roots :: m.walStart;
      (e.(disk := e.disk.(
            manifests := e.disk.manifests * roots,
            segments := e.disk.segments * Named(roots),
            wals := map s | s in e.disk.wals && s in starts :: e.disk.wals[s])), Done)
  }

  // ---- Reads ----

  /** Every version of `k` an open database can see. */
  ghost function Visible(e: Engine, k: Bytes): set<Version> {
    Over(e.memtable.versions, k, SegmentPool(e.segments, k))
  }

  /** The newest version at or below the snapshot over the memtable and all segments. */
  ghost function Read(e: Engine, k: Bytes, snapshot: nat): Option<Bytes> {
    ReadIn(Visible(e, k), snapshot)
  }
}
