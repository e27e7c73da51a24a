/**
 Temporal uniqueness and cardinality under a schema registry (crates/vyrm-core/src/schema.rs,
 crates/vyrm-store/src/native.rs).
 */
module Schema {
  import opened Common
  import opened Keys
  import opened RuntimeModel
  import opened Overlap

  type Records = map<Ref, Record>
  type Relations = map<Ref, Relation>

  ghost predicate RecordsOk(records: Records) {
    forall r :: r in records ==> ValidWindow(records[r].validFrom, records[r].validTo)
  }

  ghost predicate RelationsOk(relations: Relations) {
    forall r :: r in relations ==> ValidWindow(relations[r].validFrom, relations[r].validTo)
  }

  // ---- Uniqueness ----

  /** The open end counts as the last representable instant. */
  predicate WindowsOverlap(leftFrom: Millis, leftTo: Option<Millis>, rightFrom: Millis, rightTo: Option<Millis>) {
    && leftFrom < (if rightTo.Some? then rightTo.value else U64_MAX)
    && rightFrom < (if leftTo.Some? then leftTo.value else U64_MAX)
  }

  ghost predicate BothAt(a: Record, b: Record, t: Millis) {
    t < U64_MAX && ValidAtWindow(a.validFrom, a.validTo, t) && ValidAtWindow(b.validFrom, b.validTo, t)
  }

  /** Two windows overlap exactly when they share an instant before the last representable one. */
  lemma OverlapMeaning(a: Record, b: Record)
    requires ValidWindow(a.validFrom, a.validTo) && ValidWindow(b.validFrom, b.validTo)
    ensures WindowsOverlap(a.validFrom, a.validTo, b.validFrom, b.validTo) <==> exists t :: BothAt(a, b, t)
  {
    if WindowsOverlap(a.validFrom, a.validTo, b.validFrom, b.validTo) {
      assert BothAt(a, b, if a.validFrom >= b.validFrom then a.validFrom else b.validFrom);
    }
  }

  ghost predicate Shared(a: Record, b: Record, t: Millis) {
    ValidAtWindow(a.validFrom, a.validTo, t) && ValidAtWindow(b.validFrom, b.validTo, t)
  }

  /**
   Overlap is sharing an instant exactly when it is not the case that both windows are open and one starts at the last
   instant.
   */
  lemma OverlapIsSharingIff(a: Record, b: Record)
    requires ValidWindow(a.validFrom, a.validTo) && ValidWindow(b.validFrom, b.validTo)
    ensures (WindowsOverlap(a.validFrom, a.validTo, b.validFrom, b.validTo) <==> exists t :: Shared(a, b, t)) <==>
            !(a.validTo.None? && b.validTo.None? && (a.validFrom == U64_MAX || b.validFrom == U64_MAX))
  {
    var later := if a.validFrom >= b.validFrom then a.validFrom else b.validFrom;
    assert Shared(a, b, later) <==> exists t :: Shared(a, b, t);
  }

  /** At the last instant itself two open windows hold together without counting as an overlap. */
  lemma LastInstantEscapes(a: Record, b: Record)
    requires a.validFrom == b.validFrom == U64_MAX && a.validTo.None? && b.validTo.None?
    ensures ValidAtWindow(a.validFrom, a.validTo, U64_MAX) && ValidAtWindow(b.validFrom, b.validTo, U64_MAX)
    ensures !WindowsOverlap(a.validFrom, a.validTo, b.validFrom, b.validTo)
  {
  }

  predicate SameProperty(a: Record, b: Record, kind: Bytes, property: Bytes) {
    && a.reference.kind == kind && b.reference.kind == kind
    && property in a.properties && property in b.properties && a.properties[property] == b.properties[property]
  }

  /** No instant before the last sees two records of a kind with one value of the property. */
  ghost predicate UniqueOk(records: Records, kind: Bytes, property: Bytes) {
    forall r, q, t :: r in records && q in records && r != q && SameProperty(records[r], records[q], kind, property) ==>
      !BothAt(records[r], records[q], t)
  }

  predicate Clash(a: Record, b: Record, kind: Bytes, property: Bytes) {
    SameProperty(a, b, kind, property) && WindowsOverlap(a.validFrom, a.validTo, b.validFrom, b.validTo)
  }

  lemma NoClashIsUnique(records: Records, kind: Bytes, property: Bytes)
    requires RecordsOk(records)
    ensures UniqueOk(records, kind, property) <==>
            forall r, q :: r in records && q in records && r != q ==> !Clash(records[r], records[q], kind, property)
  {
    hide WindowsOverlap;
    forall r, q | r in records && q in records
      ensures WindowsOverlap(records[r].validFrom, records[r].validTo, records[q].validFrom, records[q].validTo) <==>
              exists t :: BothAt(records[r], records[q], t)
    {
      OverlapMeaning(records[r], records[q]);
    }
    hide BothAt;
  }

  /** Each candidate against the later ones. */
  method CheckUnique(records: Records, kind: Bytes, property: Bytes) returns (ok: bool)
    requires RecordsOk(records)
    ensures ok <==> UniqueOk(records, kind, property)
  {
    NoClashIsUnique(records, kind, property);
    hide UniqueOk;
    hide RecordsOk;
    var left := records.Keys;
    while left != {}
      invariant left <= records.Keys
      invariant forall r, q :: r in records && q in records && r != q && (r !in left || q !in left) ==>
                  !Clash(records[r], records[q], kind, property)
      decreases left
    {
      var r :| r in left;
      left := left - {r};
      var right := left;
      while right != {}
        invariant right <= left
        invariant forall q :: q in left && q !in right ==> !Clash(records[r], records[q], kind, property)
        decreases right
      {
        var q :| q in right;
        if Clash(records[r], records[q], kind, property) { return false; }
        right := right - {q};
      }
    }
    return true;
  }

  // ---- Cardinality ----

  datatype Grouping = ByPair | ByFrom | ByTo

  type Key = (Option<Ref>, Option<Ref>)

  function GroupKey(g: Grouping, r: Relation): Key {
    match g
    case ByPair => (Some(r.from), Some(r.to))
    case ByFrom => (Some(r.from), None)
    case ByTo => (None, Some(r.to))
  }

  /** The relations of one kind and group that hold at an instant, among the identities `among`. */
  function Live(relations: Relations, among: set<Ref>, kind: Bytes, g: Grouping, key: Key, t: Millis): set<Ref> {
    set r | r in among && r in relations && relations[r].reference.kind == kind && GroupKey(g, relations[r]) == key
            && ValidAtWindow(relations[r].validFrom, relations[r].validTo, t)
  }

  /** No instant whatever sees more than `limit` relations of the kind in one group. */
  ghost predicate Limited(relations: Relations, kind: Bytes, g: Grouping, limit: nat) {
    forall key, t :: |Live(relations, relations.Keys, kind, g, key, t)| <= limit
  }

  type Groups = map<Key, seq<Window>>

  function GroupGet(groups: Groups, key: Key): seq<Window> {
    if key in groups then groups[key] else []
  }

  ghost predicate GroupsOk(groups: Groups, relations: Relations, done: set<Ref>, kind: Bytes, g: Grouping) {
    && (forall key, t :: Count(GroupGet(groups, key), t) == |Live(relations, done, kind, g, key, t)|)
    && (forall key, i :: key in groups && 0 <= i < |groups[key]| ==> groups[key][i].Valid())
  }

  lemma CountPush(ws: seq<Window>, w: Window, t: Millis)
    ensures Count(ws + [w], t) == Count(ws, t) + if w.At(t) then 1 else 0
  {
    assert (ws + [w])[..|ws|] == ws;
  }

  /** One relation more: its group grows by one exactly at the instants at which it holds. */
  lemma LivePush(relations: Relations, done: set<Ref>, r: Ref, kind: Bytes, g: Grouping, key: Key, t: Millis)
    requires r in relations && r !in done
    ensures var rel := relations[r];
            |Live(relations, done + {r}, kind, g, key, t)| == |Live(relations, done, kind, g, key, t)| +
            if && rel.reference.kind == kind && GroupKey(g, rel) == key
               && ValidAtWindow(rel.validFrom, rel.validTo, t) then 1 else 0
  {
    var before, after := Live(relations, done, kind, g, key, t), Live(relations, done + {r}, kind, g, key, t);
    var rel := relations[r];
    if rel.reference.kind == kind && GroupKey(g, rel) == key && ValidAtWindow(rel.validFrom, rel.validTo, t) {
      assert after == before + {r};
    } else {
      assert after == before;
    }
  }

  method GroupRelations(relations: Relations, kind: Bytes, g: Grouping) returns (groups: Groups)
    requires RelationsOk(relations)
    ensures GroupsOk(groups, relations, relations.Keys, kind, g)
  {
    groups := map[];
    var remaining := relations.Keys;
    ghost var done: set<Ref> := {};
    assert GroupsOk(groups, relations, done, kind, g) by {
      forall key, t ensures Live(relations, {}, kind, g, key, t) == {} {}
    }
    while remaining != {}
      invariant done + remaining == relations.Keys && done !! remaining
      invariant GroupsOk(groups, relations, done, kind, g)
      decreases remaining
    {
      var r :| r in remaining;
      var rel := relations[r];
      ghost var before := groups;
      if rel.reference.kind == kind {
        var key := GroupKey(g, rel);
        groups := groups[key := GroupGet(groups, key) + [Window(rel.validFrom, rel.validTo)]];
      }
      Grouped(before, groups, relations, done, r, kind, g);
      remaining := remaining - {r};
      done := done + {r};
    }
    assert done == relations.Keys;
  }

  lemma Grouped(groups: Groups, groups': Groups, relations: Relations, done: set<Ref>, r: Ref, kind: Bytes, g: Grouping)
    requires RelationsOk(relations) && GroupsOk(groups, relations, done, kind, g) && r in relations && r !in done
    requires var rel := relations[r]; var key := GroupKey(g, rel);
             groups' == if rel.reference.kind == kind then
                 groups[key := GroupGet(groups, key) + [Window(rel.validFrom, rel.validTo)]] else groups
    ensures GroupsOk(groups', relations, done + {r}, kind, g)
  {
    hide Live;
    hide Count;
    var rel := relations[r];
    var key, w := GroupKey(g, rel), Window(rel.validFrom, rel.validTo);
    forall k, t ensures Count(GroupGet(groups', k), t) == |Live(relations, done + {r}, kind, g, k, t)| {
      LivePush(relations, done, r, kind, g, k, t);
      CountPush(GroupGet(groups, key), w, t);
    }
  }

  /** Sweeps every group. */
  method CheckLimit(relations: Relations, kind: Bytes, g: Grouping, limit: nat) returns (ok: bool)
    requires RelationsOk(relations)
    ensures ok <==> Limited(relations, kind, g, limit)
  {
    hide Live;
    var groups := GroupRelations(relations, kind, g);
    var keys := groups.Keys;
    while keys != {}
      invariant keys <= groups.Keys
      invariant forall key, t :: key in groups && key !in keys ==> Count(groups[key], t) <= limit
      decreases keys
    {
      var key :| key in keys;
      var most := MaxOverlap(groups[key]);
      if most > limit {
        ghost var t :| Count(groups[key], t) == most;
        assert |Live(relations, relations.Keys, kind, g, key, t)| == Count(GroupGet(groups, key), t);
        return false;
      }
      keys := keys - {key};
    }
    forall key, t ensures |Live(relations, relations.Keys, kind, g, key, t)| <= limit {
      assert Count(GroupGet(groups, key), t) == |Live(relations, relations.Keys, kind, g, key, t)|;
    }
    return true;
  }

  // ---- A registry's constraints ----

  ghost predicate RecordSchemaHolds(schema: RecordSchema, kind: Bytes, records: Records) {
    forall property :: property in schema.unique ==> UniqueOk(records, kind, property)
  }

  ghost predicate RelationSchemaHolds(schema: RelationSchema, kind: Bytes, relations: Relations) {
    && (schema.uniquePair ==> Limited(relations, kind, ByPair, 1))
    && (schema.maxOutgoing.Some? ==> Limited(relations, kind, ByFrom, schema.maxOutgoing.value))
    && (schema.maxIncoming.Some? ==> Limited(relations, kind, ByTo, schema.maxIncoming.value))
  }

  ghost predicate SchemaHolds(reg: Registry, records: Records, relations: Relations) {
    && (forall kind :: kind in reg.records ==> RecordSchemaHolds(reg.records[kind], kind, records))
    && (forall kind :: kind in reg.relations ==> RelationSchemaHolds(reg.relations[kind], kind, relations))
  }

  method CheckRecordSchema(schema: RecordSchema, kind: Bytes, records: Records) returns (ok: bool)
    requires RecordsOk(records)
    ensures ok <==> RecordSchemaHolds(schema, kind, records)
  {
    hide UniqueOk;
    var properties := schema.unique;
    while properties != {}
      invariant properties <= schema.unique
      invariant forall p :: p in schema.unique && p !in properties ==> UniqueOk(records, kind, p)
      decreases properties
    {
      var p :| p in properties;
      var unique := CheckUnique(records, kind, p);
      if !unique { return false; }
      properties := properties - {p};
    }
    return true;
  }

  method CheckRelationSchema(schema: RelationSchema, kind: Bytes, relations: Relations) returns (ok: bool)
    requires RelationsOk(relations)
    ensures ok <==> RelationSchemaHolds(schema, kind, relations)
  {
    hide Limited;
    if schema.uniquePair {
      ok := CheckLimit(relations, kind, ByPair, 1);
      if !ok { return; }
    }
    if schema.maxOutgoing.Some? {
      ok := CheckLimit(relations, kind, ByFrom, schema.maxOutgoing.value);
      if !ok { return; }
    }
    if schema.maxIncoming.Some? {
      ok := CheckLimit(relations, kind, ByTo, schema.maxIncoming.value);
      if !ok { return; }
    }
    return true;
  }

  method CheckConstraints(reg: Registry, records: Records, relations: Relations) returns (ok: bool)
    requires RecordsOk(records) && RelationsOk(relations)
    ensures ok <==> SchemaHolds(reg, records, relations)
  {
    hide RecordSchemaHolds;
    hide RelationSchemaHolds;
    var kinds := reg.records.Keys;
    while kinds != {}
      invariant kinds <= reg.records.Keys
      invariant forall kind :: kind in reg.records && kind !in kinds ==>
                RecordSchemaHolds(reg.records[kind], kind, records)
      decreases kinds
    {
      var kind :| kind in kinds;
      var holds := CheckRecordSchema(reg.records[kind], kind, records);
      if !holds { return false; }
      kinds := kinds - {kind};
    }
    kinds := reg.relations.Keys;
    while kinds != {}
      invariant kinds <= reg.relations.Keys
      invariant forall kind :: kind in reg.relations && kind !in kinds ==>
                RelationSchemaHolds(reg.relations[kind], kind, relations)
      decreases kinds
    {
      var kind :| kind in kinds;
      var holds := CheckRelationSchema(reg.relations[kind], kind, relations);
      if !holds { return false; }
      kinds := kinds - {kind};
    }
    return true;
  }

  // ---- Objects ----

  predicate PropertiesOk(actual: Properties, declared: map<Bytes, PropertySchema>, additional: bool) {
    && (forall name :: name in declared ==>
          if name in actual then declared[name].valueType.Matches(actual[name]) else !declared[name].required)
    && (!additional ==> forall name :: name in actual ==> name in declared)
  }

  predicate Typed(reg: Registry, m: Mutation) {
    match m
    case RecordMutation(record) =>
      var kind := record.reference.kind;
      kind in reg.records && PropertiesOk(record.properties, reg.records[kind].properties, reg.records[kind].additional)
    case RelationMutation(relation) =>
      var kind := relation.reference.kind;
      && kind in reg.relations
      && relation.from.kind in reg.relations[kind].from && relation.to.kind in reg.relations[kind].to
      && PropertiesOk(relation.properties, reg.relations[kind].properties, reg.relations[kind].additional)
    case EventMutation(event) =>
      && event.kind in reg.events
      && var schema := reg.events[event.kind];
         && (schema.subjectRequired ==> event.subject.Some?)
         && (event.subject.Some? && schema.subjectTypes != {} ==> event.subject.value.kind in schema.subjectTypes)
         && PropertiesOk(event.properties, schema.properties, schema.additional)
    case _ => true
  }

  function MergeRecords(existing: Records, mutations: seq<Mutation>): Records {
    if mutations == [] then existing
    else
      var before, m := MergeRecords(existing, mutations[..|mutations| - 1]), mutations[|mutations| - 1];
      if m.RecordMutation? then before[m.record.reference := m.record] else before
  }

  function MergeRelations(existing: Relations, mutations: seq<Mutation>): Relations {
    if mutations == [] then existing
    else
      var before, m := MergeRelations(existing, mutations[..|mutations| - 1]), mutations[|mutations| - 1];
      if m.RelationMutation? then before[m.relation.reference := m.relation] else before
  }

  lemma {:induction false} MergeOk(records: Records, relations: Relations, mutations: seq<Mutation>)
    requires RecordsOk(records) && RelationsOk(relations) && forall i :: 0 <= i < |mutations| ==>
             ValidMutation(mutations[i])
    ensures RecordsOk(MergeRecords(records, mutations)) && RelationsOk(MergeRelations(relations, mutations))
  {
    if mutations != [] { MergeOk(records, relations, mutations[..|mutations| - 1]); }
  }

  method ValidateObjects(reg: Registry, mutations: seq<Mutation>, existingRecords: Records,
                         existingRelations: Relations) returns (ok: bool)
    requires RecordsOk(existingRecords) && RelationsOk(existingRelations)
    requires forall i :: 0 <= i < |mutations| ==> ValidMutation(mutations[i])
    ensures ok <==> && RegistryOk(reg) && (forall i :: 0 <= i < |mutations| ==> Typed(reg, mutations[i]))
                    && SchemaHolds(reg, MergeRecords(existingRecords, mutations),
                                   MergeRelations(existingRelations, mutations))
  {
    hide SchemaHolds;
    hide Typed;
    if !RegistryOk(reg) { return false; }
    for i := 0 to |mutations|
      invariant forall j :: 0 <= j < i ==> Typed(reg, mutations[j])
    {
      if !Typed(reg, mutations[i]) { return false; }
    }
    var records, relations := existingRecords, existingRelations;
    for i := 0 to |mutations|
      invariant records == MergeRecords(existingRecords, mutations[..i]) &&
                relations == MergeRelations(existingRelations, mutations[..i])
    {
      assert mutations[..i + 1][..i] == mutations[..i];
      match mutations[i] {
        case RecordMutation(record) => records := records[record.reference := record];
        case RelationMutation(relation) => relations := relations[relation.reference := relation];
        case _ =>
      }
    }
    assert mutations[..|mutations|] == mutations;
    MergeOk(existingRecords, existingRelations, mutations);
    ok := CheckConstraints(reg, records, relations);
  }

  // ---- Runs of commits ----

  /** What the store keeps per scope: the registry in force and the latest version of every identity. */
  datatype Space = Space(schema: Option<Registry>, records: Records, relations: Relations)

  /** The global cursor, the log of all changes and the tables of every scope. */
  datatype Store = Store(cursor: nat, log: seq<Change>, spaces: map<Bytes, Space>)

  function SpaceOf(store: Store, scope: Bytes): Space {
    if scope in store.spaces then store.spaces[scope] else Space(None, map[], map[])
  }

  function ProposedSchema(mutations: seq<Mutation>): Option<Registry> {
    if mutations == [] then None
    else
      match ProposedSchema(mutations[..|mutations| - 1])
      case Some(reg) => Some(reg)
      case None => if mutations[|mutations| - 1].SchemaMutation? then Some(mutations[|mutations| - 1].registry)
        else None
  }

  /** A first registry has revision one, a replacement the next revision, and some registry there must be. */
  function EffectiveSchema(previous: Option<Registry>, proposed: Option<Registry>): Option<Registry> {
    match proposed
    case Some(reg) => if reg.revision == (if previous.None? then 1 else previous.value.revision + 1) then Some(reg)
      else None
    case None => previous
  }

  predicate NeedsRecords(reg: Registry) {
    exists kind :: kind in reg.records && reg.records[kind].unique != {}
  }

  predicate NeedsRelations(reg: Registry) {
    exists kind :: kind in reg.relations &&
      (reg.relations[kind].uniquePair || reg.relations[kind].maxOutgoing.Some? || reg.relations[kind].maxIncoming.Some?)
  }

  /** The records a mutation refers to. */
  function Referred(m: Mutation): seq<Ref> {
    match m
    case RelationMutation(relation) => [relation.from, relation.to]
    case EventMutation(event) => if event.subject.Some? then [event.subject.value] else []
    case OtherMutation(_, _, subjects, _, _) => subjects
    case _ => []
  }

  /** Endpoints and subjects must name records that exist or come with the commit. */
  predicate ReferencesKnown(space: Space, mutations: seq<Mutation>) {
    var written := set i | 0 <= i < |mutations| && mutations[i].RecordMutation? :: mutations[i].record.reference;
    var known := space.records.Keys + written;
    forall i, j :: 0 <= i < |mutations| && 0 <= j < |Referred(mutations[i])| ==> Referred(mutations[i])[j] in known
  }

  /** `prepare_native_runtime_commit`: existing objects are read only when the schema constrains them. */
  ghost predicate Accepts(store: Store, commit: Commit) {
    && ValidCommit(commit) && commit.expectedCursor == store.cursor
    && var space := SpaceOf(store, commit.scope);
       var effective := EffectiveSchema(space.schema, ProposedSchema(commit.mutations));
       && effective.Some? && RegistryOk(effective.value)
       && (forall i :: 0 <= i < |commit.mutations| ==> Typed(effective.value, commit.mutations[i]))
       && SchemaHolds(effective.value,
            MergeRecords(if NeedsRecords(effective.value) then space.records else map[], commit.mutations),
            MergeRelations(if NeedsRelations(effective.value) then space.relations else map[], commit.mutations))
       && ReferencesKnown(space, commit.mutations)
  }

  /** Whether the store takes a commit. */
  method Prepare(store: Store, commit: Commit) returns (accepted: bool)
    requires StoreOk(store)
    ensures accepted <==> Accepts(store, commit)
  {
    hide SchemaHolds;
    hide Typed;
    hide ReferencesKnown;
    if !ValidCommit(commit) || commit.expectedCursor != store.cursor { return false; }
    var space := SpaceOf(store, commit.scope);
    var effective := EffectiveSchema(space.schema, ProposedSchema(commit.mutations));
    if effective.None? { return false; }
    var existingRecords := if NeedsRecords(effective.value) then space.records else map[];
    var existingRelations := if NeedsRelations(effective.value) then space.relations else map[];
    var valid := ValidateObjects(effective.value, commit.mutations, existingRecords, existingRelations);
    return valid && ReferencesKnown(space, commit.mutations);
  }

  function SpaceAfter(space: Space, mutations: seq<Mutation>): Space {
    Space(EffectiveSchema(space.schema, ProposedSchema(mutations)),
          MergeRecords(space.records, mutations), MergeRelations(space.relations, mutations))
  }

  ghost function AfterCommit(store: Store, commit: Commit): Store {
    if !Accepts(store, commit) then store
    else
      Store(store.cursor + |commit.mutations|, store.log + Changes(commit, store.cursor),
            store.spaces[commit.scope := SpaceAfter(SpaceOf(store, commit.scope), commit.mutations)])
  }

  const EMPTY_STORE: Store := Store(0, [], map[])

  ghost function Run(store: Store, commits: seq<Commit>): Store {
    if commits == [] then store else AfterCommit(Run(store, commits[..|commits| - 1]), commits[|commits| - 1])
  }

  ghost predicate SpaceOk(space: Space) {
    && RecordsOk(space.records) && RelationsOk(space.relations)
    && (space.schema.Some? ==> SchemaHolds(space.schema.value, space.records, space.relations))
  }

  ghost predicate StoreOk(store: Store) {
    forall scope :: SpaceOk(SpaceOf(store, scope))
  }

  lemma CommitKeeps(store: Store, commit: Commit)
    requires StoreOk(store)
    ensures StoreOk(AfterCommit(store, commit))
  {
    hide UniqueOk;
    hide Limited;
    hide Typed;
    hide ReferencesKnown;
    hide ValidCommit;
    if Accepts(store, commit) {
      var space := SpaceOf(store, commit.scope);
      assert SpaceOk(space);
      assert forall i :: 0 <= i < |commit.mutations| ==>
             ValidMutation(commit.mutations[i]) by { CommitMutations(commit); }
      MergeOk(space.records, space.relations, commit.mutations);
      assert SpaceOk(SpaceAfter(space, commit.mutations));
      hide SpaceOk;
      forall scope ensures SpaceOk(SpaceOf(AfterCommit(store, commit), scope)) {
        assert SpaceOk(SpaceOf(store, scope));
      }
    }
  }

  lemma CommitMutations(commit: Commit)
    requires ValidCommit(commit)
    ensures forall i :: 0 <= i < |commit.mutations| ==> ValidMutation(commit.mutations[i])
  {
  }

  /**
   After any run of commits, accepted or refused, across schema changes and scopes: among the latest versions of the
   identities of a scope, at no instant do more relations hold than its schema allows, and no instant before the last
   sees a unique property twice. What a snapshot shows at an instant is the subject of the module History.
   */
  lemma {:induction false} RunKeepsSchema(commits: seq<Commit>)
    ensures StoreOk(Run(EMPTY_STORE, commits))
  {
    hide SpaceOk;
    if commits == [] {
      assert SpaceOk(Space(None, map[], map[])) by { EmptySpaceOk(); }
    } else {
      RunKeepsSchema(commits[..|commits| - 1]);
      CommitKeeps(Run(EMPTY_STORE, commits[..|commits| - 1]), commits[|commits| - 1]);
    }
  }

  lemma EmptySpaceOk()
    ensures SpaceOk(Space(None, map[], map[]))
  {
  }
}
