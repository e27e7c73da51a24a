/**
 What the store demands of a commit, spelt out independently of the validator, and what every run of commits then
 guarantees (crates/vyrm-core/src/schema.rs, runtime.rs, crates/vyrm-store/src/native.rs).
 */
module Acceptance {
  import opened Common
  import opened Keys
  import opened RuntimeModel
  import opened Schema
  import opened History
  import Graph

  // ---- Values and properties ----

  /** The type a value has. */
  function TypeOf(v: Value): ValueType {
    match v
    case Null => NullType
    case Bool(_) => BoolType
    case Integer(_) => IntegerType
    case Unsigned(_) => UnsignedType
    case Decimal(_) => DecimalType
    case Text(_) => TextType
    case Digest(_) => DigestType
    case List(_) => ListType
    case Mapping(_) => MapType
  }

  /** Required properties are present, declared ones have their type, and a closed schema has no others. */
  ghost predicate Shaped(actual: Properties, declared: map<Bytes, PropertySchema>, additional: bool) {
    && (forall name :: name in declared && declared[name].required ==> name in actual)
    && (forall name :: name in declared && name in actual ==> TypeOf(actual[name]) == declared[name].valueType)
    && (!additional ==> forall name :: name in actual ==> name in declared)
  }

  /** What the registry demands of a record, relation or event. */
  ghost predicate Conforms(reg: Registry, m: Mutation) {
    match m
    case RecordMutation(r) =>
      && r.reference.kind in reg.records
      && var schema := reg.records[r.reference.kind]; Shaped(r.properties, schema.properties, schema.additional)
    case RelationMutation(r) =>
      && r.reference.kind in reg.relations
      && var schema := reg.relations[r.reference.kind];
         && r.from.kind in schema.from && r.to.kind in schema.to
         && Shaped(r.properties, schema.properties, schema.additional)
    case EventMutation(e) =>
      && e.kind in reg.events
      && var schema := reg.events[e.kind];
         && (e.subject.None? ==> !schema.subjectRequired)
         && (e.subject.Some? ==> schema.subjectTypes == {} || e.subject.value.kind in schema.subjectTypes)
         && Shaped(e.properties, schema.properties, schema.additional)
    case _ => true
  }

  lemma ShapedIff(actual: Properties, declared: map<Bytes, PropertySchema>, additional: bool)
    ensures PropertiesOk(actual, declared, additional) <==> Shaped(actual, declared, additional)
  {
    forall v: Value, t: ValueType ensures t.Matches(v) <==> TypeOf(v) == t {
      match t
      case NullType => case BoolType => case IntegerType => case UnsignedType => case DecimalType =>
      case TextType => case DigestType => case ListType => case MapType =>
    }
  }

  lemma ConformsIff(reg: Registry, m: Mutation)
    ensures Typed(reg, m) <==> Conforms(reg, m)
  {
    hide PropertiesOk;
    hide Shaped;
    forall actual, declared, additional
        ensures PropertiesOk(actual, declared, additional) <==> Shaped(actual, declared, additional) {
      ShapedIff(actual, declared, additional);
    }
  }

  // ---- Well-formed registries and commits ----

  ghost predicate Named(name: Bytes) {
    |name| > 0 && forall i :: 0 <= i < |name| ==> name[i] != 0
  }

  ghost predicate AllNamed(names: set<Bytes>) {
    forall name :: name in names ==> Named(name)
  }

  /** A revision, a description, some kind, named properties, declared unique ones, open ends and positive limits. */
  ghost predicate Sound(reg: Registry) {
    && reg.revision >= 1
    && (exists i :: 0 <= i < |reg.migration| && !IsSpace(reg.migration[i]))
    && (reg.records.Keys != {} || reg.relations.Keys != {} || reg.events.Keys != {})
    && (forall kind :: kind in reg.records ==>
          && AllNamed(reg.records[kind].properties.Keys)
          && forall name :: name in reg.records[kind].unique ==> name in reg.records[kind].properties)
    && (forall kind :: kind in reg.relations ==>
          && AllNamed(reg.relations[kind].properties.Keys)
          && |reg.relations[kind].from| > 0 && |reg.relations[kind].to| > 0
          && (reg.relations[kind].maxOutgoing.Some? ==> reg.relations[kind].maxOutgoing.value > 0)
          && (reg.relations[kind].maxIncoming.Some? ==> reg.relations[kind].maxIncoming.value > 0))
    && (forall kind :: kind in reg.events ==> AllNamed(reg.events[kind].properties.Keys))
  }

  lemma NamedIff(name: Bytes)
    ensures ValidName(name) <==> Named(name)
  {
  }

  lemma NoKeys<V>(m: map<Bytes, V>)
    ensures m == map[] <==> m.Keys == {}
  {
  }

  lemma SoundIff(reg: Registry)
    ensures RegistryOk(reg) <==> Sound(reg)
  {
    forall properties ensures DeclaredOk(properties) <==> AllNamed(properties.Keys) { AllNamedIff(properties); }
    hide DeclaredOk;
    hide AllNamed;
    NoKeys(reg.records);
    NoKeys(reg.relations);
    NoKeys(reg.events);
  }

  lemma AllNamedIff(properties: map<Bytes, PropertySchema>)
    ensures DeclaredOk(properties) <==> AllNamed(properties.Keys)
  {
    forall name ensures ValidName(name) <==> Named(name) { NamedIff(name); }
    hide ValidName;
    hide Named;
  }

  /** The instant lies in the window: at or after its start and before its end. */
  predicate Holds(from: Millis, to: Option<Millis>, t: Millis) {
    from <= t && (to.None? || t < to.value)
  }

  /** Some instant lies in the window. */
  ghost predicate HasInstant(from: Millis, to: Option<Millis>) {
    exists t :: Holds(from, to, t)
  }

  lemma WindowIff(from: Millis, to: Option<Millis>)
    ensures ValidWindow(from, to) <==> HasInstant(from, to)
  {
    if ValidWindow(from, to) { assert Holds(from, to, from); }
  }

  /** A window holds from its start up to, and not including, its end; adjacent windows never hold together. */
  lemma WindowsAreHalfOpen(from: Millis, to: Option<Millis>, next: Option<Millis>, t: Millis)
    ensures to.None? || from < to.value ==> ValidAtWindow(from, to, from)
    ensures t < from ==> !ValidAtWindow(from, to, t)
    ensures to.Some? && t >= to.value ==> !ValidAtWindow(from, to, t)
    ensures from <= t && (to.None? || t < to.value) ==> ValidAtWindow(from, to, t)
    ensures to.Some? ==> !(ValidAtWindow(from, to, t) && ValidAtWindow(to.value, next, t))
  {
  }

  ghost predicate Sane(m: Mutation) {
    match m
    case RecordMutation(r) => HasInstant(r.validFrom, r.validTo) && AllNamed(r.properties.Keys)
    case RelationMutation(r) => HasInstant(r.validFrom, r.validTo) && AllNamed(r.properties.Keys)
    case EventMutation(e) => AllNamed(e.properties.Keys)
    case SchemaMutation(reg) => Sound(reg)
    case ClaimMutation(valid) => valid
    case OtherMutation(_, _, _, properties, valid) => valid && AllNamed(properties.Keys)
  }

  /** No two mutations name one record, one relation, or one object of a family, and there is one registry at most. */
  ghost predicate Distinct(ms: seq<Mutation>) {
    forall i, j :: 0 <= i < j < |ms| ==>
      && (ms[i].RecordMutation? && ms[j].RecordMutation? ==> ms[i].record.reference != ms[j].record.reference)
      && (ms[i].RelationMutation? && ms[j].RelationMutation? ==> ms[i].relation.reference != ms[j].relation.reference)
      && (ms[i].OtherMutation? && ms[j].OtherMutation? ==>
            ms[i].family != ms[j].family || ms[i].reference != ms[j].reference)
      && !(ms[i].SchemaMutation? && ms[j].SchemaMutation?)
  }

  ghost predicate WellFormed(c: Commit) {
    && Named(c.actor) && |c.mutations| > 0 && Distinct(c.mutations)
    && forall i :: 0 <= i < |c.mutations| ==> Sane(c.mutations[i])
  }

  lemma SaneIff(m: Mutation)
    ensures ValidMutation(m) <==> Sane(m)
  {
    hide ValidName;
    hide Named;
    hide RegistryOk;
    hide Sound;
    hide ValidWindow;
    hide HasInstant;
    forall name ensures ValidName(name) <==> Named(name) { NamedIff(name); }
    forall from, to ensures ValidWindow(from, to) <==> HasInstant(from, to) { WindowIff(from, to); }
    if m.SchemaMutation? { SoundIff(m.registry); }
  }

  lemma WellFormedIff(c: Commit)
    ensures ValidCommit(c) <==> WellFormed(c)
  {
    hide ValidName;
    hide Named;
    hide ValidMutation;
    hide Sane;
    NamedIff(c.actor);
    forall m ensures ValidMutation(m) <==> Sane(m) { SaneIff(m); }
  }

  // ---- Limits and uniqueness ----

  /** The relations of a kind that hold at an instant. */
  ghost function HoldingAt(relations: Relations, kind: Bytes, t: Millis): set<Ref> {
    set r | r in relations && relations[r].reference.kind == kind &&
        Holds(relations[r].validFrom, relations[r].validTo, t)
  }

  /** Those that leave a node, and those that reach it. */
  ghost function Leaving(relations: Relations, kind: Bytes, node: Ref, t: Millis): set<Ref> {
    set r | r in HoldingAt(relations, kind, t) && relations[r].from == node
  }

  ghost function Reaching(relations: Relations, kind: Bytes, node: Ref, t: Millis): set<Ref> {
    set r | r in HoldingAt(relations, kind, t) && relations[r].to == node
  }

  /** At no instant do two relations of a kind join one pair of nodes. */
  ghost predicate PairsUnique(relations: Relations, kind: Bytes) {
    forall r, q, t :: r in HoldingAt(relations, kind, t) && q in HoldingAt(relations, kind, t) && r != q ==>
      relations[r].from != relations[q].from || relations[r].to != relations[q].to
  }

  /** At no instant do more relations of a kind leave a node, or reach one, than the limit. */
  ghost predicate LeavingWithin(relations: Relations, kind: Bytes, limit: nat) {
    forall node, t :: |Leaving(relations, kind, node, t)| <= limit
  }

  ghost predicate ReachingWithin(relations: Relations, kind: Bytes, limit: nat) {
    forall node, t :: |Reaching(relations, kind, node, t)| <= limit
  }

  ghost predicate WithinLimits(reg: Registry, relations: Relations) {
    forall kind :: kind in reg.relations ==>
      var schema := reg.relations[kind];
      && (schema.uniquePair ==> PairsUnique(relations, kind))
      && (schema.maxOutgoing.Some? ==> LeavingWithin(relations, kind, schema.maxOutgoing.value))
      && (schema.maxIncoming.Some? ==> ReachingWithin(relations, kind, schema.maxIncoming.value))
  }

  lemma LeavingIff(relations: Relations, kind: Bytes, limit: nat)
    ensures Limited(relations, kind, ByFrom, limit) <==> LeavingWithin(relations, kind, limit)
  {
    forall node: Ref, t: Millis
      ensures Live(relations, relations.Keys, kind, ByFrom, (Some(node), None), t) == Leaving(relations, kind, node, t)
    {
    }
    forall key: Key, t: Millis
      ensures key.0.None? || key.1.Some? ==> Live(relations, relations.Keys, kind, ByFrom, key, t) == {}
      ensures key.0.Some? && key.1.None? ==> key == (Some(key.0.value), None)
    {
    }
    hide Leaving;
    hide Live;
    if Limited(relations, kind, ByFrom, limit) {
      forall node, t ensures |Leaving(relations, kind, node, t)| <= limit {
        assert |Live(relations, relations.Keys, kind, ByFrom, (Some(node), None), t)| <= limit;
      }
    }
  }

  lemma ReachingIff(relations: Relations, kind: Bytes, limit: nat)
    ensures Limited(relations, kind, ByTo, limit) <==> ReachingWithin(relations, kind, limit)
  {
    forall node: Ref, t: Millis
      ensures Live(relations, relations.Keys, kind, ByTo, (None, Some(node)), t) == Reaching(relations, kind, node, t)
    {
    }
    forall key: Key, t: Millis
      ensures key.0.Some? || key.1.None? ==> Live(relations, relations.Keys, kind, ByTo, key, t) == {}
      ensures key.0.None? && key.1.Some? ==> key == (None, Some(key.1.value))
    {
    }
    hide Reaching;
    hide Live;
    if Limited(relations, kind, ByTo, limit) {
      forall node, t ensures |Reaching(relations, kind, node, t)| <= limit {
        assert |Live(relations, relations.Keys, kind, ByTo, (None, Some(node)), t)| <= limit;
      }
    }
  }

  lemma AtMostOne<T>(s: set<T>)
    ensures |s| <= 1 <==> forall x, y :: x in s && y in s ==> x == y
  {
    forall x, y | x in s && y in s && x != y ensures |s| >= 2 {
      SubsetSize({x, y}, s);
    }
    if |s| > 1 {
      var x :| x in s;
      assert |s - {x}| == |s| - 1;
      var y :| y in s - {x};
    }
  }

  lemma PairIff(relations: Relations, kind: Bytes)
    ensures Limited(relations, kind, ByPair, 1) <==> PairsUnique(relations, kind)
  {
    forall key: Key, t: Millis, r
      ensures r in Live(relations, relations.Keys, kind, ByPair, key, t) <==>
              r in HoldingAt(relations, kind, t) && key == (Some(relations[r].from), Some(relations[r].to))
    {
    }
    hide HoldingAt;
    hide Live;
    forall key: Key, t: Millis
      ensures var live := Live(relations, relations.Keys, kind, ByPair, key, t);
              |live| <= 1 <==> forall x, y :: x in live && y in live ==> x == y
    {
      AtMostOne(Live(relations, relations.Keys, kind, ByPair, key, t));
    }
    if Limited(relations, kind, ByPair, 1) {
      forall r, q, t | r in HoldingAt(relations, kind, t) && q in HoldingAt(relations, kind, t) && r != q
        ensures relations[r].from != relations[q].from || relations[r].to != relations[q].to
      {
        var live := Live(relations, relations.Keys, kind, ByPair, (Some(relations[r].from), Some(relations[r].to)), t);
        assert |live| <= 1 && r in live;
      }
    }
  }

  lemma LimitsIff(reg: Registry, relations: Relations)
    ensures (forall kind :: kind in reg.relations ==> RelationSchemaHolds(reg.relations[kind], kind, relations)) <==>
            WithinLimits(reg, relations)
  {
    hide Limited;
    hide PairsUnique;
    hide LeavingWithin;
    hide ReachingWithin;
    forall kind ensures Limited(relations, kind, ByPair, 1) <==>
        PairsUnique(relations, kind) { PairIff(relations, kind); }
    forall kind, limit: nat ensures Limited(relations, kind, ByFrom, limit) <==> LeavingWithin(relations, kind, limit) {
      LeavingIff(relations, kind, limit);
    }
    forall kind, limit: nat ensures Limited(relations, kind, ByTo, limit) <==> ReachingWithin(relations, kind, limit) {
      ReachingIff(relations, kind, limit);
    }
  }

  /** Two records share a value of a property that their kind declares unique. */
  predicate Alike(reg: Registry, a: Record, b: Record) {
    && a.reference.kind == b.reference.kind && a.reference.kind in reg.records
    && exists property ::
         && property in reg.records[a.reference.kind].unique && property in a.properties && property in b.properties
         && a.properties[property] == b.properties[property]
  }

  /** No two records alike hold at one instant before the last. */
  ghost predicate AllUnique(reg: Registry, records: Records) {
    forall r, q, t: Millis ::
      r in records && q in records && r != q && Alike(reg, records[r], records[q]) && t < U64_MAX ==>
      !(Holds(records[r].validFrom, records[r].validTo, t) && Holds(records[q].validFrom, records[q].validTo, t))
  }

  lemma UniqueIff(reg: Registry, records: Records)
    ensures (forall kind :: kind in reg.records ==> RecordSchemaHolds(reg.records[kind], kind, records)) <==>
            AllUnique(reg, records)
  {
    if forall kind :: kind in reg.records ==> RecordSchemaHolds(reg.records[kind], kind, records) {
      forall r, q, t: Millis | r in records && q in records && r != q && Alike(reg, records[r], records[q]) &&
          t < U64_MAX
        ensures !(Holds(records[r].validFrom, records[r].validTo, t) &&
                  Holds(records[q].validFrom, records[q].validTo, t))
      {
        var kind := records[r].reference.kind;
        var property :| && property in reg.records[kind].unique
                        && property in records[r].properties && property in records[q].properties
                        && records[r].properties[property] == records[q].properties[property];
        assert RecordSchemaHolds(reg.records[kind], kind, records);
        assert UniqueOk(records, kind, property);
        assert SameProperty(records[r], records[q], kind, property);
        assert !BothAt(records[r], records[q], t);
      }
    }
    if AllUnique(reg, records) {
      forall kind, property | kind in reg.records && property in reg.records[kind].unique
          ensures UniqueOk(records, kind, property) {
        forall r, q, t: Millis | r in records && q in records && r != q &&
            SameProperty(records[r], records[q], kind, property)
          ensures !BothAt(records[r], records[q], t)
        {
          assert Alike(reg, records[r], records[q]);
          if BothAt(records[r], records[q], t) {
            assert Holds(records[r].validFrom, records[r].validTo, t) &&
                   Holds(records[q].validFrom, records[q].validTo, t);
          }
        }
      }
    }
  }

  // ---- The reference decision ----

  /** The registry that governs a commit: its own, with the next revision, or else the one in force. */
  ghost predicate Governs(space: Space, ms: seq<Mutation>, reg: Registry) {
    || (&& (exists i :: 0 <= i < |ms| && ms[i] == SchemaMutation(reg))
        && reg.revision == 1 + if space.schema.Some? then space.schema.value.revision else 0)
    || ((forall i :: 0 <= i < |ms| ==> !ms[i].SchemaMutation?) && space.schema == Some(reg))
  }

  /** Every record a mutation refers to is in the table. */
  ghost predicate Refers(records: Records, m: Mutation) {
    match m
    case RelationMutation(r) => r.from in records && r.to in records
    case EventMutation(e) => e.subject.Some? ==> e.subject.value in records
    case OtherMutation(_, _, subjects, _, _) => forall i :: 0 <= i < |subjects| ==> subjects[i] in records
    case _ => true
  }

  /** What a commit must meet, with the tables that it would leave. */
  ghost predicate Acceptable(store: Store, commit: Commit, reg: Registry, after: Space) {
    && WellFormed(commit) && commit.expectedCursor == store.cursor
    && Governs(SpaceOf(store, commit.scope), commit.mutations, reg) && Sound(reg)
    && (forall i :: 0 <= i < |commit.mutations| ==> Conforms(reg, commit.mutations[i]))
    && WithinLimits(reg, after.relations) && AllUnique(reg, after.records)
    && (forall i :: 0 <= i < |commit.mutations| ==> Refers(after.records, commit.mutations[i]))
  }

  lemma {:induction false} ProposedIff(ms: seq<Mutation>)
    ensures ProposedSchema(ms).None? <==> forall i :: 0 <= i < |ms| ==> !ms[i].SchemaMutation?
    ensures ProposedSchema(ms).Some? ==> exists i :: 0 <= i < |ms| && ms[i] == SchemaMutation(ProposedSchema(ms).value)
  {
    if ms != [] {
      var front := ms[..|ms| - 1];
      ProposedIff(front);
      assert ms == front + [ms[|ms| - 1]];
      if ProposedSchema(front).Some? {
        var i :| 0 <= i < |front| && front[i] == SchemaMutation(ProposedSchema(front).value);
        assert ms[i] == front[i];
      } else if ms[|ms| - 1].SchemaMutation? {
        assert ms[|ms| - 1] == SchemaMutation(ProposedSchema(ms).value);
      }
    }
  }

  lemma GovernsIff(space: Space, ms: seq<Mutation>, reg: Registry)
    requires Distinct(ms)
    ensures EffectiveSchema(space.schema, ProposedSchema(ms)) == Some(reg) <==> Governs(space, ms, reg)
  {
    ProposedIff(ms);
    hide ProposedSchema;
  }

  /** Tables no constraint of the registry speaks of do not matter. */
  lemma UnneededRecords(reg: Registry, records: Records)
    requires !NeedsRecords(reg)
    ensures forall kind :: kind in reg.records ==> RecordSchemaHolds(reg.records[kind], kind, records)
  {
    hide UniqueOk;
  }

  lemma UnneededRelations(reg: Registry, relations: Relations)
    requires !NeedsRelations(reg)
    ensures forall kind :: kind in reg.relations ==> RelationSchemaHolds(reg.relations[kind], kind, relations)
  {
    hide Limited;
  }

  lemma {:induction false} MergedKeys(records: Records, ms: seq<Mutation>)
    ensures MergeRecords(records, ms).Keys == records.Keys + set i | 0 <= i < |ms| &&
            ms[i].RecordMutation? :: ms[i].record.reference
  {
    if ms != [] {
      var front, last := ms[..|ms| - 1], ms[|ms| - 1];
      MergedKeys(records, front);
      assert ms == front + [last];
      var before, all := set i | 0 <= i < |front| && front[i].RecordMutation? :: front[i].record.reference,
                         set i | 0 <= i < |ms| && ms[i].RecordMutation? :: ms[i].record.reference;
      if last.RecordMutation? {
        forall r | r in before ensures r in all {
          var i :| 0 <= i < |front| && front[i].RecordMutation? && front[i].record.reference == r;
          assert ms[i] == front[i];
        }
        assert ms[|ms| - 1].record.reference in all;
        assert all == before + {last.record.reference};
      } else {
        forall r | r in before ensures r in all {
          var i :| 0 <= i < |front| && front[i].RecordMutation? && front[i].record.reference == r;
          assert ms[i] == front[i];
        }
        assert all == before;
      }
    }
  }

  lemma ReferencesIff(space: Space, ms: seq<Mutation>)
    ensures ReferencesKnown(space, ms) <==>
            forall i :: 0 <= i < |ms| ==> Refers(MergeRecords(space.records, ms), ms[i])
  {
    MergedKeys(space.records, ms);
    var after := MergeRecords(space.records, ms);
    hide MergeRecords;
    forall i | 0 <= i < |ms|
      ensures Refers(after, ms[i]) <==> forall j :: 0 <= j < |Referred(ms[i])| ==> Referred(ms[i])[j] in after.Keys
    {
      RefersIff(after, ms[i]);
    }
    hide Refers;
    hide Referred;
  }

  lemma RefersIff(records: Records, m: Mutation)
    ensures Refers(records, m) <==> forall j :: 0 <= j < |Referred(m)| ==> Referred(m)[j] in records.Keys
  {
    var refs := Referred(m);
    match m
    case RelationMutation(r) => assert refs[0] == r.from && refs[1] == r.to;
    case EventMutation(e) => if e.subject.Some? { assert refs[0] == e.subject.value; }
    case _ =>
  }

  lemma ConstraintsIff(space: Space, ms: seq<Mutation>, reg: Registry)
    ensures SchemaHolds(reg, MergeRecords(if NeedsRecords(reg) then space.records else map[], ms),
                        MergeRelations(if NeedsRelations(reg) then space.relations else map[], ms)) <==>
            WithinLimits(reg, MergeRelations(space.relations, ms)) && AllUnique(reg, MergeRecords(space.records, ms))
  {
    var records, relations := MergeRecords(space.records, ms), MergeRelations(space.relations, ms);
    var someRecords := MergeRecords(if NeedsRecords(reg) then space.records else map[], ms);
    var someRelations := MergeRelations(if NeedsRelations(reg) then space.relations else map[], ms);
    LimitsIff(reg, relations);
    UniqueIff(reg, records);
    if !NeedsRecords(reg) {
      UnneededRecords(reg, records);
      UnneededRecords(reg, someRecords);
    }
    if !NeedsRelations(reg) {
      UnneededRelations(reg, relations);
      UnneededRelations(reg, someRelations);
    }
    hide NeedsRecords;
    hide NeedsRelations;
    hide RecordSchemaHolds;
    hide RelationSchemaHolds;
    hide WithinLimits;
    hide AllUnique;
  }

  /**
   The store accepts a commit if and only if some registry governs it under which it meets every condition spelt out
   above; the tables it leaves are the old ones with its records and relations written.
   */
  lemma AcceptedIff(store: Store, commit: Commit)
    ensures var space := SpaceOf(store, commit.scope);
            Accepts(store, commit) <==>
            exists reg :: Acceptable(store, commit, reg, SpaceAfter(space, commit.mutations))
  {
    hide Conforms;
    hide Typed;
    hide Sound;
    hide RegistryOk;
    hide WellFormed;
    hide ValidCommit;
    hide WithinLimits;
    hide AllUnique;
    hide SchemaHolds;
    hide Refers;
    hide ReferencesKnown;
    hide NeedsRecords;
    hide NeedsRelations;
    hide Governs;
    hide EffectiveSchema;
    var space, ms := SpaceOf(store, commit.scope), commit.mutations;
    WellFormedIff(commit);
    ReferencesIff(space, ms);
    if WellFormed(commit) {
      CommitDistinct(commit);
      forall reg ensures EffectiveSchema(space.schema, ProposedSchema(ms)) == Some(reg) <==> Governs(space, ms, reg) {
        GovernsIff(space, ms, reg);
      }
      var effective := EffectiveSchema(space.schema, ProposedSchema(ms));
      if effective.Some? {
        var reg := effective.value;
        SoundIff(reg);
        ConstraintsIff(space, ms, reg);
        forall m ensures Typed(reg, m) <==> Conforms(reg, m) { ConformsIff(reg, m); }
        assert Accepts(store, commit) <==> Acceptable(store, commit, reg, SpaceAfter(space, ms));
      }
    }
  }

  lemma CommitDistinct(commit: Commit)
    requires WellFormed(commit)
    ensures Distinct(commit.mutations)
  {
  }

  // ---- What every run guarantees ----

  /** The `k`th commit of a run is accepted. */
  ghost predicate Taken(commits: seq<Commit>, k: nat) {
    k < |commits| && Accepts(Run(EMPTY_STORE, commits[..k]), commits[k])
  }

  lemma AfterTaken(commits: seq<Commit>, k: nat)
    requires k < |commits|
    ensures Run(EMPTY_STORE, commits[..k + 1]) == AfterCommit(Run(EMPTY_STORE, commits[..k]), commits[k])
  {
    assert commits[..k + 1][..k] == commits[..k];
  }

  /**
   In every run, each accepted commit is well formed and conforms, mutation by mutation, to the registry in force after
   it, which is sound, and refers to records of its scope's table only.
   */
  lemma RunConforms(commits: seq<Commit>, k: nat, i: nat)
    requires Taken(commits, k) && i < |commits[k].mutations|
    ensures var after := SpaceOf(Run(EMPTY_STORE, commits[..k + 1]), commits[k].scope);
            && WellFormed(commits[k]) && after.schema.Some? && Sound(after.schema.value)
            && Conforms(after.schema.value, commits[k].mutations[i]) && Refers(after.records, commits[k].mutations[i])
  {
    hide Conforms;
    hide Sound;
    hide WellFormed;
    hide WithinLimits;
    hide AllUnique;
    hide Refers;
    hide Accepts;
    hide Governs;
    var store, commit := Run(EMPTY_STORE, commits[..k]), commits[k];
    AfterTaken(commits, k);
    AcceptedIff(store, commit);
    var space := SpaceOf(store, commit.scope);
    var reg :| Acceptable(store, commit, reg, SpaceAfter(space, commit.mutations));
    CommitDistinct(commit);
    GovernsIff(space, commit.mutations, reg);
    hide Run;
  }

  /**
   After every run the tables of every scope keep the limits and unique properties of its registry, which is sound.
   */
  lemma {:induction false} RunWithinLimits(commits: seq<Commit>, scope: Bytes)
    ensures var space := SpaceOf(Run(EMPTY_STORE, commits), scope);
            space.schema.Some? ==>
              Sound(space.schema.value) && WithinLimits(space.schema.value, space.relations) &&
                  AllUnique(space.schema.value, space.records)
  {
    hide Sound;
    hide WithinLimits;
    hide AllUnique;
    if commits != [] {
      var n := |commits| - 1;
      RunWithinLimits(commits[..n], scope);
      var before := Run(EMPTY_STORE, commits[..n]);
      CommitWithinLimits(before, commits[n], scope);
    }
  }

  lemma CommitWithinLimits(store: Store, commit: Commit, scope: Bytes)
    ensures var space, after := SpaceOf(store, scope), SpaceOf(AfterCommit(store, commit), scope);
            after == space ||
            (&& after.schema.Some? && Sound(after.schema.value)
             && WithinLimits(after.schema.value, after.relations) && AllUnique(after.schema.value, after.records))
  {
    hide Accepts;
    hide Conforms;
    hide Sound;
    hide WellFormed;
    hide WithinLimits;
    hide AllUnique;
    hide Refers;
    hide Governs;
    if Accepts(store, commit) && scope == commit.scope {
      AcceptedIff(store, commit);
      var space := SpaceOf(store, scope);
      var reg :| Acceptable(store, commit, reg, SpaceAfter(space, commit.mutations));
      CommitDistinct(commit);
      GovernsIff(space, commit.mutations, reg);
    }
  }

  /** No relation dangles: after every run each relation in a table joins records of the same scope's table. */
  lemma {:induction false} NothingDangles(commits: seq<Commit>, scope: Bytes, r: Ref)
    requires r in SpaceOf(Run(EMPTY_STORE, commits), scope).relations
    ensures var space := SpaceOf(Run(EMPTY_STORE, commits), scope);
            space.relations[r].from in space.records && space.relations[r].to in space.records
  {
    if commits != [] {
      var n := |commits| - 1;
      var before, commit := Run(EMPTY_STORE, commits[..n]), commits[n];
      var space := SpaceOf(before, scope);
      hide Run;
      if Accepts(before, commit) && scope == commit.scope {
        hide Accepts;
        AcceptedIff(before, commit);
        var reg :| Acceptable(before, commit, reg, SpaceAfter(space, commit.mutations));
        WrittenRelation(space.relations, commit.mutations, r);
        MergedKeys(space.records, commit.mutations);
        hide MergeRecords;
        hide MergeRelations;
        if i :| 0 <= i < |commit.mutations| && commit.mutations[i].RelationMutation?
                && commit.mutations[i].relation == SpaceAfter(space, commit.mutations).relations[r] {
          assert Refers(SpaceAfter(space, commit.mutations).records, commit.mutations[i]);
        } else {
          NothingDangles(commits[..n], scope, r);
        }
      } else {
        NothingDangles(commits[..n], scope, r);
      }
    }
  }

  /** A relation of the table after some mutations is one of theirs or was there before. */
  lemma {:induction false} WrittenRelation(relations: Relations, ms: seq<Mutation>, r: Ref)
    requires r in MergeRelations(relations, ms)
    ensures || (r in relations && MergeRelations(relations, ms)[r] == relations[r])
            || exists i :: 0 <= i < |ms| && ms[i].RelationMutation? &&
                ms[i].relation == MergeRelations(relations, ms)[r]
  {
    if ms != [] {
      var front, last := ms[..|ms| - 1], ms[|ms| - 1];
      assert ms == front + [last];
      if last.RelationMutation? && last.relation.reference == r {
        assert ms[|ms| - 1].relation == MergeRelations(relations, ms)[r];
      } else {
        WrittenRelation(relations, front, r);
        if i :| && 0 <= i < |front| && front[i].RelationMutation?
                && front[i].relation == MergeRelations(relations, front)[r]
        {
          assert ms[i] == front[i];
        }
      }
    }
  }

  /** How many registries a scope has been given. */
  function Registries(log: seq<Change>, scope: Bytes): nat {
    if log == [] then 0
    else
      var c := log[|log| - 1];
      Registries(log[..|log| - 1], scope) + if c.scope == scope && c.mutation.SchemaMutation? then 1 else 0
  }

  lemma {:induction false} RegistriesConcat(a: seq<Change>, b: seq<Change>, scope: Bytes)
    ensures Registries(a + b, scope) == Registries(a, scope) + Registries(b, scope)
  {
    if b == [] {
      assert a + b == a;
    } else {
      var n := |b| - 1;
      assert (a + b)[..|a + b| - 1] == a + b[..n];
      RegistriesConcat(a, b[..n], scope);
    }
  }

  lemma {:induction false} RegistriesOf(c: Commit, cursor: nat, n: nat, scope: Bytes)
    requires Distinct(c.mutations) && n <= |c.mutations|
    ensures Registries(Changes(c, cursor)[..n], scope) ==
            if scope == c.scope && exists i :: 0 <= i < n && c.mutations[i].SchemaMutation? then 1 else 0
  {
    if n > 0 {
      RegistriesOf(c, cursor, n - 1, scope);
      assert Changes(c, cursor)[..n][..n - 1] == Changes(c, cursor)[..n - 1];
    }
  }

  lemma CommitRevision(store: Store, commit: Commit, scope: Bytes)
    requires Accepts(store, commit)
    ensures var space, after := SpaceOf(store, scope), SpaceOf(AfterCommit(store, commit), scope);
            var more := Registries(Changes(commit, store.cursor), scope);
            && (more == 0 ==> after.schema == space.schema)
            && (more > 0 ==> more == 1 && after.schema.Some? && after.schema.value.revision == Revision(space) + 1)
  {
    hide Accepts;
    AcceptedIff(store, commit);
    var space, ms := SpaceOf(store, commit.scope), commit.mutations;
    var reg :| Acceptable(store, commit, reg, SpaceAfter(space, ms));
    CommitDistinct(commit);
    GovernsIff(space, ms, reg);
    hide Acceptable;
    RegistriesOf(commit, store.cursor, |ms|, scope);
    assert Changes(commit, store.cursor)[..|ms|] == Changes(commit, store.cursor);
    hide Registries;
    hide MergeRecords;
    hide MergeRelations;
    hide EffectiveSchema;
  }

  function Revision(space: Space): nat {
    if space.schema.Some? then space.schema.value.revision else 0
  }

  /** In every scope the registries carry the revisions 1, 2, 3, ...: the one in force has their number. */
  lemma {:induction false} RevisionsAreConsecutive(commits: seq<Commit>, scope: Bytes)
    ensures var store := Run(EMPTY_STORE, commits); Registries(store.log, scope) == Revision(SpaceOf(store, scope))
  {
    if commits != [] {
      var n := |commits| - 1;
      var before, commit := Run(EMPTY_STORE, commits[..n]), commits[n];
      RevisionsAreConsecutive(commits[..n], scope);
      hide Accepts;
      if Accepts(before, commit) {
        CommitRevision(before, commit, scope);
        RegistriesConcat(before.log, Changes(commit, before.cursor), scope);
      }
      hide Registries;
      hide SpaceAfter;
    }
  }
}
