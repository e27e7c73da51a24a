/**
 The runtime data model: references, versions, mutations, commits and changes (crates/vyrm-core/src/runtime.rs,
 schema.rs).
 */
module RuntimeModel {
  import opened Common
  import opened Keys

  datatype Ref = Ref(kind: Bytes, id: Bytes)

  datatype Value =
    | Null
    | Bool(truth: bool)
    | Integer(number: int)
    | Unsigned(natural: nat)
    | Decimal(decimal: Bytes)
    | Text(text: Bytes)
    | Digest(digest: Bytes)
    | List(items: seq<Value>)
    | Mapping(entries: map<Bytes, Value>)

  type Properties = map<Bytes, Value>

  datatype Record = Record(reference: Ref, validFrom: Millis, validTo: Option<Millis>, properties: Properties)

  datatype Relation = Relation(reference: Ref, from: Ref, to: Ref, validFrom: Millis, validTo: Option<Millis>,
                               properties: Properties)

  datatype Event = Event(kind: Bytes, subject: Option<Ref>, properties: Properties)

  // ---- Schemas ----

  datatype ValueType =
    | NullType | BoolType | IntegerType | UnsignedType | DecimalType | TextType | DigestType | ListType | MapType
  {
    predicate Matches(v: Value) {
      match this
      case NullType => v.Null?
      case BoolType => v.Bool?
      case IntegerType => v.Integer?
      case UnsignedType => v.Unsigned?
      case DecimalType => v.Decimal?
      case TextType => v.Text?
      case DigestType => v.Digest?
      case ListType => v.List?
      case MapType => v.Mapping?
    }
  }

  datatype PropertySchema = PropertySchema(valueType: ValueType, required: bool)

  datatype RecordSchema = RecordSchema(properties: map<Bytes, PropertySchema>, additional: bool, unique: set<Bytes>)

  datatype RelationSchema = RelationSchema(
    from: set<Bytes>, to: set<Bytes>, properties: map<Bytes, PropertySchema>, additional: bool,
    uniquePair: bool, maxOutgoing: Option<nat>, maxIncoming: Option<nat>)

  datatype EventSchema = EventSchema(
    subjectRequired: bool, subjectTypes: set<Bytes>, properties: map<Bytes, PropertySchema>, additional: bool)

  datatype Registry = Registry(
    revision: nat, migration: Bytes,
    records: map<Bytes, RecordSchema>, relations: map<Bytes, RelationSchema>, events: map<Bytes, EventSchema>)

  /** Names of properties and actors are not empty and hold no zero byte. */
  predicate ValidName(name: Bytes) {
    name != [] && 0 !in name
  }

  predicate DeclaredOk(properties: map<Bytes, PropertySchema>) {
    forall name :: name in properties ==> ValidName(name)
  }

  predicate RegistryOk(reg: Registry) {
    && reg.revision != 0 && ValidText(reg.migration)
    && (reg.records != map[] || reg.relations != map[] || reg.events != map[])
    && (forall kind :: kind in reg.records ==>
          DeclaredOk(reg.records[kind].properties) && reg.records[kind].unique <= reg.records[kind].properties.Keys)
    && (forall kind :: kind in reg.relations ==>
          var schema := reg.relations[kind];
          && schema.from != {} && schema.to != {} && schema.maxOutgoing != Some(0) && schema.maxIncoming != Some(0)
          && DeclaredOk(schema.properties))
    && (forall kind :: kind in reg.events ==> DeclaredOk(reg.events[kind].properties))
  }

  // ---- Commits ----

  datatype Family = VectorFamily | SampleFamily | GeoFamily | ObjectFamily

  /**
   Claims, vectors, samples, places and objects do not touch the graph: `valid` is the verdict of their own validation
   and `subjects` the records they refer to.
   */
  datatype Mutation =
    | RecordMutation(record: Record)
    | RelationMutation(relation: Relation)
    | EventMutation(event: Event)
    | SchemaMutation(registry: Registry)
    | ClaimMutation(valid: bool)
    | OtherMutation(family: Family, reference: Ref, subjects: seq<Ref>, properties: Properties, valid: bool)

  datatype Commit = Commit(scope: Bytes, at: Millis, actor: Bytes, expectedCursor: nat, mutations: seq<Mutation>)

  /** A mutation after the store has given it its global position. */
  datatype Change = Change(cursor: nat, scope: Bytes, at: Millis, mutation: Mutation)

  predicate ValidWindow(from: Millis, to: Option<Millis>) {
    to.Some? ==> to.value > from
  }

  predicate ValidAtWindow(from: Millis, to: Option<Millis>, at: Millis) {
    from <= at && (to.Some? ==> at < to.value)
  }

  predicate NamesOk(properties: Properties) {
    forall name :: name in properties ==> ValidName(name)
  }

  predicate ValidMutation(m: Mutation) {
    match m
    case RecordMutation(record) => ValidWindow(record.validFrom, record.validTo) && NamesOk(record.properties)
    case RelationMutation(relation) => ValidWindow(relation.validFrom, relation.validTo) && NamesOk(relation.properties)
    case EventMutation(event) => NamesOk(event.properties)
    case SchemaMutation(registry) => RegistryOk(registry)
    case ClaimMutation(valid) => valid
    case OtherMutation(_, _, _, properties, valid) => valid && NamesOk(properties)
  }

  predicate SameIdentity(a: Mutation, b: Mutation) {
    match (a, b)
    case (RecordMutation(r), RecordMutation(q)) => r.reference == q.reference
    case (RelationMutation(r), RelationMutation(q)) => r.reference == q.reference
    case (OtherMutation(f, r, _, _, _), OtherMutation(g, q, _, _, _)) => f == g && r == q
    case _ => false
  }

  /** A named actor, at least one mutation, each valid, at most one schema and no identity written twice. */
  predicate ValidCommit(c: Commit) {
    && ValidName(c.actor) && c.mutations != []
    && (forall i :: 0 <= i < |c.mutations| ==> ValidMutation(c.mutations[i]))
    && (forall i, j :: 0 <= i < j < |c.mutations| ==>
          var a, b := c.mutations[i], c.mutations[j];
          !(a.SchemaMutation? && b.SchemaMutation?) && !SameIdentity(a, b))
  }

  /** The changes a commit becomes, at consecutive cursors after `cursor`. */
  function Changes(c: Commit, cursor: nat): (changes: seq<Change>)
    ensures |changes| == |c.mutations|
  {
    seq(|c.mutations|, i requires 0 <= i < |c.mutations| => Change(cursor + i + 1, c.scope, c.at, c.mutations[i]))
  }

  function DecimalText(n: nat): Bytes {
    if n < 10 then [48 + n] else DecimalText(n / 10) + [48 + n % 10]
  }

  /** "cursor:" followed by the decimal cursor. */
  function CursorId(cursor: nat): Bytes {
    [99, 117, 114, 115, 111, 114, 58] + DecimalText(cursor)
  }

  // "emitted"
  const EMITTED: Bytes := [101, 109, 105, 116, 116, 101, 100]
}
