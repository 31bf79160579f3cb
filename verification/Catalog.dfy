/** Catalog contents, their canonical form and their fingerprint (catalog.rs). */
module Catalog {
  import opened JsonValue
  import opened Ordering
  import opened Wrappers
  import Strings

  const CATALOG_SCHEMA_VERSION: nat := 2

  datatype DatabaseEngine = Postgres | Mysql | Sqlite | Mongodb | Bigquery

  datatype ObjectKind = Table | View | MaterializedView | Routine | Sequence | Type | Trigger | Other

  datatype TypeFamily =
    | Boolean | Integer | Decimal | Float | Text | Binary | Json | Date | Time | Timestamp | Uuid
    | Array | Document | OtherFamily

  datatype ConstraintKind = Primary | Unique | Foreign | Check

  datatype SortDirection = Asc | Desc

  datatype ObjectRef = ObjectRef(
    catalog: Option<string>, namespace: Option<string>, name: string, kind: ObjectKind, nativeId: Option<string>)

  datatype Namespace = Namespace(name: string, comment: Option<string>)

  datatype Column = Column(
    name: string, ordinal: nat, nativeType: string, typeFamily: TypeFamily,
    length: Option<nat>, precision: Option<nat>, scale: Option<nat>, nullable: bool,
    defaultExpression: Option<string>, generatedExpression: Option<string>,
    identity: bool, autoIncrement: bool,
    collation: Option<string>, comment: Option<string>, sensitivity: Option<string>)

  datatype Constraint = Constraint(
    name: string, kind: ConstraintKind, columns: seq<string>,
    referencedRelation: Option<ObjectRef>, referencedColumns: seq<string>,
    checkExpression: Option<string>, updateAction: Option<string>, deleteAction: Option<string>,
    deferrable: bool, validated: bool)

  datatype IndexKey = IndexKey(column: Option<string>, expression: Option<string>, direction: Option<SortDirection>)

  datatype Index = Index(
    name: string, method_: Option<string>, keys: seq<IndexKey>, includedColumns: seq<string>,
    predicate_: Option<string>, unique: bool, valid: bool)

  datatype Relation = Relation(
    object_: ObjectRef, comment: Option<string>, rowEstimate: Option<int>, partitionParent: Option<ObjectRef>,
    partitionChildren: seq<ObjectRef>, columns: seq<Column>, constraints: seq<Constraint>, indexes: seq<Index>)

  datatype RoutineObject = RoutineObject(
    object_: ObjectRef, nativeKind: Option<string>, arguments: seq<string>, returnType: Option<string>,
    language: Option<string>, comment: Option<string>, detail: Option<string>, parent: Option<string>)

  datatype DatabaseObject = DatabaseObject(
    object_: ObjectRef, nativeKind: Option<string>, comment: Option<string>, detail: Option<string>,
    parent: Option<string>)

  datatype Contents = Contents(
    namespaces: seq<Namespace>, relations: seq<Relation>, routines: seq<RoutineObject>,
    otherObjects: seq<DatabaseObject>)

  // ---- Serialized form: objects in field order, absent options skipped ----

  /** The members serde writes for a struct: `names` in field order, absent options skipped. */
  function Members(names: seq<string>, values: seq<Option<JsonValue.Json>>): seq<Field>
    requires |names| == |values|
  {
    if names == [] then []
    else match values[0]
      case None => Members(names[1..], values[1..])
      case Some(v) => [Field(names[0], v)] + Members(names[1..], values[1..])
  }

  function Struct(names: seq<string>, values: seq<Option<JsonValue.Json>>): JsonValue.Json
    requires |names| == |values|
  {
    JsonValue.Object(Members(names, values))
  }

  function OfText(s: string): JsonValue.Json { JsonValue.String(s) }

  function OfNat(n: nat): JsonValue.Json { JsonValue.Number(Strings.Decimal(n)) }

  function List<T>(items: seq<T>, f: T -> JsonValue.Json): JsonValue.Json { JsonValue.Array(Map(items, f)) }

  function Given<T>(value: Option<T>, f: T -> JsonValue.Json): Option<JsonValue.Json>
  {
    match value case None => None case Some(v) => Some(f(v))
  }

  function EngineName(e: DatabaseEngine): string
  {
    match e case Postgres => "postgres" case Mysql => "mysql" case Sqlite => "sqlite"
            case Mongodb => "mongodb" case Bigquery => "bigquery"
  }

  function KindName(k: ObjectKind): string
  {
    match k case Table => "table" case View => "view" case MaterializedView => "materialized_view"
            case Routine => "routine" case Sequence => "sequence" case Type => "type"
            case Trigger => "trigger" case Other => "other"
  }

  function FamilyName(f: TypeFamily): string
  {
    match f
    case Boolean => "boolean" case Integer => "integer" case Decimal => "decimal" case Float => "float"
    case Text => "text" case Binary => "binary" case Json => "json" case Date => "date" case Time => "time"
    case Timestamp => "timestamp" case Uuid => "uuid" case Array => "array" case Document => "document"
    case OtherFamily => "other"
  }

  function ConstraintName(k: ConstraintKind): string
  {
    match k case Primary => "primary" case Unique => "unique" case Foreign => "foreign" case Check => "check"
  }

  function DirectionJson(d: SortDirection): JsonValue.Json { OfText(if d == Asc then "asc" else "desc") }

  const OBJECT_REF_FIELDS: seq<string> := [
    "catalog", "namespace", "name", "kind", "nativeId"
  ]

  function ObjectRefValues(o: ObjectRef): (v: seq<Option<JsonValue.Json>>)
    ensures |v| == |OBJECT_REF_FIELDS|
  {
    [
      Given(o.catalog, OfText), Given(o.namespace, OfText), Some(OfText(o.name)),
      Some(OfText(KindName(o.kind))), Given(o.nativeId, OfText)
    ]
  }

  function ObjectRefJson(o: ObjectRef): JsonValue.Json { Struct(OBJECT_REF_FIELDS, ObjectRefValues(o)) }

  const NAMESPACE_FIELDS: seq<string> := [
    "name", "comment"
  ]

  function NamespaceValues(n: Namespace): (v: seq<Option<JsonValue.Json>>)
    ensures |v| == |NAMESPACE_FIELDS|
  {
    [
      Some(OfText(n.name)), Given(n.comment, OfText)
    ]
  }

  function NamespaceJson(n: Namespace): JsonValue.Json { Struct(NAMESPACE_FIELDS, NamespaceValues(n)) }

  const COLUMN_FIELDS: seq<string> := [
    "name", "ordinal", "nativeType", "typeFamily", "length", "precision", "scale", "nullable",
    "defaultExpression", "generatedExpression", "identity", "autoIncrement", "collation", "comment",
    "sensitivity"
  ]

  function ColumnValues(c: Column): (v: seq<Option<JsonValue.Json>>)
    ensures |v| == |COLUMN_FIELDS|
  {
    [
      Some(OfText(c.name)), Some(OfNat(c.ordinal)), Some(OfText(c.nativeType)),
      Some(OfText(FamilyName(c.typeFamily))), Given(c.length, OfNat), Given(c.precision, OfNat),
      Given(c.scale, OfNat), Some(Bool(c.nullable)), Given(c.defaultExpression, OfText),
      Given(c.generatedExpression, OfText), Some(Bool(c.identity)), Some(Bool(c.autoIncrement)),
      Given(c.collation, OfText), Given(c.comment, OfText), Given(c.sensitivity, OfText)
    ]
  }

  function ColumnJson(c: Column): JsonValue.Json { Struct(COLUMN_FIELDS, ColumnValues(c)) }

  const CONSTRAINT_FIELDS: seq<string> := [
    "name", "kind", "columns", "referencedRelation", "referencedColumns", "checkExpression", "updateAction",
    "deleteAction", "deferrable", "validated"
  ]

  function ConstraintValues(c: Constraint): (v: seq<Option<JsonValue.Json>>)
    ensures |v| == |CONSTRAINT_FIELDS|
  {
    [
      Some(OfText(c.name)), Some(OfText(ConstraintName(c.kind))), Some(List(c.columns, OfText)),
      Given(c.referencedRelation, ObjectRefJson), Some(List(c.referencedColumns, OfText)),
      Given(c.checkExpression, OfText), Given(c.updateAction, OfText), Given(c.deleteAction, OfText),
      Some(Bool(c.deferrable)), Some(Bool(c.validated))
    ]
  }

  function ConstraintJson(c: Constraint): JsonValue.Json { Struct(CONSTRAINT_FIELDS, ConstraintValues(c)) }

  const INDEX_KEY_FIELDS: seq<string> := [
    "column", "expression", "direction"
  ]

  function IndexKeyValues(k: IndexKey): (v: seq<Option<JsonValue.Json>>)
    ensures |v| == |INDEX_KEY_FIELDS|
  {
    [
      Given(k.column, OfText), Given(k.expression, OfText), Given(k.direction, DirectionJson)
    ]
  }

  function IndexKeyJson(k: IndexKey): JsonValue.Json { Struct(INDEX_KEY_FIELDS, IndexKeyValues(k)) }

  const INDEX_FIELDS: seq<string> := [
    "name", "method", "keys", "includedColumns", "predicate", "unique", "valid"
  ]

  function IndexValues(i: Index): (v: seq<Option<JsonValue.Json>>)
    ensures |v| == |INDEX_FIELDS|
  {
    [
      Some(OfText(i.name)), Given(i.method_, OfText), Some(List(i.keys, IndexKeyJson)),
      Some(List(i.includedColumns, OfText)), Given(i.predicate_, OfText), Some(Bool(i.unique)),
      Some(Bool(i.valid))
    ]
  }

  function IndexJson(i: Index): JsonValue.Json { Struct(INDEX_FIELDS, IndexValues(i)) }

  /** The fingerprint payload of a relation: everything but the row estimate. */
  const RELATION_FIELDS: seq<string> := [
    "object", "comment", "partitionParent", "partitionChildren", "columns", "constraints", "indexes"
  ]

  function RelationValues(r: Relation): (v: seq<Option<JsonValue.Json>>)
    ensures |v| == |RELATION_FIELDS|
  {
    [
      Some(ObjectRefJson(r.object_)), Given(r.comment, OfText), Given(r.partitionParent, ObjectRefJson),
      Some(List(r.partitionChildren, ObjectRefJson)), Some(List(r.columns, ColumnJson)),
      Some(List(r.constraints, ConstraintJson)), Some(List(r.indexes, IndexJson))
    ]
  }

  function RelationPayload(r: Relation): JsonValue.Json { Struct(RELATION_FIELDS, RelationValues(r)) }

  const ROUTINE_FIELDS: seq<string> := [
    "object", "nativeKind", "arguments", "returnType", "language", "comment", "detail", "parent"
  ]

  function RoutineValues(r: RoutineObject): (v: seq<Option<JsonValue.Json>>)
    ensures |v| == |ROUTINE_FIELDS|
  {
    [
      Some(ObjectRefJson(r.object_)), Given(r.nativeKind, OfText), Some(List(r.arguments, OfText)),
      Given(r.returnType, OfText), Given(r.language, OfText), Given(r.comment, OfText), Given(r.detail, OfText),
      Given(r.parent, OfText)
    ]
  }

  function RoutineJson(r: RoutineObject): JsonValue.Json { Struct(ROUTINE_FIELDS, RoutineValues(r)) }

  const DATABASE_OBJECT_FIELDS: seq<string> := [
    "object", "nativeKind", "comment", "detail", "parent"
  ]

  function DatabaseObjectValues(d: DatabaseObject): (v: seq<Option<JsonValue.Json>>)
    ensures |v| == |DATABASE_OBJECT_FIELDS|
  {
    [
      Some(ObjectRefJson(d.object_)), Given(d.nativeKind, OfText), Given(d.comment, OfText),
      Given(d.detail, OfText), Given(d.parent, OfText)
    ]
  }

  function DatabaseObjectJson(d: DatabaseObject): JsonValue.Json
  {
    Struct(DATABASE_OBJECT_FIELDS, DatabaseObjectValues(d))
  }

  const PAYLOAD_FIELDS: seq<string> := [
    "schemaVersion", "engine", "namespaces", "relations", "routines", "otherObjects"
  ]

  function PayloadValues(engine: DatabaseEngine, c: Contents): (v: seq<Option<JsonValue.Json>>)
    ensures |v| == |PAYLOAD_FIELDS|
  {
    [
      Some(OfNat(CATALOG_SCHEMA_VERSION)), Some(OfText(EngineName(engine))),
      Some(List(c.namespaces, NamespaceJson)), Some(List(c.relations, RelationPayload)),
      Some(List(c.routines, RoutineJson)), Some(List(c.otherObjects, DatabaseObjectJson))
    ]
  }

  function Payload(engine: DatabaseEngine, c: Contents): JsonValue.Json
  {
    Struct(PAYLOAD_FIELDS, PayloadValues(engine, c))
  }
}
