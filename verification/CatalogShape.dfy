/** The JSON form of catalog entries, member by member: what is written, and exactly what is read (catalog.rs). */
module CatalogShape {
  import opened Catalog
  import opened CatalogReader
  import opened CatalogWire
  import opened JsonValue
  import opened Wrappers
  import CatalogSnapshot
  import JsonReader
  import Strings
  import Utf8

  /** A member and its value; members without one are left out. */
  datatype Part = Part(name: string, value: Option<JsonValue.Json>)

  function Present(parts: seq<Part>): seq<Field>
  {
    if parts == [] then []
    else (if parts[0].value.Some? then [Field(parts[0].name, parts[0].value.value)] else []) + Present(parts[1..])
  }

  function Parts(names: seq<string>, values: seq<Option<JsonValue.Json>>): seq<Part>
    requires |names| == |values|
  {
    seq(|names|, i requires 0 <= i < |names| => Part(names[i], values[i]))
  }

  lemma {:induction false} MembersPresent(names: seq<string>, values: seq<Option<JsonValue.Json>>)
    requires |names| == |values|
    ensures Members(names, values) == Present(Parts(names, values))
  {
    if names != [] {
      MembersPresent(names[1..], values[1..]);
      assert Parts(names, values)[1..] == Parts(names[1..], values[1..]);
    }
  }

  lemma SameParts(names: seq<string>, values: seq<Option<JsonValue.Json>>, parts: seq<Part>)
    requires |names| == |values| == |parts|
    requires forall i | 0 <= i < |parts| :: parts[i].name == names[i]
    requires forall i | 0 <= i < |parts| :: parts[i].value == values[i]
    ensures Struct(names, values) == JsonValue.Object(Present(parts))
  {
    MembersPresent(names, values);
    assert Parts(names, values) == parts;
  }

  // ---- Names ----

  lemma EngineNames(s: string, e: DatabaseEngine)
    ensures EngineOf(s) == Some(e) <==> s == EngineName(e)
    ensures EngineName(Postgres) == "postgres" && EngineName(Mysql) == "mysql" && EngineName(Sqlite) == "sqlite"
    ensures EngineName(Mongodb) == "mongodb" && EngineName(Bigquery) == "bigquery"
  {
    EngineReadsBack(e);
  }

  lemma KindNames(s: string, k: ObjectKind)
    ensures KindOf(s) == Some(k) <==> s == KindName(k)
    ensures KindName(ObjectKind.Table) == "table" && KindName(ObjectKind.View) == "view"
    ensures KindName(ObjectKind.MaterializedView) == "materialized_view" && KindName(ObjectKind.Routine) == "routine"
    ensures KindName(ObjectKind.Sequence) == "sequence" && KindName(ObjectKind.Type) == "type"
    ensures KindName(ObjectKind.Trigger) == "trigger" && KindName(ObjectKind.Other) == "other"
  {
    KindReadsBack(k);
  }

  lemma FamilyNamesRead(s: string, f: TypeFamily)
    ensures FamilyOf(s) == Some(f) <==> s == FamilyName(f)
  {
    FamilyReadsBack(f);
    hide FamilyName;
  }

  lemma FamilyNames()
    ensures FamilyName(TypeFamily.Boolean) == "boolean" && FamilyName(TypeFamily.Integer) == "integer"
    ensures FamilyName(TypeFamily.Decimal) == "decimal" && FamilyName(TypeFamily.Float) == "float"
    ensures FamilyName(TypeFamily.Text) == "text" && FamilyName(TypeFamily.Binary) == "binary"
    ensures FamilyName(TypeFamily.Json) == "json" && FamilyName(TypeFamily.Date) == "date"
    ensures FamilyName(TypeFamily.Time) == "time" && FamilyName(TypeFamily.Timestamp) == "timestamp"
    ensures FamilyName(TypeFamily.Uuid) == "uuid" && FamilyName(TypeFamily.Array) == "array"
    ensures FamilyName(TypeFamily.Document) == "document" && FamilyName(TypeFamily.OtherFamily) == "other"
  {
  }

  lemma ConstraintNames(s: string, k: ConstraintKind)
    ensures ConstraintKindOf(s) == Some(k) <==> s == ConstraintName(k)
    ensures ConstraintName(Primary) == "primary" && ConstraintName(Unique) == "unique"
    ensures ConstraintName(Foreign) == "foreign" && ConstraintName(Check) == "check"
  {
    ConstraintKindReadsBack(k);
  }

  lemma DirectionNames(v: JsonValue.Json)
    ensures ReadDirection(v) == Some(Asc) <==> v == JsonValue.String("asc")
    ensures ReadDirection(v) == Some(Desc) <==> v == JsonValue.String("desc")
    ensures DirectionJson(Asc) == JsonValue.String("asc") && DirectionJson(Desc) == JsonValue.String("desc")
  {
    assert "asc" != "desc";
  }

  // ---- What is written ----

  function ObjectRefParts(o: ObjectRef): seq<Part>
  {
    [
      Part("catalog", Given(o.catalog, OfText)), Part("namespace", Given(o.namespace, OfText)),
      Part("name", Some(OfText(o.name))), Part("kind", Some(OfText(KindName(o.kind)))),
      Part("nativeId", Given(o.nativeId, OfText))
    ]
  }

  lemma ObjectRefShape(o: ObjectRef)
    ensures ObjectRefJson(o) == JsonValue.Object(Present(ObjectRefParts(o)))
  {
    hide OfText, OfNat, Given, List, KindName, FamilyName, ConstraintName, Struct;
    SameParts(OBJECT_REF_FIELDS, ObjectRefValues(o), ObjectRefParts(o));
  }

  function NamespaceParts(n: Namespace): seq<Part>
  {
    [
      Part("name", Some(OfText(n.name))), Part("comment", Given(n.comment, OfText))
    ]
  }

  lemma NamespaceShape(n: Namespace)
    ensures NamespaceJson(n) == JsonValue.Object(Present(NamespaceParts(n)))
  {
    hide OfText, OfNat, Given, List, KindName, FamilyName, ConstraintName, Struct;
    SameParts(NAMESPACE_FIELDS, NamespaceValues(n), NamespaceParts(n));
  }

  function ColumnParts(c: Column): seq<Part>
  {
    [
      Part("name", Some(OfText(c.name))), Part("ordinal", Some(OfNat(c.ordinal))),
      Part("nativeType", Some(OfText(c.nativeType))), Part("typeFamily", Some(OfText(FamilyName(c.typeFamily)))),
      Part("length", Given(c.length, OfNat)), Part("precision", Given(c.precision, OfNat)),
      Part("scale", Given(c.scale, OfNat)), Part("nullable", Some(JsonValue.Bool(c.nullable))),
      Part("defaultExpression", Given(c.defaultExpression, OfText)),
      Part("generatedExpression", Given(c.generatedExpression, OfText)),
      Part("identity", Some(JsonValue.Bool(c.identity))),
      Part("autoIncrement", Some(JsonValue.Bool(c.autoIncrement))), Part("collation", Given(c.collation, OfText)),
      Part("comment", Given(c.comment, OfText)), Part("sensitivity", Given(c.sensitivity, OfText))
    ]
  }

  lemma ColumnShape(c: Column)
    ensures ColumnJson(c) == JsonValue.Object(Present(ColumnParts(c)))
  {
    hide OfText, OfNat, Given, List, KindName, FamilyName, ConstraintName, Struct;
    SameParts(COLUMN_FIELDS, ColumnValues(c), ColumnParts(c));
  }

  function ConstraintParts(c: Constraint): seq<Part>
  {
    [
      Part("name", Some(OfText(c.name))), Part("kind", Some(OfText(ConstraintName(c.kind)))),
      Part("columns", Some(List(c.columns, OfText))),
      Part("referencedRelation", Given(c.referencedRelation, ObjectRefJson)),
      Part("referencedColumns", Some(List(c.referencedColumns, OfText))),
      Part("checkExpression", Given(c.checkExpression, OfText)), Part("updateAction", Given(c.updateAction, OfText)),
      Part("deleteAction", Given(c.deleteAction, OfText)), Part("deferrable", Some(JsonValue.Bool(c.deferrable))),
      Part("validated", Some(JsonValue.Bool(c.validated)))
    ]
  }

  lemma ConstraintShape(c: Constraint)
    ensures ConstraintJson(c) == JsonValue.Object(Present(ConstraintParts(c)))
  {
    hide OfText, OfNat, Given, List, KindName, FamilyName, ConstraintName, Struct;
    SameParts(CONSTRAINT_FIELDS, ConstraintValues(c), ConstraintParts(c));
  }

  function IndexKeyParts(k: IndexKey): seq<Part>
  {
    [
      Part("column", Given(k.column, OfText)), Part("expression", Given(k.expression, OfText)),
      Part("direction", Given(k.direction, DirectionJson))
    ]
  }

  lemma IndexKeyShape(k: IndexKey)
    ensures IndexKeyJson(k) == JsonValue.Object(Present(IndexKeyParts(k)))
  {
    hide OfText, OfNat, Given, List, KindName, FamilyName, ConstraintName, Struct;
    SameParts(INDEX_KEY_FIELDS, IndexKeyValues(k), IndexKeyParts(k));
  }

  function IndexParts(x: Index): seq<Part>
  {
    [
      Part("name", Some(OfText(x.name))), Part("method", Given(x.method_, OfText)),
      Part("keys", Some(List(x.keys, IndexKeyJson))), Part("includedColumns", Some(List(x.includedColumns, OfText))),
      Part("predicate", Given(x.predicate_, OfText)), Part("unique", Some(JsonValue.Bool(x.unique))),
      Part("valid", Some(JsonValue.Bool(x.valid)))
    ]
  }

  lemma IndexShape(x: Index)
    ensures IndexJson(x) == JsonValue.Object(Present(IndexParts(x)))
  {
    hide OfText, OfNat, Given, List, KindName, FamilyName, ConstraintName, Struct;
    SameParts(INDEX_FIELDS, IndexValues(x), IndexParts(x));
  }

  function RoutineParts(r: RoutineObject): seq<Part>
  {
    [
      Part("object", Some(ObjectRefJson(r.object_))), Part("nativeKind", Given(r.nativeKind, OfText)),
      Part("arguments", Some(List(r.arguments, OfText))), Part("returnType", Given(r.returnType, OfText)),
      Part("language", Given(r.language, OfText)), Part("comment", Given(r.comment, OfText)),
      Part("detail", Given(r.detail, OfText)), Part("parent", Given(r.parent, OfText))
    ]
  }

  lemma RoutineShape(r: RoutineObject)
    ensures RoutineJson(r) == JsonValue.Object(Present(RoutineParts(r)))
  {
    hide OfText, OfNat, Given, List, KindName, FamilyName, ConstraintName, Struct;
    SameParts(ROUTINE_FIELDS, RoutineValues(r), RoutineParts(r));
  }

  function DatabaseObjectParts(d: DatabaseObject): seq<Part>
  {
    [
      Part("object", Some(ObjectRefJson(d.object_))), Part("nativeKind", Given(d.nativeKind, OfText)),
      Part("comment", Given(d.comment, OfText)), Part("detail", Given(d.detail, OfText)),
      Part("parent", Given(d.parent, OfText))
    ]
  }

  lemma DatabaseObjectShape(d: DatabaseObject)
    ensures DatabaseObjectJson(d) == JsonValue.Object(Present(DatabaseObjectParts(d)))
  {
    hide OfText, OfNat, Given, List, KindName, FamilyName, ConstraintName, Struct;
    SameParts(DATABASE_OBJECT_FIELDS, DatabaseObjectValues(d), DatabaseObjectParts(d));
  }

  function RelationParts(r: Relation): seq<Part>
  {
    [
      Part("object", Some(ObjectRefJson(r.object_))), Part("comment", Given(r.comment, OfText)),
      Part("rowEstimate", Given(r.rowEstimate, OfInt)),
      Part("partitionParent", Given(r.partitionParent, ObjectRefJson)),
      Part("partitionChildren", Some(List(r.partitionChildren, ObjectRefJson))),
      Part("columns", Some(List(r.columns, ColumnJson))),
      Part("constraints", Some(List(r.constraints, ConstraintJson))),
      Part("indexes", Some(List(r.indexes, IndexJson)))
    ]
  }

  lemma RelationShape(r: Relation)
    ensures WireRelationJson(r) == JsonValue.Object(Present(RelationParts(r)))
  {
    hide OfText, OfNat, Given, List, KindName, FamilyName, ConstraintName, Struct;
    SameParts(WIRE_RELATION_FIELDS, WireRelationValues(r), RelationParts(r));
  }

  /** What is fingerprinted of a relation lacks the row estimate. */
  function FingerprintParts(r: Relation): seq<Part>
  {
    [
      Part("object", Some(ObjectRefJson(r.object_))), Part("comment", Given(r.comment, OfText)),
      Part("partitionParent", Given(r.partitionParent, ObjectRefJson)),
      Part("partitionChildren", Some(List(r.partitionChildren, ObjectRefJson))),
      Part("columns", Some(List(r.columns, ColumnJson))),
      Part("constraints", Some(List(r.constraints, ConstraintJson))),
      Part("indexes", Some(List(r.indexes, IndexJson)))
    ]
  }

  lemma FingerprintShape(r: Relation)
    ensures RelationPayload(r) == JsonValue.Object(Present(FingerprintParts(r)))
  {
    hide OfText, OfNat, Given, List, Struct;
    SameParts(RELATION_FIELDS, RelationValues(r), FingerprintParts(r));
  }

  function PayloadParts(engine: DatabaseEngine, c: Contents): seq<Part>
  {
    [
      Part("schemaVersion", Some(OfNat(2))), Part("engine", Some(OfText(EngineName(engine)))),
      Part("namespaces", Some(List(c.namespaces, NamespaceJson))),
      Part("relations", Some(List(c.relations, RelationPayload))), Part("routines", Some(List(c.routines, RoutineJson))),
      Part("otherObjects", Some(List(c.otherObjects, DatabaseObjectJson)))
    ]
  }

  lemma PayloadShape(engine: DatabaseEngine, c: Contents)
    ensures Payload(engine, c) == JsonValue.Object(Present(PayloadParts(engine, c)))
  {
    hide OfText, OfNat, List, EngineName, Struct;
    SameParts(PAYLOAD_FIELDS, PayloadValues(engine, c), PayloadParts(engine, c));
  }

  /** The fingerprint is the hash of the UTF-8 text of that payload. */
  lemma FingerprintIs(h: CatalogSnapshot.Hash, engine: DatabaseEngine, c: Contents)
    ensures CatalogSnapshot.CatalogFingerprint(h, engine, c)
         == CatalogSnapshot.Hex(h(Utf8.Encode(Write(JsonValue.Object(Present(PayloadParts(engine, c)))))))
  {
    hide Write, Present, PayloadParts, CatalogSnapshot.Hex, Utf8.Encode;
    PayloadShape(engine, c);
  }

  function SnapshotParts(s: CatalogSnapshot.Snapshot): seq<Part>
  {
    [
      Part("schemaVersion", Some(OfNat(s.schemaVersion))), Part("connectionId", Some(OfText(s.connectionId))),
      Part("engine", Some(OfText(EngineName(s.engine)))), Part("database", Some(OfText(s.database))),
      Part("capturedAt", Some(OfText(s.capturedAt))), Part("fingerprint", Some(OfText(s.fingerprint))),
      Part("namespaces", Some(List(s.contents.namespaces, NamespaceJson))),
      Part("relations", Some(List(s.contents.relations, WireRelationJson))),
      Part("routines", Some(List(s.contents.routines, RoutineJson))),
      Part("otherObjects", Some(List(s.contents.otherObjects, DatabaseObjectJson)))
    ]
  }

  lemma SnapshotShape(s: CatalogSnapshot.Snapshot)
    ensures SnapshotJson(s) == JsonValue.Object(Present(SnapshotParts(s)))
  {
    hide OfText, OfNat, List, EngineName, Struct;
    SameParts(SNAPSHOT_FIELDS, SnapshotValues(s), SnapshotParts(s));
  }

  // ---- What is read ----

  /** An object with no member but these, and none twice. */
  predicate HasOnly(v: JsonValue.Json, names: seq<string>)
  {
    v.Object? && !Unknown(v.fields, names) && !Repeated(v.fields)
  }

  predicate IsNeeded<T(==)>(member: Option<JsonValue.Json>, x: T, read: Reader<T>)
  {
    member.Some? && read(member.value) == Some(x)
  }

  /** Absent and null both stand for none. */
  predicate IsOption<T(==)>(member: Option<JsonValue.Json>, x: Option<T>, read: Reader<T>)
  {
    if member == None || member == Some(Null) then x == None else x.Some? && read(member.value) == x
  }

  /** An absent list is empty; null is no list. */
  predicate IsList<T(==)>(member: Option<JsonValue.Json>, xs: seq<T>, read: Reader<T>)
  {
    if member == None then xs == []
    else member.value.Array? && |member.value.items| == |xs|
         && forall i | 0 <= i < |xs| :: read(member.value.items[i]) == Some(xs[i])
  }

  lemma {:induction false} AllRead<T>(items: seq<JsonValue.Json>, xs: seq<T>, read: Reader<T>)
    ensures ReadAll(items, read) == Some(xs)
       <==> |items| == |xs| && forall i | 0 <= i < |xs| :: read(items[i]) == Some(xs[i])
  {
    if items != [] {
      if xs != [] {
        AllRead(items[1..], xs[1..], read);
        assert xs == [xs[0]] + xs[1..];
        assert forall i | 1 <= i < |items| :: items[i] == items[1..][i - 1];
        assert forall i | 1 <= i < |xs| :: xs[i] == xs[1..][i - 1];
      }
    }
  }

  lemma ListMeans<T>(member: Option<JsonValue.Json>, xs: seq<T>, read: Reader<T>)
    ensures Items(member, read) == Some(xs) <==> IsList(member, xs, read)
  {
    if member.Some? && member.value.Array? { AllRead(member.value.items, xs, read); }
  }

  lemma OptionMeans<T>(member: Option<JsonValue.Json>, x: Option<T>, read: Reader<T>)
    ensures Optional(member, read) == Some(x) <==> IsOption(member, x, read)
  {
  }

  lemma RowGets(v: JsonValue.Json, names: seq<string>)
    ensures Row(v, names).Some? <==> HasOnly(v, names)
    ensures Row(v, names).Some? ==> forall i | 0 <= i < |names| :: Row(v, names).value[i] == Get(v, names[i])
  {
    if v.Object? { RowMeans(v.fields, names); }
  }

  ghost predicate IsObjectRef(v: JsonValue.Json, o: ObjectRef)
  {
    && HasOnly(v, [
         "catalog", "namespace", "name", "kind", "nativeId"])
    && IsOption(Get(v, "catalog"), o.catalog, ReadText)
    && IsOption(Get(v, "namespace"), o.namespace, ReadText)
    && Get(v, "name") == Some(JsonValue.String(o.name))
    && IsNeeded(Get(v, "kind"), o.kind, ReadKind)
    && IsOption(Get(v, "nativeId"), o.nativeId, ReadText)
  }

  lemma ObjectRefReads(v: JsonValue.Json, o: ObjectRef)
    ensures ReadObjectRef(v) == Some(o) <==> IsObjectRef(v, o)
  {
    RowGets(v, OBJECT_REF_FIELDS);
    OptionMeans(Get(v, "catalog"), o.catalog, ReadText);
    OptionMeans(Get(v, "namespace"), o.namespace, ReadText);
    OptionMeans(Get(v, "nativeId"), o.nativeId, ReadText);
    hide Row, Items, Optional, IsList, IsOption, Get, HasOnly;
  }

  ghost predicate IsNamespace(v: JsonValue.Json, n: Namespace)
  {
    && HasOnly(v, [
         "name", "comment"])
    && Get(v, "name") == Some(JsonValue.String(n.name))
    && IsOption(Get(v, "comment"), n.comment, ReadText)
  }

  lemma NamespaceReads(v: JsonValue.Json, n: Namespace)
    ensures ReadNamespace(v) == Some(n) <==> IsNamespace(v, n)
  {
    RowGets(v, NAMESPACE_FIELDS);
    OptionMeans(Get(v, "comment"), n.comment, ReadText);
    hide Row, Items, Optional, IsList, IsOption, Get, HasOnly;
  }

  ghost predicate IsColumn(v: JsonValue.Json, c: Column)
  {
    && HasOnly(v, [
         "name", "ordinal", "nativeType", "typeFamily", "length", "precision", "scale", "nullable",
         "defaultExpression", "generatedExpression", "identity", "autoIncrement", "collation", "comment",
         "sensitivity"])
    && Get(v, "name") == Some(JsonValue.String(c.name))
    && IsNeeded(Get(v, "ordinal"), c.ordinal, ReadNat)
    && Get(v, "nativeType") == Some(JsonValue.String(c.nativeType))
    && IsNeeded(Get(v, "typeFamily"), c.typeFamily, ReadFamily)
    && IsOption(Get(v, "length"), c.length, ReadNat)
    && IsOption(Get(v, "precision"), c.precision, ReadNat)
    && IsOption(Get(v, "scale"), c.scale, ReadNat)
    && Get(v, "nullable") == Some(JsonValue.Bool(c.nullable))
    && IsOption(Get(v, "defaultExpression"), c.defaultExpression, ReadText)
    && IsOption(Get(v, "generatedExpression"), c.generatedExpression, ReadText)
    && Get(v, "identity") == Some(JsonValue.Bool(c.identity))
    && Get(v, "autoIncrement") == Some(JsonValue.Bool(c.autoIncrement))
    && IsOption(Get(v, "collation"), c.collation, ReadText)
    && IsOption(Get(v, "comment"), c.comment, ReadText)
    && IsOption(Get(v, "sensitivity"), c.sensitivity, ReadText)
  }

  lemma ColumnReads(v: JsonValue.Json, c: Column)
    ensures ReadColumn(v) == Some(c) <==> IsColumn(v, c)
  {
    RowGets(v, COLUMN_FIELDS);
    OptionMeans(Get(v, "length"), c.length, ReadNat);
    OptionMeans(Get(v, "precision"), c.precision, ReadNat);
    OptionMeans(Get(v, "scale"), c.scale, ReadNat);
    OptionMeans(Get(v, "defaultExpression"), c.defaultExpression, ReadText);
    OptionMeans(Get(v, "generatedExpression"), c.generatedExpression, ReadText);
    OptionMeans(Get(v, "collation"), c.collation, ReadText);
    OptionMeans(Get(v, "comment"), c.comment, ReadText);
    OptionMeans(Get(v, "sensitivity"), c.sensitivity, ReadText);
    hide Row, Items, Optional, IsList, IsOption, Get, HasOnly;
  }

  ghost predicate IsConstraint(v: JsonValue.Json, c: Constraint)
  {
    && HasOnly(v, [
         "name", "kind", "columns", "referencedRelation", "referencedColumns", "checkExpression", "updateAction",
         "deleteAction", "deferrable", "validated"])
    && Get(v, "name") == Some(JsonValue.String(c.name))
    && IsNeeded(Get(v, "kind"), c.kind, ReadConstraintKind)
    && IsList(Get(v, "columns"), c.columns, ReadText)
    && IsOption(Get(v, "referencedRelation"), c.referencedRelation, ReadObjectRef)
    && IsList(Get(v, "referencedColumns"), c.referencedColumns, ReadText)
    && IsOption(Get(v, "checkExpression"), c.checkExpression, ReadText)
    && IsOption(Get(v, "updateAction"), c.updateAction, ReadText)
    && IsOption(Get(v, "deleteAction"), c.deleteAction, ReadText)
    && Get(v, "deferrable") == Some(JsonValue.Bool(c.deferrable))
    && Get(v, "validated") == Some(JsonValue.Bool(c.validated))
  }

  lemma ConstraintReads(v: JsonValue.Json, c: Constraint)
    ensures ReadConstraint(v) == Some(c) <==> IsConstraint(v, c)
  {
    RowGets(v, CONSTRAINT_FIELDS);
    ListMeans(Get(v, "columns"), c.columns, ReadText);
    OptionMeans(Get(v, "referencedRelation"), c.referencedRelation, ReadObjectRef);
    ListMeans(Get(v, "referencedColumns"), c.referencedColumns, ReadText);
    OptionMeans(Get(v, "checkExpression"), c.checkExpression, ReadText);
    OptionMeans(Get(v, "updateAction"), c.updateAction, ReadText);
    OptionMeans(Get(v, "deleteAction"), c.deleteAction, ReadText);
    hide Row, Items, Optional, IsList, IsOption, Get, HasOnly;
  }

  ghost predicate IsIndexKey(v: JsonValue.Json, k: IndexKey)
  {
    && HasOnly(v, [
         "column", "expression", "direction"])
    && IsOption(Get(v, "column"), k.column, ReadText)
    && IsOption(Get(v, "expression"), k.expression, ReadText)
    && IsOption(Get(v, "direction"), k.direction, ReadDirection)
  }

  lemma IndexKeyReads(v: JsonValue.Json, k: IndexKey)
    ensures ReadIndexKey(v) == Some(k) <==> IsIndexKey(v, k)
  {
    RowGets(v, INDEX_KEY_FIELDS);
    OptionMeans(Get(v, "column"), k.column, ReadText);
    OptionMeans(Get(v, "expression"), k.expression, ReadText);
    OptionMeans(Get(v, "direction"), k.direction, ReadDirection);
    hide Row, Items, Optional, IsList, IsOption, Get, HasOnly;
  }

  ghost predicate IsIndex(v: JsonValue.Json, x: Index)
  {
    && HasOnly(v, [
         "name", "method", "keys", "includedColumns", "predicate", "unique", "valid"])
    && Get(v, "name") == Some(JsonValue.String(x.name))
    && IsOption(Get(v, "method"), x.method_, ReadText)
    && IsList(Get(v, "keys"), x.keys, ReadIndexKey)
    && IsList(Get(v, "includedColumns"), x.includedColumns, ReadText)
    && IsOption(Get(v, "predicate"), x.predicate_, ReadText)
    && Get(v, "unique") == Some(JsonValue.Bool(x.unique))
    && Get(v, "valid") == Some(JsonValue.Bool(x.valid))
  }

  lemma IndexReads(v: JsonValue.Json, x: Index)
    ensures ReadIndex(v) == Some(x) <==> IsIndex(v, x)
  {
    RowGets(v, INDEX_FIELDS);
    OptionMeans(Get(v, "method"), x.method_, ReadText);
    ListMeans(Get(v, "keys"), x.keys, ReadIndexKey);
    ListMeans(Get(v, "includedColumns"), x.includedColumns, ReadText);
    OptionMeans(Get(v, "predicate"), x.predicate_, ReadText);
    hide Row, Items, Optional, IsList, IsOption, Get, HasOnly;
  }

  ghost predicate IsRoutine(v: JsonValue.Json, r: RoutineObject)
  {
    && HasOnly(v, [
         "object", "nativeKind", "arguments", "returnType", "language", "comment", "detail", "parent"])
    && IsNeeded(Get(v, "object"), r.object_, ReadObjectRef)
    && IsOption(Get(v, "nativeKind"), r.nativeKind, ReadText)
    && IsList(Get(v, "arguments"), r.arguments, ReadText)
    && IsOption(Get(v, "returnType"), r.returnType, ReadText)
    && IsOption(Get(v, "language"), r.language, ReadText)
    && IsOption(Get(v, "comment"), r.comment, ReadText)
    && IsOption(Get(v, "detail"), r.detail, ReadText)
    && IsOption(Get(v, "parent"), r.parent, ReadText)
  }

  lemma RoutineReads(v: JsonValue.Json, r: RoutineObject)
    ensures ReadRoutine(v) == Some(r) <==> IsRoutine(v, r)
  {
    RowGets(v, ROUTINE_FIELDS);
    OptionMeans(Get(v, "nativeKind"), r.nativeKind, ReadText);
    ListMeans(Get(v, "arguments"), r.arguments, ReadText);
    OptionMeans(Get(v, "returnType"), r.returnType, ReadText);
    OptionMeans(Get(v, "language"), r.language, ReadText);
    OptionMeans(Get(v, "comment"), r.comment, ReadText);
    OptionMeans(Get(v, "detail"), r.detail, ReadText);
    OptionMeans(Get(v, "parent"), r.parent, ReadText);
    hide Row, Items, Optional, IsList, IsOption, Get, HasOnly;
  }

  ghost predicate IsDatabaseObject(v: JsonValue.Json, d: DatabaseObject)
  {
    && HasOnly(v, [
         "object", "nativeKind", "comment", "detail", "parent"])
    && IsNeeded(Get(v, "object"), d.object_, ReadObjectRef)
    && IsOption(Get(v, "nativeKind"), d.nativeKind, ReadText)
    && IsOption(Get(v, "comment"), d.comment, ReadText)
    && IsOption(Get(v, "detail"), d.detail, ReadText)
    && IsOption(Get(v, "parent"), d.parent, ReadText)
  }

  lemma DatabaseObjectReads(v: JsonValue.Json, d: DatabaseObject)
    ensures ReadDatabaseObject(v) == Some(d) <==> IsDatabaseObject(v, d)
  {
    RowGets(v, DATABASE_OBJECT_FIELDS);
    OptionMeans(Get(v, "nativeKind"), d.nativeKind, ReadText);
    OptionMeans(Get(v, "comment"), d.comment, ReadText);
    OptionMeans(Get(v, "detail"), d.detail, ReadText);
    OptionMeans(Get(v, "parent"), d.parent, ReadText);
    hide Row, Items, Optional, IsList, IsOption, Get, HasOnly;
  }

  ghost predicate IsRelation(v: JsonValue.Json, r: Relation)
  {
    && HasOnly(v, [
         "object", "comment", "rowEstimate", "partitionParent", "partitionChildren", "columns", "constraints",
         "indexes"])
    && IsNeeded(Get(v, "object"), r.object_, ReadObjectRef)
    && IsOption(Get(v, "comment"), r.comment, ReadText)
    && IsOption(Get(v, "rowEstimate"), r.rowEstimate, ReadInt)
    && IsOption(Get(v, "partitionParent"), r.partitionParent, ReadObjectRef)
    && IsList(Get(v, "partitionChildren"), r.partitionChildren, ReadObjectRef)
    && IsList(Get(v, "columns"), r.columns, ReadColumn)
    && IsList(Get(v, "constraints"), r.constraints, ReadConstraint)
    && IsList(Get(v, "indexes"), r.indexes, ReadIndex)
  }

  lemma RelationReads(v: JsonValue.Json, r: Relation)
    ensures ReadRelation(v) == Some(r) <==> IsRelation(v, r)
  {
    RowGets(v, WIRE_RELATION_FIELDS);
    OptionMeans(Get(v, "comment"), r.comment, ReadText);
    OptionMeans(Get(v, "rowEstimate"), r.rowEstimate, ReadInt);
    OptionMeans(Get(v, "partitionParent"), r.partitionParent, ReadObjectRef);
    ListMeans(Get(v, "partitionChildren"), r.partitionChildren, ReadObjectRef);
    ListMeans(Get(v, "columns"), r.columns, ReadColumn);
    ListMeans(Get(v, "constraints"), r.constraints, ReadConstraint);
    ListMeans(Get(v, "indexes"), r.indexes, ReadIndex);
    hide Row, Items, Optional, IsList, IsOption, Get, HasOnly;
  }

  /** Row estimates: an optional minus sign and digits, but no minus before a zero. */
  lemma IntReads(v: JsonValue.Json, i: int)
    ensures ReadInt(v) == Some(i) <==>
              && v.Number?
              && if i < 0 then v.repr[0] == '-' && Strings.ReadDecimal(v.repr[1..]) == Some(-i)
                 else v.repr[0] != '-' && Strings.ReadDecimal(v.repr) == Some(i)
  {
    hide Strings.ReadDecimal;
  }

  ghost predicate IsSnapshot(v: JsonValue.Json, s: CatalogSnapshot.Snapshot)
  {
    && HasOnly(v, ["schemaVersion", "connectionId", "engine", "database", "capturedAt", "fingerprint", "namespaces",
                   "relations", "routines", "otherObjects"])
    && IsNeeded(Get(v, "schemaVersion"), s.schemaVersion, ReadNat) && IsNeeded(Get(v, "engine"), s.engine, ReadEngine)
    && Get(v, "connectionId") == Some(JsonValue.String(s.connectionId))
    && Get(v, "database") == Some(JsonValue.String(s.database))
    && Get(v, "capturedAt") == Some(JsonValue.String(s.capturedAt))
    && Get(v, "fingerprint") == Some(JsonValue.String(s.fingerprint))
    && IsList(Get(v, "namespaces"), s.contents.namespaces, ReadNamespace)
    && IsList(Get(v, "relations"), s.contents.relations, ReadRelation)
    && IsList(Get(v, "routines"), s.contents.routines, ReadRoutine)
    && IsList(Get(v, "otherObjects"), s.contents.otherObjects, ReadDatabaseObject)
  }

  lemma SnapshotReads(v: JsonValue.Json, s: CatalogSnapshot.Snapshot)
    ensures ReadWire(v) == Some(s) <==> IsSnapshot(v, s)
  {
    RowGets(v, SNAPSHOT_FIELDS);
    ListMeans(Get(v, "namespaces"), s.contents.namespaces, ReadNamespace);
    ListMeans(Get(v, "relations"), s.contents.relations, ReadRelation);
    ListMeans(Get(v, "routines"), s.contents.routines, ReadRoutine);
    ListMeans(Get(v, "otherObjects"), s.contents.otherObjects, ReadDatabaseObject);
    hide Row, Items, IsList, Get, HasOnly, ReadEngine;
  }

  /** JSON of another form is refused as such; a snapshot is checked, and the check decides. */
  lemma DeserializeMeans(h: CatalogSnapshot.Hash, v: JsonValue.Json, wire: CatalogSnapshot.Snapshot)
    ensures IsSnapshot(v, wire) ==>
              var checked := CatalogSnapshot.FromWire(h, wire);
              Deserialize(h, v) == if checked.Ok? then Ok(checked.value) else Err(ReadError.Catalog(checked.error))
    ensures Deserialize(h, v) == Err(Shape) <==> forall s :: !IsSnapshot(v, s)
  {
    hide IsSnapshot, ReadWire, CatalogSnapshot.FromWire;
    SnapshotReads(v, wire);
    forall s ensures ReadWire(v) == Some(s) <==> IsSnapshot(v, s) { SnapshotReads(v, s); }
  }

  // ---- Fingerprints ----

  /** The text of a fingerprint: 64 lower-case hexadecimal digits. */
  lemma FingerprintMeans(s: string)
    ensures CatalogSnapshot.ValidFingerprint(s) <==> |s| == 64 && forall i | 0 <= i < |s| :: s[i] in "0123456789abcdef"
  {
    if CatalogSnapshot.ValidFingerprint(s) { AsciiDecodes(s); }
    if forall i | 0 <= i < |s| :: s[i] in "0123456789abcdef" { CatalogSnapshot.AsciiEncodes(s); }
  }

  /** Two digits for each byte, the high one first. */
  lemma {:induction false} HexDigits(bytes: seq<Utf8.byte>, i: nat)
    requires i < |bytes|
    ensures var s := CatalogSnapshot.Hex(bytes);
            var high, low := JsonReader.HexValue(s[2 * i]), JsonReader.HexValue(s[2 * i + 1]);
            high.Some? && low.Some? && bytes[i] == high.value * 16 + low.value
  {
    var b, rest := bytes[0], CatalogSnapshot.Hex(bytes[1..]);
    assert CatalogSnapshot.Hex(bytes) == CatalogSnapshot.HexPair(b) + rest;
    if i == 0 {
      DigitValue(b / 16);
      DigitValue(b % 16);
    } else {
      HexDigits(bytes[1..], i - 1);
    }
  }

  lemma DigitValue(n: nat)
    requires n < 16
    ensures JsonReader.HexValue(CatalogSnapshot.HEX[n]) == Some(n)
  {
  }

  lemma {:induction false} AsciiDecodes(s: string)
    requires forall i | 0 <= i < |Utf8.Encode(s)| :: Utf8.Encode(s)[i] < 128
    ensures |Utf8.Encode(s)| == |s| && forall i | 0 <= i < |s| :: s[i] as int == Utf8.Encode(s)[i]
  {
    if s != [] {
      var first, rest := Utf8.EncodeChar(s[0]), Utf8.Encode(s[1..]);
      assert Utf8.Encode(s)[0] == first[0] < 128;
      assert forall i | 0 <= i < |rest| :: rest[i] == Utf8.Encode(s)[|first| + i];
      AsciiDecodes(s[1..]);
    }
  }
}
