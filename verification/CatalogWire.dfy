/** Snapshots as JSON: what is written, what is read, and that nothing is lost in between (catalog.rs). */
module CatalogWire {
  import opened Catalog
  import opened CatalogReader
  import opened CatalogSnapshot
  import opened JsonValue
  import opened Wrappers
  import CatalogEncoding
  import JsonReader
  import Strings

  // ---- Writing ----

  /** A relation on the wire carries its row estimate, which the fingerprint payload leaves out. */
  const WIRE_RELATION_FIELDS: seq<string> := [
    "object", "comment", "rowEstimate", "partitionParent", "partitionChildren", "columns", "constraints", "indexes"
  ]

  function WireRelationValues(r: Relation): (v: seq<Option<JsonValue.Json>>)
    ensures |v| == |WIRE_RELATION_FIELDS|
  {
    [
      Some(ObjectRefJson(r.object_)), Given(r.comment, OfText), Given(r.rowEstimate, OfInt),
      Given(r.partitionParent, ObjectRefJson), Some(List(r.partitionChildren, ObjectRefJson)),
      Some(List(r.columns, ColumnJson)), Some(List(r.constraints, ConstraintJson)), Some(List(r.indexes, IndexJson))
    ]
  }

  function WireRelationJson(r: Relation): JsonValue.Json { Struct(WIRE_RELATION_FIELDS, WireRelationValues(r)) }

  const SNAPSHOT_FIELDS: seq<string> := [
    "schemaVersion", "connectionId", "engine", "database", "capturedAt", "fingerprint", "namespaces", "relations",
    "routines", "otherObjects"
  ]

  function SnapshotValues(s: Snapshot): (v: seq<Option<JsonValue.Json>>)
    ensures |v| == |SNAPSHOT_FIELDS|
  {
    [
      Some(OfNat(s.schemaVersion)), Some(OfText(s.connectionId)), Some(OfText(EngineName(s.engine))),
      Some(OfText(s.database)), Some(OfText(s.capturedAt)), Some(OfText(s.fingerprint)),
      Some(List(s.contents.namespaces, NamespaceJson)), Some(List(s.contents.relations, WireRelationJson)),
      Some(List(s.contents.routines, RoutineJson)), Some(List(s.contents.otherObjects, DatabaseObjectJson))
    ]
  }

  function SnapshotJson(s: Snapshot): JsonValue.Json { Struct(SNAPSHOT_FIELDS, SnapshotValues(s)) }

  // ---- Reading ----

  function ReadRelation(v: JsonValue.Json): Option<Relation>
  {
    var row := Row(v, WIRE_RELATION_FIELDS);
    if row.None? then None else RelationOf(row.value)
  }

  function RelationOf(r: seq<Option<JsonValue.Json>>): Option<Relation>
    requires |r| == |WIRE_RELATION_FIELDS|
  {
    var object_, comment, estimate := Needed(r[0], ReadObjectRef), Optional(r[1], ReadText), Optional(r[2], ReadInt);
    var parent, children := Optional(r[3], ReadObjectRef), Items(r[4], ReadObjectRef);
    var columns, constraints, indexes := Items(r[5], ReadColumn), Items(r[6], ReadConstraint), Items(r[7], ReadIndex);
    if object_.None? || comment.None? || estimate.None? || parent.None? || children.None? || columns.None?
       || constraints.None? || indexes.None? then None
    else
      Some(Relation(object_.value, comment.value, estimate.value, parent.value, children.value, columns.value,
                    constraints.value, indexes.value))
  }

  /** `WireCatalogSnapshot`. */
  function ReadWire(v: JsonValue.Json): Option<Snapshot>
  {
    var row := Row(v, SNAPSHOT_FIELDS);
    if row.None? then None else SnapshotOf(row.value)
  }

  function ContentsOf(r: seq<Option<JsonValue.Json>>): Option<Contents>
    requires |r| == |SNAPSHOT_FIELDS|
  {
    var namespaces, relations := Items(r[6], ReadNamespace), Items(r[7], ReadRelation);
    var routines, others := Items(r[8], ReadRoutine), Items(r[9], ReadDatabaseObject);
    if namespaces.None? || relations.None? || routines.None? || others.None? then None
    else Some(Contents(namespaces.value, relations.value, routines.value, others.value))
  }

  function SnapshotOf(r: seq<Option<JsonValue.Json>>): Option<Snapshot>
    requires |r| == |SNAPSHOT_FIELDS|
  {
    var version, connectionId, engine := Needed(r[0], ReadNat), Needed(r[1], ReadText), Needed(r[2], ReadEngine);
    var database, capturedAt, fingerprint := Needed(r[3], ReadText), Needed(r[4], ReadText), Needed(r[5], ReadText);
    var contents := ContentsOf(r);
    if version.None? || connectionId.None? || engine.None? || database.None? || capturedAt.None? || fingerprint.None?
       || contents.None? then None
    else
      Some(Snapshot(version.value, connectionId.value, engine.value, database.value, capturedAt.value,
                    fingerprint.value, contents.value))
  }

  datatype ReadError = Shape | Catalog(error: CatalogError)

  /** `CatalogSnapshot::deserialize`: the record first, then everything `new` checks. */
  function Deserialize(h: Hash, v: JsonValue.Json): Result<Snapshot, ReadError>
  {
    match ReadWire(v)
    case None => Err(Shape)
    case Some(wire) =>
      match FromWire(h, wire) case Ok(s) => Ok(s) case Err(e) => Err(Catalog(e))
  }

  // ---- Reading undoes writing ----

  lemma WireRelationFields()
    ensures CatalogEncoding.Distinct(WIRE_RELATION_FIELDS)
  {
  }

  lemma SnapshotFields()
    ensures CatalogEncoding.Distinct(SNAPSHOT_FIELDS)
  {
  }

  lemma RelationPartsReadBack(r: Relation)
    ensures Items(Some(List(r.partitionChildren, ObjectRefJson)), ReadObjectRef) == Some(r.partitionChildren)
    ensures Items(Some(List(r.columns, ColumnJson)), ReadColumn) == Some(r.columns)
    ensures Items(Some(List(r.constraints, ConstraintJson)), ReadConstraint) == Some(r.constraints)
    ensures Items(Some(List(r.indexes, IndexJson)), ReadIndex) == Some(r.indexes)
  {
    hide Items, List, ReadsBack;
    ObjectRefsReadBack();
    ColumnsReadBack();
    ConstraintsReadBack();
    IndexesReadBack();
    ListReadsBack(r.partitionChildren, ObjectRefJson, ReadObjectRef);
    ListReadsBack(r.columns, ColumnJson, ReadColumn);
    ListReadsBack(r.constraints, ConstraintJson, ReadConstraint);
    ListReadsBack(r.indexes, IndexJson, ReadIndex);
  }

  lemma RelationOptionsReadBack(r: Relation)
    ensures Needed(Some(ObjectRefJson(r.object_)), ReadObjectRef) == Some(r.object_)
    ensures Optional(Given(r.comment, OfText), ReadText) == Some(r.comment)
    ensures Optional(Given(r.rowEstimate, OfInt), ReadInt) == Some(r.rowEstimate)
    ensures Optional(Given(r.partitionParent, ObjectRefJson), ReadObjectRef) == Some(r.partitionParent)
  {
    hide Optional, Given, ReadObjectRef, ObjectRefJson, OfInt, ReadInt;
    TextReadsBack();
    IntReadsBack();
    ObjectRefsReadBack();
    OptionalReadsBack(r.comment, OfText, ReadText);
    OptionalReadsBack(r.rowEstimate, OfInt, ReadInt);
    OptionalReadsBack(r.partitionParent, ObjectRefJson, ReadObjectRef);
  }

  lemma RelationValuesReadBack(r: Relation)
    ensures RelationOf(WireRelationValues(r)) == Some(r)
  {
    RelationPartsReadBack(r);
    RelationOptionsReadBack(r);
    hide Needed, Optional, Given, Items, List, ReadsBack;
  }

  lemma RelationsReadBack()
    ensures ReadsBack(WireRelationJson, ReadRelation)
  {
    hide Row, Struct, RelationOf, WireRelationValues;
    WireRelationFields();
    forall r ensures ReadRelation(WireRelationJson(r)) == Some(r) && WireRelationJson(r) != Null {
      RowOfStruct(WIRE_RELATION_FIELDS, WireRelationValues(r));
      RelationValuesReadBack(r);
    }
  }

  lemma ContentsReadBack(s: Snapshot)
    ensures ContentsOf(SnapshotValues(s)) == Some(s.contents)
  {
    var c := s.contents;
    NamespacesReadBack();
    RelationsReadBack();
    RoutinesReadBack();
    DatabaseObjectsReadBack();
    ListReadsBack(c.namespaces, NamespaceJson, ReadNamespace);
    ListReadsBack(c.relations, WireRelationJson, ReadRelation);
    ListReadsBack(c.routines, RoutineJson, ReadRoutine);
    ListReadsBack(c.otherObjects, DatabaseObjectJson, ReadDatabaseObject);
    hide Items, List, ReadsBack, OfText, OfNat;
  }

  /** Every snapshot, whatever its options and lists, is read back from its JSON form member by member. */
  lemma SnapshotReadsBack(s: Snapshot)
    ensures ReadWire(SnapshotJson(s)) == Some(s)
  {
    SnapshotFields();
    RowOfStruct(SNAPSHOT_FIELDS, SnapshotValues(s));
    ContentsReadBack(s);
    EngineReadsBack(s.engine);
    Strings.DecimalReads(s.schemaVersion);
    hide Row, Struct, ContentsOf, List, EngineOf, EngineName, Strings.Decimal, Strings.ReadDecimal;
  }

  /** So the text of a snapshot determines the snapshot. */
  lemma SnapshotTextTells(s: Snapshot, t: Snapshot)
    requires Write(SnapshotJson(s)) == Write(SnapshotJson(t))
    ensures s == t
  {
    JsonReader.WriteInjective(SnapshotJson(s), SnapshotJson(t));
    SnapshotReadsBack(s);
    SnapshotReadsBack(t);
  }

  /** A captured snapshot comes back from its JSON form, also when its entries were written in another order. */
  lemma CaptureSurvivesJson(h: Hash, connectionId: string, engine: DatabaseEngine, database: string,
                            capturedAt: string, contents: Contents)
    ensures var r := Capture(h, connectionId, engine, database, capturedAt, contents);
            r.Ok? ==>
              && Deserialize(h, SnapshotJson(r.value)) == Ok(r.value)
              && Deserialize(h, SnapshotJson(r.value.(contents := contents))) == Ok(r.value)
  {
    hide ReadWire, SnapshotJson, FromWire, Capture;
    var r := Capture(h, connectionId, engine, database, capturedAt, contents);
    if r.Ok? {
      CaptureSurvivesWire(h, connectionId, engine, database, capturedAt, contents);
      SnapshotReadsBack(r.value);
      SnapshotReadsBack(r.value.(contents := contents));
    }
  }

  /** Whatever JSON is accepted yields a genuine snapshot, and writing that and reading it again changes nothing. */
  lemma AcceptedJsonIsStable(h: Hash, v: JsonValue.Json)
    ensures var r := Deserialize(h, v);
            r.Ok? ==> Genuine(h, r.value) && Deserialize(h, SnapshotJson(r.value)) == r
  {
    hide ReadWire, SnapshotJson, FromWire, Genuine;
    if ReadWire(v).Some? {
      ReadSnapshotsAreCanonical(h, ReadWire(v).value);
      var r := FromWire(h, ReadWire(v).value);
      if r.Ok? { SnapshotReadsBack(r.value); }
    }
  }
}
