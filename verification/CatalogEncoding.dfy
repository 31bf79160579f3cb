/** The serialized form of catalog entries tells every field apart. */
module CatalogEncoding {
  import opened Catalog
  import opened JsonValue
  import opened Ordering
  import opened Wrappers
  import JsonReader
  import Strings

  predicate Distinct(names: seq<string>)
  {
    forall i, j | 0 <= i < j < |names| :: names[i] != names[j]
  }

  lemma {:induction false} LeadIsNamed(names: seq<string>, values: seq<Option<Json>>)
    requires |names| == |values|
    ensures Members(names, values) == [] || Members(names, values)[0].key in names
  {
    if names != [] && values[0].None? {
      LeadIsNamed(names[1..], values[1..]);
    }
  }

  /** Skipping absent members loses nothing: a skipped name cannot reappear later. */
  lemma {:induction false} MembersInjective(names: seq<string>, v: seq<Option<Json>>, w: seq<Option<Json>>)
    requires Distinct(names) && |names| == |v| == |w| && Members(names, v) == Members(names, w)
    ensures v == w
  {
    if names != [] {
      LeadIsNamed(names[1..], v[1..]);
      LeadIsNamed(names[1..], w[1..]);
      assert names[0] !in names[1..];
      SameHead(names, v, w);
      MembersInjective(names[1..], v[1..], w[1..]);
      Rejoin(v, w);
    }
  }

  lemma SameHead(names: seq<string>, v: seq<Option<Json>>, w: seq<Option<Json>>)
    requires |names| == |v| == |w| && names != [] && names[0] !in names[1..]
    requires Members(names, v) == Members(names, w)
    requires Members(names[1..], v[1..]) == [] || Members(names[1..], v[1..])[0].key in names[1..]
    requires Members(names[1..], w[1..]) == [] || Members(names[1..], w[1..])[0].key in names[1..]
    ensures v[0] == w[0] && Members(names[1..], v[1..]) == Members(names[1..], w[1..])
  {
    var m, n := Members(names, v), Members(names, w);
    assert v[0].Some? ==> m[0] == Field(names[0], v[0].value) && m[1..] == Members(names[1..], v[1..]);
    assert w[0].Some? ==> n[0] == Field(names[0], w[0].value) && n[1..] == Members(names[1..], w[1..]);
  }

  lemma StructInjective(names: seq<string>, v: seq<Option<Json>>, w: seq<Option<Json>>)
    requires Distinct(names) && |names| == |v| == |w| && Struct(names, v) == Struct(names, w)
    ensures v == w
  {
    MembersInjective(names, v, w);
  }

  lemma ObjectRefFields()
    ensures Distinct(OBJECT_REF_FIELDS)
  {
  }

  lemma NamespaceFields()
    ensures Distinct(NAMESPACE_FIELDS)
  {
  }

  lemma ColumnFields()
    ensures Distinct(COLUMN_FIELDS)
  {
  }

  lemma ConstraintFields()
    ensures Distinct(CONSTRAINT_FIELDS)
  {
  }

  lemma IndexKeyFields()
    ensures Distinct(INDEX_KEY_FIELDS)
  {
  }

  lemma IndexFields()
    ensures Distinct(INDEX_FIELDS)
  {
  }

  lemma RelationFields()
    ensures Distinct(RELATION_FIELDS)
  {
  }

  lemma RoutineFields()
    ensures Distinct(ROUTINE_FIELDS)
  {
  }

  lemma DatabaseObjectFields()
    ensures Distinct(DATABASE_OBJECT_FIELDS)
  {
  }

  lemma PayloadFields()
    ensures Distinct(PAYLOAD_FIELDS)
  {
  }

  lemma ListInjective<T(!new)>(xs: seq<T>, ys: seq<T>, f: T -> Json)
    requires List(xs, f) == List(ys, f) && Injective(f)
    ensures xs == ys
  {
    assert |xs| == |Map(xs, f)| == |ys|;
    forall i | 0 <= i < |xs| ensures xs[i] == ys[i] {
      assert f(xs[i]) == Map(xs, f)[i] == Map(ys, f)[i] == f(ys[i]);
    }
  }

  lemma GivenInjective<T(!new)>(x: Option<T>, y: Option<T>, f: T -> Json)
    requires Given(x, f) == Given(y, f) && Injective(f)
    ensures x == y
  {
  }

  lemma TextsApart()
    ensures Injective(OfText)
  {
  }

  lemma NatsApart()
    ensures Injective(OfNat)
  {
    forall m, n | OfNat(m) == OfNat(n) ensures m == n { Strings.DecimalInjective(m, n); }
  }

  lemma KindsApart(a: ObjectKind, b: ObjectKind)
    requires KindName(a) == KindName(b)
    ensures a == b
  {
  }

  lemma FamiliesApart(a: TypeFamily, b: TypeFamily)
    requires FamilyName(a) == FamilyName(b)
    ensures a == b
  {
  }

  lemma ConstraintKindsApart(a: ConstraintKind, b: ConstraintKind)
    requires ConstraintName(a) == ConstraintName(b)
    ensures a == b
  {
  }

  lemma EnginesApart(a: DatabaseEngine, b: DatabaseEngine)
    requires EngineName(a) == EngineName(b)
    ensures a == b
  {
  }

  lemma DirectionsApart()
    ensures Injective(DirectionJson)
  {
    assert "asc" != "desc";
  }

  lemma ObjectRefValuesApart(a: ObjectRef, b: ObjectRef)
    requires ObjectRefValues(a) == ObjectRefValues(b)
    ensures a == b
  {
    var v, w := ObjectRefValues(a), ObjectRefValues(b);
    assert v[0] == w[0] && v[1] == w[1] && v[2] == w[2] && v[3] == w[3] && v[4] == w[4];
    KindsApart(a.kind, b.kind);
  }

  lemma ObjectRefsApart()
    ensures Injective(ObjectRefJson)
  {
    forall a, b | ObjectRefJson(a) == ObjectRefJson(b) ensures a == b {
      ObjectRefFields();
      StructInjective(OBJECT_REF_FIELDS, ObjectRefValues(a), ObjectRefValues(b));
      ObjectRefValuesApart(a, b);
    }
  }

  lemma NamespacesApart()
    ensures Injective(NamespaceJson)
  {
    forall a, b | NamespaceJson(a) == NamespaceJson(b) ensures a == b {
      var v, w := NamespaceValues(a), NamespaceValues(b);
      NamespaceFields();
      StructInjective(NAMESPACE_FIELDS, v, w);
      assert v[0] == w[0] && v[1] == w[1];
    }
  }

  lemma ColumnValuesApart(a: Column, b: Column)
    requires ColumnValues(a) == ColumnValues(b)
    ensures a == b
  {
    var v, w := ColumnValues(a), ColumnValues(b);
    NatsApart();
    assert a.name == b.name && a.ordinal == b.ordinal && a.nativeType == b.nativeType by {
      assert v[0] == w[0] && v[1] == w[1] && v[2] == w[2];
    }
    assert a.typeFamily == b.typeFamily by {
      assert v[3] == w[3];
      FamiliesApart(a.typeFamily, b.typeFamily);
    }
    assert a.length == b.length && a.precision == b.precision && a.scale == b.scale by {
      assert v[4] == w[4] && v[5] == w[5] && v[6] == w[6];
      GivenInjective(a.length, b.length, OfNat);
      GivenInjective(a.precision, b.precision, OfNat);
      GivenInjective(a.scale, b.scale, OfNat);
    }
    assert a.nullable == b.nullable && a.identity == b.identity && a.autoIncrement == b.autoIncrement by {
      assert v[7] == w[7] && v[10] == w[10] && v[11] == w[11];
    }
    assert a.defaultExpression == b.defaultExpression && a.generatedExpression == b.generatedExpression by {
      assert v[8] == w[8] && v[9] == w[9];
    }
    assert a.collation == b.collation && a.comment == b.comment && a.sensitivity == b.sensitivity by {
      assert v[12] == w[12] && v[13] == w[13] && v[14] == w[14];
    }
  }

  lemma ColumnsApart()
    ensures Injective(ColumnJson)
  {
    forall a, b | ColumnJson(a) == ColumnJson(b) ensures a == b {
      ColumnFields();
      StructInjective(COLUMN_FIELDS, ColumnValues(a), ColumnValues(b));
      ColumnValuesApart(a, b);
    }
  }

  lemma ConstraintValuesApart(a: Constraint, b: Constraint)
    requires ConstraintValues(a) == ConstraintValues(b)
    ensures a == b
  {
    var v, w := ConstraintValues(a), ConstraintValues(b);
    assert a.name == b.name && a.deferrable == b.deferrable && a.validated == b.validated by {
      assert v[0] == w[0] && v[8] == w[8] && v[9] == w[9];
    }
    assert a.kind == b.kind by {
      assert v[1] == w[1];
      ConstraintKindsApart(a.kind, b.kind);
    }
    assert a.columns == b.columns && a.referencedColumns == b.referencedColumns by {
      assert v[2] == w[2] && v[4] == w[4];
      TextsApart();
      ListInjective(a.columns, b.columns, OfText);
      ListInjective(a.referencedColumns, b.referencedColumns, OfText);
    }
    assert a.referencedRelation == b.referencedRelation by {
      assert v[3] == w[3];
      ObjectRefsApart();
      GivenInjective(a.referencedRelation, b.referencedRelation, ObjectRefJson);
    }
    assert a.checkExpression == b.checkExpression && a.updateAction == b.updateAction
        && a.deleteAction == b.deleteAction by {
      assert v[5] == w[5] && v[6] == w[6] && v[7] == w[7];
    }
  }

  lemma ConstraintsApart()
    ensures Injective(ConstraintJson)
  {
    forall a, b | ConstraintJson(a) == ConstraintJson(b) ensures a == b {
      ConstraintFields();
      StructInjective(CONSTRAINT_FIELDS, ConstraintValues(a), ConstraintValues(b));
      ConstraintValuesApart(a, b);
    }
  }

  lemma IndexKeysApart()
    ensures Injective(IndexKeyJson)
  {
    forall a, b | IndexKeyJson(a) == IndexKeyJson(b) ensures a == b {
      var v, w := IndexKeyValues(a), IndexKeyValues(b);
      IndexKeyFields();
      StructInjective(INDEX_KEY_FIELDS, v, w);
      assert v[0] == w[0] && v[1] == w[1] && v[2] == w[2];
      DirectionsApart();
      GivenInjective(a.direction, b.direction, DirectionJson);
    }
  }

  lemma IndexValuesApart(a: Index, b: Index)
    requires IndexValues(a) == IndexValues(b)
    ensures a == b
  {
    var v, w := IndexValues(a), IndexValues(b);
    assert a.name == b.name && a.method_ == b.method_ && a.predicate_ == b.predicate_
        && a.unique == b.unique && a.valid == b.valid by {
      assert v[0] == w[0] && v[1] == w[1] && v[4] == w[4] && v[5] == w[5] && v[6] == w[6];
    }
    assert a.keys == b.keys by {
      assert v[2] == w[2];
      IndexKeysApart();
      ListInjective(a.keys, b.keys, IndexKeyJson);
    }
    assert a.includedColumns == b.includedColumns by {
      assert v[3] == w[3];
      TextsApart();
      ListInjective(a.includedColumns, b.includedColumns, OfText);
    }
  }

  lemma IndexesApart()
    ensures Injective(IndexJson)
  {
    forall a, b | IndexJson(a) == IndexJson(b) ensures a == b {
      IndexFields();
      StructInjective(INDEX_FIELDS, IndexValues(a), IndexValues(b));
      IndexValuesApart(a, b);
    }
  }

  lemma RoutineValuesApart(a: RoutineObject, b: RoutineObject)
    requires RoutineValues(a) == RoutineValues(b)
    ensures a == b
  {
    var v, w := RoutineValues(a), RoutineValues(b);
    assert a.object_ == b.object_ && a.arguments == b.arguments by {
      assert v[0] == w[0] && v[2] == w[2];
      ObjectRefsApart();
      TextsApart();
      ListInjective(a.arguments, b.arguments, OfText);
    }
    assert a.nativeKind == b.nativeKind && a.returnType == b.returnType && a.language == b.language by {
      assert v[1] == w[1] && v[3] == w[3] && v[4] == w[4];
    }
    assert a.comment == b.comment && a.detail == b.detail && a.parent == b.parent by {
      assert v[5] == w[5] && v[6] == w[6] && v[7] == w[7];
    }
  }

  lemma RoutinesApart()
    ensures Injective(RoutineJson)
  {
    forall a, b | RoutineJson(a) == RoutineJson(b) ensures a == b {
      RoutineFields();
      StructInjective(ROUTINE_FIELDS, RoutineValues(a), RoutineValues(b));
      RoutineValuesApart(a, b);
    }
  }

  lemma DatabaseObjectValuesApart(a: DatabaseObject, b: DatabaseObject)
    requires DatabaseObjectValues(a) == DatabaseObjectValues(b)
    ensures a == b
  {
    var v, w := DatabaseObjectValues(a), DatabaseObjectValues(b);
    ObjectRefsApart();
    assert v[0] == w[0] && v[1] == w[1] && v[2] == w[2] && v[3] == w[3] && v[4] == w[4];
  }

  lemma DatabaseObjectsApart()
    ensures Injective(DatabaseObjectJson)
  {
    forall a, b | DatabaseObjectJson(a) == DatabaseObjectJson(b) ensures a == b {
      DatabaseObjectFields();
      StructInjective(DATABASE_OBJECT_FIELDS, DatabaseObjectValues(a), DatabaseObjectValues(b));
      DatabaseObjectValuesApart(a, b);
    }
  }

  lemma RelationValuesApart(a: Relation, b: Relation)
    requires RelationValues(a) == RelationValues(b)
    ensures a.(rowEstimate := None) == b.(rowEstimate := None)
  {
    var v, w := RelationValues(a), RelationValues(b);
    assert a.object_ == b.object_ && a.comment == b.comment && a.partitionParent == b.partitionParent
        && a.partitionChildren == b.partitionChildren by {
      assert v[0] == w[0] && v[1] == w[1] && v[2] == w[2] && v[3] == w[3];
      ObjectRefsApart();
      GivenInjective(a.partitionParent, b.partitionParent, ObjectRefJson);
      ListInjective(a.partitionChildren, b.partitionChildren, ObjectRefJson);
    }
    assert a.columns == b.columns by {
      assert v[4] == w[4];
      ColumnsApart();
      ListInjective(a.columns, b.columns, ColumnJson);
    }
    assert a.constraints == b.constraints by {
      assert v[5] == w[5];
      ConstraintsApart();
      ListInjective(a.constraints, b.constraints, ConstraintJson);
    }
    assert a.indexes == b.indexes by {
      assert v[6] == w[6];
      IndexesApart();
      ListInjective(a.indexes, b.indexes, IndexJson);
    }
  }

  /** Relation payloads agree exactly when the relations agree but for the row estimate. */
  lemma RelationPayloadsApart(a: Relation, b: Relation)
    ensures RelationPayload(a) == RelationPayload(b) <==> a.(rowEstimate := None) == b.(rowEstimate := None)
  {
    if RelationPayload(a) == RelationPayload(b) {
      RelationFields();
      StructInjective(RELATION_FIELDS, RelationValues(a), RelationValues(b));
      RelationValuesApart(a, b);
    }
    assert RelationValues(a) == RelationValues(a.(rowEstimate := None));
    assert RelationValues(b) == RelationValues(b.(rowEstimate := None));
  }

  lemma PayloadValuesApart(e1: DatabaseEngine, c1: Contents, e2: DatabaseEngine, c2: Contents)
    requires PayloadValues(e1, c1) == PayloadValues(e2, c2)
    ensures e1 == e2 && c1.namespaces == c2.namespaces && c1.routines == c2.routines
    ensures c1.otherObjects == c2.otherObjects
    ensures Map(c1.relations, RelationPayload) == Map(c2.relations, RelationPayload)
  {
    var v, w := PayloadValues(e1, c1), PayloadValues(e2, c2);
    assert e1 == e2 by {
      assert v[1] == w[1];
      EnginesApart(e1, e2);
    }
    assert c1.namespaces == c2.namespaces by {
      assert v[2] == w[2];
      NamespacesApart();
      ListInjective(c1.namespaces, c2.namespaces, NamespaceJson);
    }
    assert Map(c1.relations, RelationPayload) == Map(c2.relations, RelationPayload) by {
      assert v[3] == w[3];
    }
    assert c1.routines == c2.routines by {
      assert v[4] == w[4];
      RoutinesApart();
      ListInjective(c1.routines, c2.routines, RoutineJson);
    }
    assert c1.otherObjects == c2.otherObjects by {
      assert v[5] == w[5];
      DatabaseObjectsApart();
      ListInjective(c1.otherObjects, c2.otherObjects, DatabaseObjectJson);
    }
  }

  /** The fingerprint payload tells engines, entries and relation payloads apart. */
  lemma PayloadsApart(e1: DatabaseEngine, c1: Contents, e2: DatabaseEngine, c2: Contents)
    requires Payload(e1, c1) == Payload(e2, c2)
    ensures e1 == e2 && c1.namespaces == c2.namespaces && c1.routines == c2.routines
    ensures c1.otherObjects == c2.otherObjects
    ensures Map(c1.relations, RelationPayload) == Map(c2.relations, RelationPayload)
  {
    PayloadFields();
    StructInjective(PAYLOAD_FIELDS, PayloadValues(e1, c1), PayloadValues(e2, c2));
    PayloadValuesApart(e1, c1, e2, c2);
  }

  /** Serialized values tell apart what they encode. */
  lemma TextsTellApart<T(!new)>(f: T -> Json)
    requires Injective(f)
    ensures forall x, y :: Write(f(x)) == Write(f(y)) ==> x == y
  {
    forall x, y | Write(f(x)) == Write(f(y)) ensures x == y {
      JsonReader.WriteInjective(f(x), f(y));
    }
  }
}
