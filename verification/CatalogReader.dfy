/** Reading catalog entries from JSON: the deserializers serde derives for the catalog structs (catalog.rs). */
module CatalogReader {
  import opened Catalog
  import opened CatalogEncoding
  import opened JsonValue
  import opened Ordering
  import opened Wrappers
  import Strings

  type Reader<!T> = JsonValue.Json -> Option<T>

  /** `f` never writes null, and `read` undoes it. */
  ghost predicate ReadsBack<T(!new)>(f: T -> JsonValue.Json, read: Reader<T>)
  {
    forall x :: read(f(x)) == Some(x) && f(x) != Null
  }

  // ---- The members of a struct ----

  predicate OneOf(fields: seq<Field>, i: nat, names: seq<string>)
    requires i < |fields|
  {
    fields[i].key in names && forall j | i < j < |fields| :: fields[j].key != fields[i].key
  }

  /** Every member is known and none is repeated. */
  predicate OnlyMembers(fields: seq<Field>, names: seq<string>)
  {
    forall i | 0 <= i < |fields| :: OneOf(fields, i, names)
  }

  /** The members of an object in the order of `names`; `deny_unknown_fields` and repeated members are refused. */
  function Row(v: JsonValue.Json, names: seq<string>): (r: Option<seq<Option<JsonValue.Json>>>)
    ensures r.Some? ==> |r.value| == |names|
  {
    if v.Object? && OnlyMembers(v.fields, names)
    then Some(seq(|names|, i requires 0 <= i < |names| => Lookup(v.fields, names[i])))
    else None
  }

  function Needed<T>(member: Option<JsonValue.Json>, read: Reader<T>): Option<T>
  {
    if member.None? then None else read(member.value)
  }

  /** `Option` fields: absent and null both read as none. */
  function Optional<T>(member: Option<JsonValue.Json>, read: Reader<T>): Option<Option<T>>
  {
    if member.None? || member.value.Null? then Some(None)
    else match read(member.value) case None => None case Some(x) => Some(Some(x))
  }

  function ReadAll<T>(items: seq<JsonValue.Json>, read: Reader<T>): Option<seq<T>>
  {
    if items == [] then Some([])
    else
      var first, rest := read(items[0]), ReadAll(items[1..], read);
      if first.None? || rest.None? then None else Some([first.value] + rest.value)
  }

  /** `Vec` fields with a default: absent reads as empty, null does not. */
  function Items<T>(member: Option<JsonValue.Json>, read: Reader<T>): Option<seq<T>>
  {
    if member.None? then Some([])
    else if member.value.Array? then ReadAll(member.value.items, read)
    else None
  }

  // ---- Leaves ----

  function ReadText(v: JsonValue.Json): Option<string> { if v.String? then Some(v.text) else None }

  function ReadFlag(v: JsonValue.Json): Option<bool> { if v.Bool? then Some(v.b) else None }

  function ReadNat(v: JsonValue.Json): Option<nat> { if v.Number? then Strings.ReadDecimal(v.repr) else None }

  function OfInt(i: int): JsonValue.Json
  {
    if i < 0 then NegativeNumber(-i) else OfNat(i)
  }

  function NegativeNumber(n: nat): JsonValue.Json
  {
    var text := "-" + Strings.Decimal(n);
    assert forall k | 1 <= k < |text| :: text[k] == Strings.Decimal(n)[k - 1];
    JsonValue.Number(text)
  }

  /** A minus sign before zero makes a float, which no integer field takes. */
  function ReadInt(v: JsonValue.Json): Option<int>
  {
    if !v.Number? then None
    else if v.repr[0] == '-' then
      match Strings.ReadDecimal(v.repr[1..]) case None => None case Some(n) => if n == 0 then None else Some(0 - n)
    else match Strings.ReadDecimal(v.repr) case None => None case Some(n) => Some(n)
  }

  function FamilyOf(s: string): Option<TypeFamily>
  {
    if s == FamilyName(Boolean) then Some(Boolean) else if s == FamilyName(Integer) then Some(Integer)
    else if s == FamilyName(Decimal) then Some(Decimal) else if s == FamilyName(Float) then Some(Float)
    else if s == FamilyName(TypeFamily.Text) then Some(TypeFamily.Text) else if s == FamilyName(Binary) then Some(Binary)
    else if s == FamilyName(TypeFamily.Json) then Some(TypeFamily.Json) else if s == FamilyName(Date) then Some(Date)
    else if s == FamilyName(Time) then Some(Time) else if s == FamilyName(Timestamp) then Some(Timestamp)
    else if s == FamilyName(Uuid) then Some(Uuid) else if s == FamilyName(TypeFamily.Array) then Some(TypeFamily.Array)
    else if s == FamilyName(Document) then Some(Document) else if s == FamilyName(OtherFamily) then Some(OtherFamily)
    else None
  }

  function KindOf(s: string): Option<ObjectKind>
  {
    if s == KindName(Table) then Some(Table) else if s == KindName(View) then Some(View)
    else if s == KindName(MaterializedView) then Some(MaterializedView) else if s == KindName(Routine) then Some(Routine)
    else if s == KindName(Sequence) then Some(Sequence) else if s == KindName(Type) then Some(Type)
    else if s == KindName(Trigger) then Some(Trigger) else if s == KindName(Other) then Some(Other)
    else None
  }

  function ConstraintKindOf(s: string): Option<ConstraintKind>
  {
    if s == ConstraintName(Primary) then Some(Primary) else if s == ConstraintName(Unique) then Some(Unique)
    else if s == ConstraintName(Foreign) then Some(Foreign) else if s == ConstraintName(Check) then Some(Check)
    else None
  }

  function EngineOf(s: string): Option<DatabaseEngine>
  {
    if s == EngineName(Postgres) then Some(Postgres) else if s == EngineName(Mysql) then Some(Mysql)
    else if s == EngineName(Sqlite) then Some(Sqlite) else if s == EngineName(Mongodb) then Some(Mongodb)
    else if s == EngineName(Bigquery) then Some(Bigquery)
    else None
  }

  function ReadFamily(v: JsonValue.Json): Option<TypeFamily> { if v.String? then FamilyOf(v.text) else None }

  function ReadKind(v: JsonValue.Json): Option<ObjectKind> { if v.String? then KindOf(v.text) else None }

  function ReadConstraintKind(v: JsonValue.Json): Option<ConstraintKind>
  {
    if v.String? then ConstraintKindOf(v.text) else None
  }

  function ReadEngine(v: JsonValue.Json): Option<DatabaseEngine> { if v.String? then EngineOf(v.text) else None }

  function ReadDirection(v: JsonValue.Json): Option<SortDirection>
  {
    if v == DirectionJson(Asc) then Some(Asc) else if v == DirectionJson(Desc) then Some(Desc) else None
  }

  // ---- Structs ----

  function ReadObjectRef(v: JsonValue.Json): Option<ObjectRef>
  {
    var row := Row(v, OBJECT_REF_FIELDS);
    if row.None? then None else ObjectRefOf(row.value)
  }

  function ObjectRefOf(r: seq<Option<JsonValue.Json>>): Option<ObjectRef>
    requires |r| == |OBJECT_REF_FIELDS|
  {
    var catalog, namespace, nativeId := Optional(r[0], ReadText), Optional(r[1], ReadText), Optional(r[4], ReadText);
    var name, kind := Needed(r[2], ReadText), Needed(r[3], ReadKind);
    if catalog.None? || namespace.None? || name.None? || kind.None? || nativeId.None? then None
    else Some(ObjectRef(catalog.value, namespace.value, name.value, kind.value, nativeId.value))
  }

  function ReadNamespace(v: JsonValue.Json): Option<Namespace>
  {
    var row := Row(v, NAMESPACE_FIELDS);
    if row.None? then None else NamespaceOf(row.value)
  }

  function NamespaceOf(r: seq<Option<JsonValue.Json>>): Option<Namespace>
    requires |r| == |NAMESPACE_FIELDS|
  {
    var name, comment := Needed(r[0], ReadText), Optional(r[1], ReadText);
    if name.None? || comment.None? then None else Some(Namespace(name.value, comment.value))
  }

  function ReadColumn(v: JsonValue.Json): Option<Column>
  {
    var row := Row(v, COLUMN_FIELDS);
    if row.None? then None else ColumnOf(row.value)
  }

  function ColumnOf(r: seq<Option<JsonValue.Json>>): Option<Column>
    requires |r| == |COLUMN_FIELDS|
  {
    var name, ordinal, nativeType := Needed(r[0], ReadText), Needed(r[1], ReadNat), Needed(r[2], ReadText);
    var family, nullable := Needed(r[3], ReadFamily), Needed(r[7], ReadFlag);
    var length, precision, scale := Optional(r[4], ReadNat), Optional(r[5], ReadNat), Optional(r[6], ReadNat);
    var def, generated := Optional(r[8], ReadText), Optional(r[9], ReadText);
    var identity, increment := Needed(r[10], ReadFlag), Needed(r[11], ReadFlag);
    var collation, comment, sensitivity :=
      Optional(r[12], ReadText), Optional(r[13], ReadText), Optional(r[14], ReadText);
    if name.None? || ordinal.None? || nativeType.None? || family.None? || nullable.None? || length.None?
       || precision.None? || scale.None? || def.None? || generated.None? || identity.None? || increment.None?
       || collation.None? || comment.None? || sensitivity.None? then None
    else
      Some(Column(name.value, ordinal.value, nativeType.value, family.value, length.value, precision.value, scale.value,
                  nullable.value, def.value, generated.value, identity.value, increment.value, collation.value,
                  comment.value, sensitivity.value))
  }

  function ReadConstraint(v: JsonValue.Json): Option<Constraint>
  {
    var row := Row(v, CONSTRAINT_FIELDS);
    if row.None? then None else ConstraintOf(row.value)
  }

  function ConstraintOf(r: seq<Option<JsonValue.Json>>): Option<Constraint>
    requires |r| == |CONSTRAINT_FIELDS|
  {
    var name, kind, columns := Needed(r[0], ReadText), Needed(r[1], ReadConstraintKind), Items(r[2], ReadText);
    var relation, referenced := Optional(r[3], ReadObjectRef), Items(r[4], ReadText);
    var check, update, delete := Optional(r[5], ReadText), Optional(r[6], ReadText), Optional(r[7], ReadText);
    var deferrable, validated := Needed(r[8], ReadFlag), Needed(r[9], ReadFlag);
    if name.None? || kind.None? || columns.None? || relation.None? || referenced.None? || check.None? || update.None?
       || delete.None? || deferrable.None? || validated.None? then None
    else
      Some(Constraint(name.value, kind.value, columns.value, relation.value, referenced.value, check.value,
                      update.value, delete.value, deferrable.value, validated.value))
  }

  function ReadIndexKey(v: JsonValue.Json): Option<IndexKey>
  {
    var row := Row(v, INDEX_KEY_FIELDS);
    if row.None? then None else IndexKeyOf(row.value)
  }

  function IndexKeyOf(r: seq<Option<JsonValue.Json>>): Option<IndexKey>
    requires |r| == |INDEX_KEY_FIELDS|
  {
    var column, expression, direction :=
      Optional(r[0], ReadText), Optional(r[1], ReadText), Optional(r[2], ReadDirection);
    if column.None? || expression.None? || direction.None? then None
    else Some(IndexKey(column.value, expression.value, direction.value))
  }

  function ReadIndex(v: JsonValue.Json): Option<Index>
  {
    var row := Row(v, INDEX_FIELDS);
    if row.None? then None else IndexOf(row.value)
  }

  function IndexOf(r: seq<Option<JsonValue.Json>>): Option<Index>
    requires |r| == |INDEX_FIELDS|
  {
    var name, method_, keys := Needed(r[0], ReadText), Optional(r[1], ReadText), Items(r[2], ReadIndexKey);
    var included, predicate_ := Items(r[3], ReadText), Optional(r[4], ReadText);
    var unique, valid := Needed(r[5], ReadFlag), Needed(r[6], ReadFlag);
    if name.None? || method_.None? || keys.None? || included.None? || predicate_.None? || unique.None? || valid.None?
    then None
    else Some(Index(name.value, method_.value, keys.value, included.value, predicate_.value, unique.value, valid.value))
  }

  function ReadRoutine(v: JsonValue.Json): Option<RoutineObject>
  {
    var row := Row(v, ROUTINE_FIELDS);
    if row.None? then None else RoutineOf(row.value)
  }

  function RoutineOf(r: seq<Option<JsonValue.Json>>): Option<RoutineObject>
    requires |r| == |ROUTINE_FIELDS|
  {
    var object_, nativeKind, arguments := Needed(r[0], ReadObjectRef), Optional(r[1], ReadText), Items(r[2], ReadText);
    var returnType, language := Optional(r[3], ReadText), Optional(r[4], ReadText);
    var comment, detail, parent := Optional(r[5], ReadText), Optional(r[6], ReadText), Optional(r[7], ReadText);
    if object_.None? || nativeKind.None? || arguments.None? || returnType.None? || language.None? || comment.None?
       || detail.None? || parent.None? then None
    else
      Some(RoutineObject(object_.value, nativeKind.value, arguments.value, returnType.value, language.value,
                         comment.value, detail.value, parent.value))
  }

  function ReadDatabaseObject(v: JsonValue.Json): Option<DatabaseObject>
  {
    var row := Row(v, DATABASE_OBJECT_FIELDS);
    if row.None? then None else DatabaseObjectOf(row.value)
  }

  function DatabaseObjectOf(r: seq<Option<JsonValue.Json>>): Option<DatabaseObject>
    requires |r| == |DATABASE_OBJECT_FIELDS|
  {
    var object_, nativeKind := Needed(r[0], ReadObjectRef), Optional(r[1], ReadText);
    var comment, detail, parent := Optional(r[2], ReadText), Optional(r[3], ReadText), Optional(r[4], ReadText);
    if object_.None? || nativeKind.None? || comment.None? || detail.None? || parent.None? then None
    else Some(DatabaseObject(object_.value, nativeKind.value, comment.value, detail.value, parent.value))
  }

  // ---- Reading undoes writing ----

  lemma {:induction false} MembersAreNamed(names: seq<string>, values: seq<Option<JsonValue.Json>>)
    requires |names| == |values|
    ensures forall i | 0 <= i < |Members(names, values)| :: Members(names, values)[i].key in names
  {
    if names != [] {
      MembersAreNamed(names[1..], values[1..]);
      var m, rest := Members(names, values), Members(names[1..], values[1..]);
      assert values[0].Some? ==> m[0] == Field(names[0], values[0].value) && m[1..] == rest;
    }
  }

  lemma {:induction false} MembersAreOnly(names: seq<string>, values: seq<Option<JsonValue.Json>>)
    requires |names| == |values| && Distinct(names)
    ensures OnlyMembers(Members(names, values), names)
  {
    if names != [] {
      MembersAreOnly(names[1..], values[1..]);
      MembersAreNamed(names[1..], values[1..]);
      var m, rest := Members(names, values), Members(names[1..], values[1..]);
      if values[0].Some? {
        assert m[0].key == names[0] && m[1..] == rest;
        assert names[0] !in names[1..];
        forall i | 0 <= i < |m| ensures OneOf(m, i, names) {
          if i > 0 { assert m[i] == rest[i - 1] && OneOf(rest, i - 1, names[1..]); }
        }
      } else {
        forall i | 0 <= i < |m| ensures OneOf(m, i, names) { assert OneOf(rest, i, names[1..]); }
      }
    }
  }

  /** With distinct names every member written is found under its name, and every skipped one is missing. */
  lemma {:induction false} LookupMembers(names: seq<string>, values: seq<Option<JsonValue.Json>>, i: nat)
    requires |names| == |values| && Distinct(names) && i < |names|
    ensures Lookup(Members(names, values), names[i]) == values[i]
  {
    var rest := Members(names[1..], values[1..]);
    MembersAreNamed(names[1..], values[1..]);
    assert names[0] !in names[1..];
    if values[0].Some? {
      assert Members(names, values)[1..] == rest;
    }
    if i > 0 { LookupMembers(names[1..], values[1..], i - 1); }
  }

  /** A written struct reads as the row of its members. */
  lemma RowOfStruct(names: seq<string>, values: seq<Option<JsonValue.Json>>)
    requires |names| == |values| && Distinct(names)
    ensures Row(Struct(names, values), names) == Some(values)
    ensures Struct(names, values) != Null
  {
    MembersAreOnly(names, values);
    forall i | 0 <= i < |names| ensures Lookup(Members(names, values), names[i]) == values[i] {
      LookupMembers(names, values, i);
    }
    assert seq(|names|, i requires 0 <= i < |names| => Lookup(Members(names, values), names[i])) == values;
  }

  predicate Unknown(fields: seq<Field>, names: seq<string>)
  {
    exists i | 0 <= i < |fields| :: fields[i].key !in names
  }

  predicate Repeated(fields: seq<Field>)
  {
    exists i, j | 0 <= i < j < |fields| :: fields[i].key == fields[j].key
  }

  /**
   * What a struct reads from an object: nothing when a member is unknown or repeated, otherwise under each name the
   * one member that has it, wherever it stands, or none.
   */
  lemma RowMeans(fields: seq<Field>, names: seq<string>)
    ensures Row(Object(fields), names).None? <==> Unknown(fields, names) || Repeated(fields)
    ensures Row(Object(fields), names).Some? ==>
              forall k, x | 0 <= k < |names| ::
                Row(Object(fields), names).value[k] == Some(x) <==> Field(names[k], x) in fields
  {
    if Unknown(fields, names) {
      var i :| 0 <= i < |fields| && fields[i].key !in names;
      assert !OneOf(fields, i, names);
    } else if Repeated(fields) {
      var i, j :| 0 <= i < j < |fields| && fields[i].key == fields[j].key;
      assert !OneOf(fields, i, names);
    } else {
      forall i | 0 <= i < |fields| ensures OneOf(fields, i, names) {}
      forall k, x | 0 <= k < |names| ensures Lookup(fields, names[k]) == Some(x) <==> Field(names[k], x) in fields {
        FoundMember(fields, names[k], x);
      }
    }
  }

  lemma FoundMember(fields: seq<Field>, key: string, x: JsonValue.Json)
    requires !Repeated(fields)
    ensures Lookup(fields, key) == Some(x) <==> Field(key, x) in fields
  {
    if Field(key, x) in fields {
      var i :| 0 <= i < |fields| && fields[i] == Field(key, x);
      var y := Lookup(fields, key).value;
      var j :| 0 <= j < |fields| && fields[j] == Field(key, y);
      assert i == j;
    }
  }

  lemma OptionalReadsBack<T(!new)>(x: Option<T>, f: T -> JsonValue.Json, read: Reader<T>)
    requires ReadsBack(f, read)
    ensures Optional(Given(x, f), read) == Some(x)
  {
  }

  lemma {:induction false} AllReadBack<T(!new)>(xs: seq<T>, f: T -> JsonValue.Json, read: Reader<T>)
    requires ReadsBack(f, read)
    ensures ReadAll(Map(xs, f), read) == Some(xs)
  {
    if xs != [] {
      AllReadBack(xs[1..], f, read);
      assert Map(xs, f)[1..] == Map(xs[1..], f);
      assert [xs[0]] + xs[1..] == xs;
    }
  }

  lemma ListReadsBack<T(!new)>(xs: seq<T>, f: T -> JsonValue.Json, read: Reader<T>)
    requires ReadsBack(f, read)
    ensures Items(Some(List(xs, f)), read) == Some(xs)
  {
    AllReadBack(xs, f, read);
  }

  lemma TextReadsBack()
    ensures ReadsBack(OfText, ReadText)
  {
  }

  lemma NatReadsBack()
    ensures ReadsBack(OfNat, ReadNat)
  {
    forall n: nat ensures ReadNat(OfNat(n)) == Some(n) { Strings.DecimalReads(n); }
  }

  lemma NegativeReadsBack(n: nat)
    requires n > 0
    ensures ReadInt(NegativeNumber(n)) == Some(0 - n) && NegativeNumber(n) != Null
  {
    var digits := Strings.Decimal(n);
    Strings.DecimalReads(n);
    hide Strings.Decimal, Strings.ReadDecimal;
    assert NegativeNumber(n).repr == "-" + digits;
    assert ("-" + digits)[1..] == digits;
  }

  lemma PositiveReadsBack(n: nat)
    ensures ReadInt(OfNat(n)) == Some(n)
  {
    Strings.DecimalReads(n);
    assert Strings.Decimal(n)[0] != '-';
    hide Strings.Decimal, Strings.ReadDecimal;
  }

  lemma IntReadsBack()
    ensures ReadsBack(OfInt, ReadInt)
  {
    hide ReadInt, NegativeNumber;
    forall i: int ensures ReadInt(OfInt(i)) == Some(i) && OfInt(i) != Null {
      if i < 0 { NegativeReadsBack(-i); } else { PositiveReadsBack(i); }
    }
  }

  lemma DirectionReadsBack()
    ensures ReadsBack(DirectionJson, ReadDirection)
  {
    DirectionsApart();
    assert DirectionJson(Asc) != DirectionJson(Desc);
    hide DirectionJson;
  }

  lemma FamilyReadsBack(f: TypeFamily)
    ensures FamilyOf(FamilyName(f)) == Some(f)
  {
    forall g | FamilyName(f) == FamilyName(g) ensures f == g { FamiliesApart(f, g); }
    hide FamilyName;
  }

  lemma KindReadsBack(k: ObjectKind)
    ensures KindOf(KindName(k)) == Some(k)
  {
    forall l | KindName(k) == KindName(l) ensures k == l { KindsApart(k, l); }
    hide KindName;
  }

  lemma ConstraintKindReadsBack(k: ConstraintKind)
    ensures ConstraintKindOf(ConstraintName(k)) == Some(k)
  {
    forall l | ConstraintName(k) == ConstraintName(l) ensures k == l { ConstraintKindsApart(k, l); }
    hide ConstraintName;
  }

  lemma EngineReadsBack(e: DatabaseEngine)
    ensures EngineOf(EngineName(e)) == Some(e)
  {
    forall d | EngineName(e) == EngineName(d) ensures e == d { EnginesApart(e, d); }
    hide EngineName;
  }

  lemma ObjectRefValuesReadBack(o: ObjectRef)
    ensures ObjectRefOf(ObjectRefValues(o)) == Some(o)
  {
    TextReadsBack();
    KindReadsBack(o.kind);
    OptionalReadsBack(o.catalog, OfText, ReadText);
    OptionalReadsBack(o.namespace, OfText, ReadText);
    OptionalReadsBack(o.nativeId, OfText, ReadText);
    hide KindOf, KindName, Optional, Given;
  }

  lemma ObjectRefsReadBack()
    ensures ReadsBack(ObjectRefJson, ReadObjectRef)
  {
    hide Row, Struct, ObjectRefOf, ObjectRefValues;
    ObjectRefFields();
    forall o ensures ReadObjectRef(ObjectRefJson(o)) == Some(o) && ObjectRefJson(o) != Null {
      RowOfStruct(OBJECT_REF_FIELDS, ObjectRefValues(o));
      ObjectRefValuesReadBack(o);
    }
  }

  lemma NamespaceValuesReadBack(n: Namespace)
    ensures NamespaceOf(NamespaceValues(n)) == Some(n)
  {
    TextReadsBack();
    OptionalReadsBack(n.comment, OfText, ReadText);
    hide Optional, Given;
  }

  lemma NamespacesReadBack()
    ensures ReadsBack(NamespaceJson, ReadNamespace)
  {
    hide Row, Struct, NamespaceOf, NamespaceValues;
    NamespaceFields();
    forall n ensures ReadNamespace(NamespaceJson(n)) == Some(n) && NamespaceJson(n) != Null {
      RowOfStruct(NAMESPACE_FIELDS, NamespaceValues(n));
      NamespaceValuesReadBack(n);
    }
  }

  lemma ColumnValuesReadBack(c: Column)
    ensures ColumnOf(ColumnValues(c)) == Some(c)
  {
    TextReadsBack();
    NatReadsBack();
    FamilyReadsBack(c.typeFamily);
    Strings.DecimalReads(c.ordinal);
    OptionalReadsBack(c.length, OfNat, ReadNat);
    OptionalReadsBack(c.precision, OfNat, ReadNat);
    OptionalReadsBack(c.scale, OfNat, ReadNat);
    OptionalReadsBack(c.defaultExpression, OfText, ReadText);
    OptionalReadsBack(c.generatedExpression, OfText, ReadText);
    OptionalReadsBack(c.collation, OfText, ReadText);
    OptionalReadsBack(c.comment, OfText, ReadText);
    OptionalReadsBack(c.sensitivity, OfText, ReadText);
    hide FamilyOf, FamilyName, Optional, Given;
  }

  lemma ColumnsReadBack()
    ensures ReadsBack(ColumnJson, ReadColumn)
  {
    hide Row, Struct, ColumnOf, ColumnValues;
    ColumnFields();
    forall c ensures ReadColumn(ColumnJson(c)) == Some(c) && ColumnJson(c) != Null {
      RowOfStruct(COLUMN_FIELDS, ColumnValues(c));
      ColumnValuesReadBack(c);
    }
  }

  lemma ConstraintValuesReadBack(c: Constraint)
    ensures ConstraintOf(ConstraintValues(c)) == Some(c)
  {
    TextReadsBack();
    ConstraintKindReadsBack(c.kind);
    ObjectRefsReadBack();
    ListReadsBack(c.columns, OfText, ReadText);
    ListReadsBack(c.referencedColumns, OfText, ReadText);
    OptionalReadsBack(c.referencedRelation, ObjectRefJson, ReadObjectRef);
    OptionalReadsBack(c.checkExpression, OfText, ReadText);
    OptionalReadsBack(c.updateAction, OfText, ReadText);
    OptionalReadsBack(c.deleteAction, OfText, ReadText);
    hide ConstraintKindOf, ConstraintName, Optional, Given, Items, List, ReadObjectRef, ObjectRefJson;
  }

  lemma ConstraintsReadBack()
    ensures ReadsBack(ConstraintJson, ReadConstraint)
  {
    hide Row, Struct, ConstraintOf, ConstraintValues;
    ConstraintFields();
    forall c ensures ReadConstraint(ConstraintJson(c)) == Some(c) && ConstraintJson(c) != Null {
      RowOfStruct(CONSTRAINT_FIELDS, ConstraintValues(c));
      ConstraintValuesReadBack(c);
    }
  }

  lemma IndexKeyValuesReadBack(k: IndexKey)
    ensures IndexKeyOf(IndexKeyValues(k)) == Some(k)
  {
    TextReadsBack();
    DirectionReadsBack();
    OptionalReadsBack(k.column, OfText, ReadText);
    OptionalReadsBack(k.expression, OfText, ReadText);
    OptionalReadsBack(k.direction, DirectionJson, ReadDirection);
    hide Optional, Given;
  }

  lemma IndexKeysReadBack()
    ensures ReadsBack(IndexKeyJson, ReadIndexKey)
  {
    hide Row, Struct, IndexKeyOf, IndexKeyValues;
    IndexKeyFields();
    forall k ensures ReadIndexKey(IndexKeyJson(k)) == Some(k) && IndexKeyJson(k) != Null {
      RowOfStruct(INDEX_KEY_FIELDS, IndexKeyValues(k));
      IndexKeyValuesReadBack(k);
    }
  }

  lemma IndexValuesReadBack(i: Index)
    ensures IndexOf(IndexValues(i)) == Some(i)
  {
    TextReadsBack();
    IndexKeysReadBack();
    ListReadsBack(i.keys, IndexKeyJson, ReadIndexKey);
    ListReadsBack(i.includedColumns, OfText, ReadText);
    OptionalReadsBack(i.method_, OfText, ReadText);
    OptionalReadsBack(i.predicate_, OfText, ReadText);
    hide Optional, Given, Items, List, ReadIndexKey, IndexKeyJson;
  }

  lemma IndexesReadBack()
    ensures ReadsBack(IndexJson, ReadIndex)
  {
    hide Row, Struct, IndexOf, IndexValues;
    IndexFields();
    forall i ensures ReadIndex(IndexJson(i)) == Some(i) && IndexJson(i) != Null {
      RowOfStruct(INDEX_FIELDS, IndexValues(i));
      IndexValuesReadBack(i);
    }
  }

  lemma RoutineValuesReadBack(r: RoutineObject)
    ensures RoutineOf(RoutineValues(r)) == Some(r)
  {
    TextReadsBack();
    ObjectRefsReadBack();
    ListReadsBack(r.arguments, OfText, ReadText);
    OptionalReadsBack(r.nativeKind, OfText, ReadText);
    OptionalReadsBack(r.returnType, OfText, ReadText);
    OptionalReadsBack(r.language, OfText, ReadText);
    OptionalReadsBack(r.comment, OfText, ReadText);
    OptionalReadsBack(r.detail, OfText, ReadText);
    OptionalReadsBack(r.parent, OfText, ReadText);
    hide Optional, Given, Items, List, ReadObjectRef, ObjectRefJson;
  }

  lemma RoutinesReadBack()
    ensures ReadsBack(RoutineJson, ReadRoutine)
  {
    hide Row, Struct, RoutineOf, RoutineValues;
    RoutineFields();
    forall r ensures ReadRoutine(RoutineJson(r)) == Some(r) && RoutineJson(r) != Null {
      RowOfStruct(ROUTINE_FIELDS, RoutineValues(r));
      RoutineValuesReadBack(r);
    }
  }

  lemma DatabaseObjectValuesReadBack(d: DatabaseObject)
    ensures DatabaseObjectOf(DatabaseObjectValues(d)) == Some(d)
  {
    TextReadsBack();
    ObjectRefsReadBack();
    OptionalReadsBack(d.nativeKind, OfText, ReadText);
    OptionalReadsBack(d.comment, OfText, ReadText);
    OptionalReadsBack(d.detail, OfText, ReadText);
    OptionalReadsBack(d.parent, OfText, ReadText);
    hide Optional, Given, ReadObjectRef, ObjectRefJson;
  }

  lemma DatabaseObjectsReadBack()
    ensures ReadsBack(DatabaseObjectJson, ReadDatabaseObject)
  {
    hide Row, Struct, DatabaseObjectOf, DatabaseObjectValues;
    DatabaseObjectFields();
    forall d ensures ReadDatabaseObject(DatabaseObjectJson(d)) == Some(d) && DatabaseObjectJson(d) != Null {
      RowOfStruct(DATABASE_OBJECT_FIELDS, DatabaseObjectValues(d));
      DatabaseObjectValuesReadBack(d);
    }
  }

}
