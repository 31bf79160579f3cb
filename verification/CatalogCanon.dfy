/** Canonical order of catalog contents and the text that is fingerprinted (catalog.rs). */
module CatalogCanon {
  import opened Catalog
  import opened CatalogEncoding
  import opened JsonValue
  import opened Ordering
  import opened Wrappers
  import JsonReader

  function KindRank(k: ObjectKind): nat
  {
    match k case Table => 0 case View => 1 case MaterializedView => 2 case Routine => 3
            case Sequence => 4 case Type => 5 case Trigger => 6 case Other => 7
  }

  function ConstraintRank(k: ConstraintKind): nat
  {
    match k case Primary => 0 case Unique => 1 case Foreign => 2 case Check => 3
  }

  // ---- Sort keys: tuples in comparison order; a serialized form comes last as tie breaker ----

  function NamespaceOrder(n: Namespace): Key { [Atom.Text(n.name), OptionText(n.comment)] }

  function ColumnOrder(c: Column): Key { [Rank(c.ordinal), Atom.Text(c.name), Atom.Text(Write(ColumnJson(c)))] }

  function ConstraintOrder(c: Constraint): Key
  {
    [Rank(ConstraintRank(c.kind)), Atom.Text(c.name), Atom.Text(Write(ConstraintJson(c)))]
  }

  function IndexOrder(i: Index): Key { [Atom.Text(i.name), Atom.Text(Write(IndexJson(i)))] }

  function ObjectRefOrder(o: ObjectRef): Key
  {
    [OptionText(o.catalog), OptionText(o.namespace), Atom.Text(o.name), Rank(KindRank(o.kind)), OptionText(o.nativeId)]
  }

  function RelationOrder(r: Relation): Key { ObjectRefOrder(r.object_) + [Atom.Text(Write(RelationPayload(r)))] }

  function RoutineOrder(r: RoutineObject): Key { ObjectRefOrder(r.object_) + [Atom.Text(Write(RoutineJson(r)))] }

  function DatabaseObjectOrder(d: DatabaseObject): Key
  {
    ObjectRefOrder(d.object_) + [Atom.Text(Write(DatabaseObjectJson(d)))]
  }

  // ---- The canonical form ----

  function CanonRelation(r: Relation): Relation
  {
    r.(columns := StableSort(r.columns, ColumnOrder),
       constraints := StableSort(r.constraints, ConstraintOrder),
       indexes := StableSort(r.indexes, IndexOrder),
       partitionChildren := StableSort(r.partitionChildren, ObjectRefOrder))
  }

  function Canonical(c: Contents): Contents
  {
    Contents(
      StableSort(c.namespaces, NamespaceOrder),
      StableSort(Map(c.relations, CanonRelation), RelationOrder),
      StableSort(c.routines, RoutineOrder),
      StableSort(c.otherObjects, DatabaseObjectOrder))
  }

  /** `CatalogContents`, sorted in place by `canonicalize_contents`. */
  class MutableContents {
    var namespaces: seq<Namespace>
    var relations: seq<Relation>
    var routines: seq<RoutineObject>
    var otherObjects: seq<DatabaseObject>

    function Model(): Contents
      reads this
    {
      Contents(namespaces, relations, routines, otherObjects)
    }

    constructor (c: Contents)
      ensures Model() == c
    {
      namespaces, relations, routines, otherObjects := c.namespaces, c.relations, c.routines, c.otherObjects;
    }

    /** Sorts the lists inside one relation. */
    method CanonicalizeRelation(i: nat)
      requires i < |relations|
      modifies this`relations
      ensures relations == old(relations)[i := CanonRelation(old(relations)[i])]
    {
      var r := relations[i];
      r := r.(columns := StableSort(r.columns, ColumnOrder));
      r := r.(constraints := StableSort(r.constraints, ConstraintOrder));
      r := r.(indexes := StableSort(r.indexes, IndexOrder));
      r := r.(partitionChildren := StableSort(r.partitionChildren, ObjectRefOrder));
      relations := relations[i := r];
    }

    method Canonicalize()
      modifies this
      ensures Model() == Canonical(old(Model()))
    {
      hide CanonRelation, StableSort;
      ghost var before := relations;
      namespaces := StableSort(namespaces, NamespaceOrder);
      var i := 0;
      while i < |relations|
        invariant i <= |relations| == |before|
        invariant forall k | 0 <= k < i :: relations[k] == CanonRelation(before[k])
        invariant forall k | i <= k < |before| :: relations[k] == before[k]
        invariant namespaces == StableSort(old(namespaces), NamespaceOrder)
        invariant routines == old(routines) && otherObjects == old(otherObjects)
      {
        CanonicalizeRelation(i);
        i := i + 1;
      }
      assert relations == Map(before, CanonRelation);
      relations := StableSort(relations, RelationOrder);
      routines := StableSort(routines, RoutineOrder);
      otherObjects := StableSort(otherObjects, DatabaseObjectOrder);
    }
  }

  // ---- Keys tell entries apart ----

  lemma NamespaceOrderApart()
    ensures Injective(NamespaceOrder)
  {
    forall x, y | NamespaceOrder(x) == NamespaceOrder(y) ensures x == y {
      var k, l := NamespaceOrder(x), NamespaceOrder(y);
      assert k[0] == l[0] && k[1] == l[1];
    }
  }

  lemma ObjectRefOrderApart()
    ensures Injective(ObjectRefOrder)
  {
    forall x, y | ObjectRefOrder(x) == ObjectRefOrder(y) ensures x == y {
      var k, l := ObjectRefOrder(x), ObjectRefOrder(y);
      assert k[0] == l[0] && k[1] == l[1] && k[2] == l[2] && k[3] == l[3] && k[4] == l[4];
    }
  }

  lemma ColumnOrderApart()
    ensures Injective(ColumnOrder)
  {
    ColumnsApart();
    TextsTellApart(ColumnJson);
    forall x, y | ColumnOrder(x) == ColumnOrder(y) ensures x == y {
      assert ColumnOrder(x)[2] == ColumnOrder(y)[2];
    }
  }

  lemma ConstraintOrderApart()
    ensures Injective(ConstraintOrder)
  {
    ConstraintsApart();
    TextsTellApart(ConstraintJson);
    forall x, y | ConstraintOrder(x) == ConstraintOrder(y) ensures x == y {
      assert ConstraintOrder(x)[2] == ConstraintOrder(y)[2];
    }
  }

  lemma IndexOrderApart()
    ensures Injective(IndexOrder)
  {
    IndexesApart();
    TextsTellApart(IndexJson);
    forall x, y | IndexOrder(x) == IndexOrder(y) ensures x == y {
      assert IndexOrder(x)[1] == IndexOrder(y)[1];
    }
  }

  lemma RoutineOrderApart()
    ensures Injective(RoutineOrder)
  {
    RoutinesApart();
    TextsTellApart(RoutineJson);
    forall x, y | RoutineOrder(x) == RoutineOrder(y) ensures x == y {
      assert RoutineOrder(x)[5] == RoutineOrder(y)[5];
    }
  }

  lemma DatabaseObjectOrderApart()
    ensures Injective(DatabaseObjectOrder)
  {
    DatabaseObjectsApart();
    TextsTellApart(DatabaseObjectJson);
    forall x, y | DatabaseObjectOrder(x) == DatabaseObjectOrder(y) ensures x == y {
      assert DatabaseObjectOrder(x)[5] == DatabaseObjectOrder(y)[5];
    }
  }

  /** Relations with one sort key are fingerprinted alike: only the row estimate is left open. */
  lemma RelationOrderPayload(x: Relation, y: Relation)
    ensures RelationOrder(x) == RelationOrder(y) <==> RelationPayload(x) == RelationPayload(y)
  {
    if RelationPayload(x) == RelationPayload(y) {
      RelationPayloadsApart(x, y);
      assert x.(rowEstimate := None).object_ == y.(rowEstimate := None).object_;
    }
    if RelationOrder(x) == RelationOrder(y) {
      assert RelationOrder(x)[5] == RelationOrder(y)[5];
      JsonReader.WriteInjective(RelationPayload(x), RelationPayload(y));
    }
  }

  // ---- Which catalogs the fingerprint tells apart ----

  /** The same relation but for the row estimate and the order inside its lists. */
  predicate SameRelation(a: Relation, b: Relation)
  {
    && a.object_ == b.object_ && a.comment == b.comment && a.partitionParent == b.partitionParent
    && multiset(a.partitionChildren) == multiset(b.partitionChildren)
    && multiset(a.columns) == multiset(b.columns)
    && multiset(a.constraints) == multiset(b.constraints)
    && multiset(a.indexes) == multiset(b.indexes)
  }

  predicate SameRelations(a: seq<Relation>, b: seq<Relation>)
  {
    |a| == |b| && forall i | 0 <= i < |a| :: SameRelation(a[i], b[i])
  }

  /** The same schema: entries may come in any order, and row estimates are free. */
  ghost predicate SameSchema(a: Contents, b: Contents)
  {
    && multiset(a.namespaces) == multiset(b.namespaces)
    && multiset(a.routines) == multiset(b.routines)
    && multiset(a.otherObjects) == multiset(b.otherObjects)
    && exists mid :: multiset(mid) == multiset(a.relations) && SameRelations(mid, b.relations)
  }

  function FingerprintText(engine: DatabaseEngine, c: Contents): string
  {
    Write(Payload(engine, c))
  }

  function CanonPayload(r: Relation): Json { RelationPayload(CanonRelation(r)) }

  function CanonOrder(r: Relation): Key { RelationOrder(CanonRelation(r)) }

  /** Relations are fingerprinted alike exactly when they are the same but for order and row estimate. */
  lemma CanonPayloadMeans(a: Relation, b: Relation)
    ensures CanonPayload(a) == CanonPayload(b) <==> SameRelation(a, b)
  {
    if SameRelation(a, b) {
      ColumnOrderApart();
      SortIgnoresOrder(a.columns, b.columns, ColumnOrder);
      ConstraintOrderApart();
      SortIgnoresOrder(a.constraints, b.constraints, ConstraintOrder);
      IndexOrderApart();
      SortIgnoresOrder(a.indexes, b.indexes, IndexOrder);
      ObjectRefOrderApart();
      SortIgnoresOrder(a.partitionChildren, b.partitionChildren, ObjectRefOrder);
      RelationPayloadsApart(CanonRelation(a), CanonRelation(b));
    }
    if CanonPayload(a) == CanonPayload(b) {
      RelationPayloadsApart(CanonRelation(a), CanonRelation(b));
      SameBags(a, b);
    }
  }

  lemma SameBags(a: Relation, b: Relation)
    requires CanonRelation(a).(rowEstimate := None) == CanonRelation(b).(rowEstimate := None)
    ensures SameRelation(a, b)
  {
    var x, y := CanonRelation(a).(rowEstimate := None), CanonRelation(b).(rowEstimate := None);
    assert x.columns == y.columns && x.constraints == y.constraints && x.indexes == y.indexes;
    SortSorts(a.columns, ColumnOrder);
    SortSorts(b.columns, ColumnOrder);
    SortSorts(a.constraints, ConstraintOrder);
    SortSorts(b.constraints, ConstraintOrder);
    SortSorts(a.indexes, IndexOrder);
    SortSorts(b.indexes, IndexOrder);
    SortSorts(a.partitionChildren, ObjectRefOrder);
    SortSorts(b.partitionChildren, ObjectRefOrder);
  }

  lemma MapTwice<T, U, V>(s: seq<T>, f: T -> U, g: U -> V, h: T -> V)
    requires forall x | x in s :: h(x) == g(f(x))
    ensures Map(Map(s, f), g) == Map(s, h)
  {
    var left, right := Map(Map(s, f), g), Map(s, h);
    forall i | 0 <= i < |s| ensures left[i] == right[i] {
      assert s[i] in s;
    }
  }

  /** The fingerprinted relation list holds one payload per relation, in an order of its own. */
  lemma SortedPayloads(s: seq<Relation>)
    ensures multiset(Map(StableSort(Map(s, CanonRelation), RelationOrder), RelationPayload))
         == multiset(Map(s, CanonPayload))
  {
    var canon := Map(s, CanonRelation);
    SortSorts(canon, RelationOrder);
    MapBag(canon, StableSort(canon, RelationOrder), RelationPayload);
    MapTwice(s, CanonRelation, RelationPayload, CanonPayload);
  }

  lemma SameKeysSamePayloads(a: seq<Relation>, b: seq<Relation>)
    requires Map(a, RelationOrder) == Map(b, RelationOrder)
    ensures Map(a, RelationPayload) == Map(b, RelationPayload)
  {
    assert |a| == |Map(a, RelationOrder)| == |b|;
    forall i | 0 <= i < |a| ensures RelationPayload(a[i]) == RelationPayload(b[i]) {
      assert RelationOrder(a[i]) == Map(a, RelationOrder)[i] == Map(b, RelationOrder)[i] == RelationOrder(b[i]);
      RelationOrderPayload(a[i], b[i]);
    }
  }

  lemma SameCanonOrders(mid: seq<Relation>, t: seq<Relation>)
    requires SameRelations(mid, t)
    ensures Map(mid, CanonOrder) == Map(t, CanonOrder)
  {
    forall i | 0 <= i < |mid| ensures CanonOrder(mid[i]) == CanonOrder(t[i]) {
      CanonPayloadMeans(mid[i], t[i]);
      RelationOrderPayload(CanonRelation(mid[i]), CanonRelation(t[i]));
    }
  }

  lemma RelationsAgree(s: seq<Relation>, mid: seq<Relation>, t: seq<Relation>)
    requires multiset(mid) == multiset(s) && SameRelations(mid, t)
    ensures Map(StableSort(Map(s, CanonRelation), RelationOrder), RelationPayload)
         == Map(StableSort(Map(t, CanonRelation), RelationOrder), RelationPayload)
  {
    var a, b := Map(s, CanonRelation), Map(t, CanonRelation);
    MapBag(s, mid, CanonOrder);
    SameCanonOrders(mid, t);
    MapTwice(s, CanonRelation, RelationOrder, CanonOrder);
    MapTwice(t, CanonRelation, RelationOrder, CanonOrder);
    SortAgrees(a, b, RelationOrder);
    SameKeysSamePayloads(StableSort(a, RelationOrder), StableSort(b, RelationOrder));
  }

  lemma SamePayload(engine: DatabaseEngine, c: Contents, d: Contents)
    requires c.namespaces == d.namespaces && c.routines == d.routines && c.otherObjects == d.otherObjects
    requires Map(c.relations, RelationPayload) == Map(d.relations, RelationPayload)
    ensures Payload(engine, c) == Payload(engine, d)
  {
    assert PayloadValues(engine, c) == PayloadValues(engine, d);
  }

  /** Reordering entries and changing row estimates never changes what is fingerprinted. */
  lemma ReorderingKeepsText(engine: DatabaseEngine, c: Contents, d: Contents)
    requires SameSchema(c, d)
    ensures FingerprintText(engine, Canonical(c)) == FingerprintText(engine, Canonical(d))
  {
    NamespaceOrderApart();
    SortIgnoresOrder(c.namespaces, d.namespaces, NamespaceOrder);
    RoutineOrderApart();
    SortIgnoresOrder(c.routines, d.routines, RoutineOrder);
    DatabaseObjectOrderApart();
    SortIgnoresOrder(c.otherObjects, d.otherObjects, DatabaseObjectOrder);
    var mid :| multiset(mid) == multiset(c.relations) && SameRelations(mid, d.relations);
    RelationsAgree(c.relations, mid, d.relations);
    SamePayload(engine, Canonical(c), Canonical(d));
  }

  lemma SameTextSameRelations(s: seq<Relation>, t: seq<Relation>) returns (mid: seq<Relation>)
    requires Map(StableSort(Map(s, CanonRelation), RelationOrder), RelationPayload)
          == Map(StableSort(Map(t, CanonRelation), RelationOrder), RelationPayload)
    ensures multiset(mid) == multiset(s) && SameRelations(mid, t)
  {
    SortedPayloads(s);
    SortedPayloads(t);
    mid := MatchUp(s, Map(t, CanonPayload), CanonPayload);
    assert |mid| == |Map(mid, CanonPayload)| == |t|;
    forall i | 0 <= i < |mid| ensures SameRelation(mid[i], t[i]) {
      assert CanonPayload(mid[i]) == Map(mid, CanonPayload)[i] == Map(t, CanonPayload)[i] == CanonPayload(t[i]);
      CanonPayloadMeans(mid[i], t[i]);
    }
  }

  lemma PayloadsFromText(e1: DatabaseEngine, c: Contents, e2: DatabaseEngine, d: Contents)
    requires FingerprintText(e1, c) == FingerprintText(e2, d)
    ensures e1 == e2 && c.namespaces == d.namespaces && c.routines == d.routines && c.otherObjects == d.otherObjects
    ensures Map(c.relations, RelationPayload) == Map(d.relations, RelationPayload)
  {
    JsonReader.WriteInjective(Payload(e1, c), Payload(e2, d));
    PayloadsApart(e1, c, e2, d);
  }

  lemma SameTextSameSchema(e1: DatabaseEngine, c: Contents, e2: DatabaseEngine, d: Contents)
    requires FingerprintText(e1, Canonical(c)) == FingerprintText(e2, Canonical(d))
    ensures e1 == e2 && SameSchema(c, d)
  {
    PayloadsFromText(e1, Canonical(c), e2, Canonical(d));
    hide FingerprintText, Payload;
    SortSorts(c.namespaces, NamespaceOrder);
    SortSorts(d.namespaces, NamespaceOrder);
    SortSorts(c.routines, RoutineOrder);
    SortSorts(d.routines, RoutineOrder);
    SortSorts(c.otherObjects, DatabaseObjectOrder);
    SortSorts(d.otherObjects, DatabaseObjectOrder);
    var mid := SameTextSameRelations(c.relations, d.relations);
    assert SameRelations(mid, d.relations);
  }

  /** The fingerprinted text identifies the engine and the schema, and nothing else. */
  lemma TextIdentifiesSchema(e1: DatabaseEngine, c: Contents, e2: DatabaseEngine, d: Contents)
    ensures FingerprintText(e1, Canonical(c)) == FingerprintText(e2, Canonical(d)) <==> e1 == e2 && SameSchema(c, d)
  {
    if FingerprintText(e1, Canonical(c)) == FingerprintText(e2, Canonical(d)) {
      SameTextSameSchema(e1, c, e2, d);
    } else if e1 == e2 && SameSchema(c, d) {
      ReorderingKeepsText(e1, c, d);
    }
  }

  // ---- Canonicalizing twice changes nothing ----

  lemma CanonRelationIdempotent(r: Relation)
    ensures CanonRelation(CanonRelation(r)) == CanonRelation(r)
  {
    SortSorts(r.columns, ColumnOrder);
    SortIdentity(StableSort(r.columns, ColumnOrder), ColumnOrder);
    SortSorts(r.constraints, ConstraintOrder);
    SortIdentity(StableSort(r.constraints, ConstraintOrder), ConstraintOrder);
    SortSorts(r.indexes, IndexOrder);
    SortIdentity(StableSort(r.indexes, IndexOrder), IndexOrder);
    SortSorts(r.partitionChildren, ObjectRefOrder);
    SortIdentity(StableSort(r.partitionChildren, ObjectRefOrder), ObjectRefOrder);
  }

  lemma SortedRelationsCanonical(s: seq<Relation>)
    ensures var sorted := StableSort(Map(s, CanonRelation), RelationOrder);
            Map(sorted, CanonRelation) == sorted
  {
    var canon := Map(s, CanonRelation);
    var sorted := StableSort(canon, RelationOrder);
    SortSorts(canon, RelationOrder);
    forall i | 0 <= i < |sorted| ensures CanonRelation(sorted[i]) == sorted[i] {
      assert sorted[i] in multiset(sorted);
      var j := Occurs(sorted[i], canon);
      CanonRelationIdempotent(s[j]);
    }
  }

  lemma CanonicalIdempotent(c: Contents)
    ensures Canonical(Canonical(c)) == Canonical(c)
  {
    SortSorts(c.namespaces, NamespaceOrder);
    SortIdentity(StableSort(c.namespaces, NamespaceOrder), NamespaceOrder);
    SortedRelationsCanonical(c.relations);
    SortSorts(Map(c.relations, CanonRelation), RelationOrder);
    SortIdentity(StableSort(Map(c.relations, CanonRelation), RelationOrder), RelationOrder);
    SortSorts(c.routines, RoutineOrder);
    SortIdentity(StableSort(c.routines, RoutineOrder), RoutineOrder);
    SortSorts(c.otherObjects, DatabaseObjectOrder);
    SortIdentity(StableSort(c.otherObjects, DatabaseObjectOrder), DatabaseObjectOrder);
  }
}
