/** The order canonical catalogs are in, read off their entries. */
module CatalogOrder {
  import opened Catalog
  import opened CatalogCanon
  import opened JsonValue
  import opened Ordering

  ghost predicate Ascends<T(!new)>(s: seq<T>, before: (T, T) -> bool)
  {
    forall i, j | 0 <= i < j < |s| :: before(s[i], s[j])
  }

  lemma SortAscends<T(!new)>(s: seq<T>, key: T -> Key, before: (T, T) -> bool)
    requires forall x, y | KeyLeq(key(x), key(y)) :: before(x, y)
    ensures Ascends(StableSort(s, key), before)
  {
    hide KeyLeq;
    SortSorts(s, key);
  }

  // ---- When one entry may come before another ----

  const KINDS: seq<ObjectKind> := [
    ObjectKind.Table, ObjectKind.View, ObjectKind.MaterializedView, ObjectKind.Routine, ObjectKind.Sequence,
    ObjectKind.Type, ObjectKind.Trigger, ObjectKind.Other
  ]

  const CONSTRAINT_KINDS: seq<ConstraintKind> := [
    ConstraintKind.Primary, ConstraintKind.Unique, ConstraintKind.Foreign, ConstraintKind.Check
  ]

  predicate Earlier<T(==)>(list: seq<T>, x: T, y: T)
  {
    exists i, j | 0 <= i < j < |list| :: list[i] == x && list[j] == y
  }

  predicate NamespaceBefore(x: Namespace, y: Namespace)
  {
    if x.name == y.name then OptionBefore(x.comment, y.comment) else TextBefore(x.name, y.name)
  }

  /** By ordinal, then by name; the serialized form decides between the rest. */
  predicate ColumnBefore(x: Column, y: Column)
  {
    if x.ordinal != y.ordinal then x.ordinal < y.ordinal
    else if x.name != y.name then TextBefore(x.name, y.name)
    else TextBefore(Write(ColumnJson(x)), Write(ColumnJson(y)))
  }

  predicate ConstraintBefore(x: Constraint, y: Constraint)
  {
    if x.kind != y.kind then Earlier(CONSTRAINT_KINDS, x.kind, y.kind)
    else if x.name != y.name then TextBefore(x.name, y.name)
    else TextBefore(Write(ConstraintJson(x)), Write(ConstraintJson(y)))
  }

  predicate IndexBefore(x: Index, y: Index)
  {
    if x.name != y.name then TextBefore(x.name, y.name) else TextBefore(Write(IndexJson(x)), Write(IndexJson(y)))
  }

  /** By catalog, namespace, name, kind and native id. */
  predicate RefBefore(x: ObjectRef, y: ObjectRef)
  {
    if x.catalog != y.catalog then OptionBefore(x.catalog, y.catalog)
    else if x.namespace != y.namespace then OptionBefore(x.namespace, y.namespace)
    else if x.name != y.name then TextBefore(x.name, y.name)
    else if x.kind != y.kind then Earlier(KINDS, x.kind, y.kind)
    else OptionBefore(x.nativeId, y.nativeId)
  }

  predicate RelationBefore(x: Relation, y: Relation)
  {
    if x.object_ != y.object_ then RefBefore(x.object_, y.object_)
    else TextBefore(Write(RelationPayload(x)), Write(RelationPayload(y)))
  }

  predicate RoutineBefore(x: RoutineObject, y: RoutineObject)
  {
    if x.object_ != y.object_ then RefBefore(x.object_, y.object_)
    else TextBefore(Write(RoutineJson(x)), Write(RoutineJson(y)))
  }

  predicate ObjectBefore(x: DatabaseObject, y: DatabaseObject)
  {
    if x.object_ != y.object_ then RefBefore(x.object_, y.object_)
    else TextBefore(Write(DatabaseObjectJson(x)), Write(DatabaseObjectJson(y)))
  }

  // ---- The sort keys say so ----

  lemma NamespaceOrderMeans(x: Namespace, y: Namespace)
    ensures KeyLeq(NamespaceOrder(x), NamespaceOrder(y)) <==> NamespaceBefore(x, y)
  {
    hide TextBefore, OptionBefore, TextLeq;
    var k, l := NamespaceOrder(x), NamespaceOrder(y);
    assert k[1..] == [OptionText(x.comment)] && l[1..] == [OptionText(y.comment)];
    TextLeqMeans(x.name, y.name);
    OptionLeqMeans(x.comment, y.comment);
    LastKeyMeans(OptionText(x.comment), OptionText(y.comment));
  }

  lemma LastKeyMeans(a: Atom, b: Atom)
    ensures KeyLeq([a], [b]) <==> AtomLeq(a, b)
  {
    KeyLeqMeans([a], [b]);
    assert KeyLeq([a][1..], [b][1..]);
    if a.Text? {
      LexReflexive(a.s, CharLeq);
      assert TextLeq(a.s, a.s);
    }
    assert AtomLeq(a, a);
  }

  lemma TieBreak(s: string, t: string)
    ensures KeyLeq([Atom.Text(s)], [Atom.Text(t)]) <==> TextBefore(s, t)
  {
    LastKeyMeans(Atom.Text(s), Atom.Text(t));
    TextLeqMeans(s, t);
  }

  lemma ColumnOrderMeans(x: Column, y: Column)
    ensures KeyLeq(ColumnOrder(x), ColumnOrder(y)) <==> ColumnBefore(x, y)
  {
    hide TextBefore, TextLeq, Write, ColumnJson;
    var s, t := Write(ColumnJson(x)), Write(ColumnJson(y));
    var k, l := ColumnOrder(x), ColumnOrder(y);
    assert k[1..] == [Atom.Text(x.name), Atom.Text(s)] && l[1..] == [Atom.Text(y.name), Atom.Text(t)];
    assert k[1..][1..] == [Atom.Text(s)] && l[1..][1..] == [Atom.Text(t)];
    TextLeqMeans(x.name, y.name);
    TieBreak(s, t);
    KeyLeqMeans(k, l);
    KeyLeqMeans(k[1..], l[1..]);
  }

  lemma ConstraintOrderMeans(x: Constraint, y: Constraint)
    ensures KeyLeq(ConstraintOrder(x), ConstraintOrder(y)) <==> ConstraintBefore(x, y)
  {
    hide TextBefore, TextLeq, Write, ConstraintJson;
    var s, t := Write(ConstraintJson(x)), Write(ConstraintJson(y));
    var k, l := ConstraintOrder(x), ConstraintOrder(y);
    assert k[1..] == [Atom.Text(x.name), Atom.Text(s)] && l[1..] == [Atom.Text(y.name), Atom.Text(t)];
    assert k[1..][1..] == [Atom.Text(s)] && l[1..][1..] == [Atom.Text(t)];
    TextLeqMeans(x.name, y.name);
    TieBreak(s, t);
    KeyLeqMeans(k, l);
    KeyLeqMeans(k[1..], l[1..]);
    ConstraintRankMeans(x.kind, y.kind);
  }

  lemma ConstraintRankMeans(a: ConstraintKind, b: ConstraintKind)
    ensures a != b ==> (ConstraintRank(a) <= ConstraintRank(b) <==> Earlier(CONSTRAINT_KINDS, a, b))
    ensures a != b ==> ConstraintRank(a) != ConstraintRank(b)
  {
    assert CONSTRAINT_KINDS[ConstraintRank(a)] == a && CONSTRAINT_KINDS[ConstraintRank(b)] == b;
  }

  lemma KindPlace(k: ObjectKind, i: nat)
    ensures KindRank(k) < 8 && (i < 8 ==> (KINDS[i] == k <==> i == KindRank(k)))
  {
  }

  lemma KindRankMeans(a: ObjectKind, b: ObjectKind)
    ensures a != b ==> (KindRank(a) <= KindRank(b) <==> Earlier(KINDS, a, b))
    ensures a != b ==> KindRank(a) != KindRank(b)
  {
    hide KindRank;
    KindPlace(a, KindRank(a));
    KindPlace(b, KindRank(b));
    forall i, j | 0 <= i < j < |KINDS| && KINDS[i] == a && KINDS[j] == b ensures KindRank(a) < KindRank(b) {
      KindPlace(a, i);
      KindPlace(b, j);
    }
  }

  lemma IndexOrderMeans(x: Index, y: Index)
    ensures KeyLeq(IndexOrder(x), IndexOrder(y)) <==> IndexBefore(x, y)
  {
    hide TextBefore, TextLeq, Write, IndexJson;
    var s, t := Write(IndexJson(x)), Write(IndexJson(y));
    var k, l := IndexOrder(x), IndexOrder(y);
    assert k[1..] == [Atom.Text(s)] && l[1..] == [Atom.Text(t)];
    TextLeqMeans(x.name, y.name);
    TieBreak(s, t);
    KeyLeqMeans(k, l);
  }

  lemma RefOrderMeans(x: ObjectRef, y: ObjectRef)
    ensures KeyLeq(ObjectRefOrder(x), ObjectRefOrder(y)) <==> x == y || RefBefore(x, y)
  {
    var k, l := ObjectRefOrder(x), ObjectRefOrder(y);
    LexReflexive(k, AtomLeq);
    assert KeyLeq(k, k);
    hide TextBefore, OptionBefore, TextLeq, KindRank, Earlier, KeyLeq;
    OptionLeqMeans(x.catalog, y.catalog);
    OptionLeqMeans(x.namespace, y.namespace);
    TextLeqMeans(x.name, y.name);
    KindRankMeans(x.kind, y.kind);
    OptionLeqMeans(x.nativeId, y.nativeId);
    LastKeyMeans(k[4], l[4]);
    assert k[1..][1..] == k[2..] && k[2..][1..] == k[3..] && k[3..][1..] == k[4..] == [k[4]];
    assert l[1..][1..] == l[2..] && l[2..][1..] == l[3..] && l[3..][1..] == l[4..] == [l[4]];
    KeyLeqMeans(k, l);
    KeyLeqMeans(k[1..], l[1..]);
    KeyLeqMeans(k[2..], l[2..]);
    KeyLeqMeans(k[3..], l[3..]);
  }

  /** A tie breaker behind the reference decides between equal references. */
  lemma RefFirst(x: ObjectRef, y: ObjectRef, s: string, t: string)
    ensures KeyLeq(ObjectRefOrder(x) + [Atom.Text(s)], ObjectRefOrder(y) + [Atom.Text(t)])
       <==> if x != y then RefBefore(x, y) else TextBefore(s, t)
  {
    FrontDecides(ObjectRefOrder(x), ObjectRefOrder(y), [Atom.Text(s)], [Atom.Text(t)]);
    RefOrderMeans(x, y);
    ObjectRefOrderApart();
    TieBreak(s, t);
    hide KeyLeq, ObjectRefOrder, RefBefore, TextBefore;
  }

  lemma RelationOrderMeans(x: Relation, y: Relation)
    ensures KeyLeq(RelationOrder(x), RelationOrder(y)) <==> RelationBefore(x, y)
  {
    hide RefBefore, TextBefore, KeyLeq, ObjectRefOrder, Write, RelationPayload;
    var s, t := Write(RelationPayload(x)), Write(RelationPayload(y));
    RefFirst(x.object_, y.object_, s, t);
  }

  lemma RoutineOrderMeans(x: RoutineObject, y: RoutineObject)
    ensures KeyLeq(RoutineOrder(x), RoutineOrder(y)) <==> RoutineBefore(x, y)
  {
    hide RefBefore, TextBefore, KeyLeq, ObjectRefOrder, Write, RoutineJson;
    var s, t := Write(RoutineJson(x)), Write(RoutineJson(y));
    RefFirst(x.object_, y.object_, s, t);
  }

  lemma ObjectOrderMeans(x: DatabaseObject, y: DatabaseObject)
    ensures KeyLeq(DatabaseObjectOrder(x), DatabaseObjectOrder(y)) <==> ObjectBefore(x, y)
  {
    hide RefBefore, TextBefore, KeyLeq, ObjectRefOrder, Write, DatabaseObjectJson;
    var s, t := Write(DatabaseObjectJson(x)), Write(DatabaseObjectJson(y));
    RefFirst(x.object_, y.object_, s, t);
  }

  // ---- Canonical catalogs ----

  predicate ChildBefore(x: ObjectRef, y: ObjectRef) { x == y || RefBefore(x, y) }

  /** The four lists of a relation ascend. */
  ghost predicate RelationAscends(r: Relation)
  {
    && Ascends(r.columns, ColumnBefore) && Ascends(r.constraints, ConstraintBefore)
    && Ascends(r.indexes, IndexBefore) && Ascends(r.partitionChildren, ChildBefore)
  }

  lemma CanonRelationAscends(r: Relation)
    ensures RelationAscends(CanonRelation(r))
  {
    hide KeyLeq, StableSort, ColumnBefore, ConstraintBefore, IndexBefore, RefBefore, Ascends;
    forall x, y | KeyLeq(ColumnOrder(x), ColumnOrder(y)) ensures ColumnBefore(x, y) { ColumnOrderMeans(x, y); }
    SortAscends(r.columns, ColumnOrder, ColumnBefore);
    forall x, y | KeyLeq(ConstraintOrder(x), ConstraintOrder(y)) ensures ConstraintBefore(x, y) {
      ConstraintOrderMeans(x, y);
    }
    SortAscends(r.constraints, ConstraintOrder, ConstraintBefore);
    forall x, y | KeyLeq(IndexOrder(x), IndexOrder(y)) ensures IndexBefore(x, y) { IndexOrderMeans(x, y); }
    SortAscends(r.indexes, IndexOrder, IndexBefore);
    forall x, y | KeyLeq(ObjectRefOrder(x), ObjectRefOrder(y)) ensures ChildBefore(x, y) { RefOrderMeans(x, y); }
    SortAscends(r.partitionChildren, ObjectRefOrder, ChildBefore);
  }

  /** Canonical columns ascend by ordinal, and by name among equal ordinals. */
  lemma CanonicalColumnOrder(r: Relation, i: nat, j: nat)
    requires i < j < |CanonRelation(r).columns|
    ensures var x, y := CanonRelation(r).columns[i], CanonRelation(r).columns[j];
            x.ordinal < y.ordinal || (x.ordinal == y.ordinal && TextBefore(x.name, y.name))
  {
    CanonRelationAscends(r);
    hide CanonRelation, Write, ColumnJson;
    assert ColumnBefore(CanonRelation(r).columns[i], CanonRelation(r).columns[j]);
  }

  /** Canonical constraints come as primary, unique, foreign and check, by name within a kind. */
  lemma CanonicalConstraintOrder(r: Relation, i: nat, j: nat)
    requires i < j < |CanonRelation(r).constraints|
    ensures var x, y := CanonRelation(r).constraints[i], CanonRelation(r).constraints[j];
            if x.kind == y.kind then TextBefore(x.name, y.name) else Earlier(CONSTRAINT_KINDS, x.kind, y.kind)
  {
    CanonRelationAscends(r);
    hide CanonRelation, Write, ConstraintJson, Earlier;
    assert ConstraintBefore(CanonRelation(r).constraints[i], CanonRelation(r).constraints[j]);
  }

  ghost predicate ContentsAscend(c: Contents)
  {
    && Ascends(c.namespaces, NamespaceBefore) && Ascends(c.relations, RelationBefore)
    && Ascends(c.routines, RoutineBefore) && Ascends(c.otherObjects, ObjectBefore)
    && forall i | 0 <= i < |c.relations| :: RelationAscends(c.relations[i])
  }

  lemma ListsAscend(c: Contents)
    ensures var d := Canonical(c);
            && Ascends(d.namespaces, NamespaceBefore) && Ascends(d.relations, RelationBefore)
            && Ascends(d.routines, RoutineBefore) && Ascends(d.otherObjects, ObjectBefore)
  {
    hide KeyLeq, StableSort, NamespaceBefore, RelationBefore, RoutineBefore, ObjectBefore, Ascends;
    forall x, y | KeyLeq(NamespaceOrder(x), NamespaceOrder(y)) ensures NamespaceBefore(x, y) { NamespaceOrderMeans(x, y); }
    SortAscends(c.namespaces, NamespaceOrder, NamespaceBefore);
    forall x, y | KeyLeq(RelationOrder(x), RelationOrder(y)) ensures RelationBefore(x, y) { RelationOrderMeans(x, y); }
    SortAscends(Map(c.relations, CanonRelation), RelationOrder, RelationBefore);
    forall x, y | KeyLeq(RoutineOrder(x), RoutineOrder(y)) ensures RoutineBefore(x, y) { RoutineOrderMeans(x, y); }
    SortAscends(c.routines, RoutineOrder, RoutineBefore);
    forall x, y | KeyLeq(DatabaseObjectOrder(x), DatabaseObjectOrder(y)) ensures ObjectBefore(x, y) {
      ObjectOrderMeans(x, y);
    }
    SortAscends(c.otherObjects, DatabaseObjectOrder, ObjectBefore);
  }

  /** Every list of a canonical catalog ascends. */
  lemma CanonicalAscends(c: Contents)
    ensures ContentsAscend(Canonical(c))
  {
    hide RelationAscends, Ascends, StableSort, CanonRelation;
    ListsAscend(c);
    var canon := Map(c.relations, CanonRelation);
    var sorted := StableSort(canon, RelationOrder);
    SortSorts(canon, RelationOrder);
    forall i | 0 <= i < |sorted| ensures RelationAscends(sorted[i]) {
      assert sorted[i] in multiset(sorted);
      var j := Occurs(sorted[i], canon);
      CanonRelationAscends(c.relations[j]);
    }
  }

  /** Nothing is added or lost: each list of a canonical catalog rearranges the list it comes from. */
  lemma CanonicalRearranges(c: Contents)
    ensures var d := Canonical(c);
            && multiset(d.namespaces) == multiset(c.namespaces) && multiset(d.routines) == multiset(c.routines)
            && multiset(d.otherObjects) == multiset(c.otherObjects)
            && |d.relations| == |c.relations|
            && (forall r | r in c.relations :: exists s | s in d.relations ::
                  SameRelation(r, s) && s.rowEstimate == r.rowEstimate)
            && (forall s | s in d.relations :: exists r | r in c.relations ::
                  SameRelation(r, s) && s.rowEstimate == r.rowEstimate)
  {
    hide CanonRelation, StableSort, SameRelation;
    SortSorts(c.namespaces, NamespaceOrder);
    SortSorts(c.routines, RoutineOrder);
    SortSorts(c.otherObjects, DatabaseObjectOrder);
    var canon := Map(c.relations, CanonRelation);
    var sorted := StableSort(canon, RelationOrder);
    SortSorts(canon, RelationOrder);
    assert |multiset(canon)| == |multiset(sorted)|;
    forall r ensures SameRelation(r, CanonRelation(r)) && CanonRelation(r).rowEstimate == r.rowEstimate {
      CanonRelationRearranges(r);
    }
    forall r | r in c.relations
      ensures exists s | s in sorted :: SameRelation(r, s) && s.rowEstimate == r.rowEstimate
    {
      var i :| 0 <= i < |c.relations| && c.relations[i] == r;
      assert canon[i] in multiset(canon);
      assert CanonRelation(r) in multiset(sorted);
    }
    forall s | s in sorted
      ensures exists r | r in c.relations :: SameRelation(r, s) && s.rowEstimate == r.rowEstimate
    {
      assert s in multiset(sorted);
      var i := Occurs(s, canon);
      assert c.relations[i] in c.relations;
    }
  }

  lemma CanonRelationRearranges(r: Relation)
    ensures SameRelation(r, CanonRelation(r)) && CanonRelation(r).rowEstimate == r.rowEstimate
  {
    SortSorts(r.columns, ColumnOrder);
    SortSorts(r.constraints, ConstraintOrder);
    SortSorts(r.indexes, IndexOrder);
    SortSorts(r.partitionChildren, ObjectRefOrder);
  }
}
