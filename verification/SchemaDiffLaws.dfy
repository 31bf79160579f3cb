/** What a schema diff reports: exactly the disagreements of the two projections. */
module SchemaDiffLaws {
  import opened BTree
  import opened Ordering
  import opened SchemaDiff
  import opened Wrappers
  import C = Catalog
  import CatalogCanon
  import CatalogEncoding
  import CatalogSnapshot
  import TypeSpelling

  // ---- Foreign keys: the loop computes the two multiset differences ----

  lemma {:induction false} RemoveFirstBag(s: seq<string>, x: string)
    requires x in s
    ensures multiset(RemoveFirst(s, x)) == multiset(s) - multiset{x}
  {
    assert s == [s[0]] + s[1..];
    if s[0] != x {
      RemoveFirstBag(s[1..], x);
    }
  }

  lemma {:induction false} UnmatchedBag(values: seq<string>, remaining: seq<string>)
    ensures multiset(Unmatched(values, remaining)) == multiset(values) - multiset(remaining)
  {
    if values != [] {
      assert values == [values[0]] + values[1..];
      if values[0] in remaining {
        RemoveFirstBag(remaining, values[0]);
        UnmatchedBag(values[1..], RemoveFirst(remaining, values[0]));
      } else {
        UnmatchedBag(values[1..], remaining);
      }
    }
  }

  lemma {:induction false} RemainingBag(remaining: seq<string>, values: seq<string>)
    ensures multiset(Remaining(remaining, values)) == multiset(remaining) - multiset(values)
    decreases |values|
  {
    if values != [] {
      assert values == [values[0]] + values[1..];
      if values[0] in remaining {
        RemoveFirstBag(remaining, values[0]);
        RemainingBag(RemoveFirst(remaining, values[0]), values[1..]);
      } else {
        RemainingBag(remaining, values[1..]);
      }
    }
  }

  lemma BagOfNone<T>(s: seq<T>)
    ensures multiset(s) == multiset{} <==> s == []
  {
    if s != [] { assert s[0] in multiset(s); }
  }

  lemma Singles(x: seq<string>, y: seq<string>)
    requires |x| == 1 && |y| == 1 && multiset(x) == multiset(y)
    ensures x == y
  {
    assert x[0] in multiset(x);
    assert x == [x[0]] && y == [y[0]];
  }

  /** A column's foreign keys are reported exactly when their targets differ as multisets. */
  lemma KeyEntryEmpty(table: string, column: string, base: seq<string>, current: seq<string>)
    ensures KeyEntry(table, column, base, current) == [] <==> multiset(base) == multiset(current)
  {
    if |base| == 1 && |current| == 1 && multiset(base) == multiset(current) { Singles(base, current); }
    UnmatchedBag(current, base);
    RemainingBag(base, current);
    BagOfNone(Unmatched(current, base));
    BagOfNone(Remaining(base, current));
    assert multiset(base) == multiset(current)
       <==> multiset(current) - multiset(base) == multiset{} && multiset(base) - multiset(current) == multiset{};
  }

  // ---- Sound and complete ----

  ghost predicate SameDefinitions(b: Definitions, t: Definitions)
  {
    b.Keys == t.Keys && forall n | n in b :: b[n].signature == t[n].signature
  }

  ghost predicate SameTargets(b: map<string, seq<string>>, t: map<string, seq<string>>)
  {
    forall c | c in b.Keys + t.Keys :: multiset(ValuesOf(b, c)) == multiset(ValuesOf(t, c))
  }

  ghost predicate SameProjection(x: Projection, y: Projection)
  {
    && x.kind == y.kind && SameDefinitions(x.columns, y.columns) && SameDefinitions(x.indexes, y.indexes)
    && SameTargets(x.foreignKeys, y.foreignKeys)
  }

  ghost predicate Agree(b: Relations, t: Relations)
  {
    b.Keys == t.Keys && forall k | k in b :: SameProjection(b[k], t[k])
  }

  lemma NamesVisit(names: set<string>)
    ensures forall n :: n in Names(names) <==> n in names
  {
    OrdersApart();
    AscendingVisits(names, TextKey);
  }

  lemma RelationKeysVisit(keys: set<RelationKey>)
    ensures forall k :: k in RelationKeys(keys) <==> k in keys
  {
    OrdersApart();
    AscendingVisits(keys, RelationOrder);
  }

  lemma NamedDiffEmpty(table: string, kind: ObjectType, b: Definitions, t: Definitions)
    ensures NamedDiff(table, kind, b, t) == [] <==> SameDefinitions(b, t)
  {
    hide Names, Gather;
    var f := NamedEntries(table, kind, b, t);
    NamesVisit(b.Keys + t.Keys);
    GatherEmpty(Names(b.Keys + t.Keys), f);
    if forall n | n in b.Keys + t.Keys :: f(n) == [] {
      forall n ensures n in b <==> n in t {
        assert n in b.Keys + t.Keys ==> f(n) == NamedEntry(table, kind, n, b, t) == [];
      }
      forall n | n in b ensures b[n].signature == t[n].signature {
        assert n in b.Keys + t.Keys && f(n) == NamedEntry(table, kind, n, b, t) == [];
      }
    }
    if SameDefinitions(b, t) {
      forall n | n in b.Keys + t.Keys ensures f(n) == [] {
        assert f(n) == NamedEntry(table, kind, n, b, t);
      }
    }
  }

  lemma KeyDiffEmpty(table: string, b: map<string, seq<string>>, t: map<string, seq<string>>)
    ensures KeyDiff(table, b, t) == [] <==> SameTargets(b, t)
  {
    hide Names, Gather, KeyEntry, ValuesOf;
    var f := KeyEntries(table, b, t);
    NamesVisit(b.Keys + t.Keys);
    GatherEmpty(Names(b.Keys + t.Keys), f);
    forall c | c in b.Keys + t.Keys
      ensures f(c) == [] <==> multiset(ValuesOf(b, c)) == multiset(ValuesOf(t, c))
    {
      assert f(c) == KeyEntry(table, c, ValuesOf(b, c), ValuesOf(t, c));
      KeyEntryEmpty(table, c, ValuesOf(b, c), ValuesOf(t, c));
    }
  }

  lemma RelationEntryEmpty(key: RelationKey, b: Relations, t: Relations)
    requires key in b || key in t
    ensures RelationEntry(key, b, t) == [] <==> key in b && key in t && SameProjection(b[key], t[key])
  {
    hide NamedDiff, KeyDiff, SameDefinitions, SameTargets;
    if key in b && key in t {
      var table := TableName(key);
      NamedDiffEmpty(table, Column, b[key].columns, t[key].columns);
      NamedDiffEmpty(table, Index, b[key].indexes, t[key].indexes);
      KeyDiffEmpty(table, b[key].foreignKeys, t[key].foreignKeys);
    }
  }

  /** No difference is reported exactly when relations, kinds, columns, indexes and key targets all agree. */
  lemma DifferencesEmpty(b: Relations, t: Relations)
    ensures Differences(b, t) == [] <==> Agree(b, t)
  {
    hide RelationKeys, Gather, RelationEntry, SameProjection;
    var f := RelationEntries(b, t);
    RelationKeysVisit(b.Keys + t.Keys);
    GatherEmpty(RelationKeys(b.Keys + t.Keys), f);
    forall k | k in b.Keys + t.Keys
      ensures f(k) == [] <==> k in b && k in t && SameProjection(b[k], t[k])
    {
      RelationEntryEmpty(k, b, t);
    }
    if forall k | k in b.Keys + t.Keys :: f(k) == [] {
      forall k ensures k in b <==> k in t { assert k in b.Keys + t.Keys ==> f(k) == []; }
    }
  }

  lemma {:induction false} CountsSum(objects: seq<DiffObject>)
    ensures CountOf(objects, Added) + CountOf(objects, Missing) + CountOf(objects, Changed) == |objects|
  {
    if objects != [] { CountsSum(objects[1..]); }
  }

  /** The whole result: when a diff exists, what its total and its counts say. */
  lemma DiffIsExact(b: CatalogSnapshot.Snapshot, t: CatalogSnapshot.Snapshot, lower: TypeSpelling.Lower)
    ensures var r := Compare(b, t, lower);
            && (r.Ok? <==> b.engine == t.engine && b.engine != C.Mongodb)
            && (r.Ok? ==>
                  && (r.value.total == 0
                      <==> Agree(Projected(b.contents.relations, lower), Projected(t.contents.relations, lower)))
                  && r.value.counts.added + r.value.counts.missing + r.value.counts.changed == r.value.total)
  {
    hide Differences, Projected, Agree, CountOf;
    var x, y := Projected(b.contents.relations, lower), Projected(t.contents.relations, lower);
    DifferencesEmpty(x, y);
    CountsSum(Differences(x, y));
  }

  // ---- What each reported object says ----

  lemma {:induction false} InGather<K, T>(keys: seq<K>, f: K -> seq<T>, x: T)
    ensures x in Gather(keys, f) <==> exists i | 0 <= i < |keys| :: x in f(keys[i])
  {
    if keys != [] {
      InGather(keys[1..], f, x);
      assert forall i | 0 <= i < |keys[1..]| :: keys[1..][i] == keys[i + 1];
      assert forall i | 1 <= i < |keys| :: keys[i] == keys[1..][i - 1];
    }
  }

  /** `o` is the true statement that a named part is on one side only, or differs, with the values of both sides. */
  ghost predicate TellsPart(o: DiffObject, table: string, kind: ObjectType, b: Definitions, t: Definitions)
  {
    && o.table == table && o.objectType == kind
    && match o.status
       case Added => o.name !in b && o.name in t && o.baselineValue == ABSENT && o.targetValue == t[o.name].value
       case Missing => o.name in b && o.name !in t && o.baselineValue == b[o.name].value && o.targetValue == ABSENT
       case Changed => o.name in b && o.name in t && b[o.name].signature != t[o.name].signature
                       && o.baselineValue == b[o.name].value && o.targetValue == t[o.name].value
  }

  /** A named object is reported exactly when its status tells the truth about both sides, with both values shown. */
  lemma NamedReports(table: string, kind: ObjectType, b: Definitions, t: Definitions, o: DiffObject)
    ensures o in NamedDiff(table, kind, b, t) <==> TellsPart(o, table, kind, b, t)
  {
    hide Names, Gather;
    var f := NamedEntries(table, kind, b, t);
    var names := Names(b.Keys + t.Keys);
    NamesVisit(b.Keys + t.Keys);
    InGather(names, f, o);
    if o in f(o.name) {
      assert o.name in b.Keys + t.Keys;
      assert o.name in names;
    }
  }

  /** One column's foreign keys: a single changed target is one change, anything else the two multiset differences. */
  lemma KeyReports(table: string, column: string, base: seq<string>, current: seq<string>)
    returns (added: seq<string>, missing: seq<string>)
    ensures multiset(added) == multiset(current) - multiset(base)
    ensures multiset(missing) == multiset(base) - multiset(current)
    ensures KeyEntry(table, column, base, current) ==
              if |base| == 1 && |current| == 1 && base != current then
                [DiffObject(table, ForeignKey, column, Changed, base[0], current[0])]
              else Map(added, AddedKey(table, column)) + Map(missing, MissingKey(table, column))
  {
    hide Map;
    added, missing := Unmatched(current, base), Remaining(base, current);
    UnmatchedBag(current, base);
    RemainingBag(base, current);
  }

  /** `o` is the true statement that a relation is on one side only or of another kind. */
  ghost predicate TellsRelation(o: DiffObject, key: RelationKey, b: Relations, t: Relations)
  {
    && o.table == TableName(key) && o.name == key.name
    && match o.status
       case Added => key !in b && key in t && o.objectType == RelationType(t[key].kind)
                     && o.baselineValue == ABSENT && o.targetValue == KindLabel(t[key].kind)
       case Missing => key in b && key !in t && o.objectType == RelationType(b[key].kind)
                       && o.baselineValue == KindLabel(b[key].kind) && o.targetValue == ABSENT
       case Changed => key in b && key in t && b[key].kind != t[key].kind && o.objectType == RelationType(t[key].kind)
                       && o.baselineValue == KindLabel(b[key].kind) && o.targetValue == KindLabel(t[key].kind)
  }

  predicate Moved(base: seq<string>, current: seq<string>)
  {
    |base| == 1 && |current| == 1 && base != current
  }

  predicate MoreOften(x: string, s: seq<string>, t: seq<string>)
  {
    multiset(s)[x] > multiset(t)[x]
  }

  /** `o` is the true statement that a column links to a target more often on one side, or that its one link moved. */
  ghost predicate TellsTarget(o: DiffObject, table: string, base: seq<string>, current: seq<string>)
  {
    && o.table == table && o.objectType == ForeignKey
    && match o.status
       case Added => !Moved(base, current) && o.baselineValue == ABSENT && MoreOften(o.targetValue, current, base)
       case Missing => !Moved(base, current) && o.targetValue == ABSENT && MoreOften(o.baselineValue, base, current)
       case Changed => Moved(base, current) && base == [o.baselineValue] && current == [o.targetValue]
  }

  ghost predicate TellsLink(o: DiffObject, table: string, b: map<string, seq<string>>, t: map<string, seq<string>>)
  {
    TellsTarget(o, table, ValuesOf(b, o.name), ValuesOf(t, o.name))
  }

  /** `o` tells the truth about the relation under `key`; parts are told apart only where both sides have it. */
  ghost predicate Tells(o: DiffObject, key: RelationKey, b: Relations, t: Relations)
  {
    || TellsRelation(o, key, b, t)
    || (key in b && key in t
        && (|| TellsPart(o, TableName(key), Column, b[key].columns, t[key].columns)
            || TellsPart(o, TableName(key), Index, b[key].indexes, t[key].indexes)
            || TellsLink(o, TableName(key), b[key].foreignKeys, t[key].foreignKeys)))
  }

  lemma LonelyRelationReports(key: RelationKey, b: Relations, t: Relations, o: DiffObject)
    requires (key in b) != (key in t)
    ensures o in RelationEntry(key, b, t) <==> TellsRelation(o, key, b, t)
  {
  }

  lemma {:induction false} InMap<T, U>(s: seq<T>, f: T -> U, y: U)
    ensures y in Map(s, f) <==> exists i | 0 <= i < |s| :: y == f(s[i])
  {
    if s != [] {
      InMap(s[1..], f, y);
      assert forall i | 0 <= i < |s[1..]| :: s[1..][i] == s[i + 1];
      assert forall i | 1 <= i < |s| :: s[i] == s[1..][i - 1];
    }
  }

  lemma AddedTell(table: string, column: string, added: seq<string>, o: DiffObject)
    ensures o in Map(added, AddedKey(table, column)) <==>
              o == DiffObject(table, ForeignKey, column, Added, ABSENT, o.targetValue) && o.targetValue in added
  {
    InMap(added, AddedKey(table, column), o);
    hide Map;
  }

  lemma MissingTell(table: string, column: string, missing: seq<string>, o: DiffObject)
    ensures o in Map(missing, MissingKey(table, column)) <==>
              o == DiffObject(table, ForeignKey, column, Missing, o.baselineValue, ABSENT) && o.baselineValue in missing
  {
    InMap(missing, MissingKey(table, column), o);
    hide Map;
  }

  lemma LeftOver(s: seq<string>, t: seq<string>, rest: seq<string>, x: string)
    requires multiset(rest) == multiset(s) - multiset(t)
    ensures x in rest <==> MoreOften(x, s, t)
  {
    assert x in rest <==> x in multiset(rest);
  }

  lemma KeyEntryTells(table: string, column: string, base: seq<string>, current: seq<string>, o: DiffObject)
    ensures o in KeyEntry(table, column, base, current) <==> o.name == column && TellsTarget(o, table, base, current)
  {
    var added, missing := KeyReports(table, column, base, current);
    hide Map, KeyEntry, AddedKey, MissingKey, MoreOften;
    if Moved(base, current) {
      assert base == [base[0]] && current == [current[0]];
    } else {
      AddedTell(table, column, added, o);
      MissingTell(table, column, missing, o);
      LeftOver(current, base, added, o.targetValue);
      LeftOver(base, current, missing, o.baselineValue);
    }
  }

  lemma LinkedColumn(table: string, b: map<string, seq<string>>, t: map<string, seq<string>>, o: DiffObject)
    requires TellsLink(o, table, b, t)
    ensures o.name in b.Keys + t.Keys
  {
  }

  /** A foreign key is reported exactly when its column links to the target more often on the side it names. */
  lemma LinkReports(table: string, b: map<string, seq<string>>, t: map<string, seq<string>>, o: DiffObject)
    ensures o in KeyDiff(table, b, t) <==> TellsLink(o, table, b, t)
  {
    hide Names, Gather, KeyEntry, TellsTarget, ValuesOf;
    var f := KeyEntries(table, b, t);
    var names := Names(b.Keys + t.Keys);
    NamesVisit(b.Keys + t.Keys);
    InGather(names, f, o);
    forall column ensures o in f(column) <==> o.name == column && TellsLink(o, table, b, t) {
      KeyEntryTells(table, column, ValuesOf(b, column), ValuesOf(t, column), o);
    }
    if TellsLink(o, table, b, t) {
      LinkedColumn(table, b, t, o);
      assert o.name in names && o in f(o.name);
    }
  }

  lemma RelationReports(key: RelationKey, b: Relations, t: Relations, o: DiffObject)
    ensures o in RelationEntry(key, b, t) <==> Tells(o, key, b, t)
  {
    hide NamedDiff, KeyDiff, TellsPart, TellsLink;
    if key in b && key in t {
      var table := TableName(key);
      NamedReports(table, Column, b[key].columns, t[key].columns, o);
      NamedReports(table, Index, b[key].indexes, t[key].indexes, o);
      LinkReports(table, b[key].foreignKeys, t[key].foreignKeys, o);
      assert o in KindEntry(key, b[key].kind, t[key].kind) <==> TellsRelation(o, key, b, t);
    } else if key in b || key in t {
      LonelyRelationReports(key, b, t, o);
    }
  }

  /** The whole diff: an object is in it exactly when it tells the truth about some relation of either side. */
  lemma DifferencesTell(b: Relations, t: Relations, o: DiffObject)
    ensures o in Differences(b, t) <==> exists key :: Tells(o, key, b, t)
  {
    hide Tells, RelationEntry;
    var f := RelationEntries(b, t);
    var keys := RelationKeys(b.Keys + t.Keys);
    RelationKeysVisit(b.Keys + t.Keys);
    hide RelationKeys, Gather;
    InGather(keys, f, o);
    forall key ensures o in f(key) <==> Tells(o, key, b, t) { RelationReports(key, b, t, o); }
    forall key | Tells(o, key, b, t) ensures key in keys { TellsOfSome(key, b, t, o); }
  }

  lemma TellsOfSome(key: RelationKey, b: Relations, t: Relations, o: DiffObject)
    requires Tells(o, key, b, t)
    ensures key in b.Keys + t.Keys
  {
  }

  // ---- What the projected parts say about the relations themselves ----

  /** Of several columns with one name the last one is compared. */
  predicate LastNamed(columns: seq<C.Column>, i: nat)
  {
    i < |columns| && forall j | i < j < |columns| :: columns[j].name != columns[i].name
  }

  lemma {:induction false} LastExists(columns: seq<C.Column>, i: nat) returns (last: nat)
    requires i < |columns|
    ensures LastNamed(columns, last) && columns[last].name == columns[i].name
    decreases |columns| - i
  {
    if j :| i < j < |columns| && columns[j].name == columns[i].name {
      last := LastExists(columns, j);
    } else {
      last := i;
    }
  }

  ghost predicate SameColumn(x: C.Column, xpk: bool, y: C.Column, ypk: bool, lower: TypeSpelling.Lower)
  {
    && TypeSpelling.TypeSignature(x.nativeType, lower) == TypeSpelling.TypeSignature(y.nativeType, lower)
    && x.nullable == y.nullable && xpk == ypk
  }

  ghost predicate SameColumns(r: C.Relation, s: C.Relation, lower: TypeSpelling.Lower)
  {
    forall i: nat, j: nat | LastNamed(r.columns, i) && LastNamed(s.columns, j) && r.columns[i].name == s.columns[j].name ::
      SameColumn(r.columns[i], r.columns[i].name in PrimaryColumns(r.constraints),
                 s.columns[j], s.columns[j].name in PrimaryColumns(s.constraints), lower)
  }

  lemma ColumnDefined(r: C.Relation, i: nat, lower: TypeSpelling.Lower)
    requires LastNamed(r.columns, i)
    ensures var c := r.columns[i];
            c.name in Columns(r, lower)
            && Columns(r, lower)[c.name] == ColumnDefinition(c, c.name in PrimaryColumns(r.constraints), lower)
  {
    hide ColumnDefinition, PrimaryColumns;
    CollectLast(r.columns, ColumnName, DefineColumn(PrimaryColumns(r.constraints), lower), i);
  }

  lemma DefinedColumn(r: C.Relation, n: string, lower: TypeSpelling.Lower) returns (i: nat)
    requires n in Columns(r, lower)
    ensures LastNamed(r.columns, i) && r.columns[i].name == n
  {
    hide ColumnDefinition, PrimaryColumns;
    CollectKeys(r.columns, ColumnName, DefineColumn(PrimaryColumns(r.constraints), lower), n);
    var k :| 0 <= k < |r.columns| && ColumnName(r.columns[k]) == n;
    i := LastExists(r.columns, k);
  }

  lemma SameSignatures(r: C.Relation, i: nat, s: C.Relation, j: nat, lower: TypeSpelling.Lower)
    requires LastNamed(r.columns, i) && LastNamed(s.columns, j) && r.columns[i].name == s.columns[j].name
    ensures var n := r.columns[i].name;
            n in Columns(r, lower) && n in Columns(s, lower)
            && (Columns(r, lower)[n].signature == Columns(s, lower)[n].signature
                <==> SameColumn(r.columns[i], n in PrimaryColumns(r.constraints),
                                s.columns[j], n in PrimaryColumns(s.constraints), lower))
  {
    hide Columns, PrimaryColumns, TypeSpelling.TypeSignature;
    var n, x, y := r.columns[i].name, r.columns[i], s.columns[j];
    ColumnDefined(r, i, lower);
    ColumnDefined(s, j, lower);
    TypeSpelling.ColumnSignatureApart(x.nativeType, x.nullable, n in PrimaryColumns(r.constraints),
                                      y.nativeType, y.nullable, n in PrimaryColumns(s.constraints), lower);
  }

  /** Columns compare equal exactly when names, type spelling, nullability and primary-key membership agree. */
  lemma ColumnsAgree(r: C.Relation, s: C.Relation, lower: TypeSpelling.Lower)
    ensures SameDefinitions(Columns(r, lower), Columns(s, lower))
            <==> Columns(r, lower).Keys == Columns(s, lower).Keys && SameColumns(r, s, lower)
  {
    hide Columns, PrimaryColumns, SameColumn;
    forall i: nat, j: nat | LastNamed(r.columns, i) && LastNamed(s.columns, j) && r.columns[i].name == s.columns[j].name
      ensures var n := r.columns[i].name;
              n in Columns(r, lower) && n in Columns(s, lower)
              && (Columns(r, lower)[n].signature == Columns(s, lower)[n].signature
                  <==> SameColumn(r.columns[i], n in PrimaryColumns(r.constraints),
                                  s.columns[j], n in PrimaryColumns(s.constraints), lower))
    {
      SameSignatures(r, i, s, j, lower);
    }
    if Columns(r, lower).Keys == Columns(s, lower).Keys && SameColumns(r, s, lower) {
      forall n | n in Columns(r, lower) ensures Columns(r, lower)[n].signature == Columns(s, lower)[n].signature {
        var i := DefinedColumn(r, n, lower);
        var j := DefinedColumn(s, n, lower);
        SameSignatures(r, i, s, j, lower);
      }
    }
  }

  function TargetsOf(links: seq<Link>, column: string): seq<string>
  {
    if links == [] then []
    else TargetsOf(links[..|links| - 1], column)
         + (if links[|links| - 1].column == column then [links[|links| - 1].target] else [])
  }

  lemma {:induction false} GroupedMeans(links: seq<Link>, column: string)
    ensures ValuesOf(Grouped(links), column) == TargetsOf(links, column)
  {
    if links != [] { GroupedMeans(links[..|links| - 1], column); }
  }

  /** A column's foreign keys are the targets of all links from it, whichever constraints they come from. */
  lemma ForeignKeysMean(r: C.Relation, column: string)
    ensures multiset(ValuesOf(ForeignKeys(r), column))
         == multiset(TargetsOf(AllLinks(r.constraints, |r.constraints|), column))
  {
    hide Grouped, AllLinks, TargetsOf;
    var links := AllLinks(r.constraints, |r.constraints|);
    GroupedMeans(links, column);
    if column in Grouped(links) {
      SortSorts(Grouped(links)[column], TextKey);
    }
  }

  // ---- Fingerprints are enough: the diff reads nothing else ----

  lemma ProjectIgnoresEstimate(r: C.Relation, s: C.Relation, lower: TypeSpelling.Lower)
    requires r.(rowEstimate := None) == s.(rowEstimate := None)
    ensures KeyOf(r) == KeyOf(s) && Project(lower)(r) == Project(lower)(s)
  {
    var x, y := r.(rowEstimate := None), s.(rowEstimate := None);
    assert x.object_ == y.object_ && x.columns == y.columns && x.constraints == y.constraints && x.indexes == y.indexes;
  }

  lemma SamePayloadsProject(a: seq<C.Relation>, b: seq<C.Relation>, lower: TypeSpelling.Lower)
    requires Map(a, C.RelationPayload) == Map(b, C.RelationPayload)
    ensures Projected(a, lower) == Projected(b, lower)
  {
    hide C.RelationPayload, Project;
    assert |a| == |Map(a, C.RelationPayload)| == |b|;
    forall i | 0 <= i < |a| ensures KeyOf(a[i]) == KeyOf(b[i]) && Project(lower)(a[i]) == Project(lower)(b[i]) {
      assert Map(a, C.RelationPayload)[i] == Map(b, C.RelationPayload)[i];
      CatalogEncoding.RelationPayloadsApart(a[i], b[i]);
      ProjectIgnoresEstimate(a[i], b[i], lower);
    }
    CollectSame(a, b, KeyOf, Project(lower));
  }

  /**
   * Canonical catalogs that are fingerprinted alike are compared alike, against anything on the other side.
   * Only the text matters: the hash is not assumed to be injective anywhere.
   */
  lemma SameTextSameDiff(e: C.DatabaseEngine, b1: C.Contents, b2: C.Contents, t1: C.Contents, t2: C.Contents,
                         lower: TypeSpelling.Lower)
    requires CatalogCanon.FingerprintText(e, b1) == CatalogCanon.FingerprintText(e, b2)
    requires CatalogCanon.FingerprintText(e, t1) == CatalogCanon.FingerprintText(e, t2)
    ensures Differences(Projected(b1.relations, lower), Projected(t1.relations, lower))
         == Differences(Projected(b2.relations, lower), Projected(t2.relations, lower))
  {
    hide Differences, Projected;
    SameTextSameProjection(e, b1, b2, lower);
    SameTextSameProjection(e, t1, t2, lower);
  }

  lemma SameTextSameProjection(e: C.DatabaseEngine, a: C.Contents, b: C.Contents, lower: TypeSpelling.Lower)
    requires CatalogCanon.FingerprintText(e, a) == CatalogCanon.FingerprintText(e, b)
    ensures Projected(a.relations, lower) == Projected(b.relations, lower)
  {
    hide Projected, C.RelationPayload, C.Payload;
    CatalogCanon.PayloadsFromText(e, a, e, b);
    SamePayloadsProject(a.relations, b.relations, lower);
  }
}
