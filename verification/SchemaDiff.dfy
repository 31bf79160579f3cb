/** Structural comparison of two catalogs (schema_diff.rs). */
module SchemaDiff {
  import opened BTree
  import opened Ordering
  import opened Wrappers
  import C = Catalog
  import CatalogSnapshot
  import TypeSpelling

  const SCHEMA_DIFF_VERSION: nat := 2

  datatype Status = Added | Missing | Changed

  datatype ObjectType = Table | View | MaterializedView | Column | Index | ForeignKey

  datatype DiffObject = DiffObject(
    table: string, objectType: ObjectType, name: string, status: Status, baselineValue: string, targetValue: string)

  datatype Source = Source(connectionId: string, database: string, fingerprint: string, capturedAt: string)

  datatype Counts = Counts(added: nat, missing: nat, changed: nat)

  datatype SchemaDiff = SchemaDiff(
    schemaVersion: nat, engine: C.DatabaseEngine, baseline: Source, target: Source, counts: Counts, total: nat,
    objects: seq<DiffObject>)

  datatype RelationKey = RelationKey(namespace: Option<string>, name: string)

  /** `signature` is compared, `value` is shown. */
  datatype Definition = Definition(signature: string, value: string)

  type Definitions = map<string, Definition>

  /** What of a relation takes part in the comparison. */
  datatype Projection = Projection(
    kind: C.ObjectKind, columns: Definitions, indexes: Definitions, foreignKeys: map<string, seq<string>>)

  type Relations = map<RelationKey, Projection>

  const ABSENT := "\U{2014}"

  // ---- The projection of a relation ----

  function PrimaryColumns(constraints: seq<C.Constraint>): set<string>
  {
    if constraints == [] then {}
    else (if constraints[0].kind == C.Primary then set c | c in constraints[0].columns else {})
         + PrimaryColumns(constraints[1..])
  }

  function ColumnDefinition(c: C.Column, pk: bool, lower: TypeSpelling.Lower): Definition
  {
    Definition(
      TypeSpelling.ColumnSignature(c.nativeType, c.nullable, pk, lower),
      c.nativeType + " \U{B7} " + (if c.nullable then "NULL" else "NOT NULL") + (if pk then " \U{B7} PK" else ""))
  }

  function ColumnName(c: C.Column): string { c.name }

  function DefineColumn(primary: set<string>, lower: TypeSpelling.Lower): C.Column -> Definition
  {
    (c: C.Column) => ColumnDefinition(c, c.name in primary, lower)
  }

  function Columns(r: C.Relation, lower: TypeSpelling.Lower): Definitions
  {
    Collect(r.columns, ColumnName, DefineColumn(PrimaryColumns(r.constraints), lower))
  }

  /** The column of each key, else its expression; keys with neither are skipped. */
  function KeyTexts(keys: seq<C.IndexKey>): seq<string>
  {
    if keys == [] then []
    else (match keys[0].column
          case Some(c) => [c]
          case None => match keys[0].expression case Some(e) => [e] case None => [])
         + KeyTexts(keys[1..])
  }

  function Join(parts: seq<string>, separator: string): string
  {
    if parts == [] then [] else if |parts| == 1 then parts[0]
    else parts[0] + separator + Join(parts[1..], separator)
  }

  function IndexDefinition(i: C.Index): Definition
  {
    var value := (if i.unique then "UNIQUE " else "") + "(" + Join(KeyTexts(i.keys), ", ") + ")";
    Definition(value, value)
  }

  function IndexName(i: C.Index): string { i.name }

  function Indexes(r: C.Relation): Definitions
  {
    Collect(r.indexes, IndexName, IndexDefinition)
  }

  /** One column of one foreign key and what it refers to. */
  datatype Link = Link(column: string, target: string)

  function Prefix(namespace: Option<string>): string
  {
    if namespace.Some? && namespace.value != "" then namespace.value + "." else ""
  }

  function LinkText(column: string, reference: C.ObjectRef, referenced: string): string
  {
    column + " \U{2192} " + Prefix(reference.namespace) + reference.name + "." + referenced
  }

  function ReferencedColumn(c: C.Constraint, i: nat): string
  {
    if i < |c.referencedColumns| then c.referencedColumns[i] else ""
  }

  predicate Refers(c: C.Constraint) { c.kind == C.Foreign && c.referencedRelation.Some? }

  /** The links of the first `n` columns of a foreign key. */
  function Links(c: C.Constraint, n: nat): seq<Link>
    requires Refers(c) && n <= |c.columns|
  {
    if n == 0 then []
    else Links(c, n - 1)
         + [Link(c.columns[n - 1], LinkText(c.columns[n - 1], c.referencedRelation.value, ReferencedColumn(c, n - 1)))]
  }

  /** The links of the first `n` constraints. */
  function AllLinks(constraints: seq<C.Constraint>, n: nat): seq<Link>
    requires n <= |constraints|
  {
    if n == 0 then []
    else AllLinks(constraints, n - 1)
         + (if Refers(constraints[n - 1]) then Links(constraints[n - 1], |constraints[n - 1].columns|) else [])
  }

  function ValuesOf(m: map<string, seq<string>>, column: string): seq<string>
  {
    if column in m then m[column] else []
  }

  /** `entry(column).or_default().push(target)` for each link in turn. */
  function Grouped(links: seq<Link>): map<string, seq<string>>
  {
    if links == [] then map[]
    else var rest, last := Grouped(links[..|links| - 1]), links[|links| - 1];
         rest[last.column := ValuesOf(rest, last.column) + [last.target]]
  }

  function SortText(values: seq<string>): seq<string> { StableSort(values, TextKey) }

  function SortValues(m: map<string, seq<string>>): map<string, seq<string>>
  {
    map c | c in m :: SortText(m[c])
  }

  function ForeignKeys(r: C.Relation): map<string, seq<string>>
  {
    SortValues(Grouped(AllLinks(r.constraints, |r.constraints|)))
  }

  lemma GroupedAppends(links: seq<Link>, l: Link)
    ensures Grouped(links + [l]) == Grouped(links)[l.column := ValuesOf(Grouped(links), l.column) + [l.target]]
  {
    assert (links + [l])[..|links|] == links;
  }

  lemma NoLinks(constraints: seq<C.Constraint>)
    ensures Grouped(AllLinks(constraints, 0)) == map[]
  {
  }

  lemma NextLinks(constraints: seq<C.Constraint>, n: nat)
    requires n < |constraints|
    ensures var before, c := AllLinks(constraints, n), constraints[n];
            AllLinks(constraints, n + 1) == if Refers(c) then before + Links(c, |c.columns|) else before
  {
    assert AllLinks(constraints, n) + [] == AllLinks(constraints, n);
  }

  /** `foreign_keys`: the sorted targets of each column. */
  method ForeignKeysOf(relation: C.Relation) returns (columns: map<string, seq<string>>)
    ensures columns == ForeignKeys(relation)
  {
    NoLinks(relation.constraints);
    hide Grouped, SortValues, AllLinks;
    columns := map[];
    var n := 0;
    while n < |relation.constraints|
      invariant n <= |relation.constraints|
      invariant columns == Grouped(AllLinks(relation.constraints, n))
    {
      var constraint := relation.constraints[n];
      if Refers(constraint) {
        columns := AddLinks(constraint, columns, AllLinks(relation.constraints, n));
      }
      NextLinks(relation.constraints, n);
      n := n + 1;
    }
    columns := SortEach(columns);
  }

  method AddLinks(constraint: C.Constraint, before: map<string, seq<string>>, ghost links: seq<Link>)
    returns (columns: map<string, seq<string>>)
    requires Refers(constraint) && before == Grouped(links)
    ensures columns == Grouped(links + Links(constraint, |constraint.columns|))
  {
    hide Grouped, LinkText, ReferencedColumn;
    columns := before;
    assert links + [] == links;
    var index := 0;
    while index < |constraint.columns|
      invariant index <= |constraint.columns|
      invariant columns == Grouped(links + Links(constraint, index))
    {
      var column := constraint.columns[index];
      var target := LinkText(column, constraint.referencedRelation.value, ReferencedColumn(constraint, index));
      GroupedAppends(links + Links(constraint, index), Link(column, target));
      assert links + Links(constraint, index) + [Link(column, target)]
          == links + (Links(constraint, index) + [Link(column, target)]);
      columns := columns[column := ValuesOf(columns, column) + [target]];
      index := index + 1;
    }
  }

  method SortEach(m: map<string, seq<string>>) returns (sorted: map<string, seq<string>>)
    ensures sorted == SortValues(m)
  {
    sorted := m;
    var pending := m.Keys;
    while pending != {}
      invariant pending <= m.Keys == sorted.Keys
      invariant forall c | c in m :: sorted[c] == if c in pending then m[c] else SortText(m[c])
      decreases |pending|
    {
      var c :| c in pending;
      sorted := sorted[c := SortText(sorted[c])];
      pending := pending - {c};
    }
  }

  function KeyOf(r: C.Relation): RelationKey { RelationKey(r.object_.namespace, r.object_.name) }

  function Project(lower: TypeSpelling.Lower): C.Relation -> Projection
  {
    (r: C.Relation) => Projection(r.object_.kind, Columns(r, lower), Indexes(r), ForeignKeys(r))
  }

  function Projected(relations: seq<C.Relation>, lower: TypeSpelling.Lower): Relations
  {
    Collect(relations, KeyOf, Project(lower))
  }

  // ---- The differences ----

  function RelationType(k: C.ObjectKind): ObjectType
  {
    match k case View => View case MaterializedView => MaterializedView case _ => Table
  }

  function KindLabel(k: C.ObjectKind): string
  {
    match k case Table => "table" case View => "view" case MaterializedView => "materialized_view"
            case Routine => "function" case Sequence => "sequence" case Type => "type"
            case Trigger => "trigger" case Other => "other"
  }

  function TableName(key: RelationKey): string
  {
    Prefix(key.namespace) + key.name
  }

  function RelationOrder(k: RelationKey): Key { [OptionText(k.namespace), Text(k.name)] }

  lemma OrdersApart()
    ensures Injective(RelationOrder) && Injective(TextKey)
  {
    forall x, y | RelationOrder(x) == RelationOrder(y) ensures x == y {
      assert RelationOrder(x)[0] == RelationOrder(y)[0] && RelationOrder(x)[1] == RelationOrder(y)[1];
    }
    forall x, y | TextKey(x) == TextKey(y) ensures x == y {
      assert TextKey(x)[0] == TextKey(y)[0];
    }
  }

  function Names(names: set<string>): seq<string>
  {
    OrdersApart();
    Ascending(names, TextKey)
  }

  function RelationKeys(keys: set<RelationKey>): seq<RelationKey>
  {
    OrdersApart();
    Ascending(keys, RelationOrder)
  }

  function NamedEntry(table: string, kind: ObjectType, name: string, b: Definitions, t: Definitions): seq<DiffObject>
  {
    if name in b && name in t then
      if b[name].signature != t[name].signature then
        [DiffObject(table, kind, name, Changed, b[name].value, t[name].value)]
      else []
    else if name in t then [DiffObject(table, kind, name, Added, ABSENT, t[name].value)]
    else if name in b then [DiffObject(table, kind, name, Missing, b[name].value, ABSENT)]
    else []
  }

  function NamedEntries(table: string, kind: ObjectType, b: Definitions, t: Definitions): string -> seq<DiffObject>
  {
    (name: string) => NamedEntry(table, kind, name, b, t)
  }

  function NamedDiff(table: string, kind: ObjectType, b: Definitions, t: Definitions): seq<DiffObject>
  {
    Gather(Names(b.Keys + t.Keys), NamedEntries(table, kind, b, t))
  }

  function RemoveFirst(s: seq<string>, x: string): seq<string>
  {
    if s == [] then [] else if s[0] == x then s[1..] else [s[0]] + RemoveFirst(s[1..], x)
  }

  /** The values left over once each has been matched against at most one of `remaining`. */
  function Unmatched(values: seq<string>, remaining: seq<string>): seq<string>
  {
    if values == [] then []
    else if values[0] in remaining then Unmatched(values[1..], RemoveFirst(remaining, values[0]))
    else [values[0]] + Unmatched(values[1..], remaining)
  }

  /** What is left of `remaining` once each value has taken its match out. */
  function Remaining(remaining: seq<string>, values: seq<string>): seq<string>
    decreases |values|
  {
    if values == [] then remaining
    else Remaining(if values[0] in remaining then RemoveFirst(remaining, values[0]) else remaining, values[1..])
  }

  function AddedKey(table: string, column: string): string -> DiffObject
  {
    (value: string) => DiffObject(table, ForeignKey, column, Added, ABSENT, value)
  }

  function MissingKey(table: string, column: string): string -> DiffObject
  {
    (value: string) => DiffObject(table, ForeignKey, column, Missing, value, ABSENT)
  }

  function KeyEntry(table: string, column: string, base: seq<string>, current: seq<string>): seq<DiffObject>
  {
    if |base| == 1 && |current| == 1 && base != current then
      [DiffObject(table, ForeignKey, column, Changed, base[0], current[0])]
    else
      Map(Unmatched(current, base), AddedKey(table, column))
      + Map(Remaining(base, current), MissingKey(table, column))
  }

  function KeyEntries(table: string, b: map<string, seq<string>>, t: map<string, seq<string>>): string -> seq<DiffObject>
  {
    (column: string) => KeyEntry(table, column, ValuesOf(b, column), ValuesOf(t, column))
  }

  function KeyDiff(table: string, b: map<string, seq<string>>, t: map<string, seq<string>>): seq<DiffObject>
  {
    Gather(Names(b.Keys + t.Keys), KeyEntries(table, b, t))
  }

  function KindEntry(key: RelationKey, b: C.ObjectKind, t: C.ObjectKind): seq<DiffObject>
  {
    if b != t then [DiffObject(TableName(key), RelationType(t), key.name, Changed, KindLabel(b), KindLabel(t))] else []
  }

  function RelationEntry(key: RelationKey, b: Relations, t: Relations): seq<DiffObject>
  {
    var table := TableName(key);
    if key in b && key in t then
      KindEntry(key, b[key].kind, t[key].kind)
      + NamedDiff(table, Column, b[key].columns, t[key].columns)
      + NamedDiff(table, Index, b[key].indexes, t[key].indexes)
      + KeyDiff(table, b[key].foreignKeys, t[key].foreignKeys)
    else if key in t then
      [DiffObject(table, RelationType(t[key].kind), key.name, Added, ABSENT, KindLabel(t[key].kind))]
    else if key in b then
      [DiffObject(table, RelationType(b[key].kind), key.name, Missing, KindLabel(b[key].kind), ABSENT)]
    else []
  }

  function RelationEntries(b: Relations, t: Relations): RelationKey -> seq<DiffObject>
  {
    (key: RelationKey) => RelationEntry(key, b, t)
  }

  function Differences(b: Relations, t: Relations): seq<DiffObject>
  {
    Gather(RelationKeys(b.Keys + t.Keys), RelationEntries(b, t))
  }

  function CountOf(objects: seq<DiffObject>, status: Status): nat
  {
    if objects == [] then 0 else (if objects[0].status == status then 1 else 0) + CountOf(objects[1..], status)
  }

  const DIFFERENT_ENGINES := "schema diff requires two databases using the same engine"
  const NOT_RELATIONAL := "schema diff requires a relational catalog; MongoDB is not supported"

  function SourceOf(s: CatalogSnapshot.Snapshot): Source
  {
    Source(s.connectionId, s.database, s.fingerprint, s.capturedAt)
  }

  function Compare(b: CatalogSnapshot.Snapshot, t: CatalogSnapshot.Snapshot, lower: TypeSpelling.Lower)
    : Result<SchemaDiff, string>
  {
    if b.engine != t.engine then Err(DIFFERENT_ENGINES)
    else if b.engine == C.Mongodb then Err(NOT_RELATIONAL)
    else
      var objects := Differences(Projected(b.contents.relations, lower), Projected(t.contents.relations, lower));
      Ok(SchemaDiff(SCHEMA_DIFF_VERSION, b.engine, SourceOf(b), SourceOf(t),
                    Counts(CountOf(objects, Added), CountOf(objects, Missing), CountOf(objects, Changed)),
                    |objects|, objects))
  }

  // ---- The comparison as the program runs it: differences are pushed onto one list ----

  class Comparison {
    var objects: seq<DiffObject>

    constructor ()
      ensures objects == []
    {
      objects := [];
    }

    /** `compare_named`. */
    method CompareNamed(table: string, kind: ObjectType, baseline: Definitions, target: Definitions)
      modifies this
      ensures objects == old(objects) + NamedDiff(table, kind, baseline, target)
    {
      hide Names, Gather;
      var names := Names(baseline.Keys + target.Keys);
      ghost var f := NamedEntries(table, kind, baseline, target);
      NoneGathered(names, f, objects);
      var i := 0;
      while i < |names|
        invariant i <= |names| && objects == old(objects) + Gather(names[..i], f)
      {
        var name := names[i];
        ghost var before := objects;
        if name in baseline && name in target {
          if baseline[name].signature != target[name].signature {
            objects := objects + [DiffObject(table, kind, name, Changed, baseline[name].value, target[name].value)];
          }
        } else if name in target {
          objects := objects + [DiffObject(table, kind, name, Added, ABSENT, target[name].value)];
        } else if name in baseline {
          objects := objects + [DiffObject(table, kind, name, Missing, baseline[name].value, ABSENT)];
        }
        assert objects == before + f(name);
        Gathered(names, i, f, old(objects));
        i := i + 1;
      }
      assert names[..i] == names;
    }

    /** The unmatched values of one column, on both sides. */
    method CompareColumnKeys(table: string, column: string, base: seq<string>, current: seq<string>)
      modifies this
      ensures objects == old(objects) + KeyEntry(table, column, base, current)
    {
      hide Remaining, Unmatched, Map;
      if |base| == 1 && |current| == 1 && base != current {
        objects := objects + [DiffObject(table, ForeignKey, column, Changed, base[0], current[0])];
        return;
      }
      var remaining := PushUnmatched(table, column, base, current);
      PushMissing(table, column, remaining);
      ghost var x, y := Map(Unmatched(current, base), AddedKey(table, column)), Map(remaining, MissingKey(table, column));
      assert old(objects) + x + y == old(objects) + (x + y);
    }

    method PushUnmatched(table: string, column: string, base: seq<string>, current: seq<string>)
      returns (remaining: seq<string>)
      modifies this
      ensures remaining == Remaining(base, current)
      ensures objects == old(objects) + Map(Unmatched(current, base), AddedKey(table, column))
    {
      remaining := base;
      ghost var f := AddedKey(table, column);
      ghost var done: seq<string> := [];
      assert current[0..] == current && objects + Map(done, f) == objects;
      assert [] + Unmatched(current, base) == Unmatched(current, base);
      var i := 0;
      while i < |current|
        invariant i <= |current|
        invariant Remaining(base, current) == Remaining(remaining, current[i..])
        invariant Unmatched(current, base) == done + Unmatched(current[i..], remaining)
        invariant objects == old(objects) + Map(done, f)
      {
        var value := current[i];
        assert current[i..][0] == value && current[i..][1..] == current[i + 1..];
        if value in remaining {
          remaining := RemoveFirst(remaining, value);
        } else {
          objects := objects + [DiffObject(table, ForeignKey, column, Added, ABSENT, value)];
          Advance(done, value, Unmatched(current[i + 1..], remaining), f);
          done := done + [value];
        }
        i := i + 1;
      }
      assert current[i..] == [] && done + [] == done;
    }

    method PushMissing(table: string, column: string, remaining: seq<string>)
      modifies this
      ensures objects == old(objects) + Map(remaining, MissingKey(table, column))
    {
      ghost var f := MissingKey(table, column);
      assert objects + Map(remaining[..0], f) == objects;
      hide Map;
      var i := 0;
      while i < |remaining|
        invariant i <= |remaining| && objects == old(objects) + Map(remaining[..i], f)
      {
        Advance(remaining[..i], remaining[i], [], f);
        assert remaining[..i + 1] == remaining[..i] + [remaining[i]];
        objects := objects + [DiffObject(table, ForeignKey, column, Missing, remaining[i], ABSENT)];
        i := i + 1;
      }
      assert remaining[..i] == remaining;
    }

    /** `compare_foreign_keys`. */
    method CompareForeignKeys(table: string, baseline: C.Relation, target: C.Relation)
      modifies this
      ensures objects == old(objects) + KeyDiff(table, ForeignKeys(baseline), ForeignKeys(target))
    {
      hide KeyEntry, ForeignKeys, Names, Gather;
      var b := ForeignKeysOf(baseline);
      var t := ForeignKeysOf(target);
      var columns := Names(b.Keys + t.Keys);
      ghost var f := KeyEntries(table, b, t);
      NoneGathered(columns, f, objects);
      var i := 0;
      while i < |columns|
        invariant i <= |columns| && objects == old(objects) + Gather(columns[..i], f)
      {
        CompareColumnKeys(table, columns[i], ValuesOf(b, columns[i]), ValuesOf(t, columns[i]));
        Gathered(columns, i, f, old(objects));
        i := i + 1;
      }
      assert columns[..i] == columns;
    }

    /** The differences between two relations of one key. */
    method CompareRelation(key: RelationKey, base: C.Relation, current: C.Relation, lower: TypeSpelling.Lower)
      modifies this
      ensures var b, t := Project(lower)(base), Project(lower)(current);
              objects == old(objects) + RelationEntry(key, map[key := b], map[key := t])
    {
      hide Columns, Indexes, ForeignKeys, NamedDiff, KeyDiff, TableName;
      var table := TableName(key);
      ghost var start := objects;
      if base.object_.kind != current.object_.kind {
        objects := objects + [DiffObject(table, RelationType(current.object_.kind), key.name, Changed,
                                         KindLabel(base.object_.kind), KindLabel(current.object_.kind))];
      }
      assert objects == start + KindEntry(key, base.object_.kind, current.object_.kind);
      CompareNamed(table, Column, Columns(base, lower), Columns(current, lower));
      CompareNamed(table, Index, Indexes(base), Indexes(current));
      CompareForeignKeys(table, base, current);
      Regroup(start, KindEntry(key, base.object_.kind, current.object_.kind),
              NamedDiff(table, Column, Columns(base, lower), Columns(current, lower)),
              NamedDiff(table, Index, Indexes(base), Indexes(current)),
              KeyDiff(table, ForeignKeys(base), ForeignKeys(current)));
    }

    /** One relation key of the two catalogs. */
    method CompareKey(key: RelationKey, base: map<RelationKey, C.Relation>, current: map<RelationKey, C.Relation>,
                      lower: TypeSpelling.Lower, ghost b: Relations, ghost t: Relations)
      requires ProjectsTo(base, b, lower) && ProjectsTo(current, t, lower)
      modifies this
      ensures objects == old(objects) + RelationEntry(key, b, t)
    {
      hide NamedDiff, KeyDiff, Columns, Indexes, ForeignKeys, KindEntry, TableName;
      var table := TableName(key);
      if key in base && key in current {
        CompareRelation(key, base[key], current[key], lower);
      } else if key in current {
        var kind := current[key].object_.kind;
        objects := objects + [DiffObject(table, RelationType(kind), key.name, Added, ABSENT, KindLabel(kind))];
      } else if key in base {
        var kind := base[key].object_.kind;
        objects := objects + [DiffObject(table, RelationType(kind), key.name, Missing, KindLabel(kind), ABSENT)];
      }
    }

    /** The loop over the relation keys of both catalogs. */
    method CompareRelations(baseline: seq<C.Relation>, target: seq<C.Relation>, lower: TypeSpelling.Lower)
      modifies this
      ensures objects == old(objects) + Differences(Projected(baseline, lower), Projected(target, lower))
    {
      hide RelationEntry, RelationKeys, Gather, Collect, Projected, ProjectsTo;
      var base := Collect(baseline, KeyOf, Itself);
      var current := Collect(target, KeyOf, Itself);
      ghost var b, t := Projected(baseline, lower), Projected(target, lower);
      CollectProjects(baseline, lower);
      CollectProjects(target, lower);
      var keys := RelationKeys(base.Keys + current.Keys);
      ghost var f := RelationEntries(b, t);
      NoneGathered(keys, f, objects);
      var i := 0;
      while i < |keys|
        invariant i <= |keys| && objects == old(objects) + Gather(keys[..i], f)
      {
        CompareKey(keys[i], base, current, lower, b, t);
        Gathered(keys, i, f, old(objects));
        i := i + 1;
      }
      assert keys[..i] == keys;
    }
  }

  ghost predicate ProjectsTo(relations: map<RelationKey, C.Relation>, p: Relations, lower: TypeSpelling.Lower)
  {
    relations.Keys == p.Keys && forall k | k in p :: p[k] == Project(lower)(relations[k])
  }

  lemma CollectProjects(relations: seq<C.Relation>, lower: TypeSpelling.Lower)
    ensures ProjectsTo(Collect(relations, KeyOf, Itself), Projected(relations, lower), lower)
    ensures Collect(relations, KeyOf, Itself).Keys == Projected(relations, lower).Keys
  {
    hide Columns, Indexes, ForeignKeys;
    CollectThen(relations, KeyOf, Itself, Project(lower), Project(lower));
  }

  function Itself(r: C.Relation): C.Relation { r }

  lemma NoneGathered<K>(keys: seq<K>, f: K -> seq<DiffObject>, start: seq<DiffObject>)
    ensures start + Gather(keys[..0], f) == start
  {
  }

  lemma Gathered<K>(keys: seq<K>, i: nat, f: K -> seq<DiffObject>, start: seq<DiffObject>)
    requires i < |keys|
    ensures start + Gather(keys[..i + 1], f) == start + Gather(keys[..i], f) + f(keys[i])
  {
    assert keys[..i + 1] == keys[..i] + [keys[i]];
    GatherAppends(keys[..i], keys[i], f);
  }

  lemma Advance(done: seq<string>, value: string, rest: seq<string>, f: string -> DiffObject)
    ensures Map(done + [value], f) == Map(done, f) + [f(value)]
    ensures done + ([value] + rest) == done + [value] + rest
  {
    MapConcat(done, [value], f);
    assert Map([value], f) == [f(value)];
  }

  lemma Regroup<T>(s: seq<T>, a: seq<T>, b: seq<T>, c: seq<T>, d: seq<T>)
    ensures s + a + b + c + d == s + (a + b + c + d)
  {
  }

  /** Tallies the differences by status. */
  method Tally(objects: seq<DiffObject>) returns (counts: Counts)
    ensures counts == Counts(CountOf(objects, Added), CountOf(objects, Missing), CountOf(objects, Changed))
  {
    counts := Counts(0, 0, 0);
    var i := 0;
    while i < |objects|
      invariant i <= |objects|
      invariant counts.added + CountOf(objects[i..], Added) == CountOf(objects, Added)
      invariant counts.missing + CountOf(objects[i..], Missing) == CountOf(objects, Missing)
      invariant counts.changed + CountOf(objects[i..], Changed) == CountOf(objects, Changed)
    {
      assert objects[i..][0] == objects[i] && objects[i..][1..] == objects[i + 1..];
      match objects[i].status {
        case Added => counts := counts.(added := counts.added + 1);
        case Missing => counts := counts.(missing := counts.missing + 1);
        case Changed => counts := counts.(changed := counts.changed + 1);
      }
      i := i + 1;
    }
  }

  /** `compare_schema_catalogs`. */
  method CompareSchemaCatalogs(baseline: CatalogSnapshot.Snapshot, target: CatalogSnapshot.Snapshot,
                               lower: TypeSpelling.Lower)
    returns (diff: Result<SchemaDiff, string>)
    ensures diff == Compare(baseline, target, lower)
  {
    hide Differences, Projected, CountOf;
    if baseline.engine != target.engine {
      return Err(DIFFERENT_ENGINES);
    }
    if baseline.engine == C.Mongodb {
      return Err(NOT_RELATIONAL);
    }
    var comparison := new Comparison();
    comparison.CompareRelations(baseline.contents.relations, target.contents.relations, lower);
    var objects := comparison.objects;
    assert objects == Differences(Projected(baseline.contents.relations, lower),
                                  Projected(target.contents.relations, lower));
    var counts := Tally(objects);
    return Ok(SchemaDiff(SCHEMA_DIFF_VERSION, baseline.engine, SourceOf(baseline), SourceOf(target), counts,
                         |objects|, objects));
  }
}
