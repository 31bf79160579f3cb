/** What two catalogs without differences have in common, read off their relations alone. */
module SchemaDiffMeaning {
  import opened BTree
  import opened Ordering
  import opened SchemaDiff
  import opened SchemaDiffLaws
  import opened Wrappers
  import C = Catalog
  import CatalogSnapshot
  import TypeSpelling

  // ---- Indexes ----

  /** What an index key is about: its column or else its expression. */
  function KeyText(k: C.IndexKey): Option<string> { if k.column.Some? then k.column else k.expression }

  /** The key has a text without commas. */
  predicate ClearKey(k: C.IndexKey) { KeyText(k).Some? && ',' !in KeyText(k).value }

  /** All keys are clear, and the text of an only key is not empty. */
  predicate ClearIndex(x: C.Index)
  {
    (forall k | k in x.keys :: ClearKey(k)) && (|x.keys| == 1 ==> KeyText(x.keys[0]) != Some(""))
  }

  predicate SameIndex(x: C.Index, y: C.Index)
  {
    && x.unique == y.unique && |x.keys| == |y.keys|
    && forall i | 0 <= i < |x.keys| :: KeyText(x.keys[i]) == KeyText(y.keys[i])
  }

  predicate Plain(parts: seq<string>) { forall p | p in parts :: ',' !in p }

  lemma {:induction false} KeyTextsPlain(keys: seq<C.IndexKey>)
    requires forall k | k in keys :: ClearKey(k)
    ensures |KeyTexts(keys)| == |keys| && Plain(KeyTexts(keys))
    ensures forall i | 0 <= i < |keys| :: Some(KeyTexts(keys)[i]) == KeyText(keys[i])
  {
    if keys != [] {
      var rest := KeyTexts(keys[1..]);
      KeyTextsPlain(keys[1..]);
      assert ClearKey(keys[0]);
      assert KeyTexts(keys) == [KeyText(keys[0]).value] + rest;
      assert forall i | 1 <= i < |keys| :: keys[i] == keys[1..][i - 1];
    }
  }

  lemma {:induction false} HeadsAgree(x: string, s: string, y: string, t: string)
    requires ',' !in x && ',' !in y && (s == [] || s[0] == ',') && (t == [] || t[0] == ',') && x + s == y + t
    ensures x == y && s == t
  {
    var u, v := x + s, y + t;
    assert (x == [] ==> u == s) && (y == [] ==> v == t);
    assert (x != [] ==> u[0] == x[0]) && (y != [] ==> v[0] == y[0]);
    if x == [] {
    } else if y != [] {
      assert u[1..] == x[1..] + s && v[1..] == y[1..] + t;
      HeadsAgree(x[1..], s, y[1..], t);
      assert x == [x[0]] + x[1..] && y == [y[0]] + y[1..];
    }
  }

  function Tail(parts: seq<string>): string
    requires parts != []
  {
    if |parts| == 1 then [] else ", " + Join(parts[1..], ", ")
  }

  lemma JoinTail(parts: seq<string>)
    requires parts != []
    ensures Join(parts, ", ") == parts[0] + Tail(parts)
  {
    if |parts| == 1 {
      assert parts[0] + [] == parts[0];
    } else {
      var rest := Join(parts[1..], ", ");
      assert Join(parts, ", ") == parts[0] + ", " + rest;
      hide Join;
      assert parts[0] + ", " + rest == parts[0] + (", " + rest);
    }
  }

  lemma JoinSplits(parts: seq<string>)
    requires parts != [] && Plain(parts)
    ensures Join(parts, ", ") == parts[0] + Tail(parts) && ',' !in parts[0]
    ensures Tail(parts) == [] || Tail(parts)[0] == ','
    ensures Plain(parts[1..]) && (Tail(parts) == [] <==> |parts| == 1)
  {
    JoinTail(parts);
    hide Join;
    assert parts[0] in parts;
  }

  /** Texts without commas can be told apart once they are joined by commas. */
  lemma {:induction false} JoinApart(a: seq<string>, b: seq<string>)
    requires Plain(a) && Plain(b) && a != [] && b != [] && Join(a, ", ") == Join(b, ", ")
    ensures a == b
  {
    JoinSplits(a);
    JoinSplits(b);
    hide Join, Plain;
    HeadsAgree(a[0], Tail(a), b[0], Tail(b));
    if |a| > 1 {
      assert Tail(a)[2..] == Join(a[1..], ", ") && Tail(b)[2..] == Join(b[1..], ", ");
      JoinApart(a[1..], b[1..]);
    }
    assert a == [a[0]] + a[1..] && b == [b[0]] + b[1..];
  }

  /** Only an empty list and a single empty text are joined alike. */
  lemma JoinNothing(a: seq<string>)
    requires Plain(a) && a != [""]
    ensures Join(a, ", ") == [] <==> a == []
  {
    if a != [] {
      JoinSplits(a);
      hide Join, Plain;
      if |a| == 1 { assert a == [a[0]]; }
    }
  }

  lemma Unwrap(u: bool, s: string, v: bool, t: string)
    ensures (if u then "UNIQUE " else "") + "(" + s + ")" == (if v then "UNIQUE " else "") + "(" + t + ")"
       <==> u == v && s == t
  {
    var x, y := (if u then "UNIQUE " else "") + "(" + s + ")", (if v then "UNIQUE " else "") + "(" + t + ")";
    assert x[0] == (if u then 'U' else '(') && y[0] == (if v then 'U' else '(');
    if x == y {
      var n := if u then 8 else 1;
      assert x[n..|x| - 1] == s && y[n..|y| - 1] == t;
    }
  }

  lemma IndexText(x: C.Index)
    ensures IndexDefinition(x).signature == (if x.unique then "UNIQUE " else "") + "(" + Join(KeyTexts(x.keys), ", ") + ")"
    ensures IndexDefinition(x).value == IndexDefinition(x).signature
  {
  }

  /** Two clear indexes compare equal exactly if uniqueness and, key by key, column or expression agree. */
  lemma IndexSignatures(x: C.Index, y: C.Index)
    requires ClearIndex(x) && ClearIndex(y)
    ensures IndexDefinition(x).signature == IndexDefinition(y).signature <==> SameIndex(x, y)
  {
    KeyTextsPlain(x.keys);
    KeyTextsPlain(y.keys);
    IndexText(x);
    IndexText(y);
    Unwrap(x.unique, Join(KeyTexts(x.keys), ", "), y.unique, Join(KeyTexts(y.keys), ", "));
    JoinNothing(KeyTexts(x.keys));
    JoinNothing(KeyTexts(y.keys));
    hide KeyTexts, Join, Plain, IndexDefinition, ClearKey;
    if Join(KeyTexts(x.keys), ", ") == Join(KeyTexts(y.keys), ", ") && x.keys != [] && y.keys != [] {
      JoinApart(KeyTexts(x.keys), KeyTexts(y.keys));
    }
    if SameIndex(x, y) {
      forall i | 0 <= i < |x.keys| ensures KeyTexts(x.keys)[i] == KeyTexts(y.keys)[i] {
        assert Some(KeyTexts(x.keys)[i]) == KeyText(x.keys[i]) == KeyText(y.keys[i]) == Some(KeyTexts(y.keys)[i]);
      }
      assert KeyTexts(x.keys) == KeyTexts(y.keys);
    }
  }

  /** An only key with an empty text reads like no key at all. */
  lemma BlankKeyHides(name: string, unique: bool)
    ensures var one := C.Index(name, None, [C.IndexKey(None, Some(""), None)], [], None, unique, true);
            IndexDefinition(one) == IndexDefinition(C.Index(name, None, [], [], None, unique, true))
  {
    var e := C.IndexKey(None, Some(""), None);
    assert [e][1..] == [] && KeyTexts([]) == [];
    assert KeyTexts([e]) == [""] + KeyTexts([e][1..]) == [""];
    assert Join([""], ", ") == "" == Join([], ", ");
  }

  /** A comma inside an expression does hide a difference: one key `a, b` reads like the two keys `a` and `b`. */
  lemma CommaHidesKeys(name: string, unique: bool)
    ensures var one := C.Index(name, None, [C.IndexKey(None, Some("a, b"), None)], [], None, unique, true);
            var two := C.Index(name, None, [C.IndexKey(Some("a"), None, None), C.IndexKey(Some("b"), None, None)], [], None,
                               unique, true);
            IndexDefinition(one) == IndexDefinition(two)
  {
    var a, b := C.IndexKey(Some("a"), None, None), C.IndexKey(Some("b"), None, None);
    var e := C.IndexKey(None, Some("a, b"), None);
    assert [e][1..] == [] && KeyTexts([e]) == ["a, b"];
    assert [a, b][1..] == [b] && [b][1..] == [] && KeyTexts([b]) == ["b"] && KeyTexts([a, b]) == ["a", "b"];
    assert ["a", "b"][1..] == ["b"] && Join(["a", "b"], ", ") == "a" + ", " + "b" == "a, b";
  }

  predicate LastIndex(indexes: seq<C.Index>, i: nat)
  {
    i < |indexes| && forall j | i < j < |indexes| :: indexes[j].name != indexes[i].name
  }

  lemma {:induction false} LastIndexExists(indexes: seq<C.Index>, i: nat) returns (last: nat)
    requires i < |indexes|
    ensures LastIndex(indexes, last) && indexes[last].name == indexes[i].name
    decreases |indexes| - i
  {
    if j :| i < j < |indexes| && indexes[j].name == indexes[i].name {
      last := LastIndexExists(indexes, j);
    } else {
      last := i;
    }
  }

  ghost predicate HasIndex(r: C.Relation, name: string) { exists x | x in r.indexes :: x.name == name }

  ghost predicate SameIndexes(r: C.Relation, s: C.Relation)
  {
    && (forall name :: HasIndex(r, name) <==> HasIndex(s, name))
    && forall i: nat, j: nat | LastIndex(r.indexes, i) && LastIndex(s.indexes, j) && r.indexes[i].name == s.indexes[j].name ::
         SameIndex(r.indexes[i], s.indexes[j])
  }

  predicate ClearIndexes(r: C.Relation) { forall x | x in r.indexes :: ClearIndex(x) }

  lemma IndexNames(r: C.Relation, name: string)
    ensures name in Indexes(r) <==> HasIndex(r, name)
  {
    hide IndexDefinition;
    CollectKeys(r.indexes, IndexName, IndexDefinition, name);
    if HasIndex(r, name) {
      var x :| x in r.indexes && x.name == name;
      var i :| 0 <= i < |r.indexes| && r.indexes[i] == x;
      assert IndexName(r.indexes[i]) == name;
    }
  }

  lemma IndexDefined(r: C.Relation, i: nat)
    requires LastIndex(r.indexes, i)
    ensures r.indexes[i].name in Indexes(r) && Indexes(r)[r.indexes[i].name] == IndexDefinition(r.indexes[i])
  {
    hide IndexDefinition;
    CollectLast(r.indexes, IndexName, IndexDefinition, i);
  }

  lemma DefinedIndex(r: C.Relation, name: string) returns (i: nat)
    requires name in Indexes(r)
    ensures LastIndex(r.indexes, i) && r.indexes[i].name == name
  {
    hide IndexDefinition;
    CollectKeys(r.indexes, IndexName, IndexDefinition, name);
    var k :| 0 <= k < |r.indexes| && IndexName(r.indexes[k]) == name;
    i := LastIndexExists(r.indexes, k);
  }

  /** The indexes of two relations compare equal exactly if the same names stand for the same keys and uniqueness. */
  lemma IndexesAgree(r: C.Relation, s: C.Relation)
    requires ClearIndexes(r) && ClearIndexes(s)
    ensures SameDefinitions(Indexes(r), Indexes(s)) <==> SameIndexes(r, s)
  {
    hide Indexes, IndexDefinition, SameIndex, ClearIndex;
    forall name ensures (name in Indexes(r) <==> HasIndex(r, name)) && (name in Indexes(s) <==> HasIndex(s, name)) {
      IndexNames(r, name);
      IndexNames(s, name);
    }
    forall i: nat, j: nat | LastIndex(r.indexes, i) && LastIndex(s.indexes, j) && r.indexes[i].name == s.indexes[j].name
      ensures var n := r.indexes[i].name;
              n in Indexes(r) && n in Indexes(s)
              && (Indexes(r)[n].signature == Indexes(s)[n].signature <==> SameIndex(r.indexes[i], s.indexes[j]))
    {
      IndexDefined(r, i);
      IndexDefined(s, j);
      assert r.indexes[i] in r.indexes && s.indexes[j] in s.indexes;
      IndexSignatures(r.indexes[i], s.indexes[j]);
    }
    if SameIndexes(r, s) {
      forall n | n in Indexes(r) ensures n in Indexes(s) && Indexes(r)[n].signature == Indexes(s)[n].signature {
        var i := DefinedIndex(r, n);
        var j := DefinedIndex(s, n);
        assert SameIndex(r.indexes[i], s.indexes[j]);
      }
      assert Indexes(r).Keys == Indexes(s).Keys;
    }
  }

  // ---- Columns ----

  /** Only primary-key constraints make a column part of the key. */
  lemma {:induction false} PrimaryMeans(constraints: seq<C.Constraint>, name: string)
    ensures name in PrimaryColumns(constraints)
       <==> exists c | c in constraints :: c.kind == C.ConstraintKind.Primary && name in c.columns
  {
    if constraints != [] {
      PrimaryMeans(constraints[1..], name);
      assert forall c :: c in constraints <==> c == constraints[0] || c in constraints[1..];
    }
  }

  ghost predicate InKey(r: C.Relation, name: string)
  {
    exists c | c in r.constraints :: c.kind == C.ConstraintKind.Primary && name in c.columns
  }

  ghost predicate HasColumn(r: C.Relation, name: string) { exists c | c in r.columns :: c.name == name }

  /** By name, the last columns agree in type spelling, nullability and membership in the primary key. */
  ghost predicate SameTable(r: C.Relation, s: C.Relation, lower: TypeSpelling.Lower)
  {
    && (forall name :: HasColumn(r, name) <==> HasColumn(s, name))
    && forall i: nat, j: nat | LastNamed(r.columns, i) && LastNamed(s.columns, j) && r.columns[i].name == s.columns[j].name ::
         SameColumn(r.columns[i], InKey(r, r.columns[i].name), s.columns[j], InKey(s, s.columns[j].name), lower)
  }

  lemma ColumnNames(r: C.Relation, name: string, lower: TypeSpelling.Lower)
    ensures name in Columns(r, lower) <==> HasColumn(r, name)
  {
    hide ColumnDefinition, PrimaryColumns;
    CollectKeys(r.columns, ColumnName, DefineColumn(PrimaryColumns(r.constraints), lower), name);
    if HasColumn(r, name) {
      var c :| c in r.columns && c.name == name;
      var i :| 0 <= i < |r.columns| && r.columns[i] == c;
      assert ColumnName(r.columns[i]) == name;
    }
  }

  lemma TablesAgree(r: C.Relation, s: C.Relation, lower: TypeSpelling.Lower)
    ensures SameDefinitions(Columns(r, lower), Columns(s, lower)) <==> SameTable(r, s, lower)
  {
    hide Columns, PrimaryColumns, SameColumn;
    forall name ensures (name in Columns(r, lower) <==> HasColumn(r, name))
                     && (name in Columns(s, lower) <==> HasColumn(s, name)) {
      ColumnNames(r, name, lower);
      ColumnNames(s, name, lower);
    }
    forall name ensures (name in PrimaryColumns(r.constraints) <==> InKey(r, name))
                     && (name in PrimaryColumns(s.constraints) <==> InKey(s, name)) {
      PrimaryMeans(r.constraints, name);
      PrimaryMeans(s.constraints, name);
    }
    ColumnsAgree(r, s, lower);
    if SameTable(r, s, lower) { assert Columns(r, lower).Keys == Columns(s, lower).Keys; }
  }

  /** What is shown of a column: its type as written, its nullability, and whether it is in the primary key. */
  lemma ColumnShown(c: C.Column, pk: bool, lower: TypeSpelling.Lower)
    ensures ColumnDefinition(c, pk, lower).value == c.nativeType + " \U{B7} " +
              (if c.nullable then (if pk then "NULL \U{B7} PK" else "NULL")
               else if pk then "NOT NULL \U{B7} PK" else "NOT NULL")
  {
    var head := c.nativeType + " \U{B7} ";
    assert "NULL" + " \U{B7} PK" == "NULL \U{B7} PK" && "NOT NULL" + " \U{B7} PK" == "NOT NULL \U{B7} PK";
    assert "NULL" + "" == "NULL" && "NOT NULL" + "" == "NOT NULL";
    var flag, key := if c.nullable then "NULL" else "NOT NULL", if pk then " \U{B7} PK" else "";
    assert head + flag + key == head + (flag + key);
  }

  // ---- Foreign keys ----

  /** A foreign key's reference as text: `column -> namespace.table.column`, the namespace only where there is one. */
  function Reference(c: C.Constraint, i: nat): string
    requires c.referencedRelation.Some? && i < |c.columns|
  {
    var to := c.referencedRelation.value;
    c.columns[i] + " \U{2192} "
    + (if to.namespace.Some? && to.namespace.value != "" then to.namespace.value + "." else "")
    + to.name + "." + (if i < |c.referencedColumns| then c.referencedColumns[i] else "")
  }

  predicate RefersFrom(c: C.Constraint, i: nat, column: string, text: string)
    requires i < |c.columns|
  {
    c.kind == C.ConstraintKind.Foreign && c.referencedRelation.Some? && c.columns[i] == column && Reference(c, i) == text
  }

  /** How many of the first `n` columns of a constraint refer from `column` to `text`. */
  function LinksIn(c: C.Constraint, n: nat, column: string, text: string): nat
    requires n <= |c.columns|
  {
    if n == 0 then 0 else LinksIn(c, n - 1, column, text) + if RefersFrom(c, n - 1, column, text) then 1 else 0
  }

  function LinksOf(constraints: seq<C.Constraint>, n: nat, column: string, text: string): nat
    requires n <= |constraints|
  {
    if n == 0 then 0
    else LinksOf(constraints, n - 1, column, text) + LinksIn(constraints[n - 1], |constraints[n - 1].columns|, column, text)
  }

  lemma ReferenceMeans(c: C.Constraint, i: nat)
    requires Refers(c) && i < |c.columns|
    ensures LinkText(c.columns[i], c.referencedRelation.value, ReferencedColumn(c, i)) == Reference(c, i)
  {
  }

  lemma {:induction false} TargetsConcat(a: seq<Link>, b: seq<Link>, column: string)
    ensures TargetsOf(a + b, column) == TargetsOf(a, column) + TargetsOf(b, column)
  {
    if b == [] {
      assert a + b == a && TargetsOf(a, column) + [] == TargetsOf(a, column);
    } else {
      var n := |b| - 1;
      assert (a + b)[..|a + b| - 1] == a + b[..n] && (a + b)[|a + b| - 1] == b[n];
      TargetsConcat(a, b[..n], column);
    }
  }

  lemma LinksStep(c: C.Constraint, n: nat, column: string)
    requires Refers(c) && n < |c.columns|
    ensures TargetsOf(Links(c, n + 1), column)
         == TargetsOf(Links(c, n), column) + (if c.columns[n] == column then [Reference(c, n)] else [])
  {
    ReferenceMeans(c, n);
    hide LinkText, Reference, ReferencedColumn;
    var last := Link(c.columns[n], Reference(c, n));
    assert [last][..0] == [] && TargetsOf([last], column) == (if last.column == column then [last.target] else []);
    assert Links(c, n + 1) == Links(c, n) + [last];
    hide TargetsOf, Links;
    TargetsConcat(Links(c, n), [last], column);
  }

  /** How often the links of one column lead to `text`. */
  function Times(links: seq<Link>, column: string, text: string): nat
  {
    multiset(TargetsOf(links, column))[text]
  }

  lemma LinkCounted(c: C.Constraint, n: nat, column: string, text: string)
    requires Refers(c) && n < |c.columns|
    ensures Times(Links(c, n + 1), column, text)
         == Times(Links(c, n), column, text) + if RefersFrom(c, n, column, text) then 1 else 0
  {
    LinksStep(c, n, column);
    hide TargetsOf, Links, Reference;
    assert TargetsOf(Links(c, n), column) + [] == TargetsOf(Links(c, n), column);
  }

  lemma NoneCounted(column: string, text: string)
    ensures Times([], column, text) == 0
  {
  }

  lemma {:induction false} LinksCount(c: C.Constraint, n: nat, column: string, text: string)
    requires Refers(c) && n <= |c.columns|
    ensures Times(Links(c, n), column, text) == LinksIn(c, n, column, text)
  {
    hide Times, RefersFrom, LinkText;
    if n == 0 {
      NoneCounted(column, text);
    } else {
      LinksCount(c, n - 1, column, text);
      LinkCounted(c, n - 1, column, text);
    }
  }

  lemma {:induction false} NoLinksIn(c: C.Constraint, n: nat, column: string, text: string)
    requires !Refers(c) && n <= |c.columns|
    ensures LinksIn(c, n, column, text) == 0
  {
    if n > 0 { NoLinksIn(c, n - 1, column, text); }
  }

  lemma AllLinksStep(constraints: seq<C.Constraint>, n: nat, column: string, text: string)
    requires n < |constraints|
    ensures Times(AllLinks(constraints, n + 1), column, text)
         == Times(AllLinks(constraints, n), column, text) + LinksIn(constraints[n], |constraints[n].columns|, column, text)
  {
    var before, c := AllLinks(constraints, n), constraints[n];
    NextLinks(constraints, n);
    hide AllLinks, TargetsOf, Links, LinksIn, Refers;
    if Refers(c) {
      TargetsConcat(before, Links(c, |c.columns|), column);
      LinksCount(c, |c.columns|, column, text);
    } else {
      NoLinksIn(c, |c.columns|, column, text);
    }
  }

  lemma {:induction false} AllLinksCount(constraints: seq<C.Constraint>, n: nat, column: string, text: string)
    requires n <= |constraints|
    ensures Times(AllLinks(constraints, n), column, text) == LinksOf(constraints, n, column, text)
  {
    hide Times, LinksIn, Refers, Links;
    if n == 0 {
      NoneCounted(column, text);
    } else {
      AllLinksCount(constraints, n - 1, column, text);
      AllLinksStep(constraints, n - 1, column, text);
    }
  }

  /** Each reference is listed under its column as often as foreign keys make it. */
  lemma ReferencesListed(r: C.Relation, column: string, text: string)
    ensures multiset(ValuesOf(ForeignKeys(r), column))[text] == LinksOf(r.constraints, |r.constraints|, column, text)
  {
    hide ForeignKeys, AllLinks, TargetsOf;
    ForeignKeysMean(r, column);
    AllLinksCount(r.constraints, |r.constraints|, column, text);
  }

  /** The references of one column are listed in text order. */
  lemma ReferencesAscend(r: C.Relation, column: string, i: nat, j: nat)
    requires i < j < |ValuesOf(ForeignKeys(r), column)|
    ensures TextBefore(ValuesOf(ForeignKeys(r), column)[i], ValuesOf(ForeignKeys(r), column)[j])
  {
    hide Grouped, AllLinks, TextBefore, StableSort;
    var links := Grouped(AllLinks(r.constraints, |r.constraints|));
    SortSorts(links[column], TextKey);
    var x, y := ValuesOf(ForeignKeys(r), column)[i], ValuesOf(ForeignKeys(r), column)[j];
    TextLeqMeans(x, y);
    KeyLeqMeans(TextKey(x), TextKey(y));
    if x == y { LexReflexive(x, CharLeq); assert TextLeq(x, x); }
  }

  ghost predicate SameReferences(r: C.Relation, s: C.Relation)
  {
    forall column, text ::
      LinksOf(r.constraints, |r.constraints|, column, text) == LinksOf(s.constraints, |s.constraints|, column, text)
  }

  lemma ReferencesAgree(r: C.Relation, s: C.Relation)
    ensures SameTargets(ForeignKeys(r), ForeignKeys(s)) <==> SameReferences(r, s)
  {
    hide ForeignKeys, LinksOf;
    var b, t := ForeignKeys(r), ForeignKeys(s);
    forall column, text
      ensures multiset(ValuesOf(b, column))[text] == LinksOf(r.constraints, |r.constraints|, column, text)
      ensures multiset(ValuesOf(t, column))[text] == LinksOf(s.constraints, |s.constraints|, column, text)
    {
      ReferencesListed(r, column, text);
      ReferencesListed(s, column, text);
    }
    if SameReferences(r, s) {
      forall column ensures multiset(ValuesOf(b, column)) == multiset(ValuesOf(t, column)) { }
    }
    if SameTargets(b, t) {
      forall column ensures multiset(ValuesOf(b, column)) == multiset(ValuesOf(t, column)) {
        if column !in b.Keys + t.Keys { assert ValuesOf(b, column) == ValuesOf(t, column) == []; }
      }
    }
  }

  // ---- Whole catalogs ----

  predicate SameName(r: C.Relation, s: C.Relation)
  {
    r.object_.namespace == s.object_.namespace && r.object_.name == s.object_.name
  }

  /** Of several relations with one name the last one is compared. */
  predicate LastRelation(relations: seq<C.Relation>, i: nat)
  {
    i < |relations| && forall j | i < j < |relations| :: !SameName(relations[j], relations[i])
  }

  ghost predicate SameRelation(r: C.Relation, s: C.Relation, lower: TypeSpelling.Lower)
  {
    r.object_.kind == s.object_.kind && SameTable(r, s, lower) && SameIndexes(r, s) && SameReferences(r, s)
  }

  ghost predicate Named(relations: seq<C.Relation>, namespace: Option<string>, name: string)
  {
    exists r | r in relations :: r.object_.namespace == namespace && r.object_.name == name
  }

  ghost predicate SameCatalog(a: seq<C.Relation>, b: seq<C.Relation>, lower: TypeSpelling.Lower)
  {
    && (forall namespace, name :: Named(a, namespace, name) <==> Named(b, namespace, name))
    && forall i: nat, j: nat | LastRelation(a, i) && LastRelation(b, j) && SameName(a[i], b[j]) ::
         SameRelation(a[i], b[j], lower)
  }

  lemma {:induction false} LastRelationExists(relations: seq<C.Relation>, i: nat) returns (last: nat)
    requires i < |relations|
    ensures LastRelation(relations, last) && SameName(relations[last], relations[i])
    decreases |relations| - i
  {
    if j :| i < j < |relations| && SameName(relations[j], relations[i]) {
      last := LastRelationExists(relations, j);
    } else {
      last := i;
    }
  }

  lemma ProjectedNames(relations: seq<C.Relation>, key: RelationKey, lower: TypeSpelling.Lower)
    ensures key in Projected(relations, lower) <==> Named(relations, key.namespace, key.name)
  {
    hide Project;
    CollectKeys(relations, KeyOf, Project(lower), key);
    if Named(relations, key.namespace, key.name) {
      var r :| r in relations && r.object_.namespace == key.namespace && r.object_.name == key.name;
      var i :| 0 <= i < |relations| && relations[i] == r;
      assert KeyOf(relations[i]) == key;
    }
  }

  lemma ProjectedLast(relations: seq<C.Relation>, i: nat, lower: TypeSpelling.Lower)
    requires LastRelation(relations, i)
    ensures KeyOf(relations[i]) in Projected(relations, lower)
    ensures Projected(relations, lower)[KeyOf(relations[i])] == Project(lower)(relations[i])
  {
    hide Project;
    CollectLast(relations, KeyOf, Project(lower), i);
  }

  lemma LastOfKey(relations: seq<C.Relation>, key: RelationKey, lower: TypeSpelling.Lower) returns (i: nat)
    requires key in Projected(relations, lower)
    ensures LastRelation(relations, i) && KeyOf(relations[i]) == key
  {
    hide Project;
    CollectKeys(relations, KeyOf, Project(lower), key);
    var k :| 0 <= k < |relations| && KeyOf(relations[k]) == key;
    i := LastRelationExists(relations, k);
  }

  lemma ProjectionsAgree(r: C.Relation, s: C.Relation, lower: TypeSpelling.Lower)
    requires ClearIndexes(r) && ClearIndexes(s)
    ensures SameProjection(Project(lower)(r), Project(lower)(s)) <==> SameRelation(r, s, lower)
  {
    hide Columns, Indexes, ForeignKeys, SameDefinitions, SameTargets, SameTable, SameIndexes, SameReferences;
    TablesAgree(r, s, lower);
    IndexesAgree(r, s);
    ReferencesAgree(r, s);
  }

  /**
   * A diff is empty exactly when both catalogs name the same relations and the relations of each name agree in kind, in
   * their columns with type, nullability and key, in their indexes, and in how often each column refers where.
   */
  lemma NoDifferenceMeans(a: seq<C.Relation>, b: seq<C.Relation>, lower: TypeSpelling.Lower)
    requires (forall r | r in a :: ClearIndexes(r)) && (forall r | r in b :: ClearIndexes(r))
    ensures Differences(Projected(a, lower), Projected(b, lower)) == [] <==> SameCatalog(a, b, lower)
  {
    var x, y := Projected(a, lower), Projected(b, lower);
    DifferencesEmpty(x, y);
    hide Projected, Project, Differences, SameProjection, SameRelation, ClearIndexes;
    forall key ensures (key in x <==> Named(a, key.namespace, key.name)) && (key in y <==> Named(b, key.namespace, key.name)) {
      ProjectedNames(a, key, lower);
      ProjectedNames(b, key, lower);
    }
    forall i: nat, j: nat | LastRelation(a, i) && LastRelation(b, j) && SameName(a[i], b[j])
      ensures var k := KeyOf(a[i]);
              k in x && k in y && (SameProjection(x[k], y[k]) <==> SameRelation(a[i], b[j], lower))
    {
      ProjectedLast(a, i, lower);
      ProjectedLast(b, j, lower);
      ProjectionsAgree(a[i], b[j], lower);
    }
    if SameCatalog(a, b, lower) {
      forall k | k in x ensures k in y && SameProjection(x[k], y[k]) {
        var i := LastOfKey(a, k, lower);
        assert Named(a, k.namespace, k.name);
        assert k in y;
        var j := LastOfKey(b, k, lower);
        assert SameRelation(a[i], b[j], lower);
      }
      assert x.Keys == y.Keys;
    }
    if Agree(x, y) {
      forall namespace, name ensures Named(a, namespace, name) <==> Named(b, namespace, name) {
        assert RelationKey(namespace, name) in x <==> RelationKey(namespace, name) in y;
      }
    }
  }

  // ---- The whole result ----

  predicate From(s: Source, snapshot: CatalogSnapshot.Snapshot)
  {
    && s.connectionId == snapshot.connectionId && s.database == snapshot.database
    && s.fingerprint == snapshot.fingerprint && s.capturedAt == snapshot.capturedAt
  }

  function StatusOf(o: DiffObject): Status { o.status }

  function Statuses(objects: seq<DiffObject>): multiset<Status> { multiset(Map(objects, StatusOf)) }

  lemma {:induction false} CountMeans(objects: seq<DiffObject>, status: Status)
    ensures CountOf(objects, status) == Statuses(objects)[status]
  {
    if objects != [] {
      CountMeans(objects[1..], status);
      assert Map(objects, StatusOf) == [objects[0].status] + Map(objects[1..], StatusOf);
    }
  }

  /** When two snapshots can be compared, what is said otherwise, and what a result shows besides its objects. */
  lemma ResultMeans(b: CatalogSnapshot.Snapshot, t: CatalogSnapshot.Snapshot, lower: TypeSpelling.Lower)
    ensures var r := Compare(b, t, lower);
            && (b.engine != t.engine ==> r == Err("schema diff requires two databases using the same engine"))
            && (b.engine == t.engine == C.Mongodb ==>
                  r == Err("schema diff requires a relational catalog; MongoDB is not supported"))
            && (b.engine == t.engine != C.Mongodb ==>
                  && r.Ok? && r.value.schemaVersion == 2 && r.value.engine == b.engine
                  && From(r.value.baseline, b) && From(r.value.target, t)
                  && r.value.objects == Differences(Projected(b.contents.relations, lower),
                                                    Projected(t.contents.relations, lower))
                  && r.value.total == |r.value.objects|
                  && r.value.counts.added == Statuses(r.value.objects)[Added]
                  && r.value.counts.missing == Statuses(r.value.objects)[Missing]
                  && r.value.counts.changed == Statuses(r.value.objects)[Changed])
  {
    hide Differences, Projected, CountOf, Statuses;
    var objects := Differences(Projected(b.contents.relations, lower), Projected(t.contents.relations, lower));
    CountMeans(objects, Added);
    CountMeans(objects, Missing);
    CountMeans(objects, Changed);
  }

  // ---- Names shown ----

  /** What is shown of relations: their kind, and their name behind their namespace, if they have one. */
  lemma LabelsShown(namespace: string, name: string)
    ensures KindLabel(C.ObjectKind.Table) == "table" && KindLabel(C.ObjectKind.View) == "view"
    ensures KindLabel(C.ObjectKind.MaterializedView) == "materialized_view" && KindLabel(C.ObjectKind.Routine) == "function"
    ensures KindLabel(C.ObjectKind.Sequence) == "sequence" && KindLabel(C.ObjectKind.Type) == "type"
    ensures KindLabel(C.ObjectKind.Trigger) == "trigger" && KindLabel(C.ObjectKind.Other) == "other"
    ensures forall k: C.ObjectKind :: RelationType(k) ==
              if k == C.ObjectKind.View then View
              else if k == C.ObjectKind.MaterializedView then MaterializedView else Table
    ensures TableName(RelationKey(None, name)) == name == TableName(RelationKey(Some(""), name))
    ensures namespace != "" ==> TableName(RelationKey(Some(namespace), name)) == namespace + "." + name
    ensures ABSENT == "\U{2014}"
  {
  }
}
