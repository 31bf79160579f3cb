/** The order in which a schema diff lists its objects. */
module SchemaDiffOrder {
  import opened BTree
  import opened Ordering
  import opened SchemaDiff
  import C = Catalog

  /** A difference with the relation it belongs to and its group: relation, column, index, foreign key. */
  datatype Placed = Placed(key: RelationKey, group: nat, entry: DiffObject)

  function EntryOf(p: Placed): DiffObject { p.entry }

  function PlaceIn(key: RelationKey, group: nat): DiffObject -> Placed
  {
    (o: DiffObject) => Placed(key, group, o)
  }

  function Position(key: RelationKey, group: nat, name: string): Key
  {
    RelationOrder(key) + [Rank(group), Text(name)]
  }

  function PlacedOrder(p: Placed): Key { Position(p.key, p.group, p.entry.name) }

  predicate InGroup(o: DiffObject, key: RelationKey, group: nat)
  {
    && o.table == TableName(key)
    && (group == 0 ==> o.objectType in {Table, View, MaterializedView} && o.name == key.name)
    && (group == 1 ==> o.objectType == Column)
    && (group == 2 ==> o.objectType == Index)
    && (group == 3 ==> o.objectType == ForeignKey)
    && group <= 3
  }

  ghost predicate WellPlaced(placed: seq<Placed>)
  {
    forall p | p in placed :: InGroup(p.entry, p.key, p.group)
  }

  // ---- Order of composed keys ----

  lemma LaterName(key: RelationKey, group: nat, m: string, n: string)
    requires KeyLeq(TextKey(m), TextKey(n))
    ensures KeyLeq(Position(key, group, m), Position(key, group, n))
  {
    FrontDecides([Rank(group)], [Rank(group)], [Text(m)], [Text(n)]);
    assert [Rank(group)] + [Text(m)] == [Rank(group), Text(m)] && [Rank(group)] + [Text(n)] == [Rank(group), Text(n)];
    FrontDecides(RelationOrder(key), RelationOrder(key), [Rank(group), Text(m)], [Rank(group), Text(n)]);
  }

  lemma LaterGroup(key: RelationKey, g: nat, m: string, h: nat, n: string)
    requires g < h
    ensures KeyLeq(Position(key, g, m), Position(key, h, n))
  {
    FrontDecides(RelationOrder(key), RelationOrder(key), [Rank(g), Text(m)], [Rank(h), Text(n)]);
  }

  lemma LaterRelation(k: RelationKey, g: nat, m: string, l: RelationKey, h: nat, n: string)
    requires k != l && KeyLeq(RelationOrder(k), RelationOrder(l))
    ensures KeyLeq(Position(k, g, m), Position(l, h, n))
  {
    OrdersApart();
    FrontDecides(RelationOrder(k), RelationOrder(l), [Rank(g), Text(m)], [Rank(h), Text(n)]);
  }

  // ---- Sorted pieces in sorted order ----

  ghost predicate Before(a: seq<Placed>, b: seq<Placed>)
  {
    forall x, y | x in a && y in b :: KeyLeq(PlacedOrder(x), PlacedOrder(y))
  }

  lemma JoinSorted(a: seq<Placed>, b: seq<Placed>)
    requires Sorted(a, PlacedOrder) && Sorted(b, PlacedOrder) && Before(a, b)
    ensures Sorted(a + b, PlacedOrder)
  {
    hide PlacedOrder, KeyLeq;
    var s := a + b;
    forall i, j | 0 <= i < j < |s| ensures KeyLeq(PlacedOrder(s[i]), PlacedOrder(s[j])) {
      if i < |a| && |a| <= j {
        assert s[i] in a && s[j] in b;
      }
    }
  }

  ghost predicate PiecesInOrder<K>(keys: seq<K>, f: K -> seq<Placed>)
  {
    && (forall k | k in keys :: Sorted(f(k), PlacedOrder))
    && (forall i, j | 0 <= i < j < |keys| :: Before(f(keys[i]), f(keys[j])))
  }

  lemma {:induction false} BeforeAll<K>(a: seq<Placed>, keys: seq<K>, f: K -> seq<Placed>)
    requires forall i | 0 <= i < |keys| :: Before(a, f(keys[i]))
    ensures Before(a, Gather(keys, f))
  {
    hide PlacedOrder, KeyLeq;
    if keys != [] {
      BeforeAll(a, keys[1..], f);
      assert Before(a, f(keys[0]));
      assert Gather(keys, f) == f(keys[0]) + Gather(keys[1..], f);
    }
  }

  lemma {:induction false} GatherSorted<K>(keys: seq<K>, f: K -> seq<Placed>)
    requires PiecesInOrder(keys, f)
    ensures Sorted(Gather(keys, f), PlacedOrder)
  {
    hide PlacedOrder, KeyLeq, Sorted, Before;
    if keys == [] {
      NoneSorted();
    } else {
      GatherSorted(keys[1..], f);
      assert forall i | 0 <= i < |keys[1..]| :: keys[1..][i] == keys[i + 1];
      BeforeAll(f(keys[0]), keys[1..], f);
      JoinSorted(f(keys[0]), Gather(keys[1..], f));
    }
  }

  lemma NoneSorted()
    ensures Sorted([], PlacedOrder)
  {
  }

  lemma {:induction false} PlaceGather<K>(keys: seq<K>, f: K -> seq<DiffObject>, h: DiffObject -> Placed,
                                          g: K -> seq<Placed>)
    requires forall k | k in keys :: g(k) == Map(f(k), h)
    ensures Gather(keys, g) == Map(Gather(keys, f), h)
  {
    if keys != [] {
      PlaceGather(keys[1..], f, h, g);
      MapConcat(f(keys[0]), Gather(keys[1..], f), h);
    }
  }

  function Placing<K>(f: K -> seq<DiffObject>, key: RelationKey, group: nat): K -> seq<Placed>
  {
    (k: K) => Map(f(k), PlaceIn(key, group))
  }

  // ---- One group of one relation ----

  /** Entries gathered name by name are placed in order of name. */
  lemma GroupSorted(key: RelationKey, group: nat, names: set<string>, f: string -> seq<DiffObject>)
    requires forall n, o | o in f(n) :: o.name == n && InGroup(o, key, group)
    ensures var s := Map(Gather(Names(names), f), PlaceIn(key, group));
            Sorted(s, PlacedOrder) && WellPlaced(s) && InPlace(s, key, group)
  {
    hide Names, KeyLeq, Position, InGroup;
    var g := Placing(f, key, group);
    OrdersApart();
    NamesAscend(names);
    var keys := Names(names);
    forall k | k in keys ensures Sorted(g(k), PlacedOrder) {
      SameNameSorted(f(k), key, group, k);
    }
    forall i, j | 0 <= i < j < |keys| ensures Before(g(keys[i]), g(keys[j])) {
      forall x, y | x in g(keys[i]) && y in g(keys[j]) ensures KeyLeq(PlacedOrder(x), PlacedOrder(y)) {
        LaterName(key, group, keys[i], keys[j]);
      }
    }
    GatherSorted(keys, g);
    PlaceGather(keys, f, PlaceIn(key, group), g);
    GatherGroup(keys, f, key, group);
  }

  lemma NamesAscend(names: set<string>)
    ensures forall i, j | 0 <= i < j < |Names(names)| :: KeyLeq(TextKey(Names(names)[i]), TextKey(Names(names)[j]))
  {
    OrdersApart();
    AscendingVisits(names, TextKey);
  }

  lemma SameNameSorted(s: seq<DiffObject>, key: RelationKey, group: nat, n: string)
    requires forall o | o in s :: o.name == n
    ensures Sorted(Map(s, PlaceIn(key, group)), PlacedOrder)
  {
    hide Position;
    var placed := Map(s, PlaceIn(key, group));
    KeyOrder();
    forall i | 0 <= i < |placed| ensures PlacedOrder(placed[i]) == Position(key, group, n) {
      assert s[i] in s;
    }
  }

  ghost predicate InPlace(s: seq<Placed>, key: RelationKey, group: nat)
  {
    forall p | p in s :: p.key == key && p.group == group
  }

  lemma {:induction false} GatherGroup(keys: seq<string>, f: string -> seq<DiffObject>, key: RelationKey, group: nat)
    requires forall n, o | o in f(n) :: InGroup(o, key, group)
    ensures var s := Map(Gather(keys, f), PlaceIn(key, group)); WellPlaced(s) && InPlace(s, key, group)
  {
    hide InGroup;
    if keys != [] {
      GatherGroup(keys[1..], f, key, group);
      MapConcat(f(keys[0]), Gather(keys[1..], f), PlaceIn(key, group));
    }
  }

  lemma NamedSorted(key: RelationKey, group: nat, kind: ObjectType, b: Definitions, t: Definitions)
    requires (group == 1 && kind == Column) || (group == 2 && kind == Index)
    ensures var s := Map(NamedDiff(TableName(key), kind, b, t), PlaceIn(key, group));
            Sorted(s, PlacedOrder) && WellPlaced(s) && InPlace(s, key, group)
  {
    hide Names, Gather, Sorted, WellPlaced, InPlace, TableName;
    GroupSorted(key, group, b.Keys + t.Keys, NamedEntries(TableName(key), kind, b, t));
  }

  lemma ForeignKeysSorted(key: RelationKey, b: map<string, seq<string>>, t: map<string, seq<string>>)
    ensures var s := Map(KeyDiff(TableName(key), b, t), PlaceIn(key, 3));
            Sorted(s, PlacedOrder) && WellPlaced(s) && InPlace(s, key, 3)
  {
    hide Names, Gather, Sorted, WellPlaced, InPlace, Unmatched, Remaining, ValuesOf;
    var f := KeyEntries(TableName(key), b, t);
    forall n, o | o in f(n) ensures o.name == n && InGroup(o, key, 3) {
      KeyEntryShape(TableName(key), n, ValuesOf(b, n), ValuesOf(t, n), o);
    }
    GroupSorted(key, 3, b.Keys + t.Keys, f);
  }

  lemma KeyEntryShape(table: string, column: string, base: seq<string>, current: seq<string>, o: DiffObject)
    requires o in KeyEntry(table, column, base, current)
    ensures o.table == table && o.name == column && o.objectType == ForeignKey
  {
    hide Unmatched, Remaining;
  }

  // ---- One relation, then all ----

  function PlacedRelation(key: RelationKey, b: Relations, t: Relations): seq<Placed>
  {
    if key in b && key in t then
      Map(KindEntry(key, b[key].kind, t[key].kind), PlaceIn(key, 0))
      + Map(NamedDiff(TableName(key), Column, b[key].columns, t[key].columns), PlaceIn(key, 1))
      + Map(NamedDiff(TableName(key), Index, b[key].indexes, t[key].indexes), PlaceIn(key, 2))
      + Map(KeyDiff(TableName(key), b[key].foreignKeys, t[key].foreignKeys), PlaceIn(key, 3))
    else Map(RelationEntry(key, b, t), PlaceIn(key, 0))
  }

  lemma Unplace(s: seq<DiffObject>, key: RelationKey, group: nat)
    ensures Map(Map(s, PlaceIn(key, group)), EntryOf) == s
  {
  }

  lemma PlacedRelationEntries(key: RelationKey, b: Relations, t: Relations)
    ensures Map(PlacedRelation(key, b, t), EntryOf) == RelationEntry(key, b, t)
  {
    hide KindEntry, NamedDiff, KeyDiff, Map;
    if key in b && key in t {
      var a := KindEntry(key, b[key].kind, t[key].kind);
      var c := NamedDiff(TableName(key), Column, b[key].columns, t[key].columns);
      var d := NamedDiff(TableName(key), Index, b[key].indexes, t[key].indexes);
      var e := KeyDiff(TableName(key), b[key].foreignKeys, t[key].foreignKeys);
      Unplace(a, key, 0);
      Unplace(c, key, 1);
      Unplace(d, key, 2);
      Unplace(e, key, 3);
      MapConcat(Map(a, PlaceIn(key, 0)), Map(c, PlaceIn(key, 1)), EntryOf);
      MapConcat(Map(a, PlaceIn(key, 0)) + Map(c, PlaceIn(key, 1)), Map(d, PlaceIn(key, 2)), EntryOf);
      MapConcat(Map(a, PlaceIn(key, 0)) + Map(c, PlaceIn(key, 1)) + Map(d, PlaceIn(key, 2)), Map(e, PlaceIn(key, 3)),
                EntryOf);
    } else {
      Unplace(RelationEntry(key, b, t), key, 0);
    }
  }

  ghost predicate GroupsUpTo(s: seq<Placed>, key: RelationKey, n: nat)
  {
    Sorted(s, PlacedOrder) && WellPlaced(s) && forall p | p in s :: p.key == key && p.group <= n
  }

  lemma AddGroup(s: seq<Placed>, key: RelationKey, n: nat, group: seq<Placed>)
    requires GroupsUpTo(s, key, n) && Sorted(group, PlacedOrder) && WellPlaced(group) && InPlace(group, key, n + 1)
    ensures GroupsUpTo(s + group, key, n + 1)
  {
    hide KeyLeq, Position, InGroup;
    forall x, y | x in s && y in group ensures KeyLeq(PlacedOrder(x), PlacedOrder(y)) {
      LaterGroup(key, x.group, x.entry.name, n + 1, y.entry.name);
    }
    JoinSorted(s, group);
  }

  lemma OneEntry(key: RelationKey, s: seq<DiffObject>)
    requires |s| <= 1 && forall o | o in s :: InGroup(o, key, 0)
    ensures GroupsUpTo(Map(s, PlaceIn(key, 0)), key, 0)
  {
  }

  lemma RelationSorted(key: RelationKey, b: Relations, t: Relations)
    ensures GroupsUpTo(PlacedRelation(key, b, t), key, 3)
  {
    hide NamedDiff, KeyDiff, Sorted, WellPlaced, InPlace, PlacedOrder, Map, KindEntry, GroupsUpTo;
    if key in b && key in t {
      var a := KindEntry(key, b[key].kind, t[key].kind);
      var c := NamedDiff(TableName(key), Column, b[key].columns, t[key].columns);
      var d := NamedDiff(TableName(key), Index, b[key].indexes, t[key].indexes);
      var e := KeyDiff(TableName(key), b[key].foreignKeys, t[key].foreignKeys);
      KindPlaced(key, b[key].kind, t[key].kind);
      NamedSorted(key, 1, Column, b[key].columns, t[key].columns);
      AddGroup(Map(a, PlaceIn(key, 0)), key, 0, Map(c, PlaceIn(key, 1)));
      NamedSorted(key, 2, Index, b[key].indexes, t[key].indexes);
      AddGroup(Map(a, PlaceIn(key, 0)) + Map(c, PlaceIn(key, 1)), key, 1, Map(d, PlaceIn(key, 2)));
      ForeignKeysSorted(key, b[key].foreignKeys, t[key].foreignKeys);
      AddGroup(Map(a, PlaceIn(key, 0)) + Map(c, PlaceIn(key, 1)) + Map(d, PlaceIn(key, 2)), key, 2,
               Map(e, PlaceIn(key, 3)));
    } else {
      OneEntry(key, RelationEntry(key, b, t));
      Weaken(PlacedRelation(key, b, t), key);
    }
  }

  lemma KindPlaced(key: RelationKey, b: C.ObjectKind, t: C.ObjectKind)
    ensures GroupsUpTo(Map(KindEntry(key, b, t), PlaceIn(key, 0)), key, 0)
  {
    hide GroupsUpTo;
    OneEntry(key, KindEntry(key, b, t));
  }

  lemma Weaken(s: seq<Placed>, key: RelationKey)
    requires GroupsUpTo(s, key, 0)
    ensures GroupsUpTo(s, key, 3)
  {
  }

  function PlacedRelations(b: Relations, t: Relations): RelationKey -> seq<Placed>
  {
    (key: RelationKey) => PlacedRelation(key, b, t)
  }

  lemma {:induction false} GatherPlaced(keys: seq<RelationKey>, b: Relations, t: Relations)
    ensures Map(Gather(keys, PlacedRelations(b, t)), EntryOf) == Gather(keys, RelationEntries(b, t))
    ensures WellPlaced(Gather(keys, PlacedRelations(b, t)))
  {
    hide PlacedRelation, RelationEntry, InGroup, Sorted;
    if keys != [] {
      GatherPlaced(keys[1..], b, t);
      PlacedRelationEntries(keys[0], b, t);
      RelationSorted(keys[0], b, t);
      MapConcat(PlacedRelation(keys[0], b, t), Gather(keys[1..], PlacedRelations(b, t)), EntryOf);
    }
  }

  lemma RelationsBefore(k: RelationKey, l: RelationKey, b: Relations, t: Relations)
    requires k != l && KeyLeq(RelationOrder(k), RelationOrder(l))
    ensures Before(PlacedRelation(k, b, t), PlacedRelation(l, b, t))
  {
    hide PlacedRelation, Position, KeyLeq, InGroup, Sorted, RelationOrder;
    RelationSorted(k, b, t);
    RelationSorted(l, b, t);
    forall x, y | x in PlacedRelation(k, b, t) && y in PlacedRelation(l, b, t)
      ensures KeyLeq(PlacedOrder(x), PlacedOrder(y))
    {
      LaterRelation(k, x.group, x.entry.name, l, y.group, y.entry.name);
    }
  }

  /** Differences come by relation, then relation, column, index and foreign-key entries, each by name. */
  lemma ObjectsInOrder(b: Relations, t: Relations) returns (placed: seq<Placed>)
    ensures Map(placed, EntryOf) == Differences(b, t)
    ensures Sorted(placed, PlacedOrder) && WellPlaced(placed)
  {
    hide PlacedRelation, PlacedOrder, KeyLeq, Sorted, Before, GroupsUpTo, WellPlaced, Gather, Map, RelationEntry;
    var keys := RelationKeys(b.Keys + t.Keys);
    var f := PlacedRelations(b, t);
    placed := Gather(keys, f);
    GatherPlaced(keys, b, t);
    RelationKeysAscend(b.Keys + t.Keys);
    forall k | k in keys ensures Sorted(f(k), PlacedOrder) {
      RelationSorted(k, b, t);
      SortedPart(f(k), k);
    }
    forall i, j | 0 <= i < j < |keys| ensures Before(f(keys[i]), f(keys[j])) {
      RelationsBefore(keys[i], keys[j], b, t);
    }
    GatherSorted(keys, f);
  }

  // ---- The order read off the entries ----

  /** By namespace, none first, then by name. */
  predicate RelationBefore(k: RelationKey, l: RelationKey)
  {
    if k.namespace != l.namespace then OptionBefore(k.namespace, l.namespace) else TextBefore(k.name, l.name)
  }

  function GroupOf(t: ObjectType): nat
  {
    if t == Column then 1 else if t == Index then 2 else if t == ForeignKey then 3 else 0
  }

  /** `o` of relation `k` may stand before `p` of relation `l`. */
  predicate EntryBefore(k: RelationKey, o: DiffObject, l: RelationKey, p: DiffObject)
  {
    if k != l then RelationBefore(k, l)
    else if GroupOf(o.objectType) != GroupOf(p.objectType) then GroupOf(o.objectType) < GroupOf(p.objectType)
    else TextBefore(o.name, p.name)
  }

  lemma RelationOrderMeans(k: RelationKey, l: RelationKey)
    ensures KeyLeq(RelationOrder(k), RelationOrder(l)) <==> RelationBefore(k, l)
  {
    hide TextBefore, OptionBefore, TextLeq, KeyLeq;
    OptionLeqMeans(k.namespace, l.namespace);
    LastTextMeans(k.name, l.name);
    KeyLeqMeans(RelationOrder(k), RelationOrder(l));
    assert RelationOrder(k)[1..] == [Text(k.name)] && RelationOrder(l)[1..] == [Text(l.name)];
  }

  lemma LastTextMeans(s: string, t: string)
    ensures KeyLeq([Text(s)], [Text(t)]) <==> TextBefore(s, t)
  {
    KeyLeqMeans([Text(s)], [Text(t)]);
    assert KeyLeq([Text(s)][1..], [Text(t)][1..]);
    TextLeqMeans(s, t);
  }

  lemma PlacedMeans(x: Placed, y: Placed)
    requires InGroup(x.entry, x.key, x.group) && InGroup(y.entry, y.key, y.group)
    requires KeyLeq(PlacedOrder(x), PlacedOrder(y))
    ensures EntryBefore(x.key, x.entry, y.key, y.entry)
  {
    var m, n := x.entry.name, y.entry.name;
    FrontDecides(RelationOrder(x.key), RelationOrder(y.key), [Rank(x.group), Text(m)], [Rank(y.group), Text(n)]);
    OrdersApart();
    RelationOrderMeans(x.key, y.key);
    KeyLeqMeans([Rank(x.group), Text(m)], [Rank(y.group), Text(n)]);
    assert [Rank(x.group), Text(m)][1..] == [Text(m)] && [Rank(y.group), Text(n)][1..] == [Text(n)];
    LastTextMeans(m, n);
    hide KeyLeq, TextBefore, RelationBefore, RelationOrder;
  }

  /** Each object belongs to a relation and shows its name, and the objects ascend. */
  lemma ObjectsAscend(b: Relations, t: Relations) returns (keys: seq<RelationKey>)
    ensures var objects := Differences(b, t);
            && |keys| == |objects|
            && (forall i | 0 <= i < |keys| :: objects[i].table == TableName(keys[i]))
            && forall i, j | 0 <= i < j < |keys| :: EntryBefore(keys[i], objects[i], keys[j], objects[j])
  {
    hide EntryBefore, InGroup, KeyLeq, PlacedOrder, Differences, TableName;
    var placed := ObjectsInOrder(b, t);
    keys := Map(placed, PlaceKey);
    var objects := Differences(b, t);
    assert |keys| == |placed| == |Map(placed, EntryOf)| == |objects|;
    forall i | 0 <= i < |keys| ensures objects[i].table == TableName(keys[i]) {
      assert objects[i] == Map(placed, EntryOf)[i] == placed[i].entry;
      InGroupNames(placed[i]);
    }
    forall i, j | 0 <= i < j < |keys| ensures EntryBefore(keys[i], objects[i], keys[j], objects[j]) {
      assert objects[i] == Map(placed, EntryOf)[i] && objects[j] == Map(placed, EntryOf)[j];
      PlacedMeans(placed[i], placed[j]);
    }
  }

  function PlaceKey(p: Placed): RelationKey { p.key }

  lemma InGroupNames(p: Placed)
    requires InGroup(p.entry, p.key, p.group)
    ensures p.entry.table == TableName(p.key)
  {
  }

  // ---- The entries of one column ----

  predicate TextsAscend(s: seq<string>) { forall i, j | 0 <= i < j < |s| :: TextBefore(s[i], s[j]) }

  lemma ConsAscends(x: string, s: seq<string>)
    requires TextsAscend(s) && forall y | y in s :: TextBefore(x, y)
    ensures TextsAscend([x] + s)
  {
    hide TextBefore;
    var all := [x] + s;
    forall i, j | 0 <= i < j < |all| ensures TextBefore(all[i], all[j]) {
      assert all[j] == s[j - 1] && all[j] in s;
      if i > 0 { assert all[i] == s[i - 1]; }
    }
  }

  lemma HeadBefore(s: seq<string>)
    requires TextsAscend(s) && s != []
    ensures TextsAscend(s[1..]) && forall y | y in s[1..] :: TextBefore(s[0], y)
  {
    hide TextBefore;
    forall y | y in s[1..] ensures TextBefore(s[0], y) {
      var i :| 0 <= i < |s[1..]| && s[1..][i] == y;
      assert y == s[i + 1];
    }
  }

  lemma {:induction false} UnmatchedAscends(values: seq<string>, remaining: seq<string>)
    requires TextsAscend(values)
    ensures TextsAscend(Unmatched(values, remaining)) && forall x | x in Unmatched(values, remaining) :: x in values
  {
    hide TextBefore;
    if values != [] {
      HeadBefore(values);
      if values[0] in remaining {
        UnmatchedAscends(values[1..], RemoveFirst(remaining, values[0]));
      } else {
        UnmatchedAscends(values[1..], remaining);
        ConsAscends(values[0], Unmatched(values[1..], remaining));
      }
    }
  }

  lemma {:induction false} RemoveFirstAscends(s: seq<string>, x: string)
    requires TextsAscend(s)
    ensures TextsAscend(RemoveFirst(s, x)) && forall y | y in RemoveFirst(s, x) :: y in s
  {
    hide TextBefore;
    if s != [] {
      HeadBefore(s);
      RemoveFirstAscends(s[1..], x);
      ConsAscends(s[0], RemoveFirst(s[1..], x));
    }
  }

  lemma {:induction false} RemainingAscends(remaining: seq<string>, values: seq<string>)
    requires TextsAscend(remaining)
    ensures TextsAscend(Remaining(remaining, values))
    decreases |values|
  {
    hide TextBefore, TextsAscend;
    if values != [] {
      RemoveFirstAscends(remaining, values[0]);
      RemainingAscends(if values[0] in remaining then RemoveFirst(remaining, values[0]) else remaining, values[1..]);
    }
  }

  function ShownValue(o: DiffObject): string { if o.status == Added then o.targetValue else o.baselineValue }

  /** Several entries of one column: what was added, in text order, then what is missing, in text order. */
  lemma ColumnEntriesAscend(table: string, column: string, base: seq<string>, current: seq<string>, i: nat, j: nat)
    requires TextsAscend(base) && TextsAscend(current) && i < j < |KeyEntry(table, column, base, current)|
    ensures var s := KeyEntry(table, column, base, current);
            || (s[i].status == Added && s[j].status == Missing)
            || (s[i].status == s[j].status != Changed && TextBefore(ShownValue(s[i]), ShownValue(s[j])))
  {
    hide TextBefore, Unmatched, Remaining;
    var added, missing := Unmatched(current, base), Remaining(base, current);
    UnmatchedAscends(current, base);
    RemainingAscends(base, current);
    var s, n := KeyEntry(table, column, base, current), |added|;
    assert s == Map(added, AddedKey(table, column)) + Map(missing, MissingKey(table, column));
    if i >= n { assert s[i] == MissingKey(table, column)(missing[i - n]); }
    if j >= n { assert s[j] == MissingKey(table, column)(missing[j - n]); }
  }

  lemma SortedPart(s: seq<Placed>, key: RelationKey)
    requires GroupsUpTo(s, key, 3)
    ensures Sorted(s, PlacedOrder)
  {
  }

  lemma RelationKeysAscend(keys: set<RelationKey>)
    ensures var s := RelationKeys(keys);
            forall i, j | 0 <= i < j < |s| :: s[i] != s[j] && KeyLeq(RelationOrder(s[i]), RelationOrder(s[j]))
  {
    OrdersApart();
    AscendingVisits(keys, RelationOrder);
  }
}
