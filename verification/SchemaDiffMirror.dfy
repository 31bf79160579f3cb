/** Swapping the two sides of a schema diff mirrors it. */
module SchemaDiffMirror {
  import opened BTree
  import opened Ordering
  import opened SchemaDiff
  import opened SchemaDiffLaws
  import C = Catalog

  function Swap(s: Status): Status
  {
    match s case Added => Missing case Missing => Added case Changed => Changed
  }

  /** Forgets which relation type a change of kind is reported under: it is the target's. */
  function Blur(o: DiffObject): DiffObject
  {
    if o.status == Changed && o.objectType in {Table, View, MaterializedView} then o.(objectType := Table) else o
  }

  function Reflect(o: DiffObject): DiffObject
  {
    Blur(o.(status := Swap(o.status), baselineValue := o.targetValue, targetValue := o.baselineValue))
  }

  /** `y` holds what `x` holds, seen from the other side. */
  ghost predicate Mirrors(x: seq<DiffObject>, y: seq<DiffObject>)
  {
    multiset(Map(x, Reflect)) == multiset(Map(y, Blur))
  }

  lemma MirrorsConcat(a: seq<DiffObject>, b: seq<DiffObject>, x: seq<DiffObject>, y: seq<DiffObject>)
    requires Mirrors(a, x) && Mirrors(b, y)
    ensures Mirrors(a + b, x + y)
  {
    MapConcat(a, b, Reflect);
    MapConcat(x, y, Blur);
  }

  lemma {:induction false} MirrorsGather<K>(keys: seq<K>, f: K -> seq<DiffObject>, g: K -> seq<DiffObject>)
    requires forall k | k in keys :: Mirrors(f(k), g(k))
    ensures Mirrors(Gather(keys, f), Gather(keys, g))
  {
    if keys != [] {
      MirrorsGather(keys[1..], f, g);
      MirrorsConcat(f(keys[0]), Gather(keys[1..], f), g(keys[0]), Gather(keys[1..], g));
    }
  }

  lemma MirrorsOne(x: DiffObject, y: DiffObject)
    requires Reflect(x) == Blur(y)
    ensures Mirrors([x], [y])
  {
    assert Map([x], Reflect) == [Reflect(x)] && Map([y], Blur) == [Blur(y)];
  }

  lemma NamedMirrors(table: string, kind: ObjectType, b: Definitions, t: Definitions)
    ensures Mirrors(NamedDiff(table, kind, b, t), NamedDiff(table, kind, t, b))
  {
    hide Names, Gather, Mirrors;
    assert b.Keys + t.Keys == t.Keys + b.Keys;
    forall n ensures Mirrors(NamedEntry(table, kind, n, b, t), NamedEntry(table, kind, n, t, b)) {
      NamedEntryMirrors(table, kind, n, b, t);
    }
    MirrorsGather(Names(b.Keys + t.Keys), NamedEntries(table, kind, b, t), NamedEntries(table, kind, t, b));
  }

  lemma MirrorsNone()
    ensures Mirrors([], [])
  {
  }

  lemma NamedEntryMirrors(table: string, kind: ObjectType, n: string, b: Definitions, t: Definitions)
    ensures Mirrors(NamedEntry(table, kind, n, b, t), NamedEntry(table, kind, n, t, b))
  {
    hide Mirrors;
    MirrorsNone();
    var x, y := NamedEntry(table, kind, n, b, t), NamedEntry(table, kind, n, t, b);
    if x != [] {
      MirrorsOne(x[0], y[0]);
    }
  }

  lemma {:induction false} ReflectedKeys(values: seq<string>, table: string, column: string)
    ensures Map(Map(values, AddedKey(table, column)), Reflect) == Map(Map(values, MissingKey(table, column)), Blur)
    ensures Map(Map(values, MissingKey(table, column)), Reflect) == Map(Map(values, AddedKey(table, column)), Blur)
  {
    if values != [] { ReflectedKeys(values[1..], table, column); }
  }

  lemma KeyValuesMirror(table: string, column: string, a: seq<string>, b: seq<string>)
    requires multiset(a) == multiset(b)
    ensures Mirrors(Map(a, AddedKey(table, column)), Map(b, MissingKey(table, column)))
    ensures Mirrors(Map(a, MissingKey(table, column)), Map(b, AddedKey(table, column)))
  {
    ReflectedKeys(a, table, column);
    MapBag(a, b, AddedKey(table, column));
    MapBag(a, b, MissingKey(table, column));
    MapBag(Map(a, AddedKey(table, column)), Map(b, AddedKey(table, column)), Blur);
    MapBag(Map(a, MissingKey(table, column)), Map(b, MissingKey(table, column)), Blur);
  }

  lemma KeyEntryMirrors(table: string, column: string, base: seq<string>, current: seq<string>)
    ensures Mirrors(KeyEntry(table, column, base, current), KeyEntry(table, column, current, base))
  {
    hide Mirrors, Map, Unmatched, Remaining;
    var x, y := KeyEntry(table, column, base, current), KeyEntry(table, column, current, base);
    if |base| == 1 && |current| == 1 && base != current {
      MirrorsOne(x[0], y[0]);
    } else {
      var added, missing := Unmatched(current, base), Remaining(base, current);
      var added', missing' := Unmatched(base, current), Remaining(current, base);
      UnmatchedBag(current, base);
      UnmatchedBag(base, current);
      RemainingBag(base, current);
      RemainingBag(current, base);
      KeyValuesMirror(table, column, added, missing');
      KeyValuesMirror(table, column, missing, added');
      MirrorsConcat(Map(added, AddedKey(table, column)), Map(missing, MissingKey(table, column)),
                    Map(missing', MissingKey(table, column)), Map(added', AddedKey(table, column)));
      MirrorsSwap(x, Map(missing', MissingKey(table, column)), Map(added', AddedKey(table, column)));
    }
  }

  /** Within one column the two groups come in either order. */
  lemma MirrorsSwap(x: seq<DiffObject>, a: seq<DiffObject>, b: seq<DiffObject>)
    requires Mirrors(x, a + b)
    ensures Mirrors(x, b + a)
  {
    MapConcat(a, b, Blur);
    MapConcat(b, a, Blur);
  }

  lemma KeysMirror(table: string, b: map<string, seq<string>>, t: map<string, seq<string>>)
    ensures Mirrors(KeyDiff(table, b, t), KeyDiff(table, t, b))
  {
    hide Names, Gather, Mirrors, KeyEntry;
    assert b.Keys + t.Keys == t.Keys + b.Keys;
    forall c ensures Mirrors(KeyEntry(table, c, ValuesOf(b, c), ValuesOf(t, c)),
                             KeyEntry(table, c, ValuesOf(t, c), ValuesOf(b, c))) {
      KeyEntryMirrors(table, c, ValuesOf(b, c), ValuesOf(t, c));
    }
    MirrorsGather(Names(b.Keys + t.Keys), KeyEntries(table, b, t), KeyEntries(table, t, b));
  }

  lemma KindMirrors(key: RelationKey, b: C.ObjectKind, t: C.ObjectKind)
    ensures Mirrors(KindEntry(key, b, t), KindEntry(key, t, b))
  {
    hide Mirrors;
    MirrorsNone();
    if b != t { MirrorsOne(KindEntry(key, b, t)[0], KindEntry(key, t, b)[0]); }
  }

  lemma RelationMirrors(key: RelationKey, b: Relations, t: Relations)
    ensures Mirrors(RelationEntry(key, b, t), RelationEntry(key, t, b))
  {
    hide Mirrors, KindEntry, NamedDiff, KeyDiff;
    MirrorsNone();
    if key in b && key in t {
      var table, x, y := TableName(key), b[key], t[key];
      KindMirrors(key, x.kind, y.kind);
      NamedMirrors(table, Column, x.columns, y.columns);
      MirrorsConcat(KindEntry(key, x.kind, y.kind), NamedDiff(table, Column, x.columns, y.columns),
                    KindEntry(key, y.kind, x.kind), NamedDiff(table, Column, y.columns, x.columns));
      NamedMirrors(table, Index, x.indexes, y.indexes);
      KeysMirror(table, x.foreignKeys, y.foreignKeys);
      MirrorsConcat(KindEntry(key, x.kind, y.kind) + NamedDiff(table, Column, x.columns, y.columns),
                    NamedDiff(table, Index, x.indexes, y.indexes),
                    KindEntry(key, y.kind, x.kind) + NamedDiff(table, Column, y.columns, x.columns),
                    NamedDiff(table, Index, y.indexes, x.indexes));
      MirrorsConcat(KindEntry(key, x.kind, y.kind) + NamedDiff(table, Column, x.columns, y.columns)
                      + NamedDiff(table, Index, x.indexes, y.indexes),
                    KeyDiff(table, x.foreignKeys, y.foreignKeys),
                    KindEntry(key, y.kind, x.kind) + NamedDiff(table, Column, y.columns, x.columns)
                      + NamedDiff(table, Index, y.indexes, x.indexes),
                    KeyDiff(table, y.foreignKeys, x.foreignKeys));
    } else if key in b || key in t {
      MirrorsOne(RelationEntry(key, b, t)[0], RelationEntry(key, t, b)[0]);
    }
  }

  /** As multisets the differences mirror, but for the relation type a change of kind is filed under. */
  lemma DifferencesMirror(b: Relations, t: Relations)
    ensures Mirrors(Differences(b, t), Differences(t, b))
  {
    hide RelationKeys, Gather, Mirrors, RelationEntry;
    assert b.Keys + t.Keys == t.Keys + b.Keys;
    forall k ensures Mirrors(RelationEntry(k, b, t), RelationEntry(k, t, b)) {
      RelationMirrors(k, b, t);
    }
    MirrorsGather(RelationKeys(b.Keys + t.Keys), RelationEntries(b, t), RelationEntries(t, b));
  }

  // ---- Counts ----

  lemma {:induction false} CountReflected(x: seq<DiffObject>, s: Status)
    ensures CountOf(Map(x, Reflect), Swap(s)) == CountOf(x, s)
    ensures CountOf(Map(x, Blur), s) == CountOf(x, s)
  {
    if x != [] {
      CountReflected(x[1..], s);
      assert Map(x, Reflect)[1..] == Map(x[1..], Reflect) && Map(x, Blur)[1..] == Map(x[1..], Blur);
    }
  }

  lemma {:induction false} CountDrop(x: seq<DiffObject>, i: nat, s: Status)
    requires i < |x|
    ensures CountOf(x, s) == CountOf(Drop(x, i), s) + (if x[i].status == s then 1 else 0)
  {
    if i == 0 {
      assert Drop(x, 0) == x[1..];
    } else {
      CountDrop(x[1..], i - 1, s);
      assert Drop(x, i)[0] == x[0] && Drop(x, i)[1..] == Drop(x[1..], i - 1);
    }
  }

  lemma {:induction false} CountBag(x: seq<DiffObject>, y: seq<DiffObject>, s: Status)
    requires multiset(x) == multiset(y)
    ensures CountOf(x, s) == CountOf(y, s)
    decreases |x|
  {
    if x == [] {
      assert |multiset(y)| == 0;
    } else {
      assert x[0] in multiset(x);
      var i := Occurs(x[0], y);
      DropSame(x, 0, y, i);
      CountBag(Drop(x, 0), Drop(y, i), s);
      CountDrop(x, 0, s);
      CountDrop(y, i, s);
    }
  }

  /** Added and missing exchange their counts; changed and the total stay. */
  lemma CountsMirror(b: Relations, t: Relations)
    ensures var there, back := Differences(b, t), Differences(t, b);
            && CountOf(there, Added) == CountOf(back, Missing) && CountOf(there, Missing) == CountOf(back, Added)
            && CountOf(there, Changed) == CountOf(back, Changed) && |there| == |back|
  {
    hide Differences;
    var there, back := Differences(b, t), Differences(t, b);
    DifferencesMirror(b, t);
    forall s: Status ensures CountOf(there, s) == CountOf(back, Swap(s)) {
      CountReflected(there, s);
      CountReflected(back, Swap(s));
      CountBag(Map(there, Reflect), Map(back, Blur), Swap(s));
    }
    assert Swap(Added) == Missing && Swap(Missing) == Added && Swap(Changed) == Changed;
    CountsSum(there);
    CountsSum(back);
  }
}
