/** Ordered maps and sets: keys in ascending order, later insertions replacing earlier ones. */
module BTree {
  import opened Ordering

  predicate IsLeast<K>(x: K, s: set<K>, ord: K -> Key)
  {
    x in s && forall y | y in s :: KeyLeq(ord(x), ord(y))
  }

  lemma {:induction false} LeastExists<K>(s: set<K>, ord: K -> Key)
    requires s != {}
    ensures exists x :: IsLeast(x, s, ord)
    decreases |s|
  {
    KeyOrder();
    var a :| a in s;
    if s == {a} {
      assert IsLeast(a, s, ord);
    } else {
      LeastExists(s - {a}, ord);
      var b :| IsLeast(b, s - {a}, ord);
      var x := if KeyLeq(ord(a), ord(b)) then a else b;
      assert IsLeast(x, s, ord);
    }
  }

  lemma LeastUnique<K(!new)>(s: set<K>, ord: K -> Key)
    requires Injective(ord)
    ensures forall x, y | IsLeast(x, s, ord) && IsLeast(y, s, ord) :: x == y
  {
    KeyOrder();
  }

  /** The keys in iteration order. */
  function Ascending<K(!new)>(s: set<K>, ord: K -> Key): seq<K>
    requires Injective(ord)
    decreases |s|
  {
    if s == {} then [] else
      LeastExists(s, ord);
      LeastUnique(s, ord);
      var x :| x in s && IsLeast(x, s, ord);
      [x] + Ascending(s - {x}, ord)
  }

  /** Iteration visits every key once, in strictly ascending order. */
  lemma {:induction false} AscendingVisits<K(!new)>(s: set<K>, ord: K -> Key)
    requires Injective(ord)
    ensures forall x :: x in Ascending(s, ord) <==> x in s
    ensures Sorted(Ascending(s, ord), ord)
    ensures forall i, j | 0 <= i < j < |Ascending(s, ord)| :: Ascending(s, ord)[i] != Ascending(s, ord)[j]
    decreases |s|
  {
    if s != {} {
      var keys := Ascending(s, ord);
      var x := keys[0];
      assert IsLeast(x, s, ord) && keys[1..] == Ascending(s - {x}, ord);
      AscendingVisits(s - {x}, ord);
      var rest := keys[1..];
      assert keys == [x] + rest;
      forall i, j | 0 <= i < j < |keys| ensures keys[i] != keys[j] && KeyLeq(ord(keys[i]), ord(keys[j])) {
        assert keys[j] == rest[j - 1] && rest[j - 1] in rest;
        if i > 0 { assert keys[i] == rest[i - 1]; }
      }
    }
  }

  /** Everything `f` yields, key by key. */
  function Gather<K, T>(keys: seq<K>, f: K -> seq<T>): seq<T>
  {
    if keys == [] then [] else f(keys[0]) + Gather(keys[1..], f)
  }

  lemma {:induction false} GatherAppends<K, T>(keys: seq<K>, k: K, f: K -> seq<T>)
    ensures Gather(keys + [k], f) == Gather(keys, f) + f(k)
  {
    if keys == [] {
      assert [] + [k] == [k] && [k][1..] == [];
      assert f(k) + [] == f(k) && [] + f(k) == f(k);
    } else {
      assert (keys + [k])[1..] == keys[1..] + [k];
      GatherAppends(keys[1..], k, f);
      assert f(keys[0]) + (Gather(keys[1..], f) + f(k)) == (f(keys[0]) + Gather(keys[1..], f)) + f(k);
    }
  }

  lemma {:induction false} GatherEmpty<K, T>(keys: seq<K>, f: K -> seq<T>)
    ensures Gather(keys, f) == [] <==> forall k | k in keys :: f(k) == []
  {
    if keys != [] {
      GatherEmpty(keys[1..], f);
      assert keys == [keys[0]] + keys[1..];
    }
  }

  /** `collect` into a map: the last item with a key wins. */
  function Collect<T, K, V>(items: seq<T>, key: T -> K, value: T -> V): map<K, V>
  {
    if items == [] then map[]
    else map[key(items[0]) := value(items[0])] + Collect(items[1..], key, value)
  }

  lemma {:induction false} CollectKeys<T, K, V>(items: seq<T>, key: T -> K, value: T -> V, k: K)
    ensures k in Collect(items, key, value) <==> exists i | 0 <= i < |items| :: key(items[i]) == k
  {
    if items != [] {
      CollectKeys(items[1..], key, value, k);
      if k in Collect(items[1..], key, value) {
        var i :| 0 <= i < |items[1..]| && key(items[1..][i]) == k;
        assert items[i + 1] == items[1..][i];
      } else if exists i | 0 <= i < |items| :: key(items[i]) == k {
        var i :| 0 <= i < |items| && key(items[i]) == k;
        assert i > 0 ==> items[1..][i - 1] == items[i];
      }
    }
  }

  /** The value kept for a key is that of its last item. */
  lemma {:induction false} CollectLast<T, K, V>(items: seq<T>, key: T -> K, value: T -> V, i: nat)
    requires i < |items| && forall j | i < j < |items| :: key(items[j]) != key(items[i])
    ensures key(items[i]) in Collect(items, key, value)
    ensures Collect(items, key, value)[key(items[i])] == value(items[i])
  {
    if i == 0 {
      CollectKeys(items[1..], key, value, key(items[0]));
      assert forall j | 0 <= j < |items[1..]| :: items[1..][j] == items[j + 1];
    } else {
      assert items[1..][i - 1] == items[i];
      assert forall j | 0 <= j < |items[1..]| :: items[1..][j] == items[j + 1];
      CollectLast(items[1..], key, value, i - 1);
    }
  }

  /** Only the keys and values matter. */
  lemma {:induction false} CollectSame<T, K, V>(a: seq<T>, b: seq<T>, key: T -> K, value: T -> V)
    requires |a| == |b|
    requires forall i | 0 <= i < |a| :: key(a[i]) == key(b[i]) && value(a[i]) == value(b[i])
    ensures Collect(a, key, value) == Collect(b, key, value)
  {
    if a != [] {
      CollectSame(a[1..], b[1..], key, value);
    }
  }

  /** Looking a value up and then deriving something from it is collecting the derived value. */
  lemma {:induction false} CollectThen<T, K, V, W>(items: seq<T>, key: T -> K, g: T -> V, h: V -> W, hg: T -> W)
    requires forall x | x in items :: hg(x) == h(g(x))
    ensures Collect(items, key, hg).Keys == Collect(items, key, g).Keys
    ensures forall k | k in Collect(items, key, g) :: Collect(items, key, hg)[k] == h(Collect(items, key, g)[k])
  {
    if items != [] {
      CollectThen(items[1..], key, g, h, hg);
    }
  }
}
