/** Sort keys in Rust's tuple order, and the stable sort over them. */
module Ordering {
  import opened Wrappers

  /** One component of a comparison tuple. `None` comes before every `Some`. */
  datatype Atom = Absent | Rank(n: nat) | Text(s: string)

  type Key = seq<Atom>

  function OptionText(o: Option<string>): Atom
  {
    match o case None => Absent case Some(s) => Text(s)
  }

  function TextKey(s: string): Key { [Text(s)] }

  ghost predicate TotalOrder<T(!new)>(leq: (T, T) -> bool)
  {
    && (forall a :: leq(a, a))
    && (forall a, b :: leq(a, b) && leq(b, a) ==> a == b)
    && (forall a, b, c :: leq(a, b) && leq(b, c) ==> leq(a, c))
    && (forall a, b :: leq(a, b) || leq(b, a))
  }

  /** Lexicographic order on sequences: how Rust compares strings and tuples. */
  predicate LexLeq<T(==)>(a: seq<T>, b: seq<T>, leq: (T, T) -> bool)
  {
    a == [] || (b != [] && if a[0] == b[0] then LexLeq(a[1..], b[1..], leq) else leq(a[0], b[0]))
  }

  lemma {:induction false} LexReflexive<T(!new)>(a: seq<T>, leq: (T, T) -> bool)
    ensures LexLeq(a, a, leq)
  {
    if a != [] { LexReflexive(a[1..], leq); }
  }

  lemma {:induction false} LexAntisymmetric<T(!new)>(a: seq<T>, b: seq<T>, leq: (T, T) -> bool)
    requires TotalOrder(leq) && LexLeq(a, b, leq) && LexLeq(b, a, leq)
    ensures a == b
  {
    if a != [] {
      LexAntisymmetric(a[1..], b[1..], leq);
      assert a == [a[0]] + a[1..] && b == [b[0]] + b[1..];
    }
  }

  lemma {:induction false} LexTransitive<T(!new)>(a: seq<T>, b: seq<T>, c: seq<T>, leq: (T, T) -> bool)
    requires TotalOrder(leq) && LexLeq(a, b, leq) && LexLeq(b, c, leq)
    ensures LexLeq(a, c, leq)
  {
    if a != [] && a[0] == b[0] && b[0] == c[0] { LexTransitive(a[1..], b[1..], c[1..], leq); }
  }

  lemma {:induction false} LexTotal<T(!new)>(a: seq<T>, b: seq<T>, leq: (T, T) -> bool)
    requires TotalOrder(leq)
    ensures LexLeq(a, b, leq) || LexLeq(b, a, leq)
  {
    if a != [] && b != [] && a[0] == b[0] { LexTotal(a[1..], b[1..], leq); }
  }

  predicate CharLeq(a: char, b: char) { a <= b }

  predicate TextLeq(a: string, b: string) { LexLeq(a, b, CharLeq) }

  predicate AtomLeq(a: Atom, b: Atom)
  {
    match (a, b)
    case (Absent, _) => true
    case (Rank(m), Rank(n)) => m <= n
    case (Rank(_), Text(_)) => true
    case (Text(s), Text(t)) => TextLeq(s, t)
    case _ => false
  }

  predicate KeyLeq(a: Key, b: Key) { LexLeq(a, b, AtomLeq) }

  lemma TextOrder()
    ensures TotalOrder(TextLeq)
  {
    forall a ensures TextLeq(a, a) { LexReflexive(a, CharLeq); }
    forall a, b | TextLeq(a, b) && TextLeq(b, a) ensures a == b { LexAntisymmetric(a, b, CharLeq); }
    forall a, b, c | TextLeq(a, b) && TextLeq(b, c) ensures TextLeq(a, c) { LexTransitive(a, b, c, CharLeq); }
    forall a, b ensures TextLeq(a, b) || TextLeq(b, a) { LexTotal(a, b, CharLeq); }
  }

  lemma AtomOrder()
    ensures TotalOrder(AtomLeq)
  {
    TextOrder();
  }

  lemma KeyOrder()
    ensures TotalOrder(KeyLeq)
  {
    AtomOrder();
    forall a ensures KeyLeq(a, a) { LexReflexive(a, AtomLeq); }
    forall a, b | KeyLeq(a, b) && KeyLeq(b, a) ensures a == b { LexAntisymmetric(a, b, AtomLeq); }
    forall a, b, c | KeyLeq(a, b) && KeyLeq(b, c) ensures KeyLeq(a, c) { LexTransitive(a, b, c, AtomLeq); }
    forall a, b ensures KeyLeq(a, b) || KeyLeq(b, a) { LexTotal(a, b, AtomLeq); }
  }

  // ---- What the orders say ----

  /** Text order: a prefix comes first, otherwise the first different character decides. */
  predicate TextBefore(s: string, t: string)
  {
    s <= t || exists i | 0 <= i < |s| && i < |t| :: s[..i] == t[..i] && s[i] < t[i]
  }

  /** Absent comes first, then by text. */
  predicate OptionBefore(a: Option<string>, b: Option<string>)
  {
    a.None? || (b.Some? && TextBefore(a.value, b.value))
  }

  lemma {:induction false} TextLeqMeans(s: string, t: string)
    ensures TextLeq(s, t) <==> TextBefore(s, t)
  {
    if s != [] && t != [] {
      forall i | 0 < i < |s| && i < |t| && s[..i] == t[..i] ensures s[0] == t[0] { SameStart(s, t, i); }
      if s[0] == t[0] {
        TextLeqMeans(s[1..], t[1..]);
        TextBeforeTail(s, t);
      } else {
        assert s[0] < t[0] ==> s[..0] == t[..0];
        assert !(s <= t);
      }
    }
  }

  lemma SameStart(s: string, t: string, i: nat)
    requires 0 < i <= |s| && i <= |t| && s[..i] == t[..i]
    ensures s[0] == t[0]
  {
    assert s[..i][0] == s[0] && t[..i][0] == t[0];
  }

  lemma TextBeforeTail(s: string, t: string)
    requires s != [] && t != [] && s[0] == t[0]
    ensures TextBefore(s, t) <==> TextBefore(s[1..], t[1..])
  {
    var u, v := s[1..], t[1..];
    assert s == [s[0]] + u && t == [t[0]] + v;
    if i :| 0 <= i < |s| && i < |t| && s[..i] == t[..i] && s[i] < t[i] {
      assert u[..i - 1] == s[..i][1..] && v[..i - 1] == t[..i][1..];
      assert u[i - 1] == s[i] && v[i - 1] == t[i];
    }
    if i :| 0 <= i < |u| && i < |v| && u[..i] == v[..i] && u[i] < v[i] {
      assert s[..i + 1] == [s[0]] + u[..i] && t[..i + 1] == [t[0]] + v[..i];
      assert s[i + 1] == u[i] && t[i + 1] == v[i];
    }
  }

  lemma OptionLeqMeans(a: Option<string>, b: Option<string>)
    ensures AtomLeq(OptionText(a), OptionText(b)) <==> OptionBefore(a, b)
  {
    hide TextLeq, TextBefore;
    if a.Some? && b.Some? { TextLeqMeans(a.value, b.value); }
  }

  /** Of two composed keys the front parts decide, unless they are equal. */
  lemma {:induction false} FrontDecides(a: Key, b: Key, s: Key, t: Key)
    requires |a| == |b|
    ensures KeyLeq(a + s, b + t) <==> if a != b then KeyLeq(a, b) else KeyLeq(s, t)
  {
    if a == [] {
      assert a + s == s && b + t == t;
    } else {
      FrontDecides(a[1..], b[1..], s, t);
      assert (a + s)[1..] == a[1..] + s && (b + t)[1..] == b[1..] + t;
      assert a == [a[0]] + a[1..] && b == [b[0]] + b[1..];
    }
  }

  /** The first components decide, unless they are equal. */
  lemma KeyLeqMeans(a: Key, b: Key)
    requires a != [] && b != []
    ensures KeyLeq(a, b) <==> if a[0] == b[0] then KeyLeq(a[1..], b[1..]) else AtomLeq(a[0], b[0])
  {
  }

  // ---- Stable sorting ----

  function Insert<T>(x: T, s: seq<T>, key: T -> Key): seq<T>
  {
    if s == [] then [x]
    else if KeyLeq(key(x), key(s[0])) then [x] + s
    else [s[0]] + Insert(x, s[1..], key)
  }

  /** `slice::sort_by` with the order of `key`: items with equal keys keep their order. */
  function StableSort<T>(s: seq<T>, key: T -> Key): seq<T>
  {
    if s == [] then [] else Insert(s[0], StableSort(s[1..], key), key)
  }

  predicate Sorted<T>(s: seq<T>, key: T -> Key)
  {
    forall i, j | 0 <= i < j < |s| :: KeyLeq(key(s[i]), key(s[j]))
  }

  function Map<T, U>(s: seq<T>, f: T -> U): (r: seq<U>)
    ensures |r| == |s| && forall i | 0 <= i < |s| :: r[i] == f(s[i])
  {
    if s == [] then [] else [f(s[0])] + Map(s[1..], f)
  }

  lemma {:induction false} MapConcat<T, U>(a: seq<T>, b: seq<T>, f: T -> U)
    ensures Map(a + b, f) == Map(a, f) + Map(b, f)
  {
    var left, right := Map(a + b, f), Map(a, f) + Map(b, f);
    assert forall i | 0 <= i < |left| :: left[i] == f((a + b)[i]) == right[i];
  }

  lemma {:induction false} InsertBag<T>(x: T, s: seq<T>, key: T -> Key)
    ensures multiset(Insert(x, s, key)) == multiset(s) + multiset{x}
  {
    if s != [] && !KeyLeq(key(x), key(s[0])) {
      InsertBag(x, s[1..], key);
      assert s == [s[0]] + s[1..];
    }
  }

  lemma {:induction false} InsertSorts<T>(x: T, s: seq<T>, key: T -> Key)
    requires Sorted(s, key)
    ensures Sorted(Insert(x, s, key), key)
  {
    KeyOrder();
    if s != [] && !KeyLeq(key(x), key(s[0])) {
      var rest := Insert(x, s[1..], key);
      InsertSorts(x, s[1..], key);
      InsertBag(x, s[1..], key);
      forall j | 0 <= j < |rest| ensures KeyLeq(key(s[0]), key(rest[j])) {
        assert rest[j] in multiset(rest);
        assert rest[j] == x || rest[j] in s[1..];
      }
    }
  }

  lemma {:induction false} SortSorts<T>(s: seq<T>, key: T -> Key)
    ensures Sorted(StableSort(s, key), key)
    ensures multiset(StableSort(s, key)) == multiset(s)
  {
    if s != [] {
      SortSorts(s[1..], key);
      InsertSorts(s[0], StableSort(s[1..], key), key);
      InsertBag(s[0], StableSort(s[1..], key), key);
      assert s == [s[0]] + s[1..];
    }
  }

  /** Sorting what is already sorted changes nothing. */
  lemma {:induction false} SortIdentity<T>(s: seq<T>, key: T -> Key)
    requires Sorted(s, key)
    ensures StableSort(s, key) == s
  {
    if s != [] {
      SortIdentity(s[1..], key);
      if |s| > 1 { assert KeyLeq(key(s[0]), key(s[1])); }
      assert s == [s[0]] + s[1..];
    }
  }

  function Drop<T>(s: seq<T>, i: nat): seq<T>
    requires i < |s|
  {
    s[..i] + s[i + 1..]
  }

  lemma DropBag<T>(s: seq<T>, i: nat)
    requires i < |s|
    ensures multiset(s) == multiset(Drop(s, i)) + multiset{s[i]}
  {
    assert s == s[..i] + ([s[i]] + s[i + 1..]);
  }

  lemma DropMap<T, U>(s: seq<T>, i: nat, f: T -> U)
    requires i < |s|
    ensures Map(Drop(s, i), f) == Drop(Map(s, f), i)
  {
    var left, right := Map(Drop(s, i), f), Drop(Map(s, f), i);
    forall k | 0 <= k < |s| - 1 ensures left[k] == right[k] {
      assert Drop(s, i)[k] == s[if k < i then k else k + 1];
    }
    assert left == right;
  }

  lemma DropSame<T>(s: seq<T>, i: nat, t: seq<T>, j: nat)
    requires i < |s| && j < |t| && s[i] == t[j]
    ensures multiset(s) == multiset(t) <==> multiset(Drop(s, i)) == multiset(Drop(t, j))
  {
    DropBag(s, i);
    DropBag(t, j);
    var x := multiset{s[i]};
    assert multiset(Drop(s, i)) == multiset(s) - x && multiset(Drop(t, j)) == multiset(t) - x;
  }

  lemma Occurs<T>(x: T, s: seq<T>) returns (i: nat)
    requires x in multiset(s)
    ensures i < |s| && s[i] == x
  {
    assert x in s;
    i :| 0 <= i < |s| && s[i] == x;
  }

  /** Mapping over a rearrangement gives a rearrangement. */
  lemma {:induction false} MapBag<T, U>(s: seq<T>, t: seq<T>, f: T -> U)
    requires multiset(s) == multiset(t)
    ensures multiset(Map(s, f)) == multiset(Map(t, f))
    decreases |s|
  {
    if s == [] {
      assert |multiset(t)| == 0;
    } else {
      assert s[0] in multiset(s);
      var i := Occurs(s[0], t);
      DropSame(s, 0, t, i);
      MapBag(Drop(s, 0), Drop(t, i), f);
      DropMap(s, 0, f);
      DropMap(t, i, f);
      DropSame(Map(s, f), 0, Map(t, f), i);
    }
  }

  /** Distinct values have distinct images. */
  ghost predicate Injective<T(!new), U(!new)>(f: T -> U)
  {
    forall x, y :: f(x) == f(y) ==> x == y
  }

  function WithKey<T>(s: seq<T>, key: T -> Key, k: Key): seq<T>
  {
    if s == [] then [] else (if key(s[0]) == k then [s[0]] else []) + WithKey(s[1..], key, k)
  }

  lemma WithKeyHead<T>(x: T, s: seq<T>, key: T -> Key, k: Key)
    ensures WithKey([x] + s, key, k) == (if key(x) == k then [x] else []) + WithKey(s, key, k)
  {
    assert ([x] + s)[1..] == s;
  }

  lemma {:induction false} InsertIsStable<T>(x: T, s: seq<T>, key: T -> Key, k: Key)
    ensures WithKey(Insert(x, s, key), key, k) == (if key(x) == k then [x] else []) + WithKey(s, key, k)
  {
    WithKeyHead(x, s, key, k);
    if s == [] {
      assert [x] + s == [x];
    } else if !KeyLeq(key(x), key(s[0])) {
      KeyOrder();
      hide WithKey;
      InsertIsStable(x, s[1..], key, k);
      WithKeyHead(s[0], Insert(x, s[1..], key), key, k);
      WithKeyHead(s[0], s[1..], key, k);
      assert s == [s[0]] + s[1..];
    }
  }

  /** Items with one key come out of the sort in the order they went in. */
  lemma {:induction false} SortIsStable<T>(s: seq<T>, key: T -> Key, k: Key)
    ensures WithKey(StableSort(s, key), key, k) == WithKey(s, key, k)
  {
    if s != [] {
      SortIsStable(s[1..], key, k);
      InsertIsStable(s[0], StableSort(s[1..], key), key, k);
    }
  }

  predicate KeysSorted(a: seq<Key>)
  {
    forall i, j | 0 <= i < j < |a| :: KeyLeq(a[i], a[j])
  }

  lemma SameLeast(a: seq<Key>, b: seq<Key>)
    requires KeysSorted(a) && KeysSorted(b) && multiset(a) == multiset(b) && a != []
    ensures b != [] && a[0] == b[0]
  {
    assert a[0] in multiset(a);
    var j := Occurs(a[0], b);
    assert b[0] in multiset(b);
    var i := Occurs(b[0], a);
    if i > 0 && j > 0 {
      AtomOrder();
      LexAntisymmetric(a[0], b[0], AtomLeq);
    }
  }

  lemma {:induction false} SortedUnique(a: seq<Key>, b: seq<Key>)
    requires KeysSorted(a) && KeysSorted(b) && multiset(a) == multiset(b)
    ensures a == b
  {
    if a == [] {
      assert |multiset(b)| == 0;
    } else {
      SameLeast(a, b);
      TailSorted(a);
      TailSorted(b);
      DropSame(a, 0, b, 0);
      SortedUnique(a[1..], b[1..]);
      Rejoin(a, b);
    }
  }

  lemma TailSorted(a: seq<Key>)
    requires KeysSorted(a) && a != []
    ensures KeysSorted(a[1..]) && Drop(a, 0) == a[1..]
  {
  }

  lemma Rejoin<T>(a: seq<T>, b: seq<T>)
    requires a != [] && b != [] && a[0] == b[0] && a[1..] == b[1..]
    ensures a == b
  {
    assert a == [a[0]] + a[1..] && b == [b[0]] + b[1..];
  }

  /** Sorted key lists depend only on which keys there are. */
  lemma SortAgrees<T>(s: seq<T>, t: seq<T>, key: T -> Key)
    requires multiset(Map(s, key)) == multiset(Map(t, key))
    ensures Map(StableSort(s, key), key) == Map(StableSort(t, key), key)
  {
    SortSorts(s, key);
    SortSorts(t, key);
    MapBag(s, StableSort(s, key), key);
    MapBag(t, StableSort(t, key), key);
    SortedUnique(Map(StableSort(s, key), key), Map(StableSort(t, key), key));
  }

  /** With keys that tell items apart, any rearrangement sorts to the same list. */
  lemma SortIgnoresOrder<T(!new)>(s: seq<T>, t: seq<T>, key: T -> Key)
    requires multiset(s) == multiset(t)
    requires Injective(key)
    ensures StableSort(s, key) == StableSort(t, key)
  {
    MapBag(s, t, key);
    SortAgrees(s, t, key);
    var a, b := StableSort(s, key), StableSort(t, key);
    assert |a| == |Map(a, key)| == |b|;
    forall i | 0 <= i < |a| ensures a[i] == b[i] {
      assert key(a[i]) == Map(a, key)[i] == Map(b, key)[i] == key(b[i]);
    }
  }

  /** A list whose images are a rearrangement of `images` can itself be rearranged to match them. */
  lemma {:induction false} MatchUp<T, U>(s: seq<T>, images: seq<U>, f: T -> U) returns (mid: seq<T>)
    requires multiset(Map(s, f)) == multiset(images)
    ensures multiset(mid) == multiset(s) && Map(mid, f) == images
    decreases |images|
  {
    if images == [] {
      assert |multiset(Map(s, f))| == 0;
      mid := [];
    } else {
      var i := FindImage(s, images, f);
      var rest := MatchUp(Drop(s, i), images[1..], f);
      mid := [s[i]] + rest;
      MatchedHead(s, i, mid, rest);
      Rejoin(Map(mid, f), images);
    }
  }

  lemma FindImage<T, U>(s: seq<T>, images: seq<U>, f: T -> U) returns (i: nat)
    requires multiset(Map(s, f)) == multiset(images) && images != []
    ensures i < |s| && f(s[i]) == images[0]
    ensures multiset(Map(Drop(s, i), f)) == multiset(images[1..])
  {
    assert images[0] in multiset(images);
    i := Occurs(images[0], Map(s, f));
    DropSame(Map(s, f), i, images, 0);
    DropMap(s, i, f);
    assert Drop(images, 0) == images[1..];
  }

  lemma MatchedHead<T>(s: seq<T>, i: nat, mid: seq<T>, rest: seq<T>)
    requires i < |s| && mid == [s[i]] + rest && multiset(rest) == multiset(Drop(s, i))
    ensures mid[1..] == rest && multiset(mid) == multiset(s)
  {
    DropBag(s, i);
  }
}
