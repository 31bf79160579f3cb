/** First occurrences in a sequence: what `str::find` and `Iterator::position` return. */
module Search {
  import opened Wrappers

  predicate OccursAt<T(==)>(s: seq<T>, p: seq<T>, k: nat)
  {
    k + |p| <= |s| && forall j | 0 <= j < |p| :: s[k + j] == p[j]
  }

  /** The first place at or after `i` where `p` occurs. */
  function Find<T(==)>(s: seq<T>, i: nat, p: seq<T>): (r: Option<nat>)
    requires i <= |s|
    ensures r.Some? ==> i <= r.value && OccursAt(s, p, r.value)
    decreases |s| - i
  {
    if OccursAt(s, p, i) then Some(i)
    else if i == |s| then None
    else Find(s, i + 1, p)
  }

  /** The first place at or after `i` where `b` stands. */
  function IndexOf<T(==)>(s: seq<T>, i: nat, b: T): (r: Option<nat>)
    requires i <= |s|
    ensures r.Some? ==> i <= r.value < |s| && s[r.value] == b
    decreases |s| - i
  {
    if i == |s| then None
    else if s[i] == b then Some(i)
    else IndexOf(s, i + 1, b)
  }

  lemma {:induction false} IndexOfIsFirst<T>(s: seq<T>, i: nat, b: T)
    requires i <= |s|
    ensures match IndexOf(s, i, b)
            case None => forall j | i <= j < |s| :: s[j] != b
            case Some(k) => forall j | i <= j < k :: s[j] != b
    decreases |s| - i
  {
    if i < |s| && s[i] != b { IndexOfIsFirst(s, i + 1, b); }
  }

  /** Text added behind does not change an occurrence found in front. */
  lemma {:induction false} FindExtends<T>(s: seq<T>, i: nat, p: seq<T>, more: seq<T>)
    requires i <= |s| && Find(s, i, p).Some?
    ensures Find(s + more, i, p) == Find(s, i, p)
    decreases |s| - i
  {
    if !OccursAt(s, p, i) {
      FindExtends(s, i + 1, p, more);
      assert !OccursAt(s + more, p, i);
    }
  }

  lemma {:induction false} IndexOfExtends<T>(s: seq<T>, i: nat, b: T, more: seq<T>)
    requires i <= |s|
    ensures IndexOf(s, i, b).Some? ==> IndexOf(s + more, i, b) == IndexOf(s, i, b)
    ensures IndexOf(s, i, b).None? && IndexOf(s + more, i, b).Some? ==> IndexOf(s + more, i, b).value >= |s|
    ensures IndexOf(s, i, b).None? && more != [] && more[0] == b ==> IndexOf(s + more, i, b) == Some(|s|)
    decreases |s| - i
  {
    if i < |s| && s[i] != b { IndexOfExtends(s, i + 1, b, more); }
  }

  /** Searching behind a front is searching the rest, shifted. */
  lemma {:induction false} IndexOfShift<T>(front: seq<T>, more: seq<T>, j: nat, b: T)
    requires j <= |more|
    ensures IndexOf(front + more, |front| + j, b)
         == (match IndexOf(more, j, b) case None => None case Some(k) => Some(|front| + k))
    decreases |more| - j
  {
    if j < |more| && more[j] != b { IndexOfShift(front, more, j + 1, b); }
  }

  lemma {:induction false} IndexOfSkips<T>(front: seq<T>, i: nat, more: seq<T>, b: T)
    requires i <= |front| && IndexOf(front, i, b) == None
    ensures IndexOf(front + more, i, b)
         == (match IndexOf(more, 0, b) case None => None case Some(k) => Some(|front| + k))
    decreases |front| - i
  {
    if i == |front| {
      IndexOfShift(front, more, 0, b);
    } else {
      IndexOfSkips(front, i + 1, more, b);
    }
  }

  /** Cutting three joined runs inside the second one. */
  lemma CutJoined<T>(a: seq<T>, b: seq<T>, c: seq<T>, i: nat)
    requires i < |b|
    ensures (a + (b + c))[..|a| + i] == a + b[..i]
    ensures (a + (b + c))[|a| + i + 1..] == b[i + 1..] + c
    ensures (b + c)[i + 1..] == b[i + 1..] + c
  {
  }
}
