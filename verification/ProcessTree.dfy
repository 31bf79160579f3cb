/** The processes below a root, and the memory they hold together (packaged_benchmark_metrics.rs). */
module ProcessTree {
  import opened Wrappers

  /** A row of the process table: an id and the id of its parent. */
  datatype Process = Process(pid: int, parent: int)

  const U64_MAX: nat := 0xFFFF_FFFF_FFFF_FFFF

  // ---- Which processes descend from the root ----

  /** `path` leads from the root to its last id by rows of the table. */
  predicate Path(table: seq<Process>, root: int, path: seq<int>)
  {
    path != [] && path[0] == root
    && forall i | 0 <= i < |path| - 1 :: Process(path[i + 1], path[i]) in table
  }

  ghost predicate Reachable(table: seq<Process>, root: int, pid: int)
  {
    exists path :: Path(table, root, path) && path[|path| - 1] == pid
  }

  predicate Closed(table: seq<Process>, found: set<int>)
  {
    forall i | 0 <= i < |table| :: table[i].parent in found ==> table[i].pid in found
  }

  lemma RootReachable(table: seq<Process>, root: int)
    ensures Reachable(table, root, root)
  {
    assert Path(table, root, [root]) && [root][|[root]| - 1] == root;
  }

  lemma ChildReachable(table: seq<Process>, root: int, i: nat)
    requires i < |table| && Reachable(table, root, table[i].parent)
    ensures Reachable(table, root, table[i].pid)
  {
    var path :| Path(table, root, path) && path[|path| - 1] == table[i].parent;
    var longer := path + [table[i].pid];
    assert table[i] in table && table[i] == Process(table[i].pid, table[i].parent);
    assert forall k | 0 <= k < |path| :: longer[k] == path[k];
    assert Path(table, root, longer) && longer[|longer| - 1] == table[i].pid;
  }

  /** A closed set with the root holds everything reachable from it. */
  lemma {:induction false} PathStays(table: seq<Process>, root: int, found: set<int>, path: seq<int>)
    requires root in found && Closed(table, found) && Path(table, root, path)
    ensures path[|path| - 1] in found
    decreases |path|
  {
    if |path| > 1 {
      var shorter := path[..|path| - 1];
      PathStays(table, root, found, shorter);
      assert Process(path[|path| - 2 + 1], path[|path| - 2]) in table;
      var i :| 0 <= i < |table| && table[i] == Process(path[|path| - 1], path[|path| - 2]);
    }
  }

  lemma ClosedHoldsReachable(table: seq<Process>, root: int, found: set<int>, pid: int)
    requires root in found && Closed(table, found) && Reachable(table, root, pid)
    ensures pid in found
  {
    var path :| Path(table, root, path) && path[|path| - 1] == pid;
    PathStays(table, root, found, path);
  }

  function Ids(table: seq<Process>, root: int): set<int>
  {
    {root} + set p | p in table :: p.pid
  }

  /** One pass over the table. */
  method Pass(table: seq<Process>, root: int, before: set<int>) returns (found: set<int>)
    requires before <= Ids(table, root) && forall x | x in before :: Reachable(table, root, x)
    ensures before <= found <= Ids(table, root) && forall x | x in found :: Reachable(table, root, x)
    ensures found == before ==> Closed(table, found)
  {
    found := before;
    var i := 0;
    while i < |table|
      invariant i <= |table| && before <= found <= Ids(table, root)
      invariant forall x | x in found :: Reachable(table, root, x)
      invariant forall k | 0 <= k < i :: table[k].parent in before ==> table[k].pid in found
    {
      if table[i].parent in found {
        ChildReachable(table, root, i);
        assert table[i] in table;
        found := found + {table[i].pid};
      }
      i := i + 1;
    }
  }

  /** The fixpoint loop: it ends for every table, and with exactly the reachable ids. */
  method Descendants(table: seq<Process>, root: int) returns (found: set<int>)
    ensures forall pid :: pid in found <==> Reachable(table, root, pid)
  {
    found := {root};
    RootReachable(table, root);
    while true
      invariant root in found && found <= Ids(table, root)
      invariant forall x | x in found :: Reachable(table, root, x)
      decreases Ids(table, root) - found
    {
      var before := |found|;
      ghost var previous := found;
      found := Pass(table, root, found);
      if |found| == before {
        SameSize(previous, found);
        break;
      }
      ShrinksByGrowth(Ids(table, root), previous, found);
    }
    forall pid | Reachable(table, root, pid) ensures pid in found {
      ClosedHoldsReachable(table, root, found, pid);
    }
  }

  lemma ShrinksByGrowth<T>(all: set<T>, a: set<T>, b: set<T>)
    requires a <= b <= all && a != b
    ensures all - b < all - a
  {
    var x :| x in b && x !in a;
    assert x in all - a && x !in all - b;
  }

  lemma SameSize<T>(a: set<T>, b: set<T>)
    requires a <= b && |a| == |b|
    ensures a == b
  {
    assert b == a + (b - a);
    assert |b - a| == 0;
  }

  // ---- The saturating total ----

  function SaturatingAdd(a: nat, b: nat): nat { if a + b > U64_MAX then U64_MAX else a + b }

  /** The resident size of a process; None when it could not be read. */
  type Sizes<!T> = T -> Option<nat>

  /** What a process adds to the total: nothing when its size could not be read. */
  function Weight<T>(sizes: Sizes<T>): T -> nat
  {
    (pid: T) => match sizes(pid) case Some(n) => n case None => 0
  }

  /** The true sum over a set, which has no order. */
  ghost function Sum<T>(weight: T -> nat, s: set<T>): nat
    decreases |s|
  {
    if s == {} then 0
    else
      var x :| x in s;
      weight(x) + Sum(weight, s - {x})
  }

  /** Any element may be counted first. */
  lemma {:induction false} SumAny<T>(weight: T -> nat, s: set<T>, y: T)
    requires y in s
    ensures Sum(weight, s) == weight(y) + Sum(weight, s - {y})
    decreases |s|
  {
    var x :| x in s && Sum(weight, s) == weight(x) + Sum(weight, s - {x});
    if x != y {
      SumAny(weight, s - {x}, y);
      SumAny(weight, s - {y}, x);
      assert s - {x} - {y} == s - {y} - {x};
    }
  }

  lemma NothingAddsNothing<T>(weight: T -> nat)
    ensures Sum(weight, {}) == 0
  {
  }

  function Saturated(n: nat): nat { if n > 18446744073709551615 then 18446744073709551615 else n }

  /** The sum in whatever order the set is walked: the true sum, cut off at the largest 64-bit number. */
  method Total<T(==)>(sizes: Sizes<T>, pids: set<T>) returns (total: Option<nat>)
    ensures total == if Sum(Weight(sizes), pids) == 0 then None else Some(Saturated(Sum(Weight(sizes), pids)))
  {
    hide Sum;
    NothingAddsNothing(Weight(sizes));
    var sum: nat := 0;
    var left := pids;
    while left != {}
      invariant Saturated(sum + Sum(Weight(sizes), left)) == Saturated(Sum(Weight(sizes), pids))
      invariant sum <= U64_MAX
      decreases |left|
    {
      var pid :| pid in left;
      SumAny(Weight(sizes), left, pid);
      if sizes(pid).Some? {
        sum := SaturatingAdd(sum, sizes(pid).value);
      }
      left := left - {pid};
    }
    total := if sum > 0 then Some(sum) else None;
  }

  /** `packaged_process_tree_rss_bytes`: the memory of everything below the root, listed and added up. */
  method ProcessTreeBytes(table: seq<Process>, root: int, sizes: Sizes<int>) returns (total: Option<nat>)
    ensures exists pids: set<int> ::
              (forall pid :: pid in pids <==> Reachable(table, root, pid))
              && total == if Sum(Weight(sizes), pids) == 0 then None else Some(Saturated(Sum(Weight(sizes), pids)))
  {
    var descendants := Descendants(table, root);
    total := Total(sizes, descendants);
  }
}
