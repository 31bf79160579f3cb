/** Workspace sync pages: what a run of accepted pages does to the cursor (control_plane.rs). */
module SyncCursor {
  import opened Wrappers

  const MAX_SAFE_INTEGER: int := 9_007_199_254_740_991   // 2^53 - 1

  datatype Collections = Collections(connections: bool, analyses: bool)

  datatype Page = Page(
    workspaceId: nat, previousCursor: Option<int>, nextCursor: int, hasMore: bool, reset: bool,
    refresh: Collections, tombstones: Collections)

  /** `valid_workspace_sync_cursor`. */
  predicate ValidCursor(cursor: Option<int>)
  {
    cursor.Some? ==> 0 <= cursor.value <= MAX_SAFE_INTEGER
  }

  /** `WorkspaceSyncPageResponse::valid_for`. */
  predicate ValidFor(p: Page, workspaceId: nat, cursor: Option<int>)
  {
    && p.workspaceId == workspaceId
    && ValidCursor(cursor)
    && (p.previousCursor.None? || ValidCursor(p.previousCursor))
    && ValidCursor(Some(p.nextCursor))
    && p.previousCursor == cursor
    && (p.reset || !(cursor.Some? && p.nextCursor < cursor.value))
    && (!p.reset || (cursor.Some? && p.nextCursor != cursor.value && !p.hasMore))
    && (cursor.Some? || (!p.reset && !p.hasMore))
    && (!(cursor.None? || p.reset) || (p.refresh.connections && p.refresh.analyses))
    && (!p.hasMore || (cursor.Some? && p.nextCursor > cursor.value))
    && (!p.tombstones.connections || p.refresh.connections)
    && (!p.tombstones.analyses || p.refresh.analyses)
  }

  // ---- Runs: each request sends the cursor of the page before ----

  function CursorAt(start: Option<int>, pages: seq<Page>, i: nat): Option<int>
    requires i <= |pages|
  {
    if i == 0 then start else Some(pages[i - 1].nextCursor)
  }

  predicate AcceptedAt(workspaceId: nat, start: Option<int>, pages: seq<Page>, i: nat)
    requires i < |pages|
  {
    ValidFor(pages[i], workspaceId, CursorAt(start, pages, i))
  }

  ghost predicate Run(workspaceId: nat, start: Option<int>, pages: seq<Page>)
  {
    ValidCursor(start)
    && forall i | 0 <= i < |pages| :: AcceptedAt(workspaceId, start, pages, i)
  }

  function Height(cursor: Option<int>): int { if cursor.Some? then cursor.value else -1 }

  lemma CursorsStaySafe(workspaceId: nat, start: Option<int>, pages: seq<Page>, i: nat)
    requires Run(workspaceId, start, pages) && i <= |pages|
    ensures ValidCursor(CursorAt(start, pages, i)) && -1 <= Height(CursorAt(start, pages, i)) <= MAX_SAFE_INTEGER
  {
    if i > 0 { assert AcceptedAt(workspaceId, start, pages, i - 1); }
  }

  /** Pages that promise more raise the cursor by at least one each. */
  lemma {:induction false} ChainRises(workspaceId: nat, start: Option<int>, pages: seq<Page>, i: nat, j: nat)
    requires Run(workspaceId, start, pages) && i <= j <= |pages|
    requires forall k | i <= k < j :: pages[k].hasMore
    ensures Height(CursorAt(start, pages, j)) >= Height(CursorAt(start, pages, i)) + (j - i)
    decreases j - i
  {
    if i < j {
      ChainRises(workspaceId, start, pages, i, j - 1);
      assert AcceptedAt(workspaceId, start, pages, j - 1);
    }
  }

  /** So a chain of such pages is bounded by what is left below 2^53 - 1, and starts from a cursor. */
  lemma ChainEnds(workspaceId: nat, start: Option<int>, pages: seq<Page>, i: nat, j: nat)
    requires Run(workspaceId, start, pages) && i < j <= |pages|
    requires forall k | i <= k < j :: pages[k].hasMore
    ensures CursorAt(start, pages, i).Some?
    ensures j - i <= MAX_SAFE_INTEGER - CursorAt(start, pages, i).value
  {
    assert AcceptedAt(workspaceId, start, pages, i);
    ChainRises(workspaceId, start, pages, i, j);
    CursorsStaySafe(workspaceId, start, pages, j);
  }

  /** Between two requests without a reset the cursor never falls. */
  lemma {:induction false} NeverFallsWithoutReset(workspaceId: nat, start: Option<int>, pages: seq<Page>, i: nat, j: nat)
    requires Run(workspaceId, start, pages) && i <= j <= |pages|
    requires forall k | i <= k < j :: !pages[k].reset
    ensures Height(CursorAt(start, pages, i)) <= Height(CursorAt(start, pages, j))
    decreases j - i
  {
    if i < j {
      NeverFallsWithoutReset(workspaceId, start, pages, i, j - 1);
      assert AcceptedAt(workspaceId, start, pages, j - 1);
    }
  }

  /**
   * Whenever the cursor is lower later than earlier, a reset page lies in between: it refreshed both collections,
   * moved the cursor, and promised no continuation.
   */
  lemma FallMeansReset(workspaceId: nat, start: Option<int>, pages: seq<Page>, i: nat, j: nat)
    requires Run(workspaceId, start, pages) && i <= j <= |pages|
    requires Height(CursorAt(start, pages, j)) < Height(CursorAt(start, pages, i))
    ensures exists k: nat | i <= k < j ::
              pages[k].reset && pages[k].refresh == Collections(true, true) && !pages[k].hasMore
              && CursorAt(start, pages, k + 1) != CursorAt(start, pages, k)
  {
    if forall k | i <= k < j :: !pages[k].reset {
      NeverFallsWithoutReset(workspaceId, start, pages, i, j);
    }
    var k: nat :| i <= k < j && pages[k].reset;
    assert AcceptedAt(workspaceId, start, pages, k);
    assert CursorAt(start, pages, k + 1) == Some(pages[k].nextCursor);
    assert pages[k].refresh == Collections(true, true);
  }

  lemma StandingStillIsQuiet(workspaceId: nat, start: Option<int>, pages: seq<Page>, i: nat)
    requires Run(workspaceId, start, pages) && i < |pages|
    requires CursorAt(start, pages, i + 1) == CursorAt(start, pages, i)
    ensures !pages[i].reset && !pages[i].hasMore
  {
    assert AcceptedAt(workspaceId, start, pages, i);
  }

  /**
   * A stretch without a reset that ends at the cursor it began with stood still all along: no page of it moved the
   * cursor or promised more.
   */
  lemma {:induction false} QuietStretch(workspaceId: nat, start: Option<int>, pages: seq<Page>, i: nat, j: nat, k: nat)
    requires Run(workspaceId, start, pages) && i <= k < j <= |pages|
    requires forall n | i <= n < j :: !pages[n].reset
    requires CursorAt(start, pages, i) == CursorAt(start, pages, j)
    ensures CursorAt(start, pages, k) == CursorAt(start, pages, k + 1) == CursorAt(start, pages, i)
    ensures !pages[k].hasMore
  {
    NeverFallsWithoutReset(workspaceId, start, pages, i, k);
    NeverFallsWithoutReset(workspaceId, start, pages, k, k + 1);
    NeverFallsWithoutReset(workspaceId, start, pages, k + 1, j);
    CursorsStaySafe(workspaceId, start, pages, i);
    CursorsStaySafe(workspaceId, start, pages, k);
    StandingStillIsQuiet(workspaceId, start, pages, k);
  }

  lemma FreshStartRefreshesAll(workspaceId: nat, pages: seq<Page>)
    requires Run(workspaceId, None, pages) && pages != []
    ensures pages[0].refresh == Collections(true, true) && !pages[0].reset && !pages[0].hasMore
  {
    assert AcceptedAt(workspaceId, None, pages, 0);
  }

  lemma DeletionsRefresh(workspaceId: nat, start: Option<int>, pages: seq<Page>, i: nat)
    requires Run(workspaceId, start, pages) && i < |pages|
    ensures pages[i].tombstones.connections ==> pages[i].refresh.connections
    ensures pages[i].tombstones.analyses ==> pages[i].refresh.analyses
  {
    assert AcceptedAt(workspaceId, start, pages, i);
  }

  // ---- What a client still has to fetch again ----

  const NONE := Collections(false, false)
  const BOTH := Collections(true, true)

  function Either(a: Collections, b: Collections): Collections
  {
    Collections(a.connections || b.connections, a.analyses || b.analyses)
  }

  function Without(a: Collections, b: Collections): Collections
  {
    Collections(a.connections && !b.connections, a.analyses && !b.analyses)
  }

  /**
   * The collections whose local copy may hold entries that are gone: all of them for a client without a cursor and
   * after a reset, and those with deletions, until a page has them refreshed.
   */
  function Owed(start: Option<int>, pages: seq<Page>, i: nat): Collections
    requires i <= |pages|
  {
    if i == 0 then if start.None? then BOTH else NONE
    else
      var p := pages[i - 1];
      Without(Either(Owed(start, pages, i - 1), if p.reset then BOTH else p.tombstones), p.refresh)
  }

  /** However the run goes, only a client that has not had a page yet is left with such a copy. */
  lemma {:induction false} NothingStaysOwed(workspaceId: nat, start: Option<int>, pages: seq<Page>, i: nat)
    requires Run(workspaceId, start, pages) && i <= |pages|
    ensures Owed(start, pages, i) == if i == 0 && start.None? then BOTH else NONE
  {
    if i > 0 {
      NothingStaysOwed(workspaceId, start, pages, i - 1);
      DeletionsRefresh(workspaceId, start, pages, i - 1);
      if start.None? { FreshStartRefreshesAll(workspaceId, pages); }
      assert AcceptedAt(workspaceId, start, pages, i - 1);
    }
  }
}
