/** The desktop's side of workspace sync: the bounded pull loop and its stored cursor (navigation.rs, sync.rs). */
module SyncClient {
  import opened SyncCursor
  import opened SyncServer
  import opened Wrappers

  const MAX_PAGES: nat := 64

  datatype Answer = Unreachable | NotFound | Body(page: Page)

  /**
   * Everything outside the client, by the tick of a clock that each call to it advances: what the page route answers,
   * the log behind the connection collection, and whether fetching that collection and storing the cursor succeed.
   */
  datatype Env = Env(
    workspaceId: nat, plane: (nat, Option<int>) -> Answer, world: nat -> Log, fetched: nat -> bool, stored: nat -> bool)

  /** The stored cursor, and the log that the local copy of the connections was fetched from. */
  datatype Local = Local(cursor: Option<int>, copy: Log)

  datatype Outcome = Done | NoCursorApi | Failed | Window

  datatype Progress = Progress(local: Local, clock: nat, committed: seq<Page>, outcome: Outcome)

  /** The checks `commit_workspace_pull_cursor` repeats before it stores the cursor. */
  predicate CommitRefuses(expected: Option<int>, p: Page)
  {
    || p.nextCursor < 0
    || (!p.reset && expected.Some? && p.nextCursor < expected.value)
    || (p.reset && !(expected.Some? && p.nextCursor != expected.value))
    || (p.hasMore && !(expected.Some? && p.nextCursor > expected.value))
    || ((expected.None? || p.reset) && (!p.refresh.connections || !p.refresh.analyses))
    || (p.tombstones.connections && !p.refresh.connections)
    || (p.tombstones.analyses && !p.refresh.analyses)
  }

  /**
   * One pass of the loop: ask for a page, validate it, refresh what it selects, and only then store its cursor. The
   * outcome is Window when the page promises more. A page that refreshes nothing lets the second tick pass.
   */
  function Step(env: Env, local: Local, clock: nat): (p: Progress)
    ensures p.clock >= clock
  {
    if !ValidCursor(local.cursor) then Progress(local, clock, [], Failed)
    else
      match env.plane(clock, local.cursor)
      case Unreachable => Progress(local, clock + 1, [], Failed)
      case NotFound =>
        if env.fetched(clock + 1) then Progress(local.(copy := env.world(clock + 1)), clock + 2, [], NoCursorApi)
        else Progress(local, clock + 2, [], Failed)
      case Body(page) =>
        if !ValidFor(page, env.workspaceId, local.cursor) then Progress(local, clock + 1, [], Failed)
        else if page.refresh.connections && !env.fetched(clock + 1) then Progress(local, clock + 2, [], Failed)
        else
          var refreshed := if page.refresh.connections then local.(copy := env.world(clock + 1)) else local;
          if CommitRefuses(local.cursor, page) || !env.stored(clock + 2) then
            Progress(refreshed, clock + 3, [], Failed)
          else
            Progress(refreshed.(cursor := Some(page.nextCursor)), clock + 3, [page], if page.hasMore then Window else Done)
  }

  /** At most `pages` steps, as long as each promises more. */
  function Replay(env: Env, local: Local, clock: nat, pages: nat): (p: Progress)
    ensures p.clock >= clock
    decreases pages
  {
    if pages == 0 then Progress(local, clock, [], Window)
    else
      var step := Step(env, local, clock);
      if step.outcome != Window then step
      else
        Behind(step.committed, Replay(env, step.local, step.clock, pages - 1))
  }

  /** The client's stored state; one sync runs at a time. */
  class Workspace {
    var cursor: Option<int>
    var copy: Log
    var clock: nat

    constructor ()
      ensures cursor == None && copy == [] && clock == 0
    {
      cursor, copy, clock := None, [], 0;
    }

    function Model(): Local
      reads this
    {
      Local(cursor, copy)
    }

    /** `sync_connections`. */
    method SyncConnections(env: Env) returns (ok: bool)
      modifies this`copy, this`clock
      ensures ok == env.fetched(old(clock)) && clock == old(clock) + 1
      ensures copy == if ok then env.world(old(clock)) else old(copy)
    {
      ok := env.fetched(clock);
      if ok {
        copy := env.world(clock);
      }
      clock := clock + 1;
    }

    /**
     * `commit_workspace_pull_cursor`: the checks, then a write that changes a row only where the stored cursor is the
     * expected one; any other cursor was stored by someone else meanwhile, and stays.
     */
    method Commit(env: Env, expected: Option<int>, page: Page) returns (ok: bool)
      modifies this`cursor, this`clock
      ensures ok <==> old(cursor) == expected && !CommitRefuses(expected, page) && env.stored(old(clock))
      ensures cursor == (if ok then Some(page.nextCursor) else old(cursor)) && clock == old(clock) + 1
    {
      ok := !CommitRefuses(expected, page) && env.stored(clock) && cursor == expected;
      if ok {
        cursor := Some(page.nextCursor);
      }
      clock := clock + 1;
    }

    /** The body of the loop. */
    method PullPage(env: Env) returns (outcome: Outcome, ghost committed: seq<Page>)
      modifies this
      ensures Progress(Model(), clock, committed, outcome) == Step(env, old(Model()), old(clock))
    {
      committed := [];
      if !ValidCursor(cursor) {
        return Failed, [];
      }
      var answer := env.plane(clock, cursor);
      clock := clock + 1;
      match answer {
        case Unreachable =>
          outcome := Failed;
        case NotFound =>
          var ok := SyncConnections(env);
          outcome := if ok then NoCursorApi else Failed;
        case Body(page) =>
          if !ValidFor(page, env.workspaceId, cursor) {
            return Failed, [];
          }
          if page.refresh.connections {
            var ok := SyncConnections(env);
            if !ok {
              return Failed, [];
            }
          } else {
            clock := clock + 1;
          }
          var ok := Commit(env, cursor, page);
          if !ok {
            return Failed, [];
          }
          outcome, committed := if page.hasMore then Window else Done, [page];
      }
    }

    /** `sync_workspace_resources`. */
    method SyncResources(env: Env) returns (outcome: Outcome, ghost committed: seq<Page>)
      modifies this
      ensures Progress(Model(), clock, committed, outcome) == Replay(env, old(Model()), old(clock), MAX_PAGES)
    {
      hide Step;
      ghost var all := Replay(env, Model(), clock, MAX_PAGES);
      committed := [];
      assert Behind(committed, all) == all;
      var i := 0;
      while i < MAX_PAGES
        invariant i <= MAX_PAGES && all == Behind(committed, Replay(env, Model(), clock, MAX_PAGES - i))
      {
        ghost var rest := Replay(env, Model(), clock, MAX_PAGES - i);
        ghost var pages: seq<Page>;
        outcome, pages := PullPage(env);
        if outcome != Window {
          return outcome, committed + pages;
        }
        BehindTwice(committed, pages, Replay(env, Model(), clock, MAX_PAGES - i - 1));
        committed := committed + pages;
        i := i + 1;
      }
      assert committed + [] == committed;
      return Window, committed;
    }
  }

  function Behind(front: seq<Page>, p: Progress): Progress { p.(committed := front + p.committed) }

  lemma BehindTwice(a: seq<Page>, b: seq<Page>, p: Progress)
    ensures Behind(a, Behind(b, p)) == Behind(a + b, p)
  {
    assert a + (b + p.committed) == a + b + p.committed;
  }
}
