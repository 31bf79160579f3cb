/** Workspace sync end to end: the client's copy of the connections keeps up with its stored cursor. */
module SyncLaws {
  import opened SyncClient
  import opened SyncCursor
  import opened SyncServer
  import opened Wrappers

  /**
   * The checks made again before the cursor is stored refuse exactly the pages that were not valid for the request, but
   * for one kind: a reset page that promises more is let through here if it moves the cursor up.
   */
  lemma CommitChecksAgain(p: Page, expected: Option<int>)
    requires ValidCursor(expected) && p.previousCursor == expected && p.nextCursor <= 9007199254740991
    ensures var moves := expected.Some? && p.reset && p.hasMore && p.nextCursor > expected.value;
            CommitRefuses(expected, p) <==>
              !ValidFor(if moves then p.(hasMore := false) else p, p.workspaceId, expected)
  {
  }

  // ---- Whatever the server answers, what is committed is a run of accepted pages ----

  lemma {:induction false} CommittedIsRun(env: Env, local: Local, clock: nat, pages: nat)
    requires ValidCursor(local.cursor)
    ensures var p := Replay(env, local, clock, pages);
            && Run(env.workspaceId, local.cursor, p.committed) && |p.committed| <= pages
            && p.local.cursor == CursorAt(local.cursor, p.committed, |p.committed|)
    decreases pages
  {
    if pages > 0 {
      var step := Step(env, local, clock);
      StepIsRun(env, local, clock);
      if step.outcome == Window {
        CommittedIsRun(env, step.local, step.clock, pages - 1);
        hide Step, ValidFor;
        RunsJoin(env.workspaceId, local.cursor, step.committed,
                 Replay(env, step.local, step.clock, pages - 1).committed);
      }
    }
  }

  lemma StepIsRun(env: Env, local: Local, clock: nat)
    requires ValidCursor(local.cursor)
    ensures var p := Step(env, local, clock);
            && Run(env.workspaceId, local.cursor, p.committed) && ValidCursor(p.local.cursor)
            && p.local.cursor == CursorAt(local.cursor, p.committed, |p.committed|)
            && |p.committed| == if p.outcome == Window || p.outcome == Done then 1 else 0
  {
    var p := Step(env, local, clock);
    if p.committed != [] {
      assert AcceptedAt(env.workspaceId, local.cursor, p.committed, 0);
    }
  }

  lemma RunsJoin(workspaceId: nat, start: Option<int>, a: seq<Page>, b: seq<Page>)
    requires Run(workspaceId, start, a) && Run(workspaceId, CursorAt(start, a, |a|), b)
    ensures Run(workspaceId, start, a + b)
    ensures CursorAt(start, a + b, |a + b|) == CursorAt(CursorAt(start, a, |a|), b, |b|)
  {
    hide ValidFor;
    forall i | 0 <= i < |a + b| ensures AcceptedAt(workspaceId, start, a + b, i) {
      if i < |a| {
        assert AcceptedAt(workspaceId, start, a, i);
      } else {
        assert AcceptedAt(workspaceId, CursorAt(start, a, |a|), b, i - |a|);
      }
    }
  }

  // ---- The life of a client: syncs with pauses between them, however each of them ends ----

  function Life(env: Env, pauses: seq<nat>): Progress
  {
    if pauses == [] then Progress(Local(None, []), 0, [], Done)
    else After(env, Life(env, pauses[..|pauses| - 1]), pauses[|pauses| - 1])
  }

  /** One more sync after a pause. */
  function After(env: Env, before: Progress, pause: nat): Progress
  {
    Behind(before.committed, Replay(env, before.local, before.clock + pause, MAX_PAGES))
  }

  ghost predicate IsRun(env: Env, p: Progress)
  {
    && Run(env.workspaceId, None, p.committed)
    && p.local.cursor == CursorAt(None, p.committed, |p.committed|)
  }

  lemma ContinuedIsRun(env: Env, earlier: seq<Page>, local: Local, clock: nat, pages: nat)
    requires Run(env.workspaceId, None, earlier) && local.cursor == CursorAt(None, earlier, |earlier|)
    ensures var p := Replay(env, local, clock, pages);
            && Run(env.workspaceId, None, earlier + p.committed)
            && p.local.cursor == CursorAt(None, earlier + p.committed, |earlier + p.committed|)
  {
    hide ValidFor, Replay, Run, CursorAt, ValidCursor;
    CursorsStaySafe(env.workspaceId, None, earlier, |earlier|);
    CommittedIsRun(env, local, clock, pages);
    RunsJoin(env.workspaceId, None, earlier, Replay(env, local, clock, pages).committed);
  }

  lemma AfterIsRun(env: Env, before: Progress, pause: nat)
    requires IsRun(env, before)
    ensures IsRun(env, After(env, before, pause))
  {
    hide ValidFor, Replay, Run, CursorAt;
    ContinuedIsRun(env, before.committed, before.local, before.clock + pause, MAX_PAGES);
  }

  /** Over a client's whole life the committed pages are one run from no cursor, whatever the server answers. */
  lemma {:induction false} LifeIsRun(env: Env, pauses: seq<nat>)
    ensures IsRun(env, Life(env, pauses))
  {
    if pauses != [] {
      hide After, IsRun;
      LifeIsRun(env, pauses[..|pauses| - 1]);
      AfterIsRun(env, Life(env, pauses[..|pauses| - 1]), pauses[|pauses| - 1]);
    }
  }

  // ---- With the real server and a log that only grows ----

  /** Whenever the page route answers with a page, it is the one it makes from the log of that moment. */
  ghost predicate Honest(env: Env)
  {
    forall t: nat, c | ValidCursor(c) && env.plane(t, c).Body? :: HonestAt(env, t, c)
  }

  predicate HonestAt(env: Env, t: nat, c: Option<int>)
    requires ValidCursor(c)
  {
    env.plane(t, c) == Body(PageFor(env.workspaceId, env.world(t), c))
  }

  ghost predicate Grows(env: Env)
  {
    forall s: nat, t: nat | s <= t :: env.world(s) <= env.world(t)
  }

  /** The event at one place of the log matters for connections only if the copy was made with it. */
  predicate Covers(copy: Log, log: Log, k: nat)
    requires k < |log|
  {
    TouchesConnections(log[k]) ==> k < |copy| && copy[k] == log[k]
  }

  /** The copy was made with every one of the first `n` events that matters for connections. */
  ghost predicate Reflects(copy: Log, log: Log, n: nat)
  {
    n <= |log| && forall k | 0 <= k < n :: Covers(copy, log, k)
  }

  /** The copy is no older than the stored cursor says. */
  ghost predicate Fresh(local: Local, log: Log)
  {
    local.cursor.Some? ==> 0 <= local.cursor.value && Reflects(local.copy, log, local.cursor.value)
  }

  lemma FreshLater(local: Local, log: Log, later: Log)
    requires Fresh(local, log) && log <= later
    ensures Fresh(local, later)
  {
    if local.cursor.Some? {
      forall k | 0 <= k < local.cursor.value ensures Covers(local.copy, later, k) {
        assert Covers(local.copy, log, k) && later[k] == log[k];
      }
    }
  }

  lemma NewCopyReflects(log: Log, later: Log, n: nat)
    requires log <= later && n <= |log|
    ensures Reflects(later, log, n)
  {
  }

  /** A page that does not refresh the connections has no event that matters for them. */
  lemma QuietPageKeeps(copy: Log, log: Log, cursor: nat)
    requires Reflects(copy, log, cursor) && !Touched(EventsAfter(log, cursor))
    ensures Reflects(copy, log, cursor + |EventsAfter(log, cursor)|)
  {
    var events := EventsAfter(log, cursor);
    forall k | 0 <= k < cursor + |events| ensures Covers(copy, log, k) {
      if k >= cursor {
        assert log[k] == events[k - cursor] && events[k - cursor] in events;
      }
    }
  }

  lemma PageCursor(workspaceId: nat, log: Log, cursor: Option<int>)
    requires ValidCursor(cursor)
    ensures 0 <= PageFor(workspaceId, log, cursor).nextCursor <= |log|
    ensures PageFor(workspaceId, log, cursor).hasMore || PageFor(workspaceId, log, cursor).nextCursor == |log|
  {
  }

  /** What one honest page does to the client: the copy keeps up with the cursor. */
  lemma StepStaysFresh(env: Env, local: Local, clock: nat)
    requires Honest(env) && Grows(env) && Fresh(local, env.world(clock)) && ValidCursor(local.cursor)
    ensures var p := Step(env, local, clock);
            && Fresh(p.local, env.world(p.clock)) && ValidCursor(p.local.cursor)
            && (p.outcome == Done ==> p.local.cursor == Some(|env.world(clock)|))
  {
    var p, log := Step(env, local, clock), env.world(clock);
    assert log <= env.world(clock + 1) && env.world(clock) <= env.world(p.clock);
    FreshLater(local, log, env.world(p.clock));
    if p.local.cursor.Some? && p.committed == [] && p.local != local {
      forall k | 0 <= k < p.local.cursor.value ensures Covers(p.local.copy, log, k) {
        assert Covers(env.world(clock + 1), log, k);
      }
      FreshLater(p.local, log, env.world(p.clock));
    } else if p.committed != [] {
      assert HonestAt(env, clock, local.cursor);
      CommittedStaysFresh(env, local, clock);
      FreshLater(p.local, log, env.world(p.clock));
      PageCursor(env.workspaceId, log, local.cursor);
    }
  }

  lemma CommittedStaysFresh(env: Env, local: Local, clock: nat)
    requires Grows(env) && Fresh(local, env.world(clock)) && ValidCursor(local.cursor)
    requires HonestAt(env, clock, local.cursor) && Step(env, local, clock).committed != []
    ensures Fresh(Step(env, local, clock).local, env.world(clock))
  {
    var log, cursor := env.world(clock), local.cursor;
    var page := PageFor(env.workspaceId, log, cursor);
    var next := Step(env, local, clock).local;
    assert log <= env.world(clock + 1);
    PageCursor(env.workspaceId, log, cursor);
    if page.refresh.connections {
      NewCopyReflects(log, env.world(clock + 1), page.nextCursor);
    } else {
      QuietPageKeeps(local.copy, log, cursor.value);
    }
  }

  /**
   * A sync keeps the copy as new as the stored cursor, however it ends; and one that is done has covered everything
   * that was in the log when it began.
   */
  lemma {:induction false} SyncStaysFresh(env: Env, local: Local, clock: nat, pages: nat)
    requires Honest(env) && Grows(env) && Fresh(local, env.world(clock)) && ValidCursor(local.cursor)
    ensures var p := Replay(env, local, clock, pages);
            && Fresh(p.local, env.world(p.clock)) && ValidCursor(p.local.cursor)
            && (p.outcome == Done ==>
                  && p.local.cursor.Some? && |env.world(clock)| <= p.local.cursor.value <= |env.world(p.clock)|
                  && Reflects(p.local.copy, env.world(clock), |env.world(clock)|))
    decreases pages
  {
    hide Step, Honest, Fresh, Reflects;
    if pages > 0 {
      var step := Step(env, local, clock);
      StepStaysFresh(env, local, clock);
      GrownTo(env, clock, step.clock);
      if step.outcome == Window {
        SyncStaysFresh(env, step.local, step.clock, pages - 1);
        var p := Replay(env, step.local, step.clock, pages - 1);
        GrownTo(env, step.clock, p.clock);
        if p.outcome == Done { ReflectsEarlier(p.local.copy, env.world(clock), env.world(step.clock)); }
      } else if step.outcome == Done {
        DoneReflects(step.local, env.world(clock), env.world(step.clock));
      }
    }
  }

  lemma GrownTo(env: Env, s: nat, t: nat)
    requires Grows(env) && s <= t
    ensures env.world(s) <= env.world(t)
  {
  }

  lemma ReflectsEarlier(copy: Log, log: Log, later: Log)
    requires log <= later && Reflects(copy, later, |later|)
    ensures Reflects(copy, log, |log|)
  {
    forall k | 0 <= k < |log| ensures Covers(copy, log, k) { assert Covers(copy, later, k) && later[k] == log[k]; }
  }

  lemma DoneReflects(local: Local, log: Log, later: Log)
    requires log <= later && Fresh(local, later) && local.cursor == Some(|log|)
    ensures Reflects(local.copy, log, |log|)
  {
    forall k | 0 <= k < |log| ensures Covers(local.copy, log, k) {
      assert Covers(local.copy, later, k) && later[k] == log[k];
    }
  }

  ghost predicate UpToDate(env: Env, p: Progress)
  {
    Fresh(p.local, env.world(p.clock)) && ValidCursor(p.local.cursor)
  }

  lemma PausedSyncStaysFresh(env: Env, local: Local, ready: nat, clock: nat, pages: nat)
    requires Honest(env) && Grows(env) && Fresh(local, env.world(ready)) && ValidCursor(local.cursor) && ready <= clock
    ensures var p := Replay(env, local, clock, pages);
            Fresh(p.local, env.world(p.clock)) && ValidCursor(p.local.cursor)
  {
    hide Fresh, Honest, Grows, Replay, ValidCursor;
    GrownTo(env, ready, clock);
    FreshLater(local, env.world(ready), env.world(clock));
    SyncStaysFresh(env, local, clock, pages);
  }

  lemma AfterStaysFresh(env: Env, before: Progress, pause: nat)
    requires Honest(env) && Grows(env) && UpToDate(env, before)
    ensures UpToDate(env, After(env, before, pause))
  {
    hide Fresh, Honest, Grows, Replay, ValidCursor;
    PausedSyncStaysFresh(env, before.local, before.clock, before.clock + pause, MAX_PAGES);
  }

  /** At every moment of a client's life its copy is no older than its stored cursor says. */
  lemma {:induction false} LifeStaysFresh(env: Env, pauses: seq<nat>)
    requires Honest(env) && Grows(env)
    ensures UpToDate(env, Life(env, pauses))
  {
    if pauses != [] {
      hide After, UpToDate, Honest, Grows;
      LifeStaysFresh(env, pauses[..|pauses| - 1]);
      AfterStaysFresh(env, Life(env, pauses[..|pauses| - 1]), pauses[|pauses| - 1]);
    }
  }

  // ---- How a sync can fail ----

  datatype Call = AskPage(at: nat, cursor: Option<int>) | FetchConnections(at: nat) | StoreCursor(at: nat)

  /** The calls one pass makes to the outside, in order, each only after the one before was answered. */
  function StepCalls(env: Env, local: Local, clock: nat): seq<Call>
  {
    if !ValidCursor(local.cursor) then []
    else
      var ask := AskPage(clock, local.cursor);
      match env.plane(clock, local.cursor)
      case Unreachable => [ask]
      case NotFound => [ask, FetchConnections(clock + 1)]
      case Body(page) =>
        if !ValidFor(page, env.workspaceId, local.cursor) then [ask]
        else if page.refresh.connections && !env.fetched(clock + 1) then [ask, FetchConnections(clock + 1)]
        else
          [ask] + (if page.refresh.connections then [FetchConnections(clock + 1)] else [])
          + (if CommitRefuses(local.cursor, page) then [] else [StoreCursor(clock + 2)])
  }

  /** The calls of a whole sync. */
  function Calls(env: Env, local: Local, clock: nat, pages: nat): seq<Call>
    decreases pages
  {
    if pages == 0 then []
    else
      var step := Step(env, local, clock);
      StepCalls(env, local, clock)
      + if step.outcome == Window then Calls(env, step.local, step.clock, pages - 1) else []
  }

  predicate Fails(env: Env, call: Call)
  {
    match call
    case AskPage(at, cursor) => env.plane(at, cursor) == Unreachable
    case FetchConnections(at) => !env.fetched(at)
    case StoreCursor(at) => !env.stored(at)
  }

  /** The page route itself is missing. */
  predicate Misses(env: Env, call: Call)
  {
    call.AskPage? && env.plane(call.at, call.cursor) == NotFound
  }

  predicate NoneFails(env: Env, calls: seq<Call>) { forall c | c in calls :: !Fails(env, c) }

  predicate NoneMisses(env: Env, calls: seq<Call>) { forall c | c in calls :: !Misses(env, c) }

  /** Every call but the last went well. */
  predicate OnlyLastFails(env: Env, calls: seq<Call>)
  {
    calls == [] || NoneFails(env, calls[..|calls| - 1])
  }

  lemma StepByCalls(env: Env, local: Local, clock: nat)
    requires Honest(env) && ValidCursor(local.cursor)
    ensures var p, calls := Step(env, local, clock), StepCalls(env, local, clock);
            && calls != [] && OnlyLastFails(env, calls)
            && (p.outcome == Failed <==> !NoneFails(env, calls))
            && (p.outcome == NoCursorApi <==> NoneFails(env, calls) && !NoneMisses(env, calls))
  {
    var answer := env.plane(clock, local.cursor);
    var calls := StepCalls(env, local, clock);
    assert calls[0] == AskPage(clock, local.cursor) && calls[0] in calls && calls[|calls| - 1] in calls;
    if answer.Body? {
      assert HonestAt(env, clock, local.cursor);
      ServedPageIsValid(env.workspaceId, env.world(clock), local.cursor);
    } else {
      assert answer.NotFound? ==> Misses(env, calls[0]);
    }
  }

  lemma CallsGlue(env: Env, first: seq<Call>, rest: seq<Call>)
    requires NoneFails(env, first) && NoneMisses(env, first)
    ensures NoneFails(env, first + rest) <==> NoneFails(env, rest)
    ensures NoneMisses(env, first + rest) <==> NoneMisses(env, rest)
    ensures OnlyLastFails(env, rest) ==> OnlyLastFails(env, first + rest)
  {
    hide Fails, Misses;
    assert forall c :: c in first + rest <==> c in first || c in rest;
    if rest != [] {
      assert (first + rest)[..|first + rest| - 1] == first + rest[..|rest| - 1];
    } else {
      assert first + rest == first;
      assert first != [] ==> forall c | c in first[..|first| - 1] :: c in first;
    }
  }

  /**
   * A sync fails exactly if one of its own calls fails, and that is then the last call it makes: no page of the real
   * route is refused, neither by the client's contract nor by the checks of the store. It does without a cursor exactly
   * if the route was missing and nothing failed.
   */
  lemma {:induction false} FailureHasCause(env: Env, local: Local, clock: nat, pages: nat)
    requires Honest(env) && ValidCursor(local.cursor)
    ensures var p, calls := Replay(env, local, clock, pages), Calls(env, local, clock, pages);
            && (p.outcome == Failed <==> !NoneFails(env, calls)) && OnlyLastFails(env, calls)
            && (p.outcome == NoCursorApi <==> NoneFails(env, calls) && !NoneMisses(env, calls))
    decreases pages
  {
    if pages == 0 {
    } else {
      hide Honest, Step, StepCalls, NoneFails, NoneMisses, OnlyLastFails, ValidCursor, Run, CursorAt;
      var step, first := Step(env, local, clock), StepCalls(env, local, clock);
      StepByCalls(env, local, clock);
      StepIsRun(env, local, clock);
      if step.outcome == Window {
        FailureHasCause(env, step.local, step.clock, pages - 1);
        CallsGlue(env, first, Calls(env, step.local, step.clock, pages - 1));
      } else {
        assert first + [] == first;
      }
    }
  }

  lemma MoreStep(env: Env, local: Local, clock: nat)
    requires Honest(env) && ValidCursor(local.cursor) && Step(env, local, clock).outcome == Window
    ensures local.cursor.Some? && |env.world(clock)| - local.cursor.value <= MAX_INCREMENTAL_EVENTS
    ensures Step(env, local, clock).local.cursor == Some(local.cursor.value + PAGE_LIMIT)
    ensures local.cursor.value + PAGE_LIMIT < |env.world(clock)| && Step(env, local, clock).clock == clock + 3
    ensures ValidCursor(Step(env, local, clock).local.cursor)
  {
    assert HonestAt(env, clock, local.cursor);
    MoreMeansFull(env.workspaceId, env.world(clock), local.cursor);
  }

  lemma {:induction false} WindowCursor(env: Env, local: Local, clock: nat, pages: nat)
    requires Honest(env) && Grows(env) && ValidCursor(local.cursor) && pages > 0
    requires Replay(env, local, clock, pages).outcome == Window
    ensures local.cursor.Some? && |env.world(clock)| - local.cursor.value <= MAX_INCREMENTAL_EVENTS
    ensures local.cursor.value + pages * PAGE_LIMIT < |env.world(Replay(env, local, clock, pages).clock)|
    decreases pages
  {
    hide Honest, Step;
    MoreStep(env, local, clock);
    var step := Step(env, local, clock);
    var end := Replay(env, step.local, step.clock, pages - 1).clock;
    if pages == 1 {
      GrownTo(env, clock, step.clock);
    } else {
      WindowCursor(env, step.local, step.clock, pages - 1);
    }
  }

  /**
   * The bounded replay window is exceeded only if, while the sync ran, the log grew by more than 64 pages less the
   * eight that a client may be behind without a rebase.
   */
  lemma WindowMeansGrowth(env: Env, local: Local, clock: nat)
    requires Honest(env) && Grows(env) && ValidCursor(local.cursor)
    requires Replay(env, local, clock, 64).outcome == Window
    ensures var end := Replay(env, local, clock, 64).clock; |env.world(end)| - |env.world(clock)| > 64 * 128 - 1024
  {
    WindowCursor(env, local, clock, MAX_PAGES);
    hide Replay, Honest;
  }

  /**
   * Convergence: a sync whose own calls are all answered, while the log stays as it is, ends with the cursor at the
   * head and every event that matters covered by the copy, from whatever cursor it began.
   */
  lemma QuietSyncCompletes(env: Env, local: Local, clock: nat)
    requires Honest(env) && Grows(env) && Fresh(local, env.world(clock)) && ValidCursor(local.cursor)
    requires var calls := Calls(env, local, clock, 64);
             NoneFails(env, calls) && NoneMisses(env, calls)
    requires env.world(Replay(env, local, clock, 64).clock) == env.world(clock)
    ensures var p := Replay(env, local, clock, 64);
            && p.outcome == Done && p.local.cursor == Some(|env.world(clock)|)
            && Reflects(p.local.copy, env.world(clock), |env.world(clock)|)
  {
    hide Replay, Honest, Grows, Fresh, Reflects, Calls, NoneFails, NoneMisses;
    SyncStaysFresh(env, local, clock, MAX_PAGES);
    FailureHasCause(env, local, clock, MAX_PAGES);
    if Replay(env, local, clock, MAX_PAGES).outcome == Window { WindowMeansGrowth(env, local, clock); }
  }
}
