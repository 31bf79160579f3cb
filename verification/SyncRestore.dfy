/** Workspace sync against a server whose log was replaced: exactly when the client's copy becomes good again. */
module SyncRestore {
  import opened SyncClient
  import opened SyncCursor
  import opened SyncLaws
  import opened SyncServer
  import opened Wrappers

  lemma ReflectsAlong(copy: Log, log: Log, later: Log, n: nat)
    requires log <= later && n <= |log|
    ensures Reflects(copy, log, n) <==> Reflects(copy, later, n)
  {
    assert forall k | 0 <= k < n :: Covers(copy, log, k) <==> Covers(copy, later, k);
  }

  lemma StaysStale(copy: Log, log: Log, m: nat, n: nat)
    requires m <= n && m <= |log| && !Reflects(copy, log, m)
    ensures !Reflects(copy, log, n)
  {
    var k :| 0 <= k < m && !Covers(copy, log, k);
  }

  predicate Bootstraps(log: Log, cursor: Option<int>) { cursor.None? || Rebases(log, cursor.value) }

  /** A first page and every rebase end the sync with a copy of everything, whatever the copy was before. */
  lemma BootstrapCures(env: Env, local: Local, clock: nat)
    requires Grows(env) && ValidCursor(local.cursor) && HonestAt(env, clock, local.cursor)
    requires Bootstraps(env.world(clock), local.cursor) && Step(env, local, clock).committed != []
    ensures var p := Step(env, local, clock);
            && p.outcome == Done && p.local.cursor == Some(|env.world(clock)|)
            && Reflects(p.local.copy, env.world(clock), |env.world(clock)|)
            && p.committed[0].reset == local.cursor.Some?
  {
    GrownTo(env, clock, clock + 1);
    NewCopyReflects(env.world(clock), env.world(clock + 1), |env.world(clock)|);
  }

  /** Any other page makes the copy good as far as its cursor exactly if it has a relevant event or the copy was good. */
  lemma PageCuresIff(env: Env, local: Local, clock: nat)
    requires Grows(env) && ValidCursor(local.cursor) && HonestAt(env, clock, local.cursor)
    requires !Bootstraps(env.world(clock), local.cursor) && Step(env, local, clock).committed != []
    ensures var p, log, c := Step(env, local, clock), env.world(clock), local.cursor.value;
            && !p.committed[0].reset && p.local.cursor.Some? && 0 <= c <= p.local.cursor.value <= |log|
            && (Reflects(p.local.copy, log, p.local.cursor.value) <==>
                  Touched(log[c..p.local.cursor.value]) || Reflects(local.copy, log, c))
  {
    var log, c, next := env.world(clock), local.cursor.value, Step(env, local, clock).local.cursor.value;
    var events := EventsAfter(log, c);
    assert next == c + |events| && events == log[c..next];
    GrownTo(env, clock, clock + 1);
    if Touched(events) {
      NewCopyReflects(log, env.world(clock + 1), next);
    } else if Reflects(local.copy, log, c) {
      QuietPageKeeps(local.copy, log, c);
    } else {
      StaysStale(local.copy, log, c, next);
    }
  }

  lemma TouchedSplits(log: seq<Event>, a: nat, b: nat, c: nat)
    requires a <= b <= c <= |log|
    ensures Touched(log[a..c]) <==> Touched(log[a..b]) || Touched(log[b..c])
  {
    assert log[a..c] == log[a..b] + log[b..c];
    assert forall e :: e in log[a..c] <==> e in log[a..b] || e in log[b..c];
  }

  predicate WasReset(pages: seq<Page>) { exists i | 0 <= i < |pages| :: pages[i].reset }

  /** Why a sync from a cursor leaves a good copy: a rebase, a relevant event on its way, or a copy that was good. */
  ghost predicate Cured(env: Env, local: Local, clock: nat, p: Progress)
    requires local.cursor.Some? && p.local.cursor.Some?
  {
    var c, end := local.cursor.value, p.local.cursor.value;
    || WasReset(p.committed)
    || (0 <= c <= end <= |env.world(p.clock)| && Touched(env.world(p.clock)[c..end]))
    || (0 <= c && Reflects(local.copy, env.world(clock), c))
  }

  lemma AskedHonestly(env: Env, local: Local, clock: nat)
    requires Honest(env) && ValidCursor(local.cursor)
    requires Step(env, local, clock).outcome == Window || Step(env, local, clock).outcome == Done
    ensures HonestAt(env, clock, local.cursor) && |Step(env, local, clock).committed| == 1
  {
  }

  /** The rest of the sync decides, but for the page already committed. */
  lemma Onward(env: Env, local: Local, clock: nat, step: Progress, rest: Progress)
    requires Grows(env) && local.cursor.Some? && step.local.cursor.Some? && rest.local.cursor.Some?
    requires clock <= step.clock <= rest.clock && |step.committed| == 1 && !step.committed[0].reset
    requires var log, c, next := env.world(clock), local.cursor.value, step.local.cursor.value;
             && 0 <= c <= next <= |log|
             && (Reflects(step.local.copy, log, next) <==> Touched(log[c..next]) || Reflects(local.copy, log, c))
    requires rest.local.cursor.value <= |env.world(rest.clock)|
    requires !WasReset(rest.committed) ==> step.local.cursor.value <= rest.local.cursor.value
    ensures Cured(env, local, clock, Behind(step.committed, rest)) <==> Cured(env, step.local, step.clock, rest)
    ensures WasReset(Behind(step.committed, rest).committed) <==> WasReset(rest.committed)
  {
    ResetsJoin(step.committed, rest.committed);
    if !WasReset(rest.committed) {
      var log, later := env.world(clock), env.world(rest.clock);
      var c, next, end := local.cursor.value, step.local.cursor.value, rest.local.cursor.value;
      GrownTo(env, clock, step.clock);
      GrownTo(env, clock, rest.clock);
      hide Reflects, Touched, WasReset, Grows;
      ReflectsAlong(step.local.copy, log, env.world(step.clock), next);
      TouchedSplits(later, c, next, end);
      assert later[c..next] == log[c..next];
    }
  }

  lemma StepOnward(env: Env, local: Local, clock: nat, rest: Progress)
    requires Grows(env) && ValidCursor(local.cursor) && HonestAt(env, clock, local.cursor)
    requires !Bootstraps(env.world(clock), local.cursor) && |Step(env, local, clock).committed| == 1
    requires Step(env, local, clock).clock <= rest.clock && Step(env, local, clock).local.cursor.Some?
    requires rest.local.cursor.Some? && rest.local.cursor.value <= |env.world(rest.clock)|
    requires !WasReset(rest.committed) ==> Step(env, local, clock).local.cursor.value <= rest.local.cursor.value
    ensures var step, p := Step(env, local, clock), Behind(Step(env, local, clock).committed, rest);
            && (Cured(env, local, clock, p) <==> Cured(env, step.local, step.clock, rest))
            && (WasReset(p.committed) <==> WasReset(rest.committed))
            && local.cursor.value <= step.local.cursor.value
  {
    assert local.cursor.Some?;
    hide Step, Grows, Bootstraps, HonestAt, Reflects, Touched, WasReset, Cured, ValidCursor;
    PageCuresIff(env, local, clock);
    Onward(env, local, clock, Step(env, local, clock), rest);
  }

  /**
   * Whatever copy a client holds, for instance of a log that has been replaced since: a sync that is done leaves it with
   * a good one exactly if it began without a cursor, one of its pages was a rebase, an event between the cursors matters
   * for connections, or the copy was good as far as the cursor it began with.
   */
  lemma {:induction false} SyncCuresIff(env: Env, local: Local, clock: nat, pages: nat)
    requires Honest(env) && Grows(env) && ValidCursor(local.cursor)
    requires Replay(env, local, clock, pages).outcome == Done
    ensures var p := Replay(env, local, clock, pages);
            && p.local.cursor.Some? && 0 <= p.local.cursor.value <= |env.world(p.clock)|
            && (!WasReset(p.committed) && local.cursor.Some? ==> local.cursor.value <= p.local.cursor.value)
            && (Fresh(p.local, env.world(p.clock)) <==> local.cursor.None? || Cured(env, local, clock, p))
    decreases pages
  {
    var step := Step(env, local, clock);
    AskedHonestly(env, local, clock);
    if Bootstraps(env.world(clock), local.cursor) {
      CuredByBootstrap(env, local, clock);
    } else {
      hide Honest, Step, Grows, Fresh, WasReset, Cured, ValidCursor, Bootstraps, HonestAt;
      if step.outcome == Window {
        StepIsRun(env, local, clock);
        SyncCuresIff(env, step.local, step.clock, pages - 1);
        StepOnward(env, local, clock, Replay(env, step.local, step.clock, pages - 1));
      } else {
        CuredByLastPage(env, local, clock);
      }
    }
  }

  lemma CuredByBootstrap(env: Env, local: Local, clock: nat)
    requires Grows(env) && ValidCursor(local.cursor) && HonestAt(env, clock, local.cursor)
    requires Bootstraps(env.world(clock), local.cursor) && |Step(env, local, clock).committed| == 1
    ensures var p := Step(env, local, clock);
            && p.outcome == Done && p.local.cursor.Some? && 0 <= p.local.cursor.value <= |env.world(p.clock)|
            && Fresh(p.local, env.world(p.clock)) && WasReset(p.committed) == local.cursor.Some?
  {
    var p := Step(env, local, clock);
    BootstrapCures(env, local, clock);
    GrownTo(env, clock, p.clock);
    ReflectsAlong(p.local.copy, env.world(clock), env.world(p.clock), |env.world(clock)|);
  }

  lemma CuredByLastPage(env: Env, local: Local, clock: nat)
    requires Grows(env) && ValidCursor(local.cursor) && HonestAt(env, clock, local.cursor)
    requires !Bootstraps(env.world(clock), local.cursor) && |Step(env, local, clock).committed| == 1
    ensures var p := Step(env, local, clock);
            && p.local.cursor.Some? && 0 <= local.cursor.value <= p.local.cursor.value <= |env.world(p.clock)|
            && !WasReset(p.committed) && (Fresh(p.local, env.world(p.clock)) <==> Cured(env, local, clock, p))
  {
    var p := Step(env, local, clock);
    assert local.cursor.Some?;
    hide Step, Touched, Reflects, Grows, Bootstraps, HonestAt, ValidCursor;
    PageCuresIff(env, local, clock);
    GrownTo(env, clock, p.clock);
    var log, later, c, end := env.world(clock), env.world(p.clock), local.cursor.value, p.local.cursor.value;
    ReflectsAlong(p.local.copy, log, later, end);
    assert later[c..end] == log[c..end];
  }

  // ---- A log that stands still while the client syncs ----

  ghost predicate StandsStill(env: Env, log: Log) { forall t: nat :: env.world(t) == log }

  lemma PageAfterPage(env: Env, log: Log, local: Local, clock: nat)
    requires Honest(env) && StandsStill(env, log) && local.cursor.Some? && ValidCursor(local.cursor)
    requires !Rebases(log, local.cursor.value)
    requires Step(env, local, clock).outcome == Window || Step(env, local, clock).outcome == Done
    ensures var p := Step(env, local, clock);
            && !WasReset(p.committed) && p.local.cursor.Some? && ValidCursor(p.local.cursor)
            && !Rebases(log, p.local.cursor.value) && (p.outcome == Done ==> p.local.cursor.value == |log|)
  {
    assert env.world(clock) == log;
    AskedHonestly(env, local, clock);
    if Step(env, local, clock).outcome == Window { MoreStep(env, local, clock); }
  }

  lemma ResetsJoin(a: seq<Page>, b: seq<Page>)
    ensures WasReset(a + b) <==> WasReset(a) || WasReset(b)
  {
    assert forall i | 0 <= i < |a| :: (a + b)[i] == a[i];
    assert forall i | 0 <= i < |b| :: (a + b)[|a| + i] == b[i];
  }

  lemma {:induction false} NoLaterRebase(env: Env, log: Log, local: Local, clock: nat, pages: nat)
    requires Honest(env) && StandsStill(env, log) && local.cursor.Some? && ValidCursor(local.cursor)
    requires !Rebases(log, local.cursor.value) && Replay(env, local, clock, pages).outcome == Done
    ensures var p := Replay(env, local, clock, pages);
            !WasReset(p.committed) && p.local.cursor == Some(|log|)
    decreases pages
  {
    hide Step, Honest, StandsStill, WasReset, Rebases, ValidCursor;
    var step := Step(env, local, clock);
    PageAfterPage(env, log, local, clock);
    if step.outcome == Window {
      NoLaterRebase(env, log, step.local, step.clock, pages - 1);
      ResetsJoin(step.committed, Replay(env, step.local, step.clock, pages - 1).committed);
    }
  }

  /**
   * If the log was replaced by another one that now stands still, a sync that is done makes the copy good exactly if the
   * client had no cursor, the new head is behind its cursor or too far ahead of it, the new log has a relevant event
   * beyond the cursor, or the copy agrees with the new log below the cursor anyway.
   */
  lemma RestoreIsNoticedIff(env: Env, log: Log, local: Local, clock: nat, pages: nat)
    requires Honest(env) && StandsStill(env, log) && ValidCursor(local.cursor)
    requires Replay(env, local, clock, pages).outcome == Done
    ensures Fresh(Replay(env, local, clock, pages).local, log) <==>
              match local.cursor
              case None => true
              case Some(c) => Rebases(log, c) || Touched(log[c..]) || Reflects(local.copy, log, c)
  {
    var p := Replay(env, local, clock, pages);
    assert Grows(env) && env.world(clock) == env.world(p.clock) == log;
    SyncCuresIff(env, local, clock, pages);
    if local.cursor.Some? {
      var c := local.cursor.value;
      if Rebases(log, c) {
        AskedHonestly(env, local, clock);
        CuredByBootstrap(env, local, clock);
      } else {
        NoLaterRebase(env, log, local, clock, pages);
        hide Replay, Honest, Touched, Reflects;
        assert log[c..|log|] == log[c..];
      }
    }
  }

  /** A restored log that has caught up again goes unnoticed: the sync is done and the copy is of the old log. */
  lemma RestoreGoesUnnoticed(before: Event, after: Event, env: Env)
    requires before != after && TouchesConnections(after)
    requires env.world(0) == [after] && env.plane(0, Some(1)) == Body(PageFor(env.workspaceId, [after], Some(1)))
    requires env.stored(2)
    ensures Fresh(Local(Some(1), [before]), [before])
    ensures var p := Replay(env, Local(Some(1), [before]), 0, MAX_PAGES);
            p.outcome == Done && p.local == Local(Some(1), [before]) && !Fresh(p.local, [after])
  {
    var log: Log := [after];
    assert EventsAfter(log, 1) == [];
    assert !Touched([]);
    assert !Covers([before], log, 0);
    var p := Replay(env, Local(Some(1), [before]), 0, MAX_PAGES);
    assert p == Step(env, Local(Some(1), [before]), 0);
  }
}
