/** What planning and running reads may and may not do to the broker. */
module QueryReadLaws {
  import opened QueryRead
  import opened Wrappers

  /** The broker turned request `i` away before doing anything, and said to try again. */
  predicate RefusedForNow(b: Broker, log: seq<Sent>, i: nat)
    requires i < |log|
  {
    b(log[..i + 1]) == Refused(RuntimeUnavailable, true)
  }

  // ---- One exchange ----

  /** Request `i` is the command itself, or the one question behind a hint, which comes last. */
  predicate OwnRequest(s: State, c: Command, hints: Hints, log: seq<Sent>, i: nat)
    requires i < |log|
  {
    log[i] == Sent(c, s.target)
    || (hints.policyBlocked && i == |log| - 1 && i > |s.log| && log[i] == Sent(Context, s.target))
  }

  ghost predicate ExchangeShape(b: Broker, s: State, c: Command, hints: Hints, r: Exchanged, after: State)
  {
    && s.log <= after.log && |s.log| < |after.log| && after.target == s.target
    && after.log[|s.log|] == Sent(c, s.target)
    && (forall i | |s.log| <= i < |after.log| :: OwnRequest(s, c, hints, after.log, i))
    && (forall i | |s.log| <= i < |after.log| - 1 ::
          after.log[i + 1] == Sent(c, s.target) ==> RefusedForNow(b, after.log, i))
    && (r.Got? ==> b(after.log) == r.answer && Fits(c, r.answer) && after.log[|after.log| - 1] == Sent(c, s.target))
  }

  lemma HintSends(b: Broker, s: State, hints: Hints, code: Code)
    ensures var (hint, after) := RefusalHint(b, s, hints, code);
            && (after == s || (hints.policyBlocked && hint.Some? && after == Send(s, Context)))
            && (code == RuntimeUnavailable ==> hint.None?)
  {
  }

  /** A request is repeated only right after the broker refused it for now. */
  lemma {:induction false} ExchangeRepeats(b: Broker, s: State, c: Command, hints: Hints, attempt: nat,
                                           patience: Option<nat>)
    requires attempt <= AUTHORITY_RETRY_ATTEMPTS && c != Context
    ensures var (r, after) := Exchange(b, s, c, hints, attempt, patience);
            ExchangeShape(b, s, c, hints, r, after)
            && |after.log| <= |s.log| + (AUTHORITY_RETRY_ATTEMPTS - attempt) + 2
            && (!hints.policyBlocked ==> |after.log| <= |s.log| + (AUTHORITY_RETRY_ATTEMPTS - attempt) + 1)
            && (patience.None? ==> !r.GaveUp?)
    decreases AUTHORITY_RETRY_ATTEMPTS - attempt
  {
    var sent := Send(s, c);
    assert sent.log[..|sent.log|] == sent.log;
    var a := b(sent.log);
    HintSends(b, sent, hints, if a.Refused? then a.code else OtherCode);
    if patience != Some(0) && !Fits(c, a) && a.Refused? && a.code == RuntimeUnavailable && a.retryable
       && attempt < AUTHORITY_RETRY_ATTEMPTS && patience != Some(1) {
      ExchangeRepeats(b, sent, c, hints, attempt + 1, Later(patience));
      var (r, after) := Exchange(b, sent, c, hints, attempt + 1, Later(patience));
      assert Exchange(b, s, c, hints, attempt, patience) == (r, after);
      Longer(b, s, c, hints, r, after);
    }
  }

  /** One refused request before an exchange makes a longer exchange. */
  lemma Longer(b: Broker, s: State, c: Command, hints: Hints, r: Exchanged, after: State)
    requires b(Send(s, c).log) == Refused(RuntimeUnavailable, true)
    requires ExchangeShape(b, Send(s, c), c, hints, r, after)
    ensures ExchangeShape(b, s, c, hints, r, after)
  {
    var sent := Send(s, c);
    assert after.log[..|sent.log|] == sent.log;
    assert after.log[|s.log|] == sent.log[|s.log|] == Sent(c, s.target);
    assert RefusedForNow(b, after.log, |s.log|);
    assert s.log <= after.log;
    forall i | |s.log| <= i < |after.log| ensures OwnRequest(s, c, hints, after.log, i) {
      if i > |s.log| { assert OwnRequest(sent, c, hints, after.log, i); }
    }
  }

  // ---- No operation is replayed ----

  predicate HandsOut(b: Broker, log: seq<Sent>, k: nat, plan: PlanId)
    requires k < |log|
  {
    b(log[..k + 1]).Planned? && b(log[..k + 1]).id == plan
  }

  /** The broker handed out the plan between two requests. */
  ghost predicate Reissued(b: Broker, log: seq<Sent>, i: nat, j: nat, plan: PlanId)
    requires j <= |log|
  {
    exists k | i < k < j :: HandsOut(b, log, k, plan)
  }

  predicate SameRun(log: seq<Sent>, i: nat, j: nat)
    requires i < |log| && j < |log|
  {
    log[i].command.Run? && log[i].command == log[j].command
  }

  /** No run is sent twice unless the broker refused it for now, or handed its plan out again in between. */
  ghost predicate NoReplay(b: Broker, log: seq<Sent>)
  {
    forall i, j | 0 <= i < j < |log| && SameRun(log, i, j) ::
      RefusedForNow(b, log, i) || Reissued(b, log, i, j, log[i].command.plan)
  }

  /** While a read is planned nothing is a cancellation target; while it runs, exactly its plan is. */
  predicate TargetFits(sent: Sent)
  {
    match sent.command
    case Run(plan) => sent.target == Some(plan)
    case Cancel(plan) => sent.target == Some(plan)
    case _ => sent.target == None
  }

  ghost predicate Orderly(b: Broker, s: State)
  {
    s.target == None && NoReplay(b, s.log) && forall i | 0 <= i < |s.log| :: TargetFits(s.log[i])
  }

  /** A new task starts in order. */
  lemma NewTaskIsOrderly(b: Broker)
    ensures Orderly(b, State([], None))
  {
  }

  /** What holds between two requests is not changed by later ones. */
  lemma EarlierPair(b: Broker, log: seq<Sent>, longer: seq<Sent>, i: nat, j: nat)
    requires NoReplay(b, log) && log <= longer && i < j < |log| && SameRun(longer, i, j)
    ensures RefusedForNow(b, longer, i) || Reissued(b, longer, i, j, longer[i].command.plan)
  {
    assert longer[i] == log[i] && longer[j] == log[j] && SameRun(log, i, j);
    assert longer[..i + 1] == log[..i + 1];
    if !RefusedForNow(b, log, i) {
      var k :| i < k < j && HandsOut(b, log, k, log[i].command.plan);
      assert longer[..k + 1] == log[..k + 1];
      assert HandsOut(b, longer, k, longer[i].command.plan);
    }
  }

  lemma PlanningIsOrderly(b: Broker, s: State, c: Command, hints: Hints, r: Exchanged, after: State)
    requires Orderly(b, s) && c.Plan? && ExchangeShape(b, s, c, hints, r, after)
    ensures Orderly(b, after)
  {
    forall i | 0 <= i < |after.log| ensures TargetFits(after.log[i]) && (i >= |s.log| ==> !after.log[i].command.Run?) {
      if i >= |s.log| { assert OwnRequest(s, c, hints, after.log, i); } else { assert after.log[i] == s.log[i]; }
    }
    hide NoReplay, RefusedForNow, Reissued, ExchangeShape;
    forall i, j | 0 <= i < j < |after.log| && SameRun(after.log, i, j)
      ensures RefusedForNow(b, after.log, i) || Reissued(b, after.log, i, j, after.log[i].command.plan)
    {
      EarlierPair(b, s.log, after.log, i, j);
    }
    PairsMakeNoReplay(b, after.log);
  }

  lemma PairsMakeNoReplay(b: Broker, log: seq<Sent>)
    requires forall i, j | 0 <= i < j < |log| && SameRun(log, i, j) ::
               RefusedForNow(b, log, i) || Reissued(b, log, i, j, log[i].command.plan)
    ensures NoReplay(b, log)
  {
  }

  /** The plan was just handed out: its run may be sent again, but only once more for each refusal. */
  lemma RunningIsOrderly(b: Broker, s: State, plan: PlanId, r: Exchanged, after: State)
    requires Orderly(b, s) && s.log != [] && s.log[|s.log| - 1].command.Plan?
    requires b(s.log).Planned? && b(s.log).id == plan
    requires ExchangeShape(b, s.(target := Some(plan)), Run(plan), NO_HINTS, r, after)
    ensures Orderly(b, after.(target := None)) && Orderly(b, Send(after, Cancel(plan)).(target := None))
  {
    var t := s.(target := Some(plan));
    forall i | |s.log| <= i < |after.log| ensures after.log[i] == Sent(Run(plan), Some(plan)) {
      assert OwnRequest(t, Run(plan), NO_HINTS, after.log, i);
    }
    var k := |s.log| - 1;
    assert after.log[..k + 1] == s.log && after.log[k] == s.log[k];
    forall i, j | 0 <= i < j < |after.log| && SameRun(after.log, i, j)
      ensures RefusedForNow(b, after.log, i) || Reissued(b, after.log, i, j, after.log[i].command.plan)
    {
      if j < |s.log| {
        EarlierPair(b, s.log, after.log, i, j);
      } else if i >= |s.log| {
        assert after.log[i + 1] == Sent(Run(plan), t.target);
      } else {
        assert i < k < j && HandsOut(b, after.log, k, plan);
      }
    }
    PairsMakeNoReplay(b, after.log);
    forall i | 0 <= i < |s.log| ensures after.log[i] == s.log[i] { }
    CancelIsOrderly(b, after, plan);
  }

  lemma CancelIsOrderly(b: Broker, s: State, plan: PlanId)
    requires NoReplay(b, s.log) && s.target == Some(plan) && forall i | 0 <= i < |s.log| :: TargetFits(s.log[i])
    ensures Orderly(b, Send(s, Cancel(plan)).(target := None))
  {
    var after := Send(s, Cancel(plan));
    hide NoReplay, RefusedForNow, Reissued;
    forall i, j | 0 <= i < j < |after.log| && SameRun(after.log, i, j)
      ensures RefusedForNow(b, after.log, i) || Reissued(b, after.log, i, j, after.log[i].command.plan)
    {
      EarlierPair(b, s.log, after.log, i, j);
    }
    PairsMakeNoReplay(b, after.log);
  }

  /** A result was run under the plan that was made, just before, for exactly this read. */
  ghost predicate Earned(b: Broker, from: nat, log: seq<Sent>, read: Read, rows: Rows)
  {
    exists i, j | from <= i < j < |log| ::
      && log[i].command == Plan(read.sql, read.maxRows)
      && (exists d | d in {"ready", "caution"} :: b(log[..i + 1]) == Planned(rows.plan, d))
      && log[j].command == Run(rows.plan) && b(log[..j + 1]) == Ran(rows.rows)
  }

  /** Only this read was planned in the new part of the history. */
  predicate PlansOnly(from: nat, log: seq<Sent>, read: Read)
  {
    forall i | from <= i < |log| :: log[i].command.Plan? ==> log[i].command == Plan(read.sql, read.maxRows)
  }

  const MAX_REQUESTS_PER_READ: nat := 2 * AUTHORITY_RETRY_ATTEMPTS + 4

  lemma GotAnswer(b: Broker, s: State, c: Command, hints: Hints, r: Exchanged, after: State)
    requires ExchangeShape(b, s, c, hints, r, after) && r.Got?
    ensures b(after.log) == r.answer && after.log != [] && after.log[|after.log| - 1].command == c
  {
  }

  lemma PlanAndRunKeeps(b: Broker, s: State, read: Read, patience: nat)
    requires Orderly(b, s)
    ensures var (r, after) := PlanAndRun(b, s, read, patience);
            && Orderly(b, after) && s.log <= after.log && |after.log| <= |s.log| + MAX_REQUESTS_PER_READ
            && PlansOnly(|s.log|, after.log, read)
            && (r.Ok? ==> Earned(b, |s.log|, after.log, read, r.value))
  {
    hide Exchange, ExchangeShape, Orderly, PlansOnly, Earned;
    var c := Plan(read.sql, read.maxRows);
    var (planned, s1) := Exchange(b, s, c, SQL_READ_HINTS, 0, None);
    ExchangeRepeats(b, s, c, SQL_READ_HINTS, 0, None);
    PlanningIsOrderly(b, s, c, SQL_READ_HINTS, planned, s1);
    PlanningPlansOnly(b, s, c, SQL_READ_HINTS, planned, s1);
    if planned.Got? && planned.answer.Planned? && Executable(planned.answer.decision) {
      var id := planned.answer.id;
      GotAnswer(b, s, c, SQL_READ_HINTS, planned, s1);
      var t := s1.(target := Some(id));
      var (ran, s2) := Exchange(b, t, Run(id), NO_HINTS, 0, Some(patience));
      ExchangeRepeats(b, t, Run(id), NO_HINTS, 0, Some(patience));
      RunningIsOrderly(b, s1, id, ran, s2);
      RunPlansOnly(b, s, s1, read, id, ran, s2);
      if ran.Got? { RunEarns(b, s, s1, read, planned.answer, ran, s2); }
    }
  }

  lemma PlanningPlansOnly(b: Broker, s: State, c: Command, hints: Hints, r: Exchanged, after: State)
    requires c.Plan? && ExchangeShape(b, s, c, hints, r, after)
    ensures PlansOnly(|s.log|, after.log, Read(c.sql, c.maxRows)) && s.log <= after.log
  {
    forall i | |s.log| <= i < |after.log| && after.log[i].command.Plan? ensures after.log[i].command == c {
      assert OwnRequest(s, c, hints, after.log, i);
    }
  }

  lemma RunPlansOnly(b: Broker, s: State, s1: State, read: Read, id: PlanId, r: Exchanged, after: State)
    requires s.log <= s1.log && PlansOnly(|s.log|, s1.log, read)
    requires ExchangeShape(b, s1.(target := Some(id)), Run(id), NO_HINTS, r, after)
    ensures PlansOnly(|s.log|, after.log, read) && PlansOnly(|s.log|, Send(after, Cancel(id)).log, read)
    ensures s.log <= after.log && s.log <= Send(after, Cancel(id)).log
  {
    forall i | |s.log| <= i < |after.log|
      ensures after.log[i].command.Plan? ==> after.log[i].command == Plan(read.sql, read.maxRows)
    {
      if i >= |s1.log| {
        assert OwnRequest(s1.(target := Some(id)), Run(id), NO_HINTS, after.log, i);
      } else {
        assert after.log[i] == s1.log[i];
      }
    }
  }

  lemma RunEarns(b: Broker, s: State, s1: State, read: Read, planned: Answer, r: Exchanged, after: State)
    requires planned.Planned? && Executable(planned.decision) && r.Got?
    requires ExchangeShape(b, s, Plan(read.sql, read.maxRows), SQL_READ_HINTS, Got(planned), s1)
    requires ExchangeShape(b, s1.(target := Some(planned.id)), Run(planned.id), NO_HINTS, r, after)
    ensures r.answer.Ran? && Earned(b, |s.log|, after.log, read, Rows(planned.id, r.answer.rows))
  {
    var i, j := |s1.log| - 1, |after.log| - 1;
    assert after.log[..i + 1] == s1.log && after.log[..j + 1] == after.log && after.log[i] == s1.log[i];
    assert b(after.log[..i + 1]) == Planned(planned.id, planned.decision);
  }

  /** A time-out is only ever reported by giving up. */
  lemma {:induction false} NeverTimesOut(b: Broker, s: State, c: Command, hints: Hints, attempt: nat,
                                         patience: Option<nat>)
    requires attempt <= AUTHORITY_RETRY_ATTEMPTS
    ensures Exchange(b, s, c, hints, attempt, patience).0 != Failed(TimedOut)
    decreases AUTHORITY_RETRY_ATTEMPTS - attempt
  {
    var sent := Send(s, c);
    if attempt < AUTHORITY_RETRY_ATTEMPTS {
      var a := b(sent.log);
      if a.Refused? {
        NeverTimesOut(b, RefusalHint(b, sent, hints, a.code).1, c, hints, attempt + 1, Later(patience));
      }
    }
  }

  /** How an exchange ends: with its own request or, only where a hint may be asked for, the question behind it. */
  lemma LastSent(b: Broker, s: State, c: Command, hints: Hints, patience: Option<nat>)
    requires c != Context
    ensures var (r, after) := Exchange(b, s, c, hints, 0, patience);
            && |after.log| > |s.log| && r != Failed(TimedOut) && (patience.None? ==> !r.GaveUp?)
            && (after.log[|after.log| - 1].command == c
                || (hints.policyBlocked && after.log[|after.log| - 1].command == Context))
  {
    hide Exchange, RefusedForNow;
    ExchangeRepeats(b, s, c, hints, 0, patience);
    NeverTimesOut(b, s, c, hints, 0, patience);
    var after := Exchange(b, s, c, hints, 0, patience).1;
    assert OwnRequest(s, c, hints, after.log, |after.log| - 1);
  }

  /** A run that outlived its deadline, and no other, is cancelled: the cancel request is the last one sent. */
  lemma TimeoutCancels(b: Broker, s: State, read: Read, patience: nat)
    ensures var (r, after) := PlanAndRun(b, s, read, patience);
            && |after.log| > |s.log|
            && (r == Err(TimedOut) <==> after.log[|after.log| - 1].command.Cancel?)
            && (r == Err(TimedOut) ==>
                  && |after.log| >= 2 && after.log[|after.log| - 2].command.Run?
                  && after.log[|after.log| - 1].command == Cancel(after.log[|after.log| - 2].command.plan))
  {
    hide Exchange;
    var c := Plan(read.sql, read.maxRows);
    var (planned, s1) := Exchange(b, s, c, SQL_READ_HINTS, 0, None);
    LastSent(b, s, c, SQL_READ_HINTS, None);
    if planned.Got? && planned.answer.Planned? && Executable(planned.answer.decision) {
      var id := planned.answer.id;
      LastSent(b, s1.(target := Some(id)), Run(id), NO_HINTS, Some(patience));
    }
  }

  // ---- Whole batches ----

  lemma {:induction false} BatchKeeps(b: Broker, s: State, queries: seq<Read>, patience: nat -> nat)
    requires Orderly(b, s)
    ensures var (entries, after) := Batch(b, s, queries, patience);
            && Orderly(b, after) && s.log <= after.log
            && |after.log| <= |s.log| + |queries| * MAX_REQUESTS_PER_READ
    decreases |queries|
  {
    hide PlanAndRun, Orderly, PlansOnly, Earned;
    if queries != [] {
      var (first, s1) := PlanAndRun(b, s, queries[0], patience(|queries|));
      PlanAndRunKeeps(b, s, queries[0], patience(|queries|));
      if first.Ok? { BatchKeeps(b, s1, queries[1..], patience); }
    }
  }

  /**
   * Over a whole tool call with any number of reads: a run is sent again only after the broker refused it for now,
   * or handed its plan out again in between; every run and cancel is sent while exactly its plan is the cancellation
   * target and every plan while nothing is; nothing is left as a target; and the number of requests is bounded.
   */
  lemma ToolNeverReplays(b: Broker, s: State, args: Arguments, patience: nat -> nat)
    requires Orderly(b, s)
    ensures var (r, after) := QueryReadTool(b, s, args, patience);
            && Orderly(b, after) && s.log <= after.log
            && |after.log| <= |s.log| + MAX_QUERY_READ_BATCH * MAX_REQUESTS_PER_READ
            && (r == Err(BadArguments) && Reads(args).None? ==> after == s)
  {
    hide PlanAndRun, Batch, Orderly, PlansOnly, Earned, ValidText;
    var queries := Reads(args);
    if queries.Some? {
      if args.queries == [] {
        PlanAndRunKeeps(b, s, queries.value[0], patience(1));
      } else {
        BatchKeeps(b, s, Limited(queries.value, args.maxRows), patience);
      }
    }
  }

  /** So for a new task the whole exchange with the broker is in order and bounded. */
  lemma FreshTaskIsOrderly(b: Broker, args: Arguments, patience: nat -> nat)
    ensures var (_, after) := QueryReadTool(b, State([], None), args, patience);
            && after.target == None && NoReplay(b, after.log)
            && (forall i | 0 <= i < |after.log| :: TargetFits(after.log[i]))
            && |after.log| <= MAX_QUERY_READ_BATCH * MAX_REQUESTS_PER_READ
  {
    NewTaskIsOrderly(b);
    ToolNeverReplays(b, State([], None), args, patience);
    hide QueryReadTool, NoReplay;
  }

  /** One entry per read, in order: results, then at most one failure, then only skipped reads. */
  lemma {:induction false} BatchShape(b: Broker, s: State, queries: seq<Read>, patience: nat -> nat)
    ensures var entries := Batch(b, s, queries, patience).0;
            && |entries| == |queries|
            && (forall i, j | 0 <= i < j < |entries| :: entries[i].FailedRead? ==> entries[j].Skipped?)
            && (forall j | 0 <= j < |entries| :: entries[j].Skipped? ==> exists i | 0 <= i < j :: entries[i].FailedRead?)
    decreases |queries|
  {
    hide PlanAndRun;
    if queries != [] {
      var (first, s1) := PlanAndRun(b, s, queries[0], patience(|queries|));
      var entries := Batch(b, s, queries, patience).0;
      if first.Ok? {
        BatchShape(b, s1, queries[1..], patience);
        var rest := Batch(b, s1, queries[1..], patience).0;
        assert entries == [Done(first.value)] + rest;
        forall j | 0 <= j < |entries| && entries[j].Skipped? ensures exists i | 0 <= i < j :: entries[i].FailedRead? {
          assert entries[j] == rest[j - 1];
          var i :| 0 <= i < j - 1 && rest[i].FailedRead?;
          assert entries[i + 1].FailedRead?;
        }
      } else {
        assert entries[0].FailedRead?;
      }
    }
  }

  lemma EarnedLater(b: Broker, from: nat, log: seq<Sent>, longer: seq<Sent>, start: nat, read: Read, rows: Rows)
    requires Earned(b, from, log, read, rows) && log <= longer && start <= from
    ensures Earned(b, start, longer, read, rows)
  {
    var i, j :| from <= i < j < |log| && log[i].command == Plan(read.sql, read.maxRows)
      && (exists d | d in {"ready", "caution"} :: b(log[..i + 1]) == Planned(rows.plan, d))
      && log[j].command == Run(rows.plan) && b(log[..j + 1]) == Ran(rows.rows);
    assert longer[..i + 1] == log[..i + 1] && longer[..j + 1] == log[..j + 1];
    assert longer[i] == log[i] && longer[j] == log[j];
  }

  /** Every result in a batch was run under a plan made for that very read. */
  lemma {:induction false} ResultsAreEarned(b: Broker, s: State, queries: seq<Read>, patience: nat -> nat, q: nat)
    requires Orderly(b, s) && q < |queries|
    ensures var (entries, after) := Batch(b, s, queries, patience);
            |entries| == |queries| && (entries[q].Done? ==> Earned(b, |s.log|, after.log, queries[q], entries[q].rows))
    decreases |queries|
  {
    hide PlanAndRun, Orderly, PlansOnly, Earned;
    var (first, s1) := PlanAndRun(b, s, queries[0], patience(|queries|));
    PlanAndRunKeeps(b, s, queries[0], patience(|queries|));
    BatchShape(b, s, queries, patience);
    if first.Ok? {
      BatchKeeps(b, s1, queries[1..], patience);
      var (rest, after) := Batch(b, s1, queries[1..], patience);
      if q == 0 {
        EarnedLater(b, |s.log|, s1.log, after.log, |s.log|, queries[0], first.value);
      } else {
        ResultsAreEarned(b, s1, queries[1..], patience, q - 1);
        if rest[q - 1].Done? {
          EarnedLater(b, |s1.log|, after.log, after.log, |s.log|, queries[q], rest[q - 1].rows);
        }
      }
    }
  }

  /** Nothing is asked of the broker for a skipped read: every plan request belongs to a read that was tried. */
  lemma {:induction false} SkippedReadsAreNotPlanned(b: Broker, s: State, queries: seq<Read>, patience: nat -> nat,
                                                     k: nat)
    requires Orderly(b, s)
    ensures var (entries, after) := Batch(b, s, queries, patience);
            |entries| == |queries| &&
            (|s.log| <= k < |after.log| && after.log[k].command.Plan? ==>
               exists q | 0 <= q < |queries| ::
                 !entries[q].Skipped? && after.log[k].command == Plan(queries[q].sql, queries[q].maxRows))
    decreases |queries|
  {
    hide PlanAndRun, Orderly, Earned;
    BatchShape(b, s, queries, patience);
    if queries != [] {
      var (first, s1) := PlanAndRun(b, s, queries[0], patience(|queries|));
      var (entries, after) := Batch(b, s, queries, patience);
      PlanAndRunKeeps(b, s, queries[0], patience(|queries|));
      assert !entries[0].Skipped?;
      if first.Ok? {
        var (rest, end) := Batch(b, s1, queries[1..], patience);
        BatchKeeps(b, s1, queries[1..], patience);
        SkippedReadsAreNotPlanned(b, s1, queries[1..], patience, k);
        assert entries == [Done(first.value)] + rest && end == after;
        if |s1.log| <= k < |after.log| && after.log[k].command.Plan? {
          var q :| 0 <= q < |queries[1..]| && !rest[q].Skipped?
            && after.log[k].command == Plan(queries[1..][q].sql, queries[1..][q].maxRows);
          assert queries[q + 1] == queries[1..][q] && entries[q + 1] == rest[q];
        } else if |s.log| <= k < |s1.log| {
          assert after.log[k] == s1.log[k];
        }
      }
    }
  }
}
