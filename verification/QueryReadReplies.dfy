/** What `query_read` replies: every row, error and refused argument has its reason in the exchange with the broker. */
module QueryReadReplies {
  import opened QueryRead
  import opened QueryReadLaws
  import opened Utf8
  import opened Wrappers
  import Strings

  // ---- How one request ends ----

  predicate Replies(c: Command, a: Answer)
  {
    (c.Plan? && a.Planned?) || (c.Run? && a.Ran?) || (c.Context? && a.Environment?)
  }

  /** What became of a request whose last sending was answered `a`; `asked` answers the question behind a hint. */
  predicate Outcome(c: Command, hints: Hints, a: Answer, asked: Option<Answer>, repeats: nat, r: Exchanged)
  {
    match r
    case Got(x) => x == a && Replies(c, a) && asked.None?
    case GaveUp => asked.None?
    case Failed(e) =>
      && !Replies(c, a)
      && (asked.Some? <==> e.PolicyHint?)
      && match e
         case Transport => !a.Refused?
         case SqlInvalid => hints.invalidRequest && a.Refused? && a.code == InvalidRequest
         case ConflictHint => hints.operationConflict && a.Refused? && a.code == OperationConflict
         case PolicyHint(writable) =>
           && hints.policyBlocked && a.Refused? && a.code == PolicyBlocked
           && (writable <==> asked.value == Environment(true))
         case Remote(code) =>
           && a.Refused? && code == a.code && !(code == RuntimeUnavailable && a.retryable)
           && !(code == InvalidRequest && hints.invalidRequest) && !(code == PolicyBlocked && hints.policyBlocked)
           && !(code == OperationConflict && hints.operationConflict)
         case Revalidating => a == Refused(RuntimeUnavailable, true) && repeats == 60
         case _ => false
  }

  /** The request was sent `repeats + 1` times, all but the last refused for now, and ended as its outcome says. */
  ghost predicate Ends(b: Broker, s: State, c: Command, hints: Hints, before: nat, r: Exchanged, after: State, repeats: nat)
  {
    var k := |s.log| + repeats;
    && k < |after.log| <= k + 2 && s.log <= after.log && after.target == s.target
    && (forall i | |s.log| <= i <= k :: after.log[i] == Sent(c, s.target))
    && (forall i | |s.log| <= i < k :: RefusedForNow(b, after.log, i))
    && (|after.log| == k + 2 ==> after.log[k + 1] == Sent(Context, s.target))
    && Outcome(c, hints, b(after.log[..k + 1]), if |after.log| == k + 2 then Some(b(after.log)) else None,
               before + repeats, r)
  }

  lemma {:induction false} ExchangeEnds(b: Broker, s: State, c: Command, hints: Hints, attempt: nat,
                                        patience: Option<nat>) returns (repeats: nat)
    requires attempt <= AUTHORITY_RETRY_ATTEMPTS
    ensures var (r, after) := Exchange(b, s, c, hints, attempt, patience);
            && Ends(b, s, c, hints, attempt, r, after, repeats)
            && (r.GaveUp? ==> patience.Some? && repeats == patience.value / 2)
    decreases AUTHORITY_RETRY_ATTEMPTS - attempt
  {
    var sent := Send(s, c);
    var (r, after) := Exchange(b, s, c, hints, attempt, patience);
    assert sent.log[..|sent.log|] == sent.log;
    var a := b(sent.log);
    HintSends(b, sent, hints, if a.Refused? then a.code else OtherCode);
    repeats := 0;
    if patience != Some(0) && !Fits(c, a) && a.Refused? && a.code == RuntimeUnavailable && a.retryable
       && attempt < AUTHORITY_RETRY_ATTEMPTS && patience != Some(1) {
      var n := ExchangeEnds(b, sent, c, hints, attempt + 1, Later(patience));
      repeats := n + 1;
      OnceMore(b, s, c, hints, attempt, r, after, n);
    } else {
      EndsAtOnce(b, s, c, hints, attempt, patience);
    }
  }

  lemma OnceMore(b: Broker, s: State, c: Command, hints: Hints, before: nat, r: Exchanged, after: State, n: nat)
    requires b(Send(s, c).log) == Refused(RuntimeUnavailable, true)
    requires Ends(b, Send(s, c), c, hints, before + 1, r, after, n)
    ensures Ends(b, s, c, hints, before, r, after, n + 1)
  {
    var sent := Send(s, c);
    assert after.log[..|sent.log|] == sent.log;
    assert after.log[|s.log|] == sent.log[|s.log|] == Sent(c, s.target);
    assert s.log <= after.log;
  }

  lemma EndsAtOnce(b: Broker, s: State, c: Command, hints: Hints, attempt: nat, patience: Option<nat>)
    requires attempt <= AUTHORITY_RETRY_ATTEMPTS
    requires var a := b(Send(s, c).log);
             !(patience != Some(0) && !Fits(c, a) && a.Refused? && a.code == RuntimeUnavailable && a.retryable
               && attempt < AUTHORITY_RETRY_ATTEMPTS && patience != Some(1))
    ensures var (r, after) := Exchange(b, s, c, hints, attempt, patience);
            && Ends(b, s, c, hints, attempt, r, after, 0)
            && (r.GaveUp? ==> patience.Some? && patience.value / 2 == 0)
  {
    var sent := Send(s, c);
    var (r, after) := Exchange(b, s, c, hints, attempt, patience);
    assert sent.log[..|sent.log|] == sent.log;
    assert after.log[..|s.log| + 1] == sent.log;
    assert after.log[..|after.log|] == after.log;
  }

  // ---- How one read ends ----

  /** The reason a read failed, read off the last request it sent. */
  ghost predicate Explains(b: Broker, from: nat, log: seq<Sent>, e: ToolError)
  {
    && from < |log|
    && var last, a := log[|log| - 1].command, b(log);
       match e
       case NotExecutable(decision) =>
         last.Plan? && a.Planned? && a.decision == decision && decision !in {"ready", "caution"}
       case TimedOut => last.Cancel? && from < |log| - 1 && log[|log| - 2].command == Run(last.plan)
       case SqlInvalid => last.Plan? && a.Refused? && a.code == InvalidRequest
       case PolicyHint(writable) =>
         && last == Context && (writable <==> a == Environment(true))
         && from < |log| - 1 && log[|log| - 2].command.Plan?
         && b(log[..|log| - 1]).Refused? && b(log[..|log| - 1]).code == PolicyBlocked
       case Remote(code) =>
         && (last.Run? || (last.Plan? && code != InvalidRequest && code != PolicyBlocked))
         && a.Refused? && a.code == code && !(code == RuntimeUnavailable && a.retryable)
       case Transport => (last.Plan? && !a.Planned? && !a.Refused?) || (last.Run? && !a.Ran? && !a.Refused?)
       case Revalidating =>
         && (last.Plan? || last.Run?) && from + 61 <= |log|
         && (forall i | |log| - 61 <= i < |log| :: log[i].command == last && RefusedForNow(b, log, i))
       case _ => false
  }

  lemma PlanFailure(b: Broker, s: State, c: Command, r: Exchanged, after: State, repeats: nat)
    requires c.Plan? && Ends(b, s, c, Hints(true, true, false), 0, r, after, repeats) && r.Failed?
    ensures Explains(b, |s.log|, after.log, r.error)
  {
    var k := |s.log| + repeats;
    if |after.log| == k + 1 { assert after.log[..k + 1] == after.log; }
    else { assert after.log[..|after.log| - 1] == after.log[..k + 1]; }
  }

  lemma RunFailure(b: Broker, s: State, plan: PlanId, r: Exchanged, after: State, repeats: nat, from: nat)
    requires Ends(b, s, Run(plan), NO_HINTS, 0, r, after, repeats) && r.Failed? && from <= |s.log|
    ensures Explains(b, from, after.log, r.error)
  {
    var k := |s.log| + repeats;
    assert |after.log| == k + 1 && after.log[..k + 1] == after.log;
  }

  /** Ends its history with the cancel of the run before it. */
  lemma RunGivenUp(b: Broker, s: State, plan: PlanId, after: State, repeats: nat, from: nat)
    requires Ends(b, s, Run(plan), NO_HINTS, 0, GaveUp, after, repeats) && from <= |s.log|
    ensures Explains(b, from, Send(after, Cancel(plan)).log, TimedOut)
  {
    var k := |s.log| + repeats;
    assert |after.log| == k + 1 && after.log[k] == Sent(Run(plan), s.target);
  }

  lemma PlanNotExecutable(b: Broker, s: State, c: Command, a: Answer, after: State, repeats: nat)
    requires c.Plan? && Ends(b, s, c, Hints(true, true, false), 0, Got(a), after, repeats)
    ensures a.Planned? && b(after.log) == a && |s.log| < |after.log| && after.log[|after.log| - 1].command == c
    ensures a.decision !in {"ready", "caution"} ==> Explains(b, |s.log|, after.log, NotExecutable(a.decision))
  {
    var k := |s.log| + repeats;
    assert |after.log| == k + 1 && after.log[..k + 1] == after.log;
  }

  /** Every failed read failed for the reason its last request shows. */
  lemma ReadsFailForAReason(b: Broker, s: State, read: Read, patience: nat)
    ensures var (r, after) := PlanAndRun(b, s, read, patience);
            s.log <= after.log && (r.Err? ==> Explains(b, |s.log|, after.log, r.error))
  {
    hide Exchange, Ends, Explains;
    var c := Plan(read.sql, read.maxRows);
    var (planned, s1) := Exchange(b, s, c, SQL_READ_HINTS, 0, None);
    var n := ExchangeEnds(b, s, c, SQL_READ_HINTS, 0, None);
    Grows(b, s, c, SQL_READ_HINTS, planned, s1, n);
    match planned {
      case Failed(e) => PlanFailure(b, s, c, planned, s1, n);
      case Got(a) =>
        PlanNotExecutable(b, s, c, a, s1, n);
        if Executable(a.decision) {
          var t := s1.(target := Some(a.id));
          var (ran, s2) := Exchange(b, t, Run(a.id), NO_HINTS, 0, Some(patience));
          var m := ExchangeEnds(b, t, Run(a.id), NO_HINTS, 0, Some(patience));
          Grows(b, t, Run(a.id), NO_HINTS, ran, s2, m);
          match ran {
            case GaveUp => RunGivenUp(b, t, a.id, s2, m, |s.log|);
            case Failed(e) => RunFailure(b, t, a.id, ran, s2, m, |s.log|);
            case Got(x) => RunGot(b, t, a.id, x, s2, m);
          }
        }
      case _ =>
    }
  }

  lemma RunGot(b: Broker, s: State, plan: PlanId, a: Answer, after: State, repeats: nat)
    requires Ends(b, s, Run(plan), NO_HINTS, 0, Got(a), after, repeats)
    ensures a.Ran?
  {
  }

  lemma Grows(b: Broker, s: State, c: Command, hints: Hints, r: Exchanged, after: State, repeats: nat)
    requires Ends(b, s, c, hints, 0, r, after, repeats)
    ensures s.log <= after.log
  {
  }

  // ---- The arguments, as they stand ----

  predicate GoodText(value: string, bytes: nat)
  {
    !Strings.AllSpace(value) && |Encode(value)| <= bytes && '\0' !in value
  }

  predicate GoodArguments(args: Arguments)
  {
    && (args.database.Some? ==> GoodText(args.database.value, 256))
    && (args.previewRows.Some? ==> 1 <= args.previewRows.value <= 200)
    && (args.timeoutMs.Some? ==> 1 <= args.timeoutMs.value <= 300_000)
    && |args.queries| <= 5 && (args.sql.Some? <==> args.queries == [])
    && (args.sql.Some? ==> GoodText(args.sql.value, 262_144))
    && forall q | q in args.queries :: GoodText(q.sql, 262_144)
  }

  /** The read a batch asks for at one place: its own row limit, or else the batch's. */
  function ReadAt(args: Arguments, q: nat): Read
    requires q < |args.queries|
  {
    Read(args.queries[q].sql, if args.queries[q].maxRows.Some? then args.queries[q].maxRows else args.maxRows)
  }

  lemma TextsMean(value: string, bytes: nat)
    ensures ValidText(value, bytes) <==> GoodText(value, bytes)
  {
    var front, back := Strings.TrimMeans(value);
    assert value == front + Strings.Trim(value) + back;
    var t := Strings.Trim(value);
    if t != [] {
      assert value[|front|] == t[0];
    } else {
      assert front + [] + back == front + back;
    }
  }

  /** The arguments are refused exactly when they are not good, and the reads are the ones they name. */
  lemma ReadsMean(args: Arguments)
    ensures Reads(args).Some? <==> GoodArguments(args)
    ensures GoodArguments(args) && args.queries == [] ==> Reads(args).value == [Read(args.sql.value, args.maxRows)]
    ensures GoodArguments(args) && args.queries != [] ==>
              var queries := Limited(Reads(args).value, args.maxRows);
              |queries| == |args.queries| && forall q | 0 <= q < |queries| :: queries[q] == ReadAt(args, q)
  {
    hide ValidText, GoodText;
    forall value, bytes ensures ValidText(value, bytes) <==> GoodText(value, bytes) { TextsMean(value, bytes); }
    if args.sql.Some? {
      var one := [Read(args.sql.value, args.maxRows)];
      assert one[0].sql == args.sql.value;
      assert ValidText(one[0].sql, 262_144) ==> forall i | 0 <= i < |one| :: ValidText(one[i].sql, 262_144);
      if Reads(args).Some? { assert Reads(args).value == one; }
    } else {
      var queries := args.queries;
      assert forall i | 0 <= i < |queries| :: ValidText(queries[i].sql, 262_144) <==> GoodText(queries[i].sql, 262_144);
      assert (forall i | 0 <= i < |queries| :: GoodText(queries[i].sql, 262_144))
        <==> (forall q | q in queries :: GoodText(q.sql, 262_144));
    }
  }

  // ---- The reply ----

  /** What a good batch is answered: one entry per read, in order, each with its reason. */
  ghost predicate BatchReply(b: Broker, from: nat, log: seq<Sent>, args: Arguments, entries: seq<Entry>)
  {
    && |entries| == |args.queries|
    && (forall q | 0 <= q < |entries| && entries[q].Done? :: Earned(b, from, log, ReadAt(args, q), entries[q].rows))
    && (forall q | 0 <= q < |entries| && entries[q].FailedRead? :: Explains(b, from, log, entries[q].error))
    && (forall i, j | 0 <= i < j < |entries| :: !entries[i].Done? ==> entries[j].Skipped?)
    && (entries != [] ==> !entries[0].Skipped?)
  }

  lemma ExplainsEarlier(b: Broker, from: nat, start: nat, log: seq<Sent>, e: ToolError)
    requires start <= from && Explains(b, from, log, e)
    ensures Explains(b, start, log, e)
  {
  }

  lemma {:induction false} EntriesHaveReasons(b: Broker, s: State, queries: seq<Read>, patience: nat -> nat)
    ensures var (entries, after) := Batch(b, s, queries, patience);
            && |entries| == |queries| && s.log <= after.log
            && (forall q | 0 <= q < |entries| && entries[q].FailedRead? :: Explains(b, |s.log|, after.log, entries[q].error))
            && (forall i, j | 0 <= i < j < |entries| :: !entries[i].Done? ==> entries[j].Skipped?)
            && (entries != [] ==> !entries[0].Skipped?)
            && (entries != [] && entries[0].FailedRead? ==>
                  (Err(entries[0].error), after) == PlanAndRun(b, s, queries[0], patience(|queries|)))
    decreases |queries|
  {
    hide PlanAndRun, Explains;
    if queries != [] {
      var (first, s1) := PlanAndRun(b, s, queries[0], patience(|queries|));
      ReadsFailForAReason(b, s, queries[0], patience(|queries|));
      if first.Ok? {
        var (rest, after) := Batch(b, s1, queries[1..], patience);
        EntriesHaveReasons(b, s1, queries[1..], patience);
        var entries := Batch(b, s, queries, patience).0;
        assert entries == [Done(first.value)] + rest;
        forall q | 0 <= q < |entries| && entries[q].FailedRead? ensures Explains(b, |s.log|, after.log, entries[q].error) {
          assert entries[q] == rest[q - 1];
          ExplainsEarlier(b, |s1.log|, |s.log|, after.log, rest[q - 1].error);
        }
      }
    }
  }

  lemma BatchReplies(b: Broker, s: State, args: Arguments, patience: nat -> nat)
    requires Orderly(b, s) && GoodArguments(args) && args.queries != [] && Reads(args).Some?
    ensures var (entries, after) := Batch(b, s, Limited(Reads(args).value, args.maxRows), patience);
            BatchReply(b, |s.log|, after.log, args, entries)
  {
    hide PlanAndRun, Explains, Earned, Orderly, GoodText, ValidText, Batch;
    ReadsMean(args);
    var queries := Limited(Reads(args).value, args.maxRows);
    var (entries, after) := Batch(b, s, queries, patience);
    EntriesHaveReasons(b, s, queries, patience);
    forall q | 0 <= q < |entries| && entries[q].Done? ensures Earned(b, |s.log|, after.log, ReadAt(args, q), entries[q].rows) {
      ResultsAreEarned(b, s, queries, patience, q);
    }
  }

  /**
   * What `query_read` returns, for any broker: bad arguments are refused before anything is sent; one read gives its
   * rows, run under a plan for exactly that text and limit, or its error; a batch gives one entry per read, and is an
   * error only if its very first read failed. Every error has its reason in the last answer of the broker.
   */
  lemma ToolReplies(b: Broker, s: State, args: Arguments, patience: nat -> nat)
    requires Orderly(b, s)
    ensures var (r, after) := QueryReadTool(b, s, args, patience);
            if !GoodArguments(args) then r == Err(BadArguments) && after == s
            else if args.queries == [] then
              match r
              case Ok(reply) =>
                reply.One? && Earned(b, |s.log|, after.log, Read(args.sql.value, args.maxRows), reply.rows)
              case Err(e) => Explains(b, |s.log|, after.log, e)
            else
              match r
              case Ok(reply) =>
                reply.Many? && BatchReply(b, |s.log|, after.log, args, reply.entries) && reply.entries[0].Done?
              case Err(e) =>
                && e.FirstReadFailed? && e.count == |args.queries| && Explains(b, |s.log|, after.log, e.error)
                && PlansOnly(|s.log|, after.log, ReadAt(args, 0))
  {
    hide PlanAndRun, Explains, Earned, Orderly, GoodText, ValidText, Batch, PlansOnly, Reads, Limited;
    ReadsMean(args);
    if GoodArguments(args) {
      if args.queries == [] {
        var read := Read(args.sql.value, args.maxRows);
        assert Reads(args) == Some([read]) && [read][0] == read;
        var (one, s1) := PlanAndRun(b, s, read, patience(1));
        assert QueryReadTool(b, s, args, patience)
          == (match one case Ok(rows) => Ok(One(rows)) case Err(error) => Err(error), s1);
        PlanAndRunKeeps(b, s, read, patience(1));
        ReadsFailForAReason(b, s, read, patience(1));
      } else {
        var queries := Limited(Reads(args).value, args.maxRows);
        BatchReplies(b, s, args, patience);
        EntriesHaveReasons(b, s, queries, patience);
        PlanAndRunKeeps(b, s, ReadAt(args, 0), patience(|queries|));
      }
    }
  }
}
