/** Planning and running SQL reads through the broker, one at a time or in a batch (agent_mcp_dispatch.rs). */
module QueryRead {
  import opened JsonLimits
  import opened Utf8
  import opened Wrappers
  import Strings

  const AUTHORITY_RETRY_ATTEMPTS: nat := 60
  const MAX_QUERY_READ_BATCH: nat := 5
  const MAX_DATABASE_BYTES: nat := 256
  const MAX_QUERY_PREVIEW_ROWS: nat := 200
  const MAX_QUERY_READ_TIMEOUT_MS: nat := 300_000

  type PlanId = nat

  datatype Command = Plan(sql: string, maxRows: Option<nat>) | Run(plan: PlanId) | Cancel(plan: PlanId) | Context

  /** A request, with the plan a cancellation would stop at that moment. */
  datatype Sent = Sent(command: Command, target: Option<PlanId>)

  datatype Code = InvalidRequest | PolicyBlocked | OperationConflict | RuntimeUnavailable | OtherCode

  datatype Answer =
    | Planned(id: PlanId, decision: string)
    | Ran(rows: string)
    | Environment(writable: bool)
    | Refused(code: Code, retryable: bool)
    | Lost                                   // any other client error

  /** What the broker answers to the last request of a history. */
  type Broker = seq<Sent> -> Answer

  datatype ToolError =
    | SqlInvalid | PolicyHint(writable: bool) | ConflictHint
    | Remote(code: Code) | Transport | Revalidating
    | NotExecutable(decision: string) | TimedOut
    | BadArguments | FirstReadFailed(count: nat, error: ToolError)

  datatype Hints = Hints(invalidRequest: bool, policyBlocked: bool, operationConflict: bool)

  const NO_HINTS := Hints(false, false, false)
  const SQL_READ_HINTS := Hints(true, true, false)

  datatype State = State(log: seq<Sent>, target: Option<PlanId>)

  function Send(s: State, c: Command): State { s.(log := s.log + [Sent(c, s.target)]) }

  predicate Fits(c: Command, a: Answer)
  {
    match c
    case Plan(_, _) => a.Planned?
    case Run(_) => a.Ran?
    case Context => a.Environment?
    case Cancel(_) => false
  }

  /** `refusal_hint`: only a blocked read asks the broker once more, for the session's write target. */
  function RefusalHint(b: Broker, s: State, hints: Hints, code: Code): (Option<ToolError>, State)
  {
    match code
    case InvalidRequest => (if hints.invalidRequest then Some(SqlInvalid) else None, s)
    case OperationConflict => (if hints.operationConflict then Some(ConflictHint) else None, s)
    case PolicyBlocked =>
      if !hints.policyBlocked then (None, s)
      else
        var asked := Send(s, Context);
        var a := b(asked.log);
        (Some(PolicyHint(a.Environment? && a.writable)), asked)
    case _ => (None, s)
  }

  datatype Exchanged = Got(answer: Answer) | Failed(error: ToolError) | GaveUp

  /** What is left of a deadline after an answer and a pause. */
  function Later(patience: Option<nat>): Option<nat>
  {
    match patience case None => None case Some(n) => if n >= 2 then Some(n - 2) else Some(0)
  }

  /**
   * `broker_request_with_hints` from one attempt on. A deadline may strike while an answer is awaited or
   * during a pause: `patience` counts the answers and pauses before it does; None is no deadline.
   */
  function Exchange(b: Broker, s: State, c: Command, hints: Hints, attempt: nat, patience: Option<nat>)
    : (Exchanged, State)
    requires attempt <= AUTHORITY_RETRY_ATTEMPTS
    decreases AUTHORITY_RETRY_ATTEMPTS - attempt
  {
    var sent := Send(s, c);
    if patience == Some(0) then (GaveUp, sent)
    else
      var a := b(sent.log);
      if Fits(c, a) then (Got(a), sent)
      else if !a.Refused? then (Failed(Transport), sent)
      else
        var (hint, next) := RefusalHint(b, sent, hints, a.code);
        if hint.Some? then (Failed(hint.value), next)
        else if a.code != RuntimeUnavailable || !a.retryable then (Failed(Remote(a.code)), next)
        else if attempt == AUTHORITY_RETRY_ATTEMPTS then (Failed(Revalidating), next)
        else if patience == Some(1) then (GaveUp, next)
        else Exchange(b, next, c, hints, attempt + 1, Later(patience))
  }

  datatype Read = Read(sql: string, maxRows: Option<nat>)

  datatype Rows = Rows(plan: PlanId, rows: string)

  predicate Executable(decision: string) { decision == "ready" || decision == "caution" }

  /** The outcome of a run, with the cancellation target cleared. */
  function Finished(s: State, plan: PlanId, ran: Exchanged): (Result<Rows, ToolError>, State)
  {
    match ran
    case GaveUp => (Err(TimedOut), Send(s, Cancel(plan)).(target := None))
    case Failed(error) => (Err(error), s.(target := None))
    case Got(answer) => (if answer.Ran? then Ok(Rows(plan, answer.rows)) else Err(Transport), s.(target := None))
  }

  /** `plan_and_run`. */
  function PlanAndRun(b: Broker, s: State, read: Read, patience: nat): (Result<Rows, ToolError>, State)
  {
    var (planned, s1) := Exchange(b, s, Plan(read.sql, read.maxRows), SQL_READ_HINTS, 0, None);
    match planned
    case GaveUp => (Err(TimedOut), s1)
    case Failed(error) => (Err(error), s1)
    case Got(answer) =>
      if !answer.Planned? then (Err(Transport), s1)
      else if !Executable(answer.decision) then (Err(NotExecutable(answer.decision)), s1)
      else
        var (ran, s2) := Exchange(b, s1.(target := Some(answer.id)), Run(answer.id), NO_HINTS, 0, Some(patience));
        Finished(s2, answer.id, ran)
  }

  datatype Entry = Done(rows: Rows) | FailedRead(error: ToolError) | Skipped

  function Skips(n: nat): seq<Entry> { seq(n, _ => Skipped) }

  /** The batch loop: the first failure stops it, and the reads after it are reported as skipped. */
  function Batch(b: Broker, s: State, queries: seq<Read>, patience: nat -> nat): (seq<Entry>, State)
    decreases |queries|
  {
    if queries == [] then ([], s)
    else
      var (first, s1) := PlanAndRun(b, s, queries[0], patience(|queries|));
      match first
      case Err(error) => ([FailedRead(error)] + Skips(|queries| - 1), s1)
      case Ok(rows) =>
        var (rest, s2) := Batch(b, s1, queries[1..], patience);
        ([Done(rows)] + rest, s2)
  }

  // ---- The whole tool ----

  datatype Arguments = Arguments(
    database: Option<string>, sql: Option<string>, queries: seq<Read>, maxRows: Option<nat>,
    previewRows: Option<nat>, timeoutMs: Option<nat>)

  datatype Reply = One(rows: Rows) | Many(entries: seq<Entry>)

  /** `validate_text`. */
  predicate ValidText(value: string, maxBytes: nat)
  {
    Strings.Trim(value) != [] && |Encode(value)| <= maxBytes && '\0' !in value
  }

  predicate WithinBound(value: Option<nat>, maximum: nat) { value.Some? ==> 1 <= value.value <= maximum }

  /** The reads asked for: exactly one of `sql` and `reads`, at most five, each a valid text. */
  function Reads(args: Arguments): (r: Option<seq<Read>>)
    ensures r.Some? ==> forall i | 0 <= i < |r.value| :: ValidText(r.value[i].sql, MAX_STRING_BYTES)
  {
    if args.database.Some? && !ValidText(args.database.value, MAX_DATABASE_BYTES) then None
    else if !WithinBound(args.previewRows, MAX_QUERY_PREVIEW_ROWS) then None
    else if !WithinBound(args.timeoutMs, MAX_QUERY_READ_TIMEOUT_MS) then None
    else if args.sql.Some? == (args.queries != []) || |args.queries| > MAX_QUERY_READ_BATCH then None
    else
      var queries := if args.sql.Some? then [Read(args.sql.value, args.maxRows)] else args.queries;
      if forall i | 0 <= i < |queries| :: ValidText(queries[i].sql, MAX_STRING_BYTES) then Some(queries) else None
  }

  /** A read of a batch uses the batch's row limit when it names none. */
  function Limited(queries: seq<Read>, maxRows: Option<nat>): (r: seq<Read>)
    ensures |r| == |queries|
    ensures forall i | 0 <= i < |r| ::
              r[i].sql == queries[i].sql && (queries[i].maxRows.Some? ==> r[i] == queries[i])
              && (queries[i].maxRows.None? ==> r[i].maxRows == maxRows)
  {
    if queries == [] then []
    else [if queries[0].maxRows.Some? then queries[0] else queries[0].(maxRows := maxRows)]
         + Limited(queries[1..], maxRows)
  }

  function Summary(entries: seq<Entry>): Result<Reply, ToolError>
  {
    if entries != [] && entries[0].FailedRead? then Err(FirstReadFailed(|entries|, entries[0].error))
    else Ok(Many(entries))
  }

  /** `query_read`. */
  function QueryReadTool(b: Broker, s: State, args: Arguments, patience: nat -> nat): (Result<Reply, ToolError>, State)
  {
    var queries := Reads(args);
    if queries.None? then (Err(BadArguments), s)
    else if args.queries == [] then
      var (one, s1) := PlanAndRun(b, s, queries.value[0], patience(1));
      (match one case Ok(rows) => Ok(One(rows)) case Err(error) => Err(error), s1)
    else
      var (entries, s1) := Batch(b, s, Limited(queries.value, args.maxRows), patience);
      (Summary(entries), s1)
  }

  // ---- The tool task as it runs ----

  class ToolTask {
    const broker: Broker
    var log: seq<Sent>
    var target: Option<PlanId>

    function Model(): State
      reads this
    {
      State(log, target)
    }

    constructor (broker: Broker)
      ensures Model() == State([], None) && this.broker == broker
    {
      this.broker := broker;
      log, target := [], None;
    }

    method Request(c: Command) returns (answer: Answer)
      modifies this`log
      ensures Model() == Send(old(Model()), c) && answer == broker(log)
    {
      log := log + [Sent(c, target)];
      answer := broker(log);
    }

    method Hint(hints: Hints, code: Code) returns (hint: Option<ToolError>)
      modifies this`log
      ensures (hint, Model()) == RefusalHint(broker, old(Model()), hints, code)
    {
      match code {
        case InvalidRequest => hint := if hints.invalidRequest then Some(SqlInvalid) else None;
        case OperationConflict => hint := if hints.operationConflict then Some(ConflictHint) else None;
        case PolicyBlocked =>
          hint := None;
          if hints.policyBlocked {
            var answer := Request(Context);
            hint := Some(PolicyHint(answer.Environment? && answer.writable));
          }
        case _ => hint := None;
      }
    }

    /** The retry loop. */
    method RequestWithHints(c: Command, hints: Hints, patience: Option<nat>) returns (r: Exchanged)
      modifies this`log
      ensures (r, Model()) == Exchange(broker, old(Model()), c, hints, 0, patience)
    {
      hide RefusalHint, Fits;
      var attempt, left := 0, patience;
      while true
        invariant attempt <= AUTHORITY_RETRY_ATTEMPTS
        invariant Exchange(broker, Model(), c, hints, attempt, left)
               == Exchange(broker, old(Model()), c, hints, 0, patience)
        decreases AUTHORITY_RETRY_ATTEMPTS - attempt
      {
        var answer := Request(c);
        if left == Some(0) {
          return GaveUp;
        }
        if Fits(c, answer) {
          return Got(answer);
        }
        if !answer.Refused? {
          return Failed(Transport);
        }
        var hint := Hint(hints, answer.code);
        if hint.Some? {
          return Failed(hint.value);
        }
        if answer.code != RuntimeUnavailable || !answer.retryable {
          return Failed(Remote(answer.code));
        }
        if attempt == AUTHORITY_RETRY_ATTEMPTS {
          return Failed(Revalidating);
        }
        if left == Some(1) {
          return GaveUp;
        }
        attempt, left := attempt + 1, Later(left);
      }
    }

    method PlanAndRunRead(read: Read, patience: nat) returns (r: Result<Rows, ToolError>)
      modifies this
      ensures (r, Model()) == PlanAndRun(broker, old(Model()), read, patience)
    {
      hide Exchange;
      var planned := RequestWithHints(Plan(read.sql, read.maxRows), SQL_READ_HINTS, None);
      match planned {
        case GaveUp => return Err(TimedOut);
        case Failed(error) => return Err(error);
        case Got(answer) =>
          if !answer.Planned? {
            return Err(Transport);
          }
          if !Executable(answer.decision) {
            return Err(NotExecutable(answer.decision));
          }
          target := Some(answer.id);
          var ran := RequestWithHints(Run(answer.id), NO_HINTS, Some(patience));
          match ran {
            case GaveUp =>
              var ignored := Request(Cancel(answer.id));
              target := None;
              return Err(TimedOut);
            case Failed(error) =>
              target := None;
              return Err(error);
            case Got(result) =>
              target := None;
              return if result.Ran? then Ok(Rows(answer.id, result.rows)) else Err(Transport);
          }
      }
    }

    method RunBatch(queries: seq<Read>, patience: nat -> nat) returns (results: seq<Entry>)
      modifies this
      ensures (results, Model()) == Batch(broker, old(Model()), queries, patience)
    {
      hide PlanAndRun;
      results := [];
      var failure: Option<ToolError> := None;
      ghost var start := Model();
      ghost var whole := Batch(broker, start, queries, patience);
      assert queries[0..] == queries && [] + whole.0 == whole.0;
      var i := 0;
      while i < |queries|
        invariant i <= |queries|
        invariant failure.None? ==>
                    var rest := Batch(broker, Model(), queries[i..], patience);
                    whole == (results + rest.0, rest.1)
        invariant failure.Some? ==> whole == (results + Skips(|queries| - i), Model())
      {
        assert queries[i..][0] == queries[i] && queries[i..][1..] == queries[i + 1..];
        if failure.Some? {
          assert Skips(|queries| - i) == [Skipped] + Skips(|queries| - i - 1);
          assert results + ([Skipped] + Skips(|queries| - i - 1)) == results + [Skipped] + Skips(|queries| - i - 1);
          results := results + [Skipped];
        } else {
          ghost var before := Model();
          var outcome := PlanAndRunRead(queries[i], patience(|queries| - i));
          NextRead(broker, before, queries[i..], patience, results);
          match outcome {
            case Ok(rows) => results := results + [Done(rows)];
            case Err(error) =>
              results := results + [FailedRead(error)];
              failure := Some(error);
          }
        }
        i := i + 1;
      }
      assert queries[i..] == [] && results + [] == results && Skips(0) == [];
    }

    /** `query_read`. */
    method QueryReadCall(args: Arguments, patience: nat -> nat) returns (r: Result<Reply, ToolError>)
      modifies this
      ensures (r, Model()) == QueryReadTool(broker, old(Model()), args, patience)
    {
      hide Batch, PlanAndRun, ValidText;
      var queries := Reads(args);
      if queries.None? {
        return Err(BadArguments);
      }
      if args.queries == [] {
        var one := PlanAndRunRead(queries.value[0], patience(1));
        match one {
          case Ok(rows) => return Ok(One(rows));
          case Err(error) => return Err(error);
        }
      }
      var entries := RunBatch(Limited(queries.value, args.maxRows), patience);
      return Summary(entries);
    }
  }

  lemma NextRead(b: Broker, s: State, queries: seq<Read>, patience: nat -> nat, results: seq<Entry>)
    requires queries != []
    ensures var (first, s1) := PlanAndRun(b, s, queries[0], patience(|queries|));
            var whole := Batch(b, s, queries, patience);
            match first
            case Err(error) => results + whole.0 == results + [FailedRead(error)] + Skips(|queries| - 1) && whole.1 == s1
            case Ok(rows) => results + whole.0 == results + [Done(rows)] + Batch(b, s1, queries[1..], patience).0
                             && whole.1 == Batch(b, s1, queries[1..], patience).1
  {
    hide PlanAndRun;
  }
}
