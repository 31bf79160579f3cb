/** The scheduler's promises about whole runs: exactly one answer per request, in arrival order,
    with the right result, and a session that always drains. */
module ToolServerRuns {
  import opened JsonValue
  import opened ToolServer
  import opened ToolServerLaws
  import opened Wrappers

  // ---- Work conservation ----

  /** What holds each time the loop waits: the four-call limit, no idle slot beside a waiting
      call, and at least one branch of the select that can fire. */
  predicate Waiting(s: State)
  {
    && |s.active| <= 4
    && (s.outcome == Running ==> s.queue == [] || |s.active| == 4)
    && (s.outcome == Running ==> !s.inputClosed || s.active != [])
    && (s.outcome == ReturnedOk ==> s.inputClosed && s.queue == [] && s.active == [])
  }

  lemma {:induction false} StartFills(s: State)
    requires |s.active| <= MAX_CONCURRENT_TOOL_CALLS
    ensures var t := Start(s);
            && |t.active| <= MAX_CONCURRENT_TOOL_CALLS && t.outcome == s.outcome
            && (t.queue == [] || |t.active| == MAX_CONCURRENT_TOOL_CALLS)
    decreases |s.queue|
  {
    if |s.active| < MAX_CONCURRENT_TOOL_CALLS && s.queue != [] { StartFills(StartOne(s)); }
  }

  lemma ReactKeepsLimit(s: State, e: Event)
    requires Enabled(s, e) && |s.active| <= MAX_CONCURRENT_TOOL_CALLS
    ensures |React(s, e).active| <= MAX_CONCURRENT_TOOL_CALLS && React(s, e).outcome != ReturnedOk
  {
  }

  /** The scheduler is work-conserving and its select is never reached with both branches off. */
  lemma {:induction false} NeverIdle(events: seq<Event>)
    ensures Waiting(Run(events))
  {
    if events == [] {
      StartFills(INITIAL);
    } else {
      var s, e := Run(events[..|events| - 1]), events[|events| - 1];
      NeverIdle(events[..|events| - 1]);
      if Enabled(s, e) {
        ReactKeepsLimit(s, e);
        StartFills(React(s, e));
      }
    }
  }

  lemma RunLast(events: seq<Event>)
    requires events != []
    ensures var s, e := Run(events[..|events| - 1]), events[|events| - 1];
            Run(events) == if Enabled(s, e) then Next(s, e) else s
  {
  }

  // ---- Exactly one answer ----

  /** The id under which a request must be answered, if it must. */
  function AskedUnder(request: Request): Option<Json>
  {
    match request
    case ToolCall(id, _) => Some(id)
    case Question(id, _) => Some(id)
    case _ => None
  }

  function Asked(e: Event): Option<Json>
  {
    match e
    case Message(m, _) => AskedUnder(Parse(m))
    case ParseError(_) => Some(Null)
    case _ => None
  }

  /** How many requests of the run carry an id; a client that never reuses ids keeps it at one. */
  function TimesAsked(events: seq<Event>, id: Json): nat
  {
    if events == [] then 0
    else TimesAsked(events[..|events| - 1], id) + if Asked(events[|events| - 1]) == Some(id) then 1 else 0
  }

  lemma {:induction false} StartKeepsAsked(s: State)
    ensures Start(s).past.owed == s.past.owed && Start(s).past.accepted == s.past.accepted
    ensures Start(s).past.delivered == s.past.delivered
    decreases |s.queue|
  {
    if |s.active| < MAX_CONCURRENT_TOOL_CALLS && s.queue != [] { StartKeepsAsked(StartOne(s)); }
  }

  function Is(id: Json): Json -> bool { (x: Json) => x == id }

  ghost predicate Owes(before: History, after: History, asked: Option<Json>)
  {
    && after.owed == before.owed + (if asked.Some? then multiset{asked.value} else multiset{})
    && (after.accepted == before.accepted || (asked.Some? && after.accepted == before.accepted + [asked.value]))
  }

  lemma HandleOwes(s: State, request: Request, sinkOk: bool)
    ensures Owes(s.past, Handle(s, request, sinkOk).past, AskedUnder(request))
  {
  }

  lemma StepOwes(s: State, e: Event)
    requires Enabled(s, e)
    ensures Owes(s.past, Next(s, e).past, Asked(e))
  {
    hide Handle, Parse, Start, AskedUnder;
    if e.Message? { HandleOwes(s, Parse(e.message), e.sinkOk); }
    StartKeepsAsked(React(s, e));
  }

  /** How many requests under an id the session took in: the ones that came while it was listening. */
  function Received(events: seq<Event>, id: Json): nat
  {
    if events == [] then 0
    else
      var before, e := events[..|events| - 1], events[|events| - 1];
      Received(before, id) + if Enabled(Run(before), e) && Asked(e) == Some(id) then 1 else 0
  }

  function CallIn(e: Event): seq<Json>
  {
    if e.Message? && Parse(e.message).ToolCall? then [Parse(e.message).id] else []
  }

  /** The ids of the tool calls the session took in, in the order they came. */
  function ReceivedCalls(events: seq<Event>): seq<Json>
  {
    if events == [] then []
    else
      var before, e := events[..|events| - 1], events[|events| - 1];
      ReceivedCalls(before) + if Enabled(Run(before), e) then CallIn(e) else []
  }

  /** Every event is possible when its turn comes. */
  predicate EachHappens(events: seq<Event>)
  {
    events == []
    || (EachHappens(events[..|events| - 1]) && Enabled(Run(events[..|events| - 1]), events[|events| - 1]))
  }

  /** No request is taken in that was not asked, and none is missed while the session listens. */
  lemma {:induction false} ReceivedWasAsked(events: seq<Event>, id: Json)
    ensures Received(events, id) <= TimesAsked(events, id)
    ensures EachHappens(events) ==> Received(events, id) == TimesAsked(events, id)
  {
    hide Run, Enabled, Asked;
    if events != [] { ReceivedWasAsked(events[..|events| - 1], id); }
  }

  lemma StepAccepts(s: State, e: Event)
    requires Enabled(s, e)
    ensures Next(s, e).past.accepted == s.past.accepted + CallIn(e)
  {
    hide Parse, Start;
    assert s.past.accepted + [] == s.past.accepted;
    StartKeepsAsked(React(s, e));
  }

  /** The session owes an answer to exactly the requests it took in, and queues exactly the calls among them. */
  lemma {:induction false} OwesWhatItReceived(events: seq<Event>, id: Json)
    ensures Run(events).past.owed[id] == Received(events, id)
    ensures Run(events).past.accepted == ReceivedCalls(events)
    ensures Count(ReceivedCalls(events), Is(id)) <= Received(events, id)
  {
    if events == [] {
      StartKeepsAsked(INITIAL);
    } else {
      var s, e := Run(events[..|events| - 1]), events[|events| - 1];
      OwesWhatItReceived(events[..|events| - 1], id);
      if Enabled(s, e) {
        hide Next, Enabled, Parse;
        StepOwes(s, e);
        StepAccepts(s, e);
        CountConcat(s.past.accepted, CallIn(e), Is(id));
        OneCall(e, id);
      } else {
        assert ReceivedCalls(events[..|events| - 1]) + [] == ReceivedCalls(events[..|events| - 1]);
      }
    }
  }

  lemma OneCall(e: Event, id: Json)
    ensures Count(CallIn(e), Is(id)) <= if Asked(e) == Some(id) then 1 else 0
  {
  }

  /**
   * A request whose id no other request of the run carries: it is never answered twice; until the session fails,
   * once taken in it is in exactly one of queue, active set and answers; and when `serve` returns Ok a tool call
   * that was taken in has its answer, as has every request of a run in which each event could happen.
   */
  lemma ExactlyOneAnswer(events: seq<Event>, id: Json)
    requires TimesAsked(events, id) <= 1
    ensures var s := Run(events);
            var answers := Count(s.written, AnswerTo(id));
            && answers <= Received(events, id) <= 1
            && (s.outcome != ReturnedErr ==>
                  Count(s.queue, QueuedAs(id)) + Count(s.active, ActiveAs(id)) + answers == Received(events, id))
            && (s.outcome == ReturnedOk && id in ReceivedCalls(events) ==> answers == 1)
            && (s.outcome == ReturnedOk && EachHappens(events) ==> answers == TimesAsked(events, id))
  {
    AnswersAreConserved(events, id);
    OwesWhatItReceived(events, id);
    ReceivedWasAsked(events, id);
    NeverIdle(events);
    CountNone(ReceivedCalls(events), Is(id));
  }

  /** In a session that returned Ok, what an id was answered and what cancellations swallowed make up what was received. */
  lemma AnsweredIffNotSwallowed(events: seq<Event>, id: Json)
    requires Run(events).outcome == ReturnedOk
    ensures var s := Run(events);
            Count(s.written, AnswerTo(id)) + s.past.swallowed[id] == Received(events, id)
  {
    NeverIdle(events);
    AnswersAreConserved(events, id);
    OwesWhatItReceived(events, id);
  }

  // ---- Each result answers its own call ----

  /** Calls, tasks and completions all carry the id their call arrived with. */
  ghost predicate Matched(s: State)
  {
    && (forall c | c in s.queue :: c.number < |s.past.accepted| && s.past.accepted[c.number] == c.id)
    && (forall c | c in s.active :: c.number < |s.past.accepted| && s.past.accepted[c.number] == c.id)
    && (forall c | c in s.tasks :: c.number < |s.past.accepted| && s.past.accepted[c.number] == c.id)
    && (forall c | c in s.channel :: c.number < |s.past.accepted| && s.past.accepted[c.number] == c.id)
    && (forall d | d in s.past.delivered ::
          d.0 < |s.past.accepted| && d.1 < |s.past.accepted| && s.past.accepted[d.0] == s.past.accepted[d.1])
  }

  lemma {:induction false} StartMatches(s: State)
    requires Matched(s)
    ensures Matched(Start(s))
    decreases |s.queue|
  {
    if |s.active| < MAX_CONCURRENT_TOOL_CALLS && s.queue != [] { StartMatches(StartOne(s)); }
  }

  lemma SwapRemoveMembers<T>(s: seq<T>, i: nat)
    requires i < |s|
    ensures forall x | x in SwapRemove(s, i) :: x in s
  {
  }

  lemma {:induction false} WithoutMembers(q: seq<QueuedCall>, id: Json)
    ensures forall c | c in Without(q, id) :: c in q
  {
    if q != [] { WithoutMembers(q[1..], id); }
  }

  lemma CancelMatches(s: State, id: Json, sinkOk: bool)
    requires Matched(s)
    ensures Matched(Cancel(s, id, sinkOk))
  {
    hide Without, Position, SwapRemove, Abort, QueuedUnder;
    WithoutMembers(s.queue, id);
    match Position(s.active, id) {
      case None =>
      case Some(i) =>
        SwapRemoveMembers(s.active, i);
        AbortMembers(s.tasks, s.active[i].number);
    }
  }

  lemma AbortMembers(tasks: seq<Task>, number: nat)
    ensures |Abort(tasks, number)| == |tasks|
    ensures forall t | t in Abort(tasks, number) :: exists u | u in tasks :: u.(aborted := t.aborted) == t
  {
    forall t | t in Abort(tasks, number) ensures exists u | u in tasks :: u.(aborted := t.aborted) == t {
      var i :| 0 <= i < |tasks| && Abort(tasks, number)[i] == t;
      assert tasks[i] in tasks;
    }
  }

  lemma TakeMatches(s: State, sinkOk: bool)
    requires Matched(s) && s.channel != []
    ensures Matched(Take(s, sinkOk))
  {
    var c := s.channel[0];
    assert c in s.channel;
    match Position(s.active, c.id) {
      case None =>
      case Some(i) =>
        SwapRemoveMembers(s.active, i);
        assert s.active[i] in s.active;
    }
  }

  lemma HandleMatches(s: State, request: Request, sinkOk: bool)
    requires Matched(s)
    ensures Matched(Handle(s, request, sinkOk))
  {
    if request.Cancellation? { CancelMatches(s, request.id, sinkOk); }
  }

  lemma StepMatches(s: State, e: Event)
    requires Enabled(s, e) && Matched(s)
    ensures Matched(Next(s, e))
  {
    hide Parse, Start, Handle;
    match e {
      case Message(m, sinkOk) => HandleMatches(s, Parse(m), sinkOk);
      case TakeCompletion(sinkOk) => TakeMatches(s, sinkOk);
      case TaskPosts(i, _) => assert s.tasks[i] in s.tasks;
      case _ =>
    }
    StartMatches(React(s, e));
  }

  lemma {:induction false} RunMatches(events: seq<Event>)
    ensures Matched(Run(events))
  {
    if events == [] {
      StartMatches(INITIAL);
    } else {
      var s, e := Run(events[..|events| - 1]), events[|events| - 1];
      RunMatches(events[..|events| - 1]);
      if Enabled(s, e) { StepMatches(s, e); }
    }
  }

  lemma SameIdSameCall(events: seq<Event>, a: nat, b: nat)
    requires var s := Run(events).past.accepted;
             a < |s| && b < |s| && s[a] == s[b] && TimesAsked(events, s[a]) <= 1
    ensures a == b
  {
    var s := Run(events).past.accepted;
    OwesWhatItReceived(events, s[a]);
    ReceivedWasAsked(events, s[a]);
    TwiceCounts(Run(events).past.accepted, a, b);
    TwiceCounts(Run(events).past.accepted, b, a);
  }

  lemma TwiceCounts(s: seq<Json>, a: nat, b: nat)
    requires a < |s| && b < |s| && s[a] == s[b]
    ensures a < b ==> Count(s, Is(s[a])) >= 2
  {
    CountAt(s, b, Is(s[a]));
    if a < b { CountAt(s[..b], a, Is(s[a])); }
  }

  /** A result written under an id that was asked once is the result of that very call. */
  lemma ResultsAnswerTheirOwnCall(events: seq<Event>, k: nat)
    requires k < |Run(events).past.delivered|
    ensures var s := Run(events).past;
            var (call, task) := s.delivered[k];
            && call < |s.accepted|
            && (TimesAsked(events, s.accepted[call]) <= 1 ==> call == task)
  {
    RunMatches(events);
    var s := Run(events).past;
    assert s.delivered[k] in s.delivered;
    if TimesAsked(events, s.accepted[s.delivered[k].0]) <= 1 {
      SameIdSameCall(events, s.delivered[k].0, s.delivered[k].1);
    }
  }

  /** A completion posted by a task whose call was cancelled meanwhile writes nothing. */
  lemma StaleCompletionWritesNothing(events: seq<Event>, sinkOk: bool)
    requires var s := Run(events);
             s.channel != [] && TimesAsked(events, s.channel[0].id) <= 1
             && forall c | c in s.active :: c.number != s.channel[0].number
    ensures var s := Run(events);
            Take(s, sinkOk).written == s.written && Take(s, sinkOk).active == s.active
  {
    var s := Run(events);
    RunMatches(events);
    assert s.channel[0] in s.channel;
    match Position(s.active, s.channel[0].id) {
      case None =>
      case Some(i) =>
        assert s.active[i] in s.active;
        SameIdSameCall(events, s.active[i].number, s.channel[0].number);
    }
  }
}
