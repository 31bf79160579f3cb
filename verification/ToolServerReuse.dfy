/** Clients that reuse ids: exactly when an answer is lost, and that it stays lost. */
module ToolServerReuse {
  import opened JsonValue
  import opened ToolServer
  import opened ToolServerLaws
  import opened ToolServerOrder
  import opened ToolServerRuns
  import opened Wrappers

  // ---- The cancellation that finds several calls ----

  /** A cancellation that finds more than one call under its id when it is handled. */
  predicate FindsSeveral(s: State, e: Event, id: Json)
  {
    Enabled(s, e) && e.Message? && Parse(e.message) == Cancellation(id) && Removed(s, id) >= 2
  }

  predicate FoundSeveral(events: seq<Event>, k: nat, id: Json)
  {
    k < |events| && FindsSeveral(Run(events[..k]), events[k], id)
  }

  lemma {:induction false} StartKeepsSwallowed(s: State)
    ensures Start(s).past.swallowed == s.past.swallowed
    decreases |s.queue|
  {
    if |s.active| < MAX_CONCURRENT_TOOL_CALLS && s.queue != [] { StartKeepsSwallowed(StartOne(s)); }
  }

  lemma CancelSwallows(s: State, id: Json, sinkOk: bool, other: Json)
    ensures Cancel(s, id, sinkOk).past.swallowed[other] >= s.past.swallowed[other]
    ensures Cancel(s, id, sinkOk).past.swallowed[other] > s.past.swallowed[other] <==> other == id && Removed(s, id) >= 2
  {
    hide Removed, DropQueued, StopActive;
    StoppingSwallowsNothing(s, id);
    var t := StopActive(DropQueued(s, id), id);
    assert Swallow(t, id, 0).past.swallowed[other] == t.past.swallowed[other];
  }

  lemma StoppingSwallowsNothing(s: State, id: Json)
    ensures StopActive(DropQueued(s, id), id).past.swallowed == s.past.swallowed
  {
    hide Position, Without, QueuedUnder, Abort, SwapRemove;
  }

  lemma HandleSwallows(s: State, request: Request, sinkOk: bool, id: Json)
    ensures var after := Handle(s, request, sinkOk).past.swallowed[id];
            && after >= s.past.swallowed[id]
            && (after > s.past.swallowed[id] <==> request == Cancellation(id) && Removed(s, id) >= 2)
  {
    hide Cancel, Removed;
    if request.Cancellation? { CancelSwallows(s, request.id, sinkOk, id); }
  }

  /** One step loses an answer under an id exactly if it is a cancellation that finds several calls. */
  lemma StepSwallows(s: State, e: Event, id: Json)
    requires Enabled(s, e)
    ensures var after := Next(s, e).past.swallowed[id];
            after >= s.past.swallowed[id] && (after > s.past.swallowed[id] <==> FindsSeveral(s, e, id))
  {
    hide Handle, Parse, Start, Removed;
    if e.Message? { HandleSwallows(s, Parse(e.message), e.sinkOk, id); }
    StartKeepsSwallowed(React(s, e));
  }

  lemma {:induction false} SwallowedIffFoundSeveral(events: seq<Event>, id: Json)
    ensures Run(events).past.swallowed[id] > 0 <==> exists k :: FoundSeveral(events, k, id)
  {
    if events == [] {
      StartKeepsSwallowed(INITIAL);
    } else {
      var n := |events| - 1;
      var before, e := events[..n], events[n];
      RunLast(events);
      NotEnabledFindsNothing(Run(before), e, id);
      hide Run, Next, FindsSeveral, Enabled, FoundSeveral;
      SwallowedIffFoundSeveral(before, id);
      if Enabled(Run(before), e) { StepSwallows(Run(before), e, id); }
      forall k: nat ensures FoundSeveral(events, k, id) <==>
                              FoundSeveral(before, k, id) || (k == n && FindsSeveral(Run(before), e, id)) {
        FoundEarlier(events, k, id);
      }
      if exists k :: FoundSeveral(before, k, id) {
        var k :| FoundSeveral(before, k, id);
        assert FoundSeveral(events, k, id);
      }
      if FindsSeveral(Run(before), e, id) { assert FoundSeveral(events, n, id); }
    }
  }

  lemma NotEnabledFindsNothing(s: State, e: Event, id: Json)
    ensures FindsSeveral(s, e, id) ==> Enabled(s, e)
  {
  }

  lemma FoundEarlier(events: seq<Event>, k: nat, id: Json)
    requires events != []
    ensures var n := |events| - 1;
            FoundSeveral(events, k, id) <==>
              FoundSeveral(events[..n], k, id) || (k == n && FindsSeveral(Run(events[..n]), events[n], id))
  {
    hide Run, FindsSeveral;
    var n := |events| - 1;
    if k < n { assert events[..n][..k] == events[..k] && events[..n][k] == events[k]; }
  }

  // ---- Who loses an answer ----

  /** A session that returned Ok answered an id as often as it was asked exactly if no cancellation found several. */
  lemma AnsweredIffNoneFoundSeveral(events: seq<Event>, id: Json)
    requires Run(events).outcome == ReturnedOk
    ensures Count(Run(events).written, AnswerTo(id)) == Received(events, id) <==> !exists k :: FoundSeveral(events, k, id)
  {
    AnsweredIffNotSwallowed(events, id);
    SwallowedIffFoundSeveral(events, id);
  }

  lemma {:induction false} SwallowedStays(events: seq<Event>, more: seq<Event>, id: Json)
    ensures Run(events + more).past.swallowed[id] >= Run(events).past.swallowed[id]
    decreases |more|
  {
    if more == [] {
      assert events + more == events;
    } else {
      var n := |more| - 1;
      SwallowedStays(events, more[..n], id);
      var all := events + more;
      assert all[..|all| - 1] == events + more[..n];
      if Enabled(Run(all[..|all| - 1]), more[n]) { StepSwallows(Run(all[..|all| - 1]), more[n], id); }
    }
  }

  /** An answer lost to such a cancellation stays lost, however the session goes on. */
  lemma LostForGood(events: seq<Event>, more: seq<Event>, k: nat, id: Json)
    requires FoundSeveral(events, k, id)
    ensures Count(Run(events + more).written, AnswerTo(id)) < Received(events + more, id)
  {
    hide FoundSeveral;
    SwallowedIffFoundSeveral(events, id);
    SwallowedStays(events, more, id);
    AnswersAreConserved(events + more, id);
    OwesWhatItReceived(events + more, id);
  }

  // ---- Every session can still end well ----

  /** A running session whose input has closed can go on to return Ok. */
  lemma {:induction false} ClosedSessionCanFinish(events: seq<Event>) returns (more: seq<Event>)
    requires Run(events).outcome == Running && Run(events).inputClosed
    ensures Run(events + more).outcome == ReturnedOk
    decreases StepsLeft(Run(events))
  {
    var e := GoodStep(events);
    var longer := events + [e];
    assert longer[..|events|] == events;
    StepSpends(Run(events), e);
    if Run(longer).outcome == Running {
      var rest := ClosedSessionCanFinish(longer);
      more := [e] + rest;
      assert events + more == longer + rest;
    } else {
      more := [e];
    }
  }

  lemma GoodStep(events: seq<Event>) returns (e: Event)
    requires Run(events).outcome == Running && Run(events).inputClosed
    ensures Enabled(Run(events), e) && Next(Run(events), e).outcome != ReturnedErr
  {
    ClosedSessionIsNeverStuck(events);
    hide Run, Start;
    var s := Run(events);
    e :| Enabled(s, e) && (e.TakeCompletion? || (e.TaskPosts? && !s.tasks[e.index].aborted));
    if e.TakeCompletion? { e := TakeCompletion(true); }
    StartKeepsOutcome(React(s, e));
  }

  lemma {:induction false} StartKeepsOutcome(s: State)
    ensures Start(s).outcome == s.outcome && Start(s).inputClosed == s.inputClosed
    decreases |s.queue|
  {
    if |s.active| < MAX_CONCURRENT_TOOL_CALLS && s.queue != [] { StartKeepsOutcome(StartOne(s)); }
  }

  /** Every running session can go on to return Ok: its input may close and its tasks may post. */
  lemma RunningSessionCanFinish(events: seq<Event>) returns (more: seq<Event>)
    requires Run(events).outcome == Running
    ensures Run(events + more).outcome == ReturnedOk
  {
    if Run(events).inputClosed {
      more := ClosedSessionCanFinish(events);
    } else {
      var longer := events + [Eof];
      assert longer[..|events|] == events;
      StartKeepsOutcome(React(Run(events), Eof));
      StartSpends(React(Run(events), Eof));
      if Run(longer).outcome == Running {
        var rest := ClosedSessionCanFinish(longer);
        more := [Eof] + rest;
        assert events + more == longer + rest;
      } else {
        more := [Eof];
      }
    }
  }

  // ---- What a client that reuses an id loses ----

  function CallMessage(id: Json): Json
  {
    Object([Field("method", String("tools/call")), Field("id", id)])
  }

  function CancelMessage(id: Json): Json
  {
    Object([Field("method", String("notifications/cancelled")), Field("params", Object([Field("requestId", id)]))])
  }

  lemma PairLookup(a: Field, b: Field)
    ensures Get(Object([a, b]), a.key) == Some(a.value)
    ensures a.key != b.key ==> Get(Object([a, b]), b.key) == Some(b.value)
  {
    assert [a, b][1..] == [b];
    assert Lookup([b], b.key) == Some(b.value);
  }

  lemma MessagesParse(id: Json)
    ensures Parse(CallMessage(id)).ToolCall? && Parse(CallMessage(id)).id == id
    ensures Parse(CancelMessage(id)) == Cancellation(id)
  {
    var verb, cancel := Field("method", String("tools/call")), Field("method", String("notifications/cancelled"));
    PairLookup(verb, Field("id", id));
    PairLookup(cancel, Field("params", Object([Field("requestId", id)])));
    assert "method" != "id" && "method" != "params";
    assert "tools/call"[0] != "notifications/cancelled"[0];
  }

  /** Only calls under `id` came in: `running` of them run, `waiting` wait, none is answered. */
  ghost predicate Holds(s: State, id: Json, running: nat, waiting: nat)
  {
    && s.outcome == Running && !s.inputClosed && s.written == []
    && |s.active| == running && (forall c | c in s.active :: c.id == id)
    && |s.queue| == waiting && (forall c | c in s.queue :: c.id == id)
    && s.past.owed[id] == running + waiting && s.past.swallowed[id] == 0
  }

  lemma CallComes(events: seq<Event>, id: Json, running: nat)
    requires Holds(Run(events), id, running, 0) && running <= MAX_CONCURRENT_TOOL_CALLS
    ensures Holds(Run(events + [Message(CallMessage(id), true)]), id,
                  if running < MAX_CONCURRENT_TOOL_CALLS then running + 1 else running,
                  if running < MAX_CONCURRENT_TOOL_CALLS then 0 else 1)
  {
    var s, call := Run(events), Message(CallMessage(id), true);
    assert (events + [call])[..|events|] == events;
    MessagesParse(id);
    var t := React(s, call);
    assert t == Accept(s, id, Parse(CallMessage(id)).params);
    if running < MAX_CONCURRENT_TOOL_CALLS {
      assert Start(t) == Start(StartOne(t)) == StartOne(t);
    } else {
      assert Start(t) == t;
    }
  }

  lemma CancelComes(events: seq<Event>, id: Json)
    requires Holds(Run(events), id, MAX_CONCURRENT_TOOL_CALLS, 1)
    ensures Run(events + [Message(CancelMessage(id), true)]).outcome == Running
    ensures FoundSeveral(events + [Message(CancelMessage(id), true)], |events|, id)
  {
    var s, cancel := Run(events), Message(CancelMessage(id), true);
    hide Run, Next, FindsSeveral, FoundSeveral;
    CancelSteps(s, id);
    StepFound(events, cancel, id);
  }

  lemma CancelSteps(s: State, id: Json)
    requires Holds(s, id, MAX_CONCURRENT_TOOL_CALLS, 1)
    ensures var cancel := Message(CancelMessage(id), true);
            FindsSeveral(s, cancel, id) && Next(s, cancel).outcome == Running
  {
    var cancel := Message(CancelMessage(id), true);
    hide Parse, Removed, Start, Cancel, CancelMessage;
    MessagesParse(id);
    CancelFindsTwo(s, id);
    assert React(s, cancel) == Cancel(s, id, true);
    StartKeepsOutcome(React(s, cancel));
  }

  lemma StepFound(events: seq<Event>, e: Event, id: Json)
    requires FindsSeveral(Run(events), e, id)
    ensures FoundSeveral(events + [e], |events|, id) && Run(events + [e]) == Next(Run(events), e)
  {
    var longer := events + [e];
    assert longer[..|longer| - 1] == events && longer[|events|] == e && longer[..|events|] == events;
    RunLast(longer);
    hide Run, Next, Parse, Removed;
  }

  lemma CancelFindsTwo(s: State, id: Json)
    requires Holds(s, id, MAX_CONCURRENT_TOOL_CALLS, 1)
    ensures Removed(s, id) == 2 && Cancel(s, id, true).outcome == Running && !Cancel(s, id, true).inputClosed
  {
    assert s.queue == [s.queue[0]] && s.queue[0] in s.queue && s.active[0] in s.active;
    assert Without(s.queue, id) == [];
    assert Position(s.active, id) == Some(0);
    hide Without, Position, QueuedUnder, Abort, SwapRemove;
  }

  /** Five calls under one id and then a cancellation of it. */
  function FiveCallsAndCancel(id: Json): seq<Event>
  {
    var call := Message(CallMessage(id), true);
    [call] + [call] + [call] + [call] + [call] + [Message(CancelMessage(id), true)]
  }

  lemma NothingHeld(id: Json)
    ensures Holds(Run([]), id, 0, 0)
  {
    StartKeepsAsked(INITIAL);
  }

  lemma FiveCallsFindSeveral(id: Json)
    ensures FoundSeveral(FiveCallsAndCancel(id), 5, id) && Run(FiveCallsAndCancel(id)).outcome == Running
  {
    var call := Message(CallMessage(id), true);
    NothingHeld(id);
    hide Run, Holds, FoundSeveral;
    assert [] + [call] == [call];
    CallComes([], id, 0);
    CallComes([call], id, 1);
    CallComes([call] + [call], id, 2);
    CallComes([call] + [call] + [call], id, 3);
    CallComes([call] + [call] + [call] + [call], id, 4);
    CancelComes([call] + [call] + [call] + [call] + [call], id);
  }

  /** Such a client can see the session return Ok with an answer missing, and in no continuation does it come. */
  lemma ReusedIdLosesAnAnswer(id: Json) returns (more: seq<Event>)
    ensures Run(FiveCallsAndCancel(id) + more).outcome == ReturnedOk
    ensures forall rest :: var all := FiveCallsAndCancel(id) + rest;
              Count(Run(all).written, AnswerTo(id)) < Received(all, id)
  {
    var start := FiveCallsAndCancel(id);
    FiveCallsFindSeveral(id);
    hide FiveCallsAndCancel, FoundSeveral, Run;
    more := RunningSessionCanFinish(start);
    forall rest ensures Count(Run(start + rest).written, AnswerTo(id)) < Received(start + rest, id) {
      LostForGood(start, rest, 5, id);
    }
  }
}
