/** What the scheduler keeps over every run: no answer is lost or doubled, calls start in
    arrival order, and a closed session drains. */
module ToolServerLaws {
  import opened JsonValue
  import opened ToolServer

  // ---- How often an id stands in each place ----

  function Count<T>(s: seq<T>, p: T -> bool): nat
  {
    if s == [] then 0 else (if p(s[0]) then 1 else 0) + Count(s[1..], p)
  }

  lemma {:induction false} CountConcat<T>(s: seq<T>, t: seq<T>, p: T -> bool)
    ensures Count(s + t, p) == Count(s, p) + Count(t, p)
  {
    if s == [] {
      assert s + t == t;
    } else {
      assert (s + t)[1..] == s[1..] + t;
      CountConcat(s[1..], t, p);
    }
  }

  lemma CountAt<T>(s: seq<T>, i: nat, p: T -> bool)
    requires i < |s|
    ensures Count(s, p) == Count(s[..i], p) + (if p(s[i]) then 1 else 0) + Count(s[i + 1..], p)
  {
    assert s == s[..i] + s[i..];
    CountConcat(s[..i], s[i..], p);
    assert s[i..][1..] == s[i + 1..];
  }

  lemma CountRemove<T>(s: seq<T>, i: nat, p: T -> bool)
    requires i < |s|
    ensures Count(s[..i] + s[i + 1..], p) == Count(s, p) - if p(s[i]) then 1 else 0
  {
    CountAt(s, i, p);
    CountConcat(s[..i], s[i + 1..], p);
  }

  lemma {:induction false} CountUpdate<T>(s: seq<T>, i: nat, x: T, p: T -> bool)
    requires i < |s|
    ensures Count(s[i := x], p) == Count(s, p) - (if p(s[i]) then 1 else 0) + if p(x) then 1 else 0
  {
    if i == 0 {
      assert s[0 := x][1..] == s[1..];
    } else {
      assert s[i := x][1..] == s[1..][i - 1 := x];
      CountUpdate(s[1..], i - 1, x, p);
    }
  }

  lemma CountLast<T>(s: seq<T>, p: T -> bool)
    requires s != []
    ensures Count(s, p) == Count(s[..|s| - 1], p) + if p(s[|s| - 1]) then 1 else 0
  {
    assert s == s[..|s| - 1] + [s[|s| - 1]];
    CountConcat(s[..|s| - 1], [s[|s| - 1]], p);
  }

  lemma CountSwapRemove<T>(s: seq<T>, i: nat, p: T -> bool)
    requires i < |s|
    ensures Count(SwapRemove(s, i), p) == Count(s, p) - if p(s[i]) then 1 else 0
  {
    hide Count;
    var last := s[|s| - 1];
    var t := s[i := last];
    assert |t| == |s| && t[|s| - 1] == last;
    CountUpdate(s, i, last, p);
    CountLast(t, p);
  }

  lemma {:induction false} CountNone<T>(s: seq<T>, p: T -> bool)
    ensures Count(s, p) == 0 <==> forall x | x in s :: !p(x)
  {
    if s != [] { CountNone(s[1..], p); }
  }

  function QueuedAs(id: Json): QueuedCall -> bool { (c: QueuedCall) => c.id == id }

  function ActiveAs(id: Json): ActiveCall -> bool { (c: ActiveCall) => c.id == id }

  function AnswerTo(id: Json): Response -> bool { (r: Response) => r.id == id }

  function PostedAs(id: Json): Completion -> bool { (c: Completion) => c.id == id }

  /** A task that is sure to post: one that was not aborted. */
  function LiveAs(id: Json): Task -> bool { (t: Task) => t.id == id && !t.aborted }

  // ---- Every owed answer is in exactly one place ----

  function Held(s: State, id: Json): nat
  {
    Count(s.queue, QueuedAs(id)) + Count(s.active, ActiveAs(id)) + Count(s.written, AnswerTo(id)) + s.past.swallowed[id]
  }

  predicate ConservedAt(s: State, id: Json)
  {
    && Held(s, id) <= s.past.owed[id]
    && (s.outcome != ReturnedErr ==> Held(s, id) == s.past.owed[id])
    && (s.past.swallowed[id] > 0 ==> s.past.owed[id] >= 2)
  }

  lemma {:induction false} StartConserves(s: State, id: Json)
    requires ConservedAt(s, id)
    ensures ConservedAt(Start(s), id) && Start(s).outcome == s.outcome
    decreases |s.queue|
  {
    if |s.active| < MAX_CONCURRENT_TOOL_CALLS && s.queue != [] {
      var call := s.queue[0];
      CountConcat(s.active, [ActiveCall(call.id, call.number)], ActiveAs(id));
      StartConserves(StartOne(s), id);
    }
  }

  lemma EmitConserves(s: State, r: Response, sinkOk: bool, id: Json)
    requires Held(s, id) + (if r.id == id then 1 else 0) == s.past.owed[id]
    requires s.past.swallowed[id] > 0 ==> s.past.owed[id] >= 2
    ensures ConservedAt(Emit(s, r, sinkOk), id)
  {
    CountConcat(s.written, [r], AnswerTo(id));
  }

  lemma {:induction false} WithoutCounts(q: seq<QueuedCall>, id: Json, other: Json)
    ensures Count(Without(q, id), QueuedAs(other)) == if other == id then 0 else Count(q, QueuedAs(other))
    ensures |q| - |Without(q, id)| == Count(q, QueuedAs(id))
  {
    if q != [] {
      WithoutCounts(q[1..], id, other);
      var rest := Without(q[1..], id);
      assert ([q[0]] + rest)[1..] == rest && [] + rest == rest;
    }
  }

  lemma RemovedCounts(s: State, id: Json, other: Json)
    ensures Held(s, other) == Held(StopActive(DropQueued(s, id), id), other) + if other == id then Removed(s, id) else 0
  {
    WithoutCounts(s.queue, id, other);
    if Position(s.active, id).Some? {
      CountSwapRemove(s.active, Position(s.active, id).value, ActiveAs(other));
    }
  }

  lemma CancelConserves(s: State, id: Json, sinkOk: bool, other: Json)
    requires ConservedAt(s, other) && s.outcome == Running
    ensures ConservedAt(Cancel(s, id, sinkOk), other)
  {
    var t, n := StopActive(DropQueued(s, id), id), Removed(s, id);
    RemovedCounts(s, id, other);
    if n > 0 {
      EmitConserves(Swallow(t, id, n - 1), Response(id, CANCELLED), sinkOk, other);
    }
  }

  lemma TakeConserves(s: State, sinkOk: bool, id: Json)
    requires ConservedAt(s, id) && s.outcome == Running && s.channel != []
    ensures ConservedAt(Take(s, sinkOk), id)
  {
    var c := s.channel[0];
    if Position(s.active, c.id).Some? {
      var i := Position(s.active, c.id).value;
      CountSwapRemove(s.active, i, ActiveAs(id));
      var t := s.(channel := s.channel[1..], active := SwapRemove(s.active, i),
                  past := s.past.(delivered := s.past.delivered + [(s.active[i].number, c.number)]));
      EmitConserves(t, Response(c.id, ToolResult(c.result)), sinkOk, id);
    }
  }

  lemma ReplyConserves(s: State, id: Json, body: Body, sinkOk: bool, other: Json)
    requires ConservedAt(s, other) && s.outcome == Running
    ensures ConservedAt(Reply(s, id, body, sinkOk), other)
  {
    EmitConserves(s.(past := s.past.(owed := s.past.owed + multiset{id})), Response(id, body), sinkOk, other);
  }

  lemma HandleConserves(s: State, request: Request, sinkOk: bool, other: Json)
    requires ConservedAt(s, other) && s.outcome == Running
    ensures ConservedAt(Handle(s, request, sinkOk), other)
  {
    match request {
      case Nothing =>
      case ToolCall(id, params) => CountConcat(s.queue, [QueuedCall(id, params, |s.past.accepted|)], QueuedAs(other));
      case Cancellation(id) => CancelConserves(s, id, sinkOk, other);
      case Question(id, body) => ReplyConserves(s, id, body, sinkOk, other);
    }
  }

  lemma NextConserves(s: State, e: Event, id: Json)
    requires ConservedAt(s, id) && Enabled(s, e)
    ensures ConservedAt(Next(s, e), id)
  {
    match e {
      case Message(m, sinkOk) => HandleConserves(s, Parse(m), sinkOk, id);
      case ParseError(sinkOk) => ReplyConserves(s, Null, PARSE_ERROR, sinkOk, id);
      case TakeCompletion(sinkOk) => TakeConserves(s, sinkOk, id);
      case _ =>
    }
    StartConserves(React(s, e), id);
  }

  /** Conservation of answers over every run, whatever ids the client chooses: each request that
      calls for a response is queued, active or answered, or was taken by a cancellation that
      found several calls under one id. Only a session that failed forgets any, and none is
      ever answered more often than it was asked. */
  lemma {:induction false} AnswersAreConserved(events: seq<Event>, id: Json)
    ensures ConservedAt(Run(events), id)
  {
    if events == [] {
      StartConserves(INITIAL, id);
    } else {
      var s, e := Run(events[..|events| - 1]), events[|events| - 1];
      AnswersAreConserved(events[..|events| - 1], id);
      if Enabled(s, e) { NextConserves(s, e, id); }
    }
  }
}
