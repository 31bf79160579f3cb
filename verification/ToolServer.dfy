/** The MCP tool-call scheduler (agent_mcp.rs): the event loop of `serve`, its FIFO queue, its
    four-call limit, the completion channel and cancellation. */
module ToolServer {
  import opened JsonValue
  import opened Wrappers
  import Utf8

  const MAX_CONCURRENT_TOOL_CALLS := 4
  const MCP_PROTOCOL_VERSION := "2025-11-25"

  /** `number` is the call's place in arrival order; no branch reads it. */
  datatype QueuedCall = QueuedCall(id: Json, params: Json, number: nat)

  datatype ActiveCall = ActiveCall(id: Json, number: nat)

  /** A spawned task that has not posted yet. An aborted one may still post before it stops. */
  datatype Task = Task(id: Json, number: nat, params: Json, aborted: bool)

  datatype Completion = Completion(id: Json, number: nat, result: Json)

  datatype Body =
    | ToolResult(result: Json)
    | Initialized(protocolVersion: string)
    | Pong
    | Tools
    | Error(code: int, message: string)

  datatype Response = Response(id: Json, body: Body)

  datatype Outcome = Running | ReturnedOk | ReturnedErr

  /** What happened so far. It is written by the steps and read by none of them. */
  datatype History = History(
    accepted: seq<Json>,           // ids of the tool calls, in arrival order
    owed: multiset<Json>,          // ids of all requests that call for a response
    swallowed: multiset<Json>,     // owed ids a cancellation removed without a response of their own
    started: seq<nat>,             // numbers of the calls started, in starting order
    dropped: set<nat>,             // numbers of the calls cancelled while queued
    delivered: seq<(nat, nat)>     // (number of the call answered, number of the task whose result was sent)
  )

  datatype State = State(
    queue: seq<QueuedCall>,
    active: seq<ActiveCall>,
    inputClosed: bool,
    outcome: Outcome,
    tasks: seq<Task>,
    channel: seq<Completion>,
    written: seq<Response>,
    past: History
  )

  const INITIAL: State :=
    State([], [], false, Running, [], [], [], History([], multiset{}, multiset{}, [], {}, []))

  // ---- One step ----

  /** What `select!` or a task may do next. `sinkOk` says whether a write in this step succeeds. */
  datatype Event =
    | Message(message: Json, sinkOk: bool)
    | ParseError(sinkOk: bool)
    | ReadError
    | Eof
    | TakeCompletion(sinkOk: bool)
    | TaskPosts(index: nat, result: Json)
    | TaskStops(index: nat)

  predicate Enabled(s: State, e: Event)
  {
    && s.outcome == Running
    && match e
       case TakeCompletion(_) => s.active != [] && s.channel != []
       case TaskPosts(i, _) => i < |s.tasks|
       case TaskStops(i) => i < |s.tasks| && s.tasks[i].aborted
       case _ => !s.inputClosed
  }

  function Emit(s: State, r: Response, sinkOk: bool): State
  {
    if sinkOk then s.(written := s.written + [r]) else s.(outcome := ReturnedErr)
  }

  /** `Vec::swap_remove`: the last element takes the place of the removed one. */
  function SwapRemove<T>(s: seq<T>, i: nat): (r: seq<T>)
    requires i < |s|
    ensures |r| == |s| - 1
  {
    s[i := s[|s| - 1]][..|s| - 1]
  }

  function Position(active: seq<ActiveCall>, id: Json): (r: Option<nat>)
    ensures r.Some? ==> r.value < |active| && active[r.value].id == id
    ensures r.Some? ==> forall i | 0 <= i < r.value :: active[i].id != id
    ensures r.None? ==> forall c | c in active :: c.id != id
  {
    if active == [] then None
    else if active[0].id == id then Some(0)
    else match Position(active[1..], id)
      case None => None
      case Some(i) => Some(i + 1)
  }

  /** `VecDeque::retain`: the calls under other ids, in their order. */
  function Without(queue: seq<QueuedCall>, id: Json): (r: seq<QueuedCall>)
    ensures |r| <= |queue|
  {
    if queue == [] then []
    else (if queue[0].id == id then [] else [queue[0]]) + Without(queue[1..], id)
  }

  predicate InQueue(queue: seq<QueuedCall>, id: Json)
  {
    queue != [] && (queue[0].id == id || InQueue(queue[1..], id))
  }

  lemma {:induction false} WithoutShortens(queue: seq<QueuedCall>, id: Json)
    ensures |Without(queue, id)| < |queue| <==> InQueue(queue, id)
  {
    if queue != [] { WithoutShortens(queue[1..], id); }
  }

  function Numbers(queue: seq<QueuedCall>): seq<nat>
  {
    if queue == [] then [] else [queue[0].number] + Numbers(queue[1..])
  }

  function Abort(tasks: seq<Task>, number: nat): seq<Task>
  {
    seq(|tasks|, i requires 0 <= i < |tasks| =>
      if tasks[i].number == number then tasks[i].(aborted := true) else tasks[i])
  }

  /** `start_tool_calls`: spawn queued calls, oldest first, up to the limit. */
  function Start(s: State): State
    decreases |s.queue|
  {
    if |s.active| >= MAX_CONCURRENT_TOOL_CALLS || s.queue == [] then s else Start(StartOne(s))
  }

  function StartOne(s: State): State
    requires s.queue != []
  {
    var call := s.queue[0];
    s.(queue := s.queue[1..],
       active := s.active + [ActiveCall(call.id, call.number)],
       tasks := s.tasks + [Task(call.id, call.number, call.params, false)],
       past := s.past.(started := s.past.started + [call.number]))
  }

  /** The top of the loop: start what can start, then return once the input is closed and drained. */
  function Top(s: State): State
  {
    var t := Start(s);
    if t.inputClosed && t.active == [] && t.queue == [] then t.(outcome := ReturnedOk) else t
  }

  function Accept(s: State, id: Json, params: Json): State
  {
    s.(queue := s.queue + [QueuedCall(id, params, |s.past.accepted|)],
       past := s.past.(accepted := s.past.accepted + [id], owed := s.past.owed + multiset{id}))
  }

  function Reply(s: State, id: Json, body: Body, sinkOk: bool): State
  {
    Emit(s.(past := s.past.(owed := s.past.owed + multiset{id})), Response(id, body), sinkOk)
  }

  function QueuedUnder(queue: seq<QueuedCall>, id: Json): set<nat>
  {
    if queue == [] then {}
    else (if queue[0].id == id then {queue[0].number} else {}) + QueuedUnder(queue[1..], id)
  }

  function DropQueued(s: State, id: Json): State
  {
    s.(queue := Without(s.queue, id), past := s.past.(dropped := s.past.dropped + QueuedUnder(s.queue, id)))
  }

  function StopActive(s: State, id: Json): State
  {
    match Position(s.active, id)
    case None => s
    case Some(i) => s.(active := SwapRemove(s.active, i), tasks := Abort(s.tasks, s.active[i].number))
  }

  function Swallow(s: State, id: Json, count: nat): State
  {
    s.(past := s.past.(swallowed := s.past.swallowed[id := s.past.swallowed[id] + count]))
  }

  const PARSE_ERROR := Error(-32700, "invalid JSON-RPC message")

  const CANCELLED := Error(-32800, "request cancelled")

  /** How many calls a cancellation takes away. */
  function Removed(s: State, id: Json): nat
  {
    |s.queue| - |Without(s.queue, id)| + if Position(s.active, id).Some? then 1 else 0
  }

  /** `notifications/cancelled`: every queued call and the first active call under the id go;
      one error answers them all. */
  function Cancel(s: State, id: Json, sinkOk: bool): State
  {
    var t := StopActive(DropQueued(s, id), id);
    if Removed(s, id) == 0 then t else Emit(Swallow(t, id, Removed(s, id) - 1), Response(id, CANCELLED), sinkOk)
  }

  function ProtocolVersion(params: Json): string
  {
    match Get(params, "protocolVersion")
    case Some(String(v)) => if v != "" && |Utf8.Encode(v)| <= 32 then v else MCP_PROTOCOL_VERSION
    case _ => MCP_PROTOCOL_VERSION
  }

  /** What a message asks of the server. */
  datatype Request =
    | Nothing
    | ToolCall(id: Json, params: Json)
    | Cancellation(id: Json)
    | Question(id: Json, body: Body)    // answered at once, with this body

  function Ask(id: Option<Json>, body: Body): Request
  {
    match id case Some(id) => Question(id, body) case None => Nothing
  }

  function Parse(message: Json): Request
  {
    var id := Get(message, "id");
    var params := match Get(message, "params") case Some(p) => p case None => Object([]);
    match Get(message, "method")
    case Some(String(verb)) =>
      if verb == "tools/call" then (match id case Some(id) => ToolCall(id, params) case None => Nothing)
      else if verb == "notifications/cancelled" then
        (match Get(params, "requestId") case Some(r) => Cancellation(r) case None => Nothing)
      else if verb == "initialize" then Ask(id, Initialized(ProtocolVersion(params)))
      else if verb == "notifications/initialized" then Nothing
      else if verb == "ping" then Ask(id, Pong)
      else if verb == "tools/list" then Ask(id, Tools)
      else Ask(id, Error(-32601, "method not found"))
    case _ => Nothing
  }

  function Handle(s: State, request: Request, sinkOk: bool): State
  {
    match request
    case Nothing => s
    case ToolCall(id, params) => Accept(s, id, params)
    case Cancellation(id) => Cancel(s, id, sinkOk)
    case Question(id, body) => Reply(s, id, body, sinkOk)
  }

  /** A completion answers the first active call with its id; without one it is discarded. */
  function Take(s: State, sinkOk: bool): State
    requires s.channel != []
  {
    var c := s.channel[0];
    var t := s.(channel := s.channel[1..]);
    match Position(s.active, c.id)
    case None => t
    case Some(i) =>
      Emit(t.(active := SwapRemove(s.active, i),
              past := s.past.(delivered := s.past.delivered + [(s.active[i].number, c.number)])),
           Response(c.id, ToolResult(c.result)), sinkOk)
  }

  /** A failed reader stops every active call, first to last. */
  function Drain(s: State): (t: State)
    ensures t == s.(active := [], tasks := t.tasks) && |t.tasks| == |s.tasks|
    ensures forall i | 0 <= i < |t.tasks| :: t.tasks[i].(aborted := s.tasks[i].aborted) == s.tasks[i]
    decreases |s.active|
  {
    if s.active == [] then s
    else Drain(s.(active := s.active[1..], tasks := Abort(s.tasks, s.active[0].number)))
  }

  function React(s: State, e: Event): State
    requires Enabled(s, e)
  {
    match e
    case Message(m, sinkOk) => Handle(s, Parse(m), sinkOk)
    case ParseError(sinkOk) => Reply(s, Null, PARSE_ERROR, sinkOk)
    case ReadError => Drain(s).(outcome := ReturnedErr)
    case Eof => s.(inputClosed := true)
    case TakeCompletion(sinkOk) => Take(s, sinkOk)
    case TaskPosts(i, result) =>
      s.(tasks := s.tasks[..i] + s.tasks[i + 1..],
         channel := s.channel + [Completion(s.tasks[i].id, s.tasks[i].number, result)])
    case TaskStops(i) => s.(tasks := s.tasks[..i] + s.tasks[i + 1..])
  }

  function Next(s: State, e: Event): State
    requires Enabled(s, e)
  {
    var t := React(s, e);
    if t.outcome == Running then Top(t) else t
  }

  /** The state after a run: events that are not possible when their turn comes do not happen. */
  function Run(events: seq<Event>): State
  {
    if events == [] then Top(INITIAL)
    else
      var s := Run(events[..|events| - 1]);
      var e := events[|events| - 1];
      if Enabled(s, e) then Next(s, e) else s
  }

  // ---- The server object ----

  /** `serve`'s locals and the runtime around them. Each method is one step of the loop. */
  class Server {
    var queue: seq<QueuedCall>
    var active: seq<ActiveCall>
    var inputClosed: bool
    var outcome: Outcome
    var tasks: seq<Task>
    var channel: seq<Completion>
    var written: seq<Response>
    var past: History

    function Model(): State
      reads this
    {
      State(queue, active, inputClosed, outcome, tasks, channel, written, past)
    }

    constructor ()
      ensures Model() == INITIAL
    {
      queue, active, inputClosed, outcome := [], [], false, Running;
      tasks, channel, written := [], [], [];
      past := INITIAL.past;
    }

    method StartToolCalls()
      modifies this
      ensures Model() == Start(old(Model()))
    {
      while |active| < MAX_CONCURRENT_TOOL_CALLS && queue != []
        invariant Start(Model()) == Start(old(Model()))
        decreases |queue|
      {
        var call := queue[0];
        queue := queue[1..];
        tasks := tasks + [Task(call.id, call.number, call.params, false)];
        active := active + [ActiveCall(call.id, call.number)];
        past := past.(started := past.started + [call.number]);
      }
    }

    method WriteResponse(r: Response, sinkOk: bool)
      modifies this`written, this`outcome
      ensures Model() == Emit(old(Model()), r, sinkOk)
    {
      if sinkOk {
        written := written + [r];
      } else {
        outcome := ReturnedErr;
      }
    }

    method FindActive(id: Json) returns (index: Option<nat>)
      ensures index == Position(active, id)
    {
      var i := 0;
      while i < |active|
        invariant i <= |active|
        invariant Position(active, id) == match Position(active[i..], id) case None => None case Some(k) => Some(i + k)
      {
        if active[i].id == id {
          return Some(i);
        }
        assert active[i..][1..] == active[i + 1..];
        i := i + 1;
      }
      assert active[i..] == [];
      return None;
    }

    method DropQueuedCalls(id: Json) returns (count: nat)
      modifies this
      ensures Model() == DropQueued(old(Model()), id)
      ensures count == |old(queue)| - |queue|
    {
      var kept := Without(queue, id);
      past := past.(dropped := past.dropped + QueuedUnder(queue, id));
      count := |queue| - |kept|;
      queue := kept;
    }

    method StopActiveCall(id: Json) returns (stopped: bool)
      modifies this
      ensures Model() == StopActive(old(Model()), id)
      ensures stopped <==> Position(old(active), id).Some?
    {
      var index := FindActive(id);
      stopped := index.Some?;
      if stopped {
        tasks := Abort(tasks, active[index.value].number);
        active := SwapRemove(active, index.value);
      }
    }

    method RemoveCalls(id: Json) returns (cancelled: bool, removed: nat)
      modifies this
      ensures Model() == StopActive(DropQueued(old(Model()), id), id)
      ensures removed == Removed(old(Model()), id) && (cancelled <==> removed > 0)
    {
      cancelled := InQueue(queue, id);
      WithoutShortens(queue, id);
      removed := DropQueuedCalls(id);
      var stopped := StopActiveCall(id);
      if stopped {
        cancelled, removed := true, removed + 1;
      }
    }

    method HandleCancelled(id: Json, sinkOk: bool)
      modifies this
      ensures Model() == Cancel(old(Model()), id, sinkOk)
    {
      var cancelled, removed := RemoveCalls(id);
      if cancelled {
        past := past.(swallowed := past.swallowed[id := past.swallowed[id] + (removed - 1)]);
        WriteResponse(Response(id, CANCELLED), sinkOk);
      }
    }

    method Answer(id: Json, body: Body, sinkOk: bool)
      modifies this
      ensures Model() == Reply(old(Model()), id, body, sinkOk)
    {
      past := past.(owed := past.owed + multiset{id});
      WriteResponse(Response(id, body), sinkOk);
    }

    method AnswerIfAsked(id: Option<Json>, body: Body, sinkOk: bool)
      modifies this
      ensures Model() == Handle(old(Model()), Ask(id, body), sinkOk)
    {
      if id.Some? {
        Answer(id.value, body, sinkOk);
      }
    }

    method HandleReaderMessage(message: Json, sinkOk: bool)
      modifies this
      ensures Model() == Handle(old(Model()), Parse(message), sinkOk)
    {
      hide Lookup, Cancel, ProtocolVersion, Ask;
      if !message.Object? {
        return;
      }
      var id, method_ := Get(message, "id"), Get(message, "method");
      if method_.None? || !method_.value.String? {
        return;
      }
      var given := Get(message, "params");
      var params := if given.Some? then given.value else Object([]);
      match method_.value.text {
        case "tools/call" =>
          if id.Some? {
            queue := queue + [QueuedCall(id.value, params, |past.accepted|)];
            past := past.(accepted := past.accepted + [id.value], owed := past.owed + multiset{id.value});
          }
        case "notifications/cancelled" =>
          var requestId := Get(params, "requestId");
          if requestId.Some? {
            HandleCancelled(requestId.value, sinkOk);
          }
        case "initialize" => AnswerIfAsked(id, Initialized(ProtocolVersion(params)), sinkOk);
        case "notifications/initialized" =>
        case "ping" => AnswerIfAsked(id, Pong, sinkOk);
        case "tools/list" => AnswerIfAsked(id, Tools, sinkOk);
        case _ => AnswerIfAsked(id, Error(-32601, "method not found"), sinkOk);
      }
    }

    method TakeCompletion(sinkOk: bool)
      requires channel != []
      modifies this
      ensures Model() == Take(old(Model()), sinkOk)
    {
      var completion := channel[0];
      channel := channel[1..];
      var index := FindActive(completion.id);
      if index.Some? {
        past := past.(delivered := past.delivered + [(active[index.value].number, completion.number)]);
        active := SwapRemove(active, index.value);
        WriteResponse(Response(completion.id, ToolResult(completion.result)), sinkOk);
      }
    }

    method StopAll()
      modifies this
      ensures Model() == Drain(old(Model()))
    {
      while active != []
        invariant Drain(Model()) == Drain(old(Model()))
        decreases |active|
      {
        tasks := Abort(tasks, active[0].number);
        active := active[1..];
      }
    }

    /** One turn of `select!`, or one step of a task, with the start of the next turn. */
    method Step(e: Event)
      requires Enabled(Model(), e)
      modifies this
      ensures Model() == Next(old(Model()), e)
    {
      match e {
        case Message(message, sinkOk) => HandleReaderMessage(message, sinkOk);
        case ParseError(sinkOk) => Answer(Null, PARSE_ERROR, sinkOk);
        case ReadError =>
          StopAll();
          outcome := ReturnedErr;
        case Eof => inputClosed := true;
        case TakeCompletion(sinkOk) => TakeCompletion(sinkOk);
        case TaskPosts(i, result) =>
          channel := channel + [Completion(tasks[i].id, tasks[i].number, result)];
          tasks := tasks[..i] + tasks[i + 1..];
        case TaskStops(i) => tasks := tasks[..i] + tasks[i + 1..];
      }
      if outcome == Running {
        TopOfLoop();
      }
    }

    method TopOfLoop()
      modifies this
      ensures Model() == Top(old(Model()))
    {
      StartToolCalls();
      if inputClosed && active == [] && queue == [] {
        outcome := ReturnedOk;
      }
    }

    /** `serve` under a given schedule of what happens. */
    method Serve(schedule: seq<Event>)
      requires Model() == INITIAL
      modifies this
      ensures Model() == Run(schedule)
    {
      TopOfLoop();
      for i := 0 to |schedule|
        invariant Model() == Run(schedule[..i])
      {
        assert schedule[..i + 1][..i] == schedule[..i];
        if Enabled(Model(), schedule[i]) {
          Step(schedule[i]);
        }
      }
      assert schedule[..|schedule|] == schedule;
    }
  }
}
