/** Where each answer comes from: the task of the very call, or the message that asked for it. */
module ToolServerResults {
  import opened JsonValue
  import opened ToolServer
  import opened ToolServerRuns
  import opened Wrappers
  import Utf8

  // ---- The channel ----

  /** What the tasks posted, in order. */
  function Posts(events: seq<Event>): seq<Completion>
  {
    if events == [] then []
    else
      var n := |events| - 1;
      Posts(events[..n]) + if Enabled(Run(events[..n]), events[n]) then Posted(Run(events[..n]), events[n]) else []
  }

  function Posted(s: State, e: Event): seq<Completion>
    requires Enabled(s, e)
  {
    if e.TaskPosts? then [Completion(s.tasks[e.index].id, s.tasks[e.index].number, e.result)] else []
  }

  /** How many completions the loop has taken. */
  function Takes(events: seq<Event>): nat
  {
    if events == [] then 0
    else
      var n := |events| - 1;
      Takes(events[..n]) + if Enabled(Run(events[..n]), events[n]) && events[n].TakeCompletion? then 1 else 0
  }

  lemma {:induction false} StartKeepsWires(s: State)
    ensures Start(s).channel == s.channel && Start(s).written == s.written
    decreases |s.queue|
  {
    if |s.active| < MAX_CONCURRENT_TOOL_CALLS && s.queue != [] { StartKeepsWires(StartOne(s)); }
  }

  lemma StepChannel(s: State, e: Event)
    requires Enabled(s, e)
    ensures Next(s, e).channel == (if e.TakeCompletion? then s.channel[1..] else s.channel) + Posted(s, e)
  {
    hide Parse, Start, Position, Without, SwapRemove, Abort, QueuedUnder, Removed;
    assert s.channel + [] == s.channel;
    StartKeepsWires(React(s, e));
  }

  /** The loop takes completions first in, first out: what is in the channel is what was posted and not yet taken. */
  lemma {:induction false} ChannelIsFifo(events: seq<Event>)
    ensures Takes(events) <= |Posts(events)| && Run(events).channel == Posts(events)[Takes(events)..]
  {
    if events == [] {
      StartKeepsWires(INITIAL);
    } else {
      var n := |events| - 1;
      var s, e, posts := Run(events[..n]), events[n], Posts(events[..n]);
      ChannelIsFifo(events[..n]);
      RunLast(events);
      if Enabled(s, e) {
        StepChannel(s, e);
        hide Run, Next, Enabled, Posted;
        assert Posts(events) == posts + Posted(s, e);
      } else {
        assert posts + [] == posts;
      }
    }
  }

  // ---- Who caused an answer ----

  /** What the server says to a message it answers at once, read off the message. */
  predicate Answers(m: Json, r: Response)
  {
    var verb := Get(m, "method");
    && verb.Some? && verb.value.String?
    && match r.body
       case Pong => verb.value.text == "ping" && Get(m, "id") == Some(r.id)
       case Tools => verb.value.text == "tools/list" && Get(m, "id") == Some(r.id)
       case Initialized(version) =>
         && verb.value.text == "initialize" && Get(m, "id") == Some(r.id)
         && version == Negotiated(Get(m, "params"))
       case Error(code, message) =>
         if code == -32800 then
           && message == "request cancelled" && verb.value.text == "notifications/cancelled"
           && Get(m, "params").Some? && Get(Get(m, "params").value, "requestId") == Some(r.id)
         else
           && code == -32601 && message == "method not found" && Get(m, "id") == Some(r.id)
           && verb.value.text !in ["initialize", "notifications/initialized", "ping", "tools/list", "tools/call",
                                   "notifications/cancelled"]
       case ToolResult(_) => false
  }

  /** The version a client names, if it is a text of 1 to 32 bytes, and the server's own otherwise. */
  function Negotiated(params: Option<Json>): string
  {
    if params.Some? && Get(params.value, "protocolVersion").Some? && Get(params.value, "protocolVersion").value.String?
       && 1 <= |Utf8.Encode(Get(params.value, "protocolVersion").value.text)| <= 32
    then Get(params.value, "protocolVersion").value.text
    else "2025-11-25"
  }

  /** The answer written by an event: a completion's result, or what the message or the parse error calls for. */
  predicate Explains(s: State, e: Event, r: Response)
  {
    Enabled(s, e)
    && match e
       case TakeCompletion(_) => r == Response(s.channel[0].id, ToolResult(s.channel[0].result))
       case ParseError(_) => r == Response(Null, Error(-32700, "invalid JSON-RPC message"))
       case Message(m, _) => Answers(m, r)
       case _ => false
  }

  lemma ParsedAnswers(m: Json, id: Json, body: Body)
    requires Parse(m) == Question(id, body)
    ensures Answers(m, Response(id, body))
  {
    VersionsAgree(m);
    hide Get, ProtocolVersion, Negotiated;
  }

  lemma VersionsAgree(m: Json)
    ensures ProtocolVersion(match Get(m, "params") case Some(p) => p case None => Object([]))
         == Negotiated(Get(m, "params"))
  {
    assert Get(Object([]), "protocolVersion").None?;
    forall v: string | v != "" ensures |Utf8.Encode(v)| >= 1 { EncodesSome(v); }
    hide Get, Utf8.Encode;
  }

  lemma EncodesSome(v: string)
    requires v != ""
    ensures |Utf8.Encode(v)| >= 1
  {
  }

  lemma ParsedCancels(m: Json, id: Json)
    requires Parse(m) == Cancellation(id)
    ensures Answers(m, Response(id, CANCELLED))
  {
    assert Get(Object([]), "requestId").None?;
    hide Get;
  }

  /** Every step writes at most one answer, and that one is explained by the event. */
  lemma StepWrites(s: State, e: Event)
    requires Enabled(s, e)
    ensures s.written <= Next(s, e).written && |Next(s, e).written| <= |s.written| + 1
    ensures |Next(s, e).written| > |s.written| ==> Explains(s, e, Next(s, e).written[|s.written|])
  {
    hide Parse, Start, Position, Without, SwapRemove, Abort, QueuedUnder, Removed, Answers;
    StartKeepsWires(React(s, e));
    if e.Message? {
      match Parse(e.message) {
        case Cancellation(id) => ParsedCancels(e.message, id);
        case Question(id, body) => ParsedAnswers(e.message, id, body);
        case _ =>
      }
    }
  }

  /** The event at `j` wrote the answer at `k`. */
  ghost predicate Causes(events: seq<Event>, j: nat, k: nat)
    requires k < |Run(events).written|
  {
    j < |events| && |Run(events[..j]).written| == k && Explains(Run(events[..j]), events[j], Run(events).written[k])
  }

  /**
   * Over every run: each answer was written by one event, in order, and is what that event calls for: the first
   * completion in the channel, the reply to the message, the error for a parse error or a cancellation.
   */
  lemma {:induction false} EveryAnswerHasItsCause(events: seq<Event>, k: nat) returns (j: nat)
    requires k < |Run(events).written|
    ensures Causes(events, j, k)
  {
    StartKeepsWires(INITIAL);
    j := 0;
    if events != [] {
      var n := |events| - 1;
      var s, e := Run(events[..n]), events[n];
      RunLast(events);
      if Enabled(s, e) { StepWrites(s, e); }
      hide Run, Explains, Next, Enabled;
      if k < |s.written| {
        j := EveryAnswerHasItsCause(events[..n], k);
        assert events[..n][..j] == events[..j] && events[..n][j] == events[j];
      } else {
        j := n;
      }
    }
  }

  // ---- What a message asks for, read off the message ----

  predicate HasMethod(m: Json, verb: string) { Get(m, "method") == Some(String(verb)) }

  function ParamsOf(m: Json): Json
  {
    match Get(m, "params") case Some(p) => p case None => Object([])
  }

  /** Exactly the `tools/call` messages with an id are calls, under that id and with their own parameters. */
  lemma CallsMean(m: Json)
    ensures Parse(m).ToolCall? <==> HasMethod(m, "tools/call") && Get(m, "id").Some?
    ensures Parse(m).ToolCall? ==> Some(Parse(m).id) == Get(m, "id") && Parse(m).params == ParamsOf(m)
  {
    hide Get;
  }

  /** Exactly the cancellation messages that name a request cancel it. */
  lemma CancellationsMean(m: Json)
    ensures Parse(m).Cancellation? <==>
              HasMethod(m, "notifications/cancelled") && Get(ParamsOf(m), "requestId").Some?
    ensures Parse(m).Cancellation? ==> Some(Parse(m).id) == Get(ParamsOf(m), "requestId")
  {
    hide Get;
  }

  /** Every message with a method and an id must be answered under it, but for the two notifications. */
  lemma RequestsMean(m: Json)
    ensures AskedUnder(Parse(m)) ==
              if Get(m, "method").Some? && Get(m, "method").value.String?
                 && !HasMethod(m, "notifications/cancelled") && !HasMethod(m, "notifications/initialized")
              then Get(m, "id") else None
  {
    hide Get;
  }

  // ---- The parameters a task works with ----

  function CalledWith(e: Event): seq<Json>
  {
    if e.Message? && HasMethod(e.message, "tools/call") && Get(e.message, "id").Some? then [ParamsOf(e.message)] else []
  }

  /** The parameters of the calls taken in, in the order of `ReceivedCalls`. */
  function ReceivedParams(events: seq<Event>): seq<Json>
  {
    if events == [] then []
    else
      var n := |events| - 1;
      ReceivedParams(events[..n]) + if Enabled(Run(events[..n]), events[n]) then CalledWith(events[n]) else []
  }

  /** Waiting calls and tasks carry the parameters their call came with. */
  ghost predicate Equipped(s: State, params: seq<Json>)
  {
    && |s.past.accepted| == |params|
    && (forall c | c in s.queue :: c.number < |params| && params[c.number] == c.params)
    && (forall c | c in s.tasks :: c.number < |params| && params[c.number] == c.params)
  }

  lemma {:induction false} StartEquips(s: State, params: seq<Json>)
    requires Equipped(s, params)
    ensures Equipped(Start(s), params)
    decreases |s.queue|
  {
    if |s.active| < MAX_CONCURRENT_TOOL_CALLS && s.queue != [] { StartEquips(StartOne(s), params); }
  }

  lemma CancelEquips(s: State, id: Json, sinkOk: bool, params: seq<Json>)
    requires Equipped(s, params)
    ensures Equipped(Cancel(s, id, sinkOk), params)
  {
    hide Without, Position, SwapRemove, Abort, QueuedUnder;
    WithoutMembers(s.queue, id);
    match Position(s.active, id) {
      case None =>
      case Some(i) => AbortMembers(s.tasks, s.active[i].number);
    }
  }

  lemma StepEquips(s: State, e: Event, params: seq<Json>)
    requires Enabled(s, e) && Equipped(s, params)
    ensures Equipped(Next(s, e), params + CalledWith(e))
  {
    hide Parse, Start, Cancel, Position, SwapRemove;
    assert params + [] == params;
    if e.Message? {
      CallsMean(e.message);
      if Parse(e.message).Cancellation? { CancelEquips(s, Parse(e.message).id, e.sinkOk, params); }
    }
    assert Equipped(React(s, e), params + CalledWith(e));
    StartEquips(React(s, e), params + CalledWith(e));
  }

  lemma {:induction false} RunEquips(events: seq<Event>)
    ensures Equipped(Run(events), ReceivedParams(events))
  {
    if events == [] {
      StartEquips(INITIAL, []);
    } else {
      var n := |events| - 1;
      RunEquips(events[..n]);
      RunLast(events);
      hide Next, Enabled, CalledWith, Equipped, Run;
      if Enabled(Run(events[..n]), events[n]) {
        StepEquips(Run(events[..n]), events[n], ReceivedParams(events[..n]));
      } else {
        assert ReceivedParams(events[..n]) + [] == ReceivedParams(events[..n]);
      }
    }
  }

  // ---- Each result is that of the task of its own call ----

  /** The event at `i` posts this completion: the result of a live or aborted task, under the task's id and number. */
  predicate PostedAt(events: seq<Event>, i: nat, c: Completion)
  {
    && i < |events| && events[i].TaskPosts? && Enabled(Run(events[..i]), events[i])
    && events[i].result == c.result
    && Run(events[..i]).tasks[events[i].index].id == c.id && Run(events[..i]).tasks[events[i].index].number == c.number
  }

  lemma {:induction false} PostsWerePosted(events: seq<Event>, p: nat) returns (i: nat)
    requires p < |Posts(events)|
    ensures PostedAt(events, i, Posts(events)[p])
  {
    var n := |events| - 1;
    if p < |Posts(events[..n])| {
      i := PostsWerePosted(events[..n], p);
      hide Run, Enabled;
      assert events[..n][..i] == events[..i] && events[..n][i] == events[i];
    } else {
      i := n;
    }
  }

  lemma {:induction false} PostsGrow(events: seq<Event>, n: nat)
    requires n <= |events|
    ensures Posts(events[..n]) <= Posts(events) && Takes(events[..n]) <= Takes(events)
    ensures ReceivedCalls(events[..n]) <= ReceivedCalls(events) && ReceivedParams(events[..n]) <= ReceivedParams(events)
    decreases |events|
  {
    if n == |events| {
      assert events[..n] == events;
    } else {
      hide Run, Enabled, CallIn, CalledWith, Posted;
      PostsGrow(events[..|events| - 1], n);
      assert events[..|events| - 1][..n] == events[..n];
    }
  }

  /** The number is that of a call of this id, and of the only one when the id is used once. */
  ghost predicate NamesCall(events: seq<Event>, id: Json, number: nat)
  {
    && number < |ReceivedCalls(events)| && ReceivedCalls(events)[number] == id
    && (TimesAsked(events, id) <= 1 ==>
          forall m | 0 <= m < |ReceivedCalls(events)| && ReceivedCalls(events)[m] == id :: m == number)
  }

  lemma TasksNameCalls(events: seq<Event>, i: nat, c: Completion)
    requires PostedAt(events, i, c)
    ensures NamesCall(events, c.id, c.number)
    ensures var t := Run(events[..i]).tasks[events[i].index];
            c.number < |ReceivedParams(events)| && ReceivedParams(events)[c.number] == t.params
  {
    var t := Run(events[..i]).tasks[events[i].index];
    assert t in Run(events[..i]).tasks;
    RunMatches(events[..i]);
    RunEquips(events[..i]);
    OwesWhatItReceived(events[..i], c.id);
    OwesWhatItReceived(events, c.id);
    PostsGrow(events, i);
    hide Run, ReceivedCalls, ReceivedParams, TimesAsked;
    if TimesAsked(events, c.id) <= 1 {
      forall m | 0 <= m < |ReceivedCalls(events)| && ReceivedCalls(events)[m] == c.id ensures m == c.number {
        SameIdSameCall(events, m, c.number);
      }
    }
  }

  /**
   * Over every run each result on the wire is, unchanged and under its own id, what a task posted for a call of that
   * id, made with the parameters of that call; for an id used once it is the task of that very call.
   */
  lemma ResultsComeFromTheirTask(events: seq<Event>, k: nat) returns (i: nat, number: nat)
    requires k < |Run(events).written| && Run(events).written[k].body.ToolResult?
    ensures var r := Run(events).written[k];
            && PostedAt(events, i, Completion(r.id, number, r.body.result)) && NamesCall(events, r.id, number)
            && number < |ReceivedParams(events)|
            && ReceivedParams(events)[number] == Run(events[..i]).tasks[events[i].index].params
  {
    var j := EveryAnswerHasItsCause(events, k);
    ChannelIsFifo(events[..j]);
    var p := Takes(events[..j]);
    assert events[j].TakeCompletion? && Run(events[..j]).channel != [];
    var c := Posts(events[..j])[p];
    assert c == Run(events[..j]).channel[0];
    hide Run, Posts, Takes, Enabled;
    i := PostsWerePosted(events[..j], p);
    number := c.number;
    assert events[..j][..i] == events[..i] && events[..j][i] == events[i];
    TasksNameCalls(events, i, c);
  }

  /** Results go out in the order in which they were posted, each at most once. */
  lemma ResultsKeepPostingOrder(events: seq<Event>, k: nat, l: nat) returns (p: nat, q: nat)
    requires k < l < |Run(events).written|
    requires Run(events).written[k].body.ToolResult? && Run(events).written[l].body.ToolResult?
    ensures p < q < |Posts(events)|
    ensures Run(events).written[k] == Response(Posts(events)[p].id, ToolResult(Posts(events)[p].result))
    ensures Run(events).written[l] == Response(Posts(events)[q].id, ToolResult(Posts(events)[q].result))
  {
    var a := EveryAnswerHasItsCause(events, k);
    var b := EveryAnswerHasItsCause(events, l);
    p := TakenAt(events, k, a);
    q := TakenAt(events, l, b);
    WrittenGrows(events, a, b);
    TakesGrow(events, a, b);
  }

  lemma TakenAt(events: seq<Event>, k: nat, j: nat) returns (p: nat)
    requires k < |Run(events).written| && Run(events).written[k].body.ToolResult? && Causes(events, j, k)
    ensures p == Takes(events[..j]) < |Posts(events)| && events[j].TakeCompletion? && Enabled(Run(events[..j]), events[j])
    ensures Run(events).written[k] == Response(Posts(events)[p].id, ToolResult(Posts(events)[p].result))
  {
    p := Takes(events[..j]);
    ChannelIsFifo(events[..j]);
    PostsGrow(events, j);
    assert Posts(events)[p] == Posts(events[..j])[p];
  }

  lemma WrittenGrows(events: seq<Event>, a: nat, b: nat)
    requires a <= |events| && b <= |events|
    ensures |Run(events[..a]).written| < |Run(events[..b]).written| ==> a < b
  {
    if b <= a { WrittenStays(events[..a], b); assert events[..a][..b] == events[..b]; }
  }

  lemma {:induction false} WrittenStays(events: seq<Event>, n: nat)
    requires n <= |events|
    ensures |Run(events[..n]).written| <= |Run(events).written|
    decreases |events|
  {
    if n == |events| {
      assert events[..n] == events;
    } else {
      var last := |events| - 1;
      WrittenStays(events[..last], n);
      assert events[..last][..n] == events[..n];
      RunLast(events);
      if Enabled(Run(events[..last]), events[last]) { StepWrites(Run(events[..last]), events[last]); }
    }
  }

  lemma TakesGrow(events: seq<Event>, a: nat, b: nat)
    requires a < b <= |events| && events[a].TakeCompletion? && Enabled(Run(events[..a]), events[a])
    ensures Takes(events[..a]) < Takes(events[..b])
  {
    var next := events[..a + 1];
    assert next[..a] == events[..a] && events[..b][..a + 1] == next;
    PostsGrow(events[..b], a + 1);
    hide Run, Enabled;
  }
}
