/** Calls start in arrival order, every running call has a task behind it, and a session whose
    input has closed runs out of work. */
module ToolServerOrder {
  import opened JsonValue
  import opened ToolServer
  import opened ToolServerLaws
  import opened ToolServerRuns
  import opened Wrappers

  // ---- Arrival order ----

  predicate Increasing(s: seq<nat>)
  {
    forall i, j | 0 <= i < j < |s| :: s[i] < s[j]
  }

  /** The calls started so far, then the ones waiting. */
  function Line(s: State): seq<nat>
  {
    s.past.started + Numbers(s.queue)
  }

  /** The line is in arrival order and holds every accepted call but those cancelled while queued. */
  ghost predicate Ordered(s: State)
  {
    && Increasing(Line(s))
    && (forall n: nat :: n in Line(s) <==> n < |s.past.accepted| && n !in s.past.dropped)
    && (forall n | n in s.past.dropped :: n < |s.past.accepted|)
  }

  lemma {:induction false} NumbersAppend(q: seq<QueuedCall>, c: QueuedCall)
    ensures Numbers(q + [c]) == Numbers(q) + [c.number]
  {
    if q == [] {
      assert [c][1..] == [];
    } else {
      NumbersAppend(q[1..], c);
      assert (q + [c])[1..] == q[1..] + [c];
    }
  }

  lemma {:induction false} StartKeepsLine(s: State)
    ensures var t := Start(s);
            && Line(t) == Line(s)
            && t.past.accepted == s.past.accepted && t.past.dropped == s.past.dropped
    decreases |s.queue|
  {
    if |s.active| < MAX_CONCURRENT_TOOL_CALLS && s.queue != [] {
      StartKeepsLine(StartOne(s));
      assert Line(StartOne(s)) == Line(s);
    }
  }

  lemma DropMiddle(pre: seq<nat>, n: nat, post: seq<nat>)
    requires Increasing(pre + [n] + post)
    ensures Increasing(pre + post) && n !in post
  {
    var s, t := pre + [n] + post, pre + post;
    assert forall i | 0 <= i < |t| :: t[i] == s[if i < |pre| then i else i + 1];
    assert forall i | 0 <= i < |post| :: post[i] == s[|pre| + 1 + i];
    assert s[|pre|] == n;
  }

  lemma {:induction false} WithoutKeepsOrder(pre: seq<nat>, q: seq<QueuedCall>, id: Json)
    requires Increasing(pre + Numbers(q))
    ensures Increasing(pre + Numbers(Without(q, id)))
    decreases |q|
  {
    if q != [] {
      var n, rest := q[0].number, q[1..];
      var w := Without(rest, id);
      assert pre + Numbers(q) == pre + [n] + Numbers(rest);
      WithoutKeepsOrder(pre + [n], rest, id);
      if q[0].id == id {
        assert [] + w == w;
        DropMiddle(pre, n, Numbers(w));
      } else {
        assert ([q[0]] + w)[1..] == w;
        assert pre + ([n] + Numbers(w)) == pre + [n] + Numbers(w);
      }
    }
  }

  lemma {:induction false} TailIncreases(pre: seq<nat>, post: seq<nat>)
    requires Increasing(pre + post)
    ensures Increasing(post) && forall a, b | a in pre && b in post :: a < b
  {
    var s := pre + post;
    assert forall i | 0 <= i < |post| :: post[i] == s[|pre| + i];
    assert forall i | 0 <= i < |pre| :: pre[i] == s[i];
  }

  lemma {:induction false} WithoutNumbers(q: seq<QueuedCall>, id: Json, n: nat)
    requires Increasing(Numbers(q))
    ensures n in QueuedUnder(q, id) ==> n in Numbers(q)
    ensures n in Numbers(Without(q, id)) <==> n in Numbers(q) && n !in QueuedUnder(q, id)
  {
    if q != [] {
      var rest := q[1..];
      var w := Without(rest, id);
      TailIncreases([q[0].number], Numbers(rest));
      WithoutNumbers(rest, id, n);
      assert Numbers(q) == [q[0].number] + Numbers(rest);
      if q[0].id == id {
        assert [] + w == w;
        assert QueuedUnder(q, id) == {q[0].number} + QueuedUnder(rest, id);
        assert q[0].number in [q[0].number];
        if n == q[0].number { assert n !in Numbers(rest) && n !in Numbers(w); }
      } else {
        assert ([q[0]] + w)[1..] == w;
      }
    }
  }

  lemma DropQueuedOrders(s: State, id: Json)
    requires Ordered(s)
    ensures Ordered(DropQueued(s, id))
  {
    var q := s.queue;
    WithoutKeepsOrder(s.past.started, q, id);
    TailIncreases(s.past.started, Numbers(q));
    forall n: nat
      ensures n in Numbers(Without(q, id)) <==> n in Numbers(q) && n !in QueuedUnder(q, id)
      ensures n in QueuedUnder(q, id) ==> n in Numbers(q) && n !in s.past.started
    {
      WithoutNumbers(q, id, n);
    }
  }

  lemma SameLine(s: State, t: State)
    requires Ordered(s) && Line(t) == Line(s)
    requires t.past.accepted == s.past.accepted && t.past.dropped == s.past.dropped
    ensures Ordered(t)
  {
  }

  lemma AcceptOrders(s: State, id: Json, params: Json)
    requires Ordered(s)
    ensures Ordered(Accept(s, id, params))
  {
    var n := |s.past.accepted|;
    NumbersAppend(s.queue, QueuedCall(id, params, n));
    assert Line(Accept(s, id, params)) == Line(s) + [n];
    assert forall i | 0 <= i < |Line(s)| :: Line(s)[i] in Line(s);
  }

  lemma HandleOrders(s: State, request: Request, sinkOk: bool)
    requires Ordered(s)
    ensures Ordered(Handle(s, request, sinkOk))
  {
    hide Position, Without, SwapRemove, Abort, QueuedUnder;
    match request {
      case ToolCall(id, params) => AcceptOrders(s, id, params);
      case Cancellation(id) =>
        DropQueuedOrders(s, id);
        SameLine(DropQueued(s, id), Handle(s, request, sinkOk));
      case Question(id, body) => SameLine(s, Handle(s, request, sinkOk));
      case Nothing =>
    }
  }

  lemma ReactOrders(s: State, e: Event)
    requires Enabled(s, e) && Ordered(s)
    ensures Ordered(React(s, e))
  {
    match e {
      case Message(m, sinkOk) => HandleOrders(s, Parse(m), sinkOk);
      case _ => SameLine(s, React(s, e));
    }
  }

  lemma TopOrders(s: State)
    requires Ordered(s)
    ensures Ordered(Top(s))
  {
    StartKeepsLine(s);
    SameLine(s, Top(s));
  }

  lemma StepOrders(s: State, e: Event)
    requires Enabled(s, e) && Ordered(s)
    ensures Ordered(React(s, e)) && Ordered(Next(s, e))
  {
    ReactOrders(s, e);
    TopOrders(React(s, e));
  }

  /** Calls start in arrival order, and every call not cancelled while it waited starts or waits. */
  lemma {:induction false} StartsInArrivalOrder(events: seq<Event>)
    ensures Ordered(Run(events))
  {
    if events == [] {
      StartKeepsLine(INITIAL);
      assert Line(Run(events)) == [];
    } else {
      var s, e := Run(events[..|events| - 1]), events[|events| - 1];
      StartsInArrivalOrder(events[..|events| - 1]);
      if Enabled(s, e) { StepOrders(s, e); }
    }
  }

  // ---- Which calls never start: a cancellation message named them while they waited ----

  predicate QueuedCallAt(queue: seq<QueuedCall>, id: Json, n: nat)
  {
    exists i | 0 <= i < |queue| :: queue[i].id == id && queue[i].number == n
  }

  lemma {:induction false} QueuedUnderMeans(queue: seq<QueuedCall>, id: Json, n: nat)
    ensures n in QueuedUnder(queue, id) <==> QueuedCallAt(queue, id, n)
  {
    if queue != [] {
      QueuedUnderMeans(queue[1..], id, n);
      assert forall i | 0 <= i < |queue[1..]| :: queue[1..][i] == queue[i + 1];
      assert forall i | 1 <= i < |queue| :: queue[i] == queue[1..][i - 1];
    }
  }

  /** The message cancels the waiting call of this number. */
  predicate CancelsWaiting(s: State, e: Event, n: nat)
  {
    Enabled(s, e) && e.Message? && Parse(e.message).Cancellation? && QueuedCallAt(s.queue, Parse(e.message).id, n)
  }

  predicate CancelledWaiting(events: seq<Event>, k: nat, n: nat)
  {
    k < |events| && CancelsWaiting(Run(events[..k]), events[k], n)
  }

  lemma StepDrops(s: State, e: Event, n: nat)
    requires Enabled(s, e)
    ensures n in Next(s, e).past.dropped <==> n in s.past.dropped || CancelsWaiting(s, e, n)
  {
    hide Parse, Start, Removed, QueuedCallAt, QueuedUnder;
    if e.Message? && Parse(e.message).Cancellation? { QueuedUnderMeans(s.queue, Parse(e.message).id, n); }
    StartKeepsLine(React(s, e));
  }

  lemma {:induction false} DroppedMeans(events: seq<Event>, n: nat)
    ensures n in Run(events).past.dropped <==> exists k :: CancelledWaiting(events, k, n)
  {
    if events == [] {
      StartKeepsLine(INITIAL);
    } else {
      var last := |events| - 1;
      var before, e := events[..last], events[last];
      RunLast(events);
      NotEnabledCancelsNothing(Run(before), e, n);
      hide Run, Next, Enabled, CancelsWaiting, CancelledWaiting;
      DroppedMeans(before, n);
      if Enabled(Run(before), e) { StepDrops(Run(before), e, n); }
      forall k: nat ensures CancelledWaiting(events, k, n) <==>
                              CancelledWaiting(before, k, n) || (k == last && CancelsWaiting(Run(before), e, n)) {
        CancelledEarlier(events, k, n);
      }
      if exists k :: CancelledWaiting(before, k, n) {
        var k :| CancelledWaiting(before, k, n);
        assert CancelledWaiting(events, k, n);
      }
      if CancelsWaiting(Run(before), e, n) { assert CancelledWaiting(events, last, n); }
    }
  }

  lemma CancelledEarlier(events: seq<Event>, k: nat, n: nat)
    requires events != []
    ensures var last := |events| - 1;
            CancelledWaiting(events, k, n) <==>
              CancelledWaiting(events[..last], k, n)
              || (k == last && CancelsWaiting(Run(events[..last]), events[last], n))
  {
    hide Run, CancelsWaiting;
    var last := |events| - 1;
    if k < last { assert events[..last][..k] == events[..k] && events[..last][k] == events[k]; }
  }

  lemma NotEnabledCancelsNothing(s: State, e: Event, n: nat)
    ensures CancelsWaiting(s, e, n) ==> Enabled(s, e)
  {
  }

  /**
   * Calls start in arrival order: the started and then the waiting calls are, in the order the messages came,
   * exactly those received whose id no cancellation message named while they waited.
   */
  lemma CallsStartInOrder(events: seq<Event>)
    ensures Increasing(Line(Run(events)))
    ensures forall n: nat :: n in Line(Run(events)) <==>
              n < |ReceivedCalls(events)| && !exists k :: CancelledWaiting(events, k, n)
  {
    StartsInArrivalOrder(events);
    OwesWhatItReceived(events, Null);
    hide Run, Line, CancelledWaiting, Increasing;
    forall n: nat ensures n in Run(events).past.dropped <==> exists k :: CancelledWaiting(events, k, n) {
      DroppedMeans(events, n);
    }
  }

  // ---- Every running call has a task or a posted completion ----

  /** No two tasks serve one call, and only started calls have tasks. */
  ghost predicate OwnTasks(s: State)
  {
    && (forall i, j | 0 <= i < j < |s.tasks| :: s.tasks[i].number != s.tasks[j].number)
    && (forall t | t in s.tasks :: t.number in s.past.started)
  }

  ghost predicate Backed(s: State)
  {
    forall id :: Count(s.active, ActiveAs(id)) <= Count(s.tasks, LiveAs(id)) + Count(s.channel, PostedAs(id))
  }

  lemma {:induction false} StartBacks(s: State)
    requires Ordered(s) && OwnTasks(s) && Backed(s)
    ensures OwnTasks(Start(s)) && Backed(Start(s))
    decreases |s.queue|
  {
    if |s.active| < MAX_CONCURRENT_TOOL_CALLS && s.queue != [] {
      var c := s.queue[0];
      var t := StartOne(s);
      assert Line(t) == Line(s);
      forall n | n in s.past.started ensures n < c.number {
        var i :| 0 <= i < |s.past.started| && s.past.started[i] == n;
        assert Line(s)[i] == n && Line(s)[|s.past.started|] == c.number;
      }
      forall i | 0 <= i < |s.tasks| ensures s.tasks[i].number < c.number { assert s.tasks[i] in s.tasks; }
      forall id ensures Count(t.active, ActiveAs(id)) <= Count(t.tasks, LiveAs(id)) + Count(t.channel, PostedAs(id)) {
        CountConcat(s.active, [ActiveCall(c.id, c.number)], ActiveAs(id));
        CountConcat(s.tasks, [Task(c.id, c.number, c.params, false)], LiveAs(id));
      }
      StartBacks(t);
    }
  }

  lemma AbortOthers(tasks: seq<Task>, number: nat)
    requires forall t | t in tasks :: t.number != number
    ensures Abort(tasks, number) == tasks
  {
  }

  /** Aborting a call's task takes away at most one future completion, and only of the call's own id. */
  lemma {:induction false} AbortCounts(tasks: seq<Task>, number: nat, own: Json, id: Json)
    requires forall i, j | 0 <= i < j < |tasks| :: tasks[i].number != tasks[j].number
    requires forall t | t in tasks && t.number == number :: t.id == own
    ensures Count(Abort(tasks, number), LiveAs(id)) >= Count(tasks, LiveAs(id)) - if id == own then 1 else 0
  {
    if tasks != [] {
      var rest := tasks[1..];
      assert tasks[0] in tasks && forall t | t in rest :: t in tasks;
      assert Abort(tasks, number)[1..] == Abort(rest, number);
      if tasks[0].number == number {
        assert forall i | 0 <= i < |rest| :: rest[i] == tasks[i + 1];
        AbortOthers(rest, number);
      } else {
        AbortCounts(rest, number, own, id);
      }
    }
  }

  lemma CancelBacks(s: State, id: Json, sinkOk: bool)
    requires OwnTasks(s) && Backed(s) && Matched(s)
    ensures OwnTasks(Cancel(s, id, sinkOk)) && Backed(Cancel(s, id, sinkOk))
  {
    var t := Cancel(s, id, sinkOk);
    match Position(s.active, id) {
      case None =>
      case Some(i) =>
        var n := s.active[i].number;
        assert s.active[i] in s.active;
        AbortMembers(s.tasks, n);
        forall other ensures Count(t.active, ActiveAs(other)) <= Count(t.tasks, LiveAs(other)) + Count(t.channel, PostedAs(other)) {
          CountSwapRemove(s.active, i, ActiveAs(other));
          AbortCounts(s.tasks, n, id, other);
        }
    }
  }

  lemma TakeBacks(s: State, sinkOk: bool)
    requires OwnTasks(s) && Backed(s) && s.channel != []
    ensures OwnTasks(Take(s, sinkOk)) && Backed(Take(s, sinkOk))
  {
    var t := Take(s, sinkOk);
    var c := s.channel[0];
    forall id ensures Count(t.active, ActiveAs(id)) <= Count(t.tasks, LiveAs(id)) + Count(t.channel, PostedAs(id)) {
      match Position(s.active, c.id) {
        case None => CountNone(s.active, ActiveAs(c.id));
        case Some(i) => CountSwapRemove(s.active, i, ActiveAs(id));
      }
    }
  }

  lemma LeaveBacks(s: State, i: nat, posted: seq<Completion>)
    requires OwnTasks(s) && Backed(s) && i < |s.tasks|
    requires if s.tasks[i].aborted then true else |posted| == 1 && posted[0].id == s.tasks[i].id
    ensures var t := s.(tasks := s.tasks[..i] + s.tasks[i + 1..], channel := s.channel + posted);
            OwnTasks(t) && Backed(t)
  {
    var t := s.(tasks := s.tasks[..i] + s.tasks[i + 1..], channel := s.channel + posted);
    forall id ensures Count(t.active, ActiveAs(id)) <= Count(t.tasks, LiveAs(id)) + Count(t.channel, PostedAs(id)) {
      CountRemove(s.tasks, i, LiveAs(id));
      CountConcat(s.channel, posted, PostedAs(id));
    }
  }

  lemma HandleBacks(s: State, request: Request, sinkOk: bool)
    requires OwnTasks(s) && Backed(s) && Matched(s)
    ensures OwnTasks(Handle(s, request, sinkOk)) && Backed(Handle(s, request, sinkOk))
  {
    if request.Cancellation? { CancelBacks(s, request.id, sinkOk); }
  }

  lemma DrainBacks(s: State)
    requires OwnTasks(s)
    ensures OwnTasks(Drain(s)) && Backed(Drain(s))
  {
    var t := Drain(s);
    assert forall i | 0 <= i < |t.tasks| :: t.tasks[i].number == s.tasks[i].number && s.tasks[i] in s.tasks;
    assert forall id :: Count(t.active, ActiveAs(id)) == 0;
  }

  /** Only the flags, the output and the rest of the past differ. */
  lemma SameBacks(s: State, t: State)
    requires OwnTasks(s) && Backed(s) && t.active == s.active && t.tasks == s.tasks && t.channel == s.channel
    requires t.past.started == s.past.started
    ensures OwnTasks(t) && Backed(t)
  {
  }

  lemma ReactBacks(s: State, e: Event)
    requires Enabled(s, e) && OwnTasks(s) && Backed(s) && Matched(s)
    ensures OwnTasks(React(s, e)) && Backed(React(s, e))
  {
    hide OwnTasks, Backed, Matched, Parse, Handle, Take, Drain;
    match e {
      case Message(m, sinkOk) => HandleBacks(s, Parse(m), sinkOk);
      case TakeCompletion(sinkOk) => TakeBacks(s, sinkOk);
      case TaskPosts(i, result) => LeaveBacks(s, i, [Completion(s.tasks[i].id, s.tasks[i].number, result)]);
      case TaskStops(i) =>
        LeaveBacks(s, i, []);
        assert s.channel + [] == s.channel;
      case ReadError =>
        DrainBacks(s);
        SameBacks(Drain(s), React(s, e));
      case ParseError(sinkOk) => SameBacks(s, React(s, e));
      case Eof => SameBacks(s, React(s, e));
    }
  }

  lemma {:induction false} RunBacks(events: seq<Event>)
    ensures OwnTasks(Run(events)) && Backed(Run(events))
  {
    if events == [] {
      StartBacks(INITIAL);
    } else {
      var before, e := events[..|events| - 1], events[|events| - 1];
      var s := Run(before);
      RunBacks(before);
      RunMatches(before);
      StartsInArrivalOrder(before);
      if Enabled(s, e) {
        ReactBacks(s, e);
        ReactOrders(s, e);
        StartBacks(React(s, e));
      }
    }
  }

  // ---- A closed session drains ----

  /** While `serve` waits for its last calls, some task can post or a completion is there to take. */
  lemma ClosedSessionIsNeverStuck(events: seq<Event>)
    requires Run(events).outcome == Running && Run(events).inputClosed
    ensures exists e :: Enabled(Run(events), e) && (e.TakeCompletion? || (e.TaskPosts? && !Run(events).tasks[e.index].aborted))
  {
    var s := Run(events);
    NeverIdle(events);
    RunBacks(events);
    var id := s.active[0].id;
    CountNone(s.active, ActiveAs(id));
    assert s.active[0] in s.active;
    if s.channel != [] {
      assert Enabled(s, TakeCompletion(true));
    } else {
      CountNone(s.tasks, LiveAs(id));
      var t :| t in s.tasks && LiveAs(id)(t);
      var i :| 0 <= i < |s.tasks| && s.tasks[i] == t;
      assert Enabled(s, TaskPosts(i, Null));
    }
  }

  /** Steps left once no more input can arrive. */
  function StepsLeft(s: State): nat
  {
    4 * |s.queue| + 2 * |s.tasks| + |s.channel|
  }

  lemma {:induction false} StartSpends(s: State)
    ensures StepsLeft(Start(s)) <= StepsLeft(s) && Start(s).inputClosed == s.inputClosed
    decreases |s.queue|
  {
    if |s.active| < MAX_CONCURRENT_TOOL_CALLS && s.queue != [] { StartSpends(StartOne(s)); }
  }

  lemma StepSpends(s: State, e: Event)
    requires Enabled(s, e) && s.inputClosed
    ensures StepsLeft(Next(s, e)) < StepsLeft(s) && Next(s, e).inputClosed
  {
    StartSpends(React(s, e));
  }

  /** Every event of `more` is possible when its turn comes. */
  predicate AllHappen(events: seq<Event>, more: seq<Event>)
    decreases |more|
  {
    more == [] || (Enabled(Run(events), more[0]) && AllHappen(events + [more[0]], more[1..]))
  }

  /** Once the input has closed, at most this many steps remain before `serve` returns. */
  lemma {:induction false} ClosedSessionDrains(events: seq<Event>, more: seq<Event>)
    requires Run(events).inputClosed && AllHappen(events, more)
    ensures |more| <= StepsLeft(Run(events))
    decreases |more|
  {
    if more != [] {
      var s, t := Run(events), Run(events + [more[0]]);
      assert (events + [more[0]])[..|events|] == events;
      StepSpends(s, more[0]);
      ClosedSessionDrains(events + [more[0]], more[1..]);
    }
  }
}
