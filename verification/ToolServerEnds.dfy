/** How a session ends, and which tasks are told to stop. */
module ToolServerEnds {
  import opened ToolServer
  import opened ToolServerOrder
  import opened ToolServerResults
  import opened ToolServerRuns
  import opened Wrappers
  import JsonValue

  // ---- Why a session ends ----

  predicate SinkFails(e: Event)
  {
    match e
    case Message(_, ok) => !ok
    case ParseError(ok) => !ok
    case TakeCompletion(ok) => !ok
    case _ => false
  }

  function Mended(e: Event): Event
  {
    match e
    case Message(m, _) => Message(m, true)
    case ParseError(_) => ParseError(true)
    case TakeCompletion(_) => TakeCompletion(true)
    case _ => e
  }

  /** The reader failed, or an answer was due and could not be written. */
  predicate Breaks(s: State, e: Event)
  {
    && Enabled(s, e)
    && (e.ReadError? || (SinkFails(e) && |Next(s, Mended(e)).written| > |s.written|))
  }

  /** A step ends the session with an error exactly if it breaks it, and then nothing is written. */
  lemma StepEnds(s: State, e: Event)
    requires Enabled(s, e)
    ensures Next(s, e).outcome == ReturnedErr <==> Breaks(s, e)
    ensures SinkFails(e) ==> Next(s, e).written == s.written
    ensures Breaks(s, e) ==> Next(s, e).written == s.written
  {
    hide Parse, Start, Position, Without, SwapRemove, Abort, QueuedUnder, Removed;
    StartKeepsWires(React(s, e));
    StartFlows(React(s, e));
    StartKeepsWires(React(s, Mended(e)));
    StartFlows(React(s, Mended(e)));
  }

  lemma {:induction false} StartFlows(s: State)
    ensures Start(s).outcome == s.outcome && Start(s).inputClosed == s.inputClosed
    decreases |s.queue|
  {
    if |s.active| < MAX_CONCURRENT_TOOL_CALLS && s.queue != [] { StartFlows(StartOne(s)); }
  }

  predicate BreaksAt(events: seq<Event>, j: nat) { j < |events| && Breaks(Run(events[..j]), events[j]) }

  predicate ClosesAt(events: seq<Event>, j: nat) { j < |events| && events[j].Eof? && Enabled(Run(events[..j]), events[j]) }

  lemma StepCloses(s: State, e: Event)
    requires Enabled(s, e)
    ensures Next(s, e).inputClosed <==> s.inputClosed || e.Eof?
  {
    hide Parse, Start, Position, Without, SwapRemove, Abort, QueuedUnder, Removed;
    StartFlows(React(s, e));
  }

  /** A session has failed exactly if some event broke it, and its input is closed exactly if its end was seen. */
  lemma {:induction false} FailedMeans(events: seq<Event>)
    ensures Run(events).outcome == ReturnedErr <==> exists j: nat :: BreaksAt(events, j)
    ensures Run(events).inputClosed <==> exists j: nat :: ClosesAt(events, j)
  {
    if events == [] {
      StartFlows(INITIAL);
    } else {
      var n := |events| - 1;
      var s, e := Run(events[..n]), events[n];
      FailedMeans(events[..n]);
      RunLast(events);
      if Enabled(s, e) {
        StepEnds(s, e);
        StepCloses(s, e);
      }
      EarlierBreaks(events);
      assert BreaksAt(events, n) <==> Breaks(s, e);
      assert ClosesAt(events, n) <==> e.Eof? && Enabled(s, e);
      assert Run(events).outcome == ReturnedErr <==> s.outcome == ReturnedErr || Breaks(s, e);
      assert Run(events).inputClosed <==> s.inputClosed || (e.Eof? && Enabled(s, e));
      hide Run, Next, Breaks, Enabled;
      if j: nat :| BreaksAt(events[..n], j) { assert BreaksAt(events, j); }
      if j: nat :| ClosesAt(events[..n], j) { assert ClosesAt(events, j); }
    }
  }

  lemma EarlierBreaks(events: seq<Event>)
    requires events != []
    ensures forall j: nat | j < |events| - 1 ::
              (BreaksAt(events, j) <==> BreaksAt(events[..|events| - 1], j))
              && (ClosesAt(events, j) <==> ClosesAt(events[..|events| - 1], j))
  {
    hide Run, Breaks, Enabled;
    var n := |events| - 1;
    forall j: nat | j < n
      ensures BreaksAt(events, j) <==> BreaksAt(events[..n], j)
      ensures ClosesAt(events, j) <==> ClosesAt(events[..n], j)
    {
      assert events[..n][..j] == events[..j] && events[..n][j] == events[j];
    }
  }

  /** `serve` has returned Ok exactly if the end of the input was seen, nothing broke, and no call waits or runs. */
  lemma ReturnedMeans(events: seq<Event>)
    ensures Run(events).outcome == ReturnedOk <==>
              && (exists j: nat :: ClosesAt(events, j)) && !(exists j: nat :: BreaksAt(events, j))
              && Run(events).queue == [] && Run(events).active == []
  {
    hide Run, BreaksAt, ClosesAt;
    FailedMeans(events);
    NeverIdle(events);
  }

  /**
   * What can happen next: input until its end was seen, a completion while some call is active, a post by any task
   * still there, also one that was told to stop, and the end of a task that was.
   */
  lemma BranchesMean(s: State, i: nat, result: JsonValue.Json)
    requires s.outcome == Running
    ensures forall m, ok :: Enabled(s, Message(m, ok)) <==> !s.inputClosed
    ensures Enabled(s, Eof) == Enabled(s, ReadError) == !s.inputClosed
    ensures forall ok :: Enabled(s, TakeCompletion(ok)) <==> s.active != [] && s.channel != []
    ensures Enabled(s, TaskPosts(i, result)) <==> i < |s.tasks|
    ensures Enabled(s, TaskStops(i)) <==> i < |s.tasks| && s.tasks[i].aborted
  {
  }

  // ---- Which tasks are told to stop ----

  predicate Runs(s: State, n: nat) { exists c | c in s.active :: c.number == n }

  predicate Served(s: State, n: nat) { exists d | d in s.past.delivered :: d.0 == n }

  /** Active calls are distinct, started and unanswered; exactly the tasks of calls neither active nor answered stop. */
  ghost predicate Flagged(s: State)
  {
    && (forall i, j | 0 <= i < j < |s.active| :: s.active[i].number != s.active[j].number)
    && (forall c | c in s.active :: c.number in s.past.started && !Served(s, c.number))
    && (forall d | d in s.past.delivered :: d.0 in s.past.started)
    && (forall t | t in s.tasks :: t.aborted <==> !Runs(s, t.number) && !Served(s, t.number))
  }

  lemma SwapRemoves(s: seq<ActiveCall>, i: nat)
    requires i < |s| && forall a, b | 0 <= a < b < |s| :: s[a].number != s[b].number
    ensures var t := SwapRemove(s, i);
            && (forall a, b | 0 <= a < b < |t| :: t[a].number != t[b].number)
            && (forall c :: c in t <==> c in s && c.number != s[i].number)
  {
    var t := SwapRemove(s, i);
    forall c | c in s && c.number != s[i].number ensures c in t {
      var k :| 0 <= k < |s| && s[k] == c;
      assert k < |t| ==> t[k] == c;
      assert k == |t| ==> t[i] == c;
    }
  }

  lemma StartOneFlags(s: State)
    requires Ordered(s) && OwnTasks(s) && Flagged(s) && s.queue != []
    ensures Flagged(StartOne(s)) && Ordered(StartOne(s)) && OwnTasks(StartOne(s))
  {
    var c, t := s.queue[0], StartOne(s);
    assert Line(t) == Line(s);
    SameLine(s, t);
    forall n | n in s.past.started ensures n < c.number {
      var i :| 0 <= i < |s.past.started| && s.past.started[i] == n;
      assert Line(s)[i] == n && Line(s)[|s.past.started|] == c.number;
    }
    hide Line, Numbers, Ordered;
    forall i | 0 <= i < |s.tasks| ensures s.tasks[i].number < c.number { assert s.tasks[i] in s.tasks; }
    forall i | 0 <= i < |s.active| ensures s.active[i].number < c.number { assert s.active[i] in s.active; }
    assert !Served(s, c.number);
    forall n ensures Served(t, n) == Served(s, n) && (Runs(t, n) <==> Runs(s, n) || n == c.number) {
      StartOneRuns(s, n);
    }
    hide Served, Runs;
  }

  lemma StartOneRuns(s: State, n: nat)
    requires s.queue != []
    ensures Served(StartOne(s), n) == Served(s, n)
    ensures Runs(StartOne(s), n) <==> Runs(s, n) || n == s.queue[0].number
  {
    var t := StartOne(s);
    assert ActiveCall(s.queue[0].id, s.queue[0].number) in t.active;
    assert forall c | c in s.active :: c in t.active;
  }

  lemma {:induction false} StartFlags(s: State)
    requires Ordered(s) && OwnTasks(s) && Flagged(s)
    ensures Flagged(Start(s))
    decreases |s.queue|
  {
    hide Ordered, OwnTasks, Flagged;
    if |s.active| < MAX_CONCURRENT_TOOL_CALLS && s.queue != [] {
      StartOneFlags(s);
      StartFlags(StartOne(s));
    }
  }

  /** Taking one call off the active list. */
  lemma LeaveRuns(s: State, i: nat, n: nat)
    requires Flagged(s) && i < |s.active|
    ensures Runs(s.(active := SwapRemove(s.active, i)), n) <==> Runs(s, n) && n != s.active[i].number
  {
    SwapRemoves(s.active, i);
  }

  /** `rest` holds the active calls but for the one at `i`. */
  ghost predicate Leaves(active: seq<ActiveCall>, i: nat, rest: seq<ActiveCall>)
    requires i < |active|
  {
    && (forall a, b | 0 <= a < b < |rest| :: rest[a].number != rest[b].number)
    && (forall c :: c in rest <==> c in active && c.number != active[i].number)
  }

  lemma StopFlags(s: State, i: nat, rest: seq<ActiveCall>)
    requires Flagged(s) && i < |s.active| && Leaves(s.active, i, rest)
    ensures Flagged(s.(active := rest, tasks := Abort(s.tasks, s.active[i].number)))
  {
    var number := s.active[i].number;
    var t := s.(active := rest, tasks := Abort(s.tasks, number));
    assert s.active[i] in s.active;
    forall n ensures Runs(t, n) <==> Runs(s, n) && n != number { }
    assert Runs(s, number);
    forall n ensures Served(t, n) == Served(s, n) { }
    hide Runs, Served;
    forall u | u in t.tasks ensures u.aborted <==> !Runs(t, u.number) && !Served(t, u.number) {
      var k :| 0 <= k < |t.tasks| && t.tasks[k] == u;
      assert s.tasks[k] in s.tasks;
    }
  }

  lemma ServeFlags(s: State, i: nat, task: nat)
    requires Flagged(s) && i < |s.active|
    ensures Flagged(s.(active := SwapRemove(s.active, i),
                       past := s.past.(delivered := s.past.delivered + [(s.active[i].number, task)])))
  {
    var number := s.active[i].number;
    var t := s.(active := SwapRemove(s.active, i), past := s.past.(delivered := s.past.delivered + [(number, task)]));
    SwapRemoves(s.active, i);
    assert s.active[i] in s.active;
    forall n ensures Runs(t, n) <==> Runs(s, n) && n != number { LeaveRuns(s, i, n); }
    assert Runs(s, number) && (number, task) in t.past.delivered;
    forall n ensures Served(t, n) <==> Served(s, n) || n == number {
      if Served(s, n) {
        var d :| d in s.past.delivered && d.0 == n;
        assert d in t.past.delivered;
      }
    }
    hide Runs, Served, SwapRemove;
  }

  /** Only the queue, the flags and the output differ. */
  lemma SameFlags(s: State, t: State)
    requires Flagged(s) && t.active == s.active && t.past.delivered == s.past.delivered
    requires t.past.started == s.past.started && forall u | u in t.tasks :: u in s.tasks
    ensures Flagged(t)
  {
    forall n ensures Runs(t, n) == Runs(s, n) && Served(t, n) == Served(s, n) { }
    hide Runs, Served;
  }

  lemma StopActiveFlags(s: State, id: JsonValue.Json)
    requires Flagged(s)
    ensures Flagged(StopActive(s, id))
  {
    match Position(s.active, id) {
      case None =>
      case Some(i) =>
        SwapRemoves(s.active, i);
        hide Abort, Runs, Served, SwapRemove;
        StopFlags(s, i, SwapRemove(s.active, i));
    }
  }

  lemma CancelFlags(s: State, id: JsonValue.Json, sinkOk: bool)
    requires Flagged(s)
    ensures Flagged(Cancel(s, id, sinkOk))
  {
    hide Flagged, Position, SwapRemove, Abort, Without, QueuedUnder, Removed;
    var d := DropQueued(s, id);
    SameFlags(s, d);
    StopActiveFlags(d, id);
    hide DropQueued, StopActive;
    SameFlags(StopActive(d, id), Cancel(s, id, sinkOk));
  }

  lemma FrontLeaves(active: seq<ActiveCall>)
    requires active != [] && forall a, b | 0 <= a < b < |active| :: active[a].number != active[b].number
    ensures Leaves(active, 0, active[1..])
  {
    forall c ensures c in active[1..] <==> c in active && c.number != active[0].number {
      if c in active && c.number != active[0].number {
        var k :| 0 <= k < |active| && active[k] == c;
        assert active[1..][k - 1] == c;
      }
    }
  }

  lemma {:induction false} DrainFlags(s: State)
    requires Flagged(s)
    ensures Flagged(Drain(s))
    decreases |s.active|
  {
    if s.active != [] {
      FrontLeaves(s.active);
      StopFlags(s, 0, s.active[1..]);
      hide Flagged, Abort;
      DrainFlags(s.(active := s.active[1..], tasks := Abort(s.tasks, s.active[0].number)));
    }
  }

  lemma ReactFlags(s: State, e: Event)
    requires Enabled(s, e) && Flagged(s)
    ensures Flagged(React(s, e))
  {
    hide Flagged, Parse, SwapRemove, Position;
    match e {
      case Message(m, sinkOk) =>
        match Parse(m) {
          case Cancellation(id) => CancelFlags(s, id, sinkOk);
          case _ => SameFlags(s, React(s, e));
        }
      case TakeCompletion(sinkOk) =>
        var c, t := s.channel[0], s.(channel := s.channel[1..]);
        SameFlags(s, t);
        match Position(s.active, c.id) {
          case None =>
          case Some(i) =>
            ServeFlags(t, i, c.number);
            SameFlags(t.(active := SwapRemove(t.active, i),
                         past := t.past.(delivered := t.past.delivered + [(t.active[i].number, c.number)])), React(s, e));
        }
      case ReadError =>
        DrainFlags(s);
        SameFlags(Drain(s), React(s, e));
      case ParseError(sinkOk) => SameFlags(s, React(s, e));
      case Eof => SameFlags(s, React(s, e));
      case TaskPosts(i, result) => SameFlags(s, React(s, e));
      case TaskStops(i) => SameFlags(s, React(s, e));
    }
  }

  lemma {:induction false} RunFlags(events: seq<Event>)
    ensures Flagged(Run(events))
  {
    if events == [] {
      StartFlags(INITIAL);
    } else {
      var before, e := events[..|events| - 1], events[|events| - 1];
      var s := Run(before);
      RunFlags(before);
      RunBacks(before);
      RunMatches(before);
      StartsInArrivalOrder(before);
      RunLast(events);
      if Enabled(s, e) {
        ReactFlags(s, e);
        ReactBacks(s, e);
        ReactOrders(s, e);
        StartFlags(React(s, e));
        hide Flagged, React, Start;
        SameFlags(Start(React(s, e)), Top(React(s, e)));
      }
    }
  }

  /**
   * Over every run: of the tasks still there, exactly those are told to stop whose call is no longer active although no
   * completion was taken for it, that is, whose call was cancelled or active when the reader failed.
   */
  lemma AbortedMeans(events: seq<Event>, t: Task)
    requires t in Run(events).tasks
    ensures t.aborted <==> !Runs(Run(events), t.number) && !Served(Run(events), t.number)
  {
    RunFlags(events);
  }
}
