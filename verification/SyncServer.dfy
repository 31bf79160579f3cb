/** The server's side of workspace sync: one page of change markers per request (workspace-cloud sync route). */
module SyncServer {
  import opened SyncCursor
  import opened Wrappers

  const PAGE_LIMIT: nat := 128
  const MAX_INCREMENTAL_EVENTS: nat := PAGE_LIMIT * 8

  /** One row of the event table; its sequence number is its place in the log, counted from one. */
  datatype Event = Event(resourceType: string, tombstone: bool, audit: string)

  /** The events of one workspace; the head is the length of the log. */
  type Log = events: seq<Event> | |events| <= MAX_SAFE_INTEGER

  const CONNECTION := "connection"
  const ARTICLE := "analysis_article"

  /** Every event but one of an article makes the client fetch the connections again. */
  predicate TouchesConnections(e: Event) { e.resourceType != ARTICLE }

  predicate Touched(events: seq<Event>) { exists e | e in events :: TouchesConnections(e) }

  predicate Deleted(events: seq<Event>, resourceType: string)
  {
    exists e | e in events :: e.resourceType == resourceType && e.tombstone
  }

  function Min(m: nat, n: nat): nat { if m < n then m else n }

  /** What the query selects: at most one page of the events behind the cursor. */
  function EventsAfter(log: Log, cursor: nat): seq<Event>
  {
    if cursor > |log| then [] else log[cursor..Min(cursor + PAGE_LIMIT, |log|)]
  }

  /** The server's head is behind the cursor, or too far ahead of it to replay. */
  predicate Rebases(log: Log, cursor: int)
  {
    cursor > |log| || |log| - cursor > MAX_INCREMENTAL_EVENTS
  }

  function PageFor(workspaceId: nat, log: Log, cursor: Option<int>): Page
    requires ValidCursor(cursor)
  {
    if cursor.None? || Rebases(log, cursor.value) then
      Page(workspaceId, cursor, |log|, false, cursor.Some?, BOTH, NONE)
    else
      var events := EventsAfter(log, cursor.value);
      var next := cursor.value + |events|;
      Page(workspaceId, cursor, next, next < |log|, false, Collections(Touched(events), events != []),
           Collections(Deleted(events, CONNECTION), Deleted(events, ARTICLE)))
  }

  // ---- The contract as the server checks it ----

  /** `parseWorkspaceSyncPage`, past the checks of JSON types. */
  predicate ContractHolds(p: Page)
  {
    && (p.previousCursor.None? || 0 <= p.previousCursor.value <= 9007199254740991)
    && 0 <= p.nextCursor <= 9007199254740991
    && !(p.previousCursor.None? && (p.reset || p.hasMore))
    && !(p.reset && (|| p.previousCursor.None? || p.nextCursor == p.previousCursor.value || p.hasMore
                     || !p.refresh.connections || !p.refresh.analyses))
    && !(!p.reset && p.previousCursor.Some? && p.nextCursor < p.previousCursor.value)
    && !(p.hasMore && (p.previousCursor.None? || p.nextCursor <= p.previousCursor.value))
    && !(p.previousCursor.None? && (!p.refresh.connections || !p.refresh.analyses))
    && !(p.tombstones.connections && !p.refresh.connections)
    && !(p.tombstones.analyses && !p.refresh.analyses)
  }

  /** The two implementations of the contract agree: for the request at hand the server's check is the client's. */
  lemma ContractsAgree(p: Page, workspaceId: nat, cursor: Option<int>)
    requires ValidCursor(cursor)
    ensures ValidFor(p, workspaceId, cursor)
       <==> ContractHolds(p) && p.workspaceId == workspaceId && p.previousCursor == cursor
  {
  }

  /** Every page the server makes for a request, whatever the log, is one the client accepts. */
  lemma ServedPageIsValid(workspaceId: nat, log: Log, cursor: Option<int>)
    requires ValidCursor(cursor)
    ensures ValidFor(PageFor(workspaceId, log, cursor), workspaceId, cursor)
  {
  }

  /** The client is too new, ahead of the log, or more than eight pages behind it. */
  predicate StartsOver(log: Log, cursor: Option<int>)
  {
    cursor.None? || cursor.value > |log| || |log| - cursor.value > 1024
  }

  /** Some event of that stretch of the log is a deletion of that kind of resource. */
  ghost predicate DeletedIn(log: Log, from: int, to: int, resourceType: string)
  {
    exists i | 0 <= from <= i < to <= |log| :: log[i].resourceType == resourceType && log[i].tombstone
  }

  ghost predicate OtherIn(log: Log, from: int, to: int, resourceType: string)
  {
    exists i | 0 <= from <= i < to <= |log| :: log[i].resourceType != resourceType
  }

  /** What a page says, read off the log. */
  ghost predicate PageTells(p: Page, log: Log, cursor: Option<int>)
  {
    && p.previousCursor == cursor
    && if StartsOver(log, cursor) then
         && p.nextCursor == |log| && !p.hasMore && (p.reset <==> cursor.Some?)
         && p.refresh.connections && p.refresh.analyses && !p.tombstones.connections && !p.tombstones.analyses
       else
         var from, to := cursor.value, p.nextCursor;
         && !p.reset && from <= to <= from + 128 && to <= |log|
         && (p.hasMore <==> to < |log|) && (p.hasMore ==> to == from + 128)
         && (p.refresh.connections <==> OtherIn(log, from, to, "analysis_article"))
         && (p.refresh.analyses <==> from < to)
         && (p.tombstones.connections <==> DeletedIn(log, from, to, "connection"))
         && (p.tombstones.analyses <==> DeletedIn(log, from, to, "analysis_article"))
  }

  lemma ServedPageTells(workspaceId: nat, log: Log, cursor: Option<int>)
    requires ValidCursor(cursor)
    ensures PageFor(workspaceId, log, cursor).workspaceId == workspaceId
    ensures PageTells(PageFor(workspaceId, log, cursor), log, cursor)
  {
    if !StartsOver(log, cursor) {
      var from, to := cursor.value, PageFor(workspaceId, log, cursor).nextCursor;
      var events := log[from..to];
      assert EventsAfter(log, from) == events;
      forall i | from <= i < to ensures log[i] in events { assert events[i - from] == log[i]; }
      forall e | e in events ensures exists i | 0 <= from <= i < to <= |log| :: log[i] == e {
        var j :| 0 <= j < |events| && events[j] == e;
        assert log[from + j] == e;
      }
    }
  }

  /** A page that promises more is full and moves the cursor by exactly one page. */
  lemma MoreMeansFull(workspaceId: nat, log: Log, cursor: Option<int>)
    requires ValidCursor(cursor)
    ensures var p := PageFor(workspaceId, log, cursor);
            p.hasMore ==>
              && !p.reset && cursor.Some? && |log| - cursor.value <= MAX_INCREMENTAL_EVENTS
              && p.nextCursor == cursor.value + PAGE_LIMIT < |log|
  {
  }

  // ---- The route ----

  datatype Row = Row(sequence: int, event: Event)

  function Query(log: Log, cursor: nat): seq<Row>
  {
    var events := EventsAfter(log, cursor);
    seq(|events|, i requires 0 <= i < |events| => Row(cursor + i + 1, events[i]))
  }

  lemma TouchedGrows(events: seq<Event>, e: Event)
    ensures Touched(events + [e]) == (Touched(events) || TouchesConnections(e))
    ensures forall t :: Deleted(events + [e], t) == (Deleted(events, t) || (e.resourceType == t && e.tombstone))
  {
    var all := events + [e];
    assert e in all && forall x | x in events :: x in all;
    assert forall x | x in all :: x in events || x == e;
  }

  /** The handler; None stands for the errors it throws on an impossible row or page. */
  method ServePage(workspaceId: nat, log: Log, cursor: Option<int>) returns (page: Option<Page>)
    requires ValidCursor(cursor)
    ensures page == Some(PageFor(workspaceId, log, cursor))
  {
    var head := |log|;
    var reset := cursor.Some? && (cursor.value > head || head - cursor.value > MAX_INCREMENTAL_EVENTS);
    var bootstrap := cursor.None? || reset;
    var nextCursor := if bootstrap then head else cursor.value;
    var refresh := if bootstrap then BOTH else NONE;
    var tombstones := NONE;
    if !bootstrap {
      ghost var events := EventsAfter(log, cursor.value);
      var rows := Query(log, cursor.value);
      var i := 0;
      while i < |rows|
        invariant i <= |rows| == |events|
        invariant nextCursor == cursor.value + i
        invariant refresh == Collections(Touched(events[..i]), i > 0)
        invariant tombstones == Collections(Deleted(events[..i], CONNECTION), Deleted(events[..i], ARTICLE))
      {
        var sequence, event := rows[i].sequence, rows[i].event;
        if sequence < 1 || sequence > MAX_SAFE_INTEGER || sequence <= nextCursor || sequence > head {
          return None;
        }
        nextCursor := sequence;
        if event.resourceType == CONNECTION {
          refresh := BOTH;
          tombstones := tombstones.(connections := tombstones.connections || event.tombstone);
        } else if event.resourceType == ARTICLE {
          refresh := refresh.(analyses := true);
          tombstones := tombstones.(analyses := tombstones.analyses || event.tombstone);
        } else {
          refresh := BOTH;
        }
        TouchedGrows(events[..i], event);
        assert events[..i + 1] == events[..i] + [event];
        i := i + 1;
      }
      assert events[..i] == events;
    }
    var made := Page(workspaceId, cursor, nextCursor, nextCursor < head, reset, refresh, tombstones);
    ServedPageIsValid(workspaceId, log, cursor);
    if !ContractHolds(made) {
      return None;
    }
    page := Some(made);
  }
}
