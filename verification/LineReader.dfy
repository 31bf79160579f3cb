/** `read_message` and the reader thread (agent_mcp.rs): newline-delimited messages out of a
    byte stream that arrives in arbitrary buffers. */
module LineReader {
  import opened Search
  import opened Utf8
  import opened Wrappers

  const MAX_MCP_MESSAGE_BYTES := 1024 * 1024
  const LF: byte := 10
  const CR: byte := 13

  /** Outcome of one read: a message and what is left of the stream, or why there is none. */
  datatype Reading =
    | Got(message: seq<byte>, rest: seq<byte>)
    | End
    | TooLong       // ClientError::InvalidArguments
    | Failed        // the underlying read failed

  function Trimmed(line: seq<byte>): (r: seq<byte>)
    ensures |r| <= |line| && r == line[..|r|]
    ensures r != [] ==> r[|r| - 1] != 13 && r[|r| - 1] != 10
    ensures forall k :: |r| <= k < |line| ==> line[k] == 13 || line[k] == 10
  {
    if line != [] && (line[|line| - 1] == CR || line[|line| - 1] == LF) then Trimmed(line[..|line| - 1]) else line
  }

  /** What one read returns on a whole stream; `broken` streams end in a read error, not in EOF. */
  function NextMessage(stream: seq<byte>, broken: bool): Reading
    decreases |stream|, 1
  {
    match IndexOf(stream, 0, LF)
    case None =>
      if |stream| > MAX_MCP_MESSAGE_BYTES then TooLong
      else if broken then Failed
      else if stream == [] then End
      else Got(stream, [])
    case Some(k) => AfterLine(stream[..k], stream[k + 1..], broken)
  }

  /** A line with its newline has arrived: refuse it, skip it when blank, or deliver it. */
  function AfterLine(line: seq<byte>, rest: seq<byte>, broken: bool): Reading
    decreases |rest| + 1, 0
  {
    if |line| > MAX_MCP_MESSAGE_BYTES then TooLong
    else if Trimmed(line) == [] then NextMessage(rest, broken)
    else Got(Trimmed(line), rest)
  }

  lemma {:induction false} NextShrinks(stream: seq<byte>, broken: bool)
    ensures NextMessage(stream, broken).Got? ==> |NextMessage(stream, broken).rest| < |stream|
    decreases |stream|
  {
    match IndexOf(stream, 0, LF) {
      case None =>
      case Some(k) => NextShrinks(stream[k + 1..], broken);
    }
  }

  /** All messages of a stream, and how it ends. */
  function Session(stream: seq<byte>, broken: bool): (seq<seq<byte>>, Reading)
    decreases |stream|, 1
  {
    NextShrinks(stream, broken);
    SessionAfter(NextMessage(stream, broken), broken)
  }

  function SessionAfter(r: Reading, broken: bool): (seq<seq<byte>>, Reading)
    decreases if r.Got? then |r.rest| + 1 else 0, 0
  {
    if r.Got? then Prepend([r.message], Session(r.rest, broken)) else ([], r)
  }

  function Prepend(front: seq<seq<byte>>, session: (seq<seq<byte>>, Reading)): (seq<seq<byte>>, Reading)
  {
    (front + session.0, session.1)
  }

  lemma PrependNothing(session: (seq<seq<byte>>, Reading))
    ensures Prepend([], session) == session
  {
    assert [] + session.0 == session.0;
  }

  lemma PrependTwice(x: seq<seq<byte>>, y: seq<seq<byte>>, session: (seq<seq<byte>>, Reading))
    ensures Prepend(x, Prepend(y, session)) == Prepend(x + y, session)
  {
    assert x + (y + session.0) == x + y + session.0;
  }

  function Flatten(chunks: seq<seq<byte>>): seq<byte>
  {
    if chunks == [] then [] else chunks[0] + Flatten(chunks[1..])
  }

  /** A `BufRead`: the buffers still to come, in the sizes the operating system happens to choose. */
  class BufReader {
    var chunks: seq<seq<byte>>
    const broken: bool

    function Stream(): seq<byte>
      reads this
    {
      Flatten(chunks)
    }

    constructor (chunks: seq<seq<byte>>, broken: bool)
      ensures Stream() == Flatten(chunks) && this.broken == broken
    {
      this.chunks := chunks;
      this.broken := broken;
    }

    /** The next buffer; empty only at the end of the stream, None when the read fails. */
    method FillBuf() returns (available: Option<seq<byte>>)
      modifies this
      ensures Stream() == old(Stream())
      ensures available.None? <==> broken && Stream() == []
      ensures available.Some? ==> (available.value == [] <==> Stream() == [])
      ensures available.Some? && available.value != [] ==> chunks != [] && chunks[0] == available.value
    {
      while chunks != [] && chunks[0] == []
        invariant Stream() == old(Stream())
        decreases |chunks|
      {
        chunks := chunks[1..];
      }
      if chunks == [] {
        return if broken then None else Some([]);
      }
      return Some(chunks[0]);
    }

    method Consume(n: nat)
      requires chunks != [] && n <= |chunks[0]|
      modifies this
      ensures Stream() == old(Stream())[n..]
    {
      chunks := [chunks[0][n..]] + chunks[1..];
      assert Flatten(chunks) == chunks[0] + Flatten(old(chunks)[1..]);
    }

    /** One pass of the loop: either the read is over, or the line goes on in `next`. */
    method TakeBuffer(buffer: seq<byte>) returns (next: seq<byte>, result: Option<Reading>)
      requires IndexOf(buffer, 0, LF) == None && |buffer| <= MAX_MCP_MESSAGE_BYTES
      modifies this
      ensures Taken(buffer + old(Stream()), next, result)
      ensures result.None? ==> |Stream()| < |old(Stream())|
    {
      var filled := FillBuf();
      if filled.Some? && filled.value != [] {
        next, result := AddBuffer(buffer);
        return;
      }
      assert buffer + [] == buffer;
      next := buffer;
      result := Some(if filled.None? then Failed else if buffer == [] then End else Got(buffer, []));
    }

    /** What a pass leaves: the result for the whole stream, or a stream with the same result. */
    ghost predicate Taken(all: seq<byte>, next: seq<byte>, result: Option<Reading>)
      reads this
    {
      match result
      case Some(r) => r == NextMessage(all, broken) && (r.Got? ==> Stream() == r.rest)
      case None =>
        && IndexOf(next, 0, LF) == None && |next| <= MAX_MCP_MESSAGE_BYTES
        && NextMessage(next + Stream(), broken) == NextMessage(all, broken)
    }

    method AddBuffer(buffer: seq<byte>) returns (next: seq<byte>, result: Option<Reading>)
      requires IndexOf(buffer, 0, LF) == None && |buffer| <= MAX_MCP_MESSAGE_BYTES
      requires chunks != [] && chunks[0] != []
      modifies this
      ensures Taken(buffer + old(Stream()), next, result)
      ensures result.None? ==> |Stream()| < |old(Stream())|
    {
      var available := chunks[0];
      ghost var rest := Flatten(chunks[1..]);
      next := buffer;
      var newline := IndexOf(available, 0, LF);
      if newline.None? {
        LineGoesOn(buffer, available, rest, broken);
        if |buffer| + |available| > MAX_MCP_MESSAGE_BYTES {
          return next, Some(TooLong);
        }
        Consume(|available|);
        assert Stream() == rest;
        return buffer + available, None;
      }
      var contentEnd := newline.value;
      LineEnds(buffer, available, rest, broken);
      if |buffer| + contentEnd > MAX_MCP_MESSAGE_BYTES {
        return next, Some(TooLong);
      }
      Consume(contentEnd + 1);
      next := Trimmed(buffer + available[..contentEnd]);
      assert [] + Stream() == Stream();
      result := if next != [] then Some(Got(next, Stream())) else None;
    }

    /** `read_message`. The result depends on the stream alone, not on how it was cut. */
    method ReadMessage() returns (r: Reading)
      modifies this
      ensures r == NextMessage(old(Stream()), broken)
      ensures r.Got? ==> Stream() == r.rest
    {
      var buffer: seq<byte>, result := [], None;
      assert [] + Stream() == Stream();
      while result == None
        invariant result == None ==> IndexOf(buffer, 0, LF) == None && |buffer| <= MAX_MCP_MESSAGE_BYTES
                                     && NextMessage(buffer + Stream(), broken) == NextMessage(old(Stream()), broken)
        invariant result.Some? ==> result.value == NextMessage(old(Stream()), broken)
                                   && (result.value.Got? ==> Stream() == result.value.rest)
        decreases result.None?, |Stream()|
      {
        buffer, result := TakeBuffer(buffer);
      }
      return result.value;
    }

    /** The reader thread: everything it sends before it stops, and why it stops. */
    method ReadAll() returns (messages: seq<seq<byte>>, ending: Reading)
      modifies this
      ensures (messages, ending) == Session(old(Stream()), broken)
    {
      messages := [];
      ending := ReadMessage();
      PrependNothing(SessionAfter(ending, broken));
      while ending.Got?
        invariant Prepend(messages, SessionAfter(ending, broken)) == Session(old(Stream()), broken)
        invariant ending.Got? ==> Stream() == ending.rest
        decreases if ending.Got? then 1 + |ending.rest| else 0
      {
        var before := ending;
        messages := messages + [before.message];
        ending := ReadMessage();
        NextShrinks(before.rest, broken);
        PrependTwice(messages[..|messages| - 1], [before.message], Session(before.rest, broken));
      }
      assert messages + [] == messages;
    }
  }

  lemma LineGoesOn(buffer: seq<byte>, available: seq<byte>, rest: seq<byte>, broken: bool)
    requires IndexOf(buffer, 0, LF) == None && IndexOf(available, 0, LF) == None
    ensures IndexOf(buffer + available, 0, LF) == None
    ensures buffer + (available + rest) == buffer + available + rest
    ensures |buffer| + |available| > MAX_MCP_MESSAGE_BYTES ==> NextMessage(buffer + (available + rest), broken) == TooLong
  {
    var front := buffer + available;
    var all := front + rest;
    assert buffer + (available + rest) == all;
    IndexOfSkips(buffer, 0, available, LF);
    IndexOfSkips(front, 0, rest, LF);
    if |front| > MAX_MCP_MESSAGE_BYTES && IndexOf(all, 0, LF).Some? {
      var k := IndexOf(all, 0, LF).value;
      assert |all[..k]| == k;
    }
  }

  lemma LineEnds(buffer: seq<byte>, available: seq<byte>, rest: seq<byte>, broken: bool)
    requires IndexOf(buffer, 0, LF) == None && IndexOf(available, 0, LF).Some?
    ensures var i := IndexOf(available, 0, LF).value;
            && (available + rest)[i + 1..] == available[i + 1..] + rest
            && NextMessage(buffer + (available + rest), broken)
                 == AfterLine(buffer + available[..i], available[i + 1..] + rest, broken)
  {
    hide IndexOf, AfterLine;
    var i := IndexOf(available, 0, LF).value;
    IndexOfExtends(available, 0, LF, rest);
    IndexOfSkips(buffer, 0, available + rest, LF);
    CutJoined(buffer, available, rest, i);
  }

  // ---- An independent description: split at line feeds, then decode each piece ----

  /** The stream cut at every line feed; the last piece is the unterminated tail. */
  function Pieces(stream: seq<byte>): (r: seq<seq<byte>>)
    ensures r != []
    decreases |stream|
  {
    match IndexOf(stream, 0, LF)
    case None => [stream]
    case Some(k) => [stream[..k]] + Pieces(stream[k + 1..])
  }

  function Join(pieces: seq<seq<byte>>): seq<byte>
    requires pieces != []
  {
    if |pieces| == 1 then pieces[0] else pieces[0] + ([10] + Join(pieces[1..]))
  }

  lemma {:induction false} PiecesJoin(stream: seq<byte>)
    ensures Join(Pieces(stream)) == stream
    ensures forall p | p in Pieces(stream) :: 10 !in p
    decreases |stream|
  {
    IndexOfIsFirst(stream, 0, LF);
    match IndexOf(stream, 0, LF) {
      case None =>
      case Some(k) =>
        PiecesJoin(stream[k + 1..]);
        assert Pieces(stream)[1..] == Pieces(stream[k + 1..]);
        assert stream == stream[..k] + ([LF] + stream[k + 1..]);
    }
  }

  /** Terminated lines lose their trailing CRs and vanish when blank. */
  function Delivered(lines: seq<seq<byte>>): seq<seq<byte>>
  {
    if lines == [] then []
    else (if Trimmed(lines[0]) == [] then [] else [Trimmed(lines[0])]) + Delivered(lines[1..])
  }

  /** How many pieces come before the first one that is longer than a message may be. */
  function Fitting(pieces: seq<seq<byte>>): (n: nat)
    ensures n <= |pieces|
    ensures forall i | 0 <= i < n :: |pieces[i]| <= 1048576
    ensures n < |pieces| ==> |pieces[n]| > 1048576
  {
    if pieces == [] || |pieces[0]| > 1048576 then 0 else 1 + Fitting(pieces[1..])
  }

  lemma {:induction false} SessionStep(line: seq<byte>, rest: seq<byte>, broken: bool)
    requires LF !in line
    ensures Session(line + ([LF] + rest), broken)
         == (if |line| > MAX_MCP_MESSAGE_BYTES then ([], TooLong)
             else Prepend(Delivered([line]), Session(rest, broken)))
  {
    var stream := line + ([LF] + rest);
    IndexOfIsFirst(line, 0, LF);
    IndexOfExtends(line, 0, LF, [LF] + rest);
    assert stream[..|line|] == line && stream[|line| + 1..] == rest;
    assert NextMessage(stream, broken) == AfterLine(line, rest, broken);
    PrependNothing(Session(rest, broken));
    DeliveredOne(line);
  }

  lemma DeliveredOne(line: seq<byte>)
    ensures Delivered([line]) == if Trimmed(line) == [] then [] else [Trimmed(line)]
  {
    assert Delivered([line][1..]) == [];
  }

  lemma TailSession(tail: seq<byte>, broken: bool)
    requires LF !in tail
    ensures Session(tail, broken)
         == (if |tail| > MAX_MCP_MESSAGE_BYTES then ([], TooLong)
             else if broken then ([], Failed)
             else if tail == [] then ([], End)
             else ([tail], End))
  {
    IndexOfIsFirst(tail, 0, LF);
    assert Session([], false) == ([], End);
    assert [tail] + [] == [tail];
  }

  /** What the pieces of a stream should yield. */
  function Decoded(pieces: seq<seq<byte>>, broken: bool): (seq<seq<byte>>, Reading)
    requires pieces != []
  {
    var last, n := |pieces| - 1, Fitting(pieces);
    if n < |pieces| then (Delivered(pieces[..n]), TooLong)
    else if broken then (Delivered(pieces[..last]), Failed)
    else (Delivered(pieces[..last]) + (if pieces[last] == [] then [] else [pieces[last]]), End)
  }

  lemma DecodedCons(pieces: seq<seq<byte>>, broken: bool)
    requires |pieces| > 1 && |pieces[0]| <= MAX_MCP_MESSAGE_BYTES
    ensures Decoded(pieces, broken) == Prepend(Delivered([pieces[0]]), Decoded(pieces[1..], broken))
  {
    var rest := pieces[1..];
    var n, last := Fitting(rest), |rest| - 1;
    assert Fitting(pieces) == n + 1;
    hide Fitting, Delivered;
    if n < |rest| {
      DeliveredUpTo(pieces, n);
    } else {
      DeliveredUpTo(pieces, last);
      var end := if rest[last] == [] then [] else [rest[last]];
      var one, more := Delivered([pieces[0]]), Delivered(rest[..last]);
      assert pieces[|pieces| - 1] == rest[last];
      assert one + (more + end) == one + more + end;
    }
  }

  lemma DeliveredUpTo(pieces: seq<seq<byte>>, n: nat)
    requires n < |pieces|
    ensures Delivered(pieces[..n + 1]) == Delivered([pieces[0]]) + Delivered(pieces[1..][..n])
  {
    DeliveredCons(pieces[0], pieces[1..][..n]);
    hide Delivered;
    assert pieces[..n + 1] == [pieces[0]] + pieces[1..][..n];
  }

  lemma DeliveredCons(line: seq<byte>, rest: seq<seq<byte>>)
    ensures Delivered([line] + rest) == Delivered([line]) + Delivered(rest)
  {
    assert ([line] + rest)[1..] == rest;
    DeliveredOne(line);
  }

  /** The reader delivers exactly the terminated lines without their CRs and blanks, then a
      non-empty unterminated tail unchanged, and stops with an error exactly at the first piece
      over the limit. */
  lemma {:induction false} SessionIsSplit(pieces: seq<seq<byte>>, broken: bool)
    requires pieces != [] && forall p | p in pieces :: 10 !in p
    ensures Session(Join(pieces), broken) == Decoded(pieces, broken)
  {
    if |pieces| == 1 {
      TailSession(pieces[0], broken);
      assert pieces[1..] == [] && pieces[..0] == [];
      assert Fitting(pieces) == if |pieces[0]| > MAX_MCP_MESSAGE_BYTES then 0 else 1;
      var none := Delivered(pieces[..0]);
      assert none == [] && none + [pieces[0]] == [pieces[0]] && none + [] == none;
    } else {
      SessionStep(pieces[0], Join(pieces[1..]), broken);
      if |pieces[0]| <= MAX_MCP_MESSAGE_BYTES {
        SessionIsSplit(pieces[1..], broken);
        DecodedCons(pieces, broken);
      }
    }
  }
}
