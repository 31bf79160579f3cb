/** The lexical read-only check on Analysis Article SQL (analysis_article_sql.rs). */
module SqlTokens {
  import opened Search
  import opened Utf8
  import opened Wrappers

  /** One iteration of the scanner's outer loop, seen from the bytes still ahead of it. */
  datatype Lexeme =
    | Broken                                    // unterminated quote, comment or dollar string
    | Advance(width: nat, token: Option<string>)

  const LF: byte := 10
  const SINGLE: byte := 39
  const DOUBLE: byte := 34
  const BACKTICK: byte := 96
  const BACKSLASH: byte := 92
  const DOLLAR: byte := 36
  const DASH: byte := 45
  const SLASH: byte := 47
  const STAR: byte := 42
  const SEMICOLON: byte := 59
  const UNDERSCORE: byte := 95

  predicate Letter(b: byte) { 65 <= b <= 90 || 97 <= b <= 122 }

  predicate Digit(b: byte) { 48 <= b <= 57 }

  predicate WordStart(b: byte) { Letter(b) || b == UNDERSCORE }

  predicate WordByte(b: byte) { Letter(b) || Digit(b) || b == UNDERSCORE || b == DOLLAR }

  predicate TagByte(b: byte) { Letter(b) || Digit(b) || b == UNDERSCORE }

  predicate Quote(b: byte) { b == SINGLE || b == DOUBLE || b == BACKTICK }

  function Lower(b: byte): char
  {
    if 65 <= b <= 90 then (b + 32) as char else b as char
  }

  function LowerText(s: seq<byte>): (r: string)
    ensures |r| == |s|
  {
    seq(|s|, i requires 0 <= i < |s| => Lower(s[i]))
  }

  /** Just past the byte that closes a quote opened before `i`: a doubled quote stays
      inside, and outside double quotes a backslash hides the byte after it. */
  function QuoteEnd(s: seq<byte>, i: nat, quote: byte): (r: Option<nat>)
    ensures r.Some? ==> i < r.value <= |s| && s[r.value - 1] == quote
    decreases |s| - i
  {
    if i >= |s| then None
    else if s[i] == quote then
      if i + 1 < |s| && s[i + 1] == quote then QuoteEnd(s, i + 2, quote) else Some(i + 1)
    else if s[i] == BACKSLASH && quote != DOUBLE then QuoteEnd(s, i + 2, quote)
    else QuoteEnd(s, i + 1, quote)
  }

  /** Length of the dollar-quote tag `$...$` at the front of `s`, when it is one. */
  function DollarTag(s: seq<byte>): (r: Option<nat>)
    requires s != [] && s[0] == DOLLAR
    ensures r.Some? ==> 2 <= r.value <= |s| && s[r.value - 1] == DOLLAR
  {
    if |s| >= 2 && s[1] == DOLLAR then Some(2)
    else match IndexOf(s, 1, DOLLAR)
      case None => None
      case Some(k) => if TagName(s, k) then Some(k + 1) else None
  }

  /** `s[1..k]` names a tag. */
  predicate TagName(s: seq<byte>, k: nat)
    requires 1 <= k <= |s|
  {
    k > 1 && WordStart(s[1]) && forall j | 1 <= j < k :: TagByte(s[j])
  }

  function WordEnd(s: seq<byte>, i: nat): (r: nat)
    requires i <= |s|
    ensures i <= r <= |s|
    ensures r > i ==> WordByte(s[r - 1])
    decreases |s| - i
  {
    if i < |s| && WordByte(s[i]) then WordEnd(s, i + 1) else i
  }

  predicate Opens(s: seq<byte>, first: byte, second: byte)
  {
    |s| >= 2 && s[0] == first && s[1] == second
  }

  /** A scan may pause at `n`: the end of the text, or just past an ASCII byte. */
  predicate Stop(s: seq<byte>, n: nat)
  {
    0 < n <= |s| && (n == |s| || s[n - 1] < 0x80)
  }

  /** A line comment runs through its line feed, or to the end of the text. */
  function LineCommentEnd(s: seq<byte>): (n: nat)
    requires Opens(s, DASH, DASH)
    ensures Stop(s, n)
  {
    match IndexOf(s, 2, LF)
    case None => |s|
    case Some(k) => k + 1
  }

  function BlockCommentEnd(s: seq<byte>): (r: Option<nat>)
    requires Opens(s, SLASH, STAR)
    ensures r.Some? ==> Stop(s, r.value)
  {
    match Find(s, 2, [STAR, SLASH])
    case None => None
    case Some(k) => assert s[k + 1] == [STAR, SLASH][1]; Some(k + 2)
  }

  /** A dollar string ends just past the first repetition of its own tag, of length `n`. */
  function DollarEnd(s: seq<byte>, n: nat): (r: Option<nat>)
    requires 2 <= n <= |s| && s[n - 1] == DOLLAR
    ensures r.Some? ==> Stop(s, r.value)
  {
    match Find(s, n, s[..n])
    case None => None
    case Some(k) => assert s[k + (n - 1)] == s[..n][n - 1]; Some(k + n)
  }

  function Skip(end: Option<nat>): Lexeme
  {
    match end
    case None => Broken
    case Some(n) => Advance(n, None)
  }

  datatype Branch = Space | LineComment | BlockComment | Quoted | DollarQuoted | Word | Other

  /** The branch the scanner takes at the front of the remaining text, in source order. */
  function BranchOf(s: seq<byte>): Branch
    requires s != [] && Valid(s)
  {
    if Whitespace(CodePoint(s)) then Space
    else if Opens(s, DASH, DASH) then LineComment
    else if Opens(s, SLASH, STAR) then BlockComment
    else if Quote(s[0]) then Quoted
    else if s[0] == DOLLAR && DollarTag(s).Some? then DollarQuoted
    else if WordStart(s[0]) then Word
    else Other
  }

  function Lex(s: seq<byte>): (r: Lexeme)
    requires s != [] && Valid(s)
    ensures r.Advance? ==> r.width == SequenceLength(s) || Stop(s, r.width)
  {
    match BranchOf(s)
    case Space => Advance(SequenceLength(s), None)
    case LineComment => Advance(LineCommentEnd(s), None)
    case BlockComment => Skip(BlockCommentEnd(s))
    case Quoted => Skip(QuoteEnd(s, 1, s[0]))
    case DollarQuoted => Skip(DollarEnd(s, DollarTag(s).value))
    case Word => Advance(WordEnd(s, 1), Some(LowerText(s[..WordEnd(s, 1)])))
    case Other => Advance(SequenceLength(s), if s[0] == SEMICOLON then Some(";") else None)
  }

  /** Every iteration moves forward and stops on a character boundary, even when a
      backslash stepped into the middle of a multi-byte character on the way. */
  lemma LexStopsOnBoundary(s: seq<byte>)
    requires s != [] && Valid(s)
    ensures Lex(s).Advance? ==> 0 < Lex(s).width <= |s| && Valid(s[Lex(s).width..])
  {
    if Lex(s).Advance? {
      var n := Lex(s).width;
      if n == |s| {
        assert s[n..] == [];
      } else if n != SequenceLength(s) {
        AsciiIsBoundary(s, n - 1);
      }
    }
  }

  function Glue(front: seq<string>, rest: Option<seq<string>>): Option<seq<string>>
  {
    match rest
    case None => None
    case Some(tokens) => Some(front + tokens)
  }

  function AsTokens(token: Option<string>): seq<string>
  {
    match token
    case None => []
    case Some(t) => [t]
  }

  /** The tokens of a text, or None when a quote, comment or dollar string never ends. */
  function Tokens(s: seq<byte>): Option<seq<string>>
    requires Valid(s)
  {
    if s == [] then Some([])
    else
      LexStopsOnBoundary(s);
      match Lex(s)
      case Broken => None
      case Advance(width, token) => Glue(AsTokens(token), Tokens(s[width..]))
  }

  /** The inner loop over a quoted run; `index` may end past the text, after a final backslash. */
  method ScanQuoted(sql: seq<byte>, start: nat) returns (closed: bool, index: nat)
    requires start < |sql|
    ensures var end := QuoteEnd(sql[start..], 1, sql[start]);
            closed == end.Some? && (closed ==> index == start + end.value)
  {
    var quote := sql[start];
    ghost var ahead := sql[start..];
    index := start + 1;
    closed := false;
    while index < |sql|
      invariant start + 1 <= index <= |sql| + 1
      invariant !closed && QuoteEnd(ahead, 1, quote) == QuoteEnd(ahead, index - start, quote)
      decreases |sql| - index
    {
      if sql[index] == quote {
        if index + 1 < |sql| && sql[index + 1] == quote {
          index := index + 2;
          continue;
        }
        index := index + 1;
        closed := true;
        break;
      }
      if sql[index] == BACKSLASH && quote != DOUBLE {
        index := index + 1;
      }
      index := index + 1;
    }
  }

  /** The inner loop over a word. */
  method ScanWord(sql: seq<byte>, start: nat) returns (index: nat)
    requires start < |sql|
    ensures index == start + WordEnd(sql[start..], 1) && sql[start..index] == sql[start..][..index - start]
  {
    index := start + 1;
    while index < |sql| && WordByte(sql[index])
      invariant start + 1 <= index <= |sql|
      invariant WordEnd(sql[start..], 1) == WordEnd(sql[start..], index - start)
    {
      index := index + 1;
    }
  }

  /** One pass of the outer loop: where it leaves `index` (None: the scan gives up) and the token it pushes. */
  method ScanNext(sql: seq<byte>, index: nat) returns (next: Option<nat>, token: Option<string>)
    requires index < |sql| && Valid(sql[index..])
    ensures match Lex(sql[index..])
            case Broken => next == None
            case Advance(width, t) => next == Some(index + width) && token == t
  {
    var tail := sql[index..];
    token := None;
    if Whitespace(CodePoint(tail)) {
      next := Some(index + SequenceLength(tail));
    } else if Opens(tail, DASH, DASH) {
      next := Some(index + LineCommentEnd(tail));
    } else if Opens(tail, SLASH, STAR) {
      var end := BlockCommentEnd(tail);
      next := if end.None? then None else Some(index + end.value);
    } else if Quote(sql[index]) {
      var closed, end := ScanQuoted(sql, index);
      next := if closed then Some(end) else None;
    } else if sql[index] == DOLLAR && DollarTag(tail).Some? {
      var end := DollarEnd(tail, DollarTag(tail).value);
      next := if end.None? then None else Some(index + end.value);
    } else if WordStart(sql[index]) {
      var end := ScanWord(sql, index);
      next, token := Some(end), Some(LowerText(sql[index..end]));
    } else {
      if sql[index] == SEMICOLON {
        token := Some(";");
      }
      next := Some(index + SequenceLength(tail));
    }
  }

  /** The scanner's loop. Each pass starts on a character boundary. */
  method Scan(sql: seq<byte>) returns (result: Option<seq<string>>)
    requires Valid(sql)
    ensures result == Tokens(sql)
  {
    var tokens: seq<string> := [];
    var index := 0;
    assert sql[0..] == sql;
    assert Tokens(sql).Some? ==> [] + Tokens(sql).value == Tokens(sql).value;
    while index < |sql|
      invariant index <= |sql| && Valid(sql[index..])
      invariant Tokens(sql) == Glue(tokens, Tokens(sql[index..]))
    {
      var next, token := ScanNext(sql, index);
      if next.None? {
        return None;
      }
      Resume(sql, index, next.value, tokens);
      index, tokens := next.value, tokens + AsTokens(token);
    }
    assert sql[index..] == [];
    assert tokens + [] == tokens;
    return Some(tokens);
  }

  /** One step of the loop re-establishes its invariant. */
  lemma Resume(sql: seq<byte>, start: nat, index: nat, tokens: seq<string>)
    requires start < |sql| && Valid(sql[start..])
    requires Lex(sql[start..]).Advance? && index == start + Lex(sql[start..]).width
    ensures start < index <= |sql| && Valid(sql[index..])
    ensures Glue(tokens, Tokens(sql[start..])) == Glue(tokens + AsTokens(Lex(sql[start..]).token), Tokens(sql[index..]))
  {
    LexStopsOnBoundary(sql[start..]);
    assert sql[start..][index - start..] == sql[index..];
    var token := AsTokens(Lex(sql[start..]).token);
    if Tokens(sql[index..]).Some? {
      var rest := Tokens(sql[index..]).value;
      assert tokens + (token + rest) == tokens + token + rest;
    }
  }
}
