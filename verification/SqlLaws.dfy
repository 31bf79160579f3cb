/** What the token scanner promises across whole texts, and what the read-only check accepts. */
module SqlLaws {
  import opened Search
  import opened SqlTokens
  import opened Utf8
  import opened Wrappers

  // ---- How one scanner step behaves when a line feed or a literal follows ----

  /** Bytes that neither continue a word or a dollar tag nor complete a comment opening. */
  predicate Breaks(b: byte) { b == LF || Quote(b) }

  lemma {:induction false} QuoteEndExtends(s: seq<byte>, i: nat, quote: byte, more: seq<byte>)
    requires QuoteEnd(s, i, quote).Some? && more != [] && (more[0] != quote || QuoteEnd(s, i, quote).value < |s|)
    ensures QuoteEnd(s + more, i, quote) == QuoteEnd(s, i, quote)
    decreases |s| - i
  {
    if s[i] == quote {
      if i + 1 < |s| && s[i + 1] == quote { QuoteEndExtends(s, i + 2, quote, more); }
    } else if s[i] == BACKSLASH && quote != DOUBLE {
      QuoteEndExtends(s, i + 2, quote, more);
    } else {
      QuoteEndExtends(s, i + 1, quote, more);
    }
  }

  lemma {:induction false} WordEndExtends(s: seq<byte>, i: nat, more: seq<byte>)
    requires i <= |s| && more != [] && !WordByte(more[0])
    ensures WordEnd(s + more, i) == WordEnd(s, i)
    decreases |s| - i
  {
    if i < |s| && WordByte(s[i]) { WordEndExtends(s, i + 1, more); }
  }

  /** A later `$` cannot turn a bare `$` into a tag: the breaking byte would lie inside the tag. */
  lemma DollarTagExtends(s: seq<byte>, more: seq<byte>)
    requires s != [] && s[0] == DOLLAR && more != [] && Breaks(more[0])
    ensures DollarTag(s + more) == DollarTag(s)
  {
    IndexOfExtends(s, 1, DOLLAR, more);
    assert (s + more)[|s|] == more[0] && !TagByte(more[0]) && !WordStart(more[0]);
    if IndexOf(s, 1, DOLLAR).Some? {
      var k := IndexOf(s, 1, DOLLAR).value;
      assert forall j | 0 <= j <= k :: (s + more)[j] == s[j];
      assert TagName(s, k) ==> TagName(s + more, k);
      assert TagName(s + more, k) ==> forall j | 1 <= j < k :: TagByte((s + more)[j]) && TagByte(s[j]);
    }
  }

  lemma BranchExtends(s: seq<byte>, more: seq<byte>)
    requires s != [] && more != [] && Breaks(more[0]) && Valid(s) && Valid(s + more)
    ensures BranchOf(s + more) == BranchOf(s)
    ensures SequenceLength(s + more) == SequenceLength(s)
  {
    var text := s + more;
    var n := SequenceLength(s);
    assert forall i | 0 <= i < n :: text[i] == s[i];
    assert SequenceLength(text) == n && CodePoint(text) == CodePoint(s);
    if |s| == 1 { assert text[1] == more[0]; }
    if s[0] == DOLLAR { DollarTagExtends(s, more); }
  }

  /** The step at the front of `s` is a line comment that ran to the end of `s`. */
  predicate OpenComment(s: seq<byte>)
    requires s != [] && Valid(s)
  {
    BranchOf(s) == LineComment && IndexOf(s, 2, LF).None?
  }

  /** `s` is one literal, and `more` opens another one with the same quote. */
  predicate Merges(s: seq<byte>, more: seq<byte>)
    requires s != [] && more != []
  {
    Quote(s[0]) && more[0] == s[0] && QuoteEnd(s, 1, s[0]) == Some(|s|)
  }

  /** Otherwise the step at the front of `s` is unchanged by what follows. */
  lemma LexExtends(s: seq<byte>, more: seq<byte>)
    requires s != [] && more != [] && Breaks(more[0]) && Valid(s) && Valid(s + more) && Lex(s).Advance?
    requires !OpenComment(s) && !Merges(s, more)
    ensures Lex(s + more) == Lex(s)
  {
    var text := s + more;
    BranchExtends(s, more);
    match BranchOf(s) {
      case Space =>
      case LineComment =>
        IndexOfExtends(s, 2, LF, more);
      case BlockComment =>
        FindExtends(s, 2, [STAR, SLASH], more);
      case Quoted =>
        QuoteEndExtends(s, 1, s[0], more);
      case DollarQuoted =>
        DollarTagExtends(s, more);
        var n := DollarTag(s).value;
        assert text[..n] == s[..n];
        FindExtends(s, n, s[..n], more);
      case Word =>
        WordEndExtends(s, 1, more);
        assert text[..WordEnd(s, 1)] == s[..WordEnd(s, 1)];
      case Other =>
    }
  }

  /** A line comment which ran to the end of `s` now also takes the line feed. */
  lemma CommentTakesLineFeed(s: seq<byte>, more: seq<byte>)
    requires s != [] && more != [] && more[0] == LF && Valid(s) && Valid(s + more) && OpenComment(s)
    ensures Lex(s) == Advance(|s|, None) && Lex(s + more) == Advance(|s| + 1, None)
  {
    BranchExtends(s, more);
    IndexOfExtends(s, 2, LF, more);
  }

  /** The scanner is compositional: a complete text keeps its tokens whatever line follows it,
      and the following text is scanned as if it stood alone. */
  lemma {:induction false} LinesCompose(a: seq<byte>, b: seq<byte>)
    requires Valid(a) && Valid(b) && Tokens(a).Some?
    ensures Valid(a + ([LF] + b))
    ensures Tokens(a + ([LF] + b)) == Glue(Tokens(a).value, Tokens(b))
    decreases |a|
  {
    hide Tokens, Valid, Lex, OpenComment, Merges, Glue;
    var more := [LF] + b;
    LineFeedIsSkipped(b);
    ValidConcat(a, more);
    if a == [] {
      assert a + more == more && Tokens(a) == Some([]) by { NoTokens(); }
    } else if OpenComment(a) {
      CommentCompose(a, b);
    } else {
      FirstStep(a, more);
      LexExtends(a, more);
      TokensUnfold(a);
      var n, token := Lex(a).width, AsTokens(Lex(a).token);
      LinesCompose(a[n..], b);
      ComposeStep(a, more, n, token, Tokens(a[n..]), Tokens(b));
      TokensUnfold(a + more);
    }
  }

  lemma NoTokens()
    ensures Valid([]) && Tokens([]) == Some([])
  {
  }

  lemma CommentCompose(a: seq<byte>, b: seq<byte>)
    requires a != [] && Valid(a) && Valid(b) && Valid(a + ([LF] + b)) && OpenComment(a)
    ensures Tokens(a) == Some([]) && Tokens(a + ([LF] + b)) == Tokens(b) == Glue([], Tokens(b))
  {
    var more := [LF] + b;
    CommentTakesLineFeed(a, more);
    NoTokens();
    hide Lex, Tokens, Valid, OpenComment, Glue;
    assert (a + more)[|a| + 1..] == b && a[|a|..] == [];
    TokensStep(a, |a|, []);
    TokensStep(a + more, |a| + 1, b);
    GlueNothing(Some([]));
    GlueNothing(Tokens(b));
  }

  lemma TokensStep(text: seq<byte>, n: nat, rest: seq<byte>)
    requires text != [] && Valid(text) && Lex(text).Advance? && n == Lex(text).width
    requires n <= |text| && rest == text[n..]
    ensures Valid(rest) && Tokens(text) == Glue(AsTokens(Lex(text).token), Tokens(rest))
  {
    TokensUnfold(text);
  }

  lemma FirstStep(s: seq<byte>, more: seq<byte>)
    requires s != [] && Valid(s) && Tokens(s).Some? && more != [] && more[0] == LF
    ensures Lex(s).Advance? && 0 < Lex(s).width <= |s| && Valid(s[Lex(s).width..]) && Tokens(s[Lex(s).width..]).Some?
    ensures !Merges(s, more)
  {
    TokensUnfold(s);
  }

  lemma LineFeedIsSkipped(b: seq<byte>)
    requires Valid(b)
    ensures Valid([LF] + b) && Tokens([LF] + b) == Tokens(b) && Glue([], Tokens(b)) == Tokens(b)
  {
    var more := [LF] + b;
    assert more[1..] == b;
    assert Lex(more) == Advance(1, None);
    GlueNothing(Tokens(b));
  }

  lemma ComposeStep(a: seq<byte>, more: seq<byte>, n: nat, token: seq<string>,
                    front: Option<seq<string>>, back: Option<seq<string>>)
    requires n <= |a| && front.Some?
    ensures (a + more)[n..] == a[n..] + more
    ensures Glue(token, Glue(front.value, back)) == Glue(Glue(token, front).value, back)
  {
    GlueTwice(token, front.value, back);
  }

  lemma TokensUnfold(s: seq<byte>)
    requires s != [] && Valid(s) && Lex(s).Advance?
    ensures 0 < Lex(s).width <= |s| && Valid(s[Lex(s).width..])
    ensures Tokens(s) == Glue(AsTokens(Lex(s).token), Tokens(s[Lex(s).width..]))
  {
    LexStopsOnBoundary(s);
  }

  lemma GlueNothing(rest: Option<seq<string>>)
    ensures Glue([], rest) == rest
  {
    if rest.Some? { assert [] + rest.value == rest.value; }
  }

  lemma GlueTwice(x: seq<string>, y: seq<string>, rest: Option<seq<string>>)
    ensures Glue(x, Glue(y, rest)) == Glue(x + y, rest)
  {
    if rest.Some? { assert x + (y + rest.value) == x + y + rest.value; }
  }

  // ---- Round trip: a list of words scans back to itself ----

  predicate AsciiLetter(b: byte) { 65 <= b <= 90 || 97 <= b <= 122 }

  /** First byte of a word or tag: a letter or an underscore. */
  predicate NameStart(b: byte) { AsciiLetter(b) || b == 95 }

  predicate NameByte(b: byte) { NameStart(b) || 48 <= b <= 57 }

  /** A word starts like a name; digits and dollar signs may follow. */
  predicate IsWord(w: seq<byte>)
  {
    w != [] && NameStart(w[0]) && forall i | 0 <= i < |w| :: NameByte(w[i]) || w[i] == 36
  }

  /** Words are read in lower case: A to Z become a to z, and nothing else changes. */
  function FoldedWord(w: seq<byte>): string
  {
    seq(|w|, i requires 0 <= i < |w| => if 65 <= w[i] <= 90 then (w[i] + 32) as char else w[i] as char)
  }

  predicate PlainWord(w: seq<byte>) { w == [59] || IsWord(w) }

  function Texts(words: seq<seq<byte>>): seq<string>
  {
    if words == [] then [] else [FoldedWord(words[0])] + Texts(words[1..])
  }

  function Lines(words: seq<seq<byte>>): seq<byte>
  {
    if words == [] then []
    else if |words| == 1 then words[0]
    else words[0] + ([LF] + Lines(words[1..]))
  }

  lemma {:induction false} AsciiIsValid(s: seq<byte>)
    requires forall i | 0 <= i < |s| :: s[i] < 0x80
    ensures Valid(s)
  {
    if s != [] { AsciiIsValid(s[1..]); }
  }

  lemma {:induction false} WordEndAll(s: seq<byte>, i: nat)
    requires i <= |s| && forall j | 0 <= j < |s| :: WordByte(s[j])
    ensures WordEnd(s, i) == |s|
    decreases |s| - i
  {
    if i < |s| { WordEndAll(s, i + 1); }
  }

  lemma PlainWordLex(w: seq<byte>)
    requires PlainWord(w) && Valid(w)
    ensures Lex(w) == Advance(|w|, Some(FoldedWord(w)))
  {
    assert SequenceLength(w) == 1;
    assert BranchOf(w) == if w == [SEMICOLON] then Other else Word;
    if w == [SEMICOLON] {
      assert FoldedWord(w) == ";";
    } else {
      WordEndAll(w, 1);
      assert w[..|w|] == w;
      assert LowerText(w) == FoldedWord(w);
    }
  }

  lemma WordScans(w: seq<byte>)
    requires PlainWord(w)
    ensures Valid(w) && Tokens(w) == Some([FoldedWord(w)])
  {
    AsciiIsValid(w);
    PlainWordLex(w);
    TokensUnfold(w);
    assert w[|w|..] == [];
    assert [FoldedWord(w)] + [] == [FoldedWord(w)];
  }

  /** Joining words in any case and semicolons with line feeds and scanning returns the words in lower case. */
  lemma {:induction false} WordsRoundTrip(words: seq<seq<byte>>)
    requires forall w | w in words :: PlainWord(w)
    ensures Valid(Lines(words)) && Tokens(Lines(words)) == Some(Texts(words))
  {
    if words != [] {
      WordScans(words[0]);
      if |words| == 1 {
        assert words[1..] == [] && [FoldedWord(words[0])] + [] == [FoldedWord(words[0])];
      } else {
        WordsRoundTrip(words[1..]);
        LinesCompose(words[0], Lines(words[1..]));
      }
    }
  }

  // ---- The read-only check ----

  const STARTERS: seq<string> := ["select", "with", "show", "describe", "desc", "explain"]

  const PROHIBITED: seq<string> := [
    "insert", "update", "delete", "merge", "replace", "upsert", "copy", "call", "do", "create",
    "alter", "drop", "truncate", "grant", "revoke", "attach", "detach", "vacuum", "analyze",
    "refresh", "reindex", "cluster", "lock", "set", "reset"
  ]

  function Semicolons(tokens: seq<string>): nat
  {
    if tokens == [] then 0 else Semicolons(tokens[..|tokens| - 1]) + if tokens[|tokens| - 1] == ";" then 1 else 0
  }

  predicate AcceptedTokens(tokens: seq<string>)
  {
    tokens != [] && tokens[0] in STARTERS
    && Semicolons(tokens) <= 1 && (Semicolons(tokens) == 0 || tokens[|tokens| - 1] == ";")
    && forall t | t in tokens :: t !in PROHIBITED
  }

  predicate ReadOnlySql(sql: seq<byte>)
    requires Valid(sql)
  {
    Tokens(sql).Some? && AcceptedTokens(Tokens(sql).value)
  }

  lemma {:induction false} NoSemicolons(tokens: seq<string>)
    ensures Semicolons(tokens) == 0 <==> ";" !in tokens
  {
    if tokens != [] {
      var front := tokens[..|tokens| - 1];
      NoSemicolons(front);
      assert tokens == front + [tokens[|tokens| - 1]];
    }
  }

  /** The counted condition means what the check is for: a semicolon can only end the statement. */
  lemma AcceptedMeansOneStatement(sql: seq<byte>)
    requires Valid(sql)
    ensures ReadOnlySql(sql) <==>
            (match Tokens(sql)
             case None => false
             case Some(tokens) =>
               && tokens != [] && tokens[0] in STARTERS
               && (forall i | 0 <= i < |tokens| :: tokens[i] !in PROHIBITED)
               && (forall i | 0 <= i < |tokens| :: tokens[i] == ";" ==> i == |tokens| - 1))
  {
    if Tokens(sql).Some? && Tokens(sql).value != [] {
      var tokens := Tokens(sql).value;
      var front := tokens[..|tokens| - 1];
      NoSemicolons(front);
      NoSemicolons(tokens);
      assert forall i | 0 <= i < |front| :: front[i] == tokens[i];
    }
  }

  /** Nothing but blank text may follow a finished statement. */
  lemma StackedStatementIsRefused(a: seq<byte>, b: seq<byte>)
    requires Valid(a) && Valid(b)
    requires Tokens(a).Some? && ";" in Tokens(a).value && Tokens(b) != Some([])
    ensures Valid(a + ([LF] + b)) && !ReadOnlySql(a + ([LF] + b))
  {
    LinesCompose(a, b);
    AcceptedMeansOneStatement(a + ([LF] + b));
    if Tokens(b).Some? {
      var ta, tb := Tokens(a).value, Tokens(b).value;
      var i :| 0 <= i < |ta| && ta[i] == ";";
      assert (ta + tb)[i] == ";";
    }
  }

  /** `read_only_sql` takes any text: the check above runs on its UTF-8 bytes. */
  method ReadOnly(sql: string) returns (accepted: bool)
    ensures Valid(Encode(sql)) && (accepted <==> ReadOnlySql(Encode(sql)))
  {
    EncodeValid(sql);
    var tokens := Scan(Encode(sql));
    accepted := tokens.Some? && AcceptedTokens(tokens.value);
  }
}
