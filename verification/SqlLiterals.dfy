/** Literals in SQL: their text never becomes a token, and so never decides the verdict. */
module SqlLiterals {
  import opened Search
  import opened SqlLaws
  import opened SqlTokens
  import opened Utf8
  import opened Wrappers

  // ---- What stands inside a literal never becomes a token ----

  function Escaped(quote: byte, text: seq<byte>): seq<byte>
  {
    if text == [] then []
    else if text[0] == quote || (text[0] == BACKSLASH && quote != DOUBLE) then [text[0], text[0]] + Escaped(quote, text[1..])
    else [text[0]] + Escaped(quote, text[1..])
  }

  function Literal(quote: byte, text: seq<byte>): seq<byte>
  {
    [quote] + Escaped(quote, text) + [quote]
  }

  lemma {:induction false} QuoteEndOfEscaped(front: seq<byte>, quote: byte, text: seq<byte>)
    requires Quote(quote)
    ensures QuoteEnd(front + (Escaped(quote, text) + [quote]), |front|, quote) == Some(|front| + |Escaped(quote, text)| + 1)
    decreases |text|
  {
    var s := front + (Escaped(quote, text) + [quote]);
    if text != [] {
      var step := if text[0] == quote || (text[0] == BACKSLASH && quote != DOUBLE) then [text[0], text[0]] else [text[0]];
      QuoteEndOfEscaped(front + step, quote, text[1..]);
      assert s == front + step + (Escaped(quote, text[1..]) + [quote]);
    }
  }

  /** A literal on a line of its own adds nothing to the tokens, whatever text it holds. */
  lemma LiteralIsInert(quote: byte, text: seq<byte>)
    requires Quote(quote) && Valid(Literal(quote, text))
    ensures Tokens(Literal(quote, text)) == Some([])
  {
    var s := Literal(quote, text);
    LiteralLex(quote, text);
    TokensUnfold(s);
    assert s[|s|..] == [] && [] + [] == AsTokens(None);
  }

  lemma LiteralLex(quote: byte, text: seq<byte>)
    requires Quote(quote) && Valid(Literal(quote, text))
    ensures Lex(Literal(quote, text)) == Advance(|Literal(quote, text)|, None)
  {
    var s := Literal(quote, text);
    QuoteEndOfEscaped([quote], quote, text);
    assert s == [quote] + (Escaped(quote, text) + [quote]);
    assert s[0] == quote && SequenceLength(s) == 1;
    assert BranchOf(s) == Quoted;
  }

  // ---- Literals inside a statement ----

  /** A complete text whose last step is a line comment without its line feed. */
  predicate EndsInComment(s: seq<byte>)
    requires Valid(s)
    decreases |s|
  {
    if s == [] || Lex(s).Broken? then false
    else
      LexStopsOnBoundary(s);
      if Lex(s).width == |s| then OpenComment(s) else EndsInComment(s[Lex(s).width..])
  }

  lemma NotInComment(s: seq<byte>)
    requires s != [] && Valid(s) && Lex(s).Advance? && !EndsInComment(s)
    ensures !OpenComment(s) && 0 < Lex(s).width <= |s| && Valid(s[Lex(s).width..])
    ensures !EndsInComment(s[Lex(s).width..])
  {
    LexStopsOnBoundary(s);
    if Lex(s).width == |s| { assert s[|s|..] == []; }
  }

  function Shift(end: Option<nat>, n: nat): Option<nat>
  {
    match end case None => None case Some(k) => Some(n + k)
  }

  lemma {:induction false} QuoteEndShift(front: seq<byte>, s: seq<byte>, i: nat, quote: byte)
    ensures QuoteEnd(front + s, |front| + i, quote) == Shift(QuoteEnd(s, i, quote), |front|)
    decreases |s| - i
  {
    if i < |s| {
      assert (front + s)[|front| + i] == s[i];
      QuoteEndShift(front, s, i + 1, quote);
      QuoteEndShift(front, s, i + 2, quote);
    }
  }

  /** Where one literal ends and the next begins, the two quotes read as one doubled quote. */
  lemma {:induction false} QuoteEndMerges(s: seq<byte>, i: nat, quote: byte, more: seq<byte>)
    requires QuoteEnd(s, i, quote) == Some(|s|) && more != [] && more[0] == quote
    ensures QuoteEnd(s + more, i, quote) == Shift(QuoteEnd(more, 1, quote), |s|)
    decreases |s| - i
  {
    if s[i] == quote {
      if i + 1 < |s| {
        QuoteEndMerges(s, i + 2, quote, more);
      } else {
        assert (s + more)[i + 1] == quote;
        QuoteEndShift(s, more, 1, quote);
      }
    } else if s[i] == BACKSLASH && quote != DOUBLE {
      QuoteEndMerges(s, i + 2, quote, more);
    } else {
      QuoteEndMerges(s, i + 1, quote, more);
    }
  }

  lemma QuoteIsQuoted(s: seq<byte>)
    requires s != [] && Valid(s) && Quote(s[0])
    ensures BranchOf(s) == Quoted
  {
    assert SequenceLength(s) == 1;
  }

  lemma LexMerged(s: seq<byte>, more: seq<byte>)
    requires s != [] && more != [] && Valid(s) && Valid(more) && Valid(s + more) && Merges(s, more)
    ensures Lex(s + more) == match Lex(more) case Broken => Broken case Advance(n, _) => Advance(|s| + n, None)
    ensures Lex(more).Advance? ==> Lex(more).token == None
  {
    assert (s + more)[0] == s[0];
    QuoteEndMerges(s, 1, s[0], more);
    QuoteIsQuoted(s + more);
    QuoteIsQuoted(more);
    hide BranchOf, QuoteEnd;
  }

  lemma BrokenHasNoTokens(s: seq<byte>)
    requires s != [] && Valid(s) && Lex(s).Broken?
    ensures Tokens(s) == None
  {
  }

  lemma DropPast(s: seq<byte>, more: seq<byte>, n: nat)
    requires n <= |more|
    ensures (s + more)[|s| + n..] == more[n..]
  {
  }

  lemma MergedTokens(s: seq<byte>, more: seq<byte>)
    requires s != [] && more != [] && Valid(s) && Valid(more) && Valid(s + more) && Merges(s, more)
    ensures Tokens(s + more) == Tokens(more)
  {
    LexMerged(s, more);
    if Lex(more).Advance? { LexStopsOnBoundary(more); }
    hide Lex, Merges, Tokens, Valid;
    if Lex(more).Advance? {
      var n := Lex(more).width;
      var rest := more[n..];
      DropPast(s, more, n);
      TokensStep(s + more, |s| + n, rest);
      TokensStep(more, n, rest);
    } else {
      BrokenHasNoTokens(more);
      BrokenHasNoTokens(s + more);
    }
  }

  /**
   * A complete text that does not end inside a line comment keeps its tokens when text beginning with a quote follows
   * it directly, even when both quotes that meet are the same.
   */
  lemma {:induction false} QuotedComposes(a: seq<byte>, more: seq<byte>)
    requires Valid(a) && Valid(more) && Tokens(a).Some? && !EndsInComment(a)
    requires more != [] && Quote(more[0])
    ensures Valid(a + more) && Tokens(a + more) == Glue(Tokens(a).value, Tokens(more))
    decreases |a|
  {
    hide EndsInComment, BranchOf, QuoteEnd;
    ValidConcat(a, more);
    GlueNothing(Tokens(more));
    if a == [] {
      assert a + more == more;
    } else {
      var n, token := Lex(a).width, AsTokens(Lex(a).token);
      TokensUnfold(a);
      NotInComment(a);
      if Merges(a, more) {
        QuoteIsQuoted(a);
        assert a[n..] == [] && token + [] == [];
        MergedTokens(a, more);
      } else {
        StepExtends(a, more);
        QuotedComposes(a[n..], more);
        GlueTwice(token, Tokens(a[n..]).value, Tokens(more));
      }
    }
  }

  /** What follows a literal is scanned as if it stood alone, also when it opens with the same quote. */
  lemma LiteralThen(quote: byte, text: seq<byte>, post: seq<byte>)
    requires Quote(quote) && Valid(Literal(quote, text)) && Valid(post)
    ensures Valid(Literal(quote, text) + post) && Tokens(Literal(quote, text) + post) == Tokens(post)
  {
    var s := Literal(quote, text);
    ValidConcat(s, post);
    LiteralLex(quote, text);
    LiteralIsInert(quote, text);
    QuoteIsQuoted(s);
    if post == [] {
      assert s + post == s;
    } else if post[0] == quote {
      MergedTokens(s, post);
    } else {
      QuoteIsQuoted(s + post);
      QuoteEndExtends(s, 1, quote, post);
      TokensUnfold(s + post);
      assert (s + post)[|s|..] == post;
      GlueNothing(Tokens(post));
    }
  }

  /** A literal adds no token wherever it stands outside a line comment. */
  lemma LiteralInside(pre: seq<byte>, quote: byte, text: seq<byte>, post: seq<byte>)
    requires Valid(pre) && Tokens(pre).Some? && !EndsInComment(pre)
    requires Quote(quote) && Valid(Literal(quote, text)) && Valid(post)
    ensures Valid(pre + (Literal(quote, text) + post))
    ensures Tokens(pre + (Literal(quote, text) + post)) == Glue(Tokens(pre).value, Tokens(post))
  {
    LiteralThen(quote, text, post);
    QuotedComposes(pre, Literal(quote, text) + post);
  }

  lemma StepExtends(a: seq<byte>, more: seq<byte>)
    requires a != [] && more != [] && Breaks(more[0]) && Valid(a) && Valid(more) && Lex(a).Advance?
    requires !OpenComment(a) && !Merges(a, more)
    ensures Valid(a + more) && 0 < Lex(a).width <= |a| && Valid(a[Lex(a).width..])
    ensures Valid(a[Lex(a).width..] + more)
    ensures Tokens(a + more) == Glue(AsTokens(Lex(a).token), Tokens(a[Lex(a).width..] + more))
  {
    hide Lex, Valid, OpenComment, Merges, Tokens, Glue, Breaks;
    var text, n := a + more, Lex(a).width;
    ValidConcat(a, more);
    LexStopsOnBoundary(a);
    var rest := a[n..] + more;
    ValidConcat(a[n..], more);
    LexExtends(a, more);
    assert rest == text[n..];
    TokensStep(text, n, rest);
  }

  /** An open comment takes in everything up to the next line feed. */
  lemma {:induction false} CommentSwallows(a: seq<byte>, x: byte)
    requires Valid(a) && Tokens(a).Some? && EndsInComment(a) && Quote(x)
    ensures Valid(a + [x]) && Tokens(a + [x]) == Tokens(a)
    decreases |a|
  {
    assert a != [] && Lex(a).Advance?;
    ValidConcat(a, [x]);
    AsciiIsValid([x]);
    TokensUnfold(a);
    if OpenComment(a) {
      LexInComment(a, x);
      TokensUnfold(a + [x]);
      assert a[|a|..] == [] && (a + [x])[|a + [x]|..] == [];
    } else {
      CommentIsLater(a);
      assert !Merges(a, [x]) by { if Merges(a, [x]) { MergesWhole(a, [x]); } }
      StepExtends(a, [x]);
      hide Lex, EndsInComment, OpenComment, Merges;
      CommentSwallows(a[Lex(a).width..], x);
    }
  }

  lemma MergesWhole(s: seq<byte>, more: seq<byte>)
    requires s != [] && more != [] && Valid(s) && Merges(s, more)
    ensures Lex(s) == Advance(|s|, None)
  {
    QuoteIsQuoted(s);
  }

  lemma LexInComment(a: seq<byte>, x: byte)
    requires a != [] && Valid(a) && Valid(a + [x]) && OpenComment(a) && Quote(x)
    ensures Lex(a) == Advance(|a|, None) && Lex(a + [x]) == Advance(|a + [x]|, None)
  {
    BranchExtends(a, [x]);
    IndexOfExtends(a, 2, LF, [x]);
  }

  lemma CommentIsLater(s: seq<byte>)
    requires s != [] && Valid(s) && EndsInComment(s) && !OpenComment(s)
    ensures Lex(s).Advance? && 0 < Lex(s).width < |s| && Valid(s[Lex(s).width..]) && EndsInComment(s[Lex(s).width..])
  {
    LexStopsOnBoundary(s);
  }

  lemma LiteralLineFeed(quote: byte)
    requires Quote(quote)
    ensures Literal(quote, [LF]) == [quote, LF, quote] && Valid(Literal(quote, [LF]))
  {
    AsciiIsValid([quote, LF, quote]);
    assert Escaped(quote, [LF]) == [LF] by { assert [LF][1..] == []; }
  }

  /** Inside an open line comment the text of a literal does matter: a line feed in it ends the comment. */
  lemma CommentedLiteralIsRead(pre: seq<byte>, quote: byte)
    requires Valid(pre) && Tokens(pre).Some? && EndsInComment(pre) && Quote(quote)
    ensures Valid(Literal(quote, [LF])) && Valid(pre + (Literal(quote, [LF]) + []))
    ensures Tokens(pre + (Literal(quote, [LF]) + [])) == None
  {
    hide EndsInComment, Literal, Tokens, Valid;
    LiteralLineFeed(quote);
    LoneQuote(quote);
    CommentSwallows(pre, quote);
    LinesCompose(pre + [quote], [quote]);
    assert pre + (Literal(quote, [LF]) + []) == pre + [quote] + ([LF] + [quote]);
  }

  lemma LoneQuote(quote: byte)
    requires Quote(quote)
    ensures Valid([quote]) && Tokens([quote]) == None
  {
    AsciiIsValid([quote]);
    QuoteIsQuoted([quote]);
    BrokenHasNoTokens([quote]);
  }

  ghost predicate InertAfter(pre: seq<byte>, quote: byte, text: seq<byte>, post: seq<byte>)
    requires Valid(pre) && Valid(Literal(quote, text)) && Valid(post) && Tokens(pre).Some?
  {
    var s := pre + (Literal(quote, text) + post);
    Valid(s) && Tokens(s) == Glue(Tokens(pre).value, Tokens(post))
  }

  /** Every literal is inert behind a complete text exactly if the text does not end inside a line comment. */
  lemma LiteralsInertIff(pre: seq<byte>, quote: byte)
    requires Valid(pre) && Tokens(pre).Some? && Quote(quote)
    ensures !EndsInComment(pre) <==>
            forall text, post | Valid(Literal(quote, text)) && Valid(post) :: InertAfter(pre, quote, text, post)
  {
    if EndsInComment(pre) {
      CommentedLiteralIsRead(pre, quote);
      assert !InertAfter(pre, quote, [LF], []);
    } else {
      forall text, post | Valid(Literal(quote, text)) && Valid(post) ensures InertAfter(pre, quote, text, post) {
        LiteralInside(pre, quote, text, post);
      }
    }
  }

  lemma LineFeedAddsNothing(a: seq<byte>)
    requires Valid(a) && Tokens(a).Some?
    ensures Valid(a + [LF]) && Tokens(a + [LF]) == Tokens(a)
  {
    var tokens := Tokens(a).value;
    LinesCompose(a, []);
    assert Tokens([]) == Some([]);
    assert [LF] + [] == [LF] && tokens + [] == tokens;
  }

  lemma EndsLater(s: seq<byte>, n: nat, rest: seq<byte>)
    requires s != [] && Valid(s) && Lex(s).Advance? && Lex(s).width == n < |s| && rest == s[n..]
    ensures Valid(rest) && EndsInComment(s) == EndsInComment(rest)
  {
    LexStopsOnBoundary(s);
  }

  /** Behind a complete text and a line feed literals are inert, whatever the text ends in. */
  lemma {:induction false} LineFeedEndsComment(a: seq<byte>)
    requires Valid(a) && Tokens(a).Some?
    ensures Valid(a + [LF]) && Tokens(a + [LF]) == Tokens(a) && !EndsInComment(a + [LF])
    decreases |a|
  {
    hide Tokens, Valid, Lex, OpenComment, Merges, EndsInComment;
    LineFeedAddsNothing(a);
    if a == [] {
      LoneLineFeed();
      assert a + [LF] == [LF];
    } else if OpenComment(a) {
      ClosedComment(a);
    } else {
      FirstStep(a, [LF]);
      var n := Lex(a).width;
      var rest := a[n..];
      LineFeedEndsComment(rest);
      LexExtends(a, [LF]);
      assert (a + [LF])[n..] == rest + [LF];
      EndsLater(a + [LF], n, rest + [LF]);
    }
  }

  lemma LoneLineFeed()
    ensures Valid([LF]) && !EndsInComment([LF])
  {
    AsciiIsValid([LF]);
    assert BranchOf([LF]) == Space;
  }

  lemma ClosedComment(a: seq<byte>)
    requires a != [] && Valid(a) && Valid(a + [LF]) && OpenComment(a)
    ensures !EndsInComment(a + [LF])
  {
    CommentTakesLineFeed(a, [LF]);
    IndexOfExtends(a, 2, LF, [LF]);
  }

  /** The verdict on a statement does not depend on the text of a literal in it. */
  lemma VerdictIgnoresLiterals(pre: seq<byte>, quote: byte, t1: seq<byte>, t2: seq<byte>, post: seq<byte>)
    requires Valid(pre) && Tokens(pre).Some? && !EndsInComment(pre) && Valid(post) && Quote(quote)
    requires Valid(Literal(quote, t1)) && Valid(Literal(quote, t2))
    ensures var s1 := pre + (Literal(quote, t1) + post);
            var s2 := pre + (Literal(quote, t2) + post);
            Valid(s1) && Valid(s2) && Tokens(s1) == Tokens(s2) && (ReadOnlySql(s1) <==> ReadOnlySql(s2))
  {
    LiteralInside(pre, quote, t1, post);
    LiteralInside(pre, quote, t2, post);
  }
}
