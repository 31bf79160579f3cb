/** SQL written out of phrases, literals, comments and dollar strings: what the scanner and the gate make of it. */
module SqlScripts {
  import opened Search
  import opened SqlLaws
  import opened SqlTokens
  import opened Utf8
  import opened Wrappers

  // ---- The pieces, by code point ----

  /** A character that ends a word and starts no literal, comment or dollar string. */
  predicate IsGap(c: char)
  {
    c as int >= 128 || (!NameByte(c as int) && c as int !in {34, 36, 39, 45, 47, 96})
  }

  /** A word, which may be missing, and the character behind it. */
  datatype Piece = Piece(word: seq<byte>, gap: char)

  /** What may stand between quotes: a byte that means itself, a doubled quote, or a backslash and the byte it hides. */
  datatype Inside = Itself(b: byte) | DoubledQuote | Backslashed(b: byte)

  datatype Segment =
    | Phrase(pieces: seq<Piece>)
    | Literally(quote: byte, inside: seq<Inside>)
    | LineRemark(text: seq<byte>)
    | BlockRemark(text: seq<byte>)
    | DollarText(tag: seq<byte>, text: seq<byte>)

  function PieceBytes(p: Piece): seq<byte> { p.word + EncodeChar(p.gap) }

  function PhraseBytes(pieces: seq<Piece>): seq<byte>
  {
    if pieces == [] then [] else PieceBytes(pieces[0]) + PhraseBytes(pieces[1..])
  }

  function InsideBytes(quote: byte, inside: seq<Inside>): seq<byte>
  {
    if inside == [] then []
    else InsideByte(quote, inside[0]) + InsideBytes(quote, inside[1..])
  }

  function InsideByte(quote: byte, x: Inside): seq<byte>
  {
    match x case Itself(b) => [b] case DoubledQuote => [quote, quote] case Backslashed(b) => [92, b]
  }

  function Tag(tag: seq<byte>): seq<byte> { [36] + tag + [36] }

  function Bytes(g: Segment): seq<byte>
  {
    match g
    case Phrase(pieces) => PhraseBytes(pieces)
    case Literally(quote, inside) => [quote] + (InsideBytes(quote, inside) + [quote])
    case LineRemark(text) => [45, 45] + text
    case BlockRemark(text) => [47, 42] + text + [42, 47]
    case DollarText(tag, text) => Tag(tag) + text + Tag(tag)
  }

  /** In double quotes a backslash is a character like any other. */
  predicate Fits(quote: byte, x: Inside)
  {
    match x
    case Itself(b) => b != quote && (quote == 34 || b != 92)
    case DoubledQuote => true
    case Backslashed(_) => quote != 34
  }

  predicate AllFit(quote: byte, inside: seq<Inside>) { forall x | x in inside :: Fits(quote, x) }

  predicate ClosesEarly(text: seq<byte>, close: seq<byte>)
  {
    exists i | 0 <= i < |text| :: OccursAt(text + close, close, i)
  }

  predicate IsTag(tag: seq<byte>)
  {
    tag == [] || (NameStart(tag[0]) && forall i | 0 <= i < |tag| :: NameByte(tag[i]))
  }

  predicate WellFormed(g: Segment)
  {
    Valid(Bytes(g))
    && match g
       case Phrase(pieces) => forall p | p in pieces :: (p.word == [] || IsWord(p.word)) && IsGap(p.gap)
       case Literally(quote, inside) => quote in {34, 39, 96} && AllFit(quote, inside)
       case LineRemark(text) => 10 !in text
       case BlockRemark(text) => !ClosesEarly(text, [42, 47])
       case DollarText(tag, text) => IsTag(tag) && !ClosesEarly(text, Tag(tag))
  }

  // ---- What they mean ----

  function PieceMeaning(p: Piece): seq<string>
  {
    (if p.word == [] then [] else [FoldedWord(p.word)]) + (if p.gap == ';' then [";"] else [])
  }

  function PhraseMeaning(pieces: seq<Piece>): seq<string>
  {
    if pieces == [] then [] else PieceMeaning(pieces[0]) + PhraseMeaning(pieces[1..])
  }

  function SegmentMeaning(g: Segment): seq<string>
  {
    if g.Phrase? then PhraseMeaning(g.pieces) else []
  }

  function Meaning(script: seq<Segment>): seq<string>
  {
    if script == [] then [] else SegmentMeaning(script[0]) + Meaning(script[1..])
  }

  /** One segment a line. */
  function ScriptBytes(script: seq<Segment>): seq<byte>
  {
    if script == [] then [] else Bytes(script[0]) + ([10] + ScriptBytes(script[1..]))
  }

  // ---- Phrases ----

  lemma {:induction false} WordEndIn(w: seq<byte>, i: nat, more: seq<byte>)
    requires i <= |w| && (forall j | 0 <= j < |w| :: NameByte(w[j]) || w[j] == 36)
    requires more != [] && !NameByte(more[0]) && more[0] != 36
    ensures WordEnd(w + more, i) == |w|
    decreases |w| - i
  {
    if i < |w| { WordEndIn(w, i + 1, more); }
  }

  lemma LexWord(w: seq<byte>, more: seq<byte>)
    requires IsWord(w) && Valid(w + more) && more != [] && !NameByte(more[0]) && more[0] != 36
    ensures Lex(w + more) == Advance(|w|, Some(FoldedWord(w)))
  {
    var s := w + more;
    assert s[0] == w[0] && SequenceLength(s) == 1;
    assert BranchOf(s) == Word;
    WordEndIn(w, 1, more);
    assert s[..|w|] == w;
    assert LowerText(w) == FoldedWord(w);
  }

  lemma LexGap(c: char, more: seq<byte>)
    requires IsGap(c) && Valid(EncodeChar(c) + more)
    ensures Lex(EncodeChar(c) + more) == Advance(|EncodeChar(c)|, if c == ';' then Some(";") else None)
  {
    var s := EncodeChar(c) + more;
    EncodeCharDecodes(c, more);
    assert s[0] == EncodeChar(c)[0];
    assert BranchOf(s) == Space || BranchOf(s) == Other;
  }

  function GapMeaning(c: char): seq<string> { if c == ';' then [";"] else [] }

  lemma GapScans(c: char, more: seq<byte>)
    requires IsGap(c) && Valid(more)
    ensures Valid(EncodeChar(c) + more) && Tokens(EncodeChar(c) + more) == Glue(GapMeaning(c), Tokens(more))
    ensures EncodeChar(c)[0] != 36 && !NameByte(EncodeChar(c)[0])
  {
    hide Valid, Tokens, Lex, Glue;
    EncodeCharRoundTrip(c);
    ValidConcat(EncodeChar(c), more);
    LexGap(c, more);
    TokensStep(EncodeChar(c) + more, |EncodeChar(c)|, more);
  }

  lemma WordScansBefore(w: seq<byte>, more: seq<byte>)
    requires IsWord(w) && Valid(more) && more != [] && !NameByte(more[0]) && more[0] != 36
    ensures Valid(w + more) && Tokens(w + more) == Glue([FoldedWord(w)], Tokens(more))
  {
    hide Valid, Tokens, Lex, Glue, FoldedWord;
    AsciiIsValid(w);
    ValidConcat(w, more);
    LexWord(w, more);
    TokensStep(w + more, |w|, more);
  }

  lemma PieceScans(p: Piece, more: seq<byte>)
    requires (p.word == [] || IsWord(p.word)) && IsGap(p.gap) && Valid(more)
    ensures Valid(PieceBytes(p) + more)
    ensures Tokens(PieceBytes(p) + more) == Glue(PieceMeaning(p), Tokens(more))
  {
    hide Valid, Tokens, Glue, FoldedWord, EncodeChar, IsGap, IsWord, NameByte;
    var gap := EncodeChar(p.gap);
    GapScans(p.gap, more);
    if p.word == [] {
      assert PieceBytes(p) + more == gap + more;
      assert PieceMeaning(p) == GapMeaning(p.gap);
    } else {
      assert PieceBytes(p) + more == p.word + (gap + more);
      WordScansBefore(p.word, gap + more);
      GlueTwice([FoldedWord(p.word)], GapMeaning(p.gap), Tokens(more));
    }
  }

  lemma {:induction false} PhraseScans(pieces: seq<Piece>)
    requires forall p | p in pieces :: (p.word == [] || IsWord(p.word)) && IsGap(p.gap)
    ensures Valid(PhraseBytes(pieces)) && Tokens(PhraseBytes(pieces)) == Some(PhraseMeaning(pieces))
  {
    if pieces != [] {
      PhraseScans(pieces[1..]);
      PieceScans(pieces[0], PhraseBytes(pieces[1..]));
    }
  }

  // ---- Literals, comments and dollar strings ----

  /** A segment whose first step is silent and reaches its end adds nothing. */
  lemma SilentSegment(s: seq<byte>)
    requires s != [] && Valid(s) && Lex(s) == Advance(|s|, None)
    ensures Tokens(s) == Some([])
  {
    TokensStep(s, |s|, []);
    assert Tokens([]) == Some([]);
    GlueNothing(Some([]));
  }

  lemma QuoteEndSteps(s: seq<byte>, i: nat, quote: byte, x: Inside)
    requires Fits(quote, x) && quote in {34, 39, 96}
    requires var step := InsideByte(quote, x);
             i + |step| <= |s| && s[i] == step[0] && (|step| == 2 ==> s[i + 1] == step[1])
    ensures QuoteEnd(s, i, quote) == QuoteEnd(s, i + |InsideByte(quote, x)|, quote)
  {
  }

  lemma ClosingQuote(front: seq<byte>, quote: byte)
    ensures QuoteEnd(front + [quote], |front|, quote) == Some(|front| + 1)
  {
  }

  lemma {:induction false} QuoteEndOfInside(front: seq<byte>, quote: byte, inside: seq<Inside>)
    requires quote in {34, 39, 96} && AllFit(quote, inside)
    ensures var body := InsideBytes(quote, inside);
            QuoteEnd(front + (body + [quote]), |front|, quote) == Some(|front| + |body| + 1)
    decreases |inside|
  {
    hide QuoteEnd, InsideByte, Fits;
    if inside == [] {
      assert front + ([] + [quote]) == front + [quote];
      ClosingQuote(front, quote);
    } else {
      var step, rest := InsideByte(quote, inside[0]), InsideBytes(quote, inside[1..]);
      var tail := rest + [quote];
      InsideLength(quote, inside[0]);
      assert InsideBytes(quote, inside) + [quote] == step + tail;
      SplitsAt(front, step, tail);
      QuoteEndSteps(front + (step + tail), |front|, quote, inside[0]);
      QuoteEndOfInside(front + step, quote, inside[1..]);
    }
  }

  lemma SplitsAt(front: seq<byte>, step: seq<byte>, tail: seq<byte>)
    requires 1 <= |step| <= 2
    ensures var s := front + (step + tail);
            s == front + step + tail && s[|front|] == step[0] && (|step| == 2 ==> s[|front| + 1] == step[1])
  {
  }

  lemma InsideLength(quote: byte, x: Inside)
    ensures 1 <= |InsideByte(quote, x)| <= 2
  {
  }

  lemma QuotedScans(quote: byte, inside: seq<Inside>)
    requires WellFormed(Literally(quote, inside))
    ensures Tokens(Bytes(Literally(quote, inside))) == Some([])
  {
    var s := Bytes(Literally(quote, inside));
    QuoteEndOfInside([quote], quote, inside);
    assert s[0] == quote && SequenceLength(s) == 1 && BranchOf(s) == Quoted;
    SilentSegment(s);
  }

  lemma LineRemarkScans(text: seq<byte>)
    requires WellFormed(LineRemark(text))
    ensures Tokens(Bytes(LineRemark(text))) == Some([])
  {
    var s := Bytes(LineRemark(text));
    assert SequenceLength(s) == 1 && BranchOf(s) == LineComment;
    assert forall j | 2 <= j < |s| :: s[j] == text[j - 2];
    SilentSegment(s);
  }

  lemma OccursThere<T>(s: seq<T>, p: seq<T>, k: nat)
    requires k + |p| <= |s|
    ensures OccursAt(s, p, k) <==> s[k..][..|p|] == p
  {
    var there := s[k..][..|p|];
    assert forall j | 0 <= j < |p| :: there[j] == s[k + j];
  }

  lemma OccursBehind<T>(front: seq<T>, s: seq<T>, p: seq<T>, k: nat)
    ensures OccursAt(front + s, p, |front| + k) <==> OccursAt(s, p, k)
  {
    var all := front + s;
    assert forall i | 0 <= i < |s| :: all[|front| + i] == s[i];
    if k + |p| <= |s| {
      assert all[|front| + k..][..|p|] == s[k..][..|p|];
      OccursThere(all, p, |front| + k);
      OccursThere(s, p, k);
    }
  }

  lemma {:induction false} FindsClose(front: seq<byte>, text: seq<byte>, close: seq<byte>, k: nat)
    requires k <= |text| && close != [] && !ClosesEarly(text, close)
    ensures Find(front + (text + close), |front| + k, close) == Some(|front| + |text|)
    decreases |text| - k
  {
    hide OccursAt;
    OccursBehind(front, text + close, close, k);
    if k == |text| {
      ClosesThere(text, close);
    } else {
      assert !OccursAt(text + close, close, k);
      FindsClose(front, text, close, k + 1);
    }
  }

  lemma ClosesThere(text: seq<byte>, close: seq<byte>)
    ensures OccursAt(text + close, close, |text|)
  {
  }

  lemma LexBlock(s: seq<byte>, k: nat)
    requires Valid(s) && |s| >= 2 && s[0] == 47 && s[1] == 42 && Find(s, 2, [42, 47]) == Some(k)
    ensures Lex(s) == Advance(k + 2, None)
  {
    assert SequenceLength(s) == 1 && BranchOf(s) == BlockComment;
  }

  lemma BlockRemarkScans(text: seq<byte>)
    requires WellFormed(BlockRemark(text))
    ensures Tokens(Bytes(BlockRemark(text))) == Some([])
  {
    hide Find, Lex, Tokens, Valid, OccursAt;
    var s := Bytes(BlockRemark(text));
    assert !ClosesEarly(text, [42, 47]);
    FindsClose([47, 42], text, [42, 47], 0);
    assert s == [47, 42] + (text + [42, 47]);
    LexBlock(s, |text| + 2);
    SilentSegment(s);
  }

  lemma {:induction false} FirstDollar(front: seq<byte>, tag: seq<byte>, more: seq<byte>, k: nat)
    requires k <= |tag| && IsTag(tag)
    ensures IndexOf(front + tag + [36] + more, |front| + k, 36) == Some(|front| + |tag|)
    decreases |tag| - k
  {
    if k < |tag| {
      assert (front + tag + [36] + more)[|front| + k] == tag[k] && NameByte(tag[k]);
      FirstDollar(front, tag, more, k + 1);
    }
  }

  lemma TagIsRead(tag: seq<byte>, more: seq<byte>)
    requires IsTag(tag)
    ensures var s := Tag(tag) + more;
            s[0] == DOLLAR && DollarTag(s) == Some(|tag| + 2) && s[..|tag| + 2] == Tag(tag)
  {
    var s := Tag(tag) + more;
    if tag != [] {
      FirstDollar([36], tag, more, 0);
      assert s == [36] + tag + [36] + more;
      assert forall j | 1 <= j < |tag| + 1 :: s[j] == tag[j - 1];
    }
  }

  lemma LexDollar(s: seq<byte>, n: nat, k: nat)
    requires Valid(s) && s != [] && s[0] == 36 && DollarTag(s) == Some(n) && Find(s, n, s[..n]) == Some(k)
    ensures Lex(s) == Advance(k + n, None)
  {
    assert SequenceLength(s) == 1 && BranchOf(s) == DollarQuoted;
  }

  lemma DollarTextScans(tag: seq<byte>, text: seq<byte>)
    requires WellFormed(DollarText(tag, text))
    ensures Tokens(Bytes(DollarText(tag, text))) == Some([])
  {
    hide Find, Lex, Tokens, Valid, OccursAt, DollarTag, IsTag, ClosesEarly;
    var s := Bytes(DollarText(tag, text));
    var n := |tag| + 2;
    assert s == Tag(tag) + (text + Tag(tag)) && |Tag(tag)| == n;
    TagIsRead(tag, text + Tag(tag));
    FindsClose(Tag(tag), text, Tag(tag), 0);
    LexDollar(s, n, n + |text|);
    SilentSegment(s);
  }

  lemma SegmentScans(g: Segment)
    requires WellFormed(g)
    ensures Valid(Bytes(g)) && Tokens(Bytes(g)) == Some(SegmentMeaning(g))
  {
    match g {
      case Phrase(pieces) => PhraseScans(pieces);
      case Literally(quote, inside) => QuotedScans(quote, inside);
      case LineRemark(text) => LineRemarkScans(text);
      case BlockRemark(text) => BlockRemarkScans(text);
      case DollarText(tag, text) => DollarTextScans(tag, text);
    }
  }

  /**
   * Whatever script one writes out of phrases in any case, literals with doubled quotes and hidden bytes, comments and
   * dollar strings: the scanner reads exactly its words, in lower case, and its semicolons.
   */
  lemma {:induction false} ScriptScans(script: seq<Segment>)
    requires forall g | g in script :: WellFormed(g)
    ensures Valid(ScriptBytes(script)) && Tokens(ScriptBytes(script)) == Some(Meaning(script))
  {
    if script != [] {
      hide WellFormed, Tokens, Valid, Bytes, SegmentMeaning;
      SegmentScans(script[0]);
      ScriptScans(script[1..]);
      LinesCompose(Bytes(script[0]), ScriptBytes(script[1..]));
    } else {
      NoTokens();
    }
  }

  predicate Starts(word: string) { word in {"select", "with", "show", "describe", "desc", "explain"} }

  predicate Prohibited(word: string)
  {
    word in {
      "insert", "update", "delete", "merge", "replace", "upsert", "copy", "call", "do", "create", "alter", "drop",
      "truncate", "grant", "revoke", "attach", "detach", "vacuum", "analyze", "refresh", "reindex", "cluster", "lock",
      "set", "reset"}
  }

  lemma StartersMean(word: string)
    ensures Starts(word) <==> word in STARTERS
  {
  }

  lemma ProhibitedMeans(word: string)
    ensures Prohibited(word) <==> word in PROHIBITED
  {
  }

  /** The gate accepts a script exactly if it is one reading statement without a prohibited word. */
  lemma ScriptVerdict(script: seq<Segment>)
    requires forall g | g in script :: WellFormed(g)
    ensures Valid(ScriptBytes(script))
    ensures ReadOnlySql(ScriptBytes(script)) <==>
              var words := Meaning(script);
              && words != [] && Starts(words[0]) && (forall w | w in words :: !Prohibited(w))
              && (forall i | 0 <= i < |words| - 1 :: words[i] != ";")
  {
    hide Starts, Prohibited, WellFormed, Tokens, Meaning, ScriptBytes, ReadOnlySql;
    ScriptScans(script);
    AcceptedMeansOneStatement(ScriptBytes(script));
    forall w ensures (Starts(w) <==> w in STARTERS) && (Prohibited(w) <==> w in PROHIBITED) {
      StartersMean(w);
      ProhibitedMeans(w);
    }
  }

  // ---- Letter case ----

  /** Equal but for the case of ASCII letters. */
  predicate SameLetters(v: seq<byte>, w: seq<byte>)
  {
    |v| == |w| && forall i | 0 <= i < |v| ::
      v[i] == w[i] || (AsciiLetter(v[i]) && AsciiLetter(w[i]) && (v[i] == w[i] + 32 || w[i] == v[i] + 32))
  }

  predicate SamePhrase(a: seq<Piece>, b: seq<Piece>)
  {
    |a| == |b| && forall i | 0 <= i < |a| :: SameLetters(a[i].word, b[i].word) && a[i].gap == b[i].gap
  }

  predicate SameScript(a: seq<Segment>, b: seq<Segment>)
  {
    |a| == |b| && forall i | 0 <= i < |a| :: SameSegment(a[i], b[i])
  }

  predicate SameSegment(g: Segment, h: Segment)
  {
    g == h || (g.Phrase? && h.Phrase? && SamePhrase(g.pieces, h.pieces))
  }

  lemma FoldsAlike(v: seq<byte>, w: seq<byte>)
    requires SameLetters(v, w)
    ensures FoldedWord(v) == FoldedWord(w)
  {
    forall i | 0 <= i < |v| ensures FoldedWord(v)[i] == FoldedWord(w)[i] { }
  }

  lemma {:induction false} PhrasesAlike(a: seq<Piece>, b: seq<Piece>)
    requires SamePhrase(a, b)
    ensures PhraseMeaning(a) == PhraseMeaning(b)
  {
    if a != [] {
      FoldsAlike(a[0].word, b[0].word);
      PhrasesAlike(a[1..], b[1..]);
    }
  }

  lemma {:induction false} ScriptsAlike(a: seq<Segment>, b: seq<Segment>)
    requires SameScript(a, b)
    ensures Meaning(a) == Meaning(b)
  {
    if a != [] {
      assert SameSegment(a[0], b[0]);
      if a[0] != b[0] { PhrasesAlike(a[0].pieces, b[0].pieces); }
      ScriptsAlike(a[1..], b[1..]);
    }
  }

  /** Letter case outside literals, comments and dollar strings changes neither tokens nor verdict. */
  lemma CaseDoesNotMatter(a: seq<Segment>, b: seq<Segment>)
    requires (forall g | g in a :: WellFormed(g)) && (forall g | g in b :: WellFormed(g)) && SameScript(a, b)
    ensures Valid(ScriptBytes(a)) && Valid(ScriptBytes(b))
    ensures Tokens(ScriptBytes(a)) == Tokens(ScriptBytes(b))
    ensures ReadOnlySql(ScriptBytes(a)) <==> ReadOnlySql(ScriptBytes(b))
  {
    ScriptScans(a);
    ScriptScans(b);
    ScriptsAlike(a, b);
  }

  // ---- What never closes, and what only looks like a dollar string ----

  lemma BrokenText(s: seq<byte>)
    requires s != [] && Valid(s) && Lex(s) == Broken
    ensures Tokens(s) == None
  {
  }

  lemma {:induction false} NoQuoteEnd(front: seq<byte>, quote: byte, inside: seq<Inside>)
    requires quote in {34, 39, 96} && AllFit(quote, inside)
    ensures QuoteEnd(front + InsideBytes(quote, inside), |front|, quote) == None
    decreases |inside|
  {
    if inside != [] {
      hide QuoteEnd, InsideByte, Fits;
      var step, rest := InsideByte(quote, inside[0]), InsideBytes(quote, inside[1..]);
      InsideLength(quote, inside[0]);
      SplitsAt(front, step, rest);
      QuoteEndSteps(front + (step + rest), |front|, quote, inside[0]);
      NoQuoteEnd(front + step, quote, inside[1..]);
    }
  }

  /** A literal that is never closed makes the whole text unreadable, so the gate refuses it. */
  lemma OpenLiteralIsRefused(quote: byte, inside: seq<Inside>)
    requires quote in {34, 39, 96} && AllFit(quote, inside) && Valid([quote] + InsideBytes(quote, inside))
    ensures Tokens([quote] + InsideBytes(quote, inside)) == None
    ensures !ReadOnlySql([quote] + InsideBytes(quote, inside))
  {
    var s := [quote] + InsideBytes(quote, inside);
    NoQuoteEnd([quote], quote, inside);
    assert SequenceLength(s) == 1 && BranchOf(s) == Quoted;
    BrokenText(s);
  }

  lemma {:induction false} NothingFound(front: seq<byte>, text: seq<byte>, close: seq<byte>, k: nat)
    requires k <= |text| && close != [] && forall i | 0 <= i < |text| :: !OccursAt(text, close, i)
    ensures Find(front + text, |front| + k, close) == None
    decreases |text| - k
  {
    OccursBehind(front, text, close, k);
    if k < |text| {
      hide OccursAt;
      NothingFound(front, text, close, k + 1);
    }
  }

  /** So does a block comment that is never closed. */
  lemma OpenBlockIsRefused(text: seq<byte>)
    requires Valid([47, 42] + text) && forall i | 0 <= i < |text| :: !OccursAt(text, [42, 47], i)
    ensures Tokens([47, 42] + text) == None && !ReadOnlySql([47, 42] + text)
  {
    hide Find, Lex, Tokens, Valid, OccursAt;
    var s := [47, 42] + text;
    NothingFound([47, 42], text, [42, 47], 0);
    OpenBlock(s);
    BrokenText(s);
  }

  lemma OpenBlock(s: seq<byte>)
    requires Valid(s) && |s| >= 2 && s[0] == 47 && s[1] == 42 && Find(s, 2, [42, 47]) == None
    ensures Lex(s) == Broken
  {
    assert SequenceLength(s) == 1 && BranchOf(s) == BlockComment;
  }

  /** And so does a dollar string whose tag does not come again. */
  lemma OpenDollarIsRefused(tag: seq<byte>, text: seq<byte>)
    requires IsTag(tag) && Valid(Tag(tag) + text) && forall i | 0 <= i < |text| :: !OccursAt(text, Tag(tag), i)
    ensures Tokens(Tag(tag) + text) == None && !ReadOnlySql(Tag(tag) + text)
  {
    hide Find, Lex, Tokens, Valid, OccursAt, DollarTag, IsTag;
    var s, n := Tag(tag) + text, |tag| + 2;
    assert |Tag(tag)| == n;
    TagIsRead(tag, text);
    NothingFound(Tag(tag), text, Tag(tag), 0);
    OpenDollar(s, n);
    BrokenText(s);
  }

  lemma OpenDollar(s: seq<byte>, n: nat)
    requires Valid(s) && s != [] && s[0] == 36 && DollarTag(s) == Some(n) && Find(s, n, s[..n]) == None
    ensures Lex(s) == Broken
  {
    assert SequenceLength(s) == 1 && BranchOf(s) == DollarQuoted;
  }

  /** A dollar sign before a digit is a parameter: it opens nothing, and what follows is read as ever. */
  lemma ParameterHidesNothing(digit: byte, more: seq<byte>)
    requires 48 <= digit <= 57 && Valid(more)
    ensures Valid([36, digit] + more) && Tokens([36, digit] + more) == Tokens(more)
  {
    var tail, s := [digit] + more, [36, digit] + more;
    AsciiIsValid([digit]);
    AsciiIsValid([36, digit]);
    ValidConcat([digit], more);
    ValidConcat([36, digit], more);
    assert s[1] == digit && DollarTag(s) == None;
    assert SequenceLength(s) == 1 && BranchOf(s) == Other && s[1..] == tail;
    assert SequenceLength(tail) == 1 && BranchOf(tail) == Other && tail[1..] == more;
    hide DollarTag, Valid;
    TokensStep(s, 1, tail);
    TokensStep(tail, 1, more);
    GlueNothing(Tokens(tail));
    GlueNothing(Tokens(more));
  }
}
