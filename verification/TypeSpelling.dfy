/** Comparing the spelling of column types (schema_diff.rs, type_signature and the column signature). */
module TypeSpelling {
  import opened Wrappers
  import Strings

  /** `char::to_lowercase`: one character may become several. */
  type Lower = char -> string

  predicate IsQuote(c: char) { c == '\'' || c == '"' }

  /** The quote state after one more character. */
  function NextQuote(quote: Option<char>, c: char): Option<char>
  {
    match quote
    case Some(open) => if c == open then None else quote
    case None => if IsQuote(c) then Some(c) else None
  }

  /** Quoted text and quotes are kept, everything else is lowered. */
  function Written(c: char, quote: Option<char>, lower: Lower): string
  {
    if quote.Some? || IsQuote(c) then [c] else lower(c)
  }

  function Spelled(text: string, quote: Option<char>, lower: Lower): string
  {
    if text == [] then []
    else Written(text[0], quote, lower) + Spelled(text[1..], NextQuote(quote, text[0]), lower)
  }

  function QuoteAfter(text: string, quote: Option<char>): Option<char>
  {
    if text == [] then quote else QuoteAfter(text[1..], NextQuote(quote, text[0]))
  }

  function TypeSignature(nativeType: string, lower: Lower): string
  {
    Spelled(Strings.Trim(nativeType), None, lower)
  }

  lemma {:induction false} QuoteAfterAppends(text: string, c: char, quote: Option<char>)
    ensures QuoteAfter(text + [c], quote) == NextQuote(QuoteAfter(text, quote), c)
  {
    if text == [] {
      assert [] + [c] == [c] && [c][1..] == [];
    } else {
      assert (text + [c])[1..] == text[1..] + [c];
      QuoteAfterAppends(text[1..], c, NextQuote(quote, text[0]));
    }
  }

  lemma {:induction false} SpelledAppends(text: string, c: char, quote: Option<char>, lower: Lower)
    ensures Spelled(text + [c], quote, lower)
         == Spelled(text, quote, lower) + Written(c, QuoteAfter(text, quote), lower)
  {
    hide Written;
    var last := Written(c, QuoteAfter(text, quote), lower);
    if text == [] {
      assert [] + [c] == [c] && [c][1..] == [];
      assert last + [] == last && [] + last == last;
    } else {
      assert (text + [c])[1..] == text[1..] + [c] && (text + [c])[0] == text[0];
      SpelledAppends(text[1..], c, NextQuote(quote, text[0]), lower);
      var first := Written(text[0], quote, lower);
      var rest := Spelled(text[1..], NextQuote(quote, text[0]), lower);
      assert first + (rest + last) == (first + rest) + last;
    }
  }

  /** `type_signature`. */
  method Sign(nativeType: string, lower: Lower) returns (signature: string)
    ensures signature == TypeSignature(nativeType, lower)
  {
    var text := Strings.Trim(nativeType);
    signature := [];
    var quote: Option<char> := None;
    var i := 0;
    while i < |text|
      invariant i <= |text|
      invariant quote == QuoteAfter(text[..i], None)
      invariant signature == Spelled(text[..i], None, lower)
    {
      var character := text[i];
      QuoteAfterAppends(text[..i], character, None);
      SpelledAppends(text[..i], character, None, lower);
      assert text[..i + 1] == text[..i] + [character];
      match quote {
        case Some(open) =>
          if character == open {
            quote := None;
          }
          signature := signature + [character];
        case None =>
          if IsQuote(character) {
            quote := Some(character);
            signature := signature + [character];
          } else {
            signature := signature + lower(character);
          }
      }
      i := i + 1;
    }
    assert text[..i] == text;
  }

  // ---- What equal signatures mean ----

  /** One character of a spelling: as written, or folded because it stands outside quotes. */
  datatype Piece = Exact(c: char) | Folded(c: char)

  function AllFolded(s: string): seq<Piece>
  {
    if s == [] then [] else [Folded(s[0])] + AllFolded(s[1..])
  }

  /** Single and double quotes open quoted text, which the next quote of the same kind closes. */
  function Reading(text: string, quote: Option<char>, lower: Lower): seq<Piece>
  {
    if text == [] then []
    else match quote
      case Some(open) => [Exact(text[0])] + Reading(text[1..], if text[0] == open then None else quote, lower)
      case None =>
        if text[0] == '\'' || text[0] == '"' then [Exact(text[0])] + Reading(text[1..], Some(text[0]), lower)
        else AllFolded(lower(text[0])) + Reading(text[1..], None, lower)
  }

  function Letters(pieces: seq<Piece>): string
  {
    if pieces == [] then [] else [pieces[0].c] + Letters(pieces[1..])
  }

  /** Lower-casing anything but a quote yields no quote. */
  ghost predicate KeepsQuotes(lower: Lower)
  {
    forall c: char | c != '\'' && c != '"' :: '\'' !in lower(c) && '"' !in lower(c)
  }

  function Reread(signature: string, quote: Option<char>): seq<Piece>
  {
    if signature == [] then []
    else [if quote.Some? || IsQuote(signature[0]) then Exact(signature[0]) else Folded(signature[0])]
         + Reread(signature[1..], NextQuote(quote, signature[0]))
  }

  lemma {:induction false} RereadPlain(s: string, rest: string)
    requires forall i | 0 <= i < |s| :: !IsQuote(s[i])
    ensures Reread(s + rest, None) == AllFolded(s) + Reread(rest, None)
  {
    if s == [] {
      assert s + rest == rest && [] + Reread(rest, None) == Reread(rest, None);
    } else {
      RereadPlain(s[1..], rest);
      assert (s + rest)[1..] == s[1..] + rest && (s + rest)[0] == s[0];
      assert [Folded(s[0])] + (AllFolded(s[1..]) + Reread(rest, None))
          == ([Folded(s[0])] + AllFolded(s[1..])) + Reread(rest, None);
    }
  }

  /** The signature alone tells which of its characters were quoted. */
  lemma {:induction false} SignatureReads(text: string, quote: Option<char>, lower: Lower)
    requires KeepsQuotes(lower)
    ensures Reread(Spelled(text, quote, lower), quote) == Reading(text, quote, lower)
  {
    if text != [] {
      var next := NextQuote(quote, text[0]);
      var rest := Spelled(text[1..], next, lower);
      SignatureReads(text[1..], next, lower);
      if quote.Some? || IsQuote(text[0]) {
        assert ([text[0]] + rest)[1..] == rest;
      } else {
        RereadPlain(lower(text[0]), rest);
      }
    }
  }

  lemma {:induction false} LettersConcat(a: seq<Piece>, b: seq<Piece>)
    ensures Letters(a + b) == Letters(a) + Letters(b)
  {
    if a == [] {
      assert a + b == b && [] + Letters(b) == Letters(b);
    } else {
      assert (a + b)[1..] == a[1..] + b;
      LettersConcat(a[1..], b);
    }
  }

  lemma {:induction false} LettersFolded(s: string)
    ensures Letters(AllFolded(s)) == s
  {
    if s != [] {
      LettersFolded(s[1..]);
      assert ([Folded(s[0])] + AllFolded(s[1..]))[1..] == AllFolded(s[1..]);
    }
  }

  lemma {:induction false} SignatureSpells(text: string, quote: Option<char>, lower: Lower)
    ensures Letters(Reading(text, quote, lower)) == Spelled(text, quote, lower)
  {
    if text != [] {
      var next := NextQuote(quote, text[0]);
      var head := if quote.Some? || IsQuote(text[0]) then [Exact(text[0])] else AllFolded(lower(text[0]));
      SignatureSpells(text[1..], next, lower);
      LettersConcat(head, Reading(text[1..], next, lower));
      LettersFolded(lower(text[0]));
      assert Letters([Exact(text[0])]) == [text[0]];
    }
  }

  /** Types have one signature exactly when they agree inside quotes to the letter, and outside up to case. */
  lemma SameSignature(a: string, b: string, lower: Lower)
    requires KeepsQuotes(lower)
    ensures TypeSignature(a, lower) == TypeSignature(b, lower)
            <==> Reading(Strings.Trim(a), None, lower) == Reading(Strings.Trim(b), None, lower)
  {
    SignatureReads(Strings.Trim(a), None, lower);
    SignatureReads(Strings.Trim(b), None, lower);
    SignatureSpells(Strings.Trim(a), None, lower);
    SignatureSpells(Strings.Trim(b), None, lower);
  }

  // ---- Column signatures ----

  function FlagText(b: bool): string { if b then "true" else "false" }

  /** The text two columns are compared by. */
  function ColumnSignature(nativeType: string, nullable: bool, pk: bool, lower: Lower): string
  {
    TypeSignature(nativeType, lower) + "|" + FlagText(nullable) + "|" + FlagText(pk)
  }

  lemma FlagEnds(s: string, b: bool, t: string, c: bool)
    requires s + "|" + FlagText(b) == t + "|" + FlagText(c)
    ensures s == t && b == c
  {
    var x, y := s + "|" + FlagText(b), t + "|" + FlagText(c);
    assert x[|x| - 2] == FlagText(b)[|FlagText(b)| - 2] && y[|y| - 2] == FlagText(c)[|FlagText(c)| - 2];
    assert b == c;
    assert s == x[..|x| - |FlagText(b)| - 1] && t == y[..|y| - |FlagText(c)| - 1];
  }

  /** The three parts of a column signature can be read back off it. */
  lemma ColumnSignatureApart(t1: string, n1: bool, p1: bool, t2: string, n2: bool, p2: bool, lower: Lower)
    ensures ColumnSignature(t1, n1, p1, lower) == ColumnSignature(t2, n2, p2, lower)
            <==> TypeSignature(t1, lower) == TypeSignature(t2, lower) && n1 == n2 && p1 == p2
  {
    if ColumnSignature(t1, n1, p1, lower) == ColumnSignature(t2, n2, p2, lower) {
      var s1, s2 := TypeSignature(t1, lower), TypeSignature(t2, lower);
      FlagEnds(s1 + "|" + FlagText(n1), p1, s2 + "|" + FlagText(n2), p2);
      FlagEnds(s1, n1, s2, n2);
    }
  }
}
