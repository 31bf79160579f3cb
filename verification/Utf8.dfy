/** UTF-8 byte strings (section 4 of RFC 3629): what a Rust `&str` guarantees about its bytes. */
module Utf8 {

  type byte = x: int | 0 <= x < 256

  predicate Continuation(b: byte) { 0x80 <= b <= 0xBF }

  /** Length of the well-formed sequence at the front of `s`; 0 when there is none. */
  function SequenceLength(s: seq<byte>): (n: nat)
    ensures n <= |s| && n <= 4
  {
    if |s| >= 1 && s[0] < 0x80 then 1
    else if |s| >= 2 && 0xC2 <= s[0] <= 0xDF && Continuation(s[1]) then 2
    else if |s| >= 3 && 0xE0 <= s[0] <= 0xEF && Continuation(s[1]) && Continuation(s[2])
            && (s[0] == 0xE0 ==> s[1] >= 0xA0) && (s[0] == 0xED ==> s[1] <= 0x9F) then 3
    else if |s| >= 4 && 0xF0 <= s[0] <= 0xF4 && Continuation(s[1]) && Continuation(s[2]) && Continuation(s[3])
            && (s[0] == 0xF0 ==> s[1] >= 0x90) && (s[0] == 0xF4 ==> s[1] <= 0x8F) then 4
    else 0
  }

  predicate Valid(s: seq<byte>)
  {
    s == [] || (SequenceLength(s) > 0 && Valid(s[SequenceLength(s)..]))
  }

  /** The code point of the first character. */
  function CodePoint(s: seq<byte>): nat
    requires s != [] && Valid(s)
  {
    var lead: int, n := s[0], SequenceLength(s);
    if n == 1 then lead
    else if n == 2 then (lead - 0xC0) * 0x40 + Low(s, 1)
    else if n == 3 then (lead - 0xE0) * 0x1000 + Low(s, 1) * 0x40 + Low(s, 2)
    else (lead - 0xF0) * 0x40000 + Low(s, 1) * 0x1000 + Low(s, 2) * 0x40 + Low(s, 3)
  }

  function Low(s: seq<byte>, i: nat): nat
    requires i < |s| && Continuation(s[i])
  {
    s[i] - 0x80
  }

  /** Unicode White_Space, as `char::is_whitespace` tests it. */
  predicate Whitespace(c: nat)
  {
    9 <= c <= 13 || c == 0x20 || c == 0x85 || c == 0xA0 || c == 0x1680 || 0x2000 <= c <= 0x200A
    || c == 0x2028 || c == 0x2029 || c == 0x202F || c == 0x205F || c == 0x3000
  }

  /** An ASCII byte is never inside a longer character: the text may be cut before and after it. */
  lemma {:induction false} AsciiIsBoundary(s: seq<byte>, i: nat)
    requires Valid(s) && i < |s| && s[i] < 0x80
    ensures Valid(s[i..]) && Valid(s[i + 1..])
  {
    var n := SequenceLength(s);
    if i == 0 {
      assert s[0..] == s;
    } else {
      assert i >= n;
      AsciiIsBoundary(s[n..], i - n);
      assert s[n..][i - n..] == s[i..];
      assert s[n..][i - n + 1..] == s[i + 1..];
    }
  }

  lemma LengthExtends(a: seq<byte>, b: seq<byte>)
    requires SequenceLength(a) > 0
    ensures SequenceLength(a + b) == SequenceLength(a)
  {
    assert forall i | 0 <= i < |a| :: (a + b)[i] == a[i];
  }

  lemma {:induction false} ValidConcat(a: seq<byte>, b: seq<byte>)
    requires Valid(a) && Valid(b)
    ensures Valid(a + b)
  {
    if a == [] {
      assert a + b == b;
    } else {
      var n := SequenceLength(a);
      var rest := a[n..];
      LengthExtends(a, b);
      assert (a + b)[n..] == rest + b;
      ValidConcat(rest, b);
    }
  }

  function EncodeChar(c: char): (r: seq<byte>)
    ensures 1 <= |r| <= 4
  {
    var n := c as int;
    if n < 0x80 then [n]
    else if n < 0x800 then [0xC0 + n / 0x40, 0x80 + n % 0x40]
    else if n < 0x10000 then [0xE0 + n / 0x1000, 0x80 + n / 0x40 % 0x40, 0x80 + n % 0x40]
    else [0xF0 + n / 0x40000, 0x80 + n / 0x1000 % 0x40, 0x80 + n / 0x40 % 0x40, 0x80 + n % 0x40]
  }

  /** The bytes of a text; `|Encode(s)|` is what Rust's `str::len` returns. */
  function Encode(s: string): seq<byte>
  {
    if s == [] then [] else EncodeChar(s[0]) + Encode(s[1..])
  }

  lemma {:induction false} EncodeCharDecodes(c: char, rest: seq<byte>)
    ensures SequenceLength(EncodeChar(c) + rest) == |EncodeChar(c)|
  {
  }

  /** Distinct texts have distinct bytes, and every text's bytes are well formed. */
  lemma {:induction false} EncodeInjective(a: string, b: string)
    requires Encode(a) == Encode(b)
    ensures a == b
  {
    if a != [] && b != [] {
      EncodeCharDecodes(a[0], Encode(a[1..]));
      EncodeCharDecodes(b[0], Encode(b[1..]));
      var x, y := EncodeChar(a[0]), EncodeChar(b[0]);
      assert x == Encode(a)[..|x|] && y == Encode(b)[..|y|];
      assert x == y;
      assert Encode(a)[|x|..] == Encode(a[1..]) && Encode(b)[|x|..] == Encode(b[1..]);
      EncodeInjective(a[1..], b[1..]);
      EncodeCharInjective(a[0], b[0]);
    }
  }

  /** Decoding the bytes of a character gives the character back. */
  lemma EncodeCharRoundTrip(c: char)
    ensures Valid(EncodeChar(c)) && CodePoint(EncodeChar(c)) == c as int
  {
    var bytes := EncodeChar(c);
    EncodeCharDecodes(c, []);
    assert bytes + [] == bytes;
    assert bytes[|bytes|..] == [];
    Split(c as int);
  }

  lemma Split(n: nat)
    ensures n == n / 0x40 * 0x40 + n % 0x40
    ensures n / 0x40 == n / 0x1000 * 0x40 + n / 0x40 % 0x40
    ensures n / 0x1000 == n / 0x40000 * 0x40 + n / 0x1000 % 0x40
  {
  }

  lemma EncodeCharInjective(a: char, b: char)
    requires EncodeChar(a) == EncodeChar(b)
    ensures a == b
  {
    EncodeCharRoundTrip(a);
    EncodeCharRoundTrip(b);
  }

  lemma {:induction false} EncodeValid(s: string)
    ensures Valid(Encode(s))
  {
    if s != [] {
      EncodeValid(s[1..]);
      EncodeCharDecodes(s[0], Encode(s[1..]));
      assert Encode(s)[|EncodeChar(s[0])|..] == Encode(s[1..]);
    }
  }

  lemma {:induction false} EncodeConcat(a: string, b: string)
    ensures Encode(a + b) == Encode(a) + Encode(b)
  {
    if a == [] {
      assert a + b == b && [] + Encode(b) == Encode(b);
    } else {
      assert (a + b)[1..] == a[1..] + b;
      assert Encode(a + b) == EncodeChar(a[0]) + Encode(a[1..] + b);
      EncodeConcat(a[1..], b);
      hide EncodeChar, Encode;
      assert EncodeChar(a[0]) + (Encode(a[1..]) + Encode(b)) == EncodeChar(a[0]) + Encode(a[1..]) + Encode(b);
    }
  }
}
