/** Whitespace trimming and decimal text. */
module Strings {
  import Utf8
  import opened Wrappers

  predicate Space(c: char) { Utf8.Whitespace(c as int) }

  function TrimStart(s: string): string
  {
    if s != [] && Space(s[0]) then TrimStart(s[1..]) else s
  }

  function TrimEnd(s: string): string
  {
    if s != [] && Space(s[|s| - 1]) then TrimEnd(s[..|s| - 1]) else s
  }

  /** `str::trim`. */
  function Trim(s: string): string
  {
    TrimEnd(TrimStart(s))
  }

  /** The code points with the Unicode property White_Space. */
  const WHITE_SPACE: set<int> := {
    9, 10, 11, 12, 13, 32, 133, 160, 5760, 8192, 8193, 8194, 8195, 8196, 8197, 8198, 8199, 8200, 8201, 8202, 8232, 8233,
    8239, 8287, 12288
  }

  predicate White(c: char) { c as int in WHITE_SPACE }

  predicate AllSpace(s: string) { forall i | 0 <= i < |s| :: White(s[i]) }

  lemma SpaceMeans(c: char)
    ensures Space(c) <==> White(c)
  {
  }

  lemma {:induction false} TrimStartMeans(s: string) returns (front: string)
    ensures s == front + TrimStart(s) && AllSpace(front)
    ensures TrimStart(s) == [] || !White(TrimStart(s)[0])
  {
    hide White, Space;
    if s != [] { SpaceMeans(s[0]); }
    if s != [] && Space(s[0]) {
      var rest := TrimStartMeans(s[1..]);
      front := [s[0]] + rest;
    } else {
      front := [];
    }
  }

  lemma {:induction false} TrimEndMeans(s: string) returns (back: string)
    ensures s == TrimEnd(s) + back && AllSpace(back) && TrimEnd(s) <= s
    ensures TrimEnd(s) == [] || !White(TrimEnd(s)[|TrimEnd(s)| - 1])
  {
    hide White, Space;
    if s != [] { SpaceMeans(s[|s| - 1]); }
    if s != [] && Space(s[|s| - 1]) {
      var rest := TrimEndMeans(s[..|s| - 1]);
      back := rest + [s[|s| - 1]];
    } else {
      back := [];
    }
  }

  /** Trimming takes white space off both ends, and all of it. */
  lemma TrimMeans(s: string) returns (front: string, back: string)
    ensures s == front + Trim(s) + back && AllSpace(front) && AllSpace(back)
    ensures Trim(s) == [] || (!White(Trim(s)[0]) && !White(Trim(s)[|Trim(s)| - 1]))
  {
    hide TrimStart, TrimEnd, AllSpace, White;
    front := TrimStartMeans(s);
    back := TrimEndMeans(TrimStart(s));
    assert front + (Trim(s) + back) == front + Trim(s) + back;
    assert Trim(s) != [] ==> Trim(s)[0] == TrimStart(s)[0];
  }

  function Digit(n: nat): char
    requires n < 10
  {
    ('0' as int + n) as char
  }

  /** The decimal digits of a number, as serde_json prints it. */
  function Decimal(n: nat): (r: string)
    ensures r != [] && forall i | 0 <= i < |r| :: '0' <= r[i] <= '9'
  {
    if n < 10 then [Digit(n)] else Decimal(n / 10) + [Digit(n % 10)]
  }

  lemma {:induction false} DecimalInjective(m: nat, n: nat)
    requires Decimal(m) == Decimal(n)
    ensures m == n
  {
    var s, t := Decimal(m), Decimal(n);
    assert s[|s| - 1] == Digit(m % 10) && t[|t| - 1] == Digit(n % 10);
    assert m % 10 == n % 10;
    if m >= 10 && n >= 10 {
      assert s[..|s| - 1] == Decimal(m / 10) && t[..|t| - 1] == Decimal(n / 10);
      DecimalInjective(m / 10, n / 10);
    }
  }

  /** The number a decimal text denotes; None for any other text. */
  function ReadDecimal(s: string): Option<nat>
  {
    if s == [] || !('0' <= s[|s| - 1] <= '9') then None
    else if |s| == 1 then Some(s[0] as int - '0' as int)
    else
      var rest := ReadDecimal(s[..|s| - 1]);
      if rest.None? then None else Some(rest.value * 10 + (s[|s| - 1] as int - '0' as int))
  }

  /** Exactly the texts of one or more digits denote a number; a further digit multiplies it by ten and is added. */
  lemma {:induction false} ReadDecimalMeans(s: string)
    ensures ReadDecimal(s).Some? <==> s != [] && forall i | 0 <= i < |s| :: '0' <= s[i] <= '9'
    ensures |s| > 1 && ReadDecimal(s).Some? ==>
              ReadDecimal(s[..|s| - 1]).Some?
              && ReadDecimal(s).value == ReadDecimal(s[..|s| - 1]).value * 10 + (s[|s| - 1] as int - 48)
  {
    if |s| > 1 { ReadDecimalMeans(s[..|s| - 1]); }
  }

  lemma {:induction false} DecimalReads(n: nat)
    ensures ReadDecimal(Decimal(n)) == Some(n)
  {
    if n >= 10 {
      DecimalReads(n / 10);
      var s := Decimal(n);
      assert s[..|s| - 1] == Decimal(n / 10);
    }
  }
}
