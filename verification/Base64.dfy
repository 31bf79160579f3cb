/** Canonical base64 (sections 3.5 and 4 of RFC 4648) and the verifiers built from it (direct_access.rs). */
module Base64 {
  import opened Search
  import opened Utf8
  import opened Wrappers

  const PAD: byte := 61   // '='

  /** `base64_value`: the six bits a character stands for. */
  function Value(b: byte): (v: Option<nat>)
    ensures v.Some? ==> v.value < 64
  {
    if 65 <= b <= 90 then Some(b - 65)
    else if 97 <= b <= 122 then Some(b - 97 + 26)
    else if 48 <= b <= 57 then Some(b - 48 + 52)
    else if b == 43 then Some(62)
    else if b == 47 then Some(63)
    else None
  }

  function Ceil3(n: nat): nat { (n + 2) / 3 }

  predicate Ascii(s: seq<byte>) { forall i | 0 <= i < |s| :: s[i] < 128 }

  /** `exact_base64`, as the program tests it. */
  predicate Exact(value: seq<byte>, bytes: nat)
  {
    var padding := (3 - bytes % 3) % 3;
    if |value| != Ceil3(bytes) * 4 || !Ascii(value) then false
    else
      var data := |value| - padding;
      && (forall i | data <= i < |value| :: value[i] == PAD)
      && (forall i | 0 <= i < data :: Value(value[i]).Some?)
      && (if padding == 0 then true
          else if padding == 1 then Value(value[data - 1]).Some? && Value(value[data - 1]).value % 4 == 0
          else Value(value[data - 1]).Some? && Value(value[data - 1]).value % 16 == 0)
  }

  // ---- The reference: padded base64 of a byte string ----

  function Character(v: nat): byte
    requires v < 64
  {
    if v < 26 then 65 + v else if v < 52 then 97 + (v - 26) else if v < 62 then 48 + (v - 52)
    else if v == 62 then 43 else 47
  }

  function EncodeTriple(a: byte, b: byte, c: byte): (r: seq<byte>)
    ensures |r| == 4
  {
    [Character(a / 4), Character(a % 4 * 16 + b / 16), Character(b % 16 * 4 + c / 64), Character(c % 64)]
  }

  function Encode64(s: seq<byte>): seq<byte>
  {
    if s == [] then []
    else if |s| == 1 then [Character(s[0] / 4), Character(s[0] % 4 * 16), PAD, PAD]
    else if |s| == 2 then [Character(s[0] / 4), Character(s[0] % 4 * 16 + s[1] / 16), Character(s[1] % 16 * 4), PAD]
    else EncodeTriple(s[0], s[1], s[2]) + Encode64(s[3..])
  }

  lemma CharacterValue(v: nat)
    requires v < 64
    ensures Value(Character(v)) == Some(v) && Character(v) < 128 && Character(v) != PAD
  {
  }

  lemma ValueCharacter(b: byte)
    requires Value(b).Some?
    ensures Character(Value(b).value) == b && b < 128
  {
  }

  /** The alphabet of section 4 of RFC 4648: upper case, lower case, digits, plus and slash. */
  lemma AlphabetMeans(v: nat)
    requires v < 64
    ensures v < 26 ==> Character(v) == 'A' as int + v
    ensures 26 <= v < 52 ==> Character(v) == 'a' as int + (v - 26)
    ensures 52 <= v < 62 ==> Character(v) == '0' as int + (v - 52)
    ensures v == 62 ==> Character(v) == '+' as int
    ensures v == 63 ==> Character(v) == '/' as int
    ensures PAD == '=' as int
  {
  }

  // ---- Exact, group by group ----

  predicate DataAt(v: seq<byte>, n: nat)
    requires n <= |v|
  {
    forall i | 0 <= i < n :: Value(v[i]).Some?
  }

  /** The first group of a longer encoding is four data characters; the rest is exact for the rest. */
  lemma ExactGroup(v: seq<byte>, n: nat)
    requires n >= 3
    ensures Exact(v, n) <==> |v| >= 4 && DataAt(v, 4) && Exact(v[4..], n - 3)
  {
    assert Ceil3(n) == Ceil3(n - 3) + 1 && (n - 3) % 3 == n % 3;
    if |v| == Ceil3(n) * 4 {
      var w, padding := v[4..], (3 - n % 3) % 3;
      var data := |v| - padding;
      assert forall i | 0 <= i < |w| :: w[i] == v[i + 4];
      assert forall i | 4 <= i < |v| :: v[i] == w[i - 4];
      assert DataAt(v, 4) ==> forall i | 0 <= i < 4 :: v[i] < 128;
      if padding > 0 { assert |w| >= 4 && w[data - 5] == v[data - 1]; }
    }
  }

  lemma OneByte(v: seq<byte>)
    requires Exact(v, 1)
    ensures |v| == 4 && Value(v[0]).Some? && Value(v[1]).Some? && Value(v[1]).value % 16 == 0
    ensures v[2] == PAD && v[3] == PAD
  {
    assert (3 - 1 % 3) % 3 == 2 && Ceil3(1) == 1;
  }

  lemma TwoBytes(v: seq<byte>)
    requires Exact(v, 2)
    ensures |v| == 4 && DataAt(v, 3) && Value(v[2]).value % 4 == 0 && v[3] == PAD
  {
    assert (3 - 2 % 3) % 3 == 1 && Ceil3(2) == 1;
  }

  /** The bytes a test-passing text stands for. */
  function Decode64(v: seq<byte>, n: nat): (s: seq<byte>)
    requires Exact(v, n)
    decreases n
  {
    if n == 0 then []
    else if n == 1 then
      OneByte(v);
      [Value(v[0]).value * 4 + Value(v[1]).value / 16]
    else if n == 2 then
      TwoBytes(v);
      [Value(v[0]).value * 4 + Value(v[1]).value / 16, Value(v[1]).value % 16 * 16 + Value(v[2]).value / 4]
    else
      ExactGroup(v, n);
      DecodeGroup(v) + Decode64(v[4..], n - 3)
  }

  function DecodeGroup(v: seq<byte>): (s: seq<byte>)
    requires |v| >= 4 && DataAt(v, 4)
    ensures |s| == 3
  {
    var a, b, c, d := Value(v[0]).value, Value(v[1]).value, Value(v[2]).value, Value(v[3]).value;
    [a * 4 + b / 16, b % 16 * 16 + c / 4, c % 4 * 64 + d]
  }

  lemma GroupBits(a: nat, b: nat, c: nat, d: nat)
    requires a < 64 && b < 64 && c < 64 && d < 64
    ensures var x, y, z := a * 4 + b / 16, b % 16 * 16 + c / 4, c % 4 * 64 + d;
            x / 4 == a && x % 4 * 16 + y / 16 == b && y % 16 * 4 + z / 64 == c && z % 64 == d
  {
  }

  lemma GroupRoundTrip(v: seq<byte>)
    requires |v| >= 4 && DataAt(v, 4)
    ensures var s := DecodeGroup(v); EncodeTriple(s[0], s[1], s[2]) == v[..4]
  {
    GroupBits(Value(v[0]).value, Value(v[1]).value, Value(v[2]).value, Value(v[3]).value);
    ValueCharacter(v[0]);
    ValueCharacter(v[1]);
    ValueCharacter(v[2]);
    ValueCharacter(v[3]);
    hide Character, Value;
    var s := DecodeGroup(v);
    assert EncodeTriple(s[0], s[1], s[2]) == [v[0], v[1], v[2], v[3]];
  }

  lemma EncodePrepends(g: seq<byte>, rest: seq<byte>)
    requires |g| == 3
    ensures Encode64(g + rest) == EncodeTriple(g[0], g[1], g[2]) + Encode64(rest)
  {
    hide EncodeTriple;
    var s := g + rest;
    assert s[0] == g[0] && s[1] == g[1] && s[2] == g[2] && s[3..] == rest;
  }

  lemma DecodePrepends(v: seq<byte>, n: nat)
    requires Exact(v, n) && n >= 3
    ensures |v| >= 4 && DataAt(v, 4) && Exact(v[4..], n - 3)
    ensures Decode64(v, n) == DecodeGroup(v) + Decode64(v[4..], n - 3)
  {
    ExactGroup(v, n);
    hide Exact, DecodeGroup;
  }

  /** A text that passes the test is the encoding of its bytes. */
  lemma {:induction false} ExactIsEncoding(v: seq<byte>, n: nat)
    requires Exact(v, n)
    ensures |Decode64(v, n)| == n && Encode64(Decode64(v, n)) == v
    decreases n
  {
    hide Exact, EncodeTriple, DecodeGroup, DataAt, Decode64, Encode64;
    if n == 0 {
      NoTail(v);
    } else if n == 1 {
      OneTail(v);
    } else if n == 2 {
      TwoTail(v);
    } else {
      DecodePrepends(v, n);
      ExactIsEncoding(v[4..], n - 3);
      GroupRoundTrip(v);
      EncodePrepends(DecodeGroup(v), Decode64(v[4..], n - 3));
      assert v == v[..4] + v[4..];
    }
  }

  lemma NoTail(v: seq<byte>)
    requires Exact(v, 0)
    ensures Decode64(v, 0) == [] && Encode64(Decode64(v, 0)) == v
  {
    assert v == [];
  }

  lemma OneTail(v: seq<byte>)
    requires Exact(v, 1)
    ensures |Decode64(v, 1)| == 1 && Encode64(Decode64(v, 1)) == v
  {
    OneByte(v);
    ValueCharacter(v[0]);
    ValueCharacter(v[1]);
    hide Character, Value, Exact;
    var a, b := Value(v[0]).value, Value(v[1]).value;
    var x: byte := a * 4 + b / 16;
    assert Decode64(v, 1) == [x];
    assert x / 4 == a && x % 4 * 16 == b;
    assert Encode64([x]) == [Character(a), Character(b), PAD, PAD];
  }

  lemma TwoTail(v: seq<byte>)
    requires Exact(v, 2)
    ensures |Decode64(v, 2)| == 2 && Encode64(Decode64(v, 2)) == v
  {
    TwoBytes(v);
    ValueCharacter(v[0]);
    ValueCharacter(v[1]);
    ValueCharacter(v[2]);
    hide Character, Value, Exact;
    var a, b, c := Value(v[0]).value, Value(v[1]).value, Value(v[2]).value;
    var x: byte, y: byte := a * 4 + b / 16, b % 16 * 16 + c / 4;
    assert Decode64(v, 2) == [x, y];
    assert x / 4 == a && x % 4 * 16 + y / 16 == b && y % 16 * 4 == c;
    assert Encode64([x, y]) == [Character(a), Character(b), Character(c), PAD];
  }

  lemma TripleIsData(a: byte, b: byte, c: byte)
    ensures DataAt(EncodeTriple(a, b, c), 4)
  {
    CharacterValue(a / 4);
    CharacterValue(a % 4 * 16 + b / 16);
    CharacterValue(b % 16 * 4 + c / 64);
    CharacterValue(c % 64);
  }

  lemma OneIsExact(x: byte)
    ensures Exact(Encode64([x]), 1)
  {
    CharacterValue(x / 4);
    CharacterValue(x % 4 * 16);
    hide Character, Value;
    assert Encode64([x]) == [Character(x / 4), Character(x % 4 * 16), PAD, PAD];
  }

  lemma TwoIsExact(x: byte, y: byte)
    ensures Exact(Encode64([x, y]), 2)
  {
    CharacterValue(x / 4);
    CharacterValue(x % 4 * 16 + y / 16);
    CharacterValue(y % 16 * 4);
    hide Character, Value;
    assert Encode64([x, y]) == [Character(x / 4), Character(x % 4 * 16 + y / 16), Character(y % 16 * 4), PAD];
  }

  /** Every encoding passes the test for its number of bytes. */
  lemma {:induction false} EncodingIsExact(s: seq<byte>)
    ensures Exact(Encode64(s), |s|)
  {
    if |s| == 1 {
      OneIsExact(s[0]);
      assert s == [s[0]];
    } else if |s| == 2 {
      TwoIsExact(s[0], s[1]);
      assert s == [s[0], s[1]];
    } else if |s| >= 3 {
      EncodingIsExact(s[3..]);
      TripleIsData(s[0], s[1], s[2]);
      hide Exact, EncodeTriple, Value, Character;
      var v := Encode64(s);
      assert v[4..] == Encode64(s[3..]);
      assert forall i | 0 <= i < 4 :: v[i] == EncodeTriple(s[0], s[1], s[2])[i];
      ExactGroup(v, |s|);
    }
  }

  lemma TripleInjective(a: byte, b: byte, c: byte, x: byte, y: byte, z: byte)
    requires EncodeTriple(a, b, c) == EncodeTriple(x, y, z)
    ensures a == x && b == y && c == z
  {
    var v, w := EncodeTriple(a, b, c), EncodeTriple(x, y, z);
    assert v[0] == w[0] && v[1] == w[1] && v[2] == w[2] && v[3] == w[3];
    SixBits(a / 4, x / 4);
    SixBits(a % 4 * 16 + b / 16, x % 4 * 16 + y / 16);
    SixBits(b % 16 * 4 + c / 64, y % 16 * 4 + z / 64);
    SixBits(c % 64, z % 64);
  }

  lemma SixBits(u: nat, v: nat)
    requires u < 64 && v < 64 && Character(u) == Character(v)
    ensures u == v
  {
    CharacterValue(u);
    CharacterValue(v);
  }

  /** Byte strings of one length have distinct encodings. */
  lemma {:induction false} Encode64Injective(s: seq<byte>, t: seq<byte>)
    requires |s| == |t| && Encode64(s) == Encode64(t)
    ensures s == t
  {
    var v, w := Encode64(s), Encode64(t);
    if |s| == 1 {
      assert v[0] == w[0] && v[1] == w[1];
      SixBits(s[0] / 4, t[0] / 4);
      SixBits(s[0] % 4 * 16, t[0] % 4 * 16);
    } else if |s| == 2 {
      assert v[0] == w[0] && v[1] == w[1] && v[2] == w[2];
      SixBits(s[0] / 4, t[0] / 4);
      SixBits(s[0] % 4 * 16 + s[1] / 16, t[0] % 4 * 16 + t[1] / 16);
      SixBits(s[1] % 16 * 4, t[1] % 16 * 4);
    } else if |s| >= 3 {
      assert v[..4] == EncodeTriple(s[0], s[1], s[2]) && w[..4] == EncodeTriple(t[0], t[1], t[2]);
      assert v[4..] == Encode64(s[3..]) && w[4..] == Encode64(t[3..]);
      TripleInjective(s[0], s[1], s[2], t[0], t[1], t[2]);
      Encode64Injective(s[3..], t[3..]);
      assert s == [s[0], s[1], s[2]] + s[3..] && t == [t[0], t[1], t[2]] + t[3..];
    }
  }

  ghost predicate Encodes(v: seq<byte>, s: seq<byte>, n: nat) { |s| == n && Encode64(s) == v }

  /** The test holds exactly of the padded encodings of `n` bytes, each of which encodes one byte string. */
  lemma ExactMeans(v: seq<byte>, n: nat)
    ensures Exact(v, n) <==> exists s :: Encodes(v, s, n)
    ensures forall s, t | Encodes(v, s, n) && Encodes(v, t, n) :: s == t
  {
    if Exact(v, n) {
      ExactIsEncoding(v, n);
      assert Encodes(v, Decode64(v, n), n);
    }
    forall s | Encodes(v, s, n) ensures Exact(v, n) { EncodingIsExact(s); }
    forall s, t | Encodes(v, s, n) && Encodes(v, t, n) ensures s == t { Encode64Injective(s, t); }
  }

  // ---- SCRAM verifiers ----

  datatype VerifierKind = ScramSha256 | CachingSha2

  const DOLLAR: byte := 36
  const COLON: byte := 58

  const SCRAM_PREFIX: seq<byte> :=
    [83, 67, 82, 65, 77, 45, 83, 72, 65, 45, 50, 53, 54, 36, 52, 48, 57, 54, 58]   // SCRAM-SHA-256$4096:
  const SHA2_PREFIX: seq<byte> := [36, 65, 36, 48, 48, 53, 36]                     // $A$005$

  function StripPrefix(s: seq<byte>, p: seq<byte>): Option<seq<byte>>
  {
    if p <= s then Some(s[|p|..]) else None
  }

  /** `split_once`: at the first delimiter. */
  function SplitOnce(s: seq<byte>, b: byte): (r: Option<(seq<byte>, seq<byte>)>)
    ensures r.Some? ==> s == r.value.0 + [b] + r.value.1
  {
    match IndexOf(s, 0, b)
    case None => None
    case Some(i) => Some((s[..i], s[i + 1..]))
  }

  predicate Alphanumeric(b: byte) { 48 <= b <= 57 || 65 <= b <= 90 || 97 <= b <= 122 }

  /** `valid_direct_verifier`. */
  predicate ValidVerifier(kind: VerifierKind, verifier: seq<byte>)
  {
    match kind
    case ScramSha256 =>
      var rest := StripPrefix(verifier, SCRAM_PREFIX);
      if rest.None? then false
      else
        var halves := SplitOnce(rest.value, DOLLAR);
        if halves.None? then false
        else
          var keys := SplitOnce(halves.value.1, COLON);
          if keys.None? then false
          else Exact(halves.value.0, 16) && Exact(keys.value.0, 32) && Exact(keys.value.1, 32)
    case CachingSha2 =>
      var rest := StripPrefix(verifier, SHA2_PREFIX);
      rest.Some? && |rest.value| == 63
      && forall i | 0 <= i < 63 :: CryptByte(rest.value[i])
  }

  predicate CryptByte(b: byte) { Alphanumeric(b) || b == 46 || b == 47 }

  lemma CachingSha2Shape(verifier: seq<byte>)
    ensures ValidVerifier(CachingSha2, verifier) <==>
              exists rest ::
                verifier == SHA2_PREFIX + rest && |rest| == 63 && forall i | 0 <= i < 63 :: CryptByte(rest[i])
  {
    if ValidVerifier(CachingSha2, verifier) {
      assert verifier == SHA2_PREFIX + verifier[|SHA2_PREFIX|..];
    }
    if rest :| verifier == SHA2_PREFIX + rest && |rest| == 63 && forall i | 0 <= i < 63 :: CryptByte(rest[i]) {
      assert verifier[|SHA2_PREFIX|..] == rest;
    }
  }

  datatype Scram = Scram(salt: seq<byte>, stored: seq<byte>, server: seq<byte>)

  predicate ScramShape(s: Scram) { |s.salt| == 16 && |s.stored| == 32 && |s.server| == 32 }

  function ScramText(s: Scram): seq<byte>
  {
    SCRAM_PREFIX + (Encode64(s.salt) + [DOLLAR] + (Encode64(s.stored) + [COLON] + Encode64(s.server)))
  }

  predicate Describes(s: Scram, verifier: seq<byte>) { ScramShape(s) && ScramText(s) == verifier }

  lemma {:induction false} NoDelimiter(v: seq<byte>, i: nat, n: nat, b: byte)
    requires Exact(v, n) && (b == DOLLAR || b == COLON) && i <= |v|
    ensures IndexOf(v, i, b).None?
    decreases |v| - i
  {
    if i < |v| {
      assert Value(DOLLAR).None? && Value(COLON).None?;
      NoDelimiter(v, i + 1, n, b);
    }
  }

  lemma SplitJoined(x: seq<byte>, b: byte, y: seq<byte>)
    requires IndexOf(x, 0, b).None?
    ensures SplitOnce(x + [b] + y, b) == Some((x, y))
  {
    assert x + [b] + y == x + ([b] + y);
    IndexOfSkips(x, 0, [b] + y, b);
    assert ([b] + y)[0] == b;
    assert (x + ([b] + y))[..|x|] == x && (x + ([b] + y))[|x| + 1..] == y;
  }

  lemma ScramSplits(s: Scram)
    requires ScramShape(s)
    ensures StripPrefix(ScramText(s), SCRAM_PREFIX)
         == Some(Encode64(s.salt) + [DOLLAR] + (Encode64(s.stored) + [COLON] + Encode64(s.server)))
    ensures SplitOnce(Encode64(s.salt) + [DOLLAR] + (Encode64(s.stored) + [COLON] + Encode64(s.server)), DOLLAR)
         == Some((Encode64(s.salt), Encode64(s.stored) + [COLON] + Encode64(s.server)))
    ensures SplitOnce(Encode64(s.stored) + [COLON] + Encode64(s.server), COLON)
         == Some((Encode64(s.stored), Encode64(s.server)))
  {
    hide Encode64, Exact, SplitOnce;
    EncodingIsExact(s.salt);
    NoDelimiter(Encode64(s.salt), 0, 16, DOLLAR);
    SplitJoined(Encode64(s.salt), DOLLAR, Encode64(s.stored) + [COLON] + Encode64(s.server));
    EncodingIsExact(s.stored);
    NoDelimiter(Encode64(s.stored), 0, 32, COLON);
    SplitJoined(Encode64(s.stored), COLON, Encode64(s.server));
  }

  lemma ScramIsValid(s: Scram)
    requires ScramShape(s)
    ensures ValidVerifier(ScramSha256, ScramText(s))
  {
    hide Encode64, Exact, SplitOnce, StripPrefix, ScramText;
    ScramSplits(s);
    EncodingIsExact(s.salt);
    EncodingIsExact(s.stored);
    EncodingIsExact(s.server);
  }

  lemma ScramUnique(s: Scram, t: Scram)
    requires ScramShape(s) && ScramShape(t) && ScramText(s) == ScramText(t)
    ensures s == t
  {
    hide Encode64, SplitOnce, StripPrefix, ScramText;
    ScramSplits(s);
    ScramSplits(t);
    Encode64Injective(s.salt, t.salt);
    Encode64Injective(s.stored, t.stored);
    Encode64Injective(s.server, t.server);
  }

  lemma ValidIsScram(verifier: seq<byte>) returns (s: Scram)
    requires ValidVerifier(ScramSha256, verifier)
    ensures ScramShape(s) && ScramText(s) == verifier
  {
    hide Encode64, Decode64, Exact;
    var rest := verifier[|SCRAM_PREFIX|..];
    var halves := SplitOnce(rest, DOLLAR).value;
    var keys := SplitOnce(halves.1, COLON).value;
    s := Scram(Decode64(halves.0, 16), Decode64(keys.0, 32), Decode64(keys.1, 32));
    ExactIsEncoding(halves.0, 16);
    ExactIsEncoding(keys.0, 32);
    ExactIsEncoding(keys.1, 32);
    assert verifier == SCRAM_PREFIX + rest;
  }

  /** An accepted SCRAM verifier is the text of exactly one 16-byte salt and two 32-byte keys. */
  lemma ScramSplitsUniquely(verifier: seq<byte>)
    ensures ValidVerifier(ScramSha256, verifier) <==> exists s :: Describes(s, verifier)
    ensures forall s, t | Describes(s, verifier) && Describes(t, verifier) :: s == t
  {
    hide ScramText, ValidVerifier;
    if ValidVerifier(ScramSha256, verifier) {
      var s := ValidIsScram(verifier);
      assert Describes(s, verifier);
    }
    forall s | Describes(s, verifier) ensures ValidVerifier(ScramSha256, verifier) { ScramIsValid(s); }
    forall s, t | Describes(s, verifier) && Describes(t, verifier) ensures s == t {
      ScramUnique(s, t);
    }
  }

  // What the parts of a verifier look like as text.

  lemma ScramPrefixText()
    ensures SCRAM_PREFIX == Encode("SCRAM-SHA-256$4096:")
  {
    AsciiText("SCRAM-SHA-256$4096:", SCRAM_PREFIX);
  }

  lemma Sha2PrefixText()
    ensures SHA2_PREFIX == Encode("$A$005$") && DOLLAR == '$' as int && COLON == ':' as int
  {
    AsciiText("$A$005$", SHA2_PREFIX);
  }

  lemma CryptMeans(b: byte)
    ensures CryptByte(b) <==>
              var c := b as char; c == '.' || c == '/' || 'a' <= c <= 'z' || 'A' <= c <= 'Z' || '0' <= c <= '9'
  {
  }

  lemma {:induction false} AsciiText(s: string, bytes: seq<byte>)
    requires |s| == |bytes| && forall i | 0 <= i < |s| :: s[i] as int == bytes[i] && bytes[i] < 128
    ensures Encode(s) == bytes
  {
    if s != [] {
      AsciiText(s[1..], bytes[1..]);
      assert EncodeChar(s[0]) == [bytes[0]] && bytes == [bytes[0]] + bytes[1..];
    }
  }

  // ---- What a stored verifier can contain ----

  /** Printable ASCII other than quotes, blank and backslash: the text needs no escaping in a JSON or SQL literal. */
  predicate Plain(b: byte) { 33 <= b <= 126 && b != 34 && b != 39 && b != 92 }

  predicate AllPlain(s: seq<byte>) { forall i | 0 <= i < |s| :: Plain(s[i]) }

  lemma EncodingIsPlain(s: seq<byte>)
    ensures AllPlain(Encode64(s)) && |Encode64(s)| == Ceil3(|s|) * 4
  {
    EncodingIsExact(s);
    forall i | 0 <= i < |Encode64(s)| ensures Plain(Encode64(s)[i]) {
      assert Encode64(s)[i] == PAD || Value(Encode64(s)[i]).Some?;
    }
  }

  lemma ScramIsPlain(s: Scram)
    requires ScramShape(s)
    ensures AllPlain(ScramText(s)) && |ScramText(s)| == 133
  {
    EncodingIsPlain(s.salt);
    EncodingIsPlain(s.stored);
    EncodingIsPlain(s.server);
    assert AllPlain(SCRAM_PREFIX);
    hide Encode64, Plain;
  }

  /**
   * Every accepted verifier has the length of its kind and consists of characters that no JSON or SQL literal
   * escapes; and no text is accepted as both kinds.
   */
  lemma VerifiersAreTellable(kind: VerifierKind, verifier: seq<byte>)
    requires ValidVerifier(kind, verifier)
    ensures AllPlain(verifier)
    ensures |verifier| == if kind == ScramSha256 then 133 else 70
    ensures forall other :: ValidVerifier(other, verifier) ==> other == kind
  {
    if kind == ScramSha256 {
      var s := ValidIsScram(verifier);
      ScramIsPlain(s);
      assert verifier[0] == 83;
    } else {
      CachingSha2Shape(verifier);
      var rest :| verifier == SHA2_PREFIX + rest && |rest| == 63 && forall i | 0 <= i < 63 :: CryptByte(rest[i]);
      assert verifier[0] == 36;
    }
  }
}
