/** Reading JSON text as sections 2 to 7 of RFC 8259 define it, without insignificant white space. */
module JsonReader {
  import opened JsonValue
  import opened Wrappers

  /** What was read, and the text behind it. */
  datatype Reading<T> = Reading(value: T, rest: string)

  function HexValue(c: char): Option<nat>
  {
    if '0' <= c <= '9' then Some(c as int - '0' as int)
    else if 'a' <= c <= 'f' then Some(c as int - 'a' as int + 10)
    else if 'A' <= c <= 'F' then Some(c as int - 'A' as int + 10)
    else None
  }

  /** Four hexadecimal digits. Surrogates, which stand for one character in pairs, are not read. */
  function ReadHex(s: string): (r: Option<Reading<char>>)
    ensures r.Some? ==> |r.value.rest| < |s|
  {
    if |s| < 4 then None
    else
      var a, b, c, d := HexValue(s[0]), HexValue(s[1]), HexValue(s[2]), HexValue(s[3]);
      if a.None? || b.None? || c.None? || d.None? then None
      else
        var code := a.value * 4096 + b.value * 256 + c.value * 16 + d.value;
        if code < 0xD800 || 0xE000 <= code < 0x10000 then Some(Reading(code as char, s[4..])) else None
  }

  /** The character an escape stands for; `s` starts behind the backslash. */
  function ReadEscape(s: string): (r: Option<Reading<char>>)
    ensures r.Some? ==> |r.value.rest| < |s|
  {
    if s == [] then None
    else if s[0] == '"' || s[0] == '\\' || s[0] == '/' then Some(Reading(s[0], s[1..]))
    else if s[0] == 'b' then Some(Reading('\U{8}', s[1..]))
    else if s[0] == 'f' then Some(Reading('\U{C}', s[1..]))
    else if s[0] == 'n' then Some(Reading('\n', s[1..]))
    else if s[0] == 'r' then Some(Reading('\r', s[1..]))
    else if s[0] == 't' then Some(Reading('\t', s[1..]))
    else if s[0] == 'u' then ReadHex(s[1..])
    else None
  }

  /** A string up to its closing quote; control characters must be escaped. */
  function ReadText(s: string): (r: Option<Reading<string>>)
    ensures r.Some? ==> |r.value.rest| < |s|
  {
    if s == [] || s[0] < ' ' then None
    else if s[0] == '"' then Some(Reading([], s[1..]))
    else
      var first := if s[0] == '\\' then ReadEscape(s[1..]) else Some(Reading(s[0], s[1..]));
      if first.None? then None
      else match ReadText(first.value.rest)
        case None => None
        case Some(more) => Some(Reading([first.value.value] + more.value, more.rest))
  }

  /** How many characters a number takes up. */
  function NumberRun(s: string): (n: nat)
    ensures n <= |s| && (n > 0 ==> NumberText(s[..n]))
  {
    if s == [] || !NumberChar(s[0]) then 0 else 1 + NumberRun(s[1..])
  }

  predicate Starts(s: string, c: char) { s != [] && s[0] == c }

  function ReadValue(s: string): (r: Option<Reading<Json>>)
    ensures r.Some? ==> |r.value.rest| < |s|
    decreases |s|, 0
  {
    if "null" <= s then Some(Reading(Null, s[4..]))
    else if "true" <= s then Some(Reading(Bool(true), s[4..]))
    else if "false" <= s then Some(Reading(Bool(false), s[5..]))
    else if NumberRun(s) > 0 then Some(Reading(Number(s[..NumberRun(s)]), s[NumberRun(s)..]))
    else if Starts(s, '"') then
      match ReadText(s[1..])
      case None => None
      case Some(text) => Some(Reading(String(text.value), text.rest))
    else if Starts(s, '[') && Starts(s[1..], ']') then Some(Reading(Array([]), s[2..]))
    else if Starts(s, '[') then
      match ReadItems(s[1..])
      case None => None
      case Some(items) => Some(Reading(Array(items.value), items.rest))
    else if Starts(s, '{') && Starts(s[1..], '}') then Some(Reading(Object([]), s[2..]))
    else if Starts(s, '{') then
      match ReadFields(s[1..])
      case None => None
      case Some(fields) => Some(Reading(Object(fields.value), fields.rest))
    else None
  }

  /** One or more values with commas between them, up to the closing bracket. */
  function ReadItems(s: string): (r: Option<Reading<seq<Json>>>)
    ensures r.Some? ==> |r.value.rest| < |s|
    decreases |s|, 1
  {
    match ReadValue(s)
    case None => None
    case Some(first) =>
      if Starts(first.rest, ']') then Some(Reading([first.value], first.rest[1..]))
      else if Starts(first.rest, ',') then
        match ReadItems(first.rest[1..])
        case None => None
        case Some(more) => Some(Reading([first.value] + more.value, more.rest))
      else None
  }

  function ReadField(s: string): (r: Option<Reading<Field>>)
    ensures r.Some? ==> |r.value.rest| < |s|
    decreases |s|, 1
  {
    if Starts(s, '"') then
      match ReadText(s[1..])
      case None => None
      case Some(key) =>
        if Starts(key.rest, ':') then
          match ReadValue(key.rest[1..])
          case None => None
          case Some(value) => Some(Reading(Field(key.value, value.value), value.rest))
        else None
    else None
  }

  function ReadFields(s: string): (r: Option<Reading<seq<Field>>>)
    ensures r.Some? ==> |r.value.rest| < |s|
    decreases |s|, 2
  {
    match ReadField(s)
    case None => None
    case Some(first) =>
      if Starts(first.rest, '}') then Some(Reading([first.value], first.rest[1..]))
      else if Starts(first.rest, ',') then
        match ReadFields(first.rest[1..])
        case None => None
        case Some(more) => Some(Reading([first.value] + more.value, more.rest))
      else None
  }

  /** The value a whole text denotes. */
  function Read(s: string): Option<Json>
  {
    match ReadValue(s)
    case None => None
    case Some(all) => if all.rest == [] then Some(all.value) else None
  }

  // ---- What is written reads back ----

  lemma EscapeReads(c: char, rest: string)
    requires EscapeChar(c) != [c]
    ensures EscapeChar(c)[0] == '\\' && ReadEscape(EscapeChar(c)[1..] + rest) == Some(Reading(c, rest))
  {
    var e := EscapeChar(c)[1..];
    assert (e + rest)[0] == e[0];
    if |e| == 1 {
      assert (e + rest)[1..] == rest;
    } else {
      assert e == "u00" + [HexDigit(c as int / 16), HexDigit(c as int % 16)];
      assert (e + rest)[1..] == e[1..] + rest && (e[1..] + rest)[4..] == rest;
    }
  }

  lemma EscapedReads(c: char, s: string, tail: string, more: Reading<string>)
    requires Starts(s, '\\') && ReadEscape(s[1..]) == Some(Reading(c, tail)) && ReadText(tail) == Some(more)
    ensures ReadText(s) == Some(Reading([c] + more.value, more.rest))
  {
    hide ReadEscape;
  }

  lemma PlainReads(c: char, tail: string, more: Reading<string>)
    requires c != '"' && c != '\\' && ' ' <= c && ReadText(tail) == Some(more)
    ensures ReadText([c] + tail) == Some(Reading([c] + more.value, more.rest))
  {
    hide ReadEscape;
    Front(c, tail);
  }

  lemma CharReads(c: char, tail: string, more: Reading<string>)
    requires ReadText(tail) == Some(more)
    ensures ReadText(EscapeChar(c) + tail) == Some(Reading([c] + more.value, more.rest))
  {
    hide ReadEscape, ReadText;
    if EscapeChar(c) == [c] {
      PlainChar(c);
      hide EscapeChar;
      PlainReads(c, tail, more);
    } else {
      EscapeReads(c, tail);
      hide EscapeChar;
      var s := EscapeChar(c) + tail;
      assert s[0] == '\\' && s[1..] == EscapeChar(c)[1..] + tail;
      EscapedReads(c, s, tail, more);
    }
  }

  lemma {:induction false} TextReads(s: string, rest: string)
    ensures ReadText(PutEscaped(s, rest)) == Some(Reading(s, rest))
  {
    if s == [] {
      assert (['"'] + rest)[1..] == rest;
    } else {
      TextReads(s[1..], rest);
      CharReads(s[0], PutEscaped(s[1..], rest), Reading(s[1..], rest));
      hide ReadText, EscapeChar;
      assert s == [s[0]] + s[1..];
    }
  }

  lemma PlainChar(c: char)
    requires EscapeChar(c) == [c]
    ensures c != '"' && c != '\\' && ' ' <= c
  {
  }

  lemma {:induction false} NumberReads(n: string, rest: string)
    requires (forall i | 0 <= i < |n| :: NumberChar(n[i])) && Stops(rest)
    ensures NumberRun(n + rest) == |n|
  {
    if n == [] {
      assert n + rest == rest;
    } else {
      assert (n + rest)[1..] == n[1..] + rest;
      NumberReads(n[1..], rest);
    }
  }

  lemma Front(c: char, rest: string)
    ensures Starts([c] + rest, c) && ([c] + rest)[1..] == rest
  {
  }

  lemma Behind(p: string, rest: string)
    ensures p <= p + rest && (p + rest)[|p|..] == rest
  {
  }

  // One step of the reader each, for texts whose parts are read already.

  lemma PlainValueReads(v: Json, rest: string)
    requires Stops(rest) && (v.Null? || v.Bool? || v.Number? || v.String?)
    ensures ReadValue(Put(v, rest)) == Some(Reading(v, rest))
  {
    var s := Put(v, rest);
    PutStarts(v, rest);
    match v {
      case Null => Behind("null", rest);
      case Bool(b) => if b { Behind("true", rest); } else { Behind("false", rest); }
      case Number(n) =>
        NumberReads(n, rest);
        hide NumberRun, ReadText, ReadItems, ReadFields;
        assert s[..|n|] == n && s[|n|..] == rest;
      case String(text) =>
        TextReads(text, rest);
        Front('"', PutEscaped(text, rest));
        hide ReadText, PutEscaped, ReadItems, ReadFields;
    }
  }

  lemma ArrayReads(s: string, items: Reading<seq<Json>>)
    requires s != [] && s[0] != ']' && ReadItems(s) == Some(items)
    ensures ReadValue("[" + s) == Some(Reading(Array(items.value), items.rest))
  {
    hide ReadItems, ReadText, ReadFields;
    Front('[', s);
  }

  lemma ObjectReads(s: string, fields: Reading<seq<Field>>)
    requires s != [] && s[0] != '}' && ReadFields(s) == Some(fields)
    ensures ReadValue("{" + s) == Some(Reading(Object(fields.value), fields.rest))
  {
    hide ReadFields, ReadText, ReadItems;
    Front('{', s);
  }

  lemma NothingReads(rest: string)
    ensures ReadValue("[]" + rest) == Some(Reading(Array([]), rest))
    ensures ReadValue("{}" + rest) == Some(Reading(Object([]), rest))
  {
    hide ReadFields, ReadText, ReadItems;
    Front('[', "]" + rest);
    Front(']', rest);
    assert "[]" + rest == ['['] + ("]" + rest);
    Front('{', "}" + rest);
    Front('}', rest);
    assert "{}" + rest == ['{'] + ("}" + rest);
  }

  lemma LastItemReads(s: string, v: Json, rest: string)
    requires ReadValue(s) == Some(Reading(v, "]" + rest))
    ensures ReadItems(s) == Some(Reading([v], rest))
  {
    hide ReadValue;
    Front(']', rest);
  }

  lemma NextItemReads(s: string, v: Json, tail: string, more: Reading<seq<Json>>)
    requires ReadValue(s) == Some(Reading(v, "," + tail)) && ReadItems(tail) == Some(more)
    ensures ReadItems(s) == Some(Reading([v] + more.value, more.rest))
  {
    hide ReadValue;
    Front(',', tail);
  }

  lemma LastFieldReads(s: string, f: Field, rest: string)
    requires ReadField(s) == Some(Reading(f, "}" + rest))
    ensures ReadFields(s) == Some(Reading([f], rest))
  {
    hide ReadField;
    Front('}', rest);
  }

  lemma NextFieldReads(s: string, f: Field, tail: string, more: Reading<seq<Field>>)
    requires ReadField(s) == Some(Reading(f, "," + tail)) && ReadFields(tail) == Some(more)
    ensures ReadFields(s) == Some(Reading([f] + more.value, more.rest))
  {
    hide ReadField;
    Front(',', tail);
  }

  lemma OneFieldReads(key: string, s: string, v: Json, rest: string)
    requires ReadValue(s) == Some(Reading(v, rest))
    ensures ReadField(PutString(key, ":" + s)) == Some(Reading(Field(key, v), rest))
  {
    TextReads(key, ":" + s);
    Front('"', PutEscaped(key, ":" + s));
    Front(':', s);
    hide ReadValue, ReadText, PutEscaped;
  }

  lemma {:induction false} ValueReads(v: Json, rest: string)
    requires Stops(rest)
    ensures ReadValue(Put(v, rest)) == Some(Reading(v, rest))
    decreases v, 0
  {
    hide ReadValue, ReadItems, ReadFields;
    match v {
      case Array(items) =>
        if items == [] {
          NothingReads(rest);
          assert ['['] + ([']'] + rest) == "[]" + rest;
        } else {
          var s := Put(items[0], PutItems(items[1..], rest));
          PutStarts(items[0], PutItems(items[1..], rest));
          ItemsRead(items, rest);
          ArrayReads(s, Reading(items, rest));
        }
      case Object(fields) =>
        if fields == [] {
          NothingReads(rest);
          assert ['{'] + (['}'] + rest) == "{}" + rest;
        } else {
          var s := PutField(fields[0], PutFields(fields[1..], rest));
          assert s[0] == '"';
          FieldsRead(fields, rest);
          ObjectReads(s, Reading(fields, rest));
        }
      case _ => PlainValueReads(v, rest);
    }
  }

  lemma {:induction false} ItemsRead(items: seq<Json>, rest: string)
    requires Stops(rest) && items != []
    ensures ReadItems(Put(items[0], PutItems(items[1..], rest))) == Some(Reading(items, rest))
    decreases items, 1
  {
    hide ReadValue, ReadItems;
    var more := items[1..];
    var s := Put(items[0], PutItems(more, rest));
    ValueReads(items[0], PutItems(more, rest));
    if more == [] {
      LastItemReads(s, items[0], rest);
      assert items == [items[0]];
    } else {
      var tail := Put(more[0], PutItems(more[1..], rest));
      ItemsRead(more, rest);
      NextItemReads(s, items[0], tail, Reading(more, rest));
      assert items == [items[0]] + more;
    }
  }

  lemma {:induction false} FieldReads(f: Field, rest: string)
    requires Stops(rest)
    ensures ReadField(PutField(f, rest)) == Some(Reading(f, rest))
    decreases f, 1
  {
    hide ReadValue, ReadField;
    ValueReads(f.value, rest);
    OneFieldReads(f.key, Put(f.value, rest), f.value, rest);
  }

  lemma {:induction false} FieldsRead(fields: seq<Field>, rest: string)
    requires Stops(rest) && fields != []
    ensures ReadFields(PutField(fields[0], PutFields(fields[1..], rest))) == Some(Reading(fields, rest))
    decreases fields, 2
  {
    hide ReadField, ReadFields, PutField;
    var more := fields[1..];
    var s := PutField(fields[0], PutFields(more, rest));
    FieldReads(fields[0], PutFields(more, rest));
    if more == [] {
      LastFieldReads(s, fields[0], rest);
      assert fields == [fields[0]];
    } else {
      var tail := PutField(more[0], PutFields(more[1..], rest));
      FieldsRead(more, rest);
      NextFieldReads(s, fields[0], tail, Reading(more, rest));
      assert fields == [fields[0]] + more;
    }
  }

  /** Only what must be escaped is, as shortly as JSON allows, and in lower-case digits. */
  lemma EscapesAreShort(c: char)
    ensures EscapeChar(c) == [c] <==> c != '"' && c != '\\' && ' ' <= c
    ensures c in {'"', '\\', '\n', '\r', '\t', '\U{8}', '\U{C}'} ==> |EscapeChar(c)| == 2
    ensures forall i | 0 <= i < |EscapeChar(c)| && |EscapeChar(c)| > 1 :: !('A' <= EscapeChar(c)[i] <= 'F')
  {
  }

  /** The compact text of every value is JSON and denotes that value. */
  lemma WriteReads(v: Json)
    ensures Read(Write(v)) == Some(v)
  {
    ValueReads(v, []);
  }

  /** Serialization is injective. */
  lemma WriteInjective(v: Json, w: Json)
    requires Write(v) == Write(w)
    ensures v == w
  {
    WriteReads(v);
    WriteReads(w);
  }
}
