/** JSON values and the compact text serde_json writes for them. */
module JsonValue {
  import opened Wrappers

  predicate NumberChar(c: char)
  {
    '0' <= c <= '9' || c == '-' || c == '+' || c == '.' || c == 'e' || c == 'E'
  }

  predicate NumberText(s: string)
  {
    s != [] && forall i | 0 <= i < |s| :: NumberChar(s[i])
  }

  /** The text of a number: what serde_json prints for one. */
  type NumberRepr = s: string | NumberText(s) witness "0"

  datatype Json =
    | Null
    | Bool(b: bool)
    | Number(repr: NumberRepr)
    | String(text: string)
    | Array(items: seq<Json>)
    | Object(fields: seq<Field>)

  datatype Field = Field(key: string, value: Json)

  /** `Value::get`: the value under a key, None on a value that is no object. */
  function Get(v: Json, key: string): Option<Json>
  {
    if v.Object? then Lookup(v.fields, key) else None
  }

  function Lookup(fields: seq<Field>, key: string): (r: Option<Json>)
    ensures r.None? <==> forall i | 0 <= i < |fields| :: fields[i].key != key
    ensures r.Some? ==> exists i | 0 <= i < |fields| :: fields[i] == Field(key, r.value)
  {
    if fields == [] then None
    else if fields[0].key == key then Some(fields[0].value)
    else
      assert forall i | 1 <= i < |fields| :: fields[i] == fields[1..][i - 1];
      Lookup(fields[1..], key)
  }

  /** The first member with a key is the one that is found. */
  lemma {:induction false} LookupFinds(fields: seq<Field>, i: nat)
    requires i < |fields| && forall j | 0 <= j < i :: fields[j].key != fields[i].key
    ensures Lookup(fields, fields[i].key) == Some(fields[i].value)
  {
    if i > 0 {
      assert forall j | 0 <= j < i - 1 :: fields[1..][j] == fields[j + 1];
      LookupFinds(fields[1..], i - 1);
    }
  }

  function HexDigit(n: nat): char
    requires n < 16
  {
    if n < 10 then ('0' as int + n) as char else ('a' as int + n - 10) as char
  }

  function EscapeChar(c: char): string
  {
    if c == '"' then "\\\""
    else if c == '\\' then "\\\\"
    else if c as int == 8 then "\\b"
    else if c as int == 9 then "\\t"
    else if c as int == 10 then "\\n"
    else if c as int == 12 then "\\f"
    else if c as int == 13 then "\\r"
    else if (c as int) < 32 then "\\u00" + [HexDigit(c as int / 16), HexDigit(c as int % 16)]
    else [c]
  }

  // The writers append to what follows: `Put(v, rest)` is the text of `v` and then `rest`.

  function PutEscaped(s: string, rest: string): string
  {
    if s == [] then ['"'] + rest else EscapeChar(s[0]) + PutEscaped(s[1..], rest)
  }

  function PutString(s: string, rest: string): string
  {
    ['"'] + PutEscaped(s, rest)
  }

  function Put(v: Json, rest: string): string
    decreases v, 0
  {
    match v
    case Null => "null" + rest
    case Bool(b) => (if b then "true" else "false") + rest
    case Number(repr) => repr + rest
    case String(text) => PutString(text, rest)
    case Array(items) => ['['] + (if items == [] then [']'] + rest else Put(items[0], PutItems(items[1..], rest)))
    case Object(fields) =>
      ['{'] + (if fields == [] then ['}'] + rest else PutField(fields[0], PutFields(fields[1..], rest)))
  }

  function PutItems(items: seq<Json>, rest: string): string
    decreases items, 0
  {
    if items == [] then [']'] + rest else [','] + Put(items[0], PutItems(items[1..], rest))
  }

  function PutField(f: Field, rest: string): string
    decreases f, 0
  {
    PutString(f.key, [':'] + Put(f.value, rest))
  }

  function PutFields(fields: seq<Field>, rest: string): string
    decreases fields, 0
  {
    if fields == [] then ['}'] + rest else [','] + PutField(fields[0], PutFields(fields[1..], rest))
  }

  /** The compact text of a value. */
  function Write(v: Json): string
  {
    Put(v, [])
  }

  // ---- Where a value begins and ends ----

  /** What may follow a complete value: nothing, or a separator no number contains. */
  predicate Stops(rest: string)
  {
    rest == [] || rest[0] in {',', ']', '}'}
  }

  /** The first character tells which kind of value a text starts with. */
  function Lead(v: Json): char
  {
    match v
    case Null => 'n'
    case Bool(b) => if b then 't' else 'f'
    case Number(repr) => repr[0]
    case String(_) => '"'
    case Array(_) => '['
    case Object(_) => '{'
  }

  lemma PutStarts(v: Json, x: string)
    ensures Put(v, x) != [] && Put(v, x)[0] == Lead(v)
    ensures Lead(v) != ']' && (NumberChar(Lead(v)) ==> v.Number?)
  {
  }
}
