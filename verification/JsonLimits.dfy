/** The structural limits of a control message, checked with an explicit stack (frame.rs). */
module JsonLimits {
  import opened JsonValue
  import opened Utf8
  import opened Wrappers

  const MAX_JSON_DEPTH: nat := 32
  const MAX_COLLECTION_ITEMS: nat := 10_000
  const MAX_JSON_VALUES: nat := 10_000
  const MAX_STRING_BYTES: nat := 256 * 1024

  datatype FrameError =
    | MissingLengthPrefix
    | EmptyPayload
    | PayloadTooLarge(actual: nat, maximum: nat)
    | LengthMismatch(declared: nat, actual: nat)
    | JsonDepth(maximum: nat)
    | CollectionTooLarge(actual: nat, maximum: nat)
    | ItemBudgetExceeded(maximum: nat)
    | StringTooLarge(actual: nat, maximum: nat)
    | InvalidJson
    | InvalidSchema

  function ValidateString(text: string): Result<(), FrameError>
  {
    if |Encode(text)| > MAX_STRING_BYTES then Err(StringTooLarge(|Encode(text)|, MAX_STRING_BYTES)) else Ok(())
  }

  function ValidateCollection(actual: nat): Result<(), FrameError>
  {
    if actual > MAX_COLLECTION_ITEMS then Err(CollectionTooLarge(actual, MAX_COLLECTION_ITEMS)) else Ok(())
  }

  // ---- The limits, stated over the value itself ----

  /** The number of values in a value, itself included. */
  function Values(v: Json): (n: nat)
    ensures n >= 1
    decreases v, 0
  {
    match v
    case Array(items) => 1 + ItemValues(items)
    case Object(fields) => 1 + FieldValues(fields)
    case _ => 1
  }

  function ItemValues(items: seq<Json>): nat
    decreases items, 0
  {
    if items == [] then 0 else Values(items[0]) + ItemValues(items[1..])
  }

  function FieldValues(fields: seq<Field>): nat
    decreases fields, 0
  {
    if fields == [] then 0 else Values(fields[0].value) + FieldValues(fields[1..])
  }

  /** Nested at most `room` deep, with every string, key and collection within its limit. */
  predicate Allowed(v: Json, room: nat)
    decreases v, 0
  {
    room > 0 &&
    match v
    case String(text) => |Encode(text)| <= MAX_STRING_BYTES
    case Array(items) => |items| <= MAX_COLLECTION_ITEMS && ItemsAllowed(items, room - 1)
    case Object(fields) => |fields| <= MAX_COLLECTION_ITEMS && FieldsAllowed(fields, room - 1)
    case _ => true
  }

  predicate ItemsAllowed(items: seq<Json>, room: nat)
    decreases items, 0
  {
    items == [] || (Allowed(items[0], room) && ItemsAllowed(items[1..], room))
  }

  predicate FieldsAllowed(fields: seq<Field>, room: nat)
    decreases fields, 0
  {
    fields == []
    || (|Encode(fields[0].key)| <= MAX_STRING_BYTES && Allowed(fields[0].value, room) && FieldsAllowed(fields[1..], room))
  }

  /** The nesting depth of a value; a value that is no collection has depth 1. */
  function Depth(v: Json): (n: nat)
    ensures n >= 1
    decreases v, 0
  {
    match v
    case Array(items) => 1 + ItemDepth(items)
    case Object(fields) => 1 + FieldDepth(fields)
    case _ => 1
  }

  function Max(a: nat, b: nat): nat { if a < b then b else a }

  function ItemDepth(items: seq<Json>): nat
    decreases items, 0
  {
    if items == [] then 0 else Max(Depth(items[0]), ItemDepth(items[1..]))
  }

  function FieldDepth(fields: seq<Field>): nat
    decreases fields, 0
  {
    if fields == [] then 0 else Max(Depth(fields[0].value), FieldDepth(fields[1..]))
  }

  /** Every string, key and collection at any depth is within its limit. */
  predicate Lengths(v: Json)
  {
    match v
    case String(text) => |Encode(text)| <= 262144
    case Array(items) => |items| <= 10000 && forall x | x in items :: Lengths(x)
    case Object(fields) =>
      |fields| <= 10000
      && forall f | f in fields :: |Encode(f.key)| <= 262144 && Lengths(f.value)
    case _ => true
  }

  predicate WithinLimits(v: Json)
  {
    Depth(v) <= 32 && Values(v) <= 10000 && Lengths(v)
  }

  lemma {:induction false} AllowedMeans(v: Json, room: nat)
    ensures Allowed(v, room) <==> Depth(v) <= room && Lengths(v)
    decreases v, 0
  {
    match v {
      case Array(items) => if room > 0 { ItemsAllowedMean(items, room - 1); }
      case Object(fields) => if room > 0 { FieldsAllowedMean(fields, room - 1); }
      case _ =>
    }
  }

  lemma {:induction false} ItemsAllowedMean(items: seq<Json>, room: nat)
    ensures ItemsAllowed(items, room) <==> ItemDepth(items) <= room && forall x | x in items :: Lengths(x)
    decreases items, 0
  {
    hide Lengths, Allowed, Depth;
    if items != [] {
      AllowedMeans(items[0], room);
      ItemsAllowedMean(items[1..], room);
      assert items == [items[0]] + items[1..];
    }
  }

  lemma {:induction false} FieldsAllowedMean(fields: seq<Field>, room: nat)
    ensures FieldsAllowed(fields, room)
            <==> FieldDepth(fields) <= room
                 && forall f | f in fields :: |Encode(f.key)| <= 262144 && Lengths(f.value)
    decreases fields, 0
  {
    hide Lengths, Allowed, Depth, Encode;
    if fields != [] {
      AllowedMeans(fields[0].value, room);
      FieldsAllowedMean(fields[1..], room);
      assert fields == [fields[0]] + fields[1..];
    }
  }

  // ---- The stack ----

  datatype Pending = Pending(value: Json, depth: nat)

  /** Pushes children in reverse, so that the first is popped first. */
  function PushItems(stack: seq<Pending>, items: seq<Json>, depth: nat): seq<Pending>
  {
    if items == [] then stack else PushItems(stack, items[1..], depth) + [Pending(items[0], depth)]
  }

  function PushFields(stack: seq<Pending>, fields: seq<Field>, depth: nat): seq<Pending>
  {
    if fields == [] then stack else PushFields(stack, fields[1..], depth) + [Pending(fields[0].value, depth)]
  }

  /** Keys are checked as they are pushed: the last one first. */
  function ValidateKeys(fields: seq<Field>): Result<(), FrameError>
  {
    if fields == [] then Ok(())
    else var later := ValidateKeys(fields[1..]);
         if later.Err? then later else ValidateString(fields[0].key)
  }

  /** The values still to be visited. */
  function Work(stack: seq<Pending>): nat
  {
    if stack == [] then 0 else Work(stack[..|stack| - 1]) + Values(stack[|stack| - 1].value)
  }

  function Room(depth: nat): nat { if depth <= MAX_JSON_DEPTH then MAX_JSON_DEPTH + 1 - depth else 0 }

  predicate AllAllowed(stack: seq<Pending>)
  {
    stack == []
    || (AllAllowed(stack[..|stack| - 1]) && Allowed(stack[|stack| - 1].value, Room(stack[|stack| - 1].depth)))
  }

  lemma PushOne(stack: seq<Pending>, p: Pending)
    ensures Work(stack + [p]) == Work(stack) + Values(p.value)
    ensures AllAllowed(stack + [p]) <==> AllAllowed(stack) && Allowed(p.value, Room(p.depth))
  {
    assert (stack + [p])[..|stack|] == stack;
  }

  lemma {:induction false} PushedItems(stack: seq<Pending>, items: seq<Json>, depth: nat)
    ensures Work(PushItems(stack, items, depth)) == Work(stack) + ItemValues(items)
    ensures AllAllowed(PushItems(stack, items, depth)) <==> AllAllowed(stack) && ItemsAllowed(items, Room(depth))
  {
    hide Allowed, Values;
    if items != [] {
      PushedItems(stack, items[1..], depth);
      PushOne(PushItems(stack, items[1..], depth), Pending(items[0], depth));
    }
  }

  lemma {:induction false} PushedFields(stack: seq<Pending>, fields: seq<Field>, depth: nat)
    ensures Work(PushFields(stack, fields, depth)) == Work(stack) + FieldValues(fields)
    ensures AllAllowed(PushFields(stack, fields, depth)) && ValidateKeys(fields).Ok?
            <==> AllAllowed(stack) && FieldsAllowed(fields, Room(depth))
  {
    hide Allowed, Values;
    if fields != [] {
      PushedFields(stack, fields[1..], depth);
      PushOne(PushFields(stack, fields[1..], depth), Pending(fields[0].value, depth));
    }
  }

  /** What one visited value adds to the stack, or why it is refused. */
  function Expand(stack: seq<Pending>, v: Json, depth: nat): Result<seq<Pending>, FrameError>
  {
    match v
    case String(text) =>
      var checked := ValidateString(text);
      if checked.Err? then Err(checked.error) else Ok(stack)
    case Array(items) =>
      var checked := ValidateCollection(|items|);
      if checked.Err? then Err(checked.error) else Ok(PushItems(stack, items, depth + 1))
    case Object(fields) =>
      var checked, keys := ValidateCollection(|fields|), ValidateKeys(fields);
      if checked.Err? then Err(checked.error)
      else if keys.Err? then Err(keys.error)
      else Ok(PushFields(stack, fields, depth + 1))
    case _ => Ok(stack)
  }

  lemma Expands(stack: seq<Pending>, v: Json, depth: nat)
    ensures var r := Expand(stack, v, depth);
            && (r.Ok? ==> Work(r.value) + 1 == Work(stack) + Values(v))
            && (depth <= MAX_JSON_DEPTH ==>
                  (r.Ok? && AllAllowed(r.value) <==> AllAllowed(stack) && Allowed(v, Room(depth))))
  {
    hide AllAllowed, Work, PushItems, PushFields;
    match v {
      case Array(items) => PushedItems(stack, items, depth + 1);
      case Object(fields) => PushedFields(stack, fields, depth + 1);
      case _ =>
    }
  }

  /** The visit of everything on the stack, in order; `budget` values have been counted. */
  function Visit(stack: seq<Pending>, budget: nat): Result<(), FrameError>
    decreases Work(stack)
  {
    if stack == [] then Ok(())
    else
      var rest, top := stack[..|stack| - 1], stack[|stack| - 1];
      if top.depth > MAX_JSON_DEPTH then Err(JsonDepth(MAX_JSON_DEPTH))
      else if budget + 1 > MAX_JSON_VALUES then Err(ItemBudgetExceeded(MAX_JSON_VALUES))
      else
        var expanded := Expand(rest, top.value, top.depth);
        Expands(rest, top.value, top.depth);
        if expanded.Err? then Err(expanded.error) else Visit(expanded.value, budget + 1)
  }

  /** The visit succeeds exactly when everything pending is allowed and fits in the budget. */
  lemma {:induction false} VisitMeans(stack: seq<Pending>, budget: nat)
    requires budget <= MAX_JSON_VALUES
    ensures Visit(stack, budget).Ok? <==> AllAllowed(stack) && Work(stack) + budget <= MAX_JSON_VALUES
    decreases Work(stack)
  {
    if stack != [] {
      hide Expand, Allowed, Values;
      var rest, top := stack[..|stack| - 1], stack[|stack| - 1];
      assert stack == rest + [top];
      PushOne(rest, top);
      if top.depth > MAX_JSON_DEPTH {
        NoRoom(top.value);
      } else if budget + 1 <= MAX_JSON_VALUES {
        Expands(rest, top.value, top.depth);
        var expanded := Expand(rest, top.value, top.depth);
        if expanded.Ok? {
          VisitMeans(expanded.value, budget + 1);
        }
      } else {
        assert Values(top.value) >= 1;
      }
    }
  }

  lemma NoRoom(v: Json)
    ensures !Allowed(v, 0)
  {
  }

  // ---- The program ----

  /** Pushes the fields of an object one by one, checking each key on the way. */
  method PushEach(stack: seq<Pending>, fields: seq<Field>, depth: nat) returns (r: Result<seq<Pending>, FrameError>)
    ensures var keys := ValidateKeys(fields);
            r == if keys.Err? then Err(keys.error) else Ok(PushFields(stack, fields, depth))
  {
    hide ValidateString;
    var pushed := stack;
    var i := |fields|;
    assert fields[i..] == [] && fields[0..] == fields;
    while i > 0
      invariant i <= |fields|
      invariant pushed == PushFields(stack, fields[i..], depth)
      invariant ValidateKeys(fields[i..]).Ok?
    {
      i := i - 1;
      assert fields[i..][0] == fields[i] && fields[i..][1..] == fields[i + 1..];
      var checked := ValidateString(fields[i].key);
      if checked.Err? {
        LaterKeyFails(fields, i);
        return Err(checked.error);
      }
      pushed := pushed + [Pending(fields[i].value, depth)];
    }
    return Ok(pushed);
  }

  lemma {:induction false} LaterKeyFails(fields: seq<Field>, i: nat)
    requires i <= |fields| && ValidateKeys(fields[i..]).Err?
    ensures ValidateKeys(fields) == ValidateKeys(fields[i..])
  {
    if i == 0 {
      assert fields[0..] == fields;
    } else {
      assert fields[1..][i - 1..] == fields[i..];
      LaterKeyFails(fields[1..], i - 1);
    }
  }

  method PushAll(stack: seq<Pending>, items: seq<Json>, depth: nat) returns (pushed: seq<Pending>)
    ensures pushed == PushItems(stack, items, depth)
  {
    pushed := stack;
    var i := |items|;
    assert items[i..] == [] && items[0..] == items;
    while i > 0
      invariant i <= |items|
      invariant pushed == PushItems(stack, items[i..], depth)
    {
      i := i - 1;
      assert items[i..][0] == items[i] && items[i..][1..] == items[i + 1..];
      pushed := pushed + [Pending(items[i], depth)];
    }
  }

  method ExpandTop(stack: seq<Pending>, value: Json, depth: nat) returns (r: Result<seq<Pending>, FrameError>)
    ensures r == Expand(stack, value, depth)
  {
    hide ValidateKeys, PushItems, PushFields, ValidateString;
    match value {
      case String(text) =>
        var checked := ValidateString(text);
        if checked.Err? { return Err(checked.error); }
        return Ok(stack);
      case Array(items) =>
        var checked := ValidateCollection(|items|);
        if checked.Err? { return Err(checked.error); }
        var pushed := PushAll(stack, items, depth + 1);
        return Ok(pushed);
      case Object(fields) =>
        var checked := ValidateCollection(|fields|);
        if checked.Err? { return Err(checked.error); }
        r := PushEach(stack, fields, depth + 1);
      case _ =>
        return Ok(stack);
    }
  }

  /** `validate_json_limits`. */
  method ValidateJsonLimits(value: Json) returns (r: Result<(), FrameError>)
    ensures r == Check(value)
    ensures r.Ok? <==> WithinLimits(value)
  {
    hide Expand, Values, Allowed;
    CheckMeans(value);
    var itemBudget := 0;
    var pending := [Pending(value, 1)];
    while pending != []
      invariant Check(value) == Visit(pending, itemBudget)
      decreases Work(pending)
    {
      var top := pending[|pending| - 1];
      pending := pending[..|pending| - 1];
      if top.depth > MAX_JSON_DEPTH {
        return Err(JsonDepth(MAX_JSON_DEPTH));
      }
      itemBudget := itemBudget + 1;
      if itemBudget > MAX_JSON_VALUES {
        return Err(ItemBudgetExceeded(MAX_JSON_VALUES));
      }
      Expands(pending, top.value, top.depth);
      var expanded := ExpandTop(pending, top.value, top.depth);
      if expanded.Err? {
        return Err(expanded.error);
      }
      pending := expanded.value;
    }
    return Ok(());
  }

  function Check(value: Json): Result<(), FrameError>
  {
    Visit([Pending(value, 1)], 0)
  }

  /** The stack-based check accepts exactly the values within the recursively stated limits. */
  lemma CheckMeans(value: Json)
    ensures Check(value).Ok? <==> WithinLimits(value)
  {
    hide Values, Allowed, Expand, Depth, Lengths;
    AllowedMeans(value, MAX_JSON_DEPTH);
    VisitMeans([Pending(value, 1)], 0);
    PushOne([], Pending(value, 1));
    assert [] + [Pending(value, 1)] == [Pending(value, 1)];
  }

  // ---- Why a value is refused ----

  /** `x` is `v` or stands inside it. */
  predicate Inside(x: Json, v: Json)
  {
    x == v
    || match v
       case Array(items) => exists y | y in items :: Inside(x, y)
       case Object(fields) => exists f | f in fields :: Inside(x, f.value)
       case _ => false
  }

  /** A text or key of that many bytes stands in the value. */
  ghost predicate HoldsText(v: Json, bytes: nat)
  {
    exists x | Inside(x, v) ::
      (x.String? && |Encode(x.text)| == bytes)
      || (x.Object? && exists f | f in x.fields :: |Encode(f.key)| == bytes)
  }

  /** A collection of that many members stands in the value. */
  ghost predicate HoldsCollection(v: Json, size: nat)
  {
    exists x | Inside(x, v) :: (x.Array? && |x.items| == size) || (x.Object? && |x.fields| == size)
  }

  /** The error names a limit that the value does break, and by how much. */
  ghost predicate LimitError(v: Json, e: FrameError)
  {
    match e
    case JsonDepth(maximum) => maximum == 32 && Depth(v) > 32
    case ItemBudgetExceeded(maximum) => maximum == 10000 && Values(v) > 10000
    case StringTooLarge(actual, maximum) => maximum == 262144 < actual && HoldsText(v, actual)
    case CollectionTooLarge(actual, maximum) => maximum == 10000 < actual && HoldsCollection(v, actual)
    case _ => false
  }

  lemma {:induction false} InsideOf(x: Json, y: Json, v: Json)
    requires Inside(x, y) && Inside(y, v)
    ensures Inside(x, v)
    decreases v
  {
    if y != v {
      match v {
        case Array(items) =>
          var z :| z in items && Inside(y, z);
          InsideOf(x, y, z);
        case Object(fields) =>
          var f :| f in fields && Inside(y, f.value);
          InsideOf(x, y, f.value);
      }
    }
  }

  /** What waits on the stack stands in the value, at a depth the value does reach. */
  ghost predicate PartsOf(stack: seq<Pending>, v: Json)
  {
    forall p | p in stack :: Inside(p.value, v) && p.depth >= 1 && p.depth - 1 + Depth(p.value) <= Depth(v)
  }

  lemma {:induction false} PushedItemsInside(stack: seq<Pending>, items: seq<Json>, depth: nat, p: Pending)
    requires p in PushItems(stack, items, depth)
    ensures p in stack || (p.value in items && p.depth == depth && Depth(p.value) <= ItemDepth(items))
  {
    if items != [] && p != Pending(items[0], depth) { PushedItemsInside(stack, items[1..], depth, p); }
  }

  lemma {:induction false} PushedFieldsInside(stack: seq<Pending>, fields: seq<Field>, depth: nat, p: Pending)
    requires p in PushFields(stack, fields, depth)
    ensures p in stack
            || (p.depth == depth && Depth(p.value) <= FieldDepth(fields) && exists f | f in fields :: f.value == p.value)
  {
    if fields != [] {
      if p == Pending(fields[0].value, depth) {
        assert fields[0] in fields;
      } else {
        PushedFieldsInside(stack, fields[1..], depth, p);
      }
    }
  }

  lemma ExpandStays(rest: seq<Pending>, top: Pending, v: Json)
    requires PartsOf(rest + [top], v) && Expand(rest, top.value, top.depth).Ok?
    ensures PartsOf(Expand(rest, top.value, top.depth).value, v)
  {
    assert top in rest + [top] && forall p | p in rest :: p in rest + [top];
    var next := Expand(rest, top.value, top.depth).value;
    forall p | p in next ensures Inside(p.value, v) && p.depth >= 1 && p.depth - 1 + Depth(p.value) <= Depth(v) {
      match top.value {
        case Array(items) =>
          PushedItemsInside(rest, items, top.depth + 1, p);
          if p !in rest {
            assert Inside(p.value, p.value) && Inside(p.value, top.value);
            InsideOf(p.value, top.value, v);
          }
        case Object(fields) =>
          PushedFieldsInside(rest, fields, top.depth + 1, p);
          if p !in rest {
            assert Inside(p.value, p.value) && Inside(p.value, top.value);
            InsideOf(p.value, top.value, v);
          }
        case _ =>
      }
    }
  }

  lemma {:induction false} KeyRefusal(fields: seq<Field>)
    requires ValidateKeys(fields).Err?
    ensures ValidateKeys(fields).error.StringTooLarge? && ValidateKeys(fields).error.maximum == 262144
    ensures ValidateKeys(fields).error.actual > 262144
    ensures exists f | f in fields :: |Encode(f.key)| == ValidateKeys(fields).error.actual
  {
    if ValidateKeys(fields[1..]).Err? {
      KeyRefusal(fields[1..]);
    } else {
      assert fields[0] in fields;
    }
  }

  lemma ExpandRefusal(rest: seq<Pending>, top: Pending, v: Json)
    requires Inside(top.value, v) && Expand(rest, top.value, top.depth).Err?
    ensures LimitError(v, Expand(rest, top.value, top.depth).error)
  {
    hide Inside, Encode;
    match top.value {
      case Object(fields) => if |fields| <= MAX_COLLECTION_ITEMS { KeyRefusal(fields); }
      case _ =>
    }
  }

  lemma TooDeep(stack: seq<Pending>, top: Pending, v: Json)
    requires PartsOf(stack, v) && top in stack && top.depth > MAX_JSON_DEPTH
    ensures LimitError(v, JsonDepth(MAX_JSON_DEPTH))
  {
    hide Inside, Depth;
  }

  lemma VisitStep(rest: seq<Pending>, top: Pending, budget: nat)
    ensures Visit(rest + [top], budget) ==
              if top.depth > MAX_JSON_DEPTH then Err(JsonDepth(MAX_JSON_DEPTH))
              else if budget + 1 > MAX_JSON_VALUES then Err(ItemBudgetExceeded(MAX_JSON_VALUES))
              else
                var expanded := Expand(rest, top.value, top.depth);
                if expanded.Err? then Err(expanded.error) else Visit(expanded.value, budget + 1)
  {
    assert (rest + [top])[..|rest|] == rest;
    hide Expand, Work;
  }

  lemma NothingVisited(budget: nat)
    ensures Visit([], budget).Ok?
  {
  }

  lemma TooMany(v: Json)
    requires Values(v) > 10000
    ensures LimitError(v, ItemBudgetExceeded(MAX_JSON_VALUES))
  {
  }

  lemma {:induction false} VisitRefusal(stack: seq<Pending>, budget: nat, v: Json)
    requires PartsOf(stack, v) && Work(stack) + budget == Values(v) && Visit(stack, budget).Err?
    ensures LimitError(v, Visit(stack, budget).error)
    decreases Work(stack)
  {
    hide Visit, Expand, PartsOf, Values, Work, AllAllowed, Allowed, LimitError, Inside, Depth, Room;
    NothingVisited(budget);
    var rest, top := stack[..|stack| - 1], stack[|stack| - 1];
    assert stack == rest + [top] && top in stack;
    VisitStep(rest, top, budget);
    PushOne(rest, top);
    Expands(rest, top.value, top.depth);
    if top.depth > MAX_JSON_DEPTH {
      TooDeep(stack, top, v);
    } else if budget + 1 > MAX_JSON_VALUES {
      TooMany(v);
    } else {
      var expanded := Expand(rest, top.value, top.depth);
      TopInside(stack, top, v);
      if expanded.Err? {
        ExpandRefusal(rest, top, v);
      } else {
        ExpandStays(rest, top, v);
        VisitRefusal(expanded.value, budget + 1, v);
      }
    }
  }

  lemma TopInside(stack: seq<Pending>, top: Pending, v: Json)
    requires PartsOf(stack, v) && top in stack
    ensures Inside(top.value, v)
  {
  }

  /** A refusal names a limit the value breaks: its depth, its number of values, a text, a key or a collection in it. */
  lemma RefusalTells(v: Json)
    requires Check(v).Err?
    ensures LimitError(v, Check(v).error)
  {
    var stack := [Pending(v, 1)];
    PushOne([], Pending(v, 1));
    assert [] + stack == stack && Inside(v, v);
    VisitRefusal(stack, 0, v);
  }

  // ---- Which refusal comes first ----

  lemma {:induction false} PushedOnTop(rest: seq<Pending>, stack: seq<Pending>, items: seq<Json>, depth: nat)
    ensures PushItems(rest + stack, items, depth) == rest + PushItems(stack, items, depth)
  {
    if items != [] {
      PushedOnTop(rest, stack, items[1..], depth);
      var s, p := PushItems(stack, items[1..], depth), [Pending(items[0], depth)];
      assert rest + (s + p) == rest + s + p;
    }
  }

  lemma {:induction false} FieldsOnTop(rest: seq<Pending>, stack: seq<Pending>, fields: seq<Field>, depth: nat)
    ensures PushFields(rest + stack, fields, depth) == rest + PushFields(stack, fields, depth)
  {
    if fields != [] {
      FieldsOnTop(rest, stack, fields[1..], depth);
      var s, p := PushFields(stack, fields[1..], depth), [Pending(fields[0].value, depth)];
      assert rest + (s + p) == rest + s + p;
    }
  }

  lemma ExpandOnTop(rest: seq<Pending>, stack: seq<Pending>, v: Json, depth: nat)
    ensures Expand(rest + stack, v, depth)
         == (match Expand(stack, v, depth) case Ok(s) => Ok(rest + s) case Err(e) => Err(e))
  {
    hide PushItems, PushFields, ValidateKeys, ValidateString;
    match v {
      case Array(items) => PushedOnTop(rest, stack, items, depth + 1);
      case Object(fields) => FieldsOnTop(rest, stack, fields, depth + 1);
      case _ =>
    }
  }

  /** What lies deeper in the stack does not matter to a refusal above it. */
  lemma {:induction false} TopDecides(rest: seq<Pending>, stack: seq<Pending>, budget: nat)
    requires Visit(stack, budget).Err?
    ensures Visit(rest + stack, budget) == Visit(stack, budget)
    decreases Work(stack)
  {
    hide Visit, Expand, Work;
    NothingVisited(budget);
    var below, top := stack[..|stack| - 1], stack[|stack| - 1];
    assert stack == below + [top] && rest + stack == rest + below + [top];
    PushOne(below, top);
    VisitStep(below, top, budget);
    VisitStep(rest + below, top, budget);
    ExpandOnTop(rest, below, top.value, top.depth);
    Expands(below, top.value, top.depth);
    if top.depth <= MAX_JSON_DEPTH && budget + 1 <= MAX_JSON_VALUES {
      var expanded := Expand(below, top.value, top.depth);
      if expanded.Ok? {
        assert Values(top.value) >= 1;
        TopDecides(rest, expanded.value, budget + 1);
      }
    }
  }

  /** Items are visited in order: a first text that is too long decides, whatever else the list holds. */
  lemma FirstTextDecides(text: string, items: seq<Json>)
    requires |Encode(text)| > 262144 && |items| < 10000
    ensures Check(Array([String(text)] + items)) == Err(StringTooLarge(|Encode(text)|, 262144))
  {
    hide Encode, Visit;
    var all := [String(text)] + items;
    assert all[1..] == items;
    var first := Pending(String(text), 2);
    var rest := PushItems([], items, 2);
    VisitStep([], Pending(Array(all), 1), 0);
    VisitStep([], first, 1);
    assert [] + [Pending(Array(all), 1)] == [Pending(Array(all), 1)] && [] + [first] == [first];
    TopDecides(rest, [first], 1);
  }

  /** Keys are checked from the last one, and before any value. */
  lemma LastKeyDecides(fields: seq<Field>, f: Field)
    requires |Encode(f.key)| > 262144 && |fields| < 10000
    ensures Check(Object(fields + [f])) == Err(StringTooLarge(|Encode(f.key)|, 262144))
  {
    hide Encode, Visit;
    var all := fields + [f];
    VisitStep([], Pending(Object(all), 1), 0);
    assert [] + [Pending(Object(all), 1)] == [Pending(Object(all), 1)];
    assert all[|fields|..] == [f] && [f][1..] == [];
    LaterKeyFails(all, |fields|);
  }
}
