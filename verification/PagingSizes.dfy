/** What one difference takes up on a page, and what the byte budget of a page bounds. */
module PagingSizes {
  import opened JsonValue
  import opened Paging
  import opened Utf8
  import opened Wrappers
  import D = SchemaDiff
  import JsonReader

  // ---- The bytes of a JSON text are at least those of the texts in it ----

  lemma {:induction false} AtLeastCharacters(s: string)
    ensures |Encode(s)| >= |s|
  {
    if s != [] { AtLeastCharacters(s[1..]); }
  }

  lemma EscapeBytes(c: char)
    ensures |Encode(EscapeChar(c))| >= |EncodeChar(c)|
  {
    AtLeastCharacters(EscapeChar(c));
    if EscapeChar(c) == [c] {
      assert [c][1..] == [] && EncodeChar(c) + [] == EncodeChar(c);
    } else {
      assert |EncodeChar(c)| == 1;
    }
  }

  lemma {:induction false} EscapedBytes(s: string, rest: string)
    ensures |Encode(PutEscaped(s, rest))| >= |Encode(s)| + 1 + |Encode(rest)|
  {
    if s == [] {
      EncodeConcat(['"'], rest);
      AtLeastCharacters(['"']);
    } else {
      EscapedBytes(s[1..], rest);
      EncodeConcat(EscapeChar(s[0]), PutEscaped(s[1..], rest));
      EscapeBytes(s[0]);
    }
  }

  lemma StringBytes(s: string, rest: string)
    ensures |Encode(PutString(s, rest))| >= |Encode(s)| + 2 + |Encode(rest)|
  {
    EscapedBytes(s, rest);
    EncodeConcat(['"'], PutEscaped(s, rest));
    AtLeastCharacters(['"']);
  }

  /** The bytes of the texts that are members of an object. */
  function MemberBytes(fields: seq<Field>): nat
  {
    if fields == [] then 0
    else (if fields[0].value.String? then |Encode(fields[0].value.text)| else 0) + MemberBytes(fields[1..])
  }

  lemma MemberAtLeast(f: Field, rest: string)
    requires f.value.String?
    ensures |Encode(PutField(f, rest))| >= |Encode(f.value.text)| + |Encode(rest)|
  {
    StringBytes(f.key, [':'] + Put(f.value, rest));
    EncodeConcat([':'], Put(f.value, rest));
    StringBytes(f.value.text, rest);
  }

  lemma {:induction false} MembersAtLeast(fields: seq<Field>, rest: string)
    requires forall f | f in fields :: f.value.String?
    ensures |Encode(PutFields(fields, rest))| >= MemberBytes(fields) + |Encode(rest)|
  {
    if fields == [] {
      EncodeConcat(['}'], rest);
    } else {
      var tail := PutFields(fields[1..], rest);
      MembersAtLeast(fields[1..], rest);
      assert fields[0] in fields;
      MemberAtLeast(fields[0], tail);
      hide Encode, PutField;
      EncodeConcat([','], PutField(fields[0], tail));
    }
  }

  lemma ObjectAtLeast(fields: seq<Field>)
    requires fields != [] && forall f | f in fields :: f.value.String?
    ensures |Encode(Write(JsonValue.Object(fields)))| >= MemberBytes(fields)
  {
    var tail := PutFields(fields[1..], []);
    MembersAtLeast(fields[1..], []);
    MemberAtLeast(fields[0], tail);
    hide Encode, PutField;
    EncodeConcat(['{'], PutField(fields[0], tail));
  }

  // ---- One difference ----

  /** The JSON object of a difference has six members, and this is what they say. */
  lemma MembersOf(o: D.DiffObject)
    ensures var j := DiffObjectJson(o);
            && j.Object? && |j.fields| == 6
            && Get(j, "table") == Some(JsonValue.String(o.table)) && Get(j, "name") == Some(JsonValue.String(o.name))
            && Get(j, "baselineValue") == Some(JsonValue.String(o.baselineValue))
            && Get(j, "targetValue") == Some(JsonValue.String(o.targetValue))
            && Get(j, "status") == Some(JsonValue.String(
                 if o.status == D.Added then "added" else if o.status == D.Missing then "missing" else "changed"))
            && Get(j, "objectType") == Some(JsonValue.String(
                 if o.objectType == D.Table then "table" else if o.objectType == D.View then "view"
                 else if o.objectType == D.MaterializedView then "materializedView"
                 else if o.objectType == D.Column then "column" else if o.objectType == D.Index then "index"
                 else "foreignKey"))
  {
    hide Lookup;
    var f := DiffObjectJson(o).fields;
    LookupFinds(f, 0);
    LookupFinds(f, 1);
    LookupFinds(f, 2);
    LookupFinds(f, 3);
    LookupFinds(f, 4);
    LookupFinds(f, 5);
  }

  /** The text a difference is measured by determines the difference. */
  lemma TextTells(o: D.DiffObject, p: D.DiffObject)
    requires Write(DiffObjectJson(o)) == Write(DiffObjectJson(p))
    ensures o == p
  {
    JsonReader.WriteInjective(DiffObjectJson(o), DiffObjectJson(p));
    MembersOf(o);
    MembersOf(p);
    hide DiffObjectJson, Lookup;
  }

  /** The bytes of what a difference shows. */
  function ShownBytes(o: D.DiffObject): nat
  {
    |Encode(o.table)| + |Encode(o.name)| + |Encode(o.baselineValue)| + |Encode(o.targetValue)|
  }

  lemma SizeCountsTexts(o: D.DiffObject)
    ensures Size(o) >= ShownBytes(o)
  {
    var f := DiffObjectJson(o).fields;
    ObjectAtLeast(f);
    hide Encode, Write;
    assert f[1..] == [f[1], f[2], f[3], f[4], f[5]] && f[2..] == [f[2], f[3], f[4], f[5]];
    assert MemberBytes(f[2..]) == |Encode(o.name)| + MemberBytes(f[3..]) by { assert f[2..][1..] == f[3..]; }
    assert MemberBytes(f[3..]) >= MemberBytes(f[4..]) by { assert f[3..][1..] == f[4..]; }
    assert MemberBytes(f[4..]) == |Encode(o.baselineValue)| + MemberBytes(f[5..]) by { assert f[4..][1..] == f[5..]; }
    assert MemberBytes(f[5..]) == |Encode(o.targetValue)| by { assert f[5..][1..] == []; }
    assert MemberBytes(f) >= |Encode(o.table)| + MemberBytes(f[2..]) by { assert f[1..][1..] == f[2..]; }
  }

  // ---- One page ----

  function PageShows(objects: seq<D.DiffObject>): nat
  {
    if objects == [] then 0 else ShownBytes(objects[0]) + PageShows(objects[1..])
  }

  lemma {:induction false} TotalCountsTexts(objects: seq<D.DiffObject>)
    ensures TotalSize(objects) >= PageShows(objects)
  {
    hide Size, ShownBytes;
    if objects != [] {
      SizeCountsTexts(objects[0]);
      TotalCountsTexts(objects[1..]);
    }
  }

  /** Names and values on one page never take more than 262144 bytes, and a page has at most 200 entries, or 100 unasked. */
  lemma PageIsBounded(args: PageArguments, diff: D.SchemaDiff)
    requires diff.total == |diff.objects| && Answer(args, Ok(diff)).Ok?
    ensures var page := Answer(args, Ok(diff)).value.diff.objects;
            && PageShows(page) <= 262144 && |page| <= 200
            && |page| <= (if args.limit.Some? then args.limit.value else 100)
  {
    PageKeepsBudgets(args, diff);
    hide Answer, TotalSize, PageShows;
    TotalCountsTexts(Answer(args, Ok(diff)).value.diff.objects);
  }

  /** A difference that shows more than 262144 bytes is never on a page. */
  lemma HugeIsRefused(args: PageArguments, diff: D.SchemaDiff)
    requires diff.total == |diff.objects| && args.offset < diff.total && Answer(args, Ok(diff)).Ok?
    ensures ShownBytes(diff.objects[args.offset]) <= 262144
  {
    StuckOnlyOnHugeObject(args, diff);
    hide Answer, Size, ShownBytes;
    SizeCountsTexts(diff.objects[args.offset]);
  }

  // ---- Every answer ----

  function Asked(args: PageArguments): nat { match args.limit case None => 100 case Some(n) => n }

  predicate Stale(given: Option<string>, actual: string) { given != None && given != Some(actual) }

  /** Which answer a request gets: the checks in their order, the error each reports, and how full a page is. */
  lemma AnswerMeans(args: PageArguments, loaded: Result<D.SchemaDiff, string>)
    requires loaded.Ok? ==> loaded.value.total == |loaded.value.objects|
    ensures var r := Answer(args, loaded);
            if Asked(args) < 1 || Asked(args) > 200 then r == Err("schema diff limit must be between 1 and 200")
            else if args.offset > 0 && (args.baselineFingerprint == None || args.targetFingerprint == None) then
              r == Err("continuing a schema diff requires both returned catalog fingerprints")
            else if loaded.Err? then r == Err(loaded.error)
            else
              var diff := loaded.value;
              if Stale(args.baselineFingerprint, diff.baseline.fingerprint)
                 || Stale(args.targetFingerprint, diff.target.fingerprint) then
                r == Err("a catalog changed between schema diff pages; restart from offset 0")
              else if args.offset > diff.total then r == Err("schema diff offset exceeds the total difference count")
              else if args.offset < diff.total && |Encode(Write(DiffObjectJson(diff.objects[args.offset])))| > 262144 then
                r == Err("one schema difference exceeds the Agent output limit; inspect that relation with table_describe")
              else
                r.Ok? && PageFull(args, diff, r.value)
  {
    hide Size, TotalSize, Fitting;
    if Answer(args, loaded).Ok? { PageKeepsBudgets(args, loaded.value); }
    if loaded.Ok? {
      StuckOnlyOnHugeObject(args, loaded.value);
      if args.offset < loaded.value.total { SizeMeans(loaded.value.objects[args.offset]); }
      if args.offset <= loaded.value.total && Asked(args) > 0 { RoomForOne(args, loaded.value); }
    }
  }

  lemma SizeMeans(o: D.DiffObject)
    ensures Size(o) == |Encode(Write(DiffObjectJson(o)))|
  {
  }

  lemma RoomForOne(args: PageArguments, diff: D.SchemaDiff)
    requires diff.total == |diff.objects| && args.offset <= diff.total && Asked(args) > 0
    ensures var rest := diff.objects[args.offset..];
            Fitting(rest, Limit(args), 0) == 0 && rest != [] <==>
            args.offset < diff.total && Size(diff.objects[args.offset]) > 262144
  {
    hide Size;
  }

  /** The page is the next stretch of differences, as long as the limit and the byte budget allow. */
  predicate PageFull(args: PageArguments, diff: D.SchemaDiff, p: Page)
  {
    var end := args.offset + |p.diff.objects|;
    && end <= |diff.objects| && p.diff == diff.(objects := diff.objects[args.offset..end])
    && |p.diff.objects| <= Asked(args) && TotalSize(p.diff.objects) <= 262144
    && (end < |diff.objects| && |p.diff.objects| < Asked(args) ==>
          TotalSize(p.diff.objects) + Size(diff.objects[end]) > 262144)
    && p.offset == args.offset && p.nextOffset == (if end < diff.total then Some(end) else None)
    && (p.truncated <==> end < diff.total)
  }
}
