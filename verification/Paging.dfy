/** Paging a schema diff by count and bytes, with fingerprints as the consistency token (agent_mcp_dispatch.rs). */
module Paging {
  import opened Catalog
  import opened CatalogCanon
  import opened CatalogSnapshot
  import opened JsonValue
  import opened Utf8
  import opened Wrappers
  import D = SchemaDiff
  import SchemaDiffLaws
  import TypeSpelling

  const MAX_REQUEST_BYTES: nat := 1024 * 1024
  const PAGE_BYTES: nat := MAX_REQUEST_BYTES / 4

  // ---- The size of one difference on the wire ----

  function TypeName(t: D.ObjectType): string
  {
    match t case Table => "table" case View => "view" case MaterializedView => "materializedView"
            case Column => "column" case Index => "index" case ForeignKey => "foreignKey"
  }

  function StatusName(s: D.Status): string
  {
    match s case Added => "added" case Missing => "missing" case Changed => "changed"
  }

  function DiffObjectJson(o: D.DiffObject): JsonValue.Json
  {
    JsonValue.Object([
      Field("table", OfText(o.table)), Field("objectType", OfText(TypeName(o.objectType))),
      Field("name", OfText(o.name)), Field("status", OfText(StatusName(o.status))),
      Field("baselineValue", OfText(o.baselineValue)), Field("targetValue", OfText(o.targetValue))
    ])
  }

  function Size(o: D.DiffObject): nat { |Encode(Write(DiffObjectJson(o)))| }

  function TotalSize(objects: seq<D.DiffObject>): nat
  {
    if objects == [] then 0 else Size(objects[0]) + TotalSize(objects[1..])
  }

  // ---- One page ----

  datatype PageArguments = PageArguments(
    limit: Option<nat>, offset: nat, baselineFingerprint: Option<string>, targetFingerprint: Option<string>)

  datatype Page = Page(diff: D.SchemaDiff, offset: nat, nextOffset: Option<nat>, truncated: bool)

  const BAD_LIMIT := "schema diff limit must be between 1 and 200"
  const NO_FINGERPRINTS := "continuing a schema diff requires both returned catalog fingerprints"
  const CATALOG_CHANGED := "a catalog changed between schema diff pages; restart from offset 0"
  const BAD_OFFSET := "schema diff offset exceeds the total difference count"
  const TOO_LARGE := "one schema difference exceeds the Agent output limit; inspect that relation with table_describe"

  function Limit(args: PageArguments): nat { if args.limit.Some? then args.limit.value else 100 }

  /** How many of `objects` fit: at most `room` of them, in the bytes left over from `used`. */
  function Fitting(objects: seq<D.DiffObject>, room: nat, used: nat): nat
  {
    if objects == [] || room == 0 || used + Size(objects[0]) > PAGE_BYTES then 0
    else 1 + Fitting(objects[1..], room - 1, used + Size(objects[0]))
  }

  predicate Mismatch(given: Option<string>, actual: string) { given.Some? && given.value != actual }

  lemma {:induction false} FittingBounds(objects: seq<D.DiffObject>, room: nat, used: nat)
    requires used <= PAGE_BYTES
    ensures var n := Fitting(objects, room, used);
            && n <= room && n <= |objects| && used + TotalSize(objects[..n]) <= PAGE_BYTES
            && (n < room && n < |objects| ==> used + TotalSize(objects[..n]) + Size(objects[n]) > PAGE_BYTES)
  {
    hide Size;
    var n := Fitting(objects, room, used);
    if n > 0 {
      FittingBounds(objects[1..], room - 1, used + Size(objects[0]));
      assert objects[..n][1..] == objects[1..][..n - 1];
    }
  }

  /** The page of an already loaded diff. */
  function PageOf(args: PageArguments, result: D.SchemaDiff): Result<Page, string>
    requires 1 <= Limit(args)
  {
    if Mismatch(args.baselineFingerprint, result.baseline.fingerprint)
       || Mismatch(args.targetFingerprint, result.target.fingerprint) then Err(CATALOG_CHANGED)
    else if args.offset > result.total || args.offset > |result.objects| then Err(BAD_OFFSET)
    else
      var rest := result.objects[args.offset..];
      FittingBounds(rest, Limit(args), 0);
      var n := Fitting(rest, Limit(args), 0);
      if n == 0 && rest != [] then Err(TOO_LARGE)
      else
        var end := args.offset + n;
        Ok(Page(result.(objects := rest[..n]), args.offset,
                if end < result.total then Some(end) else None, end < result.total))
  }

  function Answer(args: PageArguments, loaded: Result<D.SchemaDiff, string>): Result<Page, string>
  {
    if Limit(args) == 0 || Limit(args) > 200 then Err(BAD_LIMIT)
    else if args.offset > 0 && (args.baselineFingerprint.None? || args.targetFingerprint.None?) then Err(NO_FINGERPRINTS)
    else if loaded.Err? then Err(loaded.error)
    else PageOf(args, loaded.value)
  }

  /** The page-filling loop of `schema_diff`. */
  method FillPage(objects: seq<D.DiffObject>, limit: nat) returns (page: Option<seq<D.DiffObject>>)
    requires limit > 0
    ensures var n := Fitting(objects, limit, 0);
            n <= |objects| && page == if n == 0 && objects != [] then None else Some(objects[..n])
  {
    hide Size;
    FittingBounds(objects, limit, 0);
    var bytes: nat, taken := 0, [];
    var i := 0;
    while i < |objects| && i < limit
      invariant i <= |objects| && i <= limit && taken == objects[..i] && bytes <= PAGE_BYTES
      invariant Fitting(objects, limit, 0) == i + Fitting(objects[i..], limit - i, bytes)
    {
      var length := Size(objects[i]);
      assert objects[i..][0] == objects[i] && objects[i..][1..] == objects[i + 1..];
      if bytes + length > PAGE_BYTES {
        if taken == [] {
          return None;
        }
        break;
      }
      bytes := bytes + length;
      taken := taken + [objects[i]];
      i := i + 1;
    }
    page := Some(taken);
  }

  method PageFrom(args: PageArguments, result: D.SchemaDiff) returns (r: Result<Page, string>)
    requires 1 <= Limit(args) && result.total == |result.objects|
    ensures r == PageOf(args, result)
  {
    hide Fitting;
    if Mismatch(args.baselineFingerprint, result.baseline.fingerprint)
       || Mismatch(args.targetFingerprint, result.target.fingerprint) {
      return Err(CATALOG_CHANGED);
    }
    if args.offset > result.total {
      return Err(BAD_OFFSET);
    }
    var page := FillPage(result.objects[args.offset..], Limit(args));
    if page.None? {
      return Err(TOO_LARGE);
    }
    var end := args.offset + |page.value|;
    return Ok(Page(result.(objects := page.value), args.offset,
                   if end < result.total then Some(end) else None, end < result.total));
  }

  /** `schema_diff`: one page of the differences between the two loaded catalogs. */
  method SchemaDiffPage(args: PageArguments, baseline: Snapshot, target: Snapshot, lower: TypeSpelling.Lower)
    returns (r: Result<Page, string>)
    ensures r == Answer(args, D.Compare(baseline, target, lower))
  {
    CompareTotal(baseline, target, lower);
    hide D.Compare, PageOf;
    if Limit(args) == 0 || Limit(args) > 200 {
      return Err(BAD_LIMIT);
    }
    if args.offset > 0 && (args.baselineFingerprint.None? || args.targetFingerprint.None?) {
      return Err(NO_FINGERPRINTS);
    }
    var loaded := D.CompareSchemaCatalogs(baseline, target, lower);
    if loaded.Err? {
      return Err(loaded.error);
    }
    r := PageFrom(args, loaded.value);
  }

  lemma CompareTotal(b: Snapshot, t: Snapshot, lower: TypeSpelling.Lower)
    ensures var r := D.Compare(b, t, lower);
            r.Ok? ==> r.value.total == |r.value.objects| && r.value.baseline == D.SourceOf(b)
                      && r.value.target == D.SourceOf(t)
                      && b.engine == t.engine == r.value.engine
                      && r.value.objects == D.Differences(D.Projected(b.contents.relations, lower),
                                                          D.Projected(t.contents.relations, lower))
  {
    hide D.Differences, D.Projected, D.CountOf;
  }

  // ---- What one page guarantees ----

  /** A page keeps both budgets, and stops early only where the next object would break one. */
  lemma PageKeepsBudgets(args: PageArguments, diff: D.SchemaDiff)
    requires diff.total == |diff.objects|
    ensures var r := Answer(args, Ok(diff));
            r.Ok? ==>
              var page := r.value.diff.objects;
              && |page| <= Limit(args) <= 200 && TotalSize(page) <= 262144
              && args.offset + |page| <= diff.total
              && page == diff.objects[args.offset..args.offset + |page|]
              && r.value.diff == diff.(objects := page) && r.value.offset == args.offset
              && (r.value.truncated <==> r.value.nextOffset.Some?)
              && (args.offset + |page| < diff.total && |page| < Limit(args) ==>
                    TotalSize(page) + Size(diff.objects[args.offset + |page|]) > 262144)
              && r.value.nextOffset == (if args.offset + |page| < diff.total then Some(args.offset + |page|) else None)
              && (r.value.nextOffset.Some? ==> page != [])
  {
    hide Size, TotalSize, Fitting;
    if args.offset <= |diff.objects| {
      FittingBounds(diff.objects[args.offset..], Limit(args), 0);
    }
  }

  /** The only way to get stuck on an unchanged diff is one object larger than the whole budget. */
  lemma StuckOnlyOnHugeObject(args: PageArguments, diff: D.SchemaDiff)
    requires diff.total == |diff.objects|
    ensures Answer(args, Ok(diff)).Ok? <==>
              && 1 <= Limit(args) <= 200
              && (args.offset > 0 ==> args.baselineFingerprint.Some? && args.targetFingerprint.Some?)
              && !Mismatch(args.baselineFingerprint, diff.baseline.fingerprint)
              && !Mismatch(args.targetFingerprint, diff.target.fingerprint)
              && args.offset <= diff.total
              && (args.offset < diff.total ==> Size(diff.objects[args.offset]) <= 262144)
  {
    hide Size;
  }

  // ---- Pages that follow one another through one list ----

  function Listed(pages: seq<Page>): seq<D.DiffObject>
  {
    if pages == [] then [] else Listed(pages[..|pages| - 1]) + pages[|pages| - 1].diff.objects
  }

  /** The page shows the slice of `all` that starts at its offset, and says where to continue. */
  predicate PageFits(all: seq<D.DiffObject>, page: Page)
  {
    var end := page.offset + |page.diff.objects|;
    && end <= |all| && page.diff.objects == all[page.offset..end]
    && page.nextOffset == (if end < |all| then Some(end) else None)
    && (page.nextOffset.Some? ==> page.diff.objects != [])
  }

  /** The offset the client sends for page `i`. */
  function OffsetAt(pages: seq<Page>, i: nat): nat
    requires i <= |pages|
  {
    if i == 0 || pages[i - 1].nextOffset.None? then 0 else pages[i - 1].nextOffset.value
  }

  ghost predicate PagesOf(all: seq<D.DiffObject>, pages: seq<Page>)
  {
    && pages != []
    && (forall i | 0 <= i < |pages| :: PageFits(all, pages[i]) && pages[i].offset == OffsetAt(pages, i))
    && (forall i | 0 <= i < |pages| - 1 :: pages[i].nextOffset.Some?)
  }

  lemma {:induction false} ListedSoFar(all: seq<D.DiffObject>, pages: seq<Page>, n: nat)
    requires PagesOf(all, pages) && 1 <= n <= |pages|
    ensures var end := pages[n - 1].offset + |pages[n - 1].diff.objects|;
            end <= |all| && Listed(pages[..n]) == all[..end] && (n < |pages| ==> end >= n)
    decreases n
  {
    assert pages[..n][..n - 1] == pages[..n - 1] && pages[..n][n - 1] == pages[n - 1];
    assert PageFits(all, pages[n - 1]);
    if n == 1 {
      assert Listed(pages[..0]) == [];
    } else {
      ListedSoFar(all, pages, n - 1);
      assert PageFits(all, pages[n - 2]);
    }
  }

  lemma PagesAreLossless(all: seq<D.DiffObject>, pages: seq<Page>)
    requires PagesOf(all, pages) && pages[|pages| - 1].nextOffset.None?
    ensures Listed(pages) == all
  {
    hide Listed;
    ListedSoFar(all, pages, |pages|);
    assert PageFits(all, pages[|pages| - 1]);
    assert pages[..|pages|] == pages && all[..|all|] == all;
  }

  // ---- Whole chains of pages ----

  /** One request of a client that pages: the limit it asked for, and the catalogs the server saw then. */
  datatype Call = Call(limit: Option<nat>, baseline: Snapshot, target: Snapshot)

  /** The first request starts at 0; each further one continues where the previous page said. */
  function ArgumentsAt(calls: seq<Call>, pages: seq<Page>, i: nat): PageArguments
    requires i < |calls| && i <= |pages|
  {
    if i == 0 || pages[i - 1].nextOffset.None? then PageArguments(calls[i].limit, 0, None, None)
    else
      var previous := pages[i - 1];
      PageArguments(calls[i].limit, previous.nextOffset.value, Some(previous.diff.baseline.fingerprint),
                    Some(previous.diff.target.fingerprint))
  }

  predicate AnsweredAt(calls: seq<Call>, pages: seq<Page>, i: nat, lower: TypeSpelling.Lower)
    requires i < |calls| && i < |pages|
  {
    Answer(ArgumentsAt(calls, pages, i), D.Compare(calls[i].baseline, calls[i].target, lower)) == Ok(pages[i])
  }

  /** Every request was answered, and only the last page may end the listing. */
  ghost predicate Chain(calls: seq<Call>, pages: seq<Page>, lower: TypeSpelling.Lower)
  {
    && |calls| == |pages| && calls != []
    && (forall i | 0 <= i < |calls| :: AnsweredAt(calls, pages, i, lower))
    && (forall i | 0 <= i < |pages| - 1 :: pages[i].nextOffset.Some?)
  }

  function TextOf(s: Snapshot): seq<byte> { Encode(FingerprintText(s.engine, s.contents)) }

  /** The hash does not collide on the two texts at hand. */
  predicate NoCollision(h: Hash, s: Snapshot, t: Snapshot)
  {
    h(TextOf(s)) == h(TextOf(t)) ==> TextOf(s) == TextOf(t)
  }

  lemma SameFingerprintSameText(h: Hash, s: Snapshot, t: Snapshot)
    requires Genuine(h, s) && Genuine(h, t) && NoCollision(h, s, t) && s.fingerprint == t.fingerprint
    ensures FingerprintText(s.engine, s.contents) == FingerprintText(t.engine, t.contents) && s.engine == t.engine
  {
    hide FingerprintText, Canonical;
    HexInjective(h(TextOf(s)), h(TextOf(t)));
    EncodeInjective(FingerprintText(s.engine, s.contents), FingerprintText(t.engine, t.contents));
    PayloadsFromText(s.engine, s.contents, t.engine, t.contents);
  }

  /** Catalogs with the fingerprints of the first page give the differences of the first page. */
  lemma SameFingerprintsSameDiff(h: Hash, first: Call, later: Call, lower: TypeSpelling.Lower)
    requires Genuine(h, first.baseline) && Genuine(h, first.target)
    requires Genuine(h, later.baseline) && Genuine(h, later.target)
    requires NoCollision(h, later.baseline, first.baseline) && NoCollision(h, later.target, first.target)
    requires later.baseline.fingerprint == first.baseline.fingerprint
    requires later.target.fingerprint == first.target.fingerprint
    requires D.Compare(first.baseline, first.target, lower).Ok? && D.Compare(later.baseline, later.target, lower).Ok?
    ensures D.Compare(first.baseline, first.target, lower).value.objects
         == D.Compare(later.baseline, later.target, lower).value.objects
  {
    hide D.Compare, D.Differences, D.Projected, Genuine, NoCollision, FingerprintText;
    SameFingerprintSameText(h, later.baseline, first.baseline);
    SameFingerprintSameText(h, later.target, first.target);
    CompareTotal(first.baseline, first.target, lower);
    CompareTotal(later.baseline, later.target, lower);
    SchemaDiffLaws.SameTextSameDiff(first.baseline.engine, first.baseline.contents, later.baseline.contents,
                                    first.target.contents, later.target.contents, lower);
  }

  ghost predicate GenuineCalls(h: Hash, calls: seq<Call>)
  {
    && calls != []
    && forall i | 0 <= i < |calls| ::
         && Genuine(h, calls[i].baseline) && Genuine(h, calls[i].target)
         && NoCollision(h, calls[i].baseline, calls[0].baseline) && NoCollision(h, calls[i].target, calls[0].target)
  }

  function FirstDiff(calls: seq<Call>, lower: TypeSpelling.Lower): seq<D.DiffObject>
    requires calls != []
  {
    D.Differences(D.Projected(calls[0].baseline.contents.relations, lower),
                  D.Projected(calls[0].target.contents.relations, lower))
  }

  /** A page answered later in the chain shows its slice of the first diff. */
  lemma {:induction false} ChainFits(h: Hash, calls: seq<Call>, pages: seq<Page>, i: nat, lower: TypeSpelling.Lower)
    requires Chain(calls, pages, lower) && GenuineCalls(h, calls) && i < |pages|
    ensures PageFits(FirstDiff(calls, lower), pages[i]) && pages[i].offset == OffsetAt(pages, i)
    ensures pages[i].diff.baseline.fingerprint == calls[0].baseline.fingerprint
    ensures pages[i].diff.target.fingerprint == calls[0].target.fingerprint
    decreases i
  {
    hide FirstDiff, PageFits, PageOf, Genuine, NoCollision, D.Compare;
    var args := ArgumentsAt(calls, pages, i);
    assert AnsweredAt(calls, pages, i, lower);
    assert Answer(args, D.Compare(calls[i].baseline, calls[i].target, lower)) == Ok(pages[i]);
    assert AnsweredAt(calls, pages, 0, lower);
    var diff := D.Compare(calls[i].baseline, calls[i].target, lower).value;
    if i > 0 {
      ChainFits(h, calls, pages, i - 1, lower);
    }
    LoadedDiff(h, calls[0], calls[i], args, pages[i], lower, i);
    FirstObjects(calls, lower);
    AnsweredPageFits(diff, args, pages[i]);
  }

  /** A page that passed the fingerprint check was cut from the first diff. */
  lemma LoadedDiff(h: Hash, first: Call, later: Call, args: PageArguments, page: Page, lower: TypeSpelling.Lower, i: nat)
    requires D.Compare(first.baseline, first.target, lower).Ok?
    requires Answer(args, D.Compare(later.baseline, later.target, lower)) == Ok(page)
    requires Genuine(h, first.baseline) && Genuine(h, first.target)
    requires Genuine(h, later.baseline) && Genuine(h, later.target)
    requires NoCollision(h, later.baseline, first.baseline) && NoCollision(h, later.target, first.target)
    requires if i == 0 then later == first
             else args.baselineFingerprint == Some(first.baseline.fingerprint)
                  && args.targetFingerprint == Some(first.target.fingerprint)
    ensures var diff := D.Compare(later.baseline, later.target, lower);
            && diff.Ok? && diff.value.total == |diff.value.objects|
            && diff.value.objects == D.Compare(first.baseline, first.target, lower).value.objects
            && diff.value.baseline.fingerprint == first.baseline.fingerprint
            && diff.value.target.fingerprint == first.target.fingerprint
  {
    hide D.Compare, D.Differences, D.Projected, Genuine, NoCollision;
    CompareTotal(first.baseline, first.target, lower);
    CompareTotal(later.baseline, later.target, lower);
    if i > 0 {
      SameFingerprintsSameDiff(h, first, later, lower);
    }
  }

  lemma AnsweredPageFits(diff: D.SchemaDiff, args: PageArguments, page: Page)
    requires Answer(args, Ok(diff)) == Ok(page) && diff.total == |diff.objects|
    ensures PageFits(diff.objects, page) && page.offset == args.offset
    ensures page.diff.baseline == diff.baseline && page.diff.target == diff.target
  {
    hide Fitting, Size, TotalSize;
    PageKeepsBudgets(args, diff);
  }

  lemma FirstObjects(calls: seq<Call>, lower: TypeSpelling.Lower)
    requires calls != [] && D.Compare(calls[0].baseline, calls[0].target, lower).Ok?
    ensures D.Compare(calls[0].baseline, calls[0].target, lower).value.objects == FirstDiff(calls, lower)
  {
    hide D.Differences, D.Projected, D.CountOf;
  }

  lemma ChainPages(h: Hash, calls: seq<Call>, pages: seq<Page>, lower: TypeSpelling.Lower)
    requires Chain(calls, pages, lower) && GenuineCalls(h, calls)
    ensures PagesOf(FirstDiff(calls, lower), pages)
  {
    hide FirstDiff, PageFits, AnsweredAt, GenuineCalls;
    forall i | 0 <= i < |pages|
      ensures PageFits(FirstDiff(calls, lower), pages[i]) && pages[i].offset == OffsetAt(pages, i)
    {
      ChainFits(h, calls, pages, i, lower);
    }
  }

  /**
   * Following `nextOffset` from 0 to the end lists the first page's diff exactly: nothing is lost, repeated
   * or taken from a changed catalog, whatever limits were asked for and however often the catalogs were reloaded.
   */
  lemma ChainIsLossless(h: Hash, calls: seq<Call>, pages: seq<Page>, lower: TypeSpelling.Lower)
    requires Chain(calls, pages, lower) && GenuineCalls(h, calls) && pages[|pages| - 1].nextOffset.None?
    ensures Listed(pages) == FirstDiff(calls, lower)
  {
    assert calls != [];
    hide FirstDiff, GenuineCalls, Chain;
    ChainPages(h, calls, pages, lower);
    PagesAreLossless(FirstDiff(calls, lower), pages);
  }

  /** Every page but the last lists something, so a chain has at most one page more than there are differences. */
  lemma ChainEnds(h: Hash, calls: seq<Call>, pages: seq<Page>, lower: TypeSpelling.Lower)
    requires Chain(calls, pages, lower) && GenuineCalls(h, calls)
    ensures |pages| <= |FirstDiff(calls, lower)| + 1
  {
    assert calls != [];
    hide FirstDiff, GenuineCalls, Chain;
    ChainPages(h, calls, pages, lower);
    if |pages| > 1 {
      ListedSoFar(FirstDiff(calls, lower), pages, |pages| - 1);
    }
  }
}
