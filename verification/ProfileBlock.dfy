/** The managed PATH block in a shell profile (cli_install.rs). */
module ProfileBlock {
  import opened Search
  import opened Utf8
  import opened Wrappers

  const MANAGED_PATH_BEGIN: string := "# >>> DopeDB CLI >>>"
  const MANAGED_PATH_END: string := "# <<< DopeDB CLI <<<"
  const MAX_PROFILE_BYTES: nat := 1024 * 1024

  // The lines between the markers, in short parts.

  const FISH_PARTS: seq<string> := ["fish_add_path ", "--prepend --global ", "$HOME/.local/bin"]

  const POSIX_PARTS: seq<string> := [
    "case \":$PATH:\" in\n", "  *\":$HOME", "/.local/bin:\"*) ;;\n", "  *) export PATH=\"", "$HOME/.local/bin:",
    "$PATH\" ;;\n", "esac"
  ]

  function Glue(parts: seq<string>): string
  {
    if parts == [] then [] else parts[0] + Glue(parts[1..])
  }

  function Body(fish: bool): string
  {
    Glue(if fish then FISH_PARTS else POSIX_PARTS)
  }

  /** `unix_path_block`. */
  function Block(fish: bool): string
  {
    MANAGED_PATH_BEGIN + "\n" + Body(fish) + "\n" + MANAGED_PATH_END
  }

  /** `str::matches(..).count()`: occurrences from left to right that do not overlap. */
  function Matches(s: string, i: nat, p: string): nat
    requires p != [] && i <= |s|
    decreases |s| - i
  {
    if i + |p| > |s| then 0
    else if OccursAt(s, p, i) then 1 + Matches(s, i + |p|, p)
    else Matches(s, i + 1, p)
  }

  datatype State = Missing | Current | Modified

  /** `managed_path_block_state`. */
  function BlockState(contents: string, fish: bool): State
  {
    var begins, ends := Matches(contents, 0, MANAGED_PATH_BEGIN), Matches(contents, 0, MANAGED_PATH_END);
    if begins == 0 && ends == 0 then Missing
    else if begins == 1 && ends == 1 && Matches(contents, 0, Block(fish)) == 1 then Current
    else Modified
  }

  /** What the profile path holds. */
  datatype Profile = NoFile | SymbolicLink | Regular(text: string) | Undecodable(size: nat)

  datatype Refusal = Link | TooLarge | NotUtf8 | BlockModified

  /** What is put between the old contents and the block. */
  function Separator(existing: string): string
  {
    if existing != [] && existing[|existing| - 1] != '\n' then "\n\n" else "\n"
  }

  function Appended(existing: string, fish: bool): string
  {
    existing + Separator(existing) + Block(fish) + "\n"
  }

  /** The contents the program works on, or why it refuses. */
  function Existing(p: Profile): Result<string, Refusal>
  {
    match p
    case NoFile => Ok("")
    case SymbolicLink => Err(Link)
    case Regular(text) => if |Encode(text)| <= MAX_PROFILE_BYTES then Ok(text) else Err(TooLarge)
    case Undecodable(size) => if size <= MAX_PROFILE_BYTES then Err(NotUtf8) else Err(TooLarge)
  }

  /** `configure_user_path`: whether the profile was changed, and what it is afterwards. */
  function Configured(p: Profile, fish: bool): (Result<bool, Refusal>, Profile)
  {
    var existing := Existing(p);
    if existing.Err? then (Err(existing.error), p)
    else match BlockState(existing.value, fish)
      case Current => (Ok(false), p)
      case Modified => (Err(BlockModified), p)
      case Missing => (Ok(true), Regular(Appended(existing.value, fish)))
  }

  class ShellProfile {
    var profile: Profile

    constructor (profile: Profile)
      ensures this.profile == profile
    {
      this.profile := profile;
    }

    /** Opening for appending creates the file; every write goes to its end. */
    method Append(text: string)
      requires profile.NoFile? || profile.Regular?
      modifies this
      ensures profile == Regular((if old(profile).Regular? then old(profile).text else "") + text)
    {
      profile := Regular((if profile.Regular? then profile.text else "") + text);
    }

    method Configure(fish: bool) returns (r: Result<bool, Refusal>)
      modifies this
      ensures (r, profile) == Configured(old(profile), fish)
    {
      hide BlockState, Block, Encode;
      var existing := Existing(profile);
      if existing.Err? {
        return Err(existing.error);
      }
      match BlockState(existing.value, fish) {
        case Current =>
          return Ok(false);
        case Modified =>
          return Err(BlockModified);
        case Missing =>
          if existing.value != [] && existing.value[|existing.value| - 1] != '\n' {
            Append("\n");
          }
          Append("\n");
          Append(Block(fish));
          Append("\n");
          assert [] + "\n" == "\n" && existing.value + "\n" + "\n" == existing.value + "\n\n";
          return Ok(true);
      }
    }
  }

  /** `managed_path_is_present`. */
  predicate Present(p: Profile, fish: bool)
  {
    p.Regular? && |Encode(p.text)| <= MAX_PROFILE_BYTES && BlockState(p.text, fish) == Current
  }

  // ---- Counting matches ----

  lemma {:induction false} NoMatch(s: string, i: nat, p: string)
    requires p != [] && i <= |s|
    ensures Matches(s, i, p) == 0 <==> forall k | i <= k :: !OccursAt(s, p, k)
    decreases |s| - i
  {
    hide OccursAt;
    if i + |p| > |s| {
      TooLateToOccur(s, i, p);
    } else if !OccursAt(s, p, i) {
      NoMatch(s, i + 1, p);
    }
  }

  lemma TooLateToOccur(s: string, i: nat, p: string)
    requires i + |p| > |s|
    ensures forall k | i <= k :: !OccursAt(s, p, k)
  {
  }

  /** A text that occurs at one place only is matched once. */
  lemma {:induction false} OneMatch(s: string, i: nat, p: string, m: nat)
    requires p != [] && i <= m && OccursAt(s, p, m)
    requires forall k | i <= k :: OccursAt(s, p, k) ==> k == m
    ensures Matches(s, i, p) == 1
    decreases |s| - i
  {
    assert m + |p| <= |s|;
    hide OccursAt;
    if i == m {
      NoMatch(s, m + |p|, p);
    } else {
      OneMatch(s, i + 1, p, m);
    }
  }

  // ---- Where the markers of the appended text stand ----

  predicate Free(s: string, c: char) { forall i | 0 <= i < |s| :: s[i] != c }

  /** A marker is one line, and its only `#` is its first character. */
  predicate Marker(p: string) { p != [] && p[0] == '#' && Free(p[1..], '#') && Free(p, '\n') }

  lemma FreeConcat(a: string, b: string, c: char)
    requires Free(a, c) && Free(b, c)
    ensures Free(a + b, c)
  {
  }

  lemma MarkersAreMarkers()
    ensures Marker(MANAGED_PATH_BEGIN) && Marker(MANAGED_PATH_END)
    ensures |MANAGED_PATH_BEGIN| == |MANAGED_PATH_END| && MANAGED_PATH_BEGIN[2] != MANAGED_PATH_END[2]
  {
  }

  predicate AllFree(parts: seq<string>, c: char) { forall i | 0 <= i < |parts| :: Free(parts[i], c) }

  lemma FishPartsFree()
    ensures AllFree(FISH_PARTS, '#')
  {
  }

  lemma PosixPartsFree()
    ensures AllFree(POSIX_PARTS, '#')
  {
  }

  lemma {:induction false} GlueFree(parts: seq<string>, c: char)
    requires AllFree(parts, c)
    ensures Free(Glue(parts), c)
  {
    if parts != [] {
      GlueFree(parts[1..], c);
      FreeConcat(parts[0], Glue(parts[1..]), c);
    }
  }

  lemma BodyFree(fish: bool)
    ensures Free(Body(fish), '#')
  {
    FishPartsFree();
    PosixPartsFree();
    hide AllFree, Free, Glue;
    GlueFree(FISH_PARTS, '#');
    GlueFree(POSIX_PARTS, '#');
  }

  /** `before`, then two markers with text free of `#` between and after them. */
  function Assembled(before: string, gap: string, first: string, middle: string, last: string, end: string): string
  {
    before + gap + first + middle + last + end
  }

  /** Behind `before`, a `#` stands only where a marker starts. */
  lemma HashPlaces(before: string, gap: string, first: string, middle: string, last: string, end: string, k: nat)
    requires Marker(first) && Marker(last) && Free(gap, '#') && Free(middle, '#') && Free(end, '#')
    requires |before| <= k < |Assembled(before, gap, first, middle, last, end)|
    ensures Assembled(before, gap, first, middle, last, end)[k] == '#' ==>
              k == |before| + |gap| || k == |before| + |gap| + |first| + |middle|
  {
    var s := Assembled(before, gap, first, middle, last, end);
    var b := |before| + |gap|;
    var m := b + |first|;
    var e := m + |middle|;
    if k < b {
      assert s[k] == gap[k - |before|];
    } else if k < m {
      assert s[k] == first[k - b];
      assert k > b ==> first[k - b] == first[1..][k - b - 1];
    } else if k < e {
      assert s[k] == middle[k - m];
    } else if k < e + |last| {
      assert s[k] == last[k - e];
      assert k > e ==> last[k - e] == last[1..][k - e - 1];
    } else {
      assert s[k] == end[k - e - |last|];
    }
  }

  /** No marker starts in `before` and ends behind it: the newline after `before` is in the way. */
  lemma NoStraddle(before: string, rest: string, p: string, k: nat)
    requires Marker(p) && rest != [] && rest[0] == '\n' && k < |before|
    ensures OccursAt(before + rest, p, k) ==> OccursAt(before, p, k)
  {
    var s := before + rest;
    if k + |p| > |before| {
      assert s[k + (|before| - k)] == rest[0] && p[|before| - k] != '\n';
    }
    assert s[..|before|] == before;
  }

  /** Where a marker can occur in the assembled text, when it does not occur in `before`. */
  lemma MarkerPlaces(before: string, gap: string, first: string, middle: string, last: string, end: string,
                     p: string, k: nat)
    requires Marker(first) && Marker(last) && Marker(p) && Free(gap, '#') && Free(middle, '#') && Free(end, '#')
    requires gap != [] && gap[0] == '\n' && !OccursAt(before, p, k)
    ensures OccursAt(Assembled(before, gap, first, middle, last, end), p, k) ==>
              k == |before| + |gap| || k == |before| + |gap| + |first| + |middle|
  {
    var s := Assembled(before, gap, first, middle, last, end);
    if k < |before| {
      var rest := gap + first + middle + last + end;
      assert s == before + rest && rest[0] == '\n';
      NoStraddle(before, rest, p, k);
    } else if k < |s| {
      assert OccursAt(s, p, k) ==> s[k + 0] == p[0];
      HashPlaces(before, gap, first, middle, last, end, k);
    }
  }

  lemma OccursBetween(front: string, p: string, back: string)
    ensures OccursAt(front + p + back, p, |front|)
  {
    assert forall j | 0 <= j < |p| :: (front + p + back)[|front| + j] == p[j];
  }

  lemma Assoc(a: string, b: string, c: string)
    ensures a + b + c == a + (b + c)
  {
  }

  lemma PartsOccur(before: string, gap: string, first: string, middle: string, last: string, end: string)
    ensures var s := Assembled(before, gap, first, middle, last, end);
            && OccursAt(s, first, |before| + |gap|)
            && OccursAt(s, last, |before| + |gap| + |first| + |middle|)
            && OccursAt(s, first + middle + last, |before| + |gap|)
  {
    var front := before + gap;
    assert OccursAt(front + first + middle + last + end, first, |front|) by {
      Assoc(front + first, middle, last);
      Assoc(front + first, middle + last, end);
      OccursBetween(front, first, middle + last + end);
    }
    OccursBetween(front + first + middle, last, end);
    assert OccursAt(front + first + middle + last + end, first + middle + last, |front|) by {
      Assoc(front, first, middle);
      Assoc(front, first + middle, last);
      OccursBetween(front, first + middle + last, end);
    }
  }

  lemma OtherMarker(s: string, p: string, q: string, k: nat)
    requires |p| == |q| && |p| > 2 && p[2] != q[2] && OccursAt(s, p, k)
    ensures !OccursAt(s, q, k)
  {
    assert s[k + 2] == p[2];
  }

  lemma PrefixOccurs(s: string, p: string, q: string, k: nat)
    requires OccursAt(s, p + q, k)
    ensures OccursAt(s, p, k)
  {
    assert forall j | 0 <= j < |p| :: s[k + j] == (p + q)[j] == p[j];
  }

  /** Text, markers and rest of an appended profile, the text holding neither marker. */
  ghost predicate Appendable(before: string, gap: string, first: string, middle: string, last: string, end: string)
  {
    && Marker(first) && Marker(last) && Free(gap, '#') && Free(middle, '#') && Free(end, '#')
    && gap != [] && gap[0] == '\n' && |first| == |last| && |first| > 2 && first[2] != last[2]
    && Matches(before, 0, first) == 0 && Matches(before, 0, last) == 0
  }

  lemma FirstPlace(before: string, gap: string, first: string, middle: string, last: string, end: string, k: nat)
    requires Appendable(before, gap, first, middle, last, end)
    ensures OccursAt(Assembled(before, gap, first, middle, last, end), first, k) ==> k == |before| + |gap|
  {
    NoMatch(before, 0, first);
    hide OccursAt, Assembled, Marker, Free, Matches;
    PartsOccur(before, gap, first, middle, last, end);
    MarkerPlaces(before, gap, first, middle, last, end, first, k);
    OtherMarker(Assembled(before, gap, first, middle, last, end), last, first, |before| + |gap| + |first| + |middle|);
  }

  lemma LastPlace(before: string, gap: string, first: string, middle: string, last: string, end: string, k: nat)
    requires Appendable(before, gap, first, middle, last, end)
    ensures OccursAt(Assembled(before, gap, first, middle, last, end), last, k) ==>
              k == |before| + |gap| + |first| + |middle|
  {
    NoMatch(before, 0, last);
    hide OccursAt, Assembled, Marker, Free, Matches;
    PartsOccur(before, gap, first, middle, last, end);
    MarkerPlaces(before, gap, first, middle, last, end, last, k);
    OtherMarker(Assembled(before, gap, first, middle, last, end), first, last, |before| + |gap|);
  }

  lemma BlockPlace(before: string, gap: string, first: string, middle: string, last: string, end: string, k: nat)
    requires Appendable(before, gap, first, middle, last, end)
    ensures OccursAt(Assembled(before, gap, first, middle, last, end), first + middle + last, k) ==>
              k == |before| + |gap|
  {
    hide Assembled, Marker, Free, Matches;
    var s := Assembled(before, gap, first, middle, last, end);
    Assoc(first, middle, last);
    if OccursAt(s, first + middle + last, k) {
      PrefixOccurs(s, first, middle + last, k);
    }
    FirstPlace(before, gap, first, middle, last, end, k);
  }

  /** Both markers and the whole block are matched exactly once, all in the appended part. */
  lemma AssembledMatches(before: string, gap: string, first: string, middle: string, last: string, end: string)
    requires Appendable(before, gap, first, middle, last, end)
    ensures var s := Assembled(before, gap, first, middle, last, end);
            && Matches(s, 0, first) == 1 && Matches(s, 0, last) == 1
            && first + middle + last != [] && Matches(s, 0, first + middle + last) == 1
  {
    hide OccursAt, Assembled, Free, Matches;
    var s := Assembled(before, gap, first, middle, last, end);
    PartsOccur(before, gap, first, middle, last, end);
    forall k: nat | OccursAt(s, first, k) ensures k == |before| + |gap| {
      FirstPlace(before, gap, first, middle, last, end, k);
    }
    OneMatch(s, 0, first, |before| + |gap|);
    forall k: nat | OccursAt(s, last, k) ensures k == |before| + |gap| + |first| + |middle| {
      LastPlace(before, gap, first, middle, last, end, k);
    }
    OneMatch(s, 0, last, |before| + |gap| + |first| + |middle|);
    forall k: nat | OccursAt(s, first + middle + last, k) ensures k == |before| + |gap| {
      BlockPlace(before, gap, first, middle, last, end, k);
    }
    OneMatch(s, 0, first + middle + last, |before| + |gap|);
  }

  // ---- What configuring guarantees ----

  /** Appending to a profile without the block yields a profile with the current block, old contents first. */
  lemma AppendIsCurrent(existing: string, fish: bool)
    requires BlockState(existing, fish) == Missing
    ensures BlockState(Appended(existing, fish), fish) == Current
    ensures existing <= Appended(existing, fish)
  {
    MarkersAreMarkers();
    BodyFree(fish);
    hide Body, Matches;
    var gap, middle := Separator(existing), "\n" + Body(fish) + "\n";
    AssembledMatches(existing, gap, MANAGED_PATH_BEGIN, middle, MANAGED_PATH_END, "\n");
    assert Block(fish) == MANAGED_PATH_BEGIN + middle + MANAGED_PATH_END;
    assert Appended(existing, fish) == Assembled(existing, gap, MANAGED_PATH_BEGIN, middle, MANAGED_PATH_END, "\n");
  }

  /** The first call's effect: nothing but an append is ever done to a profile. */
  lemma ConfigureKeepsContents(p: Profile, fish: bool)
    ensures var (r, after) := Configured(p, fish);
            && (r != Ok(true) ==> after == p)
            && (r == Ok(true) ==> after.Regular? && BlockState(after.text, fish) == Current
                                  && (p.Regular? ==> p.text <= after.text) && (p.Regular? || p.NoFile?))
  {
    hide BlockState, Appended, Encode;
    var existing := Existing(p);
    if existing.Ok? && BlockState(existing.value, fish) == Missing {
      AppendIsCurrent(existing.value, fish);
    }
  }

  /**
   * After a successful call a second one changes nothing. It reports success exactly when the file is still
   * within the size limit, which the append itself may break; then the block is present but refused as too large.
   */
  lemma SecondCall(p: Profile, fish: bool)
    requires Configured(p, fish).0.Ok?
    ensures var after := Configured(p, fish).1;
            && after.Regular?
            && Configured(after, fish).1 == after
            && Configured(after, fish).0 == (if |Encode(after.text)| <= MAX_PROFILE_BYTES then Ok(false) else Err(TooLarge))
            && (Present(after, fish) <==> |Encode(after.text)| <= MAX_PROFILE_BYTES)
  {
    EmptyIsMissing(fish);
    ConfigureKeepsContents(p, fish);
    hide BlockState, Appended, Encode;
  }

  lemma EmptyIsMissing(fish: bool)
    ensures BlockState("", fish) == Missing
  {
  }

  /** When the append leaves the limit: the caller can tell from the size beforehand. */
  lemma AppendedSize(existing: string, fish: bool)
    ensures |Encode(Appended(existing, fish))|
         == |Encode(existing)| + |Encode(Separator(existing))| + |Encode(Block(fish))| + 1
  {
    hide Block, Separator;
    EncodeConcat(existing, Separator(existing));
    EncodeConcat(existing + Separator(existing), Block(fish));
    EncodeConcat(existing + Separator(existing) + Block(fish), "\n");
    OneNewline();
  }

  lemma OneNewline()
    ensures |Encode("\n")| == 1
  {
    assert "\n"[1..] == [];
  }

  /** Calling twice is calling once, exactly when the appended text leaves the file within the limit. */
  lemma TwiceIsOnce(existing: string, fish: bool)
    requires |Encode(existing)| <= MAX_PROFILE_BYTES && BlockState(existing, fish) == Missing
    ensures var after := Configured(Regular(existing), fish).1;
            Configured(after, fish) == (Ok(false), after)
            <==> |Encode(existing)| + |Encode(Separator(existing))| + |Encode(Block(fish))| + 1 <= MAX_PROFILE_BYTES
  {
    hide BlockState, Appended, Encode, Separator, Block;
    SecondCall(Regular(existing), fish);
    AppendedSize(existing, fish);
  }

  /** A full profile shows the limit at work: the block is added once, and then never recognised again. */
  lemma FullProfileIsRefusedAfterwards(fish: bool) returns (p: Profile)
    ensures Configured(p, fish).0 == Ok(true)
    ensures Configured(Configured(p, fish).1, fish).0 == Err(TooLarge)
  {
    var text := Repeated(MAX_PROFILE_BYTES);
    p := Regular(text);
    RepeatedIsPlain(MAX_PROFILE_BYTES, fish);
    hide BlockState, Encode, Repeated, Separator, Block, Appended;
    SecondCall(p, fish);
    AppendedSize(text, fish);
  }

  function Repeated(n: nat): (s: string)
    ensures |s| == n && forall i | 0 <= i < n :: s[i] == '\n'
  {
    seq(n, _ => '\n')
  }

  lemma RepeatedIsPlain(n: nat, fish: bool)
    ensures |Encode(Repeated(n))| == n && BlockState(Repeated(n), fish) == Missing
  {
    MarkersAreMarkers();
    NoMatch(Repeated(n), 0, MANAGED_PATH_BEGIN);
    NoMatch(Repeated(n), 0, MANAGED_PATH_END);
    hide Body, Matches;
    NewlinesEncode(Repeated(n));
    forall k: nat ensures !OccursAt(Repeated(n), MANAGED_PATH_BEGIN, k) && !OccursAt(Repeated(n), MANAGED_PATH_END, k) {
      assert k < n ==> Repeated(n)[k + 0] != MANAGED_PATH_BEGIN[0] && Repeated(n)[k + 0] != MANAGED_PATH_END[0];
    }
  }

  lemma {:induction false} NewlinesEncode(s: string)
    requires forall i | 0 <= i < |s| :: s[i] == '\n'
    ensures |Encode(s)| == |s|
  {
    if s != [] { NewlinesEncode(s[1..]); }
  }
}
