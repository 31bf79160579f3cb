/** What configuring a shell profile does, read off the text of the profile. */
module ProfileMeaning {
  import opened ProfileBlock
  import opened Search
  import opened Utf8
  import opened Wrappers

  /** The lines between the markers. */
  lemma BodyLines()
    ensures Body(true) == "fish_add_path " + ("--prepend --global " + "$HOME/.local/bin")
    ensures Body(false) ==
              "case \":$PATH:\" in\n" + ("  *\":$HOME" + ("/.local/bin:\"*) ;;\n"
              + ("  *) export PATH=\"" + ("$HOME/.local/bin:" + ("$PATH\" ;;\n" + "esac")))))
  {
    GlueTwo(FISH_PARTS);
    GlueTwo(POSIX_PARTS);
    GlueTwo(POSIX_PARTS[2..]);
    GlueTwo(POSIX_PARTS[4..]);
    assert FISH_PARTS[2..] == [FISH_PARTS[2]] && POSIX_PARTS[6..] == [POSIX_PARTS[6]];
    GlueOne(FISH_PARTS[2]);
    GlueOne(POSIX_PARTS[6]);
    hide Glue;
    assert POSIX_PARTS[2..][2..] == POSIX_PARTS[4..] && POSIX_PARTS[4..][2..] == POSIX_PARTS[6..];
  }

  lemma GlueOne(part: string)
    ensures Glue([part]) == part
  {
    assert [part][1..] == [] && part + [] == part;
  }

  lemma GlueTwo(parts: seq<string>)
    requires |parts| >= 2
    ensures Glue(parts) == parts[0] + (parts[1] + Glue(parts[2..]))
  {
    assert parts[1..][1..] == parts[2..];
  }

  /** The block is the body between the two markers, each on a line of its own. */
  lemma BlockLines(fish: bool)
    ensures Block(fish) == "# >>> DopeDB CLI >>>" + "\n" + Body(fish) + "\n" + "# <<< DopeDB CLI <<<"
  {
  }

  // ---- Occurrences ----

  ghost predicate Nowhere(s: string, p: string) { forall k: nat :: !OccursAt(s, p, k) }

  ghost predicate OnlyAt(s: string, p: string, k: nat)
  {
    OccursAt(s, p, k) && forall j: nat | OccursAt(s, p, j) :: j == k
  }

  /** A marker, whose only `#` is its first character, does not overlap itself. */
  lemma NoOverlap(s: string, p: string, j: nat, k: nat)
    requires Marker(p) && OccursAt(s, p, j) && j < k < j + |p|
    ensures !OccursAt(s, p, k)
  {
    assert s[j + (k - j)] == p[k - j] == p[1..][k - j - 1];
    assert s[k + 0] != p[0];
  }

  /** Being matched once is occurring at one place. */
  lemma {:induction false} OnceMeans(s: string, i: nat, p: string) returns (k: nat)
    requires Marker(p) && i <= |s| && Matches(s, i, p) == 1
    ensures i <= k && OccursAt(s, p, k) && forall j: nat | i <= j && OccursAt(s, p, j) :: j == k
    decreases |s| - i
  {
    if OccursAt(s, p, i) {
      k := i;
      NoMatch(s, i + |p|, p);
      forall j: nat | i <= j && OccursAt(s, p, j) ensures j == i {
        if i < j < i + |p| { NoOverlap(s, p, i, j); }
      }
    } else {
      k := OnceMeans(s, i + 1, p);
    }
  }

  lemma MatchedOnce(s: string, p: string)
    requires Marker(p)
    ensures Matches(s, 0, p) == 1 <==> exists k :: OnlyAt(s, p, k)
  {
    if Matches(s, 0, p) == 1 {
      var k := OnceMeans(s, 0, p);
      assert OnlyAt(s, p, k);
    }
    if k :| OnlyAt(s, p, k) { OneMatch(s, 0, p, k); }
  }

  /** Whether the block is missing, current or modified: each marker occurs nowhere, or once and the block with it. */
  lemma StateMeans(contents: string, fish: bool)
    ensures BlockState(contents, fish) == Missing <==>
              Nowhere(contents, "# >>> DopeDB CLI >>>") && Nowhere(contents, "# <<< DopeDB CLI <<<")
    ensures BlockState(contents, fish) == Current <==>
              exists b, e ::
                && OnlyAt(contents, "# >>> DopeDB CLI >>>", b) && OnlyAt(contents, "# <<< DopeDB CLI <<<", e)
                && OccursAt(contents, Block(fish), b)
  {
    var first, last := MANAGED_PATH_BEGIN, MANAGED_PATH_END;
    MarkersAreMarkers();
    NoMatch(contents, 0, first);
    NoMatch(contents, 0, last);
    MatchedOnce(contents, first);
    MatchedOnce(contents, last);
    hide Matches, OccursAt, Body, Marker;
    forall b | OnlyAt(contents, first, b)
      ensures Matches(contents, 0, Block(fish)) == 1 <==> OccursAt(contents, Block(fish), b)
    {
      BlockOnce(contents, fish, b);
    }
  }

  lemma BlockOnce(s: string, fish: bool, b: nat)
    requires OnlyAt(s, MANAGED_PATH_BEGIN, b)
    ensures Block(fish) != [] && (Matches(s, 0, Block(fish)) == 1 <==> OccursAt(s, Block(fish), b))
  {
    MarkersAreMarkers();
    hide Body, OnlyAt, Matches, OccursAt;
    var middle := "\n" + Body(fish) + "\n";
    assert Block(fish) == MANAGED_PATH_BEGIN + middle + MANAGED_PATH_END;
    Assoc(MANAGED_PATH_BEGIN, middle, MANAGED_PATH_END);
    LongerOnce(s, MANAGED_PATH_BEGIN, middle + MANAGED_PATH_END, b);
  }

  /** A text that begins with one that occurs once is matched once exactly if it occurs there. */
  lemma LongerOnce(s: string, p: string, rest: string, b: nat)
    requires p != [] && OnlyAt(s, p, b)
    ensures p + rest != [] && (Matches(s, 0, p + rest) == 1 <==> OccursAt(s, p + rest, b))
  {
    hide Matches;
    forall k: nat | OccursAt(s, p + rest, k) ensures k == b { PrefixOccurs(s, p, rest, k); }
    hide OccursAt;
    if OccursAt(s, p + rest, b) {
      OneMatch(s, 0, p + rest, b);
    } else {
      NoMatch(s, 0, p + rest);
    }
  }

  // ---- Configuring ----

  function TextOf(p: Profile): string { if p.Regular? then p.text else "" }

  predicate EndsOpen(text: string) { text != "" && text[|text| - 1] != '\n' }

  /** Every outcome: what is refused, what is left alone, and what is appended. */
  lemma ConfigureMeans(p: Profile, fish: bool)
    ensures var (r, after) := Configured(p, fish);
            match p
            case SymbolicLink => r == Err(Link) && after == p
            case Undecodable(size) => r == Err(if size > 1048576 then TooLarge else NotUtf8) && after == p
            case _ =>
              var text := TextOf(p);
              if p.Regular? && |Encode(text)| > 1048576 then r == Err(TooLarge) && after == p
              else
                match BlockState(text, fish)
                case Current => r == Ok(false) && after == p
                case Modified => r == Err(BlockModified) && after == p
                case Missing =>
                  r == Ok(true)
                  && after == Regular(text + (if EndsOpen(text) then "\n\n" else "\n") + Block(fish) + "\n")
  {
    hide Encode, BlockState, Block;
  }

  lemma PresentMeans(p: Profile, fish: bool)
    ensures Present(p, fish) <==> p.Regular? && |Encode(p.text)| <= 1048576 && BlockState(p.text, fish) == Current
  {
    hide Encode, BlockState;
  }
}
