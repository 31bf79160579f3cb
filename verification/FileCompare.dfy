/** Comparing the installed binary with the bundled one, read by read (cli_install.rs, files_equal). */
module FileCompare {
  import opened Utf8

  const BUFFER_BYTES: nat := 64 * 1024

  /** What a path holds; only a regular file has contents to compare. */
  datatype File = File(regular: bool, contents: seq<byte>)

  /**
   * How many bytes the next `read` returns: at least one unless the file is at its end, at most what the buffer
   * holds. `pace` lists what the system chooses to return; once it runs out, reads fill the buffer.
   */
  function ReadCount(length: nat, pace: seq<nat>): (n: nat)
    ensures n <= length && n <= BUFFER_BYTES && (n == 0 <==> length == 0)
  {
    var wish := if pace == [] || pace[0] == 0 || pace[0] > BUFFER_BYTES then BUFFER_BYTES else pace[0];
    if wish > length then length else wish
  }

  function Tail(pace: seq<nat>): seq<nat> { if pace == [] then [] else pace[1..] }

  /** The counts of all reads of a file of some length. */
  function Counts(length: nat, pace: seq<nat>): seq<nat>
  {
    var n := ReadCount(length, pace);
    if n == 0 then [] else [n] + Counts(length - n, Tail(pace))
  }

  class Reader {
    var rest: seq<byte>
    var pace: seq<nat>

    constructor (contents: seq<byte>, pace: seq<nat>)
      ensures rest == contents && this.pace == pace
    {
      this.rest, this.pace := contents, pace;
    }

    /** `Read::read`: fills a prefix of the buffer and leaves what is behind it alone. */
    method Read(buffer: array<byte>) returns (count: nat)
      requires buffer.Length == BUFFER_BYTES
      modifies this, buffer
      ensures count == ReadCount(|old(rest)|, old(pace))
      ensures buffer[..count] == old(rest)[..count] && buffer[count..] == old(buffer[count..])
      ensures rest == old(rest)[count..] && pace == Tail(old(pace))
    {
      count := ReadCount(|rest|, pace);
      var i := 0;
      while i < count
        invariant i <= count && rest == old(rest) && pace == old(pace)
        invariant buffer[..i] == rest[..i] && buffer[i..] == old(buffer[i..])
      {
        buffer[i] := rest[i];
        assert buffer[..i + 1] == rest[..i + 1];
        i := i + 1;
      }
      rest, pace := rest[count..], Tail(pace);
    }
  }

  /** The comparison loop over what is left of both files. */
  function SameReads(l: seq<byte>, lp: seq<nat>, r: seq<byte>, rp: seq<nat>): bool
    decreases |l|
  {
    var m, n := ReadCount(|l|, lp), ReadCount(|r|, rp);
    if m != n || l[..m] != r[..n] then false
    else if m == 0 then true
    else SameReads(l[m..], Tail(lp), r[n..], Tail(rp))
  }

  function Equal(left: File, lp: seq<nat>, right: File, rp: seq<nat>): bool
  {
    if !left.regular || !right.regular || |left.contents| != |right.contents| then false
    else SameReads(left.contents, lp, right.contents, rp)
  }

  /** `files_equal`. */
  method FilesEqual(left: File, lp: seq<nat>, right: File, rp: seq<nat>) returns (equal: bool)
    ensures equal == Equal(left, lp, right, rp)
  {
    if !left.regular || !right.regular || |left.contents| != |right.contents| {
      return false;
    }
    var l := new Reader(left.contents, lp);
    var r := new Reader(right.contents, rp);
    var leftBuffer := new byte[BUFFER_BYTES];
    var rightBuffer := new byte[BUFFER_BYTES];
    while true
      invariant SameReads(l.rest, l.pace, r.rest, r.pace) == SameReads(left.contents, lp, right.contents, rp)
      decreases |l.rest|
    {
      var leftCount := l.Read(leftBuffer);
      var rightCount := r.Read(rightBuffer);
      if leftCount != rightCount || leftBuffer[..leftCount] != rightBuffer[..rightCount] {
        return false;
      }
      if leftCount == 0 {
        return true;
      }
    }
  }

  // ---- What the answer means ----

  /** The loop compares contents and, on the way, the sizes of the reads. */
  lemma {:induction false} SameReadsMeans(l: seq<byte>, lp: seq<nat>, r: seq<byte>, rp: seq<nat>)
    ensures SameReads(l, lp, r, rp) <==> l == r && Counts(|l|, lp) == Counts(|r|, rp)
    decreases |l|
  {
    hide ReadCount;
    var m, n := ReadCount(|l|, lp), ReadCount(|r|, rp);
    var cl, cr := Counts(|l|, lp), Counts(|r|, rp);
    if m > 0 { assert cl[0] == m && cl[1..] == Counts(|l| - m, Tail(lp)); }
    if n > 0 { assert cr[0] == n && cr[1..] == Counts(|r| - n, Tail(rp)); }
    if m == n && m > 0 {
      SameReadsMeans(l[m..], Tail(lp), r[n..], Tail(rp));
      assert l == l[..m] + l[m..] && r == r[..n] + r[n..];
    }
  }

  /** Files reported equal are equal; equal files are reported so exactly if both are read in the same steps. */
  lemma EqualMeans(left: File, lp: seq<nat>, right: File, rp: seq<nat>)
    ensures Equal(left, lp, right, rp) <==>
              && left.regular && right.regular && left.contents == right.contents
              && Counts(|left.contents|, lp) == Counts(|right.contents|, rp)
  {
    SameReadsMeans(left.contents, lp, right.contents, rp);
  }

  /** With reads that always fill the buffer the answer is exactly the equality of the files. */
  lemma FullReadsCompareContents(left: File, right: File)
    ensures Equal(left, [], right, []) <==> left.regular && right.regular && left.contents == right.contents
  {
    EqualMeans(left, [], right, []);
  }

  /** One short read is enough for a file to be found different from itself. */
  lemma ShortReadHidesEquality()
    ensures var f := File(true, [1, 2]); Equal(f, [], f, []) && !Equal(f, [1], f, [])
  {
    var f := File(true, [1, 2]);
    FullReadsCompareContents(f, f);
    assert ReadCount(2, [1]) == 1 && ReadCount(2, []) == 2;
  }
}
