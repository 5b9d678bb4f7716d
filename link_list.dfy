/** The link-list filter: every line of the links file is trimmed, and kept
    when it is not PHP-empty, does not start with '#' and passes the URL
    validator. The validator (`filter_var` with `FILTER_VALIDATE_URL`) is a
    foreign library call and is a parameter here. */
module LinkList {
  import opened PhpString

  /** The three guards of the filter, applied to an already trimmed line. */
  predicate Keep(validUrl: string -> bool, u: string) {
    !PhpEmpty(u) && !StartsWithHash(u) && validUrl(u)
  }

  /** A raw line survives the filter: its trimmed text passes the guards. */
  predicate KeepLine(validUrl: string -> bool, line: string) {
    Keep(validUrl, Trim(line))
  }

  /** The candidate list built from `lines`, in file order. */
  function ValidUrls(validUrl: string -> bool, lines: seq<string>): (r: seq<string>)
    ensures |r| <= |lines|
    ensures forall u :: u in r ==> Keep(validUrl, u) && NoSurroundingSpace(u)
  {
    if lines == [] then []
    else
      var earlier := ValidUrls(validUrl, lines[..|lines| - 1]);
      var t := Trim(lines[|lines| - 1]);
      if Keep(validUrl, t) then earlier + [t] else earlier
  }

  /** The positions of the lines that satisfy `keep`, in increasing order; a
      position is listed exactly when its line satisfies `keep`. */
  ghost function KeptIndices(keep: string -> bool, lines: seq<string>): (idx: seq<nat>)
    ensures forall j :: 0 <= j < |idx| ==> idx[j] < |lines| && keep(lines[idx[j]])
    ensures forall j, j' :: 0 <= j < j' < |idx| ==> idx[j] < idx[j']
    ensures forall k :: 0 <= k < |lines| && keep(lines[k]) ==> k in idx
  {
    if lines == [] then []
    else
      var n := |lines| - 1;
      var earlier := KeptIndices(keep, lines[..n]);
      assert forall k :: 0 <= k < n ==> lines[..n][k] == lines[k];
      if keep(lines[n]) then earlier + [n] else earlier
  }

  /** The filter's test on a raw line, as a predicate value. */
  ghost function LineTest(validUrl: string -> bool): (keep: string -> bool) {
    line => KeepLine(validUrl, line)
  }

  /** The candidate list is exactly the trimmed lines at the kept positions:
      nothing is invented, reordered or dropped beyond the three guards. */
  lemma {:induction false} ValidUrlsAreKeptLines(validUrl: string -> bool, lines: seq<string>)
    ensures |ValidUrls(validUrl, lines)| == |KeptIndices(LineTest(validUrl), lines)|
    ensures forall j :: 0 <= j < |ValidUrls(validUrl, lines)| ==>
      ValidUrls(validUrl, lines)[j] == Trim(lines[KeptIndices(LineTest(validUrl), lines)[j]])
  {
    if lines != [] {
      var n := |lines| - 1;
      var pre := lines[..n];
      ValidUrlsAreKeptLines(validUrl, pre);
      var r, idx := ValidUrls(validUrl, pre), KeptIndices(LineTest(validUrl), pre);
      forall j | 0 <= j < |r|
        ensures r[j] == Trim(lines[idx[j]])
      {
        assert pre[idx[j]] == lines[idx[j]];
      }
      assert LineTest(validUrl)(lines[n]) == Keep(validUrl, Trim(lines[n]));
    }
  }

  /** Every candidate is the trimmed text of some line of the file. */
  lemma CandidateComesFromLine(validUrl: string -> bool, lines: seq<string>, u: string)
    requires u in ValidUrls(validUrl, lines)
    ensures exists k :: 0 <= k < |lines| && u == Trim(lines[k])
  {
    ValidUrlsAreKeptLines(validUrl, lines);
    var j :| 0 <= j < |ValidUrls(validUrl, lines)| && ValidUrls(validUrl, lines)[j] == u;
    var k := KeptIndices(LineTest(validUrl), lines)[j];
    assert u == Trim(lines[k]);
  }

  /** The list is empty exactly when no line of the file passes the guards. */
  lemma {:induction false} NoCandidatesIff(validUrl: string -> bool, lines: seq<string>)
    ensures ValidUrls(validUrl, lines) == [] <==>
      forall k :: 0 <= k < |lines| ==> !KeepLine(validUrl, lines[k])
  {
    ValidUrlsAreKeptLines(validUrl, lines);
    var idx := KeptIndices(LineTest(validUrl), lines);
    if idx != [] {
      assert KeepLine(validUrl, lines[idx[0]]);
    }
  }

  /** A file with exactly one passing line (any number of blank, comment or
      invalid lines around it) yields exactly that line, trimmed. */
  lemma SingleCandidate(validUrl: string -> bool, lines: seq<string>, k: nat)
    requires k < |lines| && KeepLine(validUrl, lines[k])
    requires forall k' :: 0 <= k' < |lines| && k' != k ==> !KeepLine(validUrl, lines[k'])
    ensures ValidUrls(validUrl, lines) == [Trim(lines[k])]
  {
    var before, after := lines[..k], lines[k + 1..];
    SplitAround(lines, k);
    forall i | 0 <= i < |before| ensures !KeepLine(validUrl, before[i]) {
      assert before[i] == lines[i];
    }
    forall i | 0 <= i < |after| ensures !KeepLine(validUrl, after[i]) {
      assert after[i] == lines[k + 1 + i];
    }
    NoCandidatesIff(validUrl, before);
    NoCandidatesIff(validUrl, after);
    ValidUrlsAppend(validUrl, before + [lines[k]], after);
    ValidUrlsAppend(validUrl, before, [lines[k]]);
    assert [lines[k]][..0] == [];
  }

  /** Splits a sequence around position `k`; used by `SingleCandidate`. */
  lemma SplitAround<T>(xs: seq<T>, k: nat)
    requires k < |xs|
    ensures xs == xs[..k] + [xs[k]] + xs[k + 1..]
    ensures forall i :: 0 <= i < k ==> xs[..k][i] == xs[i]
    ensures forall i :: k < i < |xs| ==> xs[k + 1..][i - k - 1] == xs[i]
  {
  }

  /** The filter treats each line on its own, wherever it stands in the file. */
  lemma {:induction false} ValidUrlsAppend(validUrl: string -> bool, a: seq<string>, b: seq<string>)
    ensures ValidUrls(validUrl, a + b) == ValidUrls(validUrl, a) + ValidUrls(validUrl, b)
  {
    if b != [] {
      var n := |b| - 1;
      assert (a + b)[..|a + b| - 1] == a + b[..n];
      ValidUrlsAppend(validUrl, a, b[..n]);
    } else {
      assert a + b == a;
    }
  }

  /** Filtering the candidate list again keeps every entry unchanged. */
  lemma {:induction false} ValidUrlsIdempotent(validUrl: string -> bool, lines: seq<string>)
    ensures ValidUrls(validUrl, ValidUrls(validUrl, lines)) == ValidUrls(validUrl, lines)
  {
    if lines != [] {
      var n := |lines| - 1;
      var earlier := ValidUrls(validUrl, lines[..n]);
      var t := Trim(lines[n]);
      ValidUrlsIdempotent(validUrl, lines[..n]);
      if Keep(validUrl, t) {
        TrimIdempotent(lines[n]);
        ValidUrlsAppend(validUrl, earlier, [t]);
        assert [t][..0] == [];
      }
    }
  }

  /** The `foreach` loop of the script: trim each line and append it to the
      list when all three guards pass. */
  method CollectValidUrls(validUrl: string -> bool, lines: seq<string>) returns (validUrls: seq<string>)
    ensures validUrls == ValidUrls(validUrl, lines)
  {
    validUrls := [];
    for i := 0 to |lines|
      invariant validUrls == ValidUrls(validUrl, lines[..i])
    {
      var url := Trim(lines[i]);
      if !PhpEmpty(url) && !StartsWithHash(url) && validUrl(url) {
        validUrls := validUrls + [url];
      }
      assert lines[..i + 1][..i] == lines[..i];
    }
    assert lines[..|lines|] == lines;
  }
}
