/** The PHP string primitives the link filter relies on: `trim` with its
    default character list, the `empty` test on a string, and the
    `strpos($s, '#') === 0` test for a comment line. */
module PhpString {

  /** The characters PHP's `trim` strips by default: space, tab, line feed,
      carriage return, NUL and vertical tab. */
  predicate IsTrimChar(c: char) {
    c == ' ' || c == '\t' || c == '\n' || c == '\r' || c == '\0' || c == '\U{B}'
  }

  /** Neither the first nor the last character is one `trim` would strip. */
  predicate NoSurroundingSpace(t: string) {
    t == [] || (!IsTrimChar(t[0]) && !IsTrimChar(t[|t| - 1]))
  }

  /** `t` is the slice of `s` starting at `i`, and every character of `s`
      outside that slice is strippable. */
  ghost predicate TrimmedAt(s: string, t: string, i: nat) {
    && i + |t| <= |s|
    && t == s[i..i + |t|]
    && (forall k :: 0 <= k < i ==> IsTrimChar(s[k]))
    && (forall k :: i + |t| <= k < |s| ==> IsTrimChar(s[k]))
  }

  /** Position of the first character at or after `i` that `trim` keeps
      (`|s|` when there is none). */
  function FirstKept(s: string, i: nat): (a: nat)
    requires i <= |s|
    ensures i <= a <= |s|
    ensures forall k :: i <= k < a ==> IsTrimChar(s[k])
    ensures a == |s| || !IsTrimChar(s[a])
    decreases |s| - i
  {
    if i < |s| && IsTrimChar(s[i]) then FirstKept(s, i + 1) else i
  }

  /** End of the kept part: scanning back from `j` towards `lo`, the position
      just after the last character `trim` keeps (`lo` when there is none). */
  function LastKept(s: string, lo: nat, j: nat): (b: nat)
    requires lo <= j <= |s|
    ensures lo <= b <= j
    ensures forall k :: b <= k < j ==> IsTrimChar(s[k])
    ensures b == lo || !IsTrimChar(s[b - 1])
    decreases j
  {
    if lo < j && IsTrimChar(s[j - 1]) then LastKept(s, lo, j - 1) else j
  }

  /** PHP `trim($s)`: the infix of `s` that neither begins nor ends with a
      strippable character, everything around it being strippable. */
  function Trim(s: string): (r: string)
    ensures NoSurroundingSpace(r)
    ensures exists i :: TrimmedAt(s, r, i)
  {
    var a := FirstKept(s, 0);
    var b := LastKept(s, a, |s|);
    assert TrimmedAt(s, s[a..b], a);
    s[a..b]
  }

  /** The characterisation in Trim's contract has exactly one solution. */
  lemma TrimUnique(s: string, t: string, i: nat)
    requires NoSurroundingSpace(t) && TrimmedAt(s, t, i)
    ensures t == Trim(s)
  {
    var r := Trim(s);
    var j: nat :| TrimmedAt(s, r, j);
    if t != [] {
      assert s[i] == t[0] && s[i + |t| - 1] == t[|t| - 1];
    }
    if r != [] {
      assert s[j] == r[0] && s[j + |r| - 1] == r[|r| - 1];
    }
  }

  /** Trimming an already trimmed string changes nothing. */
  lemma TrimIdempotent(s: string)
    ensures Trim(Trim(s)) == Trim(s)
  {
    var t := Trim(s);
    assert t[0..|t|] == t;
    TrimUnique(t, t, 0);
  }

  /** PHP `empty($s)` for a string: true for "" and for "0". */
  predicate PhpEmpty(s: string) {
    s == "" || s == "0"
  }

  /** PHP `strpos($s, '#') === 0`: the first character is '#'. */
  predicate StartsWithHash(s: string) {
    |s| > 0 && s[0] == '#'
  }
}
