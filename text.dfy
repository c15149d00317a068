/**
 * The string primitives of Python that the section pipeline relies on:
 * whitespace and digit classes, `str.strip()`, `str.startswith` and
 * `' '.join(...)`.
 */
module Text {

  /** Python's `str.isspace()` on one character; it is also the class `\s`
      of a regular expression over `str`. */
  predicate IsSpace(c: char) {
    var n := c as int;
    n == 0x20 || 0x09 <= n <= 0x0D || 0x1C <= n <= 0x1F || n == 0x85 || n == 0xA0 ||
    n == 0x1680 || 0x2000 <= n <= 0x200A || n == 0x2028 || n == 0x2029 ||
    n == 0x202F || n == 0x205F || n == 0x3000
  }

  /** The class `\d`, restricted to the ASCII digits. */
  predicate IsDigit(c: char) {
    '0' <= c <= '9'
  }

  predicate AllSpace(s: string) {
    forall k :: 0 <= k < |s| ==> IsSpace(s[k])
  }

  /** The end of the run of whitespace that starts at `i` (also the greedy
      `\s+` of a pattern). */
  function SkipSpace(s: string, i: nat): (j: nat)
    requires i <= |s|
    ensures i <= j <= |s|
    decreases |s| - i
  {
    if i < |s| && IsSpace(s[i]) then SkipSpace(s, i + 1) else i
  }

  /** `SkipSpace` stops at the first character from `i` on that is not whitespace. */
  lemma {:induction false} SkipSpaceStopsAtNonSpace(s: string, i: nat)
    requires i <= |s|
    ensures forall k :: i <= k < SkipSpace(s, i) ==> IsSpace(s[k])
    ensures SkipSpace(s, i) < |s| ==> !IsSpace(s[SkipSpace(s, i)])
    decreases |s| - i
  {
    if i < |s| && IsSpace(s[i]) {
      SkipSpaceStopsAtNonSpace(s, i + 1);
    }
  }

  /** `SkipSpace` runs past every whitespace character of a run from `i`. */
  lemma {:induction false} SkipSpacePastSpaces(s: string, i: nat, j: nat)
    requires i <= j <= |s| && forall k :: i <= k < j ==> IsSpace(s[k])
    ensures j <= SkipSpace(s, i)
    decreases j - i
  {
    if i < j {
      SkipSpacePastSpaces(s, i + 1, j);
    }
  }

  /** The start of the run of whitespace that ends at `j`, looking no further
      back than `lo`. */
  function SkipSpaceBack(s: string, lo: nat, j: nat): (i: nat)
    requires lo <= j <= |s|
    ensures lo <= i <= j
    decreases j
  {
    if lo < j && IsSpace(s[j - 1]) then SkipSpaceBack(s, lo, j - 1) else j
  }

  /** `SkipSpaceBack` stops after the last character before `j` that is not
      whitespace, or at `lo`. */
  lemma {:induction false} SkipSpaceBackStopsAtNonSpace(s: string, lo: nat, j: nat)
    requires lo <= j <= |s|
    ensures forall k :: SkipSpaceBack(s, lo, j) <= k < j ==> IsSpace(s[k])
    ensures lo < SkipSpaceBack(s, lo, j) ==> !IsSpace(s[SkipSpaceBack(s, lo, j) - 1])
    decreases j
  {
    if lo < j && IsSpace(s[j - 1]) {
      SkipSpaceBackStopsAtNonSpace(s, lo, j - 1);
    }
  }

  /** Where `str.strip()` starts keeping characters. */
  function StripStart(s: string): nat
  {
    SkipSpace(s, 0)
  }

  /** Where `str.strip()` stops keeping characters. */
  function StripEnd(s: string): (e: nat)
    ensures StripStart(s) <= e <= |s|
  {
    SkipSpaceBack(s, StripStart(s), |s|)
  }

  /** Python's `s.strip()`. */
  function Strip(s: string): (r: string)
    ensures |r| <= |s|
  {
    s[StripStart(s)..StripEnd(s)]
  }

  /** `s.strip()` keeps the slice of `s` between its leading and its trailing
      whitespace: only whitespace is removed, and what is left neither starts
      nor ends with whitespace; it is empty exactly when `s` is all whitespace. */
  lemma StripRemovesOuterSpace(s: string)
    ensures forall k :: 0 <= k < StripStart(s) ==> IsSpace(s[k])
    ensures forall k :: StripEnd(s) <= k < |s| ==> IsSpace(s[k])
    ensures Strip(s) != [] ==> !IsSpace(Strip(s)[0]) && !IsSpace(Strip(s)[|Strip(s)| - 1])
    ensures Strip(s) == [] <==> AllSpace(s)
  {
    SkipSpaceStopsAtNonSpace(s, 0);
    SkipSpaceBackStopsAtNonSpace(s, StripStart(s), |s|);
  }

  /** Stripping a slice of `s` keeps a slice of `s`, and what it drops at
      either end is whitespace. */
  lemma StripOfSlice(s: string, lo: nat, hi: nat)
    requires lo <= hi <= |s|
    ensures var gap := s[lo..hi];
      && Strip(gap) == s[lo + StripStart(gap)..lo + StripEnd(gap)]
      && AllSpace(gap[..StripStart(gap)]) && AllSpace(gap[StripEnd(gap)..])
  {
    var gap := s[lo..hi];
    StripRemovesOuterSpace(gap);
    var a, b := StripStart(gap), StripEnd(gap);
    assert |gap| == hi - lo && a <= b <= |gap|;
    assert gap[a..b] == s[lo + a..lo + b] by {
      forall k | 0 <= k < b - a ensures gap[a..b][k] == s[lo + a..lo + b][k] {
        assert gap[a..b][k] == gap[a + k] == s[lo + a + k];
      }
    }
    assert AllSpace(gap[..a]) by {
      forall k | 0 <= k < a ensures IsSpace(gap[..a][k]) {
        assert gap[..a][k] == gap[k];
      }
    }
    assert AllSpace(gap[b..]) by {
      forall k | 0 <= k < |gap| - b ensures IsSpace(gap[b..][k]) {
        assert gap[b..][k] == gap[b + k];
      }
    }
  }

  /** Stripping twice is stripping once. */
  lemma StripIdempotent(s: string)
    ensures Strip(Strip(s)) == Strip(s)
  {
    var r := Strip(s);
    StripRemovesOuterSpace(s);
    if r != [] {
      SkipSpaceStopsAtNonSpace(r, 0);
      SkipSpaceBackStopsAtNonSpace(r, StripStart(r), |r|);
      assert StripStart(r) == 0;
      assert StripEnd(r) == |r|;
    }
  }

  /** Python's `s[i:j]` for non-negative bounds: a bound past the end stops
      at the end, and the slice is empty when `j` is not after `i`. */
  function Slice(s: string, i: nat, j: nat): (r: string)
    ensures i <= j <= |s| ==> r == s[i..j]
    ensures i < |s| < j ==> r == s[i..]
    ensures |s| <= i || j <= i ==> r == []
    ensures |r| <= |s|
  {
    var lo := if i < |s| then i else |s|;
    var hi := if j < lo then lo else if j < |s| then j else |s|;
    s[lo..hi]
  }

  /** Python's `s.startswith(prefix)`. */
  predicate StartsWith(s: string, prefix: string) {
    |prefix| <= |s| && s[..|prefix|] == prefix
  }

  /** Python's `' '.join(words)`. */
  function Join(words: seq<string>): (r: string)
    ensures words == [] ==> r == []
    ensures |words| == 1 ==> r == words[0]
  {
    if words == [] then []
    else if |words| == 1 then words[0]
    else words[0] + " " + Join(words[1..])
  }

  /** The joined string is as long as all the words together plus one separator
      between each two neighbours. */
  lemma {:induction false} JoinLength(words: seq<string>)
    ensures |Join(words)| == TotalLength(words) + (if words == [] then 0 else |words| - 1)
  {
    if |words| > 1 {
      JoinLength(words[1..]);
    }
  }

  function TotalLength(words: seq<string>): nat {
    if words == [] then 0 else |words[0]| + TotalLength(words[1..])
  }
}
