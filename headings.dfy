/**
 * The heading pattern of `split_into_sections`, `\d+(?:\.\d+)*\.\s+[^\n]+`,
 * written out as a hand matcher. `IsParse` says when a span of the text can be
 * read as that pattern; `MatchAt` is what the regular-expression engine reports
 * at one position, and `MatchAtIsLongestParse` proves that it reports a match
 * exactly when some reading exists, and then the longest one.
 */
module Headings {
  import opened Text
  import opened Wrappers

  /** One reading of the pattern, as offsets into the text: the numeral
      occupies [start, dot), the final period is at `dot`, the whitespace after
      it occupies [dot + 1, body) and the heading words occupy [body, end). */
  datatype Heading = Heading(start: nat, dot: nat, body: nat, end: nat)

  /** t[p..d] has the shape `\d+(?:\.\d+)*`: digit groups joined by single periods. */
  predicate IsNumeral(t: string, p: nat, d: nat) {
    p < d <= |t| && IsDigit(t[p]) && IsDigit(t[d - 1]) &&
    (forall k :: p <= k < d ==> IsDigit(t[k]) || t[k] == '.') &&
    (forall k :: p <= k < d - 1 && t[k] == '.' ==> IsDigit(t[k + 1]))
  }

  /** `h` reads t[h.start..h.end] as numeral, final period, at least one
      whitespace character, then at least one character that is not a newline. */
  predicate IsParse(t: string, h: Heading) {
    h.start < h.dot && h.dot + 1 < h.body < h.end <= |t| &&
    IsNumeral(t, h.start, h.dot) && t[h.dot] == '.' &&
    (forall k :: h.dot < k < h.body ==> IsSpace(t[k])) &&
    (forall k :: h.body <= k < h.end ==> t[k] != '\n')
  }

  function DigitsEnd(t: string, i: nat): (j: nat)
    requires i <= |t|
    ensures i <= j <= |t|
    ensures forall k :: i <= k < j ==> IsDigit(t[k])
    ensures j < |t| ==> !IsDigit(t[j])
    decreases |t| - i
  {
    if i < |t| && IsDigit(t[i]) then DigitsEnd(t, i + 1) else i
  }

  /** End of the longest numeral that starts at `p` (greedy `\d+(?:\.\d+)*`). */
  function NumeralEnd(t: string, p: nat): (m: nat)
    requires p < |t| && IsDigit(t[p])
    ensures IsNumeral(t, p, m)
    ensures m < |t| ==> !IsDigit(t[m]) && !(t[m] == '.' && m + 1 < |t| && IsDigit(t[m + 1]))
    decreases |t| - p
  {
    var j := DigitsEnd(t, p);
    if j + 1 < |t| && t[j] == '.' && IsDigit(t[j + 1]) then NumeralEnd(t, j + 1) else j
  }

  /** The first newline at or after `i`, or |t| (greedy `[^\n]+`). */
  function LineEnd(t: string, i: nat): (j: nat)
    requires i <= |t|
    ensures i <= j <= |t|
    ensures forall k :: i <= k < j ==> t[k] != '\n'
    ensures j < |t| ==> t[j] == '\n'
    decreases |t| - i
  {
    if i < |t| && t[i] != '\n' then LineEnd(t, i + 1) else i
  }

  /** The last position in [lo, hi) that holds no newline: where backtracking
      out of `\s+` first lets `[^\n]+` match when the whitespace reaches the end. */
  function LastNonNewline(t: string, lo: nat, hi: nat): (r: Option<nat>)
    requires hi <= |t|
    ensures r.Some? ==> lo <= r.value < hi && t[r.value] != '\n'
    ensures r.Some? ==> forall k :: r.value < k < hi ==> t[k] == '\n'
    ensures r.None? ==> forall k :: lo <= k < hi ==> t[k] == '\n'
    decreases hi
  {
    if hi <= lo then None
    else if t[hi - 1] != '\n' then Some(hi - 1)
    else LastNonNewline(t, lo, hi - 1)
  }

  /** The match the engine reports when it tries the pattern at position `p`. */
  function MatchAt(t: string, p: nat): (r: Option<Heading>)
    ensures r.Some? ==> r.value.start == p < r.value.end <= |t|
  {
    if p < |t| && IsDigit(t[p]) then
      var d := NumeralEnd(t, p);
      if d + 1 < |t| && t[d] == '.' && IsSpace(t[d + 1]) then
        var w := SkipSpace(t, d + 1);
        if w < |t| then Some(Heading(p, d, w, LineEnd(t, w)))
        else match LastNonNewline(t, d + 2, w)
          case Some(b) => Some(Heading(p, d, b, LineEnd(t, b)))
          case None => None
      else None
    else None
  }

  /** What the engine reports is a reading of the pattern, and its heading
      words run up to the end of their line. */
  lemma MatchAtIsParse(t: string, p: nat)
    requires MatchAt(t, p).Some?
    ensures IsParse(t, MatchAt(t, p).value)
    ensures MatchAt(t, p).value.end == |t| || t[MatchAt(t, p).value.end] == '\n'
  {
    var d := NumeralEnd(t, p);
    SkipSpaceStopsAtNonSpace(t, d + 1);
  }

  /** No digit is whitespace. */
  lemma SpaceIsNotDigit(c: char)
    ensures IsSpace(c) ==> !IsDigit(c)
  {
  }

  /** A numeral followed by a period and whitespace is the longest numeral at
      its start: the pattern's final period can sit in one place only. */
  lemma NumeralBeforePeriodIsLongest(t: string, p: nat, d: nat)
    requires IsNumeral(t, p, d) && d + 1 < |t| && t[d] == '.' && IsSpace(t[d + 1])
    ensures d == NumeralEnd(t, p)
  {
    SpaceIsNotDigit(t[d + 1]);
    var m := NumeralEnd(t, p);
  }

  /** The engine reports a match at `p` whenever some reading of the pattern
      fits there, and the reported match is the longest reading; with
      `NumeralBeforePeriodIsLongest` this pins down its start, its final
      period and its end. */
  lemma MatchAtIsLongestParse(t: string, p: nat, h: Heading)
    requires h.start == p && IsParse(t, h)
    ensures MatchAt(t, p).Some? && h.end <= MatchAt(t, p).value.end
  {
    var d := h.dot;
    NumeralBeforePeriodIsLongest(t, p, d);
    var w := SkipSpace(t, d + 1);
    SkipSpacePastSpaces(t, d + 1, h.body);
    if w < |t| {
      var e := LineEnd(t, w);
    } else {
      var b := LastNonNewline(t, d + 2, w);
      assert t[h.body] != '\n';
      assert b.Some?;
      assert h.body <= b.value;
      var e := LineEnd(t, b.value);
    }
  }
}
