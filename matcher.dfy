/**
 * `find_best_match` and `match_and_summarize_sections`: pair every CDS
 * section with the child section whose content is most similar, when that
 * similarity is above one half, summarise each pair, and then summarise
 * every child section no CDS section was paired with.
 *
 * The similarity (`SequenceMatcher(None, a, b).ratio()`) and the summariser
 * are parameters here.
 */
module Matcher {
  import opened Wrappers
  import opened Splitter

  /** A similarity measure with values in `[0, 1]`, as `ratio()` has. */
  type Ratio = f: (string, string) -> real | forall a, b :: 0.0 <= f(a, b) <= 1.0
    witness (a: string, b: string) => 0.0

  /** How similar a candidate's content is to a section's content. */
  function Score(ratio: Ratio, section: Section, cand: Section): real {
    ratio(section.content, cand.content)
  }

  /** The state of the search for the best candidate: the index of the best
      candidate so far, if any, and its score. */
  datatype Best = Best(index: Option<nat>, score: real)

  /** The best candidate among the first `n`: a candidate replaces the
      current best only with a strictly greater score, starting from 0. */
  function BestUpTo(ratio: Ratio, section: Section, cands: seq<Section>, n: nat): (b: Best)
    requires n <= |cands|
    ensures b.index.Some? ==> b.index.value < n
  {
    if n == 0 then Best(None, 0.0)
    else
      var b := BestUpTo(ratio, section, cands, n - 1);
      var score := Score(ratio, section, cands[n - 1]);
      if score > b.score then Best(Some(n - 1), score) else b
  }

  /** The search picks the first candidate of greatest score, and only when
      that score is above 0; otherwise it reports no candidate and score 0. */
  lemma {:induction false} BestIsFirstMaximum(ratio: Ratio, section: Section, cands: seq<Section>, n: nat)
    requires n <= |cands|
    ensures var b := BestUpTo(ratio, section, cands, n);
      && (forall j :: 0 <= j < n ==> Score(ratio, section, cands[j]) <= b.score)
      && (b.index.None? ==> b.score == 0.0)
      && (b.index.Some? ==>
            && b.score == Score(ratio, section, cands[b.index.value]) > 0.0
            && forall j :: 0 <= j < b.index.value ==> Score(ratio, section, cands[j]) < b.score)
  {
    if n > 0 {
      BestIsFirstMaximum(ratio, section, cands, n - 1);
    }
  }

  /** With no candidate, or with every score 0, there is no best match. */
  lemma NoPositiveScoreNoMatch(ratio: Ratio, section: Section, cands: seq<Section>)
    ensures var b := BestUpTo(ratio, section, cands, |cands|);
      b.index.None? <==> forall j :: 0 <= j < |cands| ==> Score(ratio, section, cands[j]) == 0.0
  {
    BestIsFirstMaximum(ratio, section, cands, |cands|);
    var b := BestUpTo(ratio, section, cands, |cands|);
    if b.index.None? {
      forall j | 0 <= j < |cands| ensures Score(ratio, section, cands[j]) == 0.0 {
        assert 0.0 <= ratio(section.content, cands[j].content);
      }
    }
  }

  /** `find_best_match(section, candidates)`: the best match and its score. */
  method FindBestMatch(section: Section, candidates: seq<Section>, ratio: Ratio)
    returns (bestMatch: Option<Section>, bestScore: real)
    ensures var b := BestUpTo(ratio, section, candidates, |candidates|);
      && bestScore == b.score
      && bestMatch == (if b.index.Some? then Some(candidates[b.index.value]) else None)
  {
    bestScore := 0.0;
    bestMatch := None;
    ghost var bestIndex: Option<nat> := None;
    for k := 0 to |candidates|
      invariant Best(bestIndex, bestScore) == BestUpTo(ratio, section, candidates, k)
      invariant bestMatch == (if bestIndex.Some? then Some(candidates[bestIndex.value]) else None)
    {
      var cand := candidates[k];
      var score := ratio(section.content, cand.content);
      if score > bestScore {
        bestScore := score;
        bestMatch := Some(cand);
        bestIndex := Some(k);
      }
    }
  }

  /** Python's `s.index(x)`: the first position holding `x`. */
  function IndexOf(s: seq<Section>, x: Section): (i: nat)
    requires x in s
    ensures i < |s| && s[i] == x && forall j :: 0 <= j < i ==> s[j] != x
  {
    if s[0] == x then 0 else 1 + IndexOf(s[1..], x)
  }

  /** The position `.index` finds for the best match is the best match's own
      position: an earlier equal section would have had the same score and
      been chosen first. */
  lemma IndexOfBestIsBest(ratio: Ratio, section: Section, cands: seq<Section>)
    requires BestUpTo(ratio, section, cands, |cands|).index.Some?
    ensures var i := BestUpTo(ratio, section, cands, |cands|).index.value;
      IndexOf(cands, cands[i]) == i
  {
    BestIsFirstMaximum(ratio, section, cands, |cands|);
  }

  /** A row of the result of `match_and_summarize_sections`. */
  datatype Row = Row(cdsTitle: Option<string>, childTitle: Option<string>,
                     cdsContent: string, childContent: string, summary: string)

  /** The child section a CDS section is paired with, by position: the best
      match, when its score is above one half. */
  function MatchOf(ratio: Ratio, section: Section, child: seq<Section>): (m: Option<nat>)
    ensures m.Some? ==> m.value < |child|
  {
    var b := BestUpTo(ratio, section, child, |child|);
    if b.index.Some? && b.score > 0.5 then Some(IndexOf(child, child[b.index.value])) else None
  }

  /** The row of a CDS section: with its match and the summary of both
      contents, or unmatched with the summary of its content against `''`. */
  function CdsRow(ratio: Ratio, summarize: (string, string) -> string, section: Section, child: seq<Section>): Row
  {
    match MatchOf(ratio, section, child)
    case Some(i) =>
      Row(Some(section.title), Some(child[i].title), section.content, child[i].content,
          summarize(section.content, child[i].content))
    case None =>
      Row(Some(section.title), None, section.content, "", summarize(section.content, ""))
  }

  /** The row of a child section no CDS section was paired with. */
  function ChildRow(summarize: (string, string) -> string, section: Section): Row {
    Row(None, Some(section.title), "", section.content, summarize("", section.content))
  }

  /** The positions of the child sections the first `n` CDS sections were
      paired with (`used_child_indices`). */
  function UsedUpTo(ratio: Ratio, cds: seq<Section>, child: seq<Section>, n: nat): (used: set<nat>)
    requires n <= |cds|
    ensures forall i :: i in used ==> i < |child|
  {
    if n == 0 then {}
    else
      var m := MatchOf(ratio, cds[n - 1], child);
      UsedUpTo(ratio, cds, child, n - 1) + (if m.Some? then {m.value} else {})
  }

  /** The positions below `n` that are not in `used`, in increasing order. */
  function Unused(used: set<nat>, n: nat): seq<nat> {
    if n == 0 then [] else Unused(used, n - 1) + (if n - 1 in used then [] else [n - 1])
  }

  /** The rows of the child sections at the positions below `n` not in `used`. */
  function TrailingRows(summarize: (string, string) -> string, child: seq<Section>, used: set<nat>, n: nat): seq<Row>
    requires n <= |child|
  {
    if n == 0 then []
    else TrailingRows(summarize, child, used, n - 1) + (if n - 1 in used then [] else [ChildRow(summarize, child[n - 1])])
  }

  /** What `match_and_summarize_sections(cds, child)` returns. */
  function MatchAndSummarize(ratio: Ratio, summarize: (string, string) -> string,
                             cds: seq<Section>, child: seq<Section>): seq<Row>
  {
    seq(|cds|, i requires 0 <= i < |cds| => CdsRow(ratio, summarize, cds[i], child)) +
      TrailingRows(summarize, child, UsedUpTo(ratio, cds, child, |cds|), |child|)
  }

  method MatchAndSummarizeSections(cdsSections: seq<Section>, childSections: seq<Section>,
                                   ratio: Ratio, summarize: (string, string) -> string)
    returns (results: seq<Row>)
    ensures results == MatchAndSummarize(ratio, summarize, cdsSections, childSections)
  {
    ghost var cdsRows := seq(|cdsSections|, i requires 0 <= i < |cdsSections| =>
      CdsRow(ratio, summarize, cdsSections[i], childSections));
    results := [];
    var usedChildIndices: set<nat> := {};
    for i := 0 to |cdsSections|
      invariant results == cdsRows[..i]
      invariant usedChildIndices == UsedUpTo(ratio, cdsSections, childSections, i)
    {
      var row, paired := SummarizeOneSection(cdsSections[i], childSections, ratio, summarize);
      results := results + [row];
      if paired.Some? {
        usedChildIndices := usedChildIndices + {paired.value};
      }
    }
    assert results == cdsRows by {
      assert cdsRows[..|cdsSections|] == cdsRows;
    }
    for idx := 0 to |childSections|
      invariant results == cdsRows + TrailingRows(summarize, childSections, usedChildIndices, idx)
    {
      if idx !in usedChildIndices {
        var childSec := childSections[idx];
        var summary := summarize("", childSec.content);
        results := results + [Row(None, Some(childSec.title), "", childSec.content, summary)];
      }
    }
  }

  /** One iteration of the first loop of `match_and_summarize_sections`: the
      row of a CDS section, and the position of the child section it was
      paired with, if any, which joins `used_child_indices`. */
  method SummarizeOneSection(cdsSec: Section, childSections: seq<Section>,
                             ratio: Ratio, summarize: (string, string) -> string)
    returns (row: Row, paired: Option<nat>)
    ensures row == CdsRow(ratio, summarize, cdsSec, childSections)
    ensures paired == MatchOf(ratio, cdsSec, childSections)
  {
    var bestMatch, score := FindBestMatch(cdsSec, childSections, ratio);
    if bestMatch.Some? && score > 0.5 {
      var summary := summarize(cdsSec.content, bestMatch.value.content);
      row := Row(Some(cdsSec.title), Some(bestMatch.value.title), cdsSec.content, bestMatch.value.content, summary);
      paired := Some(IndexOf(childSections, bestMatch.value));
    } else {
      var summary := summarize(cdsSec.content, "");
      row := Row(Some(cdsSec.title), None, cdsSec.content, "", summary);
      paired := None;
    }
  }

  /** `Unused(used, n)` lists each position below `n` that is not in `used`,
      exactly once and in increasing order. */
  lemma {:induction false} UnusedIsIncreasingComplement(used: set<nat>, n: nat)
    ensures forall k: nat :: k in Unused(used, n) <==> k < n && k !in used
    ensures forall i, j :: 0 <= i < j < |Unused(used, n)| ==> Unused(used, n)[i] < Unused(used, n)[j]
  {
    if n > 0 {
      var prev := Unused(used, n - 1);
      UnusedIsIncreasingComplement(used, n - 1);
      assert forall i :: 0 <= i < |prev| ==> prev[i] in prev;
      var all := Unused(used, n);
      assert all == prev + (if n - 1 in used then [] else [n - 1]);
      forall k: nat ensures k in all <==> k < n && k !in used {
        assert k in all <==> k in prev || (k == n - 1 && n - 1 !in used);
      }
    }
  }

  /** Of the positions below `n`, those in `used` and those listed by
      `Unused` add up to `n`. */
  lemma {:induction false} UnusedCount(used: set<nat>, n: nat)
    ensures |Unused(used, n)| + |set i | i in used && i < n| == n
  {
    if n > 0 {
      UnusedCount(used, n - 1);
      var below, before := set i | i in used && i < n, set i | i in used && i < n - 1;
      if n - 1 in used {
        assert below == before + {n - 1};
      } else {
        assert below == before;
      }
    }
  }

  /** The trailing rows are the rows of the child sections at the unused
      positions, in order. */
  lemma {:induction false} TrailingRowsAtUnused(summarize: (string, string) -> string, child: seq<Section>,
                                                used: set<nat>, n: nat)
    requires n <= |child|
    ensures |TrailingRows(summarize, child, used, n)| == |Unused(used, n)|
    ensures forall k :: 0 <= k < |Unused(used, n)| ==>
      (Unused(used, n)[k] < n &&
       TrailingRows(summarize, child, used, n)[k] == ChildRow(summarize, child[Unused(used, n)[k]]))
  {
    if n > 0 {
      TrailingRowsAtUnused(summarize, child, used, n - 1);
    }
  }

  /** The shape of the result: first one row per CDS section, in order, each
      carrying that section; it is paired exactly when the best match scores
      above one half, and then carries the best match; otherwise its child
      side is empty. After them come the rows of the unpaired child sections
      in position order. */
  lemma ResultShape(ratio: Ratio, summarize: (string, string) -> string, cds: seq<Section>, child: seq<Section>)
    ensures var r, used := MatchAndSummarize(ratio, summarize, cds, child), UsedUpTo(ratio, cds, child, |cds|);
      && |r| == |cds| + |Unused(used, |child|)|
      && (forall i :: 0 <= i < |cds| ==>
            var b := BestUpTo(ratio, cds[i], child, |child|);
            && r[i].cdsTitle == Some(cds[i].title) && r[i].cdsContent == cds[i].content
            && (r[i].childTitle.Some? <==> b.index.Some? && b.score > 0.5)
            && (r[i].childTitle.Some? ==>
                  r[i].childTitle == Some(child[b.index.value].title) &&
                  r[i].childContent == child[b.index.value].content &&
                  r[i].summary == summarize(cds[i].content, child[b.index.value].content))
            && (r[i].childTitle.None? ==> r[i].childContent == "" && r[i].summary == summarize(cds[i].content, "")))
      && (forall k :: 0 <= k < |Unused(used, |child|)| ==>
            Unused(used, |child|)[k] < |child| &&
            r[|cds| + k] == ChildRow(summarize, child[Unused(used, |child|)[k]]))
  {
    var used := UsedUpTo(ratio, cds, child, |cds|);
    TrailingRowsAtUnused(summarize, child, used, |child|);
    forall i | 0 <= i < |cds| && BestUpTo(ratio, cds[i], child, |child|).index.Some?
      ensures var i' := BestUpTo(ratio, cds[i], child, |child|).index.value; IndexOf(child, child[i']) == i'
    {
      IndexOfBestIsBest(ratio, cds[i], child);
    }
  }

  /** A child position is used exactly when some CDS section is paired with
      the child section there. */
  lemma {:induction false} UsedIsPaired(ratio: Ratio, cds: seq<Section>, child: seq<Section>, n: nat)
    requires n <= |cds|
    ensures forall j :: j in UsedUpTo(ratio, cds, child, n) <==>
      exists i :: 0 <= i < n && MatchOf(ratio, cds[i], child) == Some(j)
  {
    if n > 0 {
      UsedIsPaired(ratio, cds, child, n - 1);
    }
  }

  /** Every child section either is paired with some CDS section or has
      exactly one trailing row of its own; and the result has `|cds|` rows
      plus one per unpaired child position. */
  lemma EveryChildAccountedFor(ratio: Ratio, summarize: (string, string) -> string, cds: seq<Section>, child: seq<Section>)
    ensures var used := UsedUpTo(ratio, cds, child, |cds|);
      && (forall j :: 0 <= j < |child| ==>
            ((exists i :: 0 <= i < |cds| && MatchOf(ratio, cds[i], child) == Some(j)) <==> j !in Unused(used, |child|)))
      && |MatchAndSummarize(ratio, summarize, cds, child)| == |cds| + |child| - |used|
  {
    var used := UsedUpTo(ratio, cds, child, |cds|);
    UsedIsPaired(ratio, cds, child, |cds|);
    UnusedIsIncreasingComplement(used, |child|);
    UnusedCount(used, |child|);
    ResultShape(ratio, summarize, cds, child);
    assert (set i | i in used && i < |child|) == used;
  }

  /** Equal contents score 1, different contents 0. */
  const SameText: Ratio := (a: string, b: string) => if a == b then 1.0 else 0.0

  /** Candidates are never removed: two CDS sections with the same content
      are both paired with the same child section. */
  lemma OneChildPairedTwice(summarize: (string, string) -> string)
    ensures var cds := [Section("1. A", "x"), Section("2. B", "x")];
      var child := [Section("1. C", "x")];
      var r := MatchAndSummarize(SameText, summarize, cds, child);
      |r| == 2 && r[0].childTitle == Some("1. C") && r[1].childTitle == Some("1. C")
  {
    var cds := [Section("1. A", "x"), Section("2. B", "x")];
    var child := [Section("1. C", "x")];
    ResultShape(SameText, summarize, cds, child);
    EveryChildAccountedFor(SameText, summarize, cds, child);
    assert BestUpTo(SameText, cds[0], child, 1) == Best(Some(0), 1.0);
    assert BestUpTo(SameText, cds[1], child, 1) == Best(Some(0), 1.0);
    assert UsedUpTo(SameText, cds, child, 2) == {0};
  }

  /** A score of exactly one half is not enough: with every score at one
      half, no section is paired and every child section gets its own row. */
  lemma HalfIsNotEnough(summarize: (string, string) -> string, cds: seq<Section>, child: seq<Section>)
    ensures var half: Ratio := (a: string, b: string) => 0.5;
      var r := MatchAndSummarize(half, summarize, cds, child);
      && |r| == |cds| + |child|
      && forall i :: 0 <= i < |cds| ==> r[i].childTitle.None?
  {
    var half: Ratio := (a: string, b: string) => 0.5;
    forall i | 0 <= i < |cds| ensures MatchOf(half, cds[i], child).None? {
      BestIsFirstMaximum(half, cds[i], child, |child|);
    }
    EveryChildAccountedFor(half, summarize, cds, child);
    ResultShape(half, summarize, cds, child);
    UsedIsPaired(half, cds, child, |cds|);
    assert UsedUpTo(half, cds, child, |cds|) == {};
  }
}
