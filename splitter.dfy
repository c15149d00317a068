/**
 * `split_into_sections`: find every heading with the leftmost, non-overlapping
 * search of `re.finditer`, then cut the text into one titled section per
 * heading.
 */
module Splitter {
  import opened Text
  import opened Wrappers
  import opened Headings

  /** A section as the pipeline passes it around: `{'title': ..., 'content': ...}`. */
  datatype Section = Section(title: string, content: string)

  /** A view of the engine's matcher over a text of length `n`: at each
      position, the match it reports there, if any. */
  ghost predicate IsMatcher(find: nat -> Option<Heading>, n: nat) {
    forall p: nat :: find(p).Some? ==> find(p).value.start == p < find(p).value.end <= n
  }

  /** The heading matcher over `t`. */
  function HeadingFinder(t: string): (find: nat -> Option<Heading>)
    ensures IsMatcher(find, |t|)
    ensures forall p: nat :: find(p) == MatchAt(t, p)
  {
    (p: nat) => MatchAt(t, p)
  }

  /** The matches `re.finditer` yields from `pos` on: try the pattern at each
      position in turn and, after a match, resume at its end. */
  function Search(find: nat -> Option<Heading>, n: nat, pos: nat): seq<Heading>
    requires IsMatcher(find, n) && pos <= n
    decreases n - pos
  {
    if pos == n then []
    else match find(pos)
      case Some(h) => [h] + Search(find, n, h.end)
      case None => Search(find, n, pos + 1)
  }

  /** The heading matches of `t`, in text order. */
  function Matches(t: string): seq<Heading>
  {
    Search(HeadingFinder(t), |t|, 0)
  }

  /** Position `q` lies inside none of the spans of `ms`. */
  predicate Uncovered(ms: seq<Heading>, q: nat) {
    forall k :: 0 <= k < |ms| ==> q < ms[k].start || ms[k].end <= q
  }

  /** `ms` are the leftmost non-overlapping matches in a text of length `n`
      from `pos` on: each is what the matcher reports at its start, they come
      in text order without overlapping, and at every position from `pos` on
      that none of them covers, the matcher reports nothing. */
  ghost predicate LeftmostMatches(find: nat -> Option<Heading>, n: nat, pos: nat, ms: seq<Heading>) {
    (forall k :: 0 <= k < |ms| ==> find(ms[k].start) == Some(ms[k])) &&
    (forall k :: 0 < k < |ms| ==> ms[k - 1].end <= ms[k].start) &&
    (|ms| > 0 ==> pos <= ms[0].start) &&
    (forall q :: pos <= q < n && Uncovered(ms, q) ==> find(q).None?)
  }

  /** A match found at `pos`, followed by the leftmost matches from its end. */
  lemma LeftmostCons(find: nat -> Option<Heading>, n: nat, pos: nat, h: Heading, rest: seq<Heading>)
    requires IsMatcher(find, n) && find(pos) == Some(h) && LeftmostMatches(find, n, h.end, rest)
    ensures LeftmostMatches(find, n, pos, [h] + rest)
  {
    var ms := [h] + rest;
    forall k | 0 < k < |ms| ensures find(ms[k].start) == Some(ms[k]) {
      assert ms[k] == rest[k - 1];
    }
    forall k | 1 < k < |ms| ensures ms[k - 1].end <= ms[k].start {
      assert ms[k - 1] == rest[k - 2] && ms[k] == rest[k - 1];
    }
    forall q | pos <= q < n && Uncovered(ms, q) ensures find(q).None? {
      assert ms[0] == h;
      forall k | 0 <= k < |rest| ensures q < rest[k].start || rest[k].end <= q {
        assert rest[k] == ms[k + 1];
      }
    }
  }

  /** The leftmost matches from `pos`, with their first match dropped, are the
      leftmost matches from the end of that first match. */
  lemma LeftmostTail(find: nat -> Option<Heading>, n: nat, pos: nat, ms: seq<Heading>)
    requires IsMatcher(find, n) && LeftmostMatches(find, n, pos, ms) && ms != []
    ensures LeftmostMatches(find, n, ms[0].end, ms[1..])
  {
    var rest := ms[1..];
    forall q | ms[0].end <= q < n && Uncovered(rest, q) ensures find(q).None? {
      forall j | 0 < j < |ms| ensures q < ms[j].start || ms[j].end <= q {
        assert ms[j] == rest[j - 1];
      }
      assert Uncovered(ms, q);
    }
    forall j | 0 <= j < |rest| ensures find(rest[j].start) == Some(rest[j]) {
      assert rest[j] == ms[j + 1];
    }
    forall j | 0 < j < |rest| ensures rest[j - 1].end <= rest[j].start {
      assert rest[j - 1] == ms[j] && rest[j] == ms[j + 1];
    }
  }

  lemma {:induction false} SearchIsLeftmost(find: nat -> Option<Heading>, n: nat, pos: nat)
    requires IsMatcher(find, n) && pos <= n
    ensures LeftmostMatches(find, n, pos, Search(find, n, pos))
    decreases n - pos
  {
    if pos < n {
      match find(pos)
      case Some(h) =>
        assert Search(find, n, pos) == [h] + Search(find, n, h.end);
        SearchIsLeftmost(find, n, h.end);
        LeftmostCons(find, n, pos, h, Search(find, n, h.end));
      case None =>
        assert Search(find, n, pos) == Search(find, n, pos + 1);
        SearchIsLeftmost(find, n, pos + 1);
        LeftmostSkip(find, n, pos, Search(find, n, pos + 1));
    }
  }

  /** A position where nothing matches can be added in front of the leftmost
      matches from the next position. */
  lemma LeftmostSkip(find: nat -> Option<Heading>, n: nat, pos: nat, ms: seq<Heading>)
    requires find(pos).None? && LeftmostMatches(find, n, pos + 1, ms)
    ensures LeftmostMatches(find, n, pos, ms)
  {
  }

  lemma {:induction false} StartsAfterFirst(find: nat -> Option<Heading>, n: nat, pos: nat, ms: seq<Heading>, k: nat)
    requires IsMatcher(find, n) && LeftmostMatches(find, n, pos, ms) && k < |ms|
    ensures ms[0].start <= ms[k].start
  {
    if k > 0 {
      StartsAfterFirst(find, n, pos, ms, k - 1);
      assert find(ms[k - 1].start) == Some(ms[k - 1]);
    }
  }

  /** The leftmost non-overlapping matches are unique, so `Search` is exactly
      what `re.finditer` yields. */
  lemma {:induction false} LeftmostIsSearch(find: nat -> Option<Heading>, n: nat, pos: nat, ms: seq<Heading>)
    requires IsMatcher(find, n) && pos <= n && LeftmostMatches(find, n, pos, ms)
    ensures ms == Search(find, n, pos)
    decreases n - pos
  {
    assert ms != [] ==> find(ms[0].start) == Some(ms[0]);
    if pos < n {
      match find(pos)
      case Some(h) =>
        FirstIsAtPos(find, n, pos, ms);
        LeftmostTail(find, n, pos, ms);
        LeftmostIsSearch(find, n, h.end, ms[1..]);
        assert ms == [h] + ms[1..];
      case None =>
        LeftmostIsSearch(find, n, pos + 1, ms);
    }
  }

  /** When the matcher reports a match at `pos`, it is the first of the
      leftmost matches from `pos`. */
  lemma FirstIsAtPos(find: nat -> Option<Heading>, n: nat, pos: nat, ms: seq<Heading>)
    requires IsMatcher(find, n) && pos < n && LeftmostMatches(find, n, pos, ms) && find(pos).Some?
    ensures ms != [] && ms[0] == find(pos).value
  {
    assert !Uncovered(ms, pos);
    var k :| 0 <= k < |ms| && ms[k].start <= pos < ms[k].end;
    StartsAfterFirst(find, n, pos, ms, k);
    assert find(ms[0].start) == Some(ms[0]);
  }

  /** The leftmost non-overlapping heading matches of `t`. */
  lemma MatchesAreLeftmost(t: string)
    ensures LeftmostMatches(HeadingFinder(t), |t|, 0, Matches(t))
    ensures forall k :: 0 <= k < |Matches(t)| ==> MatchAt(t, Matches(t)[k].start) == Some(Matches(t)[k])
  {
    SearchIsLeftmost(HeadingFinder(t), |t|, 0);
  }

  /** The hand scanner standing in for `list(re.finditer(pattern, text))`. */
  method FindHeadings(t: string) returns (ms: seq<Heading>)
    ensures ms == Matches(t)
    ensures LeftmostMatches(HeadingFinder(t), |t|, 0, ms)
  {
    ms := FindAll(HeadingFinder(t), |t|);
    MatchesAreLeftmost(t);
  }

  /** `re.finditer` over a matcher on a text of length `n`: try each position
      in turn and, after a match, resume at its end. */
  method FindAll(find: nat -> Option<Heading>, n: nat) returns (ms: seq<Heading>)
    requires IsMatcher(find, n)
    ensures ms == Search(find, n, 0)
  {
    ms := [];
    var pos := 0;
    while pos < n
      invariant pos <= n
      invariant ms + Search(find, n, pos) == Search(find, n, 0)
      decreases n - pos
    {
      match find(pos)
      case Some(h) =>
        ms := ms + [h];
        pos := h.end;
      case None =>
        pos := pos + 1;
    }
  }

  /** Where the content of the `i`-th section stops: at the start of the next
      match, or at the end of the text. */
  function ContentEnd(ms: seq<Heading>, i: nat, n: nat): nat
    requires i < |ms|
  {
    if i + 1 < |ms| then ms[i + 1].start else n
  }

  /** The matches do not overlap and lie inside the text. */
  predicate Ordered(ms: seq<Heading>, n: nat) {
    (forall k :: 0 <= k < |ms| ==> ms[k].start < ms[k].end <= n) &&
    (forall k :: 0 < k < |ms| ==> ms[k - 1].end <= ms[k].start)
  }

  lemma MatchesAreOrdered(t: string)
    ensures Ordered(Matches(t), |t|)
  {
    MatchesAreLeftmost(t);
    var ms := Matches(t);
    forall k | 0 <= k < |ms| ensures ms[k].start < ms[k].end <= |t| {
      assert MatchAt(t, ms[k].start) == Some(ms[k]);
    }
  }

  /** The title of the `i`-th section: the stripped match. */
  function TitleAt(text: string, ms: seq<Heading>, i: nat): (title: string)
    requires Ordered(ms, |text|) && i < |ms|
    ensures ms[i].start + |title| <= ms[i].end <= ContentEnd(ms, i, |text|) <= |text|
  {
    Strip(text[ms[i].start..ms[i].end])
  }

  /** The content of the `i`-th section: the stripped text from the end of the
      title to where the content stops. */
  function ContentAt(text: string, ms: seq<Heading>, i: nat): string
    requires Ordered(ms, |text|) && i < |ms|
  {
    Strip(text[ms[i].start + |TitleAt(text, ms, i)|..ContentEnd(ms, i, |text|)])
  }

  /** One section per match, in order. */
  function Sections(text: string, ms: seq<Heading>): seq<Section>
    requires Ordered(ms, |text|)
  {
    seq(|ms|, i requires 0 <= i < |ms| => Section(TitleAt(text, ms, i), ContentAt(text, ms, i)))
  }

  /** What `split_into_sections(text)` returns. */
  function SectionsOf(text: string): seq<Section>
  {
    MatchesAreOrdered(text);
    Sections(text, Matches(text))
  }

  /** `split_into_sections(text)`: find the headings, then cut the text at them. */
  method SplitIntoSections(text: string) returns (sections: seq<Section>)
    ensures sections == SectionsOf(text)
  {
    var matches := FindHeadings(text);
    MatchesAreOrdered(text);
    sections := CutAtHeadings(text, matches);
  }

  /** The loop of `split_into_sections` over the heading matches `ms`: one
      section per match, titled by the stripped match, holding the stripped
      text up to the next match. */
  method CutAtHeadings(text: string, ms: seq<Heading>) returns (sections: seq<Section>)
    requires Ordered(ms, |text|)
    ensures sections == Sections(text, ms)
  {
    ghost var spec := Sections(text, ms);
    sections := [];
    for i := 0 to |ms|
      invariant sections == spec[..i]
    {
      var start := ms[i].start;
      var end := if i + 1 < |ms| then ms[i + 1].start else |text|;
      var title := Strip(text[start..ms[i].end]);
      var content := Strip(text[start + |title|..end]);
      SectionIs(text, ms, i, title, content);
      sections := sections + [Section(title, content)];
    }
    assert spec[..|ms|] == spec;
  }

  /** The section the loop builds at step `i` is the `i`-th of `Sections`. */
  lemma SectionIs(text: string, ms: seq<Heading>, i: nat, title: string, content: string)
    requires Ordered(ms, |text|) && i < |ms|
    requires title == TitleAt(text, ms, i)
    requires content == Strip(text[ms[i].start + |title|..ContentEnd(ms, i, |text|)])
    ensures Sections(text, ms)[i] == Section(title, content)
  {
  }

  /** Every element of `Matches(t)` is a reading of the heading pattern. */
  lemma MatchesAreParses(t: string, i: nat)
    requires i < |Matches(t)|
    ensures IsParse(t, Matches(t)[i])
  {
    MatchesAreLeftmost(t);
    MatchAtIsParse(t, Matches(t)[i].start);
  }

  /** Each title is its heading match with trailing whitespace removed: it
      starts where the match starts and keeps the whole numeral and the final
      period the pattern demands. */
  lemma TitleKeepsNumeralAndPeriod(text: string, ms: seq<Heading>, i: nat)
    requires Ordered(ms, |text|) && i < |ms| && IsParse(text, ms[i])
    ensures ms[i].dot < ms[i].start + |TitleAt(text, ms, i)|
    ensures TitleAt(text, ms, i) == text[ms[i].start..ms[i].start + |TitleAt(text, ms, i)|]
    ensures IsNumeral(text, ms[i].start, ms[i].dot) && text[ms[i].dot] == '.'
  {
    var h := ms[i];
    var m := text[h.start..h.end];
    StripRemovesOuterSpace(m);
    SpaceIsNotDigit(m[0]);
    assert !IsSpace(m[h.dot - h.start]);
  }

  /** Each content is cut out of the text between the end of its title and the
      start of the next heading match, so it never holds part of a later
      heading; only whitespace is dropped at its two ends. */
  lemma ContentLiesBeforeNextHeading(text: string, ms: seq<Heading>, i: nat)
    requires Ordered(ms, |text|) && i < |ms|
    ensures i + 1 < |ms| ==> ContentEnd(ms, i, |text|) == ms[i + 1].start
    ensures var lo := ms[i].start + |TitleAt(text, ms, i)|; var gap := text[lo..ContentEnd(ms, i, |text|)];
      && ContentAt(text, ms, i) == text[lo + StripStart(gap)..lo + StripEnd(gap)]
      && AllSpace(gap[..StripStart(gap)]) && AllSpace(gap[StripEnd(gap)..])
  {
    var lo, e := ms[i].start + |TitleAt(text, ms, i)|, ContentEnd(ms, i, |text|);
    assert ContentAt(text, ms, i) == Strip(text[lo..e]);
    StripOfSlice(text, lo, e);
  }

  /** No sections at all exactly when the pattern matches nowhere; in
      particular the empty text, and text without a heading, give none. */
  lemma NoHeadingNoSections(text: string)
    ensures SectionsOf(text) == [] <==> forall q :: 0 <= q < |text| ==> MatchAt(text, q).None?
  {
    var find := HeadingFinder(text);
    MatchesAreLeftmost(text);
    if forall q :: 0 <= q < |text| ==> MatchAt(text, q).None? {
      LeftmostIsSearch(find, |text|, 0, []);
    } else {
      var q :| 0 <= q < |text| && MatchAt(text, q).Some?;
      assert find(q).Some?;
    }
  }

  /** The pattern demands a period right before whitespace: a text in which
      no period is followed by whitespace has no sections at all. */
  lemma NoPeriodBeforeSpaceNoSections(t: string)
    requires forall k :: 0 <= k < |t| - 1 && t[k] == '.' ==> !IsSpace(t[k + 1])
    ensures SectionsOf(t) == []
  {
    forall q | 0 <= q < |t| ensures MatchAt(t, q).None? {
      assert MatchAt(t, q).Some? ==> IsParse(t, MatchAt(t, q).value) by {
        if MatchAt(t, q).Some? {
          MatchAtIsParse(t, q);
        }
      }
    }
    NoHeadingNoSections(t);
  }

  /** So `2.1 Dosage`, the form the comment beside the pattern calls a
      heading, yields no section. */
  lemma CommentFormIsNoHeading()
    ensures SectionsOf("2.1 Dosage") == []
  {
    var t := "2.1 Dosage";
    assert forall k :: 0 <= k < |t| - 1 && t[k] == '.' ==> k == 1;
    NoPeriodBeforeSpaceNoSections(t);
  }

  /** `2.1. Dosage` is a heading that runs to the end of the text. */
  lemma DottedFormIsHeading()
    ensures MatchAt("2.1. Dosage", 0) == Some(Heading(0, 3, 5, 11))
  {
    var u := "2.1. Dosage";
    assert NumeralEnd(u, 0) == 3 by {
      assert DigitsEnd(u, 0) == 1 && DigitsEnd(u, 2) == 3;
    }
    assert SkipSpace(u, 4) == 5;
    assert LineEnd(u, 5) == 11;
  }

  /** The whole split of `2.1. Dosage`: one section, titled by the whole
      text, with empty content. */
  lemma DottedFormIsOneSection()
    ensures SectionsOf("2.1. Dosage") == [Section("2.1. Dosage", "")]
  {
    var u := "2.1. Dosage";
    var h := Heading(0, 3, 5, 11);
    DottedFormHasOneMatch();
    DottedFormStripsToItself();
    assert TitleAt(u, [h], 0) == u by {
      assert u[0..11] == u;
    }
    assert ContentAt(u, [h], 0) == "" by {
      assert u[11..11] == [];
      assert Strip([]) == [];
    }
  }

  /** The heading matches of `2.1. Dosage`. */
  lemma DottedFormHasOneMatch()
    ensures Matches("2.1. Dosage") == [Heading(0, 3, 5, 11)]
  {
    var u := "2.1. Dosage";
    DottedFormIsHeading();
    assert HeadingFinder(u)(0) == Some(Heading(0, 3, 5, 11));
    assert Search(HeadingFinder(u), |u|, 11) == [];
  }

  /** `2.1. Dosage` has no outer whitespace. */
  lemma DottedFormStripsToItself()
    ensures Strip("2.1. Dosage") == "2.1. Dosage"
  {
    var u := "2.1. Dosage";
    assert SkipSpace(u, 0) == 0;
    assert SkipSpaceBack(u, 0, |u|) == |u|;
  }
}
