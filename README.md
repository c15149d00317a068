# Section pipeline of the CDS comparison backend

This project is a Dafny model of the local section pipeline in `main.py`. The backend compares a
Company Core Data Sheet (CDS) with a child document, such as a national label. Apart from the
summariser calls in `match_and_summarize_sections`, which the model takes as the function
parameter `summarize`, the pipeline does no network work. It:

- cuts each document's extracted text into numbered `{title, content}` sections (`split_into_sections`);
- sorts an edit script of two section contents into omitted, added and modified text
  (`compare_section_content`);
- pairs the sections of two documents by exact title (`strict_sectionwise_comparison`) or by best
  content similarity (`find_best_match`, `match_and_summarize_sections`);
- renders a word-level diff token stream as two highlighted strings (`highlight_differences`).

Each looping function of the source becomes a Dafny `method`. Its loop reproduces the source's
accumulators, and its `ensures` ties the result to a specification function. Lemmas then prove
properties of those functions:

- order, coverage and classification;
- counts;
- what each item of the result holds.

Modules:

- `Wrappers`: `Option`.
- `Text`: the Python string operations used.
  - `str.isspace`
  - `strip`
  - slicing with clamped bounds
  - `' '.join`
  - `startswith`
- `Headings`: the heading pattern `\d+(?:\.\d+)*\.\s+[^\n]+`, written as a hand matcher. It
  includes the backtracking of `\s+` when whitespace runs to the end of the text. It is proved to
  report the longest reading of the pattern at a position, and to report one whenever a reading
  exists.
- `Splitter`: leftmost non-overlapping search (`re.finditer`), and `split_into_sections`.
- `Differ`: `compare_section_content`, over an edit script given as input.
- `Highlight`: `highlight_differences`, over a `difflib.Differ` token stream given as input.
- `Strict`: `strict_sectionwise_comparison`, with Python's string order and `sorted` on a set.
- `Matcher`: `find_best_match` and `match_and_summarize_sections`.
  - The similarity ratio is a function parameter with values in [0, 1].
  - The summariser is a function parameter of the two contents.

Where the code differs from its own comments or from what its names suggest, the model follows the code:

- A text with no heading, including the empty text, gives no sections at all.
- A found `best_match` is a non-empty dictionary and so truthy; when none is found the score is 0.
  Only the score decides whether a CDS section is paired.
- Child sections are never removed from the candidates, so one child section can be paired with
  several CDS sections.
- The comment at `main.py:84` calls `2.1 ` a heading, but the pattern demands a period right
  before the whitespace. `2.1 Dosage` yields no section, while `2.1. Dosage` is a heading
  (`CommentFormIsNoHeading`, `DottedFormIsOneSection`).

## Model

| member | source | states |
|---|---|---|
| Text.IsSpace | main.py:85-92 | the characters Python's `str.isspace()` accepts, which are also the class `\s` of a pattern over `str` |
| Text.Strip | main.py:91-92 | Python's `s.strip()`: the slice between the leading and the trailing run of `isspace` characters |
| Text.StripRemovesOuterSpace | main.py:91-92 | `strip()` removes only leading and trailing whitespace; a non-empty result neither starts nor ends with whitespace; the result is empty exactly when the text is all whitespace |
| Text.StripIdempotent | main.py:91-92 | stripping twice is stripping once |
| Text.StripOfSlice | main.py:92 | stripping a slice of the text keeps a slice of the text, and what it drops at either end is whitespace |
| Text.Slice | main.py:120-131 | Python slicing with non-negative bounds: in range it is the subsequence; a stop past the end stops at the end; it is empty when the start is past the end of the string or not before the stop |
| Text.Join | main.py:109 | `' '.join` of no words is empty, and of one word is that word |
| Text.JoinLength | main.py:109 | the joined string is as long as all the words together plus one separator between each two neighbours |
| Text.SkipSpacePastSpaces | main.py:85 | the greedy `\s+` runs past every whitespace character of a run |
| Text.StartsWith | main.py:102-106 | Python's `s.startswith(prefix)`: the prefix is no longer than `s` and equals its first characters |
| Text.IsDigit | main.py:85 | the class `\d` of the pattern, restricted to the ASCII digits `0`-`9` |
| Text.AllSpace | main.py:92 | every character is whitespace, which is when `strip()` leaves nothing |
| Text.SkipSpace | main.py:85-92 | the end of the run of whitespace that starts at a position: the greedy `\s+` of the pattern, and where `strip()` starts keeping characters; it never moves backwards nor past the end |
| Text.SkipSpaceBack | main.py:91-92 | the start of the run of whitespace that ends at a position, never before a lower bound: where `strip()` stops keeping characters |
| Text.StripStart | main.py:91-92 | the first position `strip()` keeps |
| Text.StripEnd | main.py:91-92 | the position where `strip()` stops keeping, never before its start nor past the end |
| Text.TotalLength | main.py:109 | the number of characters of all the words that `' '.join` joins |
| Headings.IsParse | main.py:85 | a span reads as the pattern: a numeral of digit groups joined by single periods, the final period, at least one whitespace character, then at least one character that is not a newline |
| Headings.NumeralEnd | main.py:85 | the greedy `\d+(?:\.\d+)*` ends where no further digit, and no period followed by a digit, can extend it |
| Headings.LastNonNewline | main.py:85 | the backtracking point of `\s+`: the last non-newline position in a range, with only newlines after it |
| Headings.LineEnd | main.py:85 | the greedy `[^\n]+` runs to the first newline at or after its start, or to the end of the text |
| Headings.MatchAt | main.py:85-86 | a match tried at `p` starts at `p` and ends inside the text |
| Headings.MatchAtIsParse | main.py:85-86 | every reported match reads as numeral, final period, whitespace and heading words, and ends at a newline or at the end of the text |
| Headings.SpaceIsNotDigit | main.py:85 | no digit is whitespace, so the numeral cannot run into the whitespace after it |
| Headings.NumeralBeforePeriodIsLongest | main.py:85 | the numeral before the final period is the longest numeral at the match start |
| Headings.MatchAtIsLongestParse | main.py:85-86 | the engine reports a match at `p` whenever some reading of the pattern fits there, and the reported match is the longest such reading |
| Headings.IsNumeral | main.py:85 | `\d+(?:\.\d+)*`: one or more digit groups joined by single periods |
| Headings.DigitsEnd | main.py:85 | the greedy `\d+`: all characters before its end are digits and the one at its end, if any, is not |
| Splitter.Search | main.py:86 | `re.finditer`: try the pattern at each position in turn and, after a match, resume at its end |
| Splitter.HeadingFinder | main.py:86 | the matcher reports, at each position, only a match that starts there and ends inside the text; it is `MatchAt` |
| Splitter.LeftmostCons | main.py:86 | a match at `pos` followed by the leftmost matches from its end are the leftmost matches from `pos` |
| Splitter.LeftmostTail | main.py:86 | dropping the first of the leftmost matches leaves the leftmost matches from its end |
| Splitter.SearchIsLeftmost | main.py:86 | the `finditer` search yields leftmost, non-overlapping, in-order matches, and nothing matches at any position they leave uncovered |
| Splitter.LeftmostSkip | main.py:86 | a position where nothing matches can be added in front of the leftmost matches from the next position |
| Splitter.StartsAfterFirst | main.py:86 | no leftmost match starts before the first one |
| Splitter.LeftmostIsSearch | main.py:86 | the leftmost non-overlapping matches are unique, so they are exactly what the search yields |
| Splitter.FirstIsAtPos | main.py:86 | a match reported at the search position is the first match yielded |
| Splitter.MatchesAreLeftmost | main.py:86 | the heading matches of a text are its leftmost non-overlapping matches, each reported by `MatchAt` at its own start |
| Splitter.FindHeadings | main.py:86 | the hand scanner returns exactly the leftmost non-overlapping heading matches |
| Splitter.FindAll | main.py:86 | the `finditer` loop (try each position, resume after a match) returns exactly the search's matches |
| Splitter.MatchesAreOrdered | main.py:86-90 | the matches lie inside the text, in order and without overlap |
| Splitter.MatchesAreParses | main.py:85-86 | each match is a reading of the heading pattern |
| Splitter.TitleAt | main.py:89-91 | the stripped title fits inside its match, which ends before the section's end |
| Splitter.ContentAt | main.py:90-92 | `text[start+len(title):end].strip()`, where `end` is the next match's start or the end of the text |
| Splitter.SectionsOf | main.py:83-94 | one section per heading match, in order, titled by `TitleAt` and holding `ContentAt` |
| Splitter.SplitIntoSections | main.py:83-94 | the result is one section per heading match, in text order, as `SectionsOf` defines |
| Splitter.CutAtHeadings | main.py:88-94 | the loop appends, for each match in order, the stripped match as the title and the stripped text from the end of the title to the next match's start (or to the end of the text) as the content |
| Splitter.SectionIs | main.py:89-93 | the section built at step `i` of the loop is the `i`-th section of the specification |
| Splitter.TitleKeepsNumeralAndPeriod | main.py:91 | each title starts where its match starts, is a prefix slice of the text, and keeps the whole numeral and the final period |
| Splitter.ContentLiesBeforeNextHeading | main.py:90-92 | a content stops at the start of the next match, so it holds no part of a later heading; it is the gap after the title with only whitespace dropped at both ends |
| Splitter.NoHeadingNoSections | main.py:86-94 | there are no sections exactly when the pattern matches at no position; in particular, empty and heading-free texts give none |
| Splitter.NoPeriodBeforeSpaceNoSections | main.py:85 | the final period is required: a text where no period is followed by whitespace has no sections |
| Splitter.CommentFormIsNoHeading | main.py:84-85 | `2.1 Dosage` yields no section, although the comment calls that form a heading |
| Splitter.DottedFormIsHeading | main.py:85 | the match at position 0 of `2.1. Dosage` has the numeral `2.1`, the final period at offset 3, the heading words from offset 5, and ends at the end of the text |
| Splitter.DottedFormHasOneMatch | main.py:85-86 | `2.1. Dosage` has exactly one heading match, spanning the whole text |
| Splitter.DottedFormIsOneSection | main.py:83-94 | `split_into_sections("2.1. Dosage")` is one section titled `2.1. Dosage` with empty content |
| Splitter.IsMatcher | main.py:86 | the matcher `finditer` drives: at each position of the text it reports at most one match, which starts there, ends inside the text and is not empty |
| Splitter.Matches | main.py:86 | `list(re.finditer(pattern, text))`: the search from position 0 with the heading matcher |
| Splitter.Uncovered | main.py:86 | a position inside none of the matches, which is where `finditer` tried the pattern and failed |
| Splitter.LeftmostMatches | main.py:86 | the matches `finditer` reports: each is the matcher's match at its start, they come in text order without overlapping, and the matcher reports nothing at any position none of them covers |
| Splitter.ContentEnd | main.py:90 | the next match's start, or `len(text)` after the last match |
| Splitter.Ordered | main.py:86-90 | the matches do not overlap and lie inside the text, so each content slice is well formed |
| Splitter.Sections | main.py:88-93 | one section per given match, in order: the stripped match as title and `ContentAt` as content |
| Splitter.DottedFormStripsToItself | main.py:91 | the title `2.1. Dosage` has no outer whitespace, so `strip()` keeps it whole |
| Differ.Bullet | main.py:124-134 | the three f-strings: `Modified: "x" → "y"`, `Omitted in child: "x"` and `Added in child: "y"` |
| Differ.Compare | main.py:111-143 | the returned dictionary: the bullets, the three lists of the differences the opcodes record in order, and `no_difference` exactly when the three lists are empty |
| Differ.ChangeOf | main.py:118-134 | `equal` records nothing; an omission comes only from a `delete`, an addition only from an `insert`, and a modification only from a `replace`, each carrying its non-empty stripped span or spans |
| Differ.CompareSectionContent | main.py:111-143 | the loop over the opcodes builds exactly the comparison `Compare` defines |
| Differ.ChangesExtend | main.py:118 | one more opcode appends its own difference, if any, at the end |
| Differ.AppendOne | main.py:122-134 | one more difference appends one bullet, and appends its text to the single list of its kind |
| Differ.OneListPerChange | main.py:116-134 | every difference gives exactly one bullet and exactly one entry in exactly one of the three lists |
| Differ.SummaryCountsEntries | main.py:116-134 | the summary has as many bullets as `cds_only`, `child_only` and `modified` have entries together |
| Differ.BulletsInOrder | main.py:124-134 | the `k`-th bullet describes the `k`-th difference, so bullets follow opcode order |
| Differ.FlattenKeepsRecorded | main.py:118-134 | a difference is kept exactly when some opcode recorded it |
| Differ.ChangesFromOpcodes | main.py:118-134 | a difference is among the recorded ones exactly when some opcode yields it |
| Differ.ListsHoldTheirKind | main.py:122-134 | each list holds exactly the texts of its own kind of difference |
| Differ.Classification | main.py:118-134 | `cds_only` holds exactly the non-empty stripped spans of `delete` opcodes, `child_only` those of `insert` opcodes, and `modified` exactly the pairs from `replace` opcodes whose two stripped spans are both non-empty |
| Differ.NoDifferenceIffEmptySummary | main.py:136 | `no_difference` holds exactly when the summary is empty, and exactly when no opcode records a difference |
| Differ.AllEqualNoDifference | main.py:118-143 | an edit script of `equal` opcodes only gives empty lists, an empty summary and `no_difference` |
| Differ.FlattenOfConcat | main.py:118 | keeping the recorded differences distributes over concatenation |
| Differ.ChangesOfConcat | main.py:118-134 | opcodes are read independently and in order: splitting the script splits the differences |
| Differ.BulletsOfConcat | main.py:124-134 | the bullets of concatenated differences are the concatenated bullets |
| Differ.OmittedTextsOfConcat | main.py:128 | `cds_only` of concatenated differences is the concatenation |
| Differ.AddedTextsOfConcat | main.py:133 | `child_only` of concatenated differences is the concatenation |
| Differ.ModificationsOfConcat | main.py:123 | `modified` of concatenated differences is the concatenation |
| Differ.CompareOfConcat | main.py:111-143 | comparing under a concatenated script concatenates the summary and each list, and `no_difference` is the conjunction |
| Differ.BulletTellsKind | main.py:124-134 | each bullet starts with `Modified: "`, `Omitted in child: "` or `Added in child: "`, exactly according to its kind |
| Differ.BulletQuotesText | main.py:129-134 | the text of an omission or an addition sits quoted right after its prefix |
| Differ.ModifiedBulletIsAmbiguous | main.py:124 | two different modifications can give the same bullet, so the bullet alone does not determine the pair |
| Differ.CdsSpan | main.py:120-126 | `cds_content[i1:i2].strip()`: the stripped CDS span of an opcode |
| Differ.ChildSpan | main.py:121-131 | `child_content[j1:j2].strip()`: the stripped child span of an opcode |
| Differ.AsSeq | main.py:122-134 | an opcode adds one entry or none |
| Differ.Recorded | main.py:118-134 | what each opcode adds, opcode by opcode, in the order of `get_opcodes()` |
| Differ.Flatten | main.py:118-134 | the added entries in order, with the opcodes that add nothing left out |
| Differ.Changes | main.py:118-134 | the differences the edit script records, in opcode order |
| Differ.Bullets | main.py:116-134 | `summary`: one bullet per recorded difference, in the same order |
| Differ.OmittedTexts | main.py:113-129 | `cds_only`: the stripped texts of the deletions, in order |
| Differ.AddedTexts | main.py:114-134 | `child_only`: the stripped texts of the insertions, in order |
| Differ.Modifications | main.py:115-123 | `modified`: the pairs of stripped texts of the replacements, in order |
| Highlight.KindOf | main.py:102-106 | the code of a token is tested as `'- '`, then `'+ '`, then `'  '`; anything else is no code the loop handles |
| Highlight.Green | main.py:103 | a CDS-only word wrapped in the green span |
| Highlight.Red | main.py:105 | a child-only word wrapped in the red span |
| Highlight.CdsPieces | main.py:101-107 | `cds_highlighted` after the loop: per token in order, the green-wrapped word of a `'- '` token or the bare word of a `'  '` token |
| Highlight.ChildPieces | main.py:101-108 | `child_highlighted` after the loop: per token in order, the red-wrapped word of a `'+ '` token or the bare word of a `'  '` token |
| Highlight.HighlightDifferences | main.py:96-109 | the two outputs are the CDS and child piece lists joined with single spaces |
| Highlight.RoutesEachToken | main.py:101-108 | a `'- '` token goes only to the CDS output in the green span; a `'+ '` token only to the child output in the red span; a `'  '` token to both unchanged; any other token to neither |
| Highlight.PiecesOfConcat | main.py:101-108 | each output of a concatenated stream is the concatenation, so tokens keep their relative order |
| Highlight.CdsPiecesOfConcat | main.py:101-107 | the CDS pieces of a concatenated stream are the concatenation |
| Highlight.ChildPiecesOfConcat | main.py:101-108 | the child pieces of a concatenated stream are the concatenation |
| Highlight.PiecesCountTokens | main.py:101-108 | the CDS output has one piece per `'- '` and `'  '` token; the child output one per `'+ '` and `'  '` token |
| Highlight.NoChangeSameRendering | main.py:101-109 | without `'- '` and `'+ '` tokens both outputs have the same pieces, the words of the `'  '` tokens |
| Highlight.Count | main.py:101-108 | the number of tokens of the diff that carry a given two-character code |
| Highlight.CommonWords | main.py:106-108 | the words of the `'  '` tokens, in order, which both sides show |
| Strict.Less | main.py:148 | Python's `<` on `str`, which `sorted` uses: lexicographic by code point, a proper prefix first |
| Strict.LessIrreflexive | main.py:148 | no title sorts before itself |
| Strict.LessTransitive | main.py:148 | the string order is transitive |
| Strict.LessAsymmetric | main.py:148 | two titles never sort before each other |
| Strict.LessTotal | main.py:148 | of two different titles, one sorts before the other |
| Strict.TitleMap | main.py:146-147 | `{s['title']: s['content'] for s in sections}`: the sections in order, a later one overwriting an earlier one with the same title |
| Strict.Lookup | main.py:151-152 | `d.get(title, '')` |
| Strict.TitleMapKeys | main.py:146-147 | the dictionary's keys are exactly the titles of the sections |
| Strict.LastOccurrenceWins | main.py:146-147 | a repeated title maps to the content of its last occurrence |
| Strict.Least | main.py:148 | a non-empty set of titles has a least title |
| Strict.SortTitles | main.py:148 | `sorted` of the title union is strictly increasing and holds exactly the titles of the set |
| Strict.FirstIsLeast | main.py:148 | the first title of a strictly increasing list sorts before all the others |
| Strict.SortedIsUnique | main.py:148 | two strictly increasing orderings of the same titles are equal |
| Strict.StrictSectionwiseComparison | main.py:145-158 | one result per distinct title of either list, in strictly increasing title order, so no title twice; each result compares the two dictionaries' contents for its title, `''` standing in for a missing side |
| Strict.CompareTitles | main.py:150-157 | the loop yields, for each title in turn, the comparison of its two looked-up contents |
| Strict.CompareOneTitle | main.py:151-157 | one iteration compares `cds_dict.get(title, '')` with `child_dict.get(title, '')` and tags the result with the title |
| Strict.ComparisonsMeetContract | main.py:146-157 | comparing the sorted title union title by title meets the contract of the whole function |
| Strict.MissingSideIsEmpty | main.py:151-153 | a title missing from one list is compared against `''` on that side |
| Strict.ComparisonIsDetermined | main.py:145-158 | any two results meeting that contract are equal: the output is determined by the two section lists |
| Strict.StrictlyIncreasing | main.py:148 | `sorted(set(...))`: in increasing order, with no title twice |
| Strict.HasTitle | main.py:146-148 | some section of a list has the given title, which is when the title is a key of its dictionary |
| Strict.CompareTitle | main.py:151-157 | one iteration's result: the title, with the comparison of `d.get(title, '')` on both sides |
| Strict.Titles | main.py:154-155 | the `section` field of each result, in order |
| Matcher.BestUpTo | main.py:160-168 | the search state after `n` candidates names one of those candidates, if any |
| Matcher.BestIsFirstMaximum | main.py:160-168 | the best score bounds every candidate's score; no candidate means score 0; a chosen candidate has that score, above 0, and every earlier candidate scores strictly less, so the first maximal candidate wins |
| Matcher.NoPositiveScoreNoMatch | main.py:161-168 | there is no best match exactly when there is no candidate or every score is 0 |
| Matcher.FindBestMatch | main.py:160-168 | the loop returns the candidate and score of the specification search; a returned candidate is an element of the candidates |
| Matcher.IndexOf | main.py:199 | `list.index`: the first position holding the element |
| Matcher.IndexOfBestIsBest | main.py:189-199 | `.index` of the best match finds the best match's own position, since an earlier equal section would have won first |
| Matcher.MatchOf | main.py:189-199 | a paired child position is a position of the child list |
| Matcher.UsedUpTo | main.py:187-199 | `used_child_indices` only holds positions of the child list |
| Matcher.CdsRow | main.py:189-208 | the row of a CDS section: paired with the best match and the summary of both contents when the best score is above 0.5, otherwise with no child title, empty child content and the summary against `''` |
| Matcher.ChildRow | main.py:212-219 | the row of an unpaired child section: no CDS title, empty CDS content, and the summary of `''` against its content |
| Matcher.MatchAndSummarize | main.py:185-220 | the rows of the CDS sections in order, then the rows of the child sections whose positions were never used, in position order |
| Matcher.MatchAndSummarizeSections | main.py:185-220 | the two loops build exactly the rows `MatchAndSummarize` defines |
| Matcher.SummarizeOneSection | main.py:189-208 | one iteration of the first loop gives the row of the CDS section and the child position it adds to `used_child_indices`, if any |
| Matcher.UnusedIsIncreasingComplement | main.py:210-211 | the unused positions are exactly the positions not in `used_child_indices`, each once and in increasing order |
| Matcher.UnusedCount | main.py:210-211 | used and unused positions below `n` add up to `n` |
| Matcher.TrailingRowsAtUnused | main.py:210-219 | the trailing rows are the rows of the child sections at the unused positions, in order, each with no CDS title and empty CDS content |
| Matcher.ResultShape | main.py:185-220 | all of the following: row `i` carries CDS section `i`; it is paired exactly when the best score is strictly above 0.5, and then carries the best match and the summary of both contents; otherwise it has no child title, empty child content and the summary against `''`; the unpaired child sections follow in position order |
| Matcher.UsedIsPaired | main.py:187-199 | a child position is used exactly when some CDS section is paired with it |
| Matcher.EveryChildAccountedFor | main.py:185-220 | each child section is either paired or has its own trailing row; the result has as many rows as CDS sections and child sections together, less the used positions |
| Matcher.OneChildPairedTwice | main.py:188-199 | candidates are never removed: two CDS sections with equal content both pair with the same child section |
| Matcher.HalfIsNotEnough | main.py:190 | a score of exactly 0.5 pairs nothing, and every child section then gets its own row |
| Matcher.Score | main.py:164 | the ratio of the section's content against the candidate's content, in that order |
| Matcher.Unused | main.py:210-211 | the child positions below a bound that are not in `used_child_indices`, in increasing order |
| Matcher.TrailingRows | main.py:210-219 | the rows of the child sections at the unused positions, in position order, each summarised against an empty CDS side |

## Left out

- The FastAPI application, CORS, environment loading and the `/compare` endpoint (main.py:11-22,
  222-260): HTTP and I/O plumbing.
- Printing in the endpoint (main.py:250, 259): output only.
- PDF and Word extraction (main.py:24-36): foreign libraries.
- The Gemini calls (main.py:38-81, 170-183): network calls.
  - `summarize_section_with_gemini` becomes the function parameter `summarize` of the two
    contents. It is assumed to be deterministic, and its `api_key` argument is dropped.
  - `compare_with_gemini` is not part of this model.
- `difflib` internals: an unseen library with floating-point results.
  - `SequenceMatcher.get_opcodes()` is an input, a list of tagged ranges. The model does not
    require the ranges to tile the two strings, so every proved property holds for any opcode
    list.
  - In `strict_sectionwise_comparison` the edit script is a function parameter of the two
    contents.
  - `SequenceMatcher.ratio()` is a function parameter with real values in [0, 1]. Nothing is
    claimed about its formula or its symmetry.
  - `Differ.compare` over `str.split()` words is an input token stream.
- Text.IsDigit (and so Headings.IsNumeral): `\d` is modelled as the ASCII digits. Python's `re` also matches other
  Unicode decimal digits in `str` patterns.
- Floating-point rounding: scores are exact reals.
- Splitter.FindAll, Splitter.CutAtHeadings, Strict.CompareTitles, Strict.CompareOneTitle and
  Matcher.SummarizeOneSection hold a loop, or a loop body, of the source function as a separate
  method. This keeps each proof small; the order of the steps is the source's.
