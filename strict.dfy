/**
 * `strict_sectionwise_comparison`: pair the sections of the two documents by
 * exact title and compare each pair's contents, one result per distinct
 * title in sorted order.
 */
module Strict {
  import opened Splitter
  import opened Differ

  /** Python's `<` on `str`: lexicographic by code point, a proper prefix
      coming first. */
  predicate Less(a: string, b: string)
    decreases |a|
  {
    if a == [] then b != []
    else b != [] && (a[0] < b[0] || (a[0] == b[0] && Less(a[1..], b[1..])))
  }

  lemma {:induction false} LessIrreflexive(a: string)
    ensures !Less(a, a)
    decreases |a|
  {
    if a != [] {
      LessIrreflexive(a[1..]);
    }
  }

  lemma {:induction false} LessTransitive(a: string, b: string, c: string)
    ensures Less(a, b) && Less(b, c) ==> Less(a, c)
    decreases |a|
  {
    if a != [] && b != [] && c != [] && a[0] == b[0] && b[0] == c[0] {
      LessTransitive(a[1..], b[1..], c[1..]);
    }
  }

  lemma LessAsymmetric(a: string, b: string)
    ensures !(Less(a, b) && Less(b, a))
  {
    LessTransitive(a, b, a);
    LessIrreflexive(a);
  }

  lemma {:induction false} LessTotal(a: string, b: string)
    requires a != b
    ensures Less(a, b) || Less(b, a)
    decreases |a|
  {
    if a != [] && b != [] && a[0] == b[0] {
      assert a == [a[0]] + a[1..] && b == [b[0]] + b[1..];
      LessTotal(a[1..], b[1..]);
    }
  }

  /** `s` is in strictly increasing order, so it holds no title twice. */
  predicate StrictlyIncreasing(s: seq<string>) {
    forall i, j :: 0 <= i < j < |s| ==> Less(s[i], s[j])
  }

  /** The dictionary `{s['title']: s['content'] for s in sections}`: a later
      section with the same title overwrites an earlier one. */
  function TitleMap(sections: seq<Section>): map<string, string>
  {
    if sections == [] then map[]
    else
      var last := sections[|sections| - 1];
      TitleMap(sections[..|sections| - 1])[last.title := last.content]
  }

  /** Python's `d.get(title, '')`. */
  function Lookup(d: map<string, string>, title: string): string {
    if title in d then d[title] else ""
  }

  /** Some section of `sections` has the title `t`. */
  predicate HasTitle(sections: seq<Section>, t: string) {
    exists k :: 0 <= k < |sections| && sections[k].title == t
  }

  /** The keys of the dictionary are the titles of the sections. */
  lemma {:induction false} TitleMapKeys(sections: seq<Section>)
    ensures forall t :: t in TitleMap(sections) <==> HasTitle(sections, t)
  {
    if sections != [] {
      var init, last := sections[..|sections| - 1], sections[|sections| - 1];
      TitleMapKeys(init);
      forall t ensures t in TitleMap(sections) <==> HasTitle(sections, t) {
        if HasTitle(init, t) {
          var k :| 0 <= k < |init| && init[k].title == t;
          assert sections[k] == init[k];
        }
        if HasTitle(sections, t) && t != last.title {
          var k :| 0 <= k < |sections| && sections[k].title == t;
          assert init[k] == sections[k];
        }
      }
    }
  }

  /** Each title maps to the content of its last occurrence. */
  lemma {:induction false} LastOccurrenceWins(sections: seq<Section>, k: nat)
    requires k < |sections|
    requires forall j :: k < j < |sections| ==> sections[j].title != sections[k].title
    ensures sections[k].title in TitleMap(sections)
    ensures TitleMap(sections)[sections[k].title] == sections[k].content
  {
    var init := sections[..|sections| - 1];
    if k < |init| {
      assert sections[k] == init[k];
      forall j | k < j < |init| ensures init[j].title != init[k].title {
        assert init[j] == sections[j];
      }
      LastOccurrenceWins(init, k);
    }
  }

  /** A non-empty set of titles has a least element. */
  lemma {:induction false} Least(s: set<string>) returns (m: string)
    requires s != {}
    ensures m in s && forall x :: x in s ==> !Less(x, m)
    decreases |s|
  {
    var y :| y in s;
    var rest := s - {y};
    LessIrreflexive(y);
    if rest == {} {
      assert s == {y};
      m := y;
    } else {
      var r := Least(rest);
      if Less(y, r) {
        forall x | x in rest ensures !Less(x, y) {
          LessTransitive(x, y, r);
        }
        m := y;
      } else {
        m := r;
      }
    }
  }

  /** `sorted(titles)`: the titles in increasing order. */
  method SortTitles(titles: set<string>) returns (sorted: seq<string>)
    ensures StrictlyIncreasing(sorted)
    ensures forall t :: t in sorted <==> t in titles
  {
    sorted := [];
    var rest := titles;
    while rest != {}
      invariant StrictlyIncreasing(sorted)
      invariant forall t :: t in titles <==> t in sorted || t in rest
      invariant forall i, t :: 0 <= i < |sorted| && t in rest ==> Less(sorted[i], t)
      decreases |rest|
    {
      ghost var least := Least(rest);
      var m :| m in rest && forall x :: x in rest ==> !Less(x, m);
      forall t | t in rest - {m} ensures Less(m, t) {
        LessTotal(m, t);
      }
      sorted := sorted + [m];
      rest := rest - {m};
    }
  }

  /** The first element of a strictly increasing sequence is below all the others. */
  lemma FirstIsLeast(s: seq<string>, t: string)
    requires StrictlyIncreasing(s) && t in s
    ensures s[0] == t || Less(s[0], t)
    ensures t in s[1..] <==> t != s[0]
  {
    var i :| 0 <= i < |s| && s[i] == t;
    LessIrreflexive(s[0]);
    if i > 0 {
      assert s[1..][i - 1] == t;
    }
  }

  /** Two orderings of the same titles that are both strictly increasing are
      the same sequence: the sorted order is determined by the set alone. */
  lemma {:induction false} SortedIsUnique(s1: seq<string>, s2: seq<string>)
    requires StrictlyIncreasing(s1) && StrictlyIncreasing(s2)
    requires forall t :: t in s1 <==> t in s2
    ensures s1 == s2
    decreases |s1|
  {
    assert s1 != [] ==> s1[0] in s1;
    assert s2 != [] ==> s2[0] in s2;
    if s1 != [] && s2 != [] {
      assert s1[0] in s2 && s2[0] in s1;
      FirstIsLeast(s2, s1[0]);
      FirstIsLeast(s1, s2[0]);
      LessAsymmetric(s1[0], s2[0]);
      assert s1[0] == s2[0];
      forall t ensures t in s1[1..] <==> t in s2[1..] {
        if t in s1 {
          FirstIsLeast(s1, t);
          FirstIsLeast(s2, t);
        } else {
          assert t !in s1[1..] && t !in s2[1..];
        }
      }
      SortedIsUnique(s1[1..], s2[1..]);
      assert s1 == [s1[0]] + s1[1..] && s2 == [s2[0]] + s2[1..];
    }
  }

  /** One entry of the result: `{"section": title, **compare_section_content(...)}`. */
  datatype SectionComparison = SectionComparison(section: string, result: Comparison)

  /** The comparison for one title: each side's content by that title, or
      `''` where the side has no such section. The edit script of two
      contents is `opcodes(a, b)`. */
  function CompareTitle(cds: map<string, string>, child: map<string, string>, title: string,
                        opcodes: (string, string) -> seq<Opcode>): SectionComparison
  {
    var a, b := Lookup(cds, title), Lookup(child, title);
    SectionComparison(title, Compare(a, b, opcodes(a, b)))
  }

  function Titles(results: seq<SectionComparison>): seq<string> {
    seq(|results|, k requires 0 <= k < |results| => results[k].section)
  }

  method StrictSectionwiseComparison(cdsSections: seq<Section>, childSections: seq<Section>,
                                     opcodes: (string, string) -> seq<Opcode>)
    returns (results: seq<SectionComparison>)
    ensures StrictlyIncreasing(Titles(results))
    ensures forall t :: t in Titles(results) <==> HasTitle(cdsSections, t) || HasTitle(childSections, t)
    ensures forall k :: 0 <= k < |results| ==>
      results[k] == CompareTitle(TitleMap(cdsSections), TitleMap(childSections), results[k].section, opcodes)
  {
    var cdsDict := TitleMap(cdsSections);
    var childDict := TitleMap(childSections);
    var allTitles := SortTitles(cdsDict.Keys + childDict.Keys);
    results := CompareTitles(cdsDict, childDict, allTitles, opcodes);
    ComparisonsMeetContract(cdsSections, childSections, opcodes, allTitles, results);
  }

  /** The loop of `strict_sectionwise_comparison`: compare the two contents
      of each title in turn, `''` standing in for a missing side. */
  method CompareTitles(cdsDict: map<string, string>, childDict: map<string, string>, titles: seq<string>,
                       opcodes: (string, string) -> seq<Opcode>)
    returns (results: seq<SectionComparison>)
    ensures |results| == |titles|
    ensures forall k :: 0 <= k < |titles| ==> results[k] == CompareTitle(cdsDict, childDict, titles[k], opcodes)
  {
    results := [];
    for i := 0 to |titles|
      invariant |results| == i
      invariant forall k :: 0 <= k < i ==> results[k] == CompareTitle(cdsDict, childDict, titles[k], opcodes)
    {
      var comparison := CompareOneTitle(cdsDict, childDict, titles[i], opcodes);
      results := results + [comparison];
    }
  }

  /** One iteration of that loop: `cds_dict.get(title, "")` and
      `child_dict.get(title, "")` compared. */
  method CompareOneTitle(cdsDict: map<string, string>, childDict: map<string, string>, title: string,
                         opcodes: (string, string) -> seq<Opcode>)
    returns (comparison: SectionComparison)
    ensures comparison == CompareTitle(cdsDict, childDict, title, opcodes)
  {
    var cdsContent := Lookup(cdsDict, title);
    var childContent := Lookup(childDict, title);
    var sectionResult := CompareSectionContent(cdsContent, childContent, opcodes(cdsContent, childContent));
    comparison := SectionComparison(title, sectionResult);
  }

  /** Comparisons of the sorted titles of both lists, title by title, meet
      the contract of `StrictSectionwiseComparison`. */
  lemma ComparisonsMeetContract(cdsSections: seq<Section>, childSections: seq<Section>,
                                opcodes: (string, string) -> seq<Opcode>,
                                titles: seq<string>, results: seq<SectionComparison>)
    requires StrictlyIncreasing(titles)
    requires forall t :: t in titles <==> t in TitleMap(cdsSections).Keys + TitleMap(childSections).Keys
    requires |results| == |titles|
    requires forall k :: 0 <= k < |titles| ==>
      results[k] == CompareTitle(TitleMap(cdsSections), TitleMap(childSections), titles[k], opcodes)
    ensures StrictlyIncreasing(Titles(results))
    ensures forall t :: t in Titles(results) <==> HasTitle(cdsSections, t) || HasTitle(childSections, t)
    ensures forall k :: 0 <= k < |results| ==>
      results[k] == CompareTitle(TitleMap(cdsSections), TitleMap(childSections), results[k].section, opcodes)
  {
    assert Titles(results) == titles;
    TitleMapKeys(cdsSections);
    TitleMapKeys(childSections);
  }

  /** A title the CDS lacks is compared with `''` as the CDS content, and a
      title the child document lacks with `''` as the child content. */
  lemma MissingSideIsEmpty(cdsSections: seq<Section>, childSections: seq<Section>, t: string,
                           opcodes: (string, string) -> seq<Opcode>)
    ensures var r := CompareTitle(TitleMap(cdsSections), TitleMap(childSections), t, opcodes);
      var a, b := Lookup(TitleMap(cdsSections), t), Lookup(TitleMap(childSections), t);
      && (!HasTitle(cdsSections, t) ==> a == "" && r.result == Compare("", b, opcodes("", b)))
      && (!HasTitle(childSections, t) ==> b == "" && r.result == Compare(a, "", opcodes(a, "")))
  {
    TitleMapKeys(cdsSections);
    TitleMapKeys(childSections);
  }

  /** The result is determined by the two section lists: any two lists of
      comparisons that meet the contract of `StrictSectionwiseComparison`
      are equal. */
  lemma ComparisonIsDetermined(cdsSections: seq<Section>, childSections: seq<Section>,
                               opcodes: (string, string) -> seq<Opcode>,
                               r1: seq<SectionComparison>, r2: seq<SectionComparison>)
    requires StrictlyIncreasing(Titles(r1)) && StrictlyIncreasing(Titles(r2))
    requires forall t :: t in Titles(r1) <==> HasTitle(cdsSections, t) || HasTitle(childSections, t)
    requires forall t :: t in Titles(r2) <==> HasTitle(cdsSections, t) || HasTitle(childSections, t)
    requires forall k :: 0 <= k < |r1| ==>
      r1[k] == CompareTitle(TitleMap(cdsSections), TitleMap(childSections), r1[k].section, opcodes)
    requires forall k :: 0 <= k < |r2| ==>
      r2[k] == CompareTitle(TitleMap(cdsSections), TitleMap(childSections), r2[k].section, opcodes)
    ensures r1 == r2
  {
    SortedIsUnique(Titles(r1), Titles(r2));
    assert |r1| == |Titles(r1)| && |r2| == |Titles(r2)|;
    forall k | 0 <= k < |r1| ensures r1[k] == r2[k] {
      assert Titles(r1)[k] == Titles(r2)[k];
    }
  }
}
