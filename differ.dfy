/**
 * `compare_section_content`: sort the edit script that `difflib` computes for
 * two section contents into text present only in the CDS, text present only
 * in the child document and modified text, and describe each difference with
 * one bullet of the summary.
 *
 * The edit script (`SequenceMatcher.get_opcodes()`) is an input here: a list
 * of tagged ranges over the two strings.
 */
module Differ {
  import opened Text
  import opened Wrappers

  datatype Tag = Replace | Delete | Insert | Equal

  /** One opcode `(tag, i1, i2, j1, j2)`: the CDS range `[i1, i2)` and the
      child range `[j1, j2)`. */
  datatype Opcode = Opcode(tag: Tag, i1: nat, i2: nat, j1: nat, j2: nat)

  /** An entry of `modified`: `{"cds": ..., "child": ...}`. */
  datatype Modification = Modification(cds: string, child: string)

  /** The dictionary `compare_section_content` returns. */
  datatype Comparison = Comparison(
    summary: seq<string>,
    cdsOnly: seq<string>,
    childOnly: seq<string>,
    modified: seq<Modification>,
    noDifference: bool)

  /** A difference one opcode contributes. */
  datatype Change = Omitted(cds: string) | Added(child: string) | Modified(cds: string, child: string)

  /** The stripped CDS text an opcode covers. */
  function CdsSpan(cds: string, op: Opcode): string {
    Strip(Slice(cds, op.i1, op.i2))
  }

  /** The stripped child text an opcode covers. */
  function ChildSpan(child: string, op: Opcode): string {
    Strip(Slice(child, op.j1, op.j2))
  }

  /** The difference an opcode records, if any: a replacement needs text on
      both sides, a deletion or insertion text on its own side; `equal`
      records nothing. */
  function ChangeOf(cds: string, child: string, op: Opcode): (c: Option<Change>)
    ensures op.tag == Equal ==> c == None
    ensures c.Some? && c.value.Omitted? ==> op.tag == Delete && c.value.cds == CdsSpan(cds, op) != []
    ensures c.Some? && c.value.Added? ==> op.tag == Insert && c.value.child == ChildSpan(child, op) != []
    ensures c.Some? && c.value.Modified? ==>
      op.tag == Replace && c.value.cds == CdsSpan(cds, op) != [] && c.value.child == ChildSpan(child, op) != []
  {
    match op.tag
    case Replace =>
      var x := CdsSpan(cds, op);
      var y := ChildSpan(child, op);
      if x != [] && y != [] then Some(Modified(x, y)) else None
    case Delete =>
      var x := CdsSpan(cds, op);
      if x != [] then Some(Omitted(x)) else None
    case Insert =>
      var y := ChildSpan(child, op);
      if y != [] then Some(Added(y)) else None
    case Equal => None
  }

  /** `[c]` for a `Some(c)`, `[]` for `None`. */
  function AsSeq(c: Option<Change>): seq<Change> {
    if c.Some? then [c.value] else []
  }

  /** What each opcode records, opcode by opcode. */
  function Recorded(cds: string, child: string, ops: seq<Opcode>): seq<Option<Change>>
  {
    seq(|ops|, k requires 0 <= k < |ops| => ChangeOf(cds, child, ops[k]))
  }

  /** The recorded differences, in order, without the gaps. */
  function Flatten(rs: seq<Option<Change>>): seq<Change>
  {
    if rs == [] then [] else Flatten(rs[..|rs| - 1]) + AsSeq(rs[|rs| - 1])
  }

  /** The differences an edit script records, in opcode order. */
  function Changes(cds: string, child: string, ops: seq<Opcode>): seq<Change>
  {
    Flatten(Recorded(cds, child, ops))
  }

  /** The summary bullet of one difference. */
  function Bullet(c: Change): string {
    match c
    case Modified(x, y) => "Modified: \"" + x + "\" \U{2192} \"" + y + "\""
    case Omitted(x) => "Omitted in child: \"" + x + "\""
    case Added(y) => "Added in child: \"" + y + "\""
  }

  function Bullets(cs: seq<Change>): seq<string> {
    if cs == [] then [] else Bullets(cs[..|cs| - 1]) + [Bullet(cs[|cs| - 1])]
  }

  function OmittedTexts(cs: seq<Change>): seq<string> {
    if cs == [] then []
    else OmittedTexts(cs[..|cs| - 1]) + (if cs[|cs| - 1].Omitted? then [cs[|cs| - 1].cds] else [])
  }

  function AddedTexts(cs: seq<Change>): seq<string> {
    if cs == [] then []
    else AddedTexts(cs[..|cs| - 1]) + (if cs[|cs| - 1].Added? then [cs[|cs| - 1].child] else [])
  }

  function Modifications(cs: seq<Change>): seq<Modification> {
    if cs == [] then []
    else
      var last := cs[|cs| - 1];
      Modifications(cs[..|cs| - 1]) + (if last.Modified? then [Modification(last.cds, last.child)] else [])
  }

  /** What `compare_section_content(cds, child)` returns for the edit script `ops`. */
  function Compare(cds: string, child: string, ops: seq<Opcode>): Comparison
  {
    var cs := Changes(cds, child, ops);
    var omitted := OmittedTexts(cs);
    var added := AddedTexts(cs);
    var modified := Modifications(cs);
    Comparison(Bullets(cs), omitted, added, modified, omitted == [] && added == [] && modified == [])
  }

  method CompareSectionContent(cdsContent: string, childContent: string, opcodes: seq<Opcode>)
    returns (r: Comparison)
    ensures r == Compare(cdsContent, childContent, opcodes)
  {
    var cdsOnly: seq<string> := [];
    var childOnly: seq<string> := [];
    var modified: seq<Modification> := [];
    var summary: seq<string> := [];
    ghost var cs: seq<Change> := [];
    for k := 0 to |opcodes|
      invariant cs == Changes(cdsContent, childContent, opcodes[..k])
      invariant cdsOnly == OmittedTexts(cs) && childOnly == AddedTexts(cs)
      invariant modified == Modifications(cs) && summary == Bullets(cs)
    {
      var op := opcodes[k];
      ChangesExtend(cdsContent, childContent, opcodes, k);
      match op.tag
      case Replace =>
        var cdsText := Strip(Slice(cdsContent, op.i1, op.i2));
        var childText := Strip(Slice(childContent, op.j1, op.j2));
        if cdsText != [] && childText != [] {
          AppendOne(cs, Modified(cdsText, childText));
          modified := modified + [Modification(cdsText, childText)];
          summary := summary + [Bullet(Modified(cdsText, childText))];
          cs := cs + [Modified(cdsText, childText)];
        }
      case Delete =>
        var cdsText := Strip(Slice(cdsContent, op.i1, op.i2));
        if cdsText != [] {
          AppendOne(cs, Omitted(cdsText));
          cdsOnly := cdsOnly + [cdsText];
          summary := summary + [Bullet(Omitted(cdsText))];
          cs := cs + [Omitted(cdsText)];
        }
      case Insert =>
        var childText := Strip(Slice(childContent, op.j1, op.j2));
        if childText != [] {
          AppendOne(cs, Added(childText));
          childOnly := childOnly + [childText];
          summary := summary + [Bullet(Added(childText))];
          cs := cs + [Added(childText)];
        }
      case Equal =>
    }
    assert opcodes[..|opcodes|] == opcodes;
    var noDifference := !(cdsOnly != [] || childOnly != [] || modified != []);
    r := Comparison(summary, cdsOnly, childOnly, modified, noDifference);
  }

  /** One more opcode adds its own difference, if any, at the end. */
  lemma ChangesExtend(cds: string, child: string, ops: seq<Opcode>, k: nat)
    requires k < |ops|
    ensures Changes(cds, child, ops[..k + 1]) == Changes(cds, child, ops[..k]) + AsSeq(ChangeOf(cds, child, ops[k]))
  {
    var rs := Recorded(cds, child, ops[..k + 1]);
    assert rs[..k] == Recorded(cds, child, ops[..k]);
  }

  /** Appending one difference appends its bullet, and its text to the one
      list its kind selects. */
  lemma AppendOne(cs: seq<Change>, c: Change)
    ensures Bullets(cs + [c]) == Bullets(cs) + [Bullet(c)]
    ensures OmittedTexts(cs + [c]) == OmittedTexts(cs) + (if c.Omitted? then [c.cds] else [])
    ensures AddedTexts(cs + [c]) == AddedTexts(cs) + (if c.Added? then [c.child] else [])
    ensures Modifications(cs + [c]) == Modifications(cs) + (if c.Modified? then [Modification(c.cds, c.child)] else [])
  {
    assert (cs + [c])[..|cs|] == cs;
  }

  /** Each difference yields exactly one bullet and exactly one entry in one
      of the three lists. */
  lemma {:induction false} OneListPerChange(cs: seq<Change>)
    ensures |Bullets(cs)| == |cs| == |OmittedTexts(cs)| + |AddedTexts(cs)| + |Modifications(cs)|
  {
    if cs != [] {
      OneListPerChange(cs[..|cs| - 1]);
    }
  }

  /** The summary has one bullet per entry of `cds_only`, `child_only` and
      `modified`. */
  lemma SummaryCountsEntries(cds: string, child: string, ops: seq<Opcode>)
    ensures var r := Compare(cds, child, ops);
      |r.summary| == |r.cdsOnly| + |r.childOnly| + |r.modified|
  {
    OneListPerChange(Changes(cds, child, ops));
  }

  /** The `k`-th bullet describes the `k`-th difference, so bullets keep
      opcode order. */
  lemma {:induction false} BulletsInOrder(cs: seq<Change>, k: nat)
    requires k < |cs|
    ensures |Bullets(cs)| == |cs| && Bullets(cs)[k] == Bullet(cs[k])
  {
    OneListPerChange(cs);
    if k < |cs| - 1 {
      BulletsInOrder(cs[..|cs| - 1], k);
    }
  }

  /** A difference is among the flattened ones exactly when it is recorded
      somewhere. */
  lemma {:induction false} FlattenKeepsRecorded(rs: seq<Option<Change>>, c: Change)
    ensures c in Flatten(rs) <==> exists k :: 0 <= k < |rs| && rs[k] == Some(c)
  {
    if rs != [] {
      var init := rs[..|rs| - 1];
      FlattenKeepsRecorded(init, c);
      if exists k :: 0 <= k < |rs| && rs[k] == Some(c) {
        var k :| 0 <= k < |rs| && rs[k] == Some(c);
        if k < |init| {
          assert init[k] == rs[k];
        }
      }
    }
  }

  /** A difference is recorded exactly when some opcode records it. */
  lemma ChangesFromOpcodes(cds: string, child: string, ops: seq<Opcode>, c: Change)
    ensures c in Changes(cds, child, ops) <==> exists k :: 0 <= k < |ops| && ChangeOf(cds, child, ops[k]) == Some(c)
  {
    var rs := Recorded(cds, child, ops);
    FlattenKeepsRecorded(rs, c);
    assert forall k :: 0 <= k < |ops| ==> rs[k] == ChangeOf(cds, child, ops[k]);
  }

  /** The three lists keep the texts of their own kind of difference. */
  lemma {:induction false} ListsHoldTheirKind(cs: seq<Change>)
    ensures forall s :: s in OmittedTexts(cs) <==> Omitted(s) in cs
    ensures forall s :: s in AddedTexts(cs) <==> Added(s) in cs
    ensures forall x, y :: Modification(x, y) in Modifications(cs) <==> Modified(x, y) in cs
  {
    if cs != [] {
      ListsHoldTheirKind(cs[..|cs| - 1]);
      assert cs == cs[..|cs| - 1] + [cs[|cs| - 1]];
    }
  }

  /** `cds_only` holds exactly the non-empty stripped texts of the `delete`
      opcodes, `child_only` those of the `insert` opcodes, and `modified`
      exactly the pairs of a `replace` whose two stripped texts are both
      non-empty. So `equal` opcodes, and a replacement with one side blank,
      contribute to no list. */
  lemma Classification(cds: string, child: string, ops: seq<Opcode>)
    ensures var r := Compare(cds, child, ops);
      forall s :: s in r.cdsOnly <==>
        exists k :: 0 <= k < |ops| && ops[k].tag == Delete && s == CdsSpan(cds, ops[k]) && s != []
    ensures var r := Compare(cds, child, ops);
      forall s :: s in r.childOnly <==>
        exists k :: 0 <= k < |ops| && ops[k].tag == Insert && s == ChildSpan(child, ops[k]) && s != []
    ensures var r := Compare(cds, child, ops);
      forall x, y :: Modification(x, y) in r.modified <==>
        exists k :: 0 <= k < |ops| && ops[k].tag == Replace &&
          x == CdsSpan(cds, ops[k]) && y == ChildSpan(child, ops[k]) && x != [] && y != []
  {
    var cs := Changes(cds, child, ops);
    ListsHoldTheirKind(cs);
    forall s ensures Omitted(s) in cs <==>
      exists k :: 0 <= k < |ops| && ops[k].tag == Delete && s == CdsSpan(cds, ops[k]) && s != []
    {
      ChangesFromOpcodes(cds, child, ops, Omitted(s));
    }
    forall s ensures Added(s) in cs <==>
      exists k :: 0 <= k < |ops| && ops[k].tag == Insert && s == ChildSpan(child, ops[k]) && s != []
    {
      ChangesFromOpcodes(cds, child, ops, Added(s));
    }
    forall x, y ensures Modified(x, y) in cs <==>
      exists k :: 0 <= k < |ops| && ops[k].tag == Replace &&
        x == CdsSpan(cds, ops[k]) && y == ChildSpan(child, ops[k]) && x != [] && y != []
    {
      ChangesFromOpcodes(cds, child, ops, Modified(x, y));
    }
  }

  /** `no_difference` holds exactly when the summary is empty, and exactly
      when no opcode records a difference. */
  lemma NoDifferenceIffEmptySummary(cds: string, child: string, ops: seq<Opcode>)
    ensures var r := Compare(cds, child, ops);
      && (r.noDifference <==> r.summary == [])
      && (r.noDifference <==> forall k :: 0 <= k < |ops| ==> ChangeOf(cds, child, ops[k]).None?)
  {
    var cs := Changes(cds, child, ops);
    OneListPerChange(cs);
    if cs != [] {
      ChangesFromOpcodes(cds, child, ops, cs[0]);
    }
    forall k | 0 <= k < |ops| && ChangeOf(cds, child, ops[k]).Some?
      ensures cs != []
    {
      ChangesFromOpcodes(cds, child, ops, ChangeOf(cds, child, ops[k]).value);
    }
  }

  /** An edit script of `equal` opcodes only reports no difference. */
  lemma AllEqualNoDifference(cds: string, child: string, ops: seq<Opcode>)
    requires forall k :: 0 <= k < |ops| ==> ops[k].tag == Equal
    ensures Compare(cds, child, ops) == Comparison([], [], [], [], true)
  {
    NoDifferenceIffEmptySummary(cds, child, ops);
    SummaryCountsEntries(cds, child, ops);
  }

  lemma {:induction false} FlattenOfConcat(rs1: seq<Option<Change>>, rs2: seq<Option<Change>>)
    ensures Flatten(rs1 + rs2) == Flatten(rs1) + Flatten(rs2)
    decreases |rs2|
  {
    if rs2 != [] {
      var all, init, last := rs1 + rs2, rs2[..|rs2| - 1], rs2[|rs2| - 1];
      assert all[..|all| - 1] == rs1 + init && all[|all| - 1] == last;
      FlattenOfConcat(rs1, init);
      assert Flatten(rs1) + Flatten(init) + AsSeq(last) == Flatten(rs1) + (Flatten(init) + AsSeq(last));
    } else {
      assert rs1 + rs2 == rs1;
    }
  }

  /** Splitting the edit script splits the differences: the opcodes are
      read independently of one another, in order. */
  lemma ChangesOfConcat(cds: string, child: string, ops1: seq<Opcode>, ops2: seq<Opcode>)
    ensures Changes(cds, child, ops1 + ops2) == Changes(cds, child, ops1) + Changes(cds, child, ops2)
  {
    assert Recorded(cds, child, ops1 + ops2) == Recorded(cds, child, ops1) + Recorded(cds, child, ops2);
    FlattenOfConcat(Recorded(cds, child, ops1), Recorded(cds, child, ops2));
  }

  lemma {:induction false} BulletsOfConcat(cs1: seq<Change>, cs2: seq<Change>)
    ensures Bullets(cs1 + cs2) == Bullets(cs1) + Bullets(cs2)
    decreases |cs2|
  {
    if cs2 != [] {
      var init, last := cs2[..|cs2| - 1], cs2[|cs2| - 1];
      assert cs2 == init + [last] && cs1 + cs2 == (cs1 + init) + [last];
      BulletsOfConcat(cs1, init);
      AppendOne(init, last);
      AppendOne(cs1 + init, last);
    } else {
      assert cs1 + cs2 == cs1;
    }
  }

  lemma {:induction false} OmittedTextsOfConcat(cs1: seq<Change>, cs2: seq<Change>)
    ensures OmittedTexts(cs1 + cs2) == OmittedTexts(cs1) + OmittedTexts(cs2)
    decreases |cs2|
  {
    if cs2 != [] {
      var init, last := cs2[..|cs2| - 1], cs2[|cs2| - 1];
      assert cs2 == init + [last] && cs1 + cs2 == (cs1 + init) + [last];
      OmittedTextsOfConcat(cs1, init);
      AppendOne(init, last);
      AppendOne(cs1 + init, last);
    } else {
      assert cs1 + cs2 == cs1;
    }
  }

  lemma {:induction false} AddedTextsOfConcat(cs1: seq<Change>, cs2: seq<Change>)
    ensures AddedTexts(cs1 + cs2) == AddedTexts(cs1) + AddedTexts(cs2)
    decreases |cs2|
  {
    if cs2 != [] {
      var init, last := cs2[..|cs2| - 1], cs2[|cs2| - 1];
      assert cs2 == init + [last] && cs1 + cs2 == (cs1 + init) + [last];
      AddedTextsOfConcat(cs1, init);
      AppendOne(init, last);
      AppendOne(cs1 + init, last);
    } else {
      assert cs1 + cs2 == cs1;
    }
  }

  lemma {:induction false} ModificationsOfConcat(cs1: seq<Change>, cs2: seq<Change>)
    ensures Modifications(cs1 + cs2) == Modifications(cs1) + Modifications(cs2)
    decreases |cs2|
  {
    if cs2 != [] {
      var init, last := cs2[..|cs2| - 1], cs2[|cs2| - 1];
      assert cs2 == init + [last] && cs1 + cs2 == (cs1 + init) + [last];
      ModificationsOfConcat(cs1, init);
      AppendOne(init, last);
      AppendOne(cs1 + init, last);
    } else {
      assert cs1 + cs2 == cs1;
    }
  }

  /** Comparing under a concatenated edit script concatenates the summaries
      and each of the three lists. */
  lemma CompareOfConcat(cds: string, child: string, ops1: seq<Opcode>, ops2: seq<Opcode>)
    ensures var r, r1, r2 := Compare(cds, child, ops1 + ops2), Compare(cds, child, ops1), Compare(cds, child, ops2);
      && r.summary == r1.summary + r2.summary
      && r.cdsOnly == r1.cdsOnly + r2.cdsOnly
      && r.childOnly == r1.childOnly + r2.childOnly
      && r.modified == r1.modified + r2.modified
      && r.noDifference == (r1.noDifference && r2.noDifference)
  {
    ChangesOfConcat(cds, child, ops1, ops2);
    var cs1, cs2 := Changes(cds, child, ops1), Changes(cds, child, ops2);
    BulletsOfConcat(cs1, cs2);
    OmittedTextsOfConcat(cs1, cs2);
    AddedTextsOfConcat(cs1, cs2);
    ModificationsOfConcat(cs1, cs2);
  }

  /** The three bullet forms start with three different prefixes, so a
      bullet tells which kind of difference it describes. */
  lemma BulletTellsKind(c: Change)
    ensures StartsWith(Bullet(c), "Modified: \"") <==> c.Modified?
    ensures StartsWith(Bullet(c), "Omitted in child: \"") <==> c.Omitted?
    ensures StartsWith(Bullet(c), "Added in child: \"") <==> c.Added?
  {
    var b := Bullet(c);
    match c
    case Modified(x, y) =>
      assert b[..11] == "Modified: \"";
      assert b[0] == 'M';
    case Omitted(x) =>
      assert b[..19] == "Omitted in child: \"";
      assert b[0] == 'O';
    case Added(y) =>
      assert b[..17] == "Added in child: \"";
      assert b[0] == 'A';
  }

  /** The text of an omission or an addition can be read back from its
      bullet: it sits between the prefix and the closing quote. */
  lemma BulletQuotesText(c: Change)
    requires c.Omitted? || c.Added?
    ensures var b, x := Bullet(c), if c.Omitted? then c.cds else c.child;
      var n := if c.Omitted? then 19 else 17;
      |b| == n + |x| + 1 && b[n..n + |x|] == x && b[|b| - 1] == '"'
  {
  }

  /** A modification's bullet does not determine the pair: a quote and an
      arrow inside the CDS text read the same as the separator. */
  lemma ModifiedBulletIsAmbiguous()
    ensures Bullet(Modified("a\" \U{2192} \"b", "c")) == Bullet(Modified("a", "b\" \U{2192} \"c"))
  {
  }
}
