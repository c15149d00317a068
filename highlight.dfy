/**
 * `highlight_differences`: route the word-level token stream of
 * `difflib.Differ` into two highlighted renderings, one of the CDS text and
 * one of the child text.
 *
 * The token stream (`Differ().compare(cds.split(), child.split())`) is an
 * input here: each token is a two-character code followed by a word.
 */
module Highlight {
  import opened Text

  /** What the leading code of a token says. */
  datatype Kind = OnlyInCds | OnlyInChild | Common | Other

  function KindOf(token: string): Kind {
    if StartsWith(token, "- ") then OnlyInCds
    else if StartsWith(token, "+ ") then OnlyInChild
    else if StartsWith(token, "  ") then Common
    else Other
  }

  /** A word present only in the CDS, as the CDS rendering shows it. */
  function Green(word: string): string {
    "<span class=\"text-green-600\">" + word + "</span>"
  }

  /** A word present only in the child document, as the child rendering shows it. */
  function Red(word: string): string {
    "<span class=\"text-red-600\">" + word + "</span>"
  }

  /** The pieces of the CDS rendering, before joining. */
  function CdsPieces(tokens: seq<string>): seq<string> {
    if tokens == [] then []
    else
      var t := tokens[|tokens| - 1];
      CdsPieces(tokens[..|tokens| - 1]) +
        (match KindOf(t)
         case OnlyInCds => [Green(t[2..])]
         case Common => [t[2..]]
         case _ => [])
  }

  /** The pieces of the child rendering, before joining. */
  function ChildPieces(tokens: seq<string>): seq<string> {
    if tokens == [] then []
    else
      var t := tokens[|tokens| - 1];
      ChildPieces(tokens[..|tokens| - 1]) +
        (match KindOf(t)
         case OnlyInChild => [Red(t[2..])]
         case Common => [t[2..]]
         case _ => [])
  }

  method HighlightDifferences(tokens: seq<string>) returns (cdsHighlighted: string, childHighlighted: string)
    ensures cdsHighlighted == Join(CdsPieces(tokens))
    ensures childHighlighted == Join(ChildPieces(tokens))
  {
    var cdsPieces: seq<string> := [];
    var childPieces: seq<string> := [];
    for k := 0 to |tokens|
      invariant cdsPieces == CdsPieces(tokens[..k])
      invariant childPieces == ChildPieces(tokens[..k])
    {
      var word := tokens[k];
      assert tokens[..k + 1][..k] == tokens[..k];
      if StartsWith(word, "- ") {
        cdsPieces := cdsPieces + [Green(word[2..])];
      } else if StartsWith(word, "+ ") {
        childPieces := childPieces + [Red(word[2..])];
      } else if StartsWith(word, "  ") {
        cdsPieces := cdsPieces + [word[2..]];
        childPieces := childPieces + [word[2..]];
      }
    }
    assert tokens[..|tokens|] == tokens;
    cdsHighlighted := Join(cdsPieces);
    childHighlighted := Join(childPieces);
  }

  /** A token goes to the CDS rendering exactly when it is a `'- '` token
      (wrapped in the green span) or a `'  '` token (unchanged); to the child
      rendering exactly when it is a `'+ '` token (wrapped in the red span) or
      a `'  '` token. Any other token, such as a `'? '` hint, goes nowhere. */
  lemma RoutesEachToken(t: string)
    ensures CdsPieces([t]) ==
      (if StartsWith(t, "- ") then [Green(t[2..])] else if StartsWith(t, "  ") then [t[2..]] else [])
    ensures ChildPieces([t]) ==
      (if StartsWith(t, "+ ") then [Red(t[2..])] else if StartsWith(t, "  ") then [t[2..]] else [])
  {
    assert [t][..0] == [];
    if StartsWith(t, "  ") {
      assert t[..2] == "  ";
      assert !StartsWith(t, "- ") && !StartsWith(t, "+ ");
    }
  }

  /** Each rendering of a concatenated stream is the concatenation of the
      renderings, so tokens keep their relative order. */
  lemma PiecesOfConcat(ts1: seq<string>, ts2: seq<string>)
    ensures CdsPieces(ts1 + ts2) == CdsPieces(ts1) + CdsPieces(ts2)
    ensures ChildPieces(ts1 + ts2) == ChildPieces(ts1) + ChildPieces(ts2)
  {
    CdsPiecesOfConcat(ts1, ts2);
    ChildPiecesOfConcat(ts1, ts2);
  }

  lemma {:induction false} CdsPiecesOfConcat(ts1: seq<string>, ts2: seq<string>)
    ensures CdsPieces(ts1 + ts2) == CdsPieces(ts1) + CdsPieces(ts2)
    decreases |ts2|
  {
    if ts2 != [] {
      var all, init := ts1 + ts2, ts2[..|ts2| - 1];
      assert all[..|all| - 1] == ts1 + init && all[|all| - 1] == ts2[|ts2| - 1];
      CdsPiecesOfConcat(ts1, init);
    } else {
      assert ts1 + ts2 == ts1;
    }
  }

  lemma {:induction false} ChildPiecesOfConcat(ts1: seq<string>, ts2: seq<string>)
    ensures ChildPieces(ts1 + ts2) == ChildPieces(ts1) + ChildPieces(ts2)
    decreases |ts2|
  {
    if ts2 != [] {
      var all, init := ts1 + ts2, ts2[..|ts2| - 1];
      assert all[..|all| - 1] == ts1 + init && all[|all| - 1] == ts2[|ts2| - 1];
      ChildPiecesOfConcat(ts1, init);
    } else {
      assert ts1 + ts2 == ts1;
    }
  }

  /** How many tokens of a stream carry a given code. */
  function Count(tokens: seq<string>, k: Kind): nat {
    if tokens == [] then 0
    else Count(tokens[..|tokens| - 1], k) + (if KindOf(tokens[|tokens| - 1]) == k then 1 else 0)
  }

  /** The CDS rendering has one piece per `'- '` and per `'  '` token, the
      child rendering one per `'+ '` and per `'  '` token. */
  lemma {:induction false} PiecesCountTokens(tokens: seq<string>)
    ensures |CdsPieces(tokens)| == Count(tokens, OnlyInCds) + Count(tokens, Common)
    ensures |ChildPieces(tokens)| == Count(tokens, OnlyInChild) + Count(tokens, Common)
  {
    if tokens != [] {
      PiecesCountTokens(tokens[..|tokens| - 1]);
    }
  }

  /** The words of the `'  '` tokens, in order. */
  function CommonWords(tokens: seq<string>): seq<string> {
    if tokens == [] then []
    else
      var t := tokens[|tokens| - 1];
      CommonWords(tokens[..|tokens| - 1]) + (if KindOf(t) == Common then [t[2..]] else [])
  }

  /** Without a `'- '` or a `'+ '` token, both renderings have the same
      pieces: the words of the `'  '` tokens, in order. */
  lemma {:induction false} NoChangeSameRendering(tokens: seq<string>)
    requires forall k :: 0 <= k < |tokens| ==> KindOf(tokens[k]) == Common || KindOf(tokens[k]) == Other
    ensures CdsPieces(tokens) == ChildPieces(tokens) == CommonWords(tokens)
  {
    if tokens != [] {
      NoChangeSameRendering(tokens[..|tokens| - 1]);
    }
  }
}
