/**
 * Linking a retrieved document's outlinks into its text: each outlink whose anchor
 * text occurs in the document has that first occurrence rewritten into a markdown
 * link; the others are listed, in order, under a header appended to the text.
 */
module Outlinks {
  import opened Wrappers
  import opened Strings

  /** The two fields of an outlink record the rewrite uses. */
  datatype Outlink = Outlink(url: string, anchor: string)

  const Header := "Here are additional URLs and their anchor texts mentioned in this document:\n"
  const NewLine := "\n"

  /** The markdown link `[anchor](url)`. */
  function Link(o: Outlink): string {
    "[" + o.anchor + "](" + o.url + ")"
  }

  function Links(outlinks: seq<Outlink>): (r: seq<string>)
    ensures |r| == |outlinks|
    ensures forall k :: 0 <= k < |outlinks| ==> r[k] == Link(outlinks[k])
  {
    seq(|outlinks|, k requires 0 <= k < |outlinks| => Link(outlinks[k]))
  }

  /** The text with the first occurrence of the anchor rewritten into the link, or None
      when the anchor does not occur. */
  function Linked(doc: string, o: Outlink): Option<string> {
    match Find(doc, o.anchor)
    case None => None
    case Some(i) => Some(doc[..i] + Link(o) + doc[i + |o.anchor|..])
  }

  /** The text once every outlink has been tried in order, and the links of those whose
      anchor was not found, in order. */
  datatype Matched = Matched(doc: string, unmatched: seq<string>)

  function MatchAll(doc: string, outlinks: seq<Outlink>): Matched
    decreases |outlinks|
  {
    if outlinks == [] then Matched(doc, [])
    else match Linked(doc, outlinks[0])
      case Some(d) => MatchAll(d, outlinks[1..])
      case None =>
        var m := MatchAll(doc, outlinks[1..]);
        Matched(m.doc, [Link(outlinks[0])] + m.unmatched)
  }

  /** `match_outlinks_to_doc`: the rewritten text followed by the header and the
      unmatched links one per line, the number of unmatched outlinks, and the number
      of outlinks. */
  method MatchOutlinksToDoc(outlinks: seq<Outlink>, docText: string) returns (text: string, notFound: nat, total: nat)
    ensures var m := MatchAll(docText, outlinks);
      text == m.doc + Header + Join(m.unmatched, NewLine) && notFound == |m.unmatched|
    ensures total == |outlinks|
  {
    var doc := docText;
    notFound := 0;
    var notMatched: seq<string> := [];
    for i := 0 to |outlinks|
      invariant MatchAll(docText, outlinks).doc == MatchAll(doc, outlinks[i..]).doc
      invariant MatchAll(docText, outlinks).unmatched == notMatched + MatchAll(doc, outlinks[i..]).unmatched
      invariant notFound == |notMatched|
    {
      assert outlinks[i..][0] == outlinks[i] && outlinks[i..][1..] == outlinks[i + 1..];
      var o := outlinks[i];
      var idx := Find(doc, o.anchor);
      if idx.Some? {
        doc := doc[..idx.value] + Link(o) + doc[idx.value + |o.anchor|..];
      } else {
        notFound := notFound + 1;
        notMatched := notMatched + [Link(o)];
      }
    }
    assert outlinks[|outlinks|..] == [];
    assert MatchAll(doc, outlinks[|outlinks|..]) == Matched(doc, []);
    assert notMatched + [] == notMatched;
    assert MatchAll(docText, outlinks) == Matched(doc, notMatched);
    text := doc + Header + Join(notMatched, NewLine);
    total := |outlinks|;
  }

  // ---------------------------------------------------------------------------
  // One outlink

  /** A found anchor has its first occurrence, and only that one, replaced by the link:
      the text before it and the text after it are unchanged. */
  lemma LinkedFirstOccurrence(doc: string, o: Outlink)
    ensures Linked(doc, o).None? <==> !Contains(doc, o.anchor)
    ensures Linked(doc, o).Some? ==>
      exists i :: (0 <= i && i + |o.anchor| <= |doc| && FirstAt(doc, o.anchor, i)
        && doc == doc[..i] + o.anchor + doc[i + |o.anchor|..]
        && Linked(doc, o).value == doc[..i] + Link(o) + doc[i + |o.anchor|..])
  {
    match Find(doc, o.anchor)
    case None =>
    case Some(i) =>
      FindFromFirst(doc, o.anchor, 0);
      assert doc[i..i + |o.anchor|] == o.anchor;
      assert doc == doc[..i] + doc[i..i + |o.anchor|] + doc[i + |o.anchor|..];
      assert FirstAt(doc, o.anchor, i);
  }

  /** The anchor occurs at `i` and nowhere before. */
  predicate FirstAt(doc: string, pat: string, i: nat) {
    OccursAt(doc, pat, i) && forall k :: 0 <= k < i ==> !OccursAt(doc, pat, k)
  }

  /** An empty anchor is found at the start, so its link is put in front of the text. */
  lemma EmptyAnchorLeads(doc: string, o: Outlink)
    requires o.anchor == ""
    ensures Linked(doc, o) == Some(Link(o) + doc)
  {
    assert doc[0..0] == "";
    assert Find(doc, "") == Some(0);
    assert doc[..0] == "" && doc[0..] == doc;
    assert doc[..0] + Link(o) + doc[0..] == Link(o) + doc;
  }

  // ---------------------------------------------------------------------------
  // All outlinks

  /** `xs` is `ys` with some elements left out, in the same order. */
  predicate SubsequenceOf(xs: seq<string>, ys: seq<string>)
    decreases |ys|
  {
    if xs == [] then true
    else if ys == [] then false
    else (xs[0] == ys[0] && SubsequenceOf(xs[1..], ys[1..])) || SubsequenceOf(xs, ys[1..])
  }

  lemma {:induction false} SubsequenceShorter(xs: seq<string>, ys: seq<string>)
    requires SubsequenceOf(xs, ys)
    ensures |xs| <= |ys|
    decreases |ys|
  {
    if xs != [] {
      if xs[0] == ys[0] && SubsequenceOf(xs[1..], ys[1..]) {
        SubsequenceShorter(xs[1..], ys[1..]);
      } else {
        SubsequenceShorter(xs, ys[1..]);
      }
    }
  }

  /** The unmatched links are the links of some of the outlinks, in the outlinks' order,
      so there are at most as many as there are outlinks. */
  lemma {:induction false} UnmatchedInOrder(doc: string, outlinks: seq<Outlink>)
    ensures SubsequenceOf(MatchAll(doc, outlinks).unmatched, Links(outlinks))
    ensures |MatchAll(doc, outlinks).unmatched| <= |outlinks|
    decreases |outlinks|
  {
    if outlinks != [] {
      var ls := Links(outlinks);
      assert ls[1..] == Links(outlinks[1..]);
      match Linked(doc, outlinks[0])
      case Some(d) =>
        UnmatchedInOrder(d, outlinks[1..]);
        var u := MatchAll(d, outlinks[1..]).unmatched;
        if u != [] {
          assert SubsequenceOf(u, ls[1..]);
        }
      case None =>
        UnmatchedInOrder(doc, outlinks[1..]);
        var u := MatchAll(doc, outlinks[1..]).unmatched;
        assert ([Link(outlinks[0])] + u)[1..] == u;
    }
  }

  /** Every matched outlink replaces its anchor by a link at least four characters
      longer, so the text never shrinks, and it is left as it was exactly when no
      anchor was found. */
  lemma {:induction false} MatchAllGrows(doc: string, outlinks: seq<Outlink>)
    ensures var m := MatchAll(doc, outlinks);
      |m.unmatched| <= |outlinks| && |m.doc| >= |doc| + 4 * (|outlinks| - |m.unmatched|)
    ensures var m := MatchAll(doc, outlinks); m.doc == doc <==> |m.unmatched| == |outlinks|
    decreases |outlinks|
  {
    if outlinks != [] {
      match Linked(doc, outlinks[0])
      case Some(d) =>
        LinkedFirstOccurrence(doc, outlinks[0]);
        assert |d| == |doc| + 4 + |outlinks[0].url|;
        MatchAllGrows(d, outlinks[1..]);
      case None =>
        MatchAllGrows(doc, outlinks[1..]);
    }
  }

  /** The returned text always ends with the header and the unmatched links, even when
      every anchor was found. */
  lemma EndsWithUnmatched(outlinks: seq<Outlink>, docText: string, text: string)
    requires text == MatchAll(docText, outlinks).doc + Header + Join(MatchAll(docText, outlinks).unmatched, NewLine)
    ensures var tail := Header + Join(MatchAll(docText, outlinks).unmatched, NewLine);
      |tail| <= |text| && text[|text| - |tail|..] == tail
    ensures MatchAll(docText, outlinks).unmatched == [] ==> text[|text| - |Header|..] == Header
  {
    var m := MatchAll(docText, outlinks);
    assert text == m.doc + (Header + Join(m.unmatched, NewLine));
  }
}
