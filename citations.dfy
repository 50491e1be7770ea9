/**
 * How a chat message's answer is prepared for display: citation markers written as
 * `%[n]%` become `[n]`, the citation list is reduced to one entry per URL (first
 * occurrence first), and every `[n]` marker is renumbered to the position of its
 * citation's URL in the reduced list.
 */
module ChatCitations {
  import opened Wrappers
  import opened Strings

  /** A citation as the message carries it. */
  datatype Citation = Citation(url: string, text: string)

  // ---------------------------------------------------------------------------
  // Reducing the citation list

  /** `findIndex` on the URL: the first position holding `url`, or -1. */
  function FindUrl(unique: seq<Citation>, url: string): (r: int)
    ensures -1 <= r < |unique|
    ensures r >= 0 ==> unique[r].url == url && forall k :: 0 <= k < r ==> unique[k].url != url
    ensures r == -1 ==> forall k :: 0 <= k < |unique| ==> unique[k].url != url
    decreases |unique|
  {
    if unique == [] then -1
    else if unique[0].url == url then 0
    else
      var r := FindUrl(unique[1..], url);
      if r == -1 then -1 else r + 1
  }

  /** The reduced list, and the map from each 1-based position in the original list to
      the 1-based position of its URL in the reduced list. */
  datatype Reduced = Reduced(unique: seq<Citation>, numbering: map<nat, nat>)

  /** The citations handled one at a time, in order. */
  function Dedup(cs: seq<Citation>): Reduced
    decreases |cs|
  {
    if cs == [] then Reduced([], map[])
    else
      var r := Dedup(cs[..|cs| - 1]);
      var c := cs[|cs| - 1];
      var e := FindUrl(r.unique, c.url);
      if e == -1 then Reduced(r.unique + [c], r.numbering[|cs| := |r.unique| + 1])
      else Reduced(r.unique, r.numbering[|cs| := e + 1])
  }

  /** The loop that reduces the list and fills the map. */
  method DedupCitations(cs: seq<Citation>) returns (unique: seq<Citation>, numbering: map<nat, nat>)
    ensures Reduced(unique, numbering) == Dedup(cs)
  {
    unique, numbering := [], map[];
    for i := 0 to |cs|
      invariant Reduced(unique, numbering) == Dedup(cs[..i])
    {
      assert cs[..i + 1][..i] == cs[..i];
      var c := cs[i];
      var existing := FindUrl(unique, c.url);
      if existing == -1 {
        unique := unique + [c];
        numbering := numbering[i + 1 := |unique|];
      } else {
        numbering := numbering[i + 1 := existing + 1];
      }
    }
    assert cs[..|cs|] == cs;
  }

  predicate DistinctUrls(u: seq<Citation>) {
    forall a, b :: 0 <= a < b < |u| ==> u[a].url != u[b].url
  }

  /** The map sends exactly the positions 1 to |cs| each to a position of the reduced
      list holding the same URL. */
  ghost predicate NumbersAll(cs: seq<Citation>, r: Reduced) {
    && (forall i :: i in r.numbering <==> 1 <= i <= |cs|)
    && forall i :: 1 <= i <= |cs| ==>
         i in r.numbering && 1 <= r.numbering[i] <= |r.unique| && r.unique[r.numbering[i] - 1].url == cs[i - 1].url
  }

  /** The reduced list has no URL twice. */
  lemma {:induction false} DedupDistinct(cs: seq<Citation>)
    ensures DistinctUrls(Dedup(cs).unique)
    decreases |cs|
  {
    if cs != [] {
      var p := cs[..|cs| - 1];
      DedupDistinct(p);
      var u := Dedup(p).unique;
      var c := cs[|cs| - 1];
      if FindUrl(u, c.url) == -1 {
        assert Dedup(cs).unique == u + [c];
        assert forall a :: 0 <= a < |u| ==> u[a].url != c.url;
      } else {
        assert Dedup(cs).unique == u;
      }
    }
  }

  /** The map sends exactly the positions 1 to |cs| each to a position of the reduced
      list holding the same URL, so every URL of the original list is in the reduced
      one. */
  lemma {:induction false} DedupNumbering(cs: seq<Citation>)
    ensures NumbersAll(cs, Dedup(cs))
    decreases |cs|
  {
    if cs != [] {
      var n := |cs|;
      var p := cs[..n - 1];
      DedupNumbering(p);
      var rp := Dedup(p);
      var c := cs[n - 1];
      var e := FindUrl(rp.unique, c.url);
      var u := if e == -1 then rp.unique + [c] else rp.unique;
      var v := if e == -1 then |rp.unique| + 1 else e + 1;
      assert Dedup(cs) == Reduced(u, rp.numbering[n := v]);
      NumbersStep(cs, rp, c, u, v);
    }
  }

  /** The step of DedupNumbering: the map of the first |cs| - 1 citations, extended
      with the last one's position `v`. */
  lemma NumbersStep(cs: seq<Citation>, rp: Reduced, c: Citation, u: seq<Citation>, v: nat)
    requires cs != [] && c == cs[|cs| - 1] && NumbersAll(cs[..|cs| - 1], rp)
    requires |rp.unique| <= |u| && rp.unique == u[..|rp.unique|]
    requires 1 <= v <= |u| && u[v - 1].url == c.url
    ensures NumbersAll(cs, Reduced(u, rp.numbering[|cs| := v]))
  {
    var n := |cs|;
    var p := cs[..n - 1];
    var nb := rp.numbering[n := v];
    forall i | 1 <= i < n
      ensures i in nb && 1 <= nb[i] <= |u| && u[nb[i] - 1].url == cs[i - 1].url
    {
      assert p[i - 1] == cs[i - 1];
      assert nb[i] == rp.numbering[i];
      assert u[nb[i] - 1] == rp.unique[nb[i] - 1];
    }
  }

  /** Whether `cs[i]` is the first citation with its URL. */
  predicate IsFirst(cs: seq<Citation>, i: nat)
    requires i < |cs|
  {
    forall j :: 0 <= j < i ==> cs[j].url != cs[i].url
  }

  /** The positions below `n` of the first citation with each URL, in order. */
  function FirstIndices(cs: seq<Citation>, n: nat): (idx: seq<nat>)
    requires n <= |cs|
    ensures forall k :: 0 <= k < |idx| ==> idx[k] < n && IsFirst(cs, idx[k])
    ensures forall a, b :: 0 <= a < b < |idx| ==> idx[a] < idx[b]
  {
    if n == 0 then []
    else FirstIndices(cs, n - 1) + (if IsFirst(cs, n - 1) then [n - 1] else [])
  }

  /** `u` holds the citations of `cs` at the positions `idx`, in that order. */
  predicate Picks(cs: seq<Citation>, idx: seq<nat>, u: seq<Citation>) {
    |u| == |idx| && forall k :: 0 <= k < |idx| ==> idx[k] < |cs| && u[k] == cs[idx[k]]
  }

  /** The reduced list is the original list's first citation for each URL, in the order
      those first citations come: the entries kept are whole citations, not just URLs. */
  lemma {:induction false} DedupFirstOccurrences(cs: seq<Citation>)
    ensures Picks(cs, FirstIndices(cs, |cs|), Dedup(cs).unique)
    decreases |cs|
  {
    if cs != [] {
      var n := |cs| - 1;
      var p := cs[..n];
      DedupFirstOccurrences(p);
      DedupNumbering(p);
      var rp := Dedup(p);
      var idxP := FirstIndices(p, n);
      assert FirstIndices(cs, n) == idxP by { FirstIndicesOfPrefix(cs, n); }
      var c := cs[n];
      var e := FindUrl(rp.unique, c.url);
      if e == -1 {
        NewUrlIsFirst(cs, rp);
        PicksAppend(cs, idxP, rp.unique);
      } else {
        FoundUrlNotFirst(cs, idxP, rp.unique);
        PicksPrefix(cs, idxP, rp.unique);
      }
    }
  }

  /** A URL missing from the reduced list of the earlier citations is a first occurrence. */
  lemma NewUrlIsFirst(cs: seq<Citation>, rp: Reduced)
    requires cs != [] && NumbersAll(cs[..|cs| - 1], rp)
    requires FindUrl(rp.unique, cs[|cs| - 1].url) == -1
    ensures IsFirst(cs, |cs| - 1)
  {
    var n := |cs| - 1;
    forall j | 0 <= j < n ensures cs[j].url != cs[n].url {
      assert cs[..n][j] == cs[j];
      var k := rp.numbering[j + 1];
      assert rp.unique[k - 1].url == cs[j].url;
    }
  }

  /** A URL already in the reduced list of the earlier citations is not a first occurrence. */
  lemma FoundUrlNotFirst(cs: seq<Citation>, idx: seq<nat>, u: seq<Citation>)
    requires cs != [] && Picks(cs[..|cs| - 1], idx, u)
    requires FindUrl(u, cs[|cs| - 1].url) >= 0
    ensures !IsFirst(cs, |cs| - 1)
  {
    var n := |cs| - 1;
    var k := FindUrl(u, cs[n].url);
    assert u[k] == cs[..n][idx[k]] == cs[idx[k]];
  }

  lemma PicksAppend(cs: seq<Citation>, idx: seq<nat>, u: seq<Citation>)
    requires cs != [] && Picks(cs[..|cs| - 1], idx, u)
    ensures Picks(cs, idx + [|cs| - 1], u + [cs[|cs| - 1]])
  {
    var n := |cs| - 1;
    forall k | 0 <= k < |idx| ensures idx[k] < |cs| && u[k] == cs[idx[k]] {
      assert cs[..n][idx[k]] == cs[idx[k]];
    }
  }

  lemma PicksPrefix(cs: seq<Citation>, idx: seq<nat>, u: seq<Citation>)
    requires cs != [] && Picks(cs[..|cs| - 1], idx, u)
    ensures Picks(cs, idx, u)
  {
    var n := |cs| - 1;
    forall k | 0 <= k < |idx| ensures idx[k] < |cs| && u[k] == cs[idx[k]] {
      assert cs[..n][idx[k]] == cs[idx[k]];
    }
  }

  /** First occurrences below `n` do not depend on the citations from `n` on. */
  lemma {:induction false} FirstIndicesOfPrefix(cs: seq<Citation>, n: nat)
    requires n <= |cs|
    ensures FirstIndices(cs, n) == FirstIndices(cs[..n], n)
    decreases n
  {
    if n > 0 {
      FirstIndicesOfPrefix(cs, n - 1);
      FirstIndicesAgree(cs, cs[..n], n - 1);
      assert IsFirst(cs, n - 1) == IsFirst(cs[..n], n - 1);
    }
  }

  lemma {:induction false} FirstIndicesAgree(cs: seq<Citation>, ds: seq<Citation>, n: nat)
    requires n <= |cs| && n <= |ds| && cs[..n] == ds[..n]
    ensures FirstIndices(cs, n) == FirstIndices(ds, n)
    decreases n
  {
    if n > 0 {
      assert cs[..n - 1] == ds[..n - 1] by { assert cs[..n][..n - 1] == cs[..n - 1] && ds[..n][..n - 1] == ds[..n - 1]; }
      FirstIndicesAgree(cs, ds, n - 1);
      forall j | 0 <= j < n ensures cs[j] == ds[j] { assert cs[..n][j] == ds[..n][j]; }
      assert IsFirst(cs, n - 1) == IsFirst(ds, n - 1);
    }
  }

  /** There are never more entries than citations. */
  lemma DedupShorter(cs: seq<Citation>)
    ensures |Dedup(cs).unique| <= |cs|
  {
    DedupFirstOccurrences(cs);
    var idx := FirstIndices(cs, |cs|);
    IncreasingBelow(idx, |cs|);
  }

  /** A strictly increasing sequence of positions below `n` has at most `n` elements. */
  lemma {:induction false} IncreasingBelow(idx: seq<nat>, n: nat)
    requires forall k :: 0 <= k < |idx| ==> idx[k] < n
    requires forall a, b :: 0 <= a < b < |idx| ==> idx[a] < idx[b]
    ensures |idx| <= n
    decreases n
  {
    if idx != [] {
      var last := idx[|idx| - 1];
      IncreasingBelow(idx[..|idx| - 1], last);
    }
  }

  // ---------------------------------------------------------------------------
  // Rewriting the markers

  /** The number of decimal digits from position `i` on. */
  function DigitRun(s: string, i: nat): (n: nat)
    ensures i + n <= |s| || (i >= |s| && n == 0)
    ensures forall k :: i <= k < i + n ==> IsDigit(s[k])
    ensures i + n < |s| ==> !IsDigit(s[i + n])
    decreases |s| - i
  {
    if i < |s| && IsDigit(s[i]) then 1 + DigitRun(s, i + 1) else 0
  }

  /** The length of the digits of a `%[n]%` marker at the start of `s`, if one is there. */
  function PercentMarker(s: string): (d: nat)
    ensures d > 0 ==> 4 + d <= |s|
  {
    if 2 <= |s| && s[0] == '%' && s[1] == '[' then
      var n := DigitRun(s, 2);
      if n > 0 && 4 + n <= |s| && s[2 + n] == ']' && s[3 + n] == '%' then n else 0
    else 0
  }

  /** Every `%[n]%` marker, scanning left to right, becomes `[n]`. */
  function UnwrapPercent(s: string): string
    decreases |s|
  {
    if s == [] then []
    else
      var d := PercentMarker(s);
      if d > 0 then "[" + s[2..2 + d] + "]" + UnwrapPercent(s[4 + d..])
      else [s[0]] + UnwrapPercent(s[1..])
  }

  /** The length of the digits of a `[n]` marker at the start of `s`, if one is there. */
  function BracketMarker(s: string): (d: nat)
    ensures d > 0 ==> 2 + d <= |s| && AllDigits(s[1..1 + d])
  {
    if 1 <= |s| && s[0] == '[' then
      var n := DigitRun(s, 1);
      if n > 0 && 2 + n <= |s| && s[1 + n] == ']' then n else 0
    else 0
  }

  /** Every `[n]` marker, scanning left to right, becomes `[m]` when the map sends the
      number n to a non-zero m, and is kept as it is otherwise. */
  function Renumber(s: string, numbering: map<nat, nat>): string
    decreases |s|
  {
    if s == [] then []
    else
      var d := BracketMarker(s);
      if d > 0 then
        var n := DigitsValue(s[1..1 + d]);
        var marker := if n in numbering && numbering[n] != 0 then "[" + NatToString(numbering[n]) + "]" else s[..2 + d];
        marker + Renumber(s[2 + d..], numbering)
      else [s[0]] + Renumber(s[1..], numbering)
  }

  /** A `%[n]%` marker becomes `[n]`. */
  lemma UnwrapOne(digits: string, rest: string)
    requires |digits| > 0 && AllDigits(digits)
    ensures UnwrapPercent("%[" + digits + "]%" + rest) == "[" + digits + "]" + UnwrapPercent(rest)
  {
    var s := "%[" + digits + "]%" + rest;
    DigitRunOf(s, 2, digits);
    assert PercentMarker(s) == |digits|;
    assert s[2..2 + |digits|] == digits;
    assert s[4 + |digits|..] == rest;
  }

  /** The digit run at `i` of a string holding `digits` there followed by a non-digit. */
  lemma {:induction false} DigitRunOf(s: string, i: nat, digits: string)
    requires AllDigits(digits) && i + |digits| < |s| && s[i..i + |digits|] == digits && !IsDigit(s[i + |digits|])
    ensures DigitRun(s, i) == |digits|
    decreases |digits|
  {
    if digits != [] {
      assert s[i] == digits[0];
      assert s[i + 1..i + 1 + |digits[1..]|] == digits[1..];
      DigitRunOf(s, i + 1, digits[1..]);
    }
  }

  /** Text with no `%` is kept by the first rewrite, and text with no `[` by the second. */
  lemma {:induction false} UnmarkedKept(s: string, numbering: map<nat, nat>)
    ensures NoChar(s, '%') ==> UnwrapPercent(s) == s
    ensures NoChar(s, '[') ==> Renumber(s, numbering) == s
    decreases |s|
  {
    if s != [] {
      UnmarkedKept(s[1..], numbering);
    }
  }

  /** A mapped marker is renumbered once: the new number is not looked up again. */
  lemma RenumberMapped(n: nat, numbering: map<nat, nat>, rest: string)
    requires n in numbering && numbering[n] != 0
    ensures Renumber("[" + NatToString(n) + "]" + rest, numbering) == "[" + NatToString(numbering[n]) + "]" + Renumber(rest, numbering)
  {
    var digits := NatToString(n);
    DigitsValueOfNatToString(n);
    var s := "[" + digits + "]" + rest;
    DigitRunOf(s, 1, digits);
    assert BracketMarker(s) == |digits|;
    assert s[1..1 + |digits|] == digits;
    assert s[2 + |digits|..] == rest;
  }

  /** A marker whose number the map does not send anywhere is left as it is. */
  lemma RenumberUnmapped(digits: string, numbering: map<nat, nat>, rest: string)
    requires |digits| > 0 && AllDigits(digits)
    requires DigitsValue(digits) !in numbering
    ensures Renumber("[" + digits + "]" + rest, numbering) == "[" + digits + "]" + Renumber(rest, numbering)
  {
    var s := "[" + digits + "]" + rest;
    DigitRunOf(s, 1, digits);
    assert BracketMarker(s) == |digits|;
    assert s[1..1 + |digits|] == digits;
    assert s[..2 + |digits|] == "[" + digits + "]";
    assert s[2 + |digits|..] == rest;
  }

  // ---------------------------------------------------------------------------
  // The effect

  /** What the message shows: the markdown text, and the reduced citation list. */
  datatype Display = Display(markdown: string, unique: seq<Citation>)

  /** The effect run when the message's text or citations change. `text` is the text of
      the message's first content item (empty when there is none), `citations` the
      message's citation list when it has one, and `previous` the reduced list shown
      so far, which a user message or an empty text leaves in place. */
  method PrepareMessage(isUser: bool, text: string, citations: Option<seq<Citation>>, previous: seq<Citation>)
    returns (shown: Display)
    ensures isUser || text == "" ==> shown == Display(text, previous)
    ensures !isUser && text != "" && citations.None? ==> shown == Display(UnwrapPercent(text), [])
    ensures !isUser && text != "" && citations.Some? ==>
      var r := Dedup(citations.value);
      shown == Display(Renumber(UnwrapPercent(text), r.numbering), r.unique)
  {
    if isUser || text == "" {
      return Display(text, previous);
    }
    var processed := UnwrapPercent(text);
    if citations.Some? {
      var unique, numbering := DedupCitations(citations.value);
      processed := Renumber(processed, numbering);
      shown := Display(processed, unique);
    } else {
      shown := Display(processed, []);
    }
  }
}
