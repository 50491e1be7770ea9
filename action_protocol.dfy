/**
 * The action protocol of the baseline research agent: the validator that
 * accepts one tagged directive out of a free-form model reply
 * (`postprocess_response`), the parser that splits a validated directive into
 * kind and content (`parse_action`), the final-answer extraction
 * (`_compose_final_output`) and the code-fence stripper
 * (`remove_markdown_blocks`).
 */
module ActionProtocol {
  import opened Wrappers
  import opened Strings

  datatype ActionKind = Search | Answer | Plan | Scripts | Summary

  /** ACTIONS, in the order the validator visits them. */
  const Actions: seq<ActionKind> := [Search, Answer, Plan, Scripts, Summary]

  /** Every kind appears in ACTIONS. */
  lemma ActionsComplete(k: ActionKind)
    ensures k in Actions
  {
    assert Actions[0] == Search && Actions[1] == Answer && Actions[2] == Plan;
    assert Actions[3] == Scripts && Actions[4] == Summary;
  }

  function Name(k: ActionKind): string {
    match k
    case Search => "search"
    case Answer => "answer"
    case Plan => "plan"
    case Scripts => "scripts"
    case Summary => "summary"
  }

  /** The kind whose name is `name`, if any: the dispatch of `execute_response`. */
  function KindOf(name: string): (r: Option<ActionKind>)
    ensures r.Some? ==> Name(r.value) == name
    ensures r.None? ==> forall k :: Name(k) != name
  {
    if name == "search" then Some(Search)
    else if name == "answer" then Some(Answer)
    else if name == "plan" then Some(Plan)
    else if name == "scripts" then Some(Scripts)
    else if name == "summary" then Some(Summary)
    else None
  }

  /** The dispatch recognises every kind by its name. */
  lemma KindOfName(k: ActionKind)
    ensures KindOf(Name(k)) == Some(k)
  {
    match k
    case Search =>
    case Answer =>
    case Plan =>
    case Scripts =>
    case Summary =>
  }

  function OpenTag(k: ActionKind): string { "<" + Name(k) + ">" }

  function CloseTag(k: ActionKind): string { "</" + Name(k) + ">" }

  /** The canonical form `<k>content</k>` the validator returns. */
  function Wrap(k: ActionKind, content: string): string {
    OpenTag(k) + content + CloseTag(k)
  }

  lemma NameIsLowercase(k: ActionKind)
    ensures |Name(k)| >= 4
    ensures forall i :: 0 <= i < |Name(k)| ==> 'a' <= Name(k)[i] <= 'z'
  {
  }

  datatype TagCount = TagCount(start: nat, end: nat)

  function CountTags(response: string, k: ActionKind): TagCount {
    TagCount(Count(response, OpenTag(k)), Count(response, CloseTag(k)))
  }

  /** "Tags must appear in pairs and at most once." */
  predicate Paired(response: string, k: ActionKind) {
    CountTags(response, k).start == CountTags(response, k).end <= 1
  }

  /** Every kind of `ks` has as many closing tags as opening ones, and at most one. */
  predicate AllPaired(response: string, ks: seq<ActionKind>) {
    ks == [] || (AllPaired(response, ks[..|ks| - 1]) && Paired(response, ks[|ks| - 1]))
  }

  lemma {:induction false} AllPairedIff(response: string, ks: seq<ActionKind>)
    ensures AllPaired(response, ks) <==> forall j :: 0 <= j < |ks| ==> Paired(response, ks[j])
  {
    if ks != [] {
      var init, last := ks[..|ks| - 1], ks[|ks| - 1];
      AllPairedIff(response, init);
      if AllPaired(response, ks) {
        assert AllPaired(response, init) && Paired(response, last);
        forall j | 0 <= j < |ks| ensures Paired(response, ks[j]) {
          if j < |init| {
            assert ks[j] == init[j];
          } else {
            assert ks[j] == last;
          }
        }
      }
      if forall j :: 0 <= j < |ks| ==> Paired(response, ks[j]) {
        assert Paired(response, last);
        assert forall j :: 0 <= j < |init| ==> ks[j] == init[j];
      }
    }
  }

  /** The kinds among `ks` whose opening tag occurs exactly once, in order. */
  function OnceKinds(response: string, ks: seq<ActionKind>): seq<ActionKind> {
    if ks == [] then []
    else
      var k := ks[|ks| - 1];
      OnceKinds(response, ks[..|ks| - 1]) + (if CountTags(response, k).start == 1 then [k] else [])
  }

  /** `re.search("<k>(.*?)</k>", response, re.DOTALL).group(1)`: from the first
      opening tag to the first closing tag after it. */
  function FirstPair(response: string, k: ActionKind): Option<string> {
    FirstBetween(response, OpenTag(k), CloseTag(k))
  }

  /** From after the first `o` to the first `e` after it. */
  function FirstBetween(s: string, o: string, e: string): Option<string> {
    match Find(s, o)
    case None => None
    case Some(i) =>
      match FindFrom(s, e, i + |o|)
      case None => None
      case Some(j) => Some(s[i + |o|..j])
  }

  /** From after the first `<summary>` to the last `</summary>`, trimmed. */
  function SummarySpan(response: string): Option<string> {
    match Find(response, OpenTag(Summary))
    case None => None
    case Some(i) =>
      match RFind(response, CloseTag(Summary))
      case None => None
      case Some(j) => Some(Trim(Slice(response, i + |OpenTag(Summary)|, j)))
  }

  /** The directive `postprocess_response` settles on: its kind and trimmed content. */
  function Directive(response: string): (d: Option<(ActionKind, string)>)
    ensures d.Some? ==> IsTrimmed(d.value.1)
  {
    if CountTags(response, Summary).start == 0 then
      if forall j :: 0 <= j < |Actions| ==> Paired(response, Actions[j]) then
        var once := OnceKinds(response, Actions);
        if |once| != 1 then None
        else
          match FirstPair(response, once[0])
          case Some(c) => Some((once[0], Trim(c)))
          case None => None
      else None
    else
      match SummarySpan(response)
      case Some(c) => Some((Summary, c))
      case None => None
  }

  /** What `postprocess_response` returns for `response`: the directive in canonical form. */
  function Validate(response: string): Option<string> {
    match Directive(response)
    case Some((k, c)) => Some(Wrap(k, c))
    case None => None
  }

  /** The first loop of `postprocess_response`: `tag_counts[action] = {start, end}`. */
  method CountAllTags(response: string) returns (tagCounts: map<ActionKind, TagCount>)
    ensures forall k :: k in tagCounts && tagCounts[k] == CountTags(response, k)
  {
    tagCounts := map[];
    for i := 0 to |Actions|
      invariant forall k :: k in tagCounts <==> k in Actions[..i]
      invariant forall k :: k in tagCounts ==> tagCounts[k] == CountTags(response, k)
    {
      var k := Actions[i];
      tagCounts := tagCounts[k := TagCount(Count(response, OpenTag(k)), Count(response, CloseTag(k)))];
    }
    assert Actions[..|Actions|] == Actions;
    forall k: ActionKind ensures k in tagCounts {
      ActionsComplete(k);
    }
  }

  /** The second loop of `postprocess_response`: gives up at the first unpaired kind and
      otherwise collects the kinds whose tags occur once. */
  method CollectValidActions(response: string, tagCounts: map<ActionKind, TagCount>)
    returns (paired: bool, validActions: seq<ActionKind>)
    requires forall k :: k in tagCounts && tagCounts[k] == CountTags(response, k)
    ensures paired <==> forall j :: 0 <= j < |Actions| ==> Paired(response, Actions[j])
    ensures paired ==> validActions == OnceKinds(response, Actions)
  {
    validActions := [];
    for i := 0 to |Actions|
      invariant AllPaired(response, Actions[..i])
      invariant validActions == OnceKinds(response, Actions[..i])
    {
      var k := Actions[i];
      var startCount := tagCounts[k].start;
      var endCount := tagCounts[k].end;
      assert TagCount(startCount, endCount) == CountTags(response, k);
      if startCount != endCount || startCount > 1 {
        assert !Paired(response, Actions[i]);
        return false, validActions;
      }
      assert Paired(response, Actions[i]);
      OnceKindsStep(response, i);
      if startCount == 1 {
        validActions := validActions + [k];
      }
    }
    assert Actions[..|Actions|] == Actions;
    AllPairedIff(response, Actions);
    paired := true;
  }

  lemma OnceKindsStep(response: string, i: nat)
    requires i < |Actions|
    ensures OnceKinds(response, Actions[..i + 1])
      == OnceKinds(response, Actions[..i]) + (if CountTags(response, Actions[i]).start == 1 then [Actions[i]] else [])
    ensures AllPaired(response, Actions[..i + 1])
      == (AllPaired(response, Actions[..i]) && Paired(response, Actions[i]))
  {
    assert Actions[..i + 1][..i] == Actions[..i];
  }

  /** `postprocess_response`: the validated, canonical directive, or None. */
  method PostprocessResponse(response: string) returns (r: Option<string>)
    ensures r == Validate(response)
  {
    var tagCounts := CountAllTags(response);
    if tagCounts[Summary].start == 0 {
      var paired, validActions := CollectValidActions(response, tagCounts);
      if !paired || |validActions| != 1 {
        return None;
      }
      var action := validActions[0];
      var m := FirstPair(response, action);
      if m.Some? {
        return Some(Wrap(action, Trim(m.value)));
      }
    } else {
      var startIdx := Find(response, OpenTag(Summary));
      var endIdx := RFind(response, CloseTag(Summary));
      if startIdx.None? || endIdx.None? {
        return None;
      }
      var content := Trim(Slice(response, startIdx.value + |OpenTag(Summary)|, endIdx.value));
      return Some(Wrap(Summary, content));
    }
    return None;
  }

  /** A tag: `<` only at the front, `>` only at the end. */
  predicate IsTag(t: string) {
    |t| >= 2 && t[0] == '<' && t[|t| - 1] == '>'
    && (forall i :: 0 < i < |t| ==> t[i] != '<')
    && (forall i :: 0 <= i < |t| - 1 ==> t[i] != '>')
  }

  lemma TagsAreTags(k: ActionKind)
    ensures IsTag(OpenTag(k)) && IsTag(CloseTag(k))
    ensures UniqueLead(OpenTag(k)) && UniqueLead(CloseTag(k))
  {
    NameIsLowercase(k);
  }

  lemma TagsDistinct(k: ActionKind, k': ActionKind)
    ensures OpenTag(k) == OpenTag(k') ==> k == k'
    ensures CloseTag(k) == CloseTag(k') ==> k == k'
    ensures OpenTag(k) != CloseTag(k')
  {
    KindOfName(k);
    KindOfName(k');
    if OpenTag(k) == OpenTag(k') {
      MiddleInjective("<", Name(k), Name(k'), ">");
    }
    if CloseTag(k) == CloseTag(k') {
      MiddleInjective("</", Name(k), Name(k'), ">");
    }
    NameIsLowercase(k);
    assert OpenTag(k)[1] == Name(k)[0] && CloseTag(k')[1] == '/';
  }

  /** Two tags found at the same place are the same tag. */
  lemma SameTagAt(s: string, t1: string, t2: string, i: nat)
    requires IsTag(t1) && IsTag(t2) && OccursAt(s, t1, i) && OccursAt(s, t2, i)
    ensures t1 == t2
  {
    var m := if |t1| <= |t2| then |t1| else |t2|;
    assert t1[m - 1] == s[i + m - 1] by { assert s[i..i + |t1|][m - 1] == s[i + m - 1]; }
    assert t2[m - 1] == s[i + m - 1] by { assert s[i..i + |t2|][m - 1] == s[i + m - 1]; }
    assert |t1| == |t2|;
    assert t1 == s[i..i + |t1|] == t2;
  }

  predicate NoLt(x: string) {
    forall i :: 0 <= i < |x| ==> x[i] != '<'
  }

  /** Where `<` occurs in a single-directive reply: at the two tags only. */
  lemma LtPositions(pre: string, k: ActionKind, c: string, post: string)
    requires NoLt(pre) && NoLt(c) && NoLt(post)
    ensures var s := pre + Wrap(k, c) + post;
      forall j :: 0 <= j < |s| && s[j] == '<' ==> j == |pre| || j == |pre| + |OpenTag(k)| + |c|
  {
    var o, e := OpenTag(k), CloseTag(k);
    var s := pre + Wrap(k, c) + post;
    var p1, p2 := |pre|, |pre| + |o| + |c|;
    TagsAreTags(k);
    assert s == pre + o + c + e + post;
    forall j | 0 <= j < |s|
      ensures s[j] == '<' ==> j == p1 || j == p2
    {
      if j < p1 {
        assert s[j] == pre[j];
      } else if j < p1 + |o| {
        assert s[j] == o[j - p1];
      } else if j < p2 {
        assert s[j] == c[j - p1 - |o|];
      } else if j < p2 + |e| {
        assert s[j] == e[j - p2];
      } else {
        assert s[j] == post[j - p2 - |e|];
      }
    }
  }

  /** In a reply made of one directive with no other `<` around it, the directive's
      own two tags are the only tag occurrences. */
  lemma DirectiveOccurrences(pre: string, k: ActionKind, c: string, post: string, t: string)
    requires NoLt(pre) && NoLt(c) && NoLt(post) && IsTag(t)
    ensures var s := pre + Wrap(k, c) + post;
      forall i :: OccursAt(s, t, i) ==>
        (i == |pre| && t == OpenTag(k)) || (i == |pre| + |OpenTag(k)| + |c| && t == CloseTag(k))
  {
    var s := pre + Wrap(k, c) + post;
    var o, e := OpenTag(k), CloseTag(k);
    var p1, p2 := |pre|, |pre| + |o| + |c|;
    TagsAreTags(k);
    LtPositions(pre, k, c, post);
    forall i | OccursAt(s, t, i)
      ensures (i == p1 && t == o) || (i == p2 && t == e)
    {
      assert s[i] == '<' by { assert s[i..i + |t|][0] == s[i]; }
      if i == p1 {
        DirectiveTagsAt(pre, k, c, post);
        SameTagAt(s, t, o, i);
      } else if i == p2 {
        DirectiveTagsAt(pre, k, c, post);
        SameTagAt(s, t, e, i);
      }
    }
  }

  lemma DirectiveTagsAt(pre: string, k: ActionKind, c: string, post: string)
    ensures var s := pre + Wrap(k, c) + post;
      OccursAt(s, OpenTag(k), |pre|) && OccursAt(s, CloseTag(k), |pre| + |OpenTag(k)| + |c|)
  {
    WrappedTagsAt(pre, OpenTag(k), c, CloseTag(k), post);
  }

  /** Where the two tags of `pre + o + c + e + post` sit. */
  lemma WrappedTagsAt(pre: string, o: string, c: string, e: string, post: string)
    ensures var s := pre + (o + c + e) + post;
      OccursAt(s, o, |pre|) && OccursAt(s, e, |pre| + |o| + |c|)
  {
    var s := pre + (o + c + e) + post;
    assert s == pre + o + (c + e + post);
    SliceMiddle(pre, o, c + e + post);
    assert s == (pre + o + c) + e + post;
    SliceMiddle(pre + o + c, e, post);
  }

  /** The directive's opening tag occurs only at its own place. */
  lemma DirectiveOpenOnly(pre: string, k: ActionKind, c: string, post: string)
    requires NoLt(pre) && NoLt(c) && NoLt(post)
    ensures var s := pre + Wrap(k, c) + post;
      OccursAt(s, OpenTag(k), |pre|) && forall i :: OccursAt(s, OpenTag(k), i) ==> i == |pre|
  {
    TagsAreTags(k);
    DirectiveTagsAt(pre, k, c, post);
    DirectiveOccurrences(pre, k, c, post, OpenTag(k));
  }

  /** The directive's closing tag occurs only at its own place. */
  lemma DirectiveCloseOnly(pre: string, k: ActionKind, c: string, post: string)
    requires NoLt(pre) && NoLt(c) && NoLt(post)
    ensures var s := pre + Wrap(k, c) + post;
      var p2 := |pre| + |OpenTag(k)| + |c|;
      OccursAt(s, CloseTag(k), p2) && forall i :: OccursAt(s, CloseTag(k), i) ==> i == p2
  {
    TagsAreTags(k);
    TagsDistinct(k, k);
    DirectiveTagsAt(pre, k, c, post);
    DirectiveOccurrences(pre, k, c, post, CloseTag(k));
  }

  /** Counting the tags of a single-directive reply. */
  lemma DirectiveCounts(pre: string, k: ActionKind, c: string, post: string, k': ActionKind)
    requires NoLt(pre) && NoLt(c) && NoLt(post)
    ensures CountTags(pre + Wrap(k, c) + post, k') == (if k' == k then TagCount(1, 1) else TagCount(0, 0))
  {
    var s := pre + Wrap(k, c) + post;
    if k' == k {
      DirectiveOpenOnly(pre, k, c, post);
      DirectiveCloseOnly(pre, k, c, post);
      CountSingle(s, OpenTag(k), |pre|);
      CountSingle(s, CloseTag(k), |pre| + |OpenTag(k)| + |c|);
    } else {
      TagsAreTags(k');
      TagsDistinct(k, k');
      TagsDistinct(k', k);
      DirectiveOccurrences(pre, k, c, post, OpenTag(k'));
      DirectiveOccurrences(pre, k, c, post, CloseTag(k'));
      CountNoOccurrence(s, OpenTag(k'));
      CountNoOccurrence(s, CloseTag(k'));
    }
  }

  /** The kinds whose opening tag occurs once are exactly those listed in `ks` that are. */
  lemma {:induction false} OnceKindsMembers(response: string, ks: seq<ActionKind>)
    ensures forall k :: k in OnceKinds(response, ks) <==> k in ks && CountTags(response, k).start == 1
  {
    if ks != [] {
      var init := ks[..|ks| - 1];
      OnceKindsMembers(response, init);
      assert ks == init + [ks[|ks| - 1]];
    }
  }

  predicate Distinct(ks: seq<ActionKind>) {
    forall i, j :: 0 <= i < j < |ks| ==> ks[i] != ks[j]
  }

  lemma ActionsDistinct()
    ensures Distinct(Actions)
  {
  }

  lemma {:induction false} OnceKindsDistinct(response: string, ks: seq<ActionKind>)
    requires Distinct(ks)
    ensures Distinct(OnceKinds(response, ks))
  {
    if ks != [] {
      var init := ks[..|ks| - 1];
      OnceKindsDistinct(response, init);
      OnceKindsMembers(response, init);
    }
  }

  /** When only `k`'s opening tag occurs once, the candidates among distinct `ks` are `[k]`
      or none. */
  lemma {:induction false} OnceKindsSingle(response: string, ks: seq<ActionKind>, k: ActionKind)
    requires Distinct(ks)
    requires forall k' :: CountTags(response, k').start == 1 <==> k' == k
    ensures OnceKinds(response, ks) == if k in ks then [k] else []
  {
    if ks != [] {
      var init, last := ks[..|ks| - 1], ks[|ks| - 1];
      assert ks == init + [last];
      OnceKindsSingle(response, init, k);
      assert last == k ==> k !in init;
    }
  }

  lemma FirstPairAt(s: string, k: ActionKind, i: nat, j: nat)
    requires Find(s, OpenTag(k)) == Some(i)
    requires FindFrom(s, CloseTag(k), i + |OpenTag(k)|) == Some(j)
    ensures FirstPair(s, k) == Some(s[i + |OpenTag(k)|..j])
  {
    FirstBetweenAt(s, OpenTag(k), CloseTag(k), i, j);
  }

  lemma FirstBetweenAt(s: string, o: string, e: string, i: nat, j: nat)
    requires Find(s, o) == Some(i) && FindFrom(s, e, i + |o|) == Some(j)
    ensures FirstBetween(s, o, e) == Some(s[i + |o|..j])
  {
  }

  /** The non-greedy match when each of `k`'s tags occurs at one place only, in order. */
  lemma FirstPairOfUniqueTags(s: string, k: ActionKind, p1: nat, p2: nat)
    requires OccursAt(s, OpenTag(k), p1) && forall i :: OccursAt(s, OpenTag(k), i) ==> i == p1
    requires OccursAt(s, CloseTag(k), p2) && forall i :: OccursAt(s, CloseTag(k), i) ==> i == p2
    requires p1 + |OpenTag(k)| <= p2
    ensures FirstPair(s, k) == Some(s[p1 + |OpenTag(k)|..p2])
  {
    FirstBetweenOfUnique(s, OpenTag(k), CloseTag(k), p1, p2);
  }

  lemma FirstBetweenOfUnique(s: string, o: string, e: string, p1: nat, p2: nat)
    requires OccursAt(s, o, p1) && forall i :: OccursAt(s, o, i) ==> i == p1
    requires OccursAt(s, e, p2) && forall i :: OccursAt(s, e, i) ==> i == p2
    requires p1 + |o| <= p2
    ensures FirstBetween(s, o, e) == Some(s[p1 + |o|..p2])
  {
    FindFromIs(s, o, 0, p1);
    FindFromIs(s, e, p1 + |o|, p2);
    FirstBetweenAt(s, o, e, p1, p2);
  }

  lemma FirstPairOfDirective(pre: string, k: ActionKind, c: string, post: string)
    requires NoLt(pre) && NoLt(c) && NoLt(post)
    ensures FirstPair(pre + Wrap(k, c) + post, k) == Some(c)
  {
    var s := pre + Wrap(k, c) + post;
    var p1, p2 := |pre|, |pre| + |OpenTag(k)| + |c|;
    assert s[p1 + |OpenTag(k)|..p2] == c by { DirectiveContent(pre, k, c, post); }
    assert FirstPair(s, k) == Some(s[p1 + |OpenTag(k)|..p2]) by {
      DirectiveOpenOnly(pre, k, c, post);
      DirectiveCloseOnly(pre, k, c, post);
      FirstPairOfUniqueTags(s, k, p1, p2);
    }
  }

  lemma DirectiveContent(pre: string, k: ActionKind, c: string, post: string)
    ensures var p := |pre| + |OpenTag(k)|;
      (pre + Wrap(k, c) + post)[p..p + |c|] == c
  {
    var o, e := OpenTag(k), CloseTag(k);
    assert pre + Wrap(k, c) + post == (pre + o) + c + (e + post);
    SliceMiddle(pre + o, c, e + post);
  }

  /** The validator on a reply where only `k`'s tags occur, once each, around `c`. */
  lemma ValidateOfSingleKind(s: string, k: ActionKind, c: string)
    requires k != Summary
    requires forall k' :: CountTags(s, k') == (if k' == k then TagCount(1, 1) else TagCount(0, 0))
    requires FirstPair(s, k) == Some(c)
    ensures Validate(s) == Some(Wrap(k, Trim(c)))
  {
    assert CountTags(s, Summary).start == 0;
    assert forall j :: 0 <= j < |Actions| ==> Paired(s, Actions[j]) by {
      forall j | 0 <= j < |Actions| ensures Paired(s, Actions[j]) {
        assert CountTags(s, Actions[j]) == (if Actions[j] == k then TagCount(1, 1) else TagCount(0, 0));
      }
    }
    assert OnceKinds(s, Actions) == [k] by {
      ActionsComplete(k);
      ActionsDistinct();
      assert forall k' :: CountTags(s, k').start == 1 <==> k' == k;
      OnceKindsSingle(s, Actions, k);
    }
  }

  /** A reply holding a single non-summary directive, with no other `<` in it, is accepted
      and rewritten to its canonical form with trimmed content. */
  lemma ValidateSingleDirective(pre: string, k: ActionKind, c: string, post: string)
    requires k != Summary && NoLt(pre) && NoLt(c) && NoLt(post)
    ensures Validate(pre + Wrap(k, c) + post) == Some(Wrap(k, Trim(c)))
  {
    var s := pre + Wrap(k, c) + post;
    forall k' ensures CountTags(s, k') == (if k' == k then TagCount(1, 1) else TagCount(0, 0)) {
      DirectiveCounts(pre, k, c, post, k');
    }
    FirstPairOfDirective(pre, k, c, post);
    ValidateOfSingleKind(s, k, c);
  }

  /** A single directive of any kind, with no other `<` in the reply, is accepted and
      rewritten to its canonical form with trimmed content. */
  lemma ValidateDirective(pre: string, k: ActionKind, c: string, post: string)
    requires NoLt(pre) && NoLt(c) && NoLt(post)
    ensures Validate(pre + Wrap(k, c) + post) == Some(Wrap(k, Trim(c)))
  {
    if k == Summary {
      ValidateSummaryDirective(pre, c, post);
    } else {
      ValidateSingleDirective(pre, k, c, post);
    }
  }

  lemma ValidateSummaryDirective(pre: string, c: string, post: string)
    requires NoLt(pre) && NoLt(c) && NoLt(post)
    ensures Validate(pre + Wrap(Summary, c) + post) == Some(Wrap(Summary, Trim(c)))
  {
    var s := pre + Wrap(Summary, c) + post;
    var p1, p2 := |pre|, |pre| + |OpenTag(Summary)| + |c|;
    DirectiveOpenOnly(pre, Summary, c, post);
    DirectiveCloseOnly(pre, Summary, c, post);
    FindFromIs(s, OpenTag(Summary), 0, p1);
    RFindIs(s, CloseTag(Summary), p2);
    CountSingle(s, OpenTag(Summary), p1);
    DirectiveContent(pre, Summary, c, post);
  }

  /** With no `<summary>`, a kind whose tags are unpaired or repeated makes the reply invalid. */
  lemma ValidateRejectsUnpaired(response: string, k: ActionKind)
    requires CountTags(response, Summary).start == 0 && !Paired(response, k)
    ensures Validate(response) == None
  {
    ActionsComplete(k);
    var j :| 0 <= j < |Actions| && Actions[j] == k;
  }

  /** With no `<summary>`, two different directives make the reply invalid. */
  lemma ValidateRejectsTwo(response: string, k1: ActionKind, k2: ActionKind)
    requires CountTags(response, Summary).start == 0 && k1 != k2
    requires CountTags(response, k1).start == 1 && CountTags(response, k2).start == 1
    ensures Validate(response) == None
  {
    OnceKindsMembers(response, Actions);
    ActionsComplete(k1);
    ActionsComplete(k2);
    var once := OnceKinds(response, Actions);
    assert k1 in once && k2 in once;
  }

  /** With no `<summary>`, a reply in which no kind's opening tag occurs exactly once, such
      as a reply with no directive tag at all, is invalid. */
  lemma ValidateRejectsNone(response: string)
    requires CountTags(response, Summary).start == 0
    requires forall k :: CountTags(response, k).start != 1
    ensures Validate(response) == None
  {
    OnceKindsMembers(response, Actions);
    var once := OnceKinds(response, Actions);
    assert forall i :: 0 <= i < |once| ==> once[i] in once;
  }

  /** With no `<summary>`, an accepted reply holds exactly one directive's tags: its kind's
      opening and closing tags once each, and no tag of any other kind. */
  lemma ValidatedHasOneKind(response: string)
    requires CountTags(response, Summary).start == 0 && Validate(response).Some?
    ensures var k := Directive(response).value.0;
      && CountTags(response, k) == TagCount(1, 1)
      && forall k' :: k' != k ==> CountTags(response, k') == TagCount(0, 0)
  {
    OnceKindsMembers(response, Actions);
    var once := OnceKinds(response, Actions);
    assert |once| == 1;
    var k := once[0];
    assert once == [k];
    assert k in once;
    assert Directive(response).value.0 == k;
    forall k' ensures Paired(response, k') {
      ActionsComplete(k');
      var j :| 0 <= j < |Actions| && Actions[j] == k';
    }
    forall k' | k' != k ensures CountTags(response, k') == TagCount(0, 0) {
      ActionsComplete(k');
      assert k' !in once;
    }
  }

  /** With no `<summary>`, a directive whose only closing tag comes before its opening tag is
      missed by the non-greedy match, and the reply is invalid. */
  lemma ValidateRejectsCloseBeforeOpen(response: string, k: ActionKind, q: nat)
    requires CountTags(response, Summary).start == 0 && CountTags(response, k) == TagCount(1, 1)
    requires OccursAt(response, CloseTag(k), q)
    requires forall i :: OccursAt(response, OpenTag(k), i) ==> q < i
    ensures Validate(response) == None
  {
    TagsAreTags(k);
    CountOneOnly(response, CloseTag(k), q);
    FirstPairMisses(response, k, q);
    ValidateOfMiss(response, k);
  }

  lemma FirstPairMisses(s: string, k: ActionKind, q: nat)
    requires forall i :: OccursAt(s, CloseTag(k), i) ==> i == q
    requires forall i :: OccursAt(s, OpenTag(k), i) ==> q < i
    ensures FirstPair(s, k) == None
  {
  }

  /** When the only candidate's match misses, the reply is invalid. */
  lemma ValidateOfMiss(response: string, k: ActionKind)
    requires CountTags(response, Summary).start == 0 && CountTags(response, k).start == 1
    requires FirstPair(response, k) == None
    ensures Validate(response) == None
  {
    OnceKindsMembers(response, Actions);
    ActionsComplete(k);
  }

  /** Once `<summary>` occurs the other tags are not checked: the reply is accepted exactly
      when `</summary>` occurs too, as a summary directive. */
  lemma SummaryShortCircuits(response: string)
    requires Contains(response, OpenTag(Summary))
    ensures Validate(response).Some? <==> Contains(response, CloseTag(Summary))
    ensures Validate(response).Some? ==> exists c :: IsTrimmed(c) && Validate(response) == Some(Wrap(Summary, c))
  {
    CountZeroIff(response, OpenTag(Summary));
    ContainsIff(response, CloseTag(Summary));
    RFindLast(response, CloseTag(Summary));
  }

  /** The summary accepted is the text from just after the first `<summary>` to the last
      `</summary>`, trimmed: empty when that closing tag starts before the opening tag ends. */
  lemma SummaryContent(response: string, i: nat, j: nat)
    requires OccursAt(response, OpenTag(Summary), i)
    requires forall k :: 0 <= k < i ==> !OccursAt(response, OpenTag(Summary), k)
    requires OccursAt(response, CloseTag(Summary), j)
    requires forall k :: j < k ==> !OccursAt(response, CloseTag(Summary), k)
    ensures Validate(response) == Some(Wrap(Summary, Trim(Slice(response, i + |OpenTag(Summary)|, j))))
  {
    FindFromIs(response, OpenTag(Summary), 0, i);
    RFindIs(response, CloseTag(Summary), j);
    ContainsIff(response, OpenTag(Summary));
    CountZeroIff(response, OpenTag(Summary));
  }

  /** The summary content is empty when the last `</summary>` does not come after the first
      `<summary>`. */
  lemma SummaryCloseBeforeOpen(response: string)
    requires Contains(response, OpenTag(Summary)) && RFind(response, CloseTag(Summary)).Some?
    requires RFind(response, CloseTag(Summary)).value
      < Find(response, OpenTag(Summary)).value + |OpenTag(Summary)|
    ensures Validate(response) == Some(Wrap(Summary, ""))
  {
    CountZeroIff(response, OpenTag(Summary));
    assert Trim("") == "";
  }

  datatype ParsedAction = ParsedAction(actionType: string, content: string)

  /** `parse_action`: kind between the first `<` and the `>` after it, content between
      that `>` and the last `</`, trimmed; `ValueError` when a boundary is missing. */
  function ParseAction(action: string): Result<ParsedAction, string> {
    var err := Err("Invalid action format: " + action);
    match Find(action, "<")
    case None => err
    case Some(open) =>
      match FindFrom(action, ">", open)
      case None => err
      case Some(close) =>
        match RFind(action, "</")
        case None => err
        case Some(endOpen) =>
          match RFindFrom(action, ">", endOpen)
          case None => err
          case Some(_) => Ok(ParsedAction(action[open + 1..close], Trim(Slice(action, close + 1, endOpen))))
  }

  /** Python's `s.split(sep)[0]`: the text before the first `sep`, or all of it. */
  function Before(s: string, sep: string): (r: string)
    ensures r <= s
    ensures !Contains(s, sep) ==> r == s
    ensures Contains(s, sep) ==> r + sep <= s && forall k :: 0 <= k < |r| ==> !OccursAt(s, sep, k)
  {
    match Find(s, sep)
    case Some(j) =>
      FindFromFirst(s, sep, 0);
      assert s[j..j + |sep|] == sep;
      s[..j]
    case None => s
  }

  datatype FinalError = IndexError

  const NoAnswer := "did not find answer"

  /** `_compose_final_output`: `response.split("<answer>")[1].split("</answer>")[0]`
      when `</answer>` occurs; indexing `[1]` raises when `<answer>` does not. */
  function ComposeFinalOutput(response: string): Result<string, FinalError> {
    if !Contains(response, CloseTag(Answer)) then Ok(NoAnswer)
    else
      match Find(response, OpenTag(Answer))
      case None => Err(IndexError)
      case Some(i) =>
        var piece := Before(response[i + |OpenTag(Answer)|..], OpenTag(Answer));
        Ok(Before(piece, CloseTag(Answer)))
  }

  /** `remove_markdown_blocks` on one line: `^```` then `` ``$ `` under re.MULTILINE. The
      line is the result with an opening fence mark before it, exactly when the line starts
      with one, and two backquotes after it, exactly when what follows that mark ends with
      two. */
  function StripFenceLine(line: string): (r: string)
    ensures var p := if |line| >= 3 && line[..3] == "```" then "```" else "";
      var q := if EndsWith(line[|p|..], "``") then "``" else "";
      line == p + r + q
    ensures |r| <= |line|
    ensures (forall k :: 0 <= k < |line| ==> line[k] != '`') ==> r == line
  {
    var a := if |line| >= 3 && line[..3] == "```" then assert line[0] == line[..3][0]; line[3..] else line;
    if |a| >= 2 && a[|a| - 2..] == "``" then assert a[|a| - 1] == a[|a| - 2..][1]; a[..|a| - 2] else a
  }

  function MapStripFence(lines: seq<string>): (r: seq<string>)
    ensures |r| == |lines|
    ensures forall i :: 0 <= i < |r| ==> r[i] == StripFenceLine(lines[i])
  {
    seq(|lines|, i requires 0 <= i < |lines| => StripFenceLine(lines[i]))
  }

  /** `remove_markdown_blocks`: both substitutions act line by line. */
  function RemoveMarkdownBlocks(text: string): string {
    Join(MapStripFence(Split(text, "\n")), "\n")
  }

  /** `parse_action` inverts the canonical form: it gives back the kind's name and the
      trimmed content, whatever the content holds. */
  lemma ParseOfWrap(k: ActionKind, c: string)
    ensures ParseAction(Wrap(k, c)) == Ok(ParsedAction(Name(k), Trim(c)))
  {
    var o, e := OpenTag(k), CloseTag(k);
    TagsAreTags(k);
    assert e[..2] == "</";
    assert o[1..|o| - 1] == Name(k);
    ParseOfTagged(o, c, e);
  }

  /** `parse_action` on an opening tag, any content and a closing tag starting with `</`. */
  lemma ParseOfTagged(o: string, c: string, e: string)
    requires IsTag(o) && IsTag(e) && |e| >= 3 && e[..2] == "</"
    ensures ParseAction(o + c + e) == Ok(ParsedAction(o[1..|o| - 1], Trim(c)))
  {
    var w := o + c + e;
    var p2 := |o| + |c|;
    TagLeads(w, o);
    TagEnds(o, c, e);
    ParseActionAt(w, 0, |o| - 1, p2);
    assert w[|o|..p2] == c;
    assert w[1..|o| - 1] == o[1..|o| - 1];
  }

  /** A string that starts with a tag has its first `<` and first `>` at that tag's ends. */
  lemma TagLeads(w: string, o: string)
    requires IsTag(o) && o <= w
    ensures Find(w, "<") == Some(0) && FindFrom(w, ">", 0) == Some(|o| - 1)
  {
    assert OccursAt(w, "<", 0) by { assert w[0..1] == [o[0]]; }
    FindFromIs(w, "<", 0, 0);
    assert OccursAt(w, ">", |o| - 1) by { assert w[|o| - 1..|o|] == [o[|o| - 1]]; }
    forall i | 0 <= i < |o| - 1 ensures !OccursAt(w, ">", i) {
      assert w[i..i + 1] == [o[i]];
    }
    FindFromIs(w, ">", 0, |o| - 1);
  }

  /** A string that ends with a closing tag has its last `</` and last `>` in that tag. */
  lemma TagEnds(o: string, c: string, e: string)
    requires IsTag(e) && |e| >= 3 && e[..2] == "</"
    ensures RFind(o + c + e, "</") == Some(|o| + |c|)
    ensures RFindFrom(o + c + e, ">", |o| + |c|) == Some(|o + c + e| - 1)
  {
    var w := o + c + e;
    TaggedTail(o, c, e);
    RFindIs(w, "</", |o| + |c|);
    assert OccursAt(w, ">", |w| - 1) by { assert w[|w| - 1..] == [e[|e| - 1]]; }
    RFindIs(w, ">", |w| - 1);
  }

  lemma ParseActionAt(action: string, open: nat, close: nat, endOpen: nat)
    requires Find(action, "<") == Some(open) && FindFrom(action, ">", open) == Some(close)
    requires RFind(action, "</") == Some(endOpen) && RFindFrom(action, ">", endOpen).Some?
    ensures ParseAction(action)
      == Ok(ParsedAction(action[open + 1..close], Trim(Slice(action, close + 1, endOpen))))
  {
    assert ParseAction(action).Ok?;
    assert ParseAction(action).value.content == Trim(Slice(action, close + 1, endOpen));
    assert ParseAction(action).value.actionType == action[open + 1..close];
  }

  /** The last `</` of `o + c + e` is the one opening `e`. */
  lemma TaggedTail(o: string, c: string, e: string)
    requires IsTag(e) && |e| >= 3 && e[..2] == "</"
    ensures var w := o + c + e;
      OccursAt(w, "</", |o| + |c|) && forall i :: |o| + |c| < i ==> !OccursAt(w, "</", i)
  {
    var w := o + c + e;
    var p2 := |o| + |c|;
    assert w[p2..] == e;
    assert w[p2..p2 + 2] == e[..2];
    forall i | p2 < i ensures !OccursAt(w, "</", i) {
      if i + 2 <= |w| {
        assert w[i..i + 2][0] == w[i] == e[i - p2];
      }
    }
  }

  /** `Wrap` is injective: the canonical form determines kind and content. */
  lemma WrapInjective(k1: ActionKind, c1: string, k2: ActionKind, c2: string)
    ensures Wrap(k1, c1) == Wrap(k2, c2) ==> k1 == k2 && c1 == c2
  {
    if Wrap(k1, c1) == Wrap(k2, c2) {
      TagsAreTags(k1);
      TagsAreTags(k2);
      TagsDistinct(k1, k2);
      TaggedInjective(OpenTag(k1), c1, CloseTag(k1), OpenTag(k2), c2, CloseTag(k2));
    }
  }

  /** A tagged string determines its opening tag, and with it its content when the
      opening tag determines the closing one. */
  lemma TaggedInjective(o1: string, c1: string, e1: string, o2: string, c2: string, e2: string)
    requires IsTag(o1) && IsTag(o2) && o1 + c1 + e1 == o2 + c2 + e2
    requires o1 == o2 ==> e1 == e2
    ensures o1 == o2 && c1 == c2
  {
    assert o1 + c1 + e1 == o1 + (c1 + e1);
    assert o2 + c2 + e2 == o2 + (c2 + e2);
    LeadingTagsEqual(o1, c1 + e1, o2, c2 + e2);
    MiddleInjective(o1, c1, c2, e1);
  }

  /** Two strings that are equal and both start with a tag start with the same tag. */
  lemma LeadingTagsEqual(t1: string, r1: string, t2: string, r2: string)
    requires IsTag(t1) && IsTag(t2) && t1 + r1 == t2 + r2
    ensures t1 == t2
  {
    var w := t1 + r1;
    assert OccursAt(w, t1, 0) by { assert w[..|t1|] == t1; }
    assert OccursAt(w, t2, 0) by { assert w[..|t2|] == t2; }
    SameTagAt(w, t1, t2, 0);
  }

  lemma MiddleInjective(o: string, c1: string, c2: string, e: string)
    requires o + c1 + e == o + c2 + e
    ensures c1 == c2
  {
    var w := o + c1 + e;
    assert |c1| == |c2|;
    assert c1 == w[|o|..|o| + |c1|];
    assert c2 == (o + c2 + e)[|o|..|o| + |c2|];
  }

  /** What the validator returns is canonical, so `parse_action` and the dispatch in
      `execute_response` both accept it and recover the directive. */
  lemma ValidatedIsCanonical(response: string, k: ActionKind, c: string)
    requires Directive(response) == Some((k, c))
    ensures Validate(response) == Some(Wrap(k, c)) && IsTrimmed(c)
    ensures ParseAction(Wrap(k, c)) == Ok(ParsedAction(Name(k), c)) && KindOf(Name(k)) == Some(k)
  {
    ParseOfWrap(k, c);
    TrimOfTrimmed(c);
    KindOfName(k);
  }

  /** `<answer>` never occurs inside a closing tag. */
  lemma CloseTagHoldsNoOpen(k: ActionKind, k': ActionKind)
    ensures !Contains(CloseTag(k), OpenTag(k'))
  {
    var e, o := CloseTag(k), OpenTag(k');
    TagsAreTags(k);
    TagsAreTags(k');
    NameIsLowercase(k');
    forall i | 0 <= i && i + |o| <= |e| ensures !OccursAt(e, o, i) {
      assert e[i..i + |o|][0] == e[i];
      assert e[i..i + |o|][1] == e[i + 1];
    }
    ContainsIff(e, o);
  }

  /** `_compose_final_output` on a canonical answer gives back its content, provided the
      content holds neither answer tag. */
  lemma ComposeOfAnswer(c: string)
    requires !Contains(c, OpenTag(Answer)) && !Contains(c, CloseTag(Answer))
    ensures ComposeFinalOutput(Wrap(Answer, c)) == Ok(c)
  {
    var o, e := OpenTag(Answer), CloseTag(Answer);
    var w := Wrap(Answer, c);
    TagsAreTags(Answer);
    assert w == o + (c + e);
    assert OccursAt(w, o, 0) by { assert w[0..|o|] == o; }
    FindFromIs(w, o, 0, 0);
    assert OccursAt(w, e, |o| + |c|) by { assert w[|o| + |c|..|o| + |c| + |e|] == e; }
    ContainsIff(w, e);
    assert w[|o|..] == c + e;
    CloseTagHoldsNoOpen(Answer, Answer);
    NotContainsConcat(c, e, o);
    FindAppended(c, e);
    assert (c + e)[..|c|] == c;
  }

  /** The content the validator puts in a non-summary directive holds neither of that
      directive's tags. */
  lemma ValidatedContentTagFree(response: string, k: ActionKind)
    requires CountTags(response, k) == TagCount(1, 1)
    requires FirstPair(response, k).Some?
    ensures var c := Trim(FirstPair(response, k).value);
      !Contains(c, OpenTag(k)) && !Contains(c, CloseTag(k))
  {
    var o, e := OpenTag(k), CloseTag(k);
    TagsAreTags(k);
    assert Count(response, o) == 1 by { assert CountTags(response, k).start == Count(response, o); }
    FirstBetweenFree(response, o, e);
  }

  lemma FirstBetweenFree(s: string, o: string, e: string)
    requires UniqueLead(o) && |e| > 0 && Count(s, o) == 1 && FirstBetween(s, o, e).Some?
    ensures !Contains(Trim(FirstBetween(s, o, e).value), o)
    ensures !Contains(Trim(FirstBetween(s, o, e).value), e)
  {
    var i := Find(s, o).value;
    var f := i + |o|;
    var j := FindFrom(s, e, f).value;
    FirstMatchFree(s, o, e, i, f, j);
  }

  /** The text from the only occurrence of `o` to the first `e` after it, trimmed, holds
      neither. */
  lemma FirstMatchFree(s: string, o: string, e: string, i: nat, f: nat, j: nat)
    requires UniqueLead(o) && |e| > 0 && Count(s, o) == 1
    requires Find(s, o) == Some(i) && f == i + |o| && FindFrom(s, e, f) == Some(j)
    ensures !Contains(Trim(s[f..j]), o) && !Contains(Trim(s[f..j]), e)
  {
    FindFromBefore(s, e, f, j);
    BetweenTagsFree(s, o, e, i, f, j);
  }

  /** The text between the only occurrence of `o` and the first `e` after it, trimmed,
      holds neither. */
  lemma BetweenTagsFree(s: string, o: string, e: string, i: nat, f: nat, j: nat)
    requires UniqueLead(o) && |e| > 0 && Count(s, o) == 1 && OccursAt(s, o, i)
    requires f == i + |o| && f <= j <= |s|
    requires forall q :: f <= q < j ==> !OccursAt(s, e, q)
    ensures !Contains(Trim(s[f..j]), o) && !Contains(Trim(s[f..j]), e)
  {
    var m := s[f..j];
    assert !Contains(m, o) by {
      CountOneOnly(s, o, i);
      BetweenFree(s, o, f, j);
    }
    assert !Contains(m, e) by { BetweenFree(s, e, f, j); }
    TrimKeepsAbsent(m, o);
    TrimKeepsAbsent(m, e);
  }

  /** A run that ends on a validated answer reports exactly that answer's content. */
  lemma ComposeOfValidatedAnswer(response: string, c: string)
    requires Validate(response) == Some(Wrap(Answer, c))
    ensures ComposeFinalOutput(Wrap(Answer, c)) == Ok(c)
  {
    if CountTags(response, Summary).start == 0 {
      var k := OnceKinds(response, Actions)[0];
      var m := FirstPair(response, k).value;
      WrapInjective(k, Trim(m), Answer, c);
      OnceKindsMembers(response, Actions);
      assert k in OnceKinds(response, Actions);
      assert Paired(response, Actions[0]) && Paired(response, Actions[1]) && Paired(response, Actions[2]);
      assert Paired(response, Actions[3]) && Paired(response, Actions[4]);
      ValidatedContentTagFree(response, k);
    } else {
      WrapInjective(Summary, SummarySpan(response).value, Answer, c);
    }
    ComposeOfAnswer(c);
  }

  /** `remove_markdown_blocks` keeps the line structure: the lines of its result are the
      input's lines, each with its fence marks removed. */
  lemma RemoveMarkdownBlocksLines(text: string)
    ensures Split(RemoveMarkdownBlocks(text), "\n") == MapStripFence(Split(text, "\n"))
  {
    var lines := Split(text, "\n");
    var out := MapStripFence(lines);
    SplitPiecesFree(text, "\n");
    forall i | 0 <= i < |out| ensures NoChar(out[i], '\n') {
      assert lines[i] in lines;
      NoCharIff(lines[i], '\n');
    }
    forall i | 0 <= i < |out| - 1 ensures SepFirstAfter(out[i], "\n") {
      SepFirstAfterOfFree(out[i], "\n");
    }
    NoCharIff(out[|out| - 1], '\n');
    SplitJoin(out, "\n");
  }
}
