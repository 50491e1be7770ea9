/**
 * How an agent's intermediate text is shown: the text is cut into steps at the
 * `|||---|||` separator the backends write, the collapsed view previews the last
 * three steps (at most 200 characters of them, after an ellipsis), and the expanded
 * view flags the last step while the agent is still working.
 */
module IntermediateDisplay {
  import opened Wrappers
  import opened Strings
  import Agent

  const Separator := "|||---|||"
  const PreviewLimit := 200
  const Ellipsis := "..."
  const NewLine := "\n"

  /** The pieces trimmed, with the empty ones dropped, in order. */
  function TrimmedSteps(pieces: seq<string>): (steps: seq<string>)
    ensures |steps| <= |pieces|
    ensures forall k :: 0 <= k < |steps| ==> steps[k] != "" && IsTrimmed(steps[k])
    decreases |pieces|
  {
    if pieces == [] then []
    else
      var t := Trim(pieces[|pieces| - 1]);
      TrimmedSteps(pieces[..|pieces| - 1]) + (if t == "" then [] else [t])
  }

  /** The steps of the intermediate text. */
  function Steps(text: string): seq<string> {
    TrimmedSteps(Split(text, Separator))
  }

  /** No step is empty, has whitespace at either end, or holds the separator. */
  lemma StepsClean(text: string)
    ensures forall k :: 0 <= k < |Steps(text)| ==> Steps(text)[k] != "" && IsTrimmed(Steps(text)[k])
    ensures forall k :: 0 <= k < |Steps(text)| ==> !Contains(Steps(text)[k], Separator)
  {
    SplitPiecesFree(text, Separator);
    TrimmedStepsFree(Split(text, Separator));
  }

  lemma {:induction false} TrimmedStepsFree(pieces: seq<string>)
    requires forall p :: p in pieces ==> !Contains(p, Separator)
    ensures forall k :: 0 <= k < |TrimmedSteps(pieces)| ==> !Contains(TrimmedSteps(pieces)[k], Separator)
    decreases |pieces|
  {
    if pieces != [] {
      var init := pieces[..|pieces| - 1];
      var last := pieces[|pieces| - 1];
      assert forall p :: p in init ==> p in pieces;
      TrimmedStepsFree(init);
      TrimKeepsAbsent(last, Separator);
    }
  }

  /** Cleaned steps come through unchanged. */
  lemma {:induction false} TrimmedStepsOfClean(steps: seq<string>)
    requires forall k :: 0 <= k < |steps| ==> steps[k] != "" && IsTrimmed(steps[k])
    ensures TrimmedSteps(steps) == steps
    decreases |steps|
  {
    if steps != [] {
      TrimmedStepsOfClean(steps[..|steps| - 1]);
      TrimOfTrimmed(steps[|steps| - 1]);
    }
  }

  // ---------------------------------------------------------------------------
  // The text the agent writes

  /** The text built by writing each step followed by the separator is the steps
      joined by the separator, with an empty last piece. */
  lemma {:induction false} AccumulateJoins(steps: seq<string>)
    ensures Agent.Accumulate("", steps) == Join(steps + [""], Separator)
    decreases |steps|
  {
    if steps != [] {
      var init := steps[..|steps| - 1];
      var s := steps[|steps| - 1];
      AccumulateJoins(init);
      assert init + [s] == steps;
      if init == [] {
        assert Join([s, ""], Separator) == s + Separator + Join([""], Separator);
      } else {
        JoinAppend(init, Separator, "");
        JoinAppend(init, Separator, s);
        JoinAppend(steps, Separator, "");
      }
    }
  }

  /** Reading back the agent's text gives the steps it wrote, trimmed and without the
      empty ones, provided the first separator after each step is the one written
      after it. Not holding the separator is not enough: see SeparatorOverlap. */
  lemma StepsOfAccumulated(steps: seq<string>)
    requires forall i :: 0 <= i < |steps| ==> SepFirstAfter(steps[i], Separator)
    ensures Steps(Agent.Accumulate("", steps)) == TrimmedSteps(steps)
    ensures (forall k :: 0 <= k < |steps| ==> steps[k] != "" && IsTrimmed(steps[k])) ==>
      Steps(Agent.Accumulate("", steps)) == steps
  {
    var parts := steps + [""];
    AccumulateJoins(steps);
    forall i | 0 <= i < |parts| - 1 ensures SepFirstAfter(parts[i], Separator) {
      assert parts[i] == steps[i];
    }
    assert !Contains("", Separator);
    SplitJoin(parts, Separator);
    assert parts[..|steps|] == steps;
    assert Trim("") == "";
    if forall k :: 0 <= k < |steps| ==> steps[k] != "" && IsTrimmed(steps[k]) {
      TrimmedStepsOfClean(steps);
    }
  }

  /** A step that ends with the start of the separator is cut in two when read back:
      `x|||---` written as a step comes back as the steps `x` and `---|||`. */
  lemma SeparatorOverlap()
    ensures !Contains("x|||---", Separator)
    ensures Steps(Agent.Accumulate("", ["x|||---"])) == ["x", "---|||"]
  {
    var text := "x|||---|||---|||";
    assert Agent.Accumulate("", ["x|||---"]) == text by {
      assert ["x|||---"][..0] == [];
    }
    OverlapSplit(text);
    OverlapTrimmed();
  }

  lemma OverlapSplit(text: string)
    requires text == "x|||---|||---|||"
    ensures Split(text, Separator) == ["x", "---|||"]
  {
    assert text[1..10] == Separator;
    assert text[0..9] != Separator by { assert text[0] != Separator[0]; }
    FindFromIs(text, Separator, 0, 1);
    assert text[..1] == "x" && text[10..] == "---|||";
  }

  lemma OverlapTrimmed()
    ensures TrimmedSteps(["x", "---|||"]) == ["x", "---|||"]
  {
    var steps := ["x", "---|||"];
    assert IsTrimmed(steps[0]) && IsTrimmed(steps[1]);
    TrimmedStepsOfClean(steps);
  }

  // ---------------------------------------------------------------------------
  // UTF-16: JavaScript's `length` and `slice` count code units, not characters

  /** A UTF-16 code unit. */
  type CodeUnit = u: int | 0 <= u < 0x1_0000

  /** One character in UTF-16: itself below U+10000, a surrogate pair beyond. */
  function CharUnits(c: char): (r: seq<CodeUnit>)
    ensures |r| == if c as int < 0x1_0000 then 1 else 2
  {
    if c as int < 0x1_0000 then [c as int]
    else
      var v := c as int - 0x1_0000;
      [0xD800 + v / 0x400, 0xDC00 + v % 0x400]
  }

  /** A string as JavaScript holds it: the code units of its characters, in order. */
  function Utf16(s: string): seq<CodeUnit>
    decreases |s|
  {
    if s == [] then [] else Utf16(s[..|s| - 1]) + CharUnits(s[|s| - 1])
  }

  /** Each character is one or two code units. */
  lemma {:induction false} Utf16Length(s: string)
    ensures |s| <= |Utf16(s)| <= 2 * |s|
    decreases |s|
  {
    if s != [] {
      Utf16Length(s[..|s| - 1]);
    }
  }

  lemma {:induction false} Utf16Append(a: string, b: string)
    ensures Utf16(a + b) == Utf16(a) + Utf16(b)
    decreases |b|
  {
    if b == [] {
      assert a + b == a;
    } else {
      var init, c := b[..|b| - 1], b[|b| - 1];
      Utf16Append(a, init);
      assert (a + b)[..|a + b| - 1] == a + init && (a + b)[|a + b| - 1] == c;
      assert Utf16(a + b) == Utf16(a + init) + CharUnits(c);
      assert Utf16(b) == Utf16(init) + CharUnits(c);
    }
  }

  /** A string ending with `suffix` ends with its code units. */
  lemma Utf16EndsWith(s: string, suffix: string)
    requires EndsWith(s, suffix)
    ensures EndsWith(Utf16(s), Utf16(suffix))
  {
    var p := s[..|s| - |suffix|];
    assert s == p + suffix;
    Utf16Append(p, suffix);
  }

  /** Below U+10000 a character is one code unit, so the two lengths agree. */
  lemma {:induction false} Utf16OfBmp(s: string)
    requires forall k :: 0 <= k < |s| ==> s[k] as int < 0x1_0000
    ensures |Utf16(s)| == |s|
    decreases |s|
  {
    if s != [] {
      Utf16OfBmp(s[..|s| - 1]);
    }
  }

  // ---------------------------------------------------------------------------
  // The collapsed view

  /** `slice(-3)`: the last three steps, or all of them when there are fewer. */
  function LastThree(steps: seq<string>): (r: seq<string>)
    ensures |r| == if |steps| < 3 then |steps| else 3
    ensures r == steps[|steps| - |r|..]
  {
    if |steps| <= 3 then steps else steps[|steps| - 3..]
  }

  function TrimEach(steps: seq<string>): (r: seq<string>)
    ensures |r| == |steps| && forall k :: 0 <= k < |steps| ==> r[k] == Trim(steps[k])
  {
    seq(|steps|, k requires 0 <= k < |steps| => Trim(steps[k]))
  }

  /** `getIntermediatePreview`, as the code units JavaScript holds: the last three steps
      trimmed and joined by newlines, clipped by `length` and `slice(-200)`, which count
      UTF-16 code units. */
  function Preview(steps: seq<string>): seq<CodeUnit> {
    if |steps| == 0 then [] else Clip(Utf16(Join(TrimEach(LastThree(steps)), NewLine)))
  }

  /** The joined text when it is at most 200 code units long, and otherwise the ellipsis
      followed by its last 200 code units (which may cut a surrogate pair in two). */
  function Clip(joined: seq<CodeUnit>): seq<CodeUnit> {
    if |joined| > PreviewLimit then Utf16(Ellipsis) + joined[|joined| - PreviewLimit..] else joined
  }

  /** The last 200 code units of `s`, or all of it when it is shorter. */
  function Tail(s: seq<CodeUnit>): seq<CodeUnit> {
    if |s| <= PreviewLimit then s else s[|s| - PreviewLimit..]
  }

  /** A joined list ends with its last piece. */
  lemma JoinEndsWithLast(parts: seq<string>, sep: string)
    requires parts != []
    ensures EndsWith(Join(parts, sep), parts[|parts| - 1])
  {
    var n := |parts|;
    if n > 1 {
      assert parts[..n - 1] + [parts[n - 1]] == parts;
      JoinAppend(parts[..n - 1], sep, parts[n - 1]);
    }
  }

  /** Clipping keeps at most 200 code units after the three of the ellipsis, keeps an empty
      text empty, and keeps the end of the text. */
  lemma ClipKeepsEnd(joined: seq<CodeUnit>, last: seq<CodeUnit>)
    requires EndsWith(joined, last)
    ensures |Clip(joined)| <= |Ellipsis| + PreviewLimit
    ensures Clip(joined) == [] <==> joined == []
    ensures EndsWith(Clip(joined), Tail(last))
  {
    if |joined| > PreviewLimit {
      var p := Clip(joined);
      var t := Tail(last);
      assert |Utf16(Ellipsis)| == |Ellipsis| by {
        Utf16OfBmp(Ellipsis);
      }
      assert p[|p| - |t|..] == joined[|joined| - |t|..];
    }
  }

  /** The preview is empty exactly when there are no steps, is never longer than 203
      code units, and ends with the most recent step, or with its last 200 code units
      when the step is longer. */
  lemma PreviewShape(text: string)
    ensures var steps := Steps(text); Preview(steps) == [] <==> steps == []
    ensures |Preview(Steps(text))| <= |Ellipsis| + PreviewLimit
    ensures var steps := Steps(text); steps != [] ==> EndsWith(Preview(steps), Tail(Utf16(steps[|steps| - 1])))
  {
    StepsClean(text);
    PreviewOfClean(Steps(text));
  }

  lemma PreviewOfClean(steps: seq<string>)
    requires forall k :: 0 <= k < |steps| ==> steps[k] != "" && IsTrimmed(steps[k])
    ensures Preview(steps) == [] <==> steps == []
    ensures |Preview(steps)| <= |Ellipsis| + PreviewLimit
    ensures steps != [] ==> EndsWith(Preview(steps), Tail(Utf16(steps[|steps| - 1])))
  {
    if steps != [] {
      var joined := Join(TrimEach(LastThree(steps)), NewLine);
      var last := steps[|steps| - 1];
      var units := Utf16(joined);
      assert Preview(steps) == Clip(units);
      Utf16Length(joined);
      RecentEndsWithLast(steps);
      Utf16EndsWith(joined, last);
      ClipKeepsEnd(units, Utf16(last));
    }
  }

  /** The joined recent steps end with the latest step, which trimming leaves alone. */
  lemma RecentEndsWithLast(steps: seq<string>)
    requires steps != [] && IsTrimmed(steps[|steps| - 1])
    ensures EndsWith(Join(TrimEach(LastThree(steps)), NewLine), steps[|steps| - 1])
  {
    var three := TrimEach(LastThree(steps));
    var last := steps[|steps| - 1];
    TrimOfTrimmed(last);
    assert three[|three| - 1] == last;
    JoinEndsWithLast(three, NewLine);
  }

  /** For text within the Basic Multilingual Plane, code units are characters: the preview
      is then the characters themselves, clipped to 200 of them. */
  lemma PreviewOfBmp(joined: string)
    requires forall k :: 0 <= k < |joined| ==> joined[k] as int < 0x1_0000
    ensures |Clip(Utf16(joined))| == if |joined| > PreviewLimit then |Ellipsis| + PreviewLimit else |joined|
  {
    Utf16OfBmp(joined);
    Utf16OfBmp(Ellipsis);
  }

  /** A character beyond U+FFFF, such as an emoji, is a surrogate pair and counts twice
      towards the 200-unit limit. */
  lemma SupplementaryCountsTwice(c: char)
    requires c as int >= 0x1_0000
    ensures |Utf16([c])| == 2
    ensures |Clip(Utf16([c, c]))| == 4
  {
    assert [c, c][..1] == [c];
  }

  /** Only the last three steps matter: steps before them do not change the preview. */
  lemma PreviewOfRecent(earlier: seq<string>, recent: seq<string>)
    requires |recent| >= 3
    ensures Preview(earlier + recent) == Preview(recent)
  {
    var all := earlier + recent;
    assert all[|all| - 3..] == recent[|recent| - 3..];
    assert LastThree(all) == LastThree(recent);
  }

  // ---------------------------------------------------------------------------
  // The component

  /** `isLastStep` for each step, in order. */
  function LastStepFlags(isIntermediate: bool, steps: seq<string>): (flags: seq<bool>)
    ensures |flags| == |steps|
    ensures forall i, j :: 0 <= i < j < |flags| ==> !(flags[i] && flags[j])
    ensures (exists i :: 0 <= i < |flags| && flags[i]) <==> isIntermediate && steps != []
    ensures isIntermediate && steps != [] ==> flags[|steps| - 1]
  {
    var flags := seq(|steps|, i requires 0 <= i < |steps| => isIntermediate && i == |steps| - 1);
    assert isIntermediate && steps != [] ==> flags[|steps| - 1];
    flags
  }

  /** What the component renders: the steps, the preview and the last-step flags. */
  datatype Rendered = Rendered(steps: seq<string>, preview: seq<CodeUnit>, lastStep: seq<bool>)

  /** `IntermediateDisplay`: nothing for an empty text. */
  function Render(text: string, isIntermediate: bool): (r: Option<Rendered>)
    ensures r.None? <==> text == ""
    ensures r.Some? ==> |r.value.lastStep| == |r.value.steps| && (r.value.preview == [] <==> r.value.steps == [])
  {
    if text == "" then None
    else
      var steps := Steps(text);
      PreviewShape(text);
      Some(Rendered(steps, Preview(steps), LastStepFlags(isIntermediate, steps)))
  }
}
