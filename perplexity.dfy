/**
 * The Perplexity producer: it reads the chunks of the Perplexity stream, routes the
 * text inside `<think>` blocks to the intermediate steps and the rest to the final
 * report, forwards the citation list only when it changes, and always ends with one
 * closing frame. The Markdown clean-up applied to the final report is a parameter.
 */
module Perplexity {
  import opened Wrappers
  import opened Strings
  import opened Json
  import Agent

  type Dict = map<string, Json>

  const OpenThink := "<think>"
  const CloseThink := "</think>"
  const BlankLine := "\n\n"

  const ContentKey := "content"
  const ErrorKey := "error"
  const DetailKey := "detail"
  const CitationsKey := "citations"
  const IntermediateSteps := "intermediate_steps"
  const FinalReport := "final_report"
  const IsIntermediate := "is_intermediate"
  const Complete := "complete"
  const IsComplete := "is_complete"
  const UnknownError := "Unknown perplexity error"
  const ErrorLead := "Error in perplexity_producer_gen: "

  /** The generator's accumulators: intermediate text, final text, whether a think
      block is open, and the last citation list forwarded. */
  datatype Think = Think(intermediate: string, final: string, inBlock: bool, citations: Json)

  const Initial := Think("", "", false, JArr([]))

  /** Where the text of one chunk goes, before the intermediate text is tidied. */
  function Route(t: Think, c: string): Think {
    if t.inBlock then
      match Find(c, CloseThink)
      case Some(i) =>
        t.(intermediate := t.intermediate + c[..i], final := t.final + c[i + |CloseThink|..], inBlock := false)
      case None => t.(intermediate := t.intermediate + c)
    else
      match Find(c, OpenThink)
      case None => t.(final := t.final + c)
      case Some(i) =>
        var rest := c[i + |OpenThink|..];
        match Find(rest, CloseThink)
        case Some(j) =>
          t.(intermediate := t.intermediate + rest[..j], final := t.final + c[..i] + rest[j + |CloseThink|..], inBlock := false)
        case None =>
          t.(intermediate := t.intermediate + rest, final := t.final + c[..i], inBlock := true)
  }

  /** The intermediate text after each chunk: blank lines become step separators, and
      surrounding whitespace is stripped. */
  function Tidy(s: string): string {
    Trim(ReplaceAll(s, BlankLine, Agent.StepSeparator))
  }

  /** A frame the generator yields: the payload after a chunk (with the citation list
      when it changed), an error, or the closing frame. `report` is the final text after
      the Markdown clean-up. */
  datatype Frame =
    | Update(intermediate: string, report: string, inBlock: bool, citations: Option<Json>)
    | Failure(error: Json)
    | Closed(intermediate: string, report: string, allCitations: Json)

  /** The JSON object each frame is sent as. */
  function Encode(f: Frame): Dict {
    match f
    case Update(i, r, b, c) =>
      var p := map[IntermediateSteps := JStr(i), FinalReport := JStr(r), IsIntermediate := JBool(b), Complete := JBool(false)];
      if c.Some? then p[CitationsKey := c.value] else p
    case Failure(e) => map[ErrorKey := e]
    case Closed(i, r, c) =>
      map[IntermediateSteps := JStr(i), FinalReport := JStr(r), IsIntermediate := JBool(false), IsComplete := JBool(true), CitationsKey := c]
  }

  /** The frame for an exception whose text is `text`. */
  function ErrorFrame(text: string): Frame {
    Failure(JStr(ErrorLead + text))
  }

  /** The frame the generator always sends last. */
  function Closing(t: Think, fix: string -> string): Frame {
    Closed(t.intermediate, fix(t.final), t.citations)
  }

  /** What one chunk does: it updates the accumulators and yields a frame, or it ends
      the loop with an error frame. */
  datatype Outcome = Next(state: Think, frame: Frame) | Halt(frame: Frame)

  /** One chunk. An error object yields its `detail`; a chunk that is not an object, or
      whose `content` is not a string, raises inside the loop, and `crash` is the text of
      that exception. */
  function Consume(t: Think, chunk: Json, fix: string -> string, crash: string): (r: Outcome)
    ensures r.Next? ==> r.frame.Update?
    ensures r.Halt? ==> r.frame.Failure?
  {
    match chunk
    case JObj(m) =>
      if ErrorKey in m then Halt(Failure(if DetailKey in m then m[DetailKey] else JStr(UnknownError)))
      else
        var content := if ContentKey in m then m[ContentKey] else JStr("");
        if !content.JStr? then Halt(ErrorFrame(crash))
        else
          var r := Route(t, content.s);
          var r := r.(intermediate := Tidy(r.intermediate));
          if CitationsKey in m && m[CitationsKey] != t.citations then
            var r := r.(citations := m[CitationsKey]);
            Next(r, Update(r.intermediate, fix(r.final), r.inBlock, Some(r.citations)))
          else Next(r, Update(r.intermediate, fix(r.final), r.inBlock, None))
    case _ => Halt(ErrorFrame(crash))
  }

  /** The chunks the client yields, then possibly an exception it raises. */
  datatype ChunkStream = ChunkStream(chunks: seq<Json>, failure: Option<string>)

  /** Everything the generator yields from accumulators `t` on. */
  function Produce(t: Think, chunks: seq<Json>, failure: Option<string>, fix: string -> string, crash: string): seq<Frame>
    decreases |chunks|
  {
    if chunks == [] then
      (if failure.Some? then [ErrorFrame(failure.value)] else []) + [Closing(t, fix)]
    else
      match Consume(t, chunks[0], fix, crash)
      case Halt(f) => [f, Closing(t, fix)]
      case Next(t', f) => [f] + Produce(t', chunks[1..], failure, fix, crash)
  }

  /** `perplexity_producer_gen` over a stream. The accumulators are kept together in
      one `Think` value. */
  method PerplexityProducer(stream: ChunkStream, fix: string -> string, crash: string) returns (frames: seq<Frame>)
    ensures frames == Produce(Initial, stream.chunks, stream.failure, fix, crash)
  {
    var acc := Initial;
    frames := [];
    var chunks := stream.chunks;
    var i := 0;
    while i < |chunks|
      invariant 0 <= i <= |chunks|
      invariant Produce(Initial, chunks, stream.failure, fix, crash) == frames + Produce(acc, chunks[i..], stream.failure, fix, crash)
      decreases |chunks| - i
    {
      assert chunks[i..][0] == chunks[i] && chunks[i..][1..] == chunks[i + 1..];
      var outcome := ConsumeChunk(acc, chunks[i], fix, crash);
      if outcome.Halt? {
        frames := frames + [outcome.frame, Closing(acc, fix)];
        return;
      }
      acc := outcome.state;
      frames := frames + [outcome.frame];
      i := i + 1;
    }
    if stream.failure.Some? {
      frames := frames + [ErrorFrame(stream.failure.value)];
    }
    frames := frames + [Closing(acc, fix)];
  }

  /** The body of the loop for one chunk (lines 137-194). */
  method ConsumeChunk(t: Think, chunkData: Json, fix: string -> string, crash: string) returns (outcome: Outcome)
    ensures outcome == Consume(t, chunkData, fix, crash)
  {
    if !chunkData.JObj? {
      return Halt(ErrorFrame(crash));
    }
    var m := chunkData.fields;
    if ErrorKey in m {
      var detail := if DetailKey in m then m[DetailKey] else JStr(UnknownError);
      return Halt(Failure(detail));
    }
    var content := if ContentKey in m then m[ContentKey] else JStr("");
    if !content.JStr? {
      return Halt(ErrorFrame(crash));
    }
    var currentIntermediate, currentFinal, inBlock := RouteChunk(t.intermediate, t.final, t.inBlock, content.s);
    assert Route(t, content.s) == Think(currentIntermediate, currentFinal, inBlock, t.citations);
    currentIntermediate := Tidy(currentIntermediate);
    var allCitations := t.citations;
    var citations := None;
    if CitationsKey in m && m[CitationsKey] != allCitations {
      allCitations := m[CitationsKey];
      citations := Some(allCitations);
    }
    outcome := Next(Think(currentIntermediate, currentFinal, inBlock, allCitations),
                    Update(currentIntermediate, fix(currentFinal), inBlock, citations));
  }

  /** Lines 146-175 of the loop: where one chunk's text goes. */
  method RouteChunk(intermediate: string, final: string, inBlock: bool, contentChunk: string)
    returns (currentIntermediate: string, currentFinal: string, stillInBlock: bool)
    ensures Route(Think(intermediate, final, inBlock, JNull), contentChunk)
      == Think(currentIntermediate, currentFinal, stillInBlock, JNull)
  {
    currentIntermediate, currentFinal, stillInBlock := intermediate, final, inBlock;
    if stillInBlock {
      match Find(contentChunk, CloseThink) {
        case Some(k) =>
          currentIntermediate := currentIntermediate + contentChunk[..k];
          currentFinal := currentFinal + contentChunk[k + |CloseThink|..];
          stillInBlock := false;
        case None =>
          currentIntermediate := currentIntermediate + contentChunk;
      }
    } else {
      match Find(contentChunk, OpenThink) {
        case Some(k) =>
          var intermediatePart := contentChunk[k + |OpenThink|..];
          currentFinal := currentFinal + contentChunk[..k];
          stillInBlock := true;
          match Find(intermediatePart, CloseThink) {
            case Some(j) =>
              currentIntermediate := currentIntermediate + intermediatePart[..j];
              currentFinal := currentFinal + intermediatePart[j + |CloseThink|..];
              stillInBlock := false;
            case None =>
              currentIntermediate := currentIntermediate + intermediatePart;
          }
        case None =>
          currentFinal := currentFinal + contentChunk;
      }
    }
  }

  // ---------------------------------------------------------------------------
  // Routing one chunk

  /** Outside a block, a chunk without `<think>` goes whole to the final text. */
  lemma RouteOutside(t: Think, c: string)
    requires !t.inBlock && !Contains(c, OpenThink)
    ensures Route(t, c) == t.(final := t.final + c)
  {
  }

  /** Inside a block, a chunk without `</think>` goes whole to the intermediate text;
      otherwise the chunk is the intermediate head, the first `</think>`, and the final
      tail, and the block closes. */
  lemma RouteInside(t: Think, c: string)
    requires t.inBlock
    ensures !Contains(c, CloseThink) ==> Route(t, c) == t.(intermediate := t.intermediate + c)
    ensures Contains(c, CloseThink) ==>
      var r := Route(t, c);
      var head, tail := r.intermediate[|t.intermediate|..], r.final[|t.final|..];
      && !r.inBlock && r.citations == t.citations
      && t.intermediate <= r.intermediate && t.final <= r.final
      && c == head + CloseThink + tail
      && !Contains(head, CloseThink)
  {
    if Contains(c, CloseThink) {
      var i := Find(c, CloseThink).value;
      PrefixBeforeFirst(c, CloseThink, i);
      assert c == c[..i] + CloseThink + c[i + |CloseThink|..] by {
        assert c[i..i + |CloseThink|] == CloseThink;
      }
    }
  }

  /** A chunk that opens a block sends its prefix to the final text; the rest is split
      again at `</think>` when it holds one, and otherwise the block stays open. */
  lemma RouteOpening(t: Think, c: string)
    requires !t.inBlock && Contains(c, OpenThink)
    ensures var r := Route(t, c);
      var i := Find(c, OpenThink).value;
      var rest := c[i + |OpenThink|..];
      && t.intermediate <= r.intermediate && t.final + c[..i] <= r.final
      && c == c[..i] + OpenThink + rest
      && !Contains(c[..i], OpenThink)
      && r.citations == t.citations
      && (!Contains(rest, CloseThink) ==> r.inBlock && r.intermediate == t.intermediate + rest && r.final == t.final + c[..i])
      && (Contains(rest, CloseThink) ==>
            var mid, post := r.intermediate[|t.intermediate|..], r.final[|t.final| + i..];
            !r.inBlock && rest == mid + CloseThink + post && !Contains(mid, CloseThink))
  {
    var i := Find(c, OpenThink).value;
    var rest := c[i + |OpenThink|..];
    PrefixBeforeFirst(c, OpenThink, i);
    assert c == c[..i] + OpenThink + rest by {
      assert c[i..i + |OpenThink|] == OpenThink;
    }
    if Contains(rest, CloseThink) {
      var j := Find(rest, CloseThink).value;
      PrefixBeforeFirst(rest, CloseThink, j);
      assert rest == rest[..j] + CloseThink + rest[j + |CloseThink|..] by {
        assert rest[j..j + |CloseThink|] == CloseThink;
      }
    }
  }

  // ---------------------------------------------------------------------------
  // The intermediate text never holds a blank line

  /** No two consecutive line feeds. */
  predicate NoBlank(s: string) {
    forall i :: 0 <= i < |s| - 1 ==> !(s[i] == '\n' && s[i + 1] == '\n')
  }

  lemma NoBlankConcat(a: string, b: string)
    requires NoBlank(a) && NoBlank(b)
    requires a != [] && b != [] ==> !(a[|a| - 1] == '\n' && b[0] == '\n')
    ensures NoBlank(a + b)
  {
    var s := a + b;
    forall i | 0 <= i < |s| - 1 ensures !(s[i] == '\n' && s[i + 1] == '\n') {
      if i + 1 < |a| {
        assert s[i] == a[i] && s[i + 1] == a[i + 1];
      } else if i >= |a| {
        assert s[i] == b[i - |a|] && s[i + 1] == b[i + 1 - |a|];
      }
    }
  }

  /** Replacing every blank line by a text without line feeds leaves no blank line, and
      the result starts with a line feed only where the input starts with a lone one. */
  lemma {:induction false} ReplaceLeavesNoBlank(s: string, rep: string)
    requires |rep| > 0 && forall k :: 0 <= k < |rep| ==> rep[k] != '\n'
    ensures NoBlank(ReplaceAll(s, BlankLine, rep))
    ensures var r := ReplaceAll(s, BlankLine, rep);
      r != [] && r[0] == '\n' ==> s != [] && s[0] == '\n' && (|s| == 1 || s[1] != '\n')
    decreases |s|
  {
    var r := ReplaceAll(s, BlankLine, rep);
    if |s| < |BlankLine| {
      assert r == s;
    } else if s[..|BlankLine|] == BlankLine {
      var rest := s[|BlankLine|..];
      ReplaceLeavesNoBlank(rest, rep);
      NoBlankConcat(rep, ReplaceAll(rest, BlankLine, rep));
      assert r == rep + ReplaceAll(rest, BlankLine, rep);
    } else {
      var rest := s[1..];
      ReplaceLeavesNoBlank(rest, rep);
      var r' := ReplaceAll(rest, BlankLine, rep);
      assert r == [s[0]] + r';
      if s[0] == '\n' {
        assert s[..2] == [s[0], s[1]];
        assert s[1] != '\n';
        assert r' != [] ==> r'[0] != '\n';
      }
      NoBlankConcat([s[0]], r');
    }
  }

  lemma NoBlankSlice(u: string, a: nat, b: nat)
    requires NoBlank(u) && a <= b <= |u|
    ensures NoBlank(u[a..b])
  {
    var r := u[a..b];
    forall i | 0 <= i < |r| - 1 ensures !(r[i] == '\n' && r[i + 1] == '\n') {
      assert r[i] == u[a + i] && r[i + 1] == u[a + i + 1];
    }
  }

  lemma NoBlankAbsent(s: string)
    requires NoBlank(s)
    ensures !Contains(s, BlankLine)
  {
    ContainsIff(s, BlankLine);
    forall k | 0 <= k && k + 2 <= |s| ensures !OccursAt(s, BlankLine, k) {
      assert s[k..k + 2][0] == s[k] && s[k..k + 2][1] == s[k + 1];
    }
  }

  /** After every chunk the intermediate text holds no blank line. */
  lemma TidyNoBlank(s: string)
    ensures !Contains(Tidy(s), BlankLine)
  {
    var sep := Agent.StepSeparator;
    assert forall k :: 0 <= k < |sep| ==> sep[k] != '\n';
    var u := ReplaceAll(s, BlankLine, sep);
    ReplaceLeavesNoBlank(s, sep);
    var r := Trim(u);
    var a := LeadingSpace(u);
    NoBlankSlice(u, a, a + |r|);
    NoBlankAbsent(r);
  }

  // ---------------------------------------------------------------------------
  // Frames

  /** The frame yielded for a chunk reports the block state after the chunk and is not
      complete; its intermediate text holds no blank line; it carries `citations` exactly
      when the chunk's list differs from the one last forwarded, which then becomes it. */
  lemma ChunkFrame(t: Think, m: Dict, fix: string -> string, crash: string)
    requires Consume(t, JObj(m), fix, crash).Next?
    ensures var o := Consume(t, JObj(m), fix, crash);
      var changed := CitationsKey in m && m[CitationsKey] != t.citations;
      var e := Encode(o.frame);
      && ErrorKey !in m
      && IsIntermediate in e && e[IsIntermediate] == JBool(o.state.inBlock)
      && Complete in e && e[Complete] == JBool(false)
      && IntermediateSteps in e && e[IntermediateSteps] == JStr(o.state.intermediate)
      && !Contains(o.state.intermediate, BlankLine)
      && (CitationsKey in e <==> changed)
      && o.state.citations == (if changed then m[CitationsKey] else t.citations)
  {
    var content := if ContentKey in m then m[ContentKey] else JStr("");
    TidyNoBlank(Route(t, content.s).intermediate);
  }

  /** The generator ends with exactly one closing frame, and at most one error frame
      comes before it, right before it. */
  lemma {:induction false} EndsWithClosing(t: Think, chunks: seq<Json>, failure: Option<string>, fix: string -> string, crash: string)
    ensures ClosedOnceAtEnd(Produce(t, chunks, failure, fix, crash))
    decreases |chunks|
  {
    if chunks != [] {
      match Consume(t, chunks[0], fix, crash)
      case Halt(f) =>
      case Next(t', f) =>
        var rest := Produce(t', chunks[1..], failure, fix, crash);
        EndsWithClosing(t', chunks[1..], failure, fix, crash);
        assert Produce(t, chunks, failure, fix, crash) == [f] + rest;
        UpdateBeforeClosed(f, rest);
    }
  }

  lemma UpdateBeforeClosed(f: Frame, rest: seq<Frame>)
    requires f.Update? && ClosedOnceAtEnd(rest)
    ensures ClosedOnceAtEnd([f] + rest)
  {
    var out := [f] + rest;
    assert forall i :: 1 <= i < |out| ==> out[i] == rest[i - 1];
  }

  /** Exactly one closing frame, last; every frame but the last two is an update. */
  predicate ClosedOnceAtEnd(out: seq<Frame>) {
    && |out| >= 1
    && out[|out| - 1].Closed?
    && (forall i :: 0 <= i < |out| - 1 ==> !out[i].Closed?)
    && (forall i :: 0 <= i < |out| - 2 ==> out[i].Update?)
  }

  /** The closing frame reports the block closed and complete, and is the only frame
      that does; no frame carries the `complete` flag the relaying worker stops on. */
  lemma ClosingEncoded(f: Frame)
    ensures var e := Encode(f);
      && (IsComplete in e <==> f.Closed?)
      && (f.Closed? ==> e[IsComplete] == JBool(true) && e[IsIntermediate] == JBool(false) && e[CitationsKey] == f.allCitations)
      && !PyTruthy(Get(e, Complete))
  {
  }
}
