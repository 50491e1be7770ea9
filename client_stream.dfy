/**
 * The browser's reading of the aggregated stream, for the two-agent page and the
 * three-agent page alike: the response body arrives in chunks, is cut into
 * newline-terminated lines (a partial last line waits in a buffer for the next
 * chunk), each line is decoded as JSON, and a data line folds the fields it carries
 * into the last-known state of each agent, which is then handed to the page.
 */
module ClientStream {
  import opened Wrappers
  import opened Strings
  import opened Json
  import Aggregator

  type Dict = map<string, Json>

  const NewLine := "\n"
  const ErrorKey := "error"
  const HeartbeatKey := "heartbeat"
  const MetadataKey := "metadata"
  const FinalKey := "final"
  const IsComplete := "is_complete"
  const Updated := "updated"
  const TypeField := "type"
  const ErrorLead := "Error: "
  const FencePrefix := "```markdown\n"
  const FenceSuffix := "\n```"

  /** A citation as the page holds it: the `{url}` record made from one array element. */
  datatype Citation = Citation(url: Json)

  /** What the reader keeps for one agent: the names it is read under (its label, such
      as `agentA`, and the metadata key of its passages), its final report, its
      intermediate steps, its citations, its passages and its type. */
  datatype AgentView = AgentView(
    name: string, passagesKey: string,
    content: string, intermediate: Json, citations: seq<Citation>, passages: Json, agentType: Json)

  /** The reader's state: one entry per agent, and the metadata entry naming the agents
      (`selected_agents` or `all_agents`) with its last value. */
  datatype State = State(agents: seq<AgentView>, groupKey: string, group: Json)

  function Fresh(name: string, passagesKey: string): AgentView {
    AgentView(name, passagesKey, "", JStr(""), [], JArr([]), JNull)
  }

  const TwoAgents := State([Fresh("agentA", "passages_a"), Fresh("agentB", "passages_b")], "selected_agents", JNull)
  const ThreeAgents := State([Fresh("agentA", "passages_a"), Fresh("agentB", "passages_b"), Fresh("agentC", "passages_c")], "all_agents", JNull)

  /** The raw per-agent fields of the line a snapshot answers, passed along beside the
      state: the steps and report as sent, and the three flags coerced to booleans. */
  datatype Flags = Flags(steps: Json, report: Json, complete: bool, updated: bool, reasoning: bool)

  /** What the reader hands to the page: an error message (with every agent empty and
      `is_final` set), or the state after a data line. */
  datatype Chunk =
    | Failure(message: string)
    | Snapshot(agents: seq<AgentView>, group: Json, flags: seq<Flags>, isFinal: bool)

  predicate IsFinal(c: Chunk) {
    c.Failure? || c.isFinal
  }

  // ---------------------------------------------------------------------------
  // One line

  /** A property read: objects have their fields; every other value has none. */
  function Fields(v: Json): Dict {
    if v.JObj? then v.fields else map[]
  }

  /** `a ?? b` and the `!= null` test: null and a missing field keep the old value. */
  function Coalesce(v: Json, kept: Json): Json {
    if v.JNull? then kept else v
  }

  /** Removes a leading "```markdown" line and then a trailing "```" line. */
  function StripFence(s: string): string {
    var t := if |FencePrefix| <= |s| && s[..|FencePrefix|] == FencePrefix then s[|FencePrefix|..] else s;
    if |FenceSuffix| <= |t| && t[|t| - |FenceSuffix|..] == FenceSuffix then t[..|t| - |FenceSuffix|] else t
  }

  function Field(a: AgentView, m: Dict, field: string): Json {
    Get(m, Aggregator.Key(a.name, field))
  }

  /** Whether this agent's report in the line is neither null nor a string: calling
      `replace` on it raises, and the rest of the line is abandoned. */
  predicate BadReport(a: AgentView, m: Dict) {
    var r := Field(a, m, Aggregator.FinalReport);
    !r.JNull? && !r.JStr?
  }

  /** The index of the first agent whose report raises, or the number of agents. */
  function FirstBad(agents: seq<AgentView>, m: Dict): (k: nat)
    ensures k <= |agents|
    ensures forall j :: 0 <= j < k ==> !BadReport(agents[j], m)
    ensures k < |agents| ==> BadReport(agents[k], m)
  {
    if agents == [] then 0
    else if BadReport(agents[0], m) then 0
    else 1 + FirstBad(agents[1..], m)
  }

  function WithMetadata(a: AgentView, meta: Dict): AgentView {
    a.(passages := Coalesce(Get(meta, a.passagesKey), a.passages),
       agentType := Coalesce(Get(meta, Aggregator.Key(a.name, TypeField)), a.agentType))
  }

  function WithSteps(a: AgentView, m: Dict): AgentView {
    a.(intermediate := Coalesce(Field(a, m, Aggregator.IntermediateSteps), a.intermediate))
  }

  function WithReport(a: AgentView, m: Dict): AgentView {
    var r := Field(a, m, Aggregator.FinalReport);
    if r.JStr? then a.(content := StripFence(r.s)) else a
  }

  function WithCitations(a: AgentView, m: Dict): AgentView {
    var c := Field(a, m, Aggregator.Citations);
    if JsTruthy(c) && c.JArr? then a.(citations := seq(|c.items|, k requires 0 <= k < |c.items| => Citation(c.items[k])))
    else a
  }

  function FlagsOf(a: AgentView, m: Dict): Flags {
    Flags(Field(a, m, Aggregator.IntermediateSteps), Field(a, m, Aggregator.FinalReport),
      JsTruthy(Field(a, m, IsComplete)), JsTruthy(Field(a, m, Updated)),
      JsTruthy(Field(a, m, Aggregator.IsIntermediate)))
  }

  /** What a line does: it leaves the state as given and hands nothing on, or it hands a
      chunk on. */
  datatype LineOutcome = Silent(state: State) | Emit(state: State, chunk: Chunk)

  /** The metadata of a line applied to every agent, when the line's `metadata` is
      truthy. */
  function Metadata(s: State, m: Dict): (t: State)
    ensures |t.agents| == |s.agents| && t.groupKey == s.groupKey
    ensures forall k :: 0 <= k < |s.agents| ==>
      t.agents[k] == if JsTruthy(Get(m, MetadataKey)) then WithMetadata(s.agents[k], Fields(Get(m, MetadataKey))) else s.agents[k]
  {
    var meta := Get(m, MetadataKey);
    if JsTruthy(meta) then
      State(seq(|s.agents|, k requires 0 <= k < |s.agents| => WithMetadata(s.agents[k], Fields(meta))),
        s.groupKey, Coalesce(Get(Fields(meta), s.groupKey), s.group))
    else s
  }

  function AllSteps(xs: seq<AgentView>, m: Dict): (ys: seq<AgentView>)
    ensures |ys| == |xs| && forall k :: 0 <= k < |xs| ==> ys[k] == WithSteps(xs[k], m)
  {
    seq(|xs|, k requires 0 <= k < |xs| => WithSteps(xs[k], m))
  }

  function ReportsBefore(xs: seq<AgentView>, m: Dict, bad: nat): (ys: seq<AgentView>)
    ensures |ys| == |xs| && forall k :: 0 <= k < |xs| ==> ys[k] == if k < bad then WithReport(xs[k], m) else xs[k]
  {
    seq(|xs|, k requires 0 <= k < |xs| => if k < bad then WithReport(xs[k], m) else xs[k])
  }

  function AllCitations(xs: seq<AgentView>, m: Dict): (ys: seq<AgentView>)
    ensures |ys| == |xs| && forall k :: 0 <= k < |xs| ==> ys[k] == WithCitations(xs[k], m)
  {
    seq(|xs|, k requires 0 <= k < |xs| => WithCitations(xs[k], m))
  }

  /** A decoded line's fields, in the order the reader applies them: an error is handed
      on and a heartbeat ignored; otherwise the metadata, every agent's steps, the
      agents' reports in turn (a report that raises abandons the line there), every
      agent's citations, and the resulting snapshot. */
  function Apply(s: State, m: Dict): LineOutcome {
    if JsTruthy(Get(m, ErrorKey)) then Emit(s, Failure(ErrorLead + JsString(Get(m, ErrorKey))))
    else if JsTruthy(Get(m, HeartbeatKey)) then Silent(s)
    else
      var s1 := Metadata(s, m);
      var a2 := AllSteps(s1.agents, m);
      var bad := FirstBad(a2, m);
      var a3 := ReportsBefore(a2, m, bad);
      if bad < |a3| then Silent(s1.(agents := a3))
      else
        var a4 := AllCitations(a3, m);
        Emit(s1.(agents := a4),
          Snapshot(a4, s1.group, seq(|a4|, k requires 0 <= k < |a4| => FlagsOf(a4[k], m)), JsTruthy(Get(m, FinalKey))))
  }

  /** One line: a blank line, a line that does not decode, and the line `null` (reading
      a field of null raises) change nothing. `decode` is the JSON decoder. */
  function Step(s: State, line: string, decode: string -> Option<Json>): LineOutcome {
    if Trim(line) == "" then Silent(s)
    else match decode(line)
      case None => Silent(s)
      case Some(v) => if v.JNull? then Silent(s) else Apply(s, Fields(v))
  }

  // ---------------------------------------------------------------------------
  // The whole stream

  /** The state after a sequence of lines, and the chunks handed on. */
  datatype Run = Run(state: State, chunks: seq<Chunk>)

  /** Lines handled in order by `next`, from state `s`. */
  function Fold(s: State, lines: seq<string>, next: (State, string) -> LineOutcome): Run
    decreases |lines|
  {
    if lines == [] then Run(s, [])
    else
      var r := Fold(s, lines[..|lines| - 1], next);
      match next(r.state, lines[|lines| - 1])
      case Silent(t) => Run(t, r.chunks)
      case Emit(t, c) => Run(t, r.chunks + [c])
  }

  function Reader(decode: string -> Option<Json>): (State, string) -> LineOutcome {
    (s, line) => Step(s, line, decode)
  }

  /** The reader's handling of a sequence of lines. */
  function Process(s: State, lines: seq<string>, decode: string -> Option<Json>): Run {
    Fold(s, lines, Reader(decode))
  }

  function Concat(chunks: seq<string>): string
    decreases |chunks|
  {
    if chunks == [] then "" else Concat(chunks[..|chunks| - 1]) + chunks[|chunks| - 1]
  }

  /** The newline-terminated lines of a text; the unterminated rest is not among them. */
  function CompleteLines(text: string): seq<string> {
    var parts := Split(text, NewLine);
    parts[..|parts| - 1]
  }

  /** The unterminated rest of a text. */
  function Pending(text: string): string {
    var parts := Split(text, NewLine);
    parts[|parts| - 1]
  }

  /** The read loop: each chunk is appended to the buffer, the buffer is split at the
      newlines, every complete line is handled in order and the rest is kept for the
      next chunk. When the body ends, what is still in the buffer is dropped. */
  method ReadLines(initial: State, chunks: seq<string>, next: (State, string) -> LineOutcome)
    returns (emitted: seq<Chunk>, state: State, buffer: string)
    ensures Fold(initial, CompleteLines(Concat(chunks)), next) == Run(state, emitted)
    ensures buffer == Pending(Concat(chunks))
  {
    buffer := "";
    state := initial;
    emitted := [];
    ghost var done: seq<string> := [];
    for i := 0 to |chunks|
      invariant done + [buffer] == Split(Concat(chunks[..i]), NewLine)
      invariant Fold(initial, done, next) == Run(state, emitted)
    {
      assert chunks[..i + 1][..i] == chunks[..i];
      assert Concat(chunks[..i + 1]) == Concat(chunks[..i]) + chunks[i];
      SplitExtended(Concat(chunks[..i]), NewLine, chunks[i], done, buffer);
      buffer := buffer + chunks[i];
      var lines := Split(buffer, NewLine);
      buffer := lines[|lines| - 1];
      state, emitted := HandleLines(initial, done, lines[..|lines| - 1], state, emitted, next);
      assert lines[..|lines| - 1] + [buffer] == lines;
      done := done + lines[..|lines| - 1];
    }
    assert chunks[..|chunks|] == chunks;
  }

  /** The loop over the complete lines of one read, continuing the run so far over the
      lines `done`. */
  method HandleLines(ghost initial: State, ghost done: seq<string>, lines: seq<string>,
                     state0: State, emitted0: seq<Chunk>, next: (State, string) -> LineOutcome)
    returns (state: State, emitted: seq<Chunk>)
    requires Fold(initial, done, next) == Run(state0, emitted0)
    ensures Fold(initial, done + lines, next) == Run(state, emitted)
  {
    state, emitted := state0, emitted0;
    assert done + lines[..0] == done;
    for j := 0 to |lines|
      invariant Fold(initial, done + lines[..j], next) == Run(state, emitted)
    {
      assert (done + lines[..j + 1])[..|done| + j] == done + lines[..j];
      assert (done + lines[..j + 1])[|done| + j] == lines[j];
      var out := next(state, lines[j]);
      match out {
        case Silent(t) => state := t;
        case Emit(t, c) => state := t; emitted := emitted + [c];
      }
    }
    assert lines[..|lines|] == lines;
  }

  // ---------------------------------------------------------------------------
  // The buffer

  /** The buffer left after the last read holds exactly the text after the last newline
      of everything read: it holds no newline, it ends the text, and the character
      before it is a newline; the complete lines joined back make the rest. */
  lemma PendingIsTail(text: string)
    ensures var rest := Pending(text);
      && !Contains(rest, NewLine) && |rest| <= |text| && text[|text| - |rest|..] == rest
      && (|rest| < |text| ==> text[|text| - |rest| - 1] == '\n')
      && (CompleteLines(text) == [] ==> text == rest)
      && (CompleteLines(text) != [] ==> text == Join(CompleteLines(text), NewLine) + NewLine + rest)
  {
    var parts := Split(text, NewLine);
    var done, rest := CompleteLines(text), Pending(text);
    assert parts == done + [rest];
    JoinSplit(text, NewLine);
    SplitPiecesFree(text, NewLine);
    assert rest in parts;
    if done != [] {
      JoinAppend(done, NewLine, rest);
      var head := Join(done, NewLine) + NewLine;
      assert text == head + rest;
      assert text[|text| - |rest|..] == rest;
      assert text[|text| - |rest| - 1] == head[|head| - 1];
    } else {
      assert text == Join([rest], NewLine) == rest;
    }
  }

  /** Text after the last newline is never handled: once the text read so far ends at a
      line's end, adding text with no newline adds no complete line. */
  lemma TailIgnored(text: string, tail: string)
    requires Pending(text) == "" && !Contains(tail, NewLine)
    ensures CompleteLines(text + tail) == CompleteLines(text)
    ensures Pending(text + tail) == tail
  {
    var done := CompleteLines(text);
    var parts := Split(text, NewLine);
    assert parts == done + [""];
    SplitExtended(text, NewLine, tail, done, "");
    assert "" + tail == tail;
    assert Split(tail, NewLine) == [tail];
    assert Split(text + tail, NewLine) == done + [tail];
  }

  // ---------------------------------------------------------------------------
  // One line

  /** Blank lines, lines that do not decode and the line `null` change nothing and hand
      nothing on. */
  lemma SkippedLines(s: State, line: string, decode: string -> Option<Json>)
    requires Trim(line) == "" || decode(line).None? || decode(line) == Some(JNull)
    ensures Step(s, line, decode) == Silent(s)
  {
  }

  /** A line with a truthy `error` hands on one final error chunk carrying the error's
      text and leaves every agent as it was. */
  lemma ErrorLine(s: State, m: Dict)
    requires JsTruthy(Get(m, ErrorKey))
    ensures Apply(s, m) == Emit(s, Failure(ErrorLead + JsString(Get(m, ErrorKey))))
    ensures IsFinal(Apply(s, m).chunk)
  {
  }

  /** A heartbeat hands nothing on and changes nothing. */
  lemma HeartbeatLine(s: State, m: Dict)
    requires !JsTruthy(Get(m, ErrorKey)) && JsTruthy(Get(m, HeartbeatKey))
    ensures Apply(s, m) == Silent(s)
  {
  }

  /** Whether an agent's report in the line raises depends only on the agent's name. */
  lemma {:induction false} FirstBadByName(xs: seq<AgentView>, ys: seq<AgentView>, m: Dict)
    requires |xs| == |ys| && forall k :: 0 <= k < |xs| ==> xs[k].name == ys[k].name
    ensures FirstBad(xs, m) == FirstBad(ys, m)
    decreases |xs|
  {
    if xs != [] {
      assert BadReport(xs[0], m) == BadReport(ys[0], m);
      FirstBadByName(xs[1..], ys[1..], m);
    }
  }

  /** A data line hands on a snapshot exactly when no agent's report in it is a value
      other than null or a string; the snapshot shows the new state and carries
      `is_final` from the line's `final` field. */
  lemma DataLineEmits(s: State, m: Dict)
    requires !JsTruthy(Get(m, ErrorKey)) && !JsTruthy(Get(m, HeartbeatKey))
    ensures var o := Apply(s, m);
      && |o.state.agents| == |s.agents| && o.state.groupKey == s.groupKey
      && (o.Emit? <==> forall k :: 0 <= k < |s.agents| ==> !BadReport(s.agents[k], m))
      && (o.Emit? ==> o.chunk.Snapshot? && o.chunk.agents == o.state.agents && |o.chunk.flags| == |s.agents|
                      && o.chunk.isFinal == JsTruthy(Get(m, FinalKey)))
  {
    var s1 := Metadata(s, m);
    var a2 := AllSteps(s1.agents, m);
    FirstBadByName(a2, s.agents, m);
  }

  /** What a data line does to each agent's steps: they are replaced only by a non-null
      value the line carries under that agent's own name. */
  lemma DataLineSteps(s: State, m: Dict, k: nat)
    requires !JsTruthy(Get(m, ErrorKey)) && !JsTruthy(Get(m, HeartbeatKey))
    requires k < |s.agents|
    ensures var o := Apply(s, m);
      var a, b := s.agents[k], o.state.agents[k];
      var steps := Field(a, m, Aggregator.IntermediateSteps);
      && |o.state.agents| == |s.agents| && b.name == a.name && b.passagesKey == a.passagesKey
      && b.intermediate == (if steps.JNull? then a.intermediate else steps)
  {
    var s1 := Metadata(s, m);
    var a2 := AllSteps(s1.agents, m);
    var bad := FirstBad(a2, m);
    var a3 := ReportsBefore(a2, m, bad);
    assert a3[k].name == s.agents[k].name && a3[k].intermediate == a2[k].intermediate;
    if bad == |a3| {
      assert Apply(s, m).state.agents[k] == WithCitations(a3[k], m);
    }
  }

  /** What a data line does to each agent's report: a string under the agent's own name
      replaces it with its markdown fence removed, and null or a missing field keeps it.
      The agents before the first one whose report raises get their new report; the
      line is abandoned there, so no later report changes. */
  lemma DataLineReports(s: State, m: Dict, k: nat)
    requires !JsTruthy(Get(m, ErrorKey)) && !JsTruthy(Get(m, HeartbeatKey))
    requires k < |s.agents|
    ensures var o := Apply(s, m);
      var a, b := s.agents[k], o.state.agents[k];
      var report := Field(a, m, Aggregator.FinalReport);
      && |o.state.agents| == |s.agents|
      && (k < FirstBad(s.agents, m) && report.JStr? ==> b.content == StripFence(report.s))
      && (k >= FirstBad(s.agents, m) || report.JNull? ==> b.content == a.content)
  {
    var s1 := Metadata(s, m);
    var a2 := AllSteps(s1.agents, m);
    FirstBadByName(a2, s.agents, m);
    var bad := FirstBad(a2, m);
    var a3 := ReportsBefore(a2, m, bad);
    assert a2[k].name == s.agents[k].name && a2[k].content == s.agents[k].content;
    assert a3[k] == if k < bad then WithReport(a2[k], m) else a2[k];
    if bad == |a3| {
      assert Apply(s, m).state.agents[k] == WithCitations(a3[k], m);
    }
  }

  /** What a data line does to each agent's citations: an array under the agent's own
      name, even an empty one, replaces them by one `{url}` record per element; any
      other value keeps them, and so does a line abandoned at a report that raises. */
  lemma DataLineCitations(s: State, m: Dict, k: nat)
    requires !JsTruthy(Get(m, ErrorKey)) && !JsTruthy(Get(m, HeartbeatKey))
    requires k < |s.agents|
    ensures var o := Apply(s, m);
      var a, b := s.agents[k], o.state.agents[k];
      var cites := Field(a, m, Aggregator.Citations);
      && |o.state.agents| == |s.agents|
      && (o.Emit? && cites.JArr? ==>
            |b.citations| == |cites.items| && forall n :: 0 <= n < |cites.items| ==> b.citations[n] == Citation(cites.items[n]))
      && (o.Emit? && !cites.JArr? ==> b.citations == a.citations)
      && (o.Silent? ==> b.citations == a.citations)
  {
    var s1 := Metadata(s, m);
    var a2 := AllSteps(s1.agents, m);
    var bad := FirstBad(a2, m);
    var a3 := ReportsBefore(a2, m, bad);
    assert a3[k].name == s.agents[k].name && a3[k].citations == s.agents[k].citations;
    if bad == |a3| {
      assert AllCitations(a3, m)[k] == WithCitations(a3[k], m);
    }
  }

  /** What a data line does to the metadata: the passages and type of each agent and the
      agents' entry are replaced by non-null values from a truthy `metadata` object
      and kept otherwise. */
  lemma DataLineMetadata(s: State, m: Dict, k: nat)
    requires !JsTruthy(Get(m, ErrorKey)) && !JsTruthy(Get(m, HeartbeatKey))
    requires k < |s.agents|
    ensures var o := Apply(s, m);
      var a, b := s.agents[k], o.state.agents[k];
      var meta := Get(m, MetadataKey);
      var fields := if JsTruthy(meta) then Fields(meta) else map[];
      && |o.state.agents| == |s.agents|
      && b.passages == Coalesce(Get(fields, a.passagesKey), a.passages)
      && b.agentType == Coalesce(Get(fields, Aggregator.Key(a.name, TypeField)), a.agentType)
      && o.state.group == Coalesce(Get(fields, s.groupKey), s.group)
  {
    var s1 := Metadata(s, m);
    var a2 := AllSteps(s1.agents, m);
    FirstBadByName(a2, s.agents, m);
    var bad := FirstBad(a2, m);
    var a3 := ReportsBefore(a2, m, bad);
    assert a3[k] == if k < bad then WithReport(a2[k], m) else a2[k];
    if bad == |a3| {
      assert AllCitations(a3, m)[k] == WithCitations(a3[k], m);
    }
  }

  /** The fence strip undoes the fence the backends may wrap a report in. */
  lemma StripFenced(x: string)
    ensures StripFence(FencePrefix + x + FenceSuffix) == x
  {
    var s := FencePrefix + x + FenceSuffix;
    assert s[..|FencePrefix|] == FencePrefix;
    var t := s[|FencePrefix|..];
    assert t == x + FenceSuffix;
    assert t[|t| - |FenceSuffix|..] == FenceSuffix;
    assert t[..|t| - |FenceSuffix|] == x;
  }

  /** A report with neither fence line is kept as it is, and the strip never lengthens. */
  lemma StripUnfenced(s: string)
    ensures |StripFence(s)| <= |s|
    ensures ((|s| < |FencePrefix| || s[..|FencePrefix|] != FencePrefix)
             && (|s| < |FenceSuffix| || s[|s| - |FenceSuffix|..] != FenceSuffix)) ==> StripFence(s) == s
  {
  }

  /** The HTTP response as the reader sees it: whether it is ok, its status, and its body
      as a sequence of decoded chunks, or None when it has no readable body. */
  datatype Response = Response(ok: bool, status: int, body: Option<seq<string>>)

  /** How reading ended: normally, or with the error thrown to the caller. */
  datatype Ending = Finished | Threw(message: string)

  function ConnectError(status: int): string {
    "Error: Unable to connect to backend (status: " + IntToString(status) + ")"
  }

  function HttpError(status: int): string {
    "HTTP error! status: " + IntToString(status)
  }

  const NoReader := "No reader available"

  /** The shared body of both readers, from the initial state of the page's agents. */
  method Stream(initial: State, response: Response, decode: string -> Option<Json>)
    returns (emitted: seq<Chunk>, ending: Ending)
    ensures !response.ok ==> emitted == [Failure(ConnectError(response.status))] && ending == Threw(HttpError(response.status))
    ensures response.ok && response.body.None? ==> emitted == [] && ending == Threw(NoReader)
    ensures response.ok && response.body.Some? ==>
      ending == Finished && emitted == Process(initial, CompleteLines(Concat(response.body.value)), decode).chunks
  {
    if !response.ok {
      emitted := [Failure(ConnectError(response.status))];
      ending := Threw(HttpError(response.status));
      return;
    }
    if response.body.None? {
      emitted := [];
      ending := Threw(NoReader);
      return;
    }
    var state: State, buffer: string;
    emitted, state, buffer := ReadLines(initial, response.body.value, Reader(decode));
    ending := Finished;
  }

  /** `streamResponse`, for the two agents of the comparison page. */
  method StreamResponse(response: Response, decode: string -> Option<Json>) returns (emitted: seq<Chunk>, ending: Ending)
    ensures !response.ok ==> emitted == [Failure(ConnectError(response.status))] && ending == Threw(HttpError(response.status))
    ensures response.ok && response.body.None? ==> emitted == [] && ending == Threw(NoReader)
    ensures response.ok && response.body.Some? ==>
      ending == Finished && emitted == Process(TwoAgents, CompleteLines(Concat(response.body.value)), decode).chunks
  {
    emitted, ending := Stream(TwoAgents, response, decode);
  }

  /** `streamAgentsResponse`, for the three agents of the agents page. */
  method StreamAgentsResponse(response: Response, decode: string -> Option<Json>) returns (emitted: seq<Chunk>, ending: Ending)
    ensures !response.ok ==> emitted == [Failure(ConnectError(response.status))] && ending == Threw(HttpError(response.status))
    ensures response.ok && response.body.None? ==> emitted == [] && ending == Threw(NoReader)
    ensures response.ok && response.body.Some? ==>
      ending == Finished && emitted == Process(ThreeAgents, CompleteLines(Concat(response.body.value)), decode).chunks
  {
    emitted, ending := Stream(ThreeAgents, response, decode);
  }
}
