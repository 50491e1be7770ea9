/**
 * The arena backend's stream aggregator: the `data:` line filter that turns a
 * producer's event stream into decoded frames (`streaming_service_producer_gen`),
 * the per-agent worker that relabels frames and always ends with one sentinel
 * (`agent_task_worker`), the merge loop of `generate_agent_responses` that folds
 * both workers' queue items into a combined state and emits snapshots, heartbeats
 * and a closing frame, and the request validation of `deep_research_question`.
 *
 * The asyncio queue is modelled as the sequence of events the merge loop sees:
 * a queue item, or a timeout of the 15-second wait.
 */
module Aggregator {
  import opened Wrappers
  import opened Strings
  import opened Json

  type Dict = map<string, Json>

  // ---------------------------------------------------------------------------
  // The line filter
  // ---------------------------------------------------------------------------

  const DataPrefix := "data:"
  const ErrorKey := "error"
  const ProducerErrorLead := "Error in "
  const ProducerErrorMid := " service producer: "

  /** What one line of a producer's stream yields: the decoded value of the text after a
      `data:` prefix, when that text is non-empty once stripped and decodes. `decode` is
      the JSON decoder. */
  function LineFrame(line: string, decode: string -> Option<Json>): Option<Json> {
    if DataPrefix <= line then
      var rest := Trim(line[|DataPrefix|..]);
      if rest != "" then decode(rest) else None
    else None
  }

  /** The frames yielded for `lines`, in order. */
  function Frames(lines: seq<string>, decode: string -> Option<Json>): seq<Json> {
    if lines == [] then []
    else
      var last := LineFrame(lines[|lines| - 1], decode);
      Frames(lines[..|lines| - 1], decode) + (if last.Some? then [last.value] else [])
  }

  /** A producer's stream: the lines it delivered, then the exception that ended it
      early (a connection failure or an error status), if any. */
  datatype LineStream = LineStream(lines: seq<string>, failure: Option<string>)

  /** The single frame a failed stream ends with. */
  function FailureFrame(service: string, failure: string): Json {
    JObj(map[ErrorKey := JStr(ProducerErrorLead + service + ProducerErrorMid + failure)])
  }

  /** Everything `streaming_service_producer_gen` yields for a stream. */
  function ProducerFrames(service: string, stream: LineStream, decode: string -> Option<Json>): seq<Json> {
    Frames(stream.lines, decode)
    + (if stream.failure.Some? then [FailureFrame(service, stream.failure.value)] else [])
  }

  method StreamingProducer(service: string, stream: LineStream, decode: string -> Option<Json>)
    returns (frames: seq<Json>)
    ensures frames == ProducerFrames(service, stream, decode)
  {
    frames := [];
    for i := 0 to |stream.lines|
      invariant frames == Frames(stream.lines[..i], decode)
    {
      var line := stream.lines[i];
      assert stream.lines[..i + 1][..i] == stream.lines[..i];
      if DataPrefix <= line {
        var dataStr := Trim(line[|DataPrefix|..]);
        if dataStr != "" {
          var data := decode(dataStr);
          if data.Some? {
            frames := frames + [data.value];
          }
        }
      }
    }
    assert stream.lines[..|stream.lines|] == stream.lines;
    if stream.failure.Some? {
      frames := frames + [FailureFrame(service, stream.failure.value)];
    }
  }

  /** The filter works line by line: the frames of two runs of lines are the frames of
      the first followed by those of the second. */
  lemma {:induction false} FramesAppend(a: seq<string>, b: seq<string>, decode: string -> Option<Json>)
    ensures Frames(a + b, decode) == Frames(a, decode) + Frames(b, decode)
    decreases |b|
  {
    if b == [] {
      assert a + b == a;
    } else {
      var init := b[..|b| - 1];
      assert (a + b)[..|a + b| - 1] == a + init;
      assert (a + b)[|a + b| - 1] == b[|b| - 1];
      FramesAppend(a, init, decode);
    }
  }

  /** No line yields more than one frame. */
  lemma {:induction false} FramesBounded(lines: seq<string>, decode: string -> Option<Json>)
    ensures |Frames(lines, decode)| <= |lines|
  {
    if lines != [] {
      FramesBounded(lines[..|lines| - 1], decode);
    }
  }

  /** A line that a backend framed as `data: ` followed by a JSON text yields what that
      text decodes to, and a line that is not a data line yields nothing. */
  lemma FramedLine(text: string, decode: string -> Option<Json>)
    requires text != "" && IsTrimmed(text)
    ensures LineFrame(DataPrefix + " " + text, decode) == decode(text)
  {
    var line := DataPrefix + " " + text;
    assert line[|DataPrefix|..] == " " + text;
    TrimPadded(text);
  }

  lemma TrimPadded(text: string)
    requires text != "" && IsTrimmed(text)
    ensures Trim(" " + text) == text
  {
    var s := " " + text;
    assert s[1..] == text;
    assert LeadingSpace(text) == 0;
    assert LeadingSpace(s) == 1;
    assert TrailingSpace(text) == 0;
  }

  // ---------------------------------------------------------------------------
  // The worker
  // ---------------------------------------------------------------------------

  const LabelA := "agentA"
  const LabelB := "agentB"

  /** The agent types the worker knows a service for. */
  const Services: set<string> := {"perplexity", "baseline", "gpt-researcher"}

  const IntermediateSteps := "intermediate_steps"
  const FinalReport := "final_report"
  const IsIntermediate := "is_intermediate"
  const Citations := "citations"
  const Complete := "complete"
  const FinalField := "final"
  const UnknownAgent := "Unknown agent type: "
  const CriticalError := "A critical error occurred: "

  /** The key `<agent>_<field>` under which the worker forwards a field. */
  function Key(agent: string, field: string): string {
    agent + "_" + field
  }

  lemma KeyInjective(agent: string, f1: string, f2: string)
    ensures Key(agent, f1) == Key(agent, f2) ==> f1 == f2
  {
    if Key(agent, f1) == Key(agent, f2) {
      var n := |agent| + 1;
      assert f1 == Key(agent, f1)[n..];
      assert f2 == Key(agent, f2)[n..];
    }
  }

  /** A queue item: the worker's agent label and a payload, or the end-of-worker sentinel. */
  datatype Item = Item(agent: string, payload: Option<Dict>)

  /** Copies `field` of `m` under the worker's key when it is present and not null. */
  function CopyField(p: Dict, agent: string, m: Dict, field: string): Dict {
    if Get(m, field) != JNull then p[Key(agent, field) := m[field]] else p
  }

  /** The payload forwarded for an ordinary frame. */
  function Forward(agent: string, m: Dict): Dict {
    var p := CopyField(map[], agent, m, IntermediateSteps);
    var p := CopyField(p, agent, m, FinalReport);
    var p := CopyField(p, agent, m, IsIntermediate);
    CopyField(p, agent, m, Citations)
  }

  /** A frame after which the worker relays nothing more: an error frame, a frame with a
      truthy `complete`, or a frame that is not an object (which raises inside the worker). */
  predicate Stops(f: Json) {
    !f.JObj? || ErrorKey in f.fields || PyTruthy(Get(f.fields, Complete))
  }

  /** The item the worker enqueues for one frame. `crash` is the text of the exception a
      frame that is not an object raises. */
  function RelayItem(agent: string, f: Json, crash: string): Item {
    match f
    case JObj(m) =>
      if ErrorKey in m then Item(agent, Some(map[Key(agent, FinalReport) := m[ErrorKey]]))
      else Item(agent, Some(Forward(agent, m)))
    case _ => Item(agent, Some(map[Key(agent, FinalField) := JStr(CriticalError + crash)]))
  }

  /** The items relayed for `frames`, up to and including the first frame that stops the
      worker. */
  function Relay(agent: string, frames: seq<Json>, crash: string): seq<Item>
    decreases |frames|
  {
    if frames == [] then []
    else [RelayItem(agent, frames[0], crash)] + (if Stops(frames[0]) then [] else Relay(agent, frames[1..], crash))
  }

  /** Everything `agent_task_worker` puts on the queue. */
  function WorkerItems(agentType: string, agent: string, frames: seq<Json>, crash: string): seq<Item> {
    if agentType !in Services then
      [Item(agent, Some(map[Key(agent, FinalField) := JStr(UnknownAgent + agentType)])), Item(agent, None)]
    else
      Relay(agent, frames, crash) + [Item(agent, None)]
  }

  method AgentTaskWorker(agentType: string, agent: string, frames: seq<Json>, crash: string)
    returns (items: seq<Item>)
    ensures items == WorkerItems(agentType, agent, frames, crash)
  {
    if agentType !in Services {
      items := [Item(agent, Some(map[Key(agent, FinalField) := JStr(UnknownAgent + agentType)])), Item(agent, None)];
      return;
    }
    items := [];
    var i := 0;
    while i < |frames|
      invariant 0 <= i <= |frames|
      invariant Relay(agent, frames, crash) == items + Relay(agent, frames[i..], crash)
      decreases |frames| - i
    {
      var data := frames[i];
      ghost var rest := Relay(agent, frames[i + 1..], crash);
      assert Relay(agent, frames[i..], crash)
        == [RelayItem(agent, data, crash)] + (if Stops(data) then [] else rest)
      by {
        assert frames[i..][0] == data && frames[i..][1..] == frames[i + 1..];
      }
      if !data.JObj? {
        items := items + [Item(agent, Some(map[Key(agent, FinalField) := JStr(CriticalError + crash)]))];
        assert Stops(data) && items == Relay(agent, frames, crash);
        break;
      }
      var m := data.fields;
      if ErrorKey in m {
        items := items + [Item(agent, Some(map[Key(agent, FinalReport) := m[ErrorKey]]))];
        assert Stops(data) && items == Relay(agent, frames, crash);
        break;
      }
      var payload := BuildPayload(agent, m);
      items := items + [Item(agent, Some(payload))];
      if PyTruthy(Get(m, Complete)) {
        assert Stops(data) && items == Relay(agent, frames, crash);
        break;
      }
      i := i + 1;
    }
    assert items == Relay(agent, frames, crash);
    items := items + [Item(agent, None)];
  }

  /** Lines 214-221 of the worker: the forwarded payload of an ordinary frame. */
  method BuildPayload(agent: string, m: Dict) returns (payload: Dict)
    ensures payload == Forward(agent, m)
  {
    payload := map[];
    if Get(m, IntermediateSteps) != JNull {
      payload := payload[Key(agent, IntermediateSteps) := m[IntermediateSteps]];
    }
    if Get(m, FinalReport) != JNull {
      payload := payload[Key(agent, FinalReport) := m[FinalReport]];
    }
    if Get(m, IsIntermediate) != JNull {
      payload := payload[Key(agent, IsIntermediate) := m[IsIntermediate]];
    }
    if Get(m, Citations) != JNull {
      payload := payload[Key(agent, Citations) := m[Citations]];
    }
  }

  /** The agents of the sentinels among `items`, in order. */
  function ItemSentinels(items: seq<Item>): seq<string> {
    if items == [] then []
    else (if items[0].payload.None? then [items[0].agent] else []) + ItemSentinels(items[1..])
  }

  lemma {:induction false} ItemSentinelsAppend(a: seq<Item>, b: seq<Item>)
    ensures ItemSentinels(a + b) == ItemSentinels(a) + ItemSentinels(b)
    decreases |a|
  {
    if a == [] {
      assert a + b == b;
    } else {
      assert (a + b)[0] == a[0] && (a + b)[1..] == a[1..] + b;
      ItemSentinelsAppend(a[1..], b);
    }
  }

  /** Every relayed item carries the worker's agent label and a payload. */
  lemma {:induction false} RelayPayloads(agent: string, frames: seq<Json>, crash: string)
    ensures forall i :: 0 <= i < |Relay(agent, frames, crash)| ==>
      Relay(agent, frames, crash)[i].agent == agent && Relay(agent, frames, crash)[i].payload.Some?
    ensures ItemSentinels(Relay(agent, frames, crash)) == []
    decreases |frames|
  {
    if frames != [] && !Stops(frames[0]) {
      RelayPayloads(agent, frames[1..], crash);
    }
  }

  /** On every path the worker labels all its items and enqueues exactly one sentinel,
      as its last item. */
  lemma WorkerEndsWithSentinel(agentType: string, agent: string, frames: seq<Json>, crash: string)
    ensures var w := WorkerItems(agentType, agent, frames, crash);
      && |w| >= 1
      && w[|w| - 1] == Item(agent, None)
      && (forall i :: 0 <= i < |w| ==> w[i].agent == agent)
      && (forall i :: 0 <= i < |w| - 1 ==> w[i].payload.Some?)
  {
    if agentType in Services {
      RelayPayloads(agent, frames, crash);
    }
  }

  lemma WorkerSentinels(agentType: string, agent: string, frames: seq<Json>, crash: string)
    ensures ItemSentinels(WorkerItems(agentType, agent, frames, crash)) == [agent]
  {
    var w := WorkerItems(agentType, agent, frames, crash);
    if agentType in Services {
      var r := Relay(agent, frames, crash);
      RelayPayloads(agent, frames, crash);
      ItemSentinelsAppend(r, [Item(agent, None)]);
    } else {
      assert w[1..] == [Item(agent, None)];
      assert ItemSentinels(w[1..]) == [agent] by {
        assert w[1..][1..] == [];
      }
    }
  }

  /** Nothing after the first error, completed or malformed frame reaches the queue. */
  lemma {:induction false} RelayStopsAt(agent: string, pre: seq<Json>, f: Json, post: seq<Json>, crash: string)
    requires forall i :: 0 <= i < |pre| ==> !Stops(pre[i])
    requires Stops(f)
    ensures Relay(agent, pre + [f] + post, crash) == Relay(agent, pre + [f], crash)
    decreases |pre|
  {
    if pre != [] {
      assert (pre + [f] + post)[1..] == pre[1..] + [f] + post;
      assert (pre + [f])[1..] == pre[1..] + [f];
      RelayStopsAt(agent, pre[1..], f, post, crash);
    } else {
      assert (pre + [f] + post)[0] == f && (pre + [f])[0] == f;
    }
  }

  /** The worker forwards exactly the non-null tracked fields of a frame, each under its
      labelled key, and nothing else. */
  lemma ForwardFields(agent: string, m: Dict, field: string)
    requires field in {IntermediateSteps, FinalReport, IsIntermediate, Citations}
    ensures Key(agent, field) in Forward(agent, m) <==> Get(m, field) != JNull
    ensures Key(agent, field) in Forward(agent, m) ==> Forward(agent, m)[Key(agent, field)] == m[field]
  {
    KeyInjective(agent, field, IntermediateSteps);
    KeyInjective(agent, field, FinalReport);
    KeyInjective(agent, field, IsIntermediate);
    KeyInjective(agent, field, Citations);
  }

  lemma ForwardOnly(agent: string, m: Dict)
    ensures forall k :: k in Forward(agent, m) ==>
      k in {Key(agent, IntermediateSteps), Key(agent, FinalReport), Key(agent, IsIntermediate), Key(agent, Citations)}
  {
  }

  // ---------------------------------------------------------------------------
  // The merge loop
  // ---------------------------------------------------------------------------

  /** One agent's part of `combined_state`. */
  datatype AgentState = AgentState(
    intermediateSteps: Json, finalReport: Json, isIntermediate: Json, isComplete: Json, citations: Json)

  /** `combined_state`: the two agents' parts. */
  datatype Combined = Combined(a: AgentState, b: AgentState)

  const Fresh := AgentState(JNull, JNull, JBool(false), JBool(false), JArr([]))
  const Start := Combined(Fresh, Fresh)

  /** What the merge loop sees: a queue item, or a wait that timed out at `timestamp`. */
  datatype Event = Timeout(timestamp: int) | Got(item: Item)

  /** The frames `generate_agent_responses` yields. The opening frame carries the request's
      metadata and the state both agents start from: no steps or report, both flags false,
      no citations, neither agent updated, and `final` false. */
  datatype Frame =
    | Opening(metadata: Json, state: Combined)
    | Heartbeat(timestamp: int)
    | Update(state: Combined, source: string)
    | Finished(state: Combined, source: string, last: bool)
    | Closing(state: Combined)

  /** The agent labelled `agent`'s part of a data payload: keys present in the payload
      overwrite, and a final report ends the intermediate phase unless the payload
      says otherwise. */
  function Absorb(s: AgentState, agent: string, chunk: Dict): AgentState {
    var steps := if Key(agent, IntermediateSteps) in chunk then chunk[Key(agent, IntermediateSteps)] else s.intermediateSteps;
    var report := if Key(agent, FinalReport) in chunk then chunk[Key(agent, FinalReport)] else s.finalReport;
    var interm :=
      if Key(agent, IsIntermediate) in chunk then chunk[Key(agent, IsIntermediate)]
      else if Key(agent, FinalReport) in chunk then JBool(false)
      else s.isIntermediate;
    var cites := if Key(agent, Citations) in chunk then chunk[Key(agent, Citations)] else s.citations;
    AgentState(steps, report, interm, s.isComplete, cites)
  }

  /** The field-wise upsert of a data payload into `combined_state`. */
  function Upsert(c: Combined, chunk: Dict): Combined {
    Combined(Absorb(c.a, LabelA, chunk), Absorb(c.b, LabelB, chunk))
  }

  /** A sentinel marks agent A complete for the label `agentA` and agent B for any other. */
  function MarkComplete(c: Combined, agent: string): Combined {
    if agent == LabelA then c.(a := c.a.(isComplete := JBool(true)))
    else c.(b := c.b.(isComplete := JBool(true)))
  }

  /** The closing frame's state: agent A is forced complete (twice, in the source). */
  function Closed(c: Combined): Combined {
    c.(a := c.a.(isComplete := JBool(true)))
  }

  /** The frames the loop yields from state `c` with `active` producers left, when the
      remaining events are `events`. When the events run out first, the real loop keeps
      waiting; the model stops there. */
  function MergeFrom(c: Combined, active: int, events: seq<Event>): seq<Frame>
    decreases |events|
  {
    if active <= 0 then [Closing(Closed(c))]
    else if events == [] then []
    else [StepFrame(c, active, events[0])] + MergeFrom(NextState(c, events[0]), NextActive(active, events[0]), events[1..])
  }

  /** The frame yielded for one event: a heartbeat for a timeout, a completion for a
      sentinel (final when it is the last awaited one), an update for a payload. */
  function StepFrame(c: Combined, active: int, e: Event): Frame {
    match e
    case Timeout(t) => Heartbeat(t)
    case Got(Item(l, None)) => Finished(MarkComplete(c, l), l, active - 1 == 0)
    case Got(Item(l, Some(chunk))) => Update(Upsert(c, chunk), l)
  }

  /** The state after one event. */
  function NextState(c: Combined, e: Event): Combined {
    match e
    case Timeout(_) => c
    case Got(Item(l, None)) => MarkComplete(c, l)
    case Got(Item(_, Some(chunk))) => Upsert(c, chunk)
  }

  /** The number of producers still awaited after one event. */
  function NextActive(active: int, e: Event): int {
    if e.Got? && e.item.payload.None? then active - 1 else active
  }

  /** Everything `generate_agent_responses` yields. */
  function Merged(metadata: Json, events: seq<Event>): seq<Frame> {
    [Opening(metadata, Start)] + MergeFrom(Start, 2, events)
  }

  /** Lines 322-344 of the merge loop, on the combined state. */
  method ApplyChunk(c: Combined, chunk: Dict) returns (r: Combined)
    ensures r == Upsert(c, chunk)
  {
    r := c;
    if Key(LabelA, IntermediateSteps) in chunk {
      r := r.(a := r.a.(intermediateSteps := chunk[Key(LabelA, IntermediateSteps)]));
    }
    if Key(LabelB, IntermediateSteps) in chunk {
      r := r.(b := r.b.(intermediateSteps := chunk[Key(LabelB, IntermediateSteps)]));
    }
    if Key(LabelA, FinalReport) in chunk {
      r := r.(a := r.a.(finalReport := chunk[Key(LabelA, FinalReport)], isIntermediate := JBool(false)));
    }
    if Key(LabelB, FinalReport) in chunk {
      r := r.(b := r.b.(finalReport := chunk[Key(LabelB, FinalReport)], isIntermediate := JBool(false)));
    }
    if Key(LabelA, IsIntermediate) in chunk {
      r := r.(a := r.a.(isIntermediate := chunk[Key(LabelA, IsIntermediate)]));
    }
    if Key(LabelB, IsIntermediate) in chunk {
      r := r.(b := r.b.(isIntermediate := chunk[Key(LabelB, IsIntermediate)]));
    }
    if Key(LabelA, Citations) in chunk {
      r := r.(a := r.a.(citations := chunk[Key(LabelA, Citations)]));
    }
    if Key(LabelB, Citations) in chunk {
      r := r.(b := r.b.(citations := chunk[Key(LabelB, Citations)]));
    }
  }

  method GenerateAgentResponses(metadata: Json, events: seq<Event>) returns (frames: seq<Frame>)
    ensures frames == Merged(metadata, events)
  {
    frames := [Opening(metadata, Start)];
    var combined := Start;
    var active := 2;
    var i := 0;
    while active > 0 && i < |events|
      invariant 0 <= i <= |events| && 0 <= active <= 2
      invariant Merged(metadata, events) == frames + MergeFrom(combined, active, events[i..])
      decreases |events| - i
    {
      var e := events[i];
      assert events[i..][0] == e && events[i..][1..] == events[i + 1..];
      match e {
        case Timeout(t) =>
          frames := frames + [Heartbeat(t)];
        case Got(Item(l, None)) =>
          active := active - 1;
          if l == LabelA {
            combined := combined.(a := combined.a.(isComplete := JBool(true)));
          } else {
            combined := combined.(b := combined.b.(isComplete := JBool(true)));
          }
          frames := frames + [Finished(combined, l, active == 0)];
        case Got(Item(l, Some(chunk))) =>
          combined := ApplyChunk(combined, chunk);
          frames := frames + [Update(combined, l)];
      }
      i := i + 1;
    }
    if active <= 0 {
      frames := frames + [Closing(Closed(combined))];
    }
  }

  /** The upsert changes only the fields its payload names: a field whose key is absent
      keeps its value, a present key sets it, and a final report without an explicit
      flag ends the intermediate phase. Completion is never touched. */
  lemma AbsorbFields(s: AgentState, agent: string, chunk: Dict)
    ensures var r := Absorb(s, agent, chunk);
      && r.isComplete == s.isComplete
      && (Key(agent, IntermediateSteps) !in chunk ==> r.intermediateSteps == s.intermediateSteps)
      && (Key(agent, FinalReport) !in chunk ==> r.finalReport == s.finalReport)
      && (Key(agent, Citations) !in chunk ==> r.citations == s.citations)
      && (Key(agent, FinalReport) !in chunk && Key(agent, IsIntermediate) !in chunk ==> r.isIntermediate == s.isIntermediate)
      && (Key(agent, FinalReport) in chunk && Key(agent, IsIntermediate) !in chunk ==> r.isIntermediate == JBool(false))
      && (Key(agent, IsIntermediate) in chunk ==> r.isIntermediate == chunk[Key(agent, IsIntermediate)])
  {
  }

  /** Applying the same payload twice is the same as applying it once. */
  lemma UpsertIdempotent(c: Combined, chunk: Dict)
    ensures Upsert(Upsert(c, chunk), chunk) == Upsert(c, chunk)
  {
  }

  /** The error payloads keyed `<agent>_final` (unknown agent type, worker crash) are
      never read by the merge: they leave the combined state as it was. */
  lemma FinalPayloadIgnored(c: Combined, agent: string, v: Json)
    requires agent == LabelA || agent == LabelB
    ensures Upsert(c, map[Key(agent, FinalField) := v]) == c
  {
    var k := Key(agent, FinalField);
    forall l, f | l in {LabelA, LabelB} && f in {IntermediateSteps, FinalReport, IsIntermediate, Citations}
      ensures Key(l, f) != k
    {
      assert |Key(l, f)| != |k|;
    }
  }

  /** The frames other than heartbeats. */
  function NoHeartbeats(frames: seq<Frame>): seq<Frame> {
    if frames == [] then []
    else (if frames[0].Heartbeat? then [] else [frames[0]]) + NoHeartbeats(frames[1..])
  }

  /** The events other than timeouts. */
  function NoTimeouts(events: seq<Event>): seq<Event> {
    if events == [] then []
    else (if events[0].Timeout? then [] else [events[0]]) + NoTimeouts(events[1..])
  }

  /** A timeout only adds a heartbeat: dropping the heartbeats from the output gives what
      the loop yields when no wait times out. */
  lemma {:induction false} TimeoutsTransparent(c: Combined, active: int, events: seq<Event>)
    ensures NoHeartbeats(MergeFrom(c, active, events)) == MergeFrom(c, active, NoTimeouts(events))
    decreases |events|
  {
    if active <= 0 {
      assert NoHeartbeats([Closing(Closed(c))]) == [Closing(Closed(c))];
    } else if events != [] {
      var e, rest := events[0], events[1..];
      var c', a' := NextState(c, e), NextActive(active, e);
      var out := MergeFrom(c, active, events);
      assert out[0] == StepFrame(c, active, e) && out[1..] == MergeFrom(c', a', rest);
      TimeoutsTransparent(c', a', rest);
      if e.Timeout? {
        assert NoHeartbeats(out) == NoHeartbeats(out[1..]);
        assert NoTimeouts(events) == NoTimeouts(rest);
      } else {
        assert NoHeartbeats(out) == [out[0]] + NoHeartbeats(out[1..]);
        var kept := NoTimeouts(events);
        assert kept == [e] + NoTimeouts(rest);
        assert kept[0] == e && kept[1..] == NoTimeouts(rest);
      }
    }
  }

  /** The labels of the sentinels the loop receives, in order. */
  function Sentinels(events: seq<Event>): seq<string> {
    if events == [] then []
    else
      var e := events[0];
      (if e.Got? && e.item.payload.None? then [e.item.agent] else []) + Sentinels(events[1..])
  }

  /** Whether one of the next `active` sentinels is not agent A's, so that it marks
      agent B complete. */
  predicate MarksB(events: seq<Event>, active: int)
    decreases |events|
  {
    if active <= 0 || events == [] then false
    else
      var e := events[0];
      if e.Got? && e.item.payload.None? then e.item.agent != LabelA || MarksB(events[1..], active - 1)
      else MarksB(events[1..], active)
  }

  /** The loop closes exactly when `active` sentinels arrive; the closing frame is the last
      frame, carries agent A forced complete, and carries agent B complete when B was
      already, or when one of those sentinels is not agent A's. */
  lemma {:induction false} ClosesAfterSentinels(c: Combined, active: int, events: seq<Event>)
    requires active > 0
    ensures var out := MergeFrom(c, active, events);
      (out != [] && out[|out| - 1].Closing?) <==> |Sentinels(events)| >= active
    ensures var out := MergeFrom(c, active, events);
      out != [] && out[|out| - 1].Closing? ==>
        && out[|out| - 1].state.a.isComplete == JBool(true)
        && (c.b.isComplete == JBool(true) || MarksB(events, active) ==> out[|out| - 1].state.b.isComplete == JBool(true))
    decreases |events|
  {
    if events != [] {
      var e := events[0];
      var c', a' := NextState(c, e), NextActive(active, e);
      var out := MergeFrom(c, active, events);
      assert out == [out[0]] + MergeFrom(c', a', events[1..]);
      assert c.b.isComplete == JBool(true) ==> c'.b.isComplete == JBool(true);
      assert MarksB(events, active) ==> c'.b.isComplete == JBool(true) || MarksB(events[1..], a');
      if a' > 0 {
        ClosesAfterSentinels(c', a', events[1..]);
      }
    }
  }

  lemma {:induction false} MarksBOf(events: seq<Event>, n: int)
    requires |Sentinels(events)| <= n && LabelB in Sentinels(events)
    ensures MarksB(events, n)
    decreases |events|
  {
    var e := events[0];
    if !(e.Got? && e.item.payload.None? && e.item.agent == LabelB) {
      MarksBOf(events[1..], NextActive(n, e));
    }
  }

  /** The queue as the merge loop sees it is an interleaving of the two workers' items,
      with timeouts anywhere. */
  predicate Interleaves(events: seq<Event>, wa: seq<Item>, wb: seq<Item>)
    decreases |events|
  {
    if events == [] then wa == [] && wb == []
    else match events[0]
      case Timeout(_) => Interleaves(events[1..], wa, wb)
      case Got(x) =>
        || (wa != [] && wa[0] == x && Interleaves(events[1..], wa[1..], wb))
        || (wb != [] && wb[0] == x && Interleaves(events[1..], wa, wb[1..]))
  }

  lemma {:induction false} SentinelsInterleave(events: seq<Event>, wa: seq<Item>, wb: seq<Item>)
    requires Interleaves(events, wa, wb)
    ensures multiset(Sentinels(events)) == multiset(ItemSentinels(wa)) + multiset(ItemSentinels(wb))
    decreases |events|
  {
    if events != [] {
      match events[0]
      case Timeout(_) =>
        SentinelsInterleave(events[1..], wa, wb);
      case Got(x) =>
        if wa != [] && wa[0] == x && Interleaves(events[1..], wa[1..], wb) {
          SentinelsInterleave(events[1..], wa[1..], wb);
        } else {
          SentinelsInterleave(events[1..], wa, wb[1..]);
        }
    }
  }

  /** Two workers that each end with one sentinel, interleaved: the loop sees two
      sentinels, one of them agent B's. */
  lemma TwoSentinels(events: seq<Event>, wa: seq<Item>, wb: seq<Item>)
    requires Interleaves(events, wa, wb)
    requires ItemSentinels(wa) == [LabelA] && ItemSentinels(wb) == [LabelB]
    ensures |Sentinels(events)| == 2 && LabelB in Sentinels(events)
  {
    var sent := Sentinels(events);
    SentinelsInterleave(events, wa, wb);
    assert multiset(sent) == multiset{LabelA, LabelB};
    assert |multiset(sent)| == |sent|;
    assert LabelB in multiset(sent);
  }

  /** Whatever the interleaving of two workers' items and whatever the timeouts, the loop
      receives one sentinel from each, yields a closing frame as its last frame, and in it
      both agents are complete. */
  lemma WorkersClose(typeA: string, framesA: seq<Json>, crashA: string,
                     typeB: string, framesB: seq<Json>, crashB: string,
                     metadata: Json, events: seq<Event>)
    requires Interleaves(events, WorkerItems(typeA, LabelA, framesA, crashA), WorkerItems(typeB, LabelB, framesB, crashB))
    ensures var out := Merged(metadata, events);
      && out[|out| - 1].Closing?
      && out[|out| - 1].state.a.isComplete == JBool(true)
      && out[|out| - 1].state.b.isComplete == JBool(true)
  {
    var wa := WorkerItems(typeA, LabelA, framesA, crashA);
    var wb := WorkerItems(typeB, LabelB, framesB, crashB);
    WorkerSentinels(typeA, LabelA, framesA, crashA);
    WorkerSentinels(typeB, LabelB, framesB, crashB);
    TwoSentinels(events, wa, wb);
    MarksBOf(events, 2);
    ClosesAfterSentinels(Start, 2, events);
  }

  // ---------------------------------------------------------------------------
  // Request validation
  // ---------------------------------------------------------------------------

  const QuestionKey := "question"
  const SelectedKey := "selected_agents"
  const DefaultQuestion := "Tell me a fun fact about space."

  /** A request the endpoint accepts: the question, the selection, and the agent ids its
      two UUIDs resolve to. */
  datatype Accepted = Accepted(question: Json, selected: Dict, agentA: string, agentB: string)

  /** Why a request is refused: a body that is not an object (the endpoint raises), a
      selection without both agents (400), a selected value that is truthy but not a
      string (`uuid.UUID` raises an AttributeError that nothing catches: HTTP 500), or
      agents the database does not know (404, listing the missing labels). */
  datatype Refusal = NotAnObject | BadSelection | UuidRaises | UnknownAgents(missing: seq<string>)

  /** `uuid.UUID(v)` calls `v.replace`, which only a string has. */
  predicate Raises(v: Json) {
    PyTruthy(v) && !v.JStr?
  }

  /** `get_agent_id_from_uuid`: nothing for a falsy value, the uncaught error for a value
      that is not a string, else the database's answer (`lookup`, which answers nothing
      for a malformed UUID string, the `ValueError` the function catches). */
  function AgentId(v: Json, lookup: string -> Option<string>): (r: Result<Option<string>, Refusal>)
    ensures r.Err? <==> Raises(v)
    ensures r.Ok? && r.value.Some? ==> v.JStr? && v.s != "" && lookup(v.s) == r.value
  {
    if !PyTruthy(v) then Ok(None)
    else if v.JStr? then Ok(lookup(v.s))
    else Err(UuidRaises)
  }

  /** Whether the agent selected by `v` counts as found: Python's `not agent_id` also
      rejects the empty id. */
  predicate Found(v: Json, lookup: string -> Option<string>) {
    PyTruthy(v) && v.JStr? && lookup(v.s).Some? && lookup(v.s).value != ""
  }

  /** The body holds a `selected_agents` object naming both agents. */
  predicate HasSelection(body: Json) {
    body.JObj? && SelectedKey in body.fields && body.fields[SelectedKey].JObj?
    && LabelA in body.fields[SelectedKey].fields && LabelB in body.fields[SelectedKey].fields
  }

  function ValidateRequest(body: Json, lookup: string -> Option<string>): (r: Result<Accepted, Refusal>)
    ensures r.Err? && r.error == NotAnObject <==> !body.JObj?
    ensures r.Err? && r.error == BadSelection <==> body.JObj? && !HasSelection(body)
    ensures r.Err? && r.error == UuidRaises <==>
      HasSelection(body)
      && (Raises(body.fields[SelectedKey].fields[LabelA]) || Raises(body.fields[SelectedKey].fields[LabelB]))
    ensures r.Ok? ==>
      && HasSelection(body)
      && r.value.selected == body.fields[SelectedKey].fields
      && r.value.selected[LabelA].JStr? && lookup(r.value.selected[LabelA].s) == Some(r.value.agentA) && r.value.agentA != ""
      && r.value.selected[LabelB].JStr? && lookup(r.value.selected[LabelB].s) == Some(r.value.agentB) && r.value.agentB != ""
      && r.value.question == (if QuestionKey in body.fields then body.fields[QuestionKey] else JStr(DefaultQuestion))
    ensures r.Err? && r.error.UnknownAgents? ==>
      && HasSelection(body)
      && !Raises(body.fields[SelectedKey].fields[LabelA]) && !Raises(body.fields[SelectedKey].fields[LabelB])
      && r.error.missing != []
      && (LabelA in r.error.missing <==> !Found(body.fields[SelectedKey].fields[LabelA], lookup))
      && (LabelB in r.error.missing <==> !Found(body.fields[SelectedKey].fields[LabelB], lookup))
  {
    if !body.JObj? then Err(NotAnObject)
    else
      var data := body.fields;
      var question := if QuestionKey in data then data[QuestionKey] else JStr(DefaultQuestion);
      var selected := if SelectedKey in data then data[SelectedKey] else JObj(map[]);
      if !PyTruthy(selected) || !selected.JObj? || LabelA !in selected.fields || LabelB !in selected.fields then
        Err(BadSelection)
      else
        var vA := selected.fields[LabelA];
        var vB := selected.fields[LabelB];
        match AgentId(vA, lookup)
        case Err(e) => Err(e)
        case Ok(idA) =>
          match AgentId(vB, lookup)
          case Err(e) => Err(e)
          case Ok(idB) =>
            var foundA := idA.Some? && idA.value != "";
            var foundB := idB.Some? && idB.value != "";
            if !foundA || !foundB then
              Err(UnknownAgents((if foundA then [] else [LabelA]) + (if foundB then [] else [LabelB])))
            else
              Ok(Accepted(question, selected.fields, idA.value, idB.value))
  }

  /** The selection check refuses exactly the bodies whose `selected_agents` is missing,
      empty, not an object, or lacks one of the two agents. */
  lemma SelectionRefused(body: Json, lookup: string -> Option<string>)
    requires body.JObj?
    ensures ValidateRequest(body, lookup) == Err(BadSelection) <==>
      (SelectedKey !in body.fields || !body.fields[SelectedKey].JObj?
       || LabelA !in body.fields[SelectedKey].fields || LabelB !in body.fields[SelectedKey].fields)
  {
  }

  /** A selected number is not a UUID string: the endpoint fails with the uncaught error,
      whatever the database holds and whatever the other agent is. */
  lemma NumberSelectionRaises(n: int, other: Json, question: Json, lookup: string -> Option<string>)
    requires n != 0
    ensures ValidateRequest(JObj(map[QuestionKey := question,
      SelectedKey := JObj(map[LabelA := JNum(n), LabelB := other])]), lookup) == Err(UuidRaises)
  {
    var body := JObj(map[QuestionKey := question, SelectedKey := JObj(map[LabelA := JNum(n), LabelB := other])]);
    assert HasSelection(body);
    assert Raises(body.fields[SelectedKey].fields[LabelA]);
  }
}
