/**
 * The gpt-researcher producer: it folds the messages the research task sends (logs,
 * report text, errors) into a thinking log and a report, yields a snapshot after each
 * message, and a closing snapshot at the end. The research task itself is left out:
 * its messages are the input, up to the end-of-task signal it always sends.
 */
module GptResearcher {
  import opened Wrappers
  import opened Strings
  import opened Json
  import Aggregator

  type Dict = map<string, Json>

  const TypeKey := "type"
  const OutputKey := "output"
  const Logs := "logs"
  const Report := "report"
  const ErrorType := "error"
  const BlankLine := "\n\n"
  const ErrorOccurred := "An error occurred: "
  const ErrorLead := "Error in gpt_researcher_producer_gen: "

  const ThinkKey := "think"
  const FinalKey := "final"
  const IsReasoning := "is_reasoning"
  const Complete := "complete"
  const ErrorKey := "error"

  /** The producer's accumulators. */
  datatype Log = Log(thinking: string, final: string, reasoning: bool)

  const Start := Log("", "", false)

  /** A frame the producer yields: a snapshot of the accumulators, or an error. */
  datatype Frame =
    | Snapshot(think: string, report: string, reasoning: bool, complete: bool)
    | Failure(error: string)

  /** The JSON object each frame is sent as. */
  function Encode(f: Frame): Dict {
    match f
    case Snapshot(t, r, b, c) => map[ThinkKey := JStr(t), FinalKey := JStr(r), IsReasoning := JBool(b), Complete := JBool(c)]
    case Failure(e) => map[ErrorKey := JStr(e)]
  }

  function SnapshotOf(l: Log): Frame {
    Snapshot(l.thinking, l.final, l.reasoning, false)
  }

  /** The snapshot sent once the loop has ended. */
  function Closing(l: Log): Frame {
    Snapshot(l.thinking, l.final, false, true)
  }

  /** What one message does: it updates the accumulators (a snapshot follows), it ends
      the loop with an error frame (the closing snapshot follows), or it raises, and the
      error frame is the last thing yielded. */
  datatype Step = Logged(log: Log) | Stopped(frame: Frame) | Crashed(frame: Frame)

  /** One message. A message that is not an object, or whose `output` is not a string,
      raises; `crash` is the text of that exception. */
  function Read(l: Log, message: Json, crash: string): Step {
    match message
    case JObj(m) =>
      var raw := if OutputKey in m then m[OutputKey] else JStr("");
      if !raw.JStr? then Crashed(Failure(ErrorLead + crash))
      else
        var output := Trim(raw.s);
        var kind := Get(m, TypeKey);
        if kind == JStr(Logs) then
          Logged(l.(reasoning := true, thinking := if output != "" then l.thinking + output + BlankLine else l.thinking))
        else if kind == JStr(Report) then
          Logged(l.(reasoning := false, final := l.final + raw.s))
        else if kind == JStr(ErrorType) then
          Stopped(Failure(ErrorOccurred + output))
        else Logged(l)
    case _ => Crashed(Failure(ErrorLead + crash))
  }

  /** Everything the producer yields from accumulators `l` on. */
  function Research(l: Log, messages: seq<Json>, crash: string): seq<Frame>
    decreases |messages|
  {
    if messages == [] then [Closing(l)]
    else
      match Read(l, messages[0], crash)
      case Crashed(f) => [f]
      case Stopped(f) => [f, Closing(l)]
      case Logged(l') => [SnapshotOf(l')] + Research(l', messages[1..], crash)
  }

  /** `gpt_researcher_producer_gen` over the messages the research task sends. The
      accumulators are kept together in one `Log` value. */
  method GptResearcherProducer(messages: seq<Json>, crash: string) returns (frames: seq<Frame>)
    ensures frames == Research(Start, messages, crash)
  {
    var log := Start;
    frames := [];
    var i := 0;
    while i < |messages|
      invariant 0 <= i <= |messages|
      invariant Research(Start, messages, crash) == frames + Research(log, messages[i..], crash)
      decreases |messages| - i
    {
      assert messages[i..][0] == messages[i] && messages[i..][1..] == messages[i + 1..];
      var step := ReadMessage(log, messages[i], crash);
      match step {
        case Crashed(f) =>
          frames := frames + [f];
          return;
        case Stopped(f) =>
          frames := frames + [f];
          break;
        case Logged(l) =>
          log := l;
          frames := frames + [Snapshot(log.thinking, log.final, log.reasoning, false)];
          i := i + 1;
      }
    }
    frames := frames + [Snapshot(log.thinking, log.final, false, true)];
  }

  /** The body of the loop for one message (lines 65-90). */
  method ReadMessage(l: Log, message: Json, crash: string) returns (step: Step)
    ensures step == Read(l, message, crash)
  {
    if !message.JObj? {
      return Crashed(Failure(ErrorLead + crash));
    }
    var m := message.fields;
    var msgType := Get(m, TypeKey);
    var msgOutputRaw := if OutputKey in m then m[OutputKey] else JStr("");
    if !msgOutputRaw.JStr? {
      return Crashed(Failure(ErrorLead + crash));
    }
    var msgOutput := Trim(msgOutputRaw.s);
    var thinkingLog, finalReportContent, isReasoning := l.thinking, l.final, l.reasoning;
    if msgType == JStr(Logs) {
      isReasoning := true;
      if msgOutput != "" {
        thinkingLog := thinkingLog + msgOutput + BlankLine;
      }
    } else if msgType == JStr(Report) {
      isReasoning := false;
      finalReportContent := finalReportContent + msgOutputRaw.s;
    } else if msgType == JStr(ErrorType) {
      return Stopped(Failure(ErrorOccurred + msgOutput));
    }
    step := Logged(Log(thinkingLog, finalReportContent, isReasoning));
  }

  // ---------------------------------------------------------------------------
  // One message

  /** A `logs` message starts the reasoning phase and appends its stripped output and a
      blank line, unless the stripped output is empty. */
  lemma ReadLogs(l: Log, m: Dict, output: string, crash: string)
    requires Get(m, TypeKey) == JStr(Logs) && OutputKey in m && m[OutputKey] == JStr(output)
    ensures var s := Read(l, JObj(m), crash);
      && s.Logged? && s.log.reasoning && s.log.final == l.final
      && (Trim(output) == "" ==> s.log.thinking == l.thinking)
      && (Trim(output) != "" ==> s.log.thinking == l.thinking + Trim(output) + BlankLine)
  {
  }

  /** A `report` message ends the reasoning phase and appends its output unstripped. */
  lemma ReadReport(l: Log, m: Dict, output: string, crash: string)
    requires Get(m, TypeKey) == JStr(Report) && OutputKey in m && m[OutputKey] == JStr(output)
    ensures Read(l, JObj(m), crash) == Logged(Log(l.thinking, l.final + output, false))
  {
  }

  /** A message of any other type that is not an error changes nothing, but still yields
      a snapshot. */
  lemma ReadOther(l: Log, m: Dict, crash: string)
    requires Get(m, TypeKey) !in {JStr(Logs), JStr(Report), JStr(ErrorType)}
    requires OutputKey !in m || m[OutputKey].JStr?
    ensures Read(l, JObj(m), crash) == Logged(l)
  {
  }

  /** The thinking log and the report only grow. */
  lemma ReadGrows(l: Log, message: Json, crash: string)
    ensures var s := Read(l, message, crash);
      s.Logged? ==> l.thinking <= s.log.thinking && l.final <= s.log.final
  {
  }

  // ---------------------------------------------------------------------------
  // The whole stream

  lemma PrefixTransitive(a: string, b: string, c: string)
    requires a <= b && b <= c
    ensures a <= c
  {
    assert c[..|a|] == b[..|a|];
  }

  /** Every snapshot in `out` extends the thinking log and report of `l`. */
  predicate Above(l: Log, out: seq<Frame>) {
    forall i :: 0 <= i < |out| && out[i].Snapshot? ==> l.thinking <= out[i].think && l.final <= out[i].report
  }

  /** Each snapshot in `out` extends every earlier one. */
  predicate Growing(out: seq<Frame>) {
    forall i, j :: 0 <= i < j < |out| && out[i].Snapshot? && out[j].Snapshot? ==>
      out[i].think <= out[j].think && out[i].report <= out[j].report
  }

  /** Every snapshot from `l` on extends the thinking log and report of `l`. */
  lemma {:induction false} ResearchAbove(l: Log, messages: seq<Json>, crash: string)
    ensures Above(l, Research(l, messages, crash))
    decreases |messages|
  {
    if messages != [] {
      ReadGrows(l, messages[0], crash);
      match Read(l, messages[0], crash)
      case Crashed(f) =>
      case Stopped(f) =>
      case Logged(l') =>
        var rest := Research(l', messages[1..], crash);
        var out := Research(l, messages, crash);
        assert out == [SnapshotOf(l')] + rest;
        ResearchAbove(l', messages[1..], crash);
        forall i | 0 <= i < |out| && out[i].Snapshot?
          ensures l.thinking <= out[i].think && l.final <= out[i].report
        {
          if i > 0 {
            assert out[i] == rest[i - 1] && rest[i - 1].Snapshot?;
            PrefixTransitive(l.thinking, l'.thinking, out[i].think);
            PrefixTransitive(l.final, l'.final, out[i].report);
          }
        }
    }
  }

  /** Across the snapshots the producer yields, the thinking log and the report only
      grow: each has every earlier one as a prefix. */
  lemma {:induction false} SnapshotsGrow(l: Log, messages: seq<Json>, crash: string)
    ensures Growing(Research(l, messages, crash))
    decreases |messages|
  {
    if messages != [] {
      match Read(l, messages[0], crash)
      case Crashed(f) =>
      case Stopped(f) =>
      case Logged(l') =>
        var rest := Research(l', messages[1..], crash);
        var out := Research(l, messages, crash);
        assert out == [SnapshotOf(l')] + rest;
        SnapshotsGrow(l', messages[1..], crash);
        ResearchAbove(l', messages[1..], crash);
        forall i, j | 0 <= i < j < |out| && out[i].Snapshot? && out[j].Snapshot?
          ensures out[i].think <= out[j].think && out[i].report <= out[j].report
        {
          assert out[j] == rest[j - 1] && rest[j - 1].Snapshot?;
          if i > 0 {
            assert out[i] == rest[i - 1] && rest[i - 1].Snapshot?;
          }
        }
    }
  }

  /** The producer ends with the closing snapshot, not reasoning and complete, unless a
      message raised, and then it ends with that error; every earlier snapshot is
      incomplete, and an error frame is only ever last or right before the closing one. */
  lemma {:induction false} ResearchEnds(l: Log, messages: seq<Json>, crash: string)
    ensures var out := Research(l, messages, crash);
      && |out| >= 1
      && (out[|out| - 1].Failure? || out[|out| - 1] == Snapshot(out[|out| - 1].think, out[|out| - 1].report, false, true))
      && (out[|out| - 1].Failure? ==> out[|out| - 1].error == ErrorLead + crash)
      && (forall i :: 0 <= i < |out| - 1 && out[i].Snapshot? ==> !out[i].complete)
      && (forall i :: 0 <= i < |out| - 2 ==> out[i].Snapshot?)
    decreases |messages|
  {
    if messages != [] {
      match Read(l, messages[0], crash)
      case Crashed(f) =>
      case Stopped(f) =>
      case Logged(l') =>
        ResearchEnds(l', messages[1..], crash);
    }
  }

  // ---------------------------------------------------------------------------
  // What the relaying worker makes of these frames

  /** As written, a snapshot carries none of the four fields the worker forwards
      (`intermediate_steps`, `final_report`, `is_intermediate`, `citations`), so every
      payload the worker relays for this producer is empty. */
  lemma SnapshotNotForwarded(agent: string, f: Frame)
    requires f.Snapshot?
    ensures Aggregator.Forward(agent, Encode(f)) == map[]
  {
  }

  /** The frame with the field names the other producers use and the worker reads. */
  function NormalisedEncode(f: Frame): Dict {
    match f
    case Snapshot(t, r, b, c) =>
      map[Aggregator.IntermediateSteps := JStr(t), Aggregator.FinalReport := JStr(r),
          Aggregator.IsIntermediate := JBool(b), Complete := JBool(c)]
    case Failure(e) => map[ErrorKey := JStr(e)]
  }

  /** With the normalised names, the worker forwards the thinking log as the agent's
      intermediate steps, the report as its final report, and the reasoning flag as
      its intermediate flag. */
  lemma NormalisedForwarded(agent: string, f: Frame)
    requires f.Snapshot?
    ensures Aggregator.Forward(agent, NormalisedEncode(f)) == map[
      Aggregator.Key(agent, Aggregator.IntermediateSteps) := JStr(f.think),
      Aggregator.Key(agent, Aggregator.FinalReport) := JStr(f.report),
      Aggregator.Key(agent, Aggregator.IsIntermediate) := JBool(f.reasoning)]
  {
  }
}
