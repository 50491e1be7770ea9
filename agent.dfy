/**
 * The baseline research agent (`LLMAgent`): the counter state machine that
 * executes a validated directive (`execute_response`), the builder of the next
 * prompt (`_update_input`), the format-checking retry loop around the model
 * (`query_gemini`) and the bounded turn loop that streams the agent's steps
 * (`run_llm_loop`).
 *
 * The model and the search engine are oracles: the model is a function from
 * the number of the call to its reply, the search engine a function from the
 * query and the document count to the URLs it fetched, or None when it raised.
 */
module Agent {
  import opened Wrappers
  import opened Strings
  import opened ActionProtocol

  /** `MAX_CONTEXT_LENGTH`: past this many characters the next prompt asks for a summary. */
  const MaxContextLength := 40000

  /** What the agent writes after each step of `current_think_content`. */
  const StepSeparator := "|||---|||"

  /** The run's configuration (`max_turns`, `max_try_time`, `num_docs`,
      `search_reminder_turn`, `final_report_reminder_turn`) and the texts of
      `report_format_reminder_prompt` and `summary_reminder_prompt`. */
  datatype Config = Config(
    maxTurns: int,
    maxTryTime: int,
    numDocs: nat,
    searchReminderTurn: int,
    finalReportReminderTurn: int,
    reportFormatReminder: string,
    summaryReminder: string)

  /** One part of a model reply; a part whose text is missing has text "". */
  datatype Part = Part(text: string, thought: bool)

  /** The model's answer to one call: the call raised, or the reply's parts. */
  datatype ModelReply = CallFailed | Reply(parts: seq<Part>)

  type ModelOracle = nat -> ModelReply

  type SearchOracle = (string, nat) -> Option<seq<string>>

  // ---------------------------------------------------------------------------
  // Reading a reply
  // ---------------------------------------------------------------------------

  /** The text of the last non-empty part whose thought flag is `thought`, or "". */
  function LastPartText(parts: seq<Part>, thought: bool): string {
    if parts == [] then ""
    else
      var last := parts[|parts| - 1];
      if last.text != "" && last.thought == thought then last.text
      else LastPartText(parts[..|parts| - 1], thought)
  }

  /** The text read from a reply is that of one of its parts of the right kind, and no
      later part of that kind has text. */
  lemma {:induction false} LastPartTextIsLast(parts: seq<Part>, thought: bool)
    ensures var r := LastPartText(parts, thought);
      && (r == "" <==> forall i :: 0 <= i < |parts| && parts[i].thought == thought ==> parts[i].text == "")
      && (r != "" ==>
            exists i ::
              && 0 <= i < |parts| && parts[i] == Part(r, thought)
              && (forall j :: i < j < |parts| && parts[j].thought == thought ==> parts[j].text == ""))
  {
    if parts != [] {
      var init := parts[..|parts| - 1];
      LastPartTextIsLast(init, thought);
      assert forall i :: 0 <= i < |init| ==> init[i] == parts[i];
    }
  }

  /** The loop over `candidates[0].content.parts` in `query_gemini`. */
  method ExtractParts(parts: seq<Part>) returns (thought: string, text: string)
    ensures thought == LastPartText(parts, true)
    ensures text == LastPartText(parts, false)
  {
    thought, text := "", "";
    for i := 0 to |parts|
      invariant thought == LastPartText(parts[..i], true)
      invariant text == LastPartText(parts[..i], false)
    {
      assert parts[..i + 1][..i] == parts[..i];
      if parts[i].text == "" {
        continue;
      }
      if parts[i].thought {
        thought := parts[i].text;
      } else {
        text := parts[i].text;
      }
    }
    assert parts[..|parts|] == parts;
  }

  // ---------------------------------------------------------------------------
  // The retry loop
  // ---------------------------------------------------------------------------

  /** How `query_gemini` ends: a validated directive with the model's thought,
      `ValueError` after a badly formatted last attempt, or falling off the loop
      (returning None) after a failed last call. */
  datatype QueryOutcome = Got(thought: string, action: string) | FormatExhausted | FellThrough

  /** `response_with_thought` as `query_gemini` measures it. */
  function ThoughtAndAction(thought: string, action: string): string {
    "<think>" + thought + "</think>\n" + action
  }

  /** The outcome of the retry loop, the number of model calls made and the prompt as
      last extended. */
  datatype Attempt = Attempt(outcome: QueryOutcome, calls: nat, prompt: string)

  type Validator = string -> Option<string>

  /** How an action string is split into its kind's name and its content (`parse_action`). */
  type Parser = string -> Result<ParsedAction, string>

  /** The retry loop of `query_gemini` from the `tried`-th attempt on, the next call to
      the model being call number `calls`; `validate` is `postprocess_response`. */
  function Attempts(model: ModelOracle, validate: Validator, prompt: string, calls: nat, tried: int, cfg: Config): Attempt
    decreases cfg.maxTryTime - tried
  {
    if tried >= cfg.maxTryTime then Attempt(FellThrough, calls, prompt)
    else
      match model(calls)
      case CallFailed => Attempts(model, validate, prompt, calls + 1, tried + 1, cfg)
      case Reply(parts) =>
        match validate(LastPartText(parts, false))
        case Some(action) => Attempt(Got(LastPartText(parts, true), action), calls + 1, prompt)
        case None =>
          if tried + 1 == cfg.maxTryTime then Attempt(FormatExhausted, calls + 1, prompt + cfg.reportFormatReminder)
          else Attempts(model, validate, prompt + cfg.reportFormatReminder, calls + 1, tried + 1, cfg)
  }

  /** Whether call `i` returned a reply the validator refused. */
  predicate BadReply(model: ModelOracle, validate: Validator, i: nat) {
    model(i).Reply? && validate(LastPartText(model(i).parts, false)).None?
  }

  /** The number of refused replies among calls `from` .. `to` - 1. */
  function BadReplies(model: ModelOracle, validate: Validator, from: nat, to: nat): nat
    decreases to - from
  {
    if from >= to then 0 else (if BadReply(model, validate, from) then 1 else 0) + BadReplies(model, validate, from + 1, to)
  }

  function Repeat(s: string, n: nat): string {
    if n == 0 then "" else s + Repeat(s, n - 1)
  }

  /** The loop makes one model call per attempt, at most `max_try_time` in all; it
      raises only after using every attempt, the last on a refused reply, and falls
      through only when the last call failed or no attempt was allowed. */
  lemma {:induction false} AttemptsCalls(model: ModelOracle, validate: Validator, prompt: string, calls: nat, tried: int, cfg: Config)
    requires 0 <= tried
    ensures var a := Attempts(model, validate, prompt, calls, tried, cfg);
      var allowed := if cfg.maxTryTime > tried then cfg.maxTryTime - tried else 0;
      && calls <= a.calls <= calls + allowed
      && (a.outcome.Got? ==> calls < a.calls)
      && (a.outcome.FormatExhausted? ==> a.calls == calls + allowed && BadReply(model, validate, a.calls - 1))
      && (a.outcome.FellThrough? ==> a.calls == calls + allowed && (a.calls == calls || model(a.calls - 1).CallFailed?))
    decreases cfg.maxTryTime - tried
  {
    if tried < cfg.maxTryTime {
      match model(calls)
      case CallFailed =>
        AttemptsCalls(model, validate, prompt, calls + 1, tried + 1, cfg);
      case Reply(parts) =>
        if validate(LastPartText(parts, false)).None? && tried + 1 < cfg.maxTryTime {
          AttemptsCalls(model, validate, prompt + cfg.reportFormatReminder, calls + 1, tried + 1, cfg);
        }
    }
  }

  /** An accepted directive is the validator's verdict on the last reply's text, and
      the thought comes from the same reply. */
  lemma {:induction false} AttemptsAccepted(model: ModelOracle, validate: Validator, prompt: string, calls: nat, tried: int, cfg: Config)
    requires 0 <= tried
    ensures var a := Attempts(model, validate, prompt, calls, tried, cfg);
      a.outcome.Got? ==>
        && calls < a.calls
        && model(a.calls - 1).Reply?
        && validate(LastPartText(model(a.calls - 1).parts, false)) == Some(a.outcome.action)
        && a.outcome.thought == LastPartText(model(a.calls - 1).parts, true)
    decreases cfg.maxTryTime - tried
  {
    if tried < cfg.maxTryTime {
      match model(calls)
      case CallFailed =>
        AttemptsAccepted(model, validate, prompt, calls + 1, tried + 1, cfg);
      case Reply(parts) =>
        if validate(LastPartText(parts, false)).None? && tried + 1 < cfg.maxTryTime {
          AttemptsAccepted(model, validate, prompt + cfg.reportFormatReminder, calls + 1, tried + 1, cfg);
        }
    }
  }

  /** The prompt gains one format reminder per refused reply, and nothing else. */
  lemma {:induction false} AttemptsPrompt(model: ModelOracle, validate: Validator, prompt: string, calls: nat, tried: int, cfg: Config)
    requires 0 <= tried
    ensures var a := Attempts(model, validate, prompt, calls, tried, cfg);
      a.prompt == prompt + Repeat(cfg.reportFormatReminder, BadReplies(model, validate, calls, a.calls))
    decreases cfg.maxTryTime - tried
  {
    var r := cfg.reportFormatReminder;
    if tried >= cfg.maxTryTime {
      assert prompt + Repeat(r, 0) == prompt;
    } else {
      match model(calls)
      case CallFailed =>
        AttemptsPrompt(model, validate, prompt, calls + 1, tried + 1, cfg);
      case Reply(parts) =>
        if validate(LastPartText(parts, false)).None? {
          if tried + 1 < cfg.maxTryTime {
            var a := Attempts(model, validate, prompt + r, calls + 1, tried + 1, cfg);
            AttemptsPrompt(model, validate, prompt + r, calls + 1, tried + 1, cfg);
            AttemptsCalls(model, validate, prompt + r, calls + 1, tried + 1, cfg);
            var n := BadReplies(model, validate, calls + 1, a.calls);
            assert BadReplies(model, validate, calls, a.calls) == 1 + n;
            assert prompt + r + Repeat(r, n) == prompt + Repeat(r, 1 + n);
          } else {
            assert BadReplies(model, validate, calls + 1, calls + 1) == 0;
            assert prompt + r == prompt + Repeat(r, 1);
          }
        } else {
          assert BadReplies(model, validate, calls + 1, calls + 1) == 0;
          assert prompt + Repeat(r, 0) == prompt;
        }
    }
  }

  /** The loop of `query_gemini`: at most `max_try_time` attempts; a failed call is
      retried, a refused reply extends the prompt with the format reminder, and an
      accepted reply ends the loop with the length of the prompt and the reply. */
  method RetryLoop(prompt: string, model: ModelOracle, calls: nat, cfg: Config, validate: Validator)
    returns (outcome: QueryOutcome, callsAfter: nat, contextLength: nat)
    ensures var a := Attempts(model, validate, prompt, calls, 0, cfg);
      && outcome == a.outcome
      && callsAfter == a.calls
      && (outcome.Got? ==> contextLength == |a.prompt| + |ThoughtAndAction(outcome.thought, outcome.action)|)
  {
    ghost var a := Attempts(model, validate, prompt, calls, 0, cfg);
    var tryTime := 0;
    var p := prompt;
    callsAfter := calls;
    contextLength := 0;
    while tryTime < cfg.maxTryTime
      invariant 0 <= tryTime
      invariant Attempts(model, validate, p, callsAfter, tryTime, cfg) == a
      decreases cfg.maxTryTime - tryTime
    {
      tryTime := tryTime + 1;
      var reply := model(callsAfter);
      callsAfter := callsAfter + 1;
      if reply.CallFailed? {
        continue;
      }
      var thought, original := ExtractParts(reply.parts);
      var action := validate(original);
      if action.None? {
        p := p + cfg.reportFormatReminder;
        if tryTime == cfg.maxTryTime {
          return FormatExhausted, callsAfter, contextLength;
        }
      } else {
        return Got(thought, action.value), callsAfter, |p| + |ThoughtAndAction(thought, action.value)|;
      }
    }
    return FellThrough, callsAfter, contextLength;
  }

  // ---------------------------------------------------------------------------
  // The counters and one directive's effect
  // ---------------------------------------------------------------------------

  /** `consecutive_search_cnt`, `search_cnt`, `script_cnt`, `summary_cnt`, `summary_history`. */
  datatype Counters = Counters(
    consecutiveSearchCnt: nat,
    searchCnt: nat,
    scriptCnt: nat,
    summaryCnt: nat,
    summaryHistory: string)

  const Fresh := Counters(0, 0, 0, 0, "")

  /** What `execute_response` does to the counters for a directive of kind `k`. */
  function Transition(c: Counters, k: ActionKind, content: string): Counters {
    match k
    case Answer => c
    case Search => c.(searchCnt := c.searchCnt + 1, consecutiveSearchCnt := c.consecutiveSearchCnt + 1)
    case Plan => c.(consecutiveSearchCnt := 0)
    case Scripts => c.(consecutiveSearchCnt := 0, scriptCnt := c.scriptCnt + 1)
    case Summary => c.(consecutiveSearchCnt := 0, summaryCnt := c.summaryCnt + 1, summaryHistory := content)
  }

  /** The counters after acting on the directives of `h` in order. */
  function Replay(c: Counters, h: seq<(ActionKind, string)>): Counters {
    if h == [] then c else Transition(Replay(c, h[..|h| - 1]), h[|h| - 1].0, h[|h| - 1].1)
  }

  lemma ReplayAppend(c: Counters, h: seq<(ActionKind, string)>, d: (ActionKind, string))
    ensures Replay(c, h + [d]) == Transition(Replay(c, h), d.0, d.1)
  {
    assert (h + [d])[..|h|] == h;
  }

  /** The kinds of the directives in `h`. */
  function KindsOf(h: seq<(ActionKind, string)>): (ks: seq<ActionKind>)
    ensures |ks| == |h| && forall i :: 0 <= i < |h| ==> ks[i] == h[i].0
  {
    seq(|h|, i requires 0 <= i < |h| => h[i].0)
  }

  predicate Resets(k: ActionKind) {
    k == Plan || k == Scripts || k == Summary
  }

  /** One past the position of the last plan, scripts or summary directive in `h`, or 0. */
  function RunStart(h: seq<(ActionKind, string)>): (n: nat)
    ensures n <= |h|
    ensures n > 0 ==> Resets(h[n - 1].0)
    ensures forall i :: n <= i < |h| ==> !Resets(h[i].0)
  {
    if h == [] then 0 else if Resets(h[|h| - 1].0) then |h| else RunStart(h[..|h| - 1])
  }

  /** The content of the last summary directive in `h`, or `default`. */
  function LastSummary(h: seq<(ActionKind, string)>, default: string): string {
    if h == [] then default
    else if h[|h| - 1].0 == Summary then h[|h| - 1].1
    else LastSummary(h[..|h| - 1], default)
  }

  /** Reference reading of the counters: from fresh, `search_cnt` counts the searches,
      `consecutive_search_cnt` the searches since the last plan, scripts or summary,
      `script_cnt` and `summary_cnt` their directives, and `summary_history` holds the
      last summary's content. */
  lemma {:induction false} ReplayCounts(h: seq<(ActionKind, string)>)
    ensures Replay(Fresh, h) == Counters(
      multiset(KindsOf(h[RunStart(h)..]))[Search],
      multiset(KindsOf(h))[Search],
      multiset(KindsOf(h))[Scripts],
      multiset(KindsOf(h))[Summary],
      LastSummary(h, ""))
  {
    ReplayTotals(h);
    ReplayRun(h);
    ReplaySummary(h);
  }

  lemma {:induction false} ReplayTotals(h: seq<(ActionKind, string)>)
    ensures Replay(Fresh, h).searchCnt == multiset(KindsOf(h))[Search]
    ensures Replay(Fresh, h).scriptCnt == multiset(KindsOf(h))[Scripts]
    ensures Replay(Fresh, h).summaryCnt == multiset(KindsOf(h))[Summary]
  {
    if h != [] {
      var h', e := h[..|h| - 1], h[|h| - 1];
      ReplayTotals(h');
      assert KindsOf(h) == KindsOf(h') + [e.0];
    }
  }

  lemma {:induction false} ReplayRun(h: seq<(ActionKind, string)>)
    ensures Replay(Fresh, h).consecutiveSearchCnt == multiset(KindsOf(h[RunStart(h)..]))[Search]
  {
    if h != [] {
      var h', e := h[..|h| - 1], h[|h| - 1];
      ReplayRun(h');
      if !Resets(e.0) {
        var s := RunStart(h');
        assert h[s..] == h'[s..] + [e];
        assert KindsOf(h[s..]) == KindsOf(h'[s..]) + [e.0];
      } else {
        assert KindsOf(h[|h|..]) == [];
      }
    }
  }

  lemma {:induction false} ReplaySummary(h: seq<(ActionKind, string)>)
    ensures Replay(Fresh, h).summaryHistory == LastSummary(h, "")
  {
    if h != [] {
      ReplaySummary(h[..|h| - 1]);
    }
  }

  /** No search run is longer than the number of searches. */
  lemma {:induction false} ReplayKeepsRunBound(c: Counters, h: seq<(ActionKind, string)>)
    requires c.consecutiveSearchCnt <= c.searchCnt
    ensures Replay(c, h).consecutiveSearchCnt <= Replay(c, h).searchCnt
    ensures Replay(c, h).searchCnt + Replay(c, h).scriptCnt + Replay(c, h).summaryCnt
      <= c.searchCnt + c.scriptCnt + c.summaryCnt + |h|
  {
    if h != [] {
      ReplayKeepsRunBound(c, h[..|h| - 1]);
    }
  }

  const NoUrl := "Did not return any URL"

  const SummaryObservation := "You performed a summary action in this turn. The content of this action is ignored since your history turns information has been updated according to it.\n"

  const QueriesHeader := "**Search Queries**\n\n1. "

  const UrlsHeader := "\n\n**Fetched URLS**\n\n1. "

  /** The observation of a search: the query, then the first fetched URL, stripped. */
  function SearchObservation(query: string, url: string): string {
    QueriesHeader + query + UrlsHeader + Trim(url)
  }

  /** A search observation names the query right after its header and ends with the
      stripped URL. */
  lemma SearchObservationNames(query: string, url: string)
    ensures var r := SearchObservation(query, url);
      r[..|QueriesHeader|] == QueriesHeader
      && r[|QueriesHeader|..|QueriesHeader| + |query|] == query
      && r[|r| - |Trim(url)|..] == Trim(url)
  {
  }

  /** `(done, updated_history, next_obs)` of `execute_response`. */
  datatype TurnResult = TurnResult(done: bool, updatedHistory: bool, nextObs: string)

  /** The result of a directive of kind `k` after the search (if any) fetched `urls`. */
  function Turn(k: ActionKind, content: string, urls: seq<string>): TurnResult {
    match k
    case Answer => TurnResult(true, false, "")
    case Search => TurnResult(false, false, SearchObservation(content, if urls == [] then NoUrl else urls[0]))
    case Plan => TurnResult(false, false, "")
    case Scripts => TurnResult(false, false, "")
    case Summary => TurnResult(false, true, SummaryObservation)
  }

  /** The URLs of the search `execute_response` runs: it searches only for a non-empty
      search query; None when the search raised. */
  function SearchUrls(p: ParsedAction, numDocs: nat, doSearch: bool, search: SearchOracle): Option<seq<string>> {
    if doSearch && p.actionType == "search" && p.content != "" then search(p.content, numDocs) else Some([])
  }

  /** What `execute_response`, searching, gives for the directive `d`: the turn's result
      after the search (if any) fetched its URLs; None when the search raised. */
  function DirectiveResult(d: (ActionKind, string), numDocs: nat, search: SearchOracle): Option<TurnResult> {
    match SearchUrls(ParsedAction(Name(d.0), d.1), numDocs, true, search)
    case None => None
    case Some(urls) => Some(Turn(d.0, d.1, urls))
  }

  /** Why `execute_response` raised. */
  datatype ExecError = BadFormat(message: string) | SearchError | InvalidAction(name: string)

  /** A validated directive runs to completion unless its search raises. */
  lemma ValidatedExecutes(response: string, numDocs: nat, doSearch: bool, search: SearchOracle)
    requires Directive(response).Some?
    ensures var (k, c) := Directive(response).value;
      ParseAction(Wrap(k, c)) == Ok(ParsedAction(Name(k), c)) && KindOf(Name(k)) == Some(k)
      && (k != Search || !doSearch || c == "" ==> SearchUrls(ParsedAction(Name(k), c), numDocs, doSearch, search) == Some([]))
  {
    var (k, c) := Directive(response).value;
    ValidatedIsCanonical(response, k, c);
  }

  // ---------------------------------------------------------------------------
  // The next prompt
  // ---------------------------------------------------------------------------

  function TurnHeader(n: int): string {
    TurnLead + IntToString(n) + TurnTail
  }

  const TurnLead := "[Turn "
  const TurnTail := "]:\n"
  const SummarisedTurns := "[Turn 1 - Turn "
  const NewLine := "\n"
  const BlankLine := "\n\n"

  /** The context after a summary: the summarised turns, then this turn's observation. */
  function SummaryContext(n: int, summary: string, nextObs: string): string {
    SummarisedTurns + IntToString(n - 1) + TurnTail + summary + BlankLine + TurnHeader(n) + nextObs + BlankLine
  }

  /** The context of an ordinary turn: the reply with its thought, then the observation. */
  function TurnContext(n: int, curResponse: string, nextObs: string): string {
    TurnHeader(n) + curResponse + NewLine + nextObs + BlankLine
  }

  const NoteLead := "\n\nNote: You have performed "
  const SearchNoteTail := " search actions. Please consider update your report scripts or output the final report. If you still want to search, make sure you check history search results and DO NOT perform duplicate search."
  const TurnsNoteTail := " turns. Please consider output the final report. If you still want to search, make sure you check history search results and DO NOT perform duplicate search."

  function SearchNote(count: int): string {
    NoteLead + IntToString(count) + SearchNoteTail
  }

  function TurnsNote(turns: int): string {
    NoteLead + IntToString(turns) + TurnsNoteTail
  }

  lemma NotesNonEmpty(count: int)
    ensures |SearchNote(count)| > 0 && |TurnsNote(count)| > 0
  {
  }

  /** A concatenation starts with its first part, ends with its second, and is empty
      only when both are. */
  lemma ConcatParts(a: string, b: string)
    ensures a <= a + b && EndsWith(a + b, b)
    ensures a + b == "" <==> a == "" && b == ""
  {
    assert (a + b)[|a + b| - |b|..] == b;
  }

  // ---------------------------------------------------------------------------
  // The turn loop
  // ---------------------------------------------------------------------------

  /** The text `run_llm_loop` writes for one step. */
  function StepText(n: int, thought: string, name: string, content: string, nextObs: string): string {
    StepHeading + IntToString(n) + "\n"
    + (if thought != "" && thought != "None" then ThoughtHeading + thought + "\n\n" else "")
    + (if name == "plan" && content != "None" then PlanHeading + content else "")
    + (if name == "search" && nextObs != "None" then SearchHeading + nextObs else "")
    + (if name == "scripts" && content != "None" then ScriptsHeading + content else "")
    + (if name == "summary" && content != "None" then SummaryHeading + content else "")
  }

  /** The content a step shows for the directive `d`: a script's or a summary's with its
      code fences removed, any other kind's as parsed. */
  function ShownContent(d: (ActionKind, string)): string {
    if d.0 == Scripts || d.0 == Summary then RemoveMarkdownBlocks(d.1) else d.1
  }

  /** The two kinds whose content is fence-stripped are the ones named "scripts" and "summary". */
  lemma FencedKinds(k: ActionKind)
    ensures (Name(k) == "scripts" || Name(k) == "summary") <==> (k == Scripts || k == Summary)
  {
  }

  /** The texts `run_llm_loop` records for the directives `ds` it acted on, in order: the
      turns are numbered from `n0 + 1`, `thoughts` are the thought parts of the replies
      and `results` what executing each directive gave. */
  function StepTexts(n0: int, thoughts: seq<string>, ds: seq<(ActionKind, string)>, results: seq<TurnResult>): seq<string>
    requires |thoughts| == |ds| == |results|
  {
    seq(|ds|, i requires 0 <= i < |ds| =>
      StepText(n0 + i + 1, thoughts[i], Name(ds[i].0), ShownContent(ds[i]), results[i].nextObs))
  }

  lemma StepTextsAppend(n0: int, thoughts: seq<string>, ds: seq<(ActionKind, string)>, results: seq<TurnResult>,
                        steps: seq<string>, th: string, d: (ActionKind, string), res: TurnResult, s: string)
    requires |thoughts| == |ds| == |results| && steps == StepTexts(n0, thoughts, ds, results)
    requires s == StepText(n0 + |ds| + 1, th, Name(d.0), ShownContent(d), res.nextObs)
    ensures steps + [s] == StepTexts(n0, thoughts + [th], ds + [d], results + [res])
  {
    var ts, es, rs := thoughts + [th], ds + [d], results + [res];
    forall i | 0 <= i < |ds| ensures ts[i] == thoughts[i] && es[i] == ds[i] && rs[i] == results[i] { }
  }

  /** Each of `results` is what executing the directive of `ds` at the same position gave,
      searching with `search`. */
  ghost predicate Executions(ds: seq<(ActionKind, string)>, results: seq<TurnResult>, numDocs: nat, search: SearchOracle) {
    && |ds| == |results|
    && (ds != [] ==>
      var n := |ds| - 1;
      && Executions(ds[..n], results[..n], numDocs, search)
      && Some(results[n]) == DirectiveResult(ds[n], numDocs, search))
  }

  lemma {:induction false} ExecutionsAt(ds: seq<(ActionKind, string)>, results: seq<TurnResult>, numDocs: nat, search: SearchOracle)
    requires Executions(ds, results, numDocs, search)
    ensures forall i :: 0 <= i < |ds| ==> Some(results[i]) == DirectiveResult(ds[i], numDocs, search)
  {
    if ds != [] {
      var n := |ds| - 1;
      ExecutionsAt(ds[..n], results[..n], numDocs, search);
      assert forall i :: 0 <= i < n ==> ds[..n][i] == ds[i] && results[..n][i] == results[i];
    }
  }

  lemma ExecutionsAppend(ds: seq<(ActionKind, string)>, results: seq<TurnResult>, numDocs: nat, search: SearchOracle,
                         d: (ActionKind, string), res: TurnResult)
    requires Executions(ds, results, numDocs, search)
    requires Some(res) == DirectiveResult(d, numDocs, search)
    ensures Executions(ds + [d], results + [res], numDocs, search)
  {
    assert (ds + [d])[..|ds|] == ds;
    assert (results + [res])[..|ds|] == results;
  }

  const StepHeading := "### Step "
  const ThoughtHeading := "**Thought**\n\n1. "
  const PlanHeading := "\n\n**ACTION: Plan**\n\n1. "
  const SearchHeading := "\n\n**ACTION: Search**\n\n1. "
  const ScriptsHeading := "\n\n**ACTION: Scripts**\n\n1. "
  const SummaryHeading := "\n\n**ACTION: Summary**\n\n1. "

  /** An event of `run_llm_loop`: the steps so far (`is_intermediate` True,
      `is_complete` False), or the final report (`is_intermediate` False,
      `is_complete` True). */
  datatype AgentEvent = Intermediate(steps: string) | Final(report: string)

  /** How `run_llm_loop` ends: with its final event, by `exit()` after an exception
      inside a turn, or by an exception outside the turns (`action` never bound, or
      `_compose_final_output` raising). */
  datatype LoopOutcome = Finished | Aborted | Crashed

  /** A reply acted on: its thought and action, the action parsed, and what executing it gave. */
  datatype Executed = Executed(thought: string, action: string, parsed: ParsedAction, result: TurnResult)

  /** What one completed turn hands back to the loop: the action, the reply with its
      thought for the next prompt, the result of executing it and the step's text. */
  datatype TurnStep = TurnStep(action: string, responseWithThought: string, result: TurnResult, step: string)

  /** Intermediate events, each extending the steps of the one before it (the first
      extending `base`) and each ending with the separator. */
  predicate StepsGrow(base: string, events: seq<AgentEvent>) {
    && (forall i :: 0 <= i < |events| ==> events[i].Intermediate? && EndsWith(events[i].steps, StepSeparator))
    && (|events| > 0 ==> base < events[0].steps)
    && (forall i :: 0 < i < |events| ==> events[i - 1].steps < events[i].steps)
  }

  /** `current_think_content` after the steps `steps`, starting from `base`: each step
      followed by the separator. */
  function Accumulate(base: string, steps: seq<string>): string {
    if steps == [] then base else Accumulate(base, steps[..|steps| - 1]) + steps[|steps| - 1] + StepSeparator
  }

  /** The intermediate events of `run_llm_loop` for the steps `steps`: after each step,
      the content accumulated so far. */
  function Events(base: string, steps: seq<string>): (events: seq<AgentEvent>)
    ensures |events| == |steps|
  {
    if steps == [] then [] else Events(base, steps[..|steps| - 1]) + [Intermediate(Accumulate(base, steps))]
  }

  /** Event `i` carries the content accumulated after the first `i` + 1 steps. */
  lemma {:induction false} EventsAt(base: string, steps: seq<string>)
    ensures forall i :: 0 <= i < |steps| ==> Events(base, steps)[i] == Intermediate(Accumulate(base, steps[..i + 1]))
  {
    if steps != [] {
      var init := steps[..|steps| - 1];
      EventsAt(base, init);
      assert steps[..|steps|] == steps;
      forall i | 0 <= i < |steps|
        ensures Events(base, steps)[i] == Intermediate(Accumulate(base, steps[..i + 1]))
      {
        if i < |init| {
          assert init[..i + 1] == steps[..i + 1];
        }
      }
    }
  }

  /** Each intermediate event extends the one before it by a step and the separator. */
  lemma EventsGrow(base: string, steps: seq<string>)
    ensures StepsGrow(base, Events(base, steps))
  {
    var e := Events(base, steps);
    EventsAt(base, steps);
    forall i | 0 <= i < |e| ensures e[i].Intermediate? && EndsWith(e[i].steps, StepSeparator) {
      assert steps[..i + 1][..i] == steps[..i];
    }
    if |e| > 0 {
      assert steps[..1][..0] == [];
    }
    forall i | 0 < i < |e| ensures e[i - 1].steps < e[i].steps {
      assert steps[..i + 1][..i] == steps[..i];
    }
  }

  /** What postprocess_response accepts is a directive whose action string parses back
      to the directive's name and content; when that directive is an answer, the final
      report composed from the action is the answer's content. */
  lemma AcceptedAction(text: string, action: string, d: (ActionKind, string))
    requires Validate(text) == Some(action)
    requires ParseAction(action) == Ok(ParsedAction(Name(d.0), d.1))
    ensures Directive(text) == Some(d) && action == Wrap(d.0, d.1)
    ensures d.0 == Answer ==> ComposeFinalOutput(action) == Ok(d.1)
  {
    var (k, c) := Directive(text).value;
    ValidatedIsCanonical(text, k, c);
    KindOfName(k);
    KindOfName(d.0);
    if d.0 == Answer {
      ComposeOfValidatedAnswer(text, d.1);
    }
  }

  /** None of `ds` is an answer: the run goes on after each of them. */
  predicate Continuing(ds: seq<(ActionKind, string)>) {
    ds == [] || (Continuing(ds[..|ds| - 1]) && ds[|ds| - 1].0 != Answer)
  }

  /** The last of `ds` is an answer and none before it is: the run stopped on it. */
  predicate AnsweredLast(ds: seq<(ActionKind, string)>) {
    ds != [] && Continuing(ds[..|ds| - 1]) && ds[|ds| - 1].0 == Answer
  }

  lemma AnsweredLastAll(ds: seq<(ActionKind, string)>)
    requires AnsweredLast(ds)
    ensures forall i :: 0 <= i < |ds| - 1 ==> ds[i].0 != Answer
  {
    var init := ds[..|ds| - 1];
    ContinuingAll(init);
    assert forall i :: 0 <= i < |init| ==> init[i] == ds[i];
  }

  lemma {:induction false} ContinuingAll(ds: seq<(ActionKind, string)>)
    requires Continuing(ds)
    ensures forall i :: 0 <= i < |ds| ==> ds[i].0 != Answer
  {
    if ds != [] {
      var init := ds[..|ds| - 1];
      ContinuingAll(init);
      assert forall i :: 0 <= i < |init| ==> init[i] == ds[i];
    }
  }

  /** Each accepted pair is a reply text and the action the validator returned for it,
      and the action parses to the directive at the same position. */
  ghost predicate Acted(validate: Validator, parse: Parser, accepted: seq<(string, string)>,
                        directives: seq<(ActionKind, string)>) {
    && |accepted| == |directives|
    && (accepted != [] ==>
      var n := |accepted| - 1;
      && Acted(validate, parse, accepted[..n], directives[..n])
      && validate(accepted[n].0) == Some(accepted[n].1)
      && parse(accepted[n].1) == Ok(ParsedAction(Name(directives[n].0), directives[n].1)))
  }

  lemma {:induction false} ActedAt(validate: Validator, parse: Parser, accepted: seq<(string, string)>,
                                   directives: seq<(ActionKind, string)>)
    requires Acted(validate, parse, accepted, directives)
    ensures forall i :: 0 <= i < |accepted| ==>
      validate(accepted[i].0) == Some(accepted[i].1)
      && parse(accepted[i].1) == Ok(ParsedAction(Name(directives[i].0), directives[i].1))
  {
    if accepted != [] {
      var n := |accepted| - 1;
      ActedAt(validate, parse, accepted[..n], directives[..n]);
      assert forall i :: 0 <= i < n ==> accepted[..n][i] == accepted[i] && directives[..n][i] == directives[i];
    }
  }

  /** What one more turn adds to the ghost history `run_llm_loop` keeps: the replayed
      counters, the accumulated content, the events and the accepted directives. */
  lemma RecordTurn(validate: Validator, parse: Parser, c: Counters, base: string,
                   accepted: seq<(string, string)>, directives: seq<(ActionKind, string)>, steps: seq<string>,
                   a: (string, string), d: (ActionKind, string), s: string)
    requires Acted(validate, parse, accepted, directives) && Continuing(directives)
    requires validate(a.0) == Some(a.1) && parse(a.1) == Ok(ParsedAction(Name(d.0), d.1))
    ensures Acted(validate, parse, accepted + [a], directives + [d])
    ensures Replay(c, directives + [d]) == Transition(Replay(c, directives), d.0, d.1)
    ensures Accumulate(base, steps + [s]) == Accumulate(base, steps) + s + StepSeparator
    ensures Events(base, steps + [s]) == Events(base, steps) + [Intermediate(Accumulate(base, steps + [s]))]
    ensures d.0 != Answer ==> Continuing(directives + [d])
    ensures forall i :: 0 <= i < |directives| ==> (directives + [d])[i].0 != Answer
  {
    ActedAppend(validate, parse, accepted, directives, a, d);
    ReplayAppend(c, directives, d);
    assert (steps + [s])[..|steps|] == steps;
    assert (directives + [d])[..|directives|] == directives;
    ContinuingAll(directives);
  }

  lemma ActedAppend(validate: Validator, parse: Parser, accepted: seq<(string, string)>,
                    directives: seq<(ActionKind, string)>, a: (string, string), d: (ActionKind, string))
    requires Acted(validate, parse, accepted, directives)
    requires validate(a.0) == Some(a.1) && parse(a.1) == Ok(ParsedAction(Name(d.0), d.1))
    ensures Acted(validate, parse, accepted + [a], directives + [d])
  {
    assert (accepted + [a])[..|accepted|] == accepted;
    assert (directives + [d])[..|directives|] == directives;
  }

  class LLMAgent {
    const config: Config
    /** The check a reply's text must pass (`postprocess_response`). */
    const validator: Validator
    /** How it splits an action into name and content (`parse_action`). */
    const parser: Parser
    var consecutiveSearchCnt: nat
    var searchCnt: nat
    var scriptCnt: nat
    var summaryCnt: nat
    var numEnvSteps: nat
    var summaryHistory: string
    var contextCnt: seq<nat>
    var currentThinkContent: string

    constructor(config: Config)
      ensures this.config == config && validator == Validate && parser == ParseAction
      ensures Snapshot() == Fresh && numEnvSteps == 0 && contextCnt == [] && currentThinkContent == ""
    {
      this.config := config;
      validator := Validate;
      parser := ParseAction;
      consecutiveSearchCnt := 0;
      searchCnt := 0;
      scriptCnt := 0;
      summaryCnt := 0;
      numEnvSteps := 0;
      summaryHistory := "";
      contextCnt := [];
      currentThinkContent := "";
    }

    function Snapshot(): Counters
      reads this
    {
      Counters(consecutiveSearchCnt, searchCnt, scriptCnt, summaryCnt, summaryHistory)
    }

    /** `query_gemini`: the retry loop with `postprocess_response` as its validator,
        starting with call number `calls`; on success the context length of the
        accepted reply is recorded. */
    method QueryGemini(prompt: string, model: ModelOracle, calls: nat) returns (outcome: QueryOutcome, callsAfter: nat)
      modifies this`contextCnt
      ensures var a := Attempts(model, validator, prompt, calls, 0, config);
        && outcome == a.outcome
        && callsAfter == a.calls
        && contextCnt == old(contextCnt) + (if outcome.Got? then [|a.prompt| + |ThoughtAndAction(outcome.thought, outcome.action)|] else [])
    {
      var contextLength;
      outcome, callsAfter, contextLength := RetryLoop(prompt, model, calls, config, validator);
      if outcome.Got? {
        contextCnt := contextCnt + [contextLength];
      }
    }

    /** `execute_response`: parse the directive, search for a search query, then update
        the counters by kind; an unknown kind raises. */
    method ExecuteResponse(response: string, numDocs: nat, doSearch: bool, search: SearchOracle)
      returns (r: Result<TurnResult, ExecError>)
      modifies this`consecutiveSearchCnt, this`searchCnt, this`scriptCnt, this`summaryCnt, this`summaryHistory
      ensures match parser(response)
        case Err(e) => r == Err(BadFormat(e)) && Snapshot() == old(Snapshot())
        case Ok(p) =>
          match SearchUrls(p, numDocs, doSearch, search)
          case None => r == Err(SearchError) && Snapshot() == old(Snapshot())
          case Some(urls) =>
            match KindOf(p.actionType)
            case None => r == Err(InvalidAction(p.actionType)) && Snapshot() == old(Snapshot())
            case Some(k) => r == Ok(Turn(k, p.content, urls)) && Snapshot() == Transition(old(Snapshot()), k, p.content)
    {
      var parsed := parser(response);
      if parsed.Err? {
        return Err(BadFormat(parsed.error));
      }
      var action, content := parsed.value.actionType, parsed.value.content;
      var searchQuery := if action == "search" then content else "";
      var urls: seq<string> := [];
      if doSearch && searchQuery != "" {
        var found := search(searchQuery, numDocs);
        if found.None? {
          return Err(SearchError);
        }
        urls := found.value;
      }
      r := Dispatch(action, content, urls);
    }

    /** The dispatch of `execute_response` on the action's name (its chain of name
        comparisons is `KindOf`), after the search (if any) fetched `urls`. */
    method Dispatch(action: string, content: string, urls: seq<string>) returns (r: Result<TurnResult, ExecError>)
      modifies this`consecutiveSearchCnt, this`searchCnt, this`scriptCnt, this`summaryCnt, this`summaryHistory
      ensures match KindOf(action)
        case None => r == Err(InvalidAction(action)) && Snapshot() == old(Snapshot())
        case Some(k) => r == Ok(Turn(k, content, urls)) && Snapshot() == Transition(old(Snapshot()), k, content)
    {
      var nextObs := "";
      var done := false;
      var updatedHistory := false;
      var fetched := urls;
      match KindOf(action) {
        case None =>
          return Err(InvalidAction(action));
        case Some(Answer) =>
          done := true;
        case Some(Search) =>
          searchCnt := searchCnt + 1;
          consecutiveSearchCnt := consecutiveSearchCnt + 1;
          if |fetched| == 0 {
            fetched := fetched + [NoUrl];
          }
          nextObs := SearchObservation(content, fetched[0]);
        case Some(Plan) =>
          consecutiveSearchCnt := 0;
        case Some(Scripts) =>
          consecutiveSearchCnt := 0;
          scriptCnt := scriptCnt + 1;
        case Some(Summary) =>
          nextObs := SummaryObservation;
          consecutiveSearchCnt := 0;
          summaryCnt := summaryCnt + 1;
          summaryHistory := content;
          updatedHistory := true;
      }
      return Ok(TurnResult(done, updatedHistory, nextObs));
    }

    /** The context `_update_input` appends or restarts from. */
    function BaseInput(input: string, curResponse: string, nextObs: string, updatedHistory: bool, originalPrompt: string): string
      reads this
    {
      if updatedHistory then originalPrompt + SummaryContext(numEnvSteps, summaryHistory, nextObs)
      else input + TurnContext(numEnvSteps, curResponse, nextObs)
    }

    /** The reminders `_update_input` adds after the context. */
    function Notes(): string
      reads this
    {
      (if consecutiveSearchCnt > config.searchReminderTurn then SearchNote(consecutiveSearchCnt) else "")
      + (if numEnvSteps > config.finalReportReminderTurn then TurnsNote(numEnvSteps) else "")
    }

    /** `_update_input`: the next prompt. Without a summary it extends the previous
        prompt; after one it restarts from the question's prompt. */
    function UpdateInput(input: string, curResponse: string, nextObs: string, updatedHistory: bool, originalPrompt: string): string
      reads this
    {
      var newInput := BaseInput(input, curResponse, nextObs, updatedHistory, originalPrompt) + Notes();
      if |newInput| > MaxContextLength then newInput + config.summaryReminder else newInput
    }

    /** The next prompt starts with the context and its reminders: without a summary the
        previous prompt and this turn's context, after one the question's prompt and the
        summarised turns. */
    lemma UpdateInputExtends(input: string, curResponse: string, nextObs: string, updatedHistory: bool, originalPrompt: string)
      ensures var r := UpdateInput(input, curResponse, nextObs, updatedHistory, originalPrompt);
        && BaseInput(input, curResponse, nextObs, updatedHistory, originalPrompt) + Notes() <= r
        && (!updatedHistory ==> input + TurnContext(numEnvSteps, curResponse, nextObs) <= r)
        && (updatedHistory ==> originalPrompt + SummaryContext(numEnvSteps, summaryHistory, nextObs) <= r)
    {
      var b := BaseInput(input, curResponse, nextObs, updatedHistory, originalPrompt);
      var n := b + Notes();
      ConcatParts(b, Notes());
      if |n| > MaxContextLength {
        ConcatParts(n, config.summaryReminder);
      }
      if updatedHistory {
        ConcatParts(originalPrompt, SummaryContext(numEnvSteps, summaryHistory, nextObs));
      } else {
        ConcatParts(input, TurnContext(numEnvSteps, curResponse, nextObs));
      }
    }

    /** The summary reminder is appended exactly when the context with its reminders
        exceeds MAX_CONTEXT_LENGTH characters. */
    lemma CompactionHint(input: string, curResponse: string, nextObs: string, updatedHistory: bool, originalPrompt: string)
      ensures var s := BaseInput(input, curResponse, nextObs, updatedHistory, originalPrompt) + Notes();
        var r := UpdateInput(input, curResponse, nextObs, updatedHistory, originalPrompt);
        && (|s| <= MaxContextLength ==> r == s)
        && (|s| > MaxContextLength ==> r == s + config.summaryReminder)
    {
    }

    /** A reminder is added only past its threshold: the search reminder when the
        consecutive searches exceed `search_reminder_turn`, the turns reminder when
        the turns exceed `final_report_reminder_turn`. */
    lemma NotesOnlyWhen()
      ensures Notes() == "" <==> consecutiveSearchCnt <= config.searchReminderTurn && numEnvSteps <= config.finalReportReminderTurn
      ensures consecutiveSearchCnt > config.searchReminderTurn ==> SearchNote(consecutiveSearchCnt) <= Notes()
      ensures numEnvSteps > config.finalReportReminderTurn ==> EndsWith(Notes(), TurnsNote(numEnvSteps))
      ensures consecutiveSearchCnt <= config.searchReminderTurn && numEnvSteps > config.finalReportReminderTurn
        ==> Notes() == TurnsNote(numEnvSteps)
    {
      var sn := if consecutiveSearchCnt > config.searchReminderTurn then SearchNote(consecutiveSearchCnt) else "";
      var tn := if numEnvSteps > config.finalReportReminderTurn then TurnsNote(numEnvSteps) else "";
      NotesNonEmpty(consecutiveSearchCnt);
      NotesNonEmpty(numEnvSteps);
      assert Notes() == sn + tn;
      ConcatParts(sn, tn);
    }

    /** After a summary the next prompt no longer depends on the previous prompt or reply. */
    lemma SummaryRestarts(input1: string, input2: string, cur1: string, cur2: string, nextObs: string, originalPrompt: string)
      ensures UpdateInput(input1, cur1, nextObs, true, originalPrompt) == UpdateInput(input2, cur2, nextObs, true, originalPrompt)
    {
    }

    /** The part of a turn of `run_llm_loop` that talks to the model and acts: query it,
        parse the action and execute it. None when an exception ends the run. The ghost
        `text` is the reply text the validator accepted and `d` the kind and content the
        action parses to. */
    method ActOnReply(input: string, model: ModelOracle, calls: nat, search: SearchOracle)
      returns (r: Option<Executed>, callsAfter: nat, ghost text: string, ghost d: (ActionKind, string))
      modifies this`contextCnt
      modifies this`consecutiveSearchCnt, this`searchCnt, this`scriptCnt, this`summaryCnt, this`summaryHistory
      ensures r.Some? ==>
        && callsAfter > calls
        && model(callsAfter - 1).Reply?
        && text == LastPartText(model(callsAfter - 1).parts, false)
        && validator(text) == Some(r.value.action)
        && parser(r.value.action) == Ok(ParsedAction(Name(d.0), d.1))
        && r.value.parsed == ParsedAction(Name(d.0), d.1)
        && r.value.thought == LastPartText(model(callsAfter - 1).parts, true)
        && Some(r.value.result) == DirectiveResult(d, config.numDocs, search)
        && (r.value.result.done <==> d.0 == Answer)
        && Snapshot() == Transition(old(Snapshot()), d.0, d.1)
        && |contextCnt| == |old(contextCnt)| + 1
      ensures r.None? ==> Snapshot() == old(Snapshot())
    {
      var q;
      q, callsAfter := QueryGemini(input, model, calls);
      if !q.Got? {
        return None, callsAfter, "", (Answer, "");
      }
      AttemptsAccepted(model, validator, input, calls, 0, config);
      text := LastPartText(model(callsAfter - 1).parts, false);
      var parsed := parser(q.action);
      if parsed.Err? {
        return None, callsAfter, text, (Answer, "");
      }
      var name := parsed.value.actionType;
      d := (if KindOf(name).Some? then KindOf(name).value else Answer, parsed.value.content);
      var ex := ExecuteResponse(q.action, config.numDocs, true, search);
      if ex.Err? {
        return None, callsAfter, text, d;
      }
      r := Some(Executed(q.thought, q.action, parsed.value, ex.value));
    }

    /** One turn of `run_llm_loop`: count it, query the model and act on its reply,
        fence-strip the content of a script or summary, record the step and prepare
        the next prompt. None when an exception ends the run. */
    method TakeTurn(input: string, prompt: string, model: ModelOracle, calls: nat, search: SearchOracle)
      returns (r: Option<TurnStep>, callsAfter: nat, nextInput: string, ghost text: string, ghost d: (ActionKind, string))
      modifies this`numEnvSteps, this`contextCnt, this`currentThinkContent
      modifies this`consecutiveSearchCnt, this`searchCnt, this`scriptCnt, this`summaryCnt, this`summaryHistory
      ensures numEnvSteps == old(numEnvSteps) + 1
      ensures r.Some? && !r.value.result.done ==>
        nextInput == UpdateInput(input, r.value.responseWithThought, r.value.result.nextObs, r.value.result.updatedHistory, prompt)
      ensures r.Some? ==>
        && callsAfter > calls
        && model(callsAfter - 1).Reply?
        && text == LastPartText(model(callsAfter - 1).parts, false)
        && validator(text) == Some(r.value.action)
        && parser(r.value.action) == Ok(ParsedAction(Name(d.0), d.1))
        && Some(r.value.result) == DirectiveResult(d, config.numDocs, search)
        && (r.value.result.done <==> d.0 == Answer)
        && Snapshot() == Transition(old(Snapshot()), d.0, d.1)
        && |contextCnt| == |old(contextCnt)| + 1
        && currentThinkContent == old(currentThinkContent) + r.value.step + StepSeparator
      ensures r.Some? ==>
        var thought := LastPartText(model(callsAfter - 1).parts, true);
        && r.value.responseWithThought == "<think>" + thought + "</think>\n\n" + r.value.action
        && r.value.step == StepText(numEnvSteps, thought, Name(d.0), ShownContent(d), r.value.result.nextObs)
      ensures r.None? ==> Snapshot() == old(Snapshot()) && currentThinkContent == old(currentThinkContent)
    {
      numEnvSteps := numEnvSteps + 1;
      nextInput := input;
      var e;
      e, callsAfter, text, d := ActOnReply(input, model, calls, search);
      if e.None? {
        return None, callsAfter, nextInput, text, d;
      }
      var name, content := e.value.parsed.actionType, e.value.parsed.content;
      if name == "scripts" || name == "summary" {
        content := RemoveMarkdownBlocks(content);
      }
      FencedKinds(d.0);
      assert name == Name(d.0) && content == ShownContent(d);
      var responseWithThought := "<think>" + e.value.thought + "</think>\n\n" + e.value.action;
      var result := e.value.result;
      var step := StepText(numEnvSteps, e.value.thought, name, content, result.nextObs);
      currentThinkContent := currentThinkContent + step + StepSeparator;
      r := Some(TurnStep(e.value.action, responseWithThought, result, step));
      if !result.done {
        nextInput := UpdateInput(input, responseWithThought, result.nextObs, result.updatedHistory, prompt);
      }
    }

    /** A turn of the loop together with the ghost history it extends: `accepted`,
        `directives`, `results`, `thoughts` and `steps` record the turns since the
        counters were `c0` and the content `base`, numbered from `n0 + 1`; the primed
        results are the same records with this turn's entries added. */
    method RecordedTurn(input: string, prompt: string, model: ModelOracle, calls: nat, search: SearchOracle,
                        ghost n0: int, ghost c0: Counters, ghost base: string,
                        ghost accepted: seq<(string, string)>, ghost directives: seq<(ActionKind, string)>,
                        ghost results: seq<TurnResult>, ghost thoughts: seq<string>, ghost steps: seq<string>)
      returns (turn: Option<TurnStep>, callsAfter: nat, nextInput: string,
               ghost accepted': seq<(string, string)>, ghost directives': seq<(ActionKind, string)>,
               ghost results': seq<TurnResult>, ghost thoughts': seq<string>, ghost steps': seq<string>)
      requires Acted(validator, parser, accepted, directives) && Continuing(directives)
      requires Executions(directives, results, config.numDocs, search)
      requires |thoughts| == |directives| && steps == StepTexts(n0, thoughts, directives, results)
      requires numEnvSteps == n0 + |directives|
      requires Snapshot() == Replay(c0, directives) && currentThinkContent == Accumulate(base, steps)
      modifies this`numEnvSteps, this`contextCnt, this`currentThinkContent
      modifies this`consecutiveSearchCnt, this`searchCnt, this`scriptCnt, this`summaryCnt, this`summaryHistory
      ensures numEnvSteps == old(numEnvSteps) + 1
      ensures turn.None? ==> Snapshot() == old(Snapshot()) && currentThinkContent == old(currentThinkContent)
      ensures turn.Some? ==>
        && |accepted'| == |accepted| + 1 && accepted'[|accepted|].1 == turn.value.action
        && |directives'| == |directives| + 1
        && (turn.value.result.done ==> AnsweredLast(directives'))
        && (!turn.value.result.done ==> Continuing(directives'))
        && (!turn.value.result.done ==>
              nextInput == UpdateInput(input, turn.value.responseWithThought, turn.value.result.nextObs,
                                       turn.value.result.updatedHistory, prompt))
        && Acted(validator, parser, accepted', directives')
        && Executions(directives', results', config.numDocs, search)
        && |thoughts'| == |directives'| && steps' == StepTexts(n0, thoughts', directives', results')
        && Snapshot() == Replay(c0, directives')
        && currentThinkContent == Accumulate(base, steps')
        && Events(base, steps') == Events(base, steps) + [Intermediate(currentThinkContent)]
        && |contextCnt| == |old(contextCnt)| + 1
    {
      ghost var text, d;
      turn, callsAfter, nextInput, text, d := TakeTurn(input, prompt, model, calls, search);
      accepted', directives', results', thoughts', steps' := accepted, directives, results, thoughts, steps;
      if turn.Some? {
        var a := (text, turn.value.action);
        var th := LastPartText(model(callsAfter - 1).parts, true);
        ExecutionsAppend(directives, results, config.numDocs, search, d, turn.value.result);
        StepTextsAppend(n0, thoughts, directives, results, steps, th, d, turn.value.result, turn.value.step);
        RecordTurn(validator, parser, c0, base, accepted, directives, steps, a, d, turn.value.step);
        assert (directives + [d])[..|directives|] == directives;
        accepted', directives', steps' := accepted + [a], directives + [d], steps + [turn.value.step];
        results', thoughts' := results + [turn.value.result], thoughts + [th];
      }
    }

    /** The turn loop of `run_llm_loop`: at most `max_turns` turns, stopping after an
        answer or when a turn raises (`aborted`). The ghost `directives` are the kinds
        and contents acted on, in order, `accepted` the reply texts the validator
        accepted with the actions it returned for them, `results` what executing each
        directive gave, `thoughts` the thought parts of the replies and `steps` the texts
        of the steps; `lastAction` is the last action acted on. */
    method RunTurns(prompt: string, model: ModelOracle, search: SearchOracle)
      returns (events: seq<AgentEvent>, lastAction: Option<string>, aborted: bool,
               ghost directives: seq<(ActionKind, string)>, ghost accepted: seq<(string, string)>, ghost steps: seq<string>,
               ghost results: seq<TurnResult>, ghost thoughts: seq<string>)
      modifies this`numEnvSteps, this`contextCnt, this`currentThinkContent
      modifies this`consecutiveSearchCnt, this`searchCnt, this`scriptCnt, this`summaryCnt, this`summaryHistory
      ensures |directives| == |accepted| == |steps| <= (if config.maxTurns > 0 then config.maxTurns else 0)
      ensures Acted(validator, parser, accepted, directives)
      ensures Executions(directives, results, config.numDocs, search)
      ensures |thoughts| == |directives| && steps == StepTexts(old(numEnvSteps), thoughts, directives, results)
      ensures forall i :: 0 <= i < |directives| - 1 ==> directives[i].0 != Answer
      ensures lastAction == (if accepted == [] then None else Some(accepted[|accepted| - 1].1))
      ensures !aborted && directives != [] && directives[|directives| - 1].0 != Answer ==> |directives| == config.maxTurns
      ensures events == Events(old(currentThinkContent), steps)
      ensures currentThinkContent == Accumulate(old(currentThinkContent), steps)
      ensures Snapshot() == Replay(old(Snapshot()), directives)
      ensures numEnvSteps == old(numEnvSteps) + |directives| + (if aborted then 1 else 0)
      ensures !aborted ==> |contextCnt| == |old(contextCnt)| + |directives|
    {
      ghost var n0, c0, base := numEnvSteps, Snapshot(), currentThinkContent;
      var input := prompt;
      var calls: nat := 0;
      events := [];
      lastAction := None;
      aborted := false;
      directives := [];
      accepted := [];
      steps := [];
      results, thoughts := [], [];
      var step := 0;
      var stop := false;
      while step < config.maxTurns && !stop
        invariant 0 <= step <= (if config.maxTurns > 0 then config.maxTurns else 0)
        invariant |directives| == |accepted| == |steps| == step
        invariant aborted ==> stop
        invariant !stop || aborted ==> Continuing(directives)
        invariant stop && !aborted ==> AnsweredLast(directives)
        invariant Acted(validator, parser, accepted, directives)
        invariant Executions(directives, results, config.numDocs, search)
        invariant |thoughts| == step && steps == StepTexts(n0, thoughts, directives, results)
        invariant lastAction == (if accepted == [] then None else Some(accepted[|accepted| - 1].1))
        invariant events == Events(base, steps)
        invariant currentThinkContent == Accumulate(base, steps)
        invariant numEnvSteps == n0 + step + (if aborted then 1 else 0)
        invariant !aborted ==> |contextCnt| == |old(contextCnt)| + step
        invariant Snapshot() == Replay(c0, directives)
        decreases config.maxTurns - step, !stop
      {
        var turn, c, nextInput, a', d', r', t', s' := RecordedTurn(input, prompt, model, calls, search, n0, c0, base,
                                                                   accepted, directives, results, thoughts, steps);
        calls := c;
        if turn.None? {
          aborted := true;
          stop := true;
        } else {
          lastAction := Some(turn.value.action);
          accepted, directives, results, thoughts, steps := a', d', r', t', s';
          events := events + [Intermediate(currentThinkContent)];
          stop := turn.value.result.done;
          input := nextInput;
          step := step + 1;
        }
      }
      if stop && !aborted {
        AnsweredLastAll(directives);
      } else {
        ContinuingAll(directives);
      }
    }

    /** `run_llm_loop`: the turns, then the final report from the last action. */
    method RunLlmLoop(prompt: string, model: ModelOracle, search: SearchOracle)
      returns (events: seq<AgentEvent>, outcome: LoopOutcome, ghost directives: seq<(ActionKind, string)>,
               ghost accepted: seq<(string, string)>, ghost steps: seq<string>,
               ghost results: seq<TurnResult>, ghost thoughts: seq<string>)
      modifies this`numEnvSteps, this`contextCnt, this`currentThinkContent
      modifies this`consecutiveSearchCnt, this`searchCnt, this`scriptCnt, this`summaryCnt, this`summaryHistory
      ensures |directives| == |accepted| == |steps| <= (if config.maxTurns > 0 then config.maxTurns else 0)
      ensures Acted(validator, parser, accepted, directives)
      ensures Executions(directives, results, config.numDocs, search)
      ensures |thoughts| == |directives| && steps == StepTexts(old(numEnvSteps), thoughts, directives, results)
      ensures forall i :: 0 <= i < |directives| - 1 ==> directives[i].0 != Answer
      ensures Snapshot() == Replay(old(Snapshot()), directives)
      ensures currentThinkContent == Accumulate(old(currentThinkContent), steps)
      ensures outcome != Finished ==> events == Events(old(currentThinkContent), steps)
      ensures outcome == Crashed ==> accepted == [] || ComposeFinalOutput(accepted[|accepted| - 1].1).Err?
      ensures outcome == Finished ==>
        && |steps| > 0
        && |events| == |steps| + 1 && events[|steps|].Final?
        && events == Events(old(currentThinkContent), steps) + [Final(events[|steps|].report)]
        && ComposeFinalOutput(accepted[|accepted| - 1].1) == Ok(events[|steps|].report)
        && (directives[|directives| - 1].0 != Answer ==> |directives| == config.maxTurns)
        && numEnvSteps == old(numEnvSteps) + |directives|
        && |contextCnt| == |old(contextCnt)| + |directives|
    {
      var lastAction, aborted;
      events, lastAction, aborted, directives, accepted, steps, results, thoughts := RunTurns(prompt, model, search);
      if aborted {
        return events, Aborted, directives, accepted, steps, results, thoughts;
      }
      if lastAction.None? {
        return events, Crashed, directives, accepted, steps, results, thoughts;
      }
      var answer := ComposeFinalOutput(lastAction.value);
      if answer.Err? {
        return events, Crashed, directives, accepted, steps, results, thoughts;
      }
      events := events + [Final(answer.value)];
      outcome := Finished;
    }
  }
}
