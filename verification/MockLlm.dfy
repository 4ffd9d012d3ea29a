/**
 The mock OpenAI-compatible model (loadtest/mock_llm/app.py): which tools a request makes it call, and the
 chunks it streams, read back by a client that merges deltas by tool index.
 */
module MockLlm {
  import opened Base
  import opened Text

  // ---- requests -------------------------------------------------------------------------------

  const RETRIEVAL_TOOLS := ["internal_search", "web_search", "open_url"]
  const RESEARCH_AGENT := "research_agent"
  const GENERATE_REPORT := "generate_report"
  const GENERATE_PLAN := "generate_plan"

  /** `parameters` stands for the tool's JSON schema. */
  datatype Tool = Tool(name: string, parameters: nat)

  datatype ToolChoice = Absent | Named(choice: string) | Forced(function_: Option<string>)

  datatype Message = Message(role: string, calls: seq<string>)

  datatype Request = Request(tools: seq<Tool>, choice: ToolChoice, messages: seq<Message>, snippet: string)

  /** Times in milliseconds. */
  datatype Knobs = Knobs(ttft: nat, itl: nat, nTokens: nat, nAutoTools: nat, nAgents: nat, maxCtxTokens: nat)

  datatype ToolCall = ToolCall(id: string, name: string, arguments: string)

  datatype BadRequest = ForcedFunctionNotOffered

  datatype KnobName = Ttft | Itl | Len | Tools | Agents | MaxCtx

  /** Position `i` holds the last setting of knob `name` among the first `n`. */
  ghost predicate LastSetting(found: seq<(KnobName, nat)>, n: nat, name: KnobName, i: int) {
    && 0 <= i < n <= |found| && found[i].0 == name
    && forall j :: i < j < n ==> found[j].0 != name
  }

  /** The value of knob `name` after the first `n` settings. */
  function SettingOf(found: seq<(KnobName, nat)>, n: nat, name: KnobName, byDefault: nat): nat
    requires n <= |found|
  {
    if n == 0 then byDefault
    else if found[n - 1].0 == name then found[n - 1].1
    else SettingOf(found, n - 1, name, byDefault)
  }

  /** The last setting of a knob counts, the default when there is none. */
  lemma {:induction false} SettingMeaning(found: seq<(KnobName, nat)>, n: nat, name: KnobName, byDefault: nat)
    requires n <= |found|
    ensures forall i :: LastSetting(found, n, name, i) ==> SettingOf(found, n, name, byDefault) == found[i].1
    ensures (forall i :: 0 <= i < n ==> found[i].0 != name) ==> SettingOf(found, n, name, byDefault) == byDefault
  {
    if n > 0 {
      SettingMeaning(found, n - 1, name, byDefault);
      forall i | LastSetting(found, n, name, i) ensures i == n - 1 || LastSetting(found, n - 1, name, i) {
      }
    }
  }

  /** The knobs matched in a model name, later ones winning. */
  method ReadKnobs(found: seq<(KnobName, nat)>, ttft: nat, itl: nat, tokens: nat) returns (k: Knobs)
    ensures k.ttft == SettingOf(found, |found|, Ttft, ttft) && k.itl == SettingOf(found, |found|, Itl, itl)
    ensures k.nTokens == SettingOf(found, |found|, Len, tokens)
    ensures k.nAutoTools == SettingOf(found, |found|, Tools, 0)
    ensures var agents := SettingOf(found, |found|, Agents, 1); k.nAgents >= 1 && (agents >= 1 ==> k.nAgents == agents)
    ensures k.maxCtxTokens == SettingOf(found, |found|, MaxCtx, 0)
  {
    k := Knobs(ttft, itl, tokens, 0, 1, 0);
    for n := 0 to |found|
      invariant k.ttft == SettingOf(found, n, Ttft, ttft) && k.itl == SettingOf(found, n, Itl, itl)
      invariant k.nTokens == SettingOf(found, n, Len, tokens)
      invariant k.nAutoTools == SettingOf(found, n, Tools, 0)
      invariant var agents := SettingOf(found, n, Agents, 1); k.nAgents >= 1 && (agents >= 1 ==> k.nAgents == agents)
      invariant k.maxCtxTokens == SettingOf(found, n, MaxCtx, 0)
    {
      var value := found[n].1;
      match found[n].0 {
        case Ttft => k := k.(ttft := value);
        case Itl => k := k.(itl := value);
        case Len => k := k.(nTokens := value);
        case Tools => k := k.(nAutoTools := value);
        case Agents => k := k.(nAgents := if value < 1 then 1 else value);
        case MaxCtx => k := k.(maxCtxTokens := value);
      }
    }
  }

  /** `by_name[name]`: the last offered tool so named. */
  function ByName(tools: seq<Tool>, name: string): Option<Tool> {
    if tools == [] then None
    else if tools[|tools| - 1].name == name then Some(tools[|tools| - 1])
    else ByName(tools[..|tools| - 1], name)
  }

  predicate Offered(tools: seq<Tool>, name: string) {
    ByName(tools, name).Some?
  }

  lemma {:induction false} OfferedMeaning(tools: seq<Tool>, name: string)
    ensures Offered(tools, name) <==> exists i :: 0 <= i < |tools| && tools[i].name == name
    ensures Offered(tools, name) ==> ByName(tools, name).value.name == name
  {
    if tools != [] {
      OfferedMeaning(tools[..|tools| - 1], name);
    }
  }

  /** `t` is the last tool offered under this name: later ones replace earlier ones. */
  ghost predicate IsTool(tools: seq<Tool>, name: string, t: Tool) {
    exists i :: 0 <= i < |tools| && tools[i] == t && t.name == name && forall j :: i < j < |tools| ==> tools[j].name != name
  }

  ghost predicate HasTool(tools: seq<Tool>, name: string) {
    exists i :: 0 <= i < |tools| && tools[i].name == name
  }

  lemma {:induction false} ByNameMeaning(tools: seq<Tool>, name: string)
    ensures ByName(tools, name).Some? <==> HasTool(tools, name)
    ensures forall t :: ByName(tools, name) == Some(t) <==> IsTool(tools, name, t)
  {
    if tools != [] {
      var init, last := tools[..|tools| - 1], tools[|tools| - 1];
      ByNameMeaning(init, name);
      assert forall i :: 0 <= i < |init| ==> init[i] == tools[i];
      if last.name != name {
        forall t ensures IsTool(tools, name, t) <==> IsTool(init, name, t) {
          if i :| 0 <= i < |init| && init[i] == t && t.name == name && forall j :: i < j < |init| ==> init[j].name != name {
            assert tools[i] == t;
          }
        }
      }
    }
  }

  predicate AssistantCalled(messages: seq<Message>, names: seq<string>) {
    exists i :: 0 <= i < |messages| && messages[i].role == "assistant"
                && exists j :: 0 <= j < |messages[i].calls| && messages[i].calls[j] in names
  }

  /** The offered retrieval tools in preference order. */
  function OfferedRetrieval(tools: seq<Tool>, names: seq<string>): seq<Tool> {
    if names == [] then []
    else
      var rest := OfferedRetrieval(tools, names[1..]);
      match ByName(tools, names[0])
      case None => rest
      case Some(t) => [t] + rest
  }

  /** The tools to call, each with its task, or the rejection; an empty list means text. */
  function PickTools(r: Request, k: Knobs): Result<seq<(Tool, string)>, BadRequest> {
    if r.choice.Forced? then
      if r.choice.function_.None? || r.choice.function_.value == "" || !Offered(r.tools, r.choice.function_.value)
      then Err(ForcedFunctionNotOffered)
      else Ok([(ByName(r.tools, r.choice.function_.value).value, r.snippet)])
    else
      var choice := if r.choice.Named? then r.choice.choice else if r.tools != [] then "auto" else "none";
      if choice == "none" || r.tools == [] then Ok([])
      else if choice == "required" then Ok(PickRequired(r, k))
      else Ok(PickAuto(r, k))
  }

  function PickRequired(r: Request, k: Knobs): seq<(Tool, string)>
    requires r.tools != []
  {
    var agent := ByName(r.tools, RESEARCH_AGENT);
    var report := ByName(r.tools, GENERATE_REPORT);
    var retrieval := OfferedRetrieval(r.tools, RETRIEVAL_TOOLS);
    if agent.Some? && !AssistantCalled(r.messages, [RESEARCH_AGENT]) then
      seq(k.nAgents, i requires 0 <= i < k.nAgents =>
        (agent.value, "research aspect " + Decimal(i + 1) + ": " + r.snippet))
    else if agent.Some? && report.Some? then [(report.value, r.snippet)]
    else if retrieval != [] && !AssistantCalled(r.messages, RETRIEVAL_TOOLS) then [(retrieval[0], r.snippet)]
    else if report.Some? then [(report.value, r.snippet)]
    else [(r.tools[0], r.snippet)]
  }

  function PickAuto(r: Request, k: Knobs): seq<(Tool, string)>
    requires r.tools != []
  {
    var plan := ByName(r.tools, GENERATE_PLAN);
    var hasToolResult := exists i :: 0 <= i < |r.messages| && r.messages[i].role == "tool";
    if plan.Some? then [(plan.value, r.snippet)]
    else if k.nAutoTools > 0 && !hasToolResult then
      var retrieval := OfferedRetrieval(r.tools, RETRIEVAL_TOOLS);
      var chosen := if k.nAutoTools < |retrieval| then retrieval[..k.nAutoTools] else retrieval;
      if chosen == [] then [(r.tools[0], r.snippet)]
      else seq(|chosen|, i requires 0 <= i < |chosen| => (chosen[i], r.snippet))
    else []
  }

  lemma {:induction false} RetrievalMeaning(tools: seq<Tool>, names: seq<string>)
    ensures forall i :: 0 <= i < |OfferedRetrieval(tools, names)| ==>
              var t := OfferedRetrieval(tools, names)[i]; t.name in names && Offered(tools, t.name)
    ensures OfferedRetrieval(tools, names) == [] <==> forall n :: n in names ==> !Offered(tools, n)
    ensures |OfferedRetrieval(tools, names)| <= |names|
  {
    if names != [] {
      RetrievalMeaning(tools, names[1..]);
      OfferedMeaning(tools, names[0]);
      assert names == [names[0]] + names[1..];
    }
  }

  /** The offered retrieval tools are those of the listed names that are offered, in the listed order. */
  lemma {:induction false} RetrievalInOrder(tools: seq<Tool>, names: seq<string>)
    ensures var (ts, kept) := (OfferedRetrieval(tools, names), Filter(names, n => Offered(tools, n)));
            |ts| == |kept| && forall i :: 0 <= i < |ts| ==> ByName(tools, kept[i]) == Some(ts[i])
  {
    hide ByName;
    if names != [] {
      RetrievalInOrder(tools, names[1..]);
    }
  }

  /** One call to the tool so named, on the user's snippet. */
  ghost predicate CallsOnly(r: Request, calls: seq<(Tool, string)>, name: string) {
    |calls| == 1 && IsTool(r.tools, name, calls[0].0) && calls[0].1 == r.snippet
  }

  /** Calls to the first of the preferred retrieval tools that are offered, `n` at most. */
  ghost predicate CallsRetrieval(r: Request, calls: seq<(Tool, string)>, n: nat) {
    var kept := Filter(RETRIEVAL_TOOLS, name => Offered(r.tools, name));
    && |calls| == (if n < |kept| then n else |kept|)
    && forall i :: 0 <= i < |calls| ==> IsTool(r.tools, kept[i], calls[i].0) && calls[i].1 == r.snippet
  }

  ghost predicate HasRetrieval(tools: seq<Tool>) {
    exists name :: name in RETRIEVAL_TOOLS && HasTool(tools, name)
  }

  lemma RetrievalOffered(tools: seq<Tool>)
    ensures OfferedRetrieval(tools, RETRIEVAL_TOOLS) != [] <==> HasRetrieval(tools)
  {
    hide OfferedRetrieval;
    RetrievalMeaning(tools, RETRIEVAL_TOOLS);
    forall name ensures Offered(tools, name) <==> HasTool(tools, name) {
      ByNameMeaning(tools, name);
    }
    hide Offered, HasTool;
  }

  lemma RetrievalCalled(r: Request, n: nat)
    ensures var ts := OfferedRetrieval(r.tools, RETRIEVAL_TOOLS);
            var first := if n < |ts| then ts[..n] else ts;
            CallsRetrieval(r, seq(|first|, i requires 0 <= i < |first| => (first[i], r.snippet)), n)
  {
    hide OfferedRetrieval, Filter, ByName, IsTool;
    RetrievalInOrder(r.tools, RETRIEVAL_TOOLS);
    forall name, t ensures ByName(r.tools, name) == Some(t) <==> IsTool(r.tools, name, t) {
      ByNameMeaning(r.tools, name);
    }
  }

  lemma RetrievalCalledOnce(r: Request)
    requires OfferedRetrieval(r.tools, RETRIEVAL_TOOLS) != []
    ensures CallsRetrieval(r, [(OfferedRetrieval(r.tools, RETRIEVAL_TOOLS)[0], r.snippet)], 1)
  {
    hide OfferedRetrieval, CallsRetrieval;
    RetrievalCalled(r, 1);
    var ts := OfferedRetrieval(r.tools, RETRIEVAL_TOOLS);
    var first := if 1 < |ts| then ts[..1] else ts;
    assert seq(|first|, i requires 0 <= i < |first| => (first[i], r.snippet)) == [(ts[0], r.snippet)];
  }

  lemma RequiredPicks(r: Request, k: Knobs)
    requires r.choice == Named("required") && r.tools != []
    ensures PickTools(r, k) == Ok(PickRequired(r, k))
  {
    hide PickRequired, PickAuto;
    assert "required" != "none";
  }

  lemma AutoPicks(r: Request, k: Knobs)
    requires IsAuto(r.choice)
    ensures PickTools(r, k) == if r.tools == [] then Ok([]) else Ok(PickAuto(r, k))
  {
    hide PickRequired, PickAuto;
    assert "auto" != "none" && "auto" != "required";
  }

  /**
   With tool_choice "required": the research agents once, each on its own aspect; then the report where both are
   offered; else one retrieval tool, unless one was called before; else the report; else the first tool.
   */
  lemma RequiredMeaning(r: Request, k: Knobs)
    requires r.choice == Named("required") && r.tools != []
    ensures PickTools(r, k).Ok?
    ensures var calls := PickTools(r, k).value;
            var (agent, report) := (HasTool(r.tools, "research_agent"), HasTool(r.tools, "generate_report"));
            if agent && !AssistantCalled(r.messages, ["research_agent"]) then
              |calls| == k.nAgents
              && forall i :: 0 <= i < |calls| ==>
                   && IsTool(r.tools, "research_agent", calls[i].0)
                   && calls[i].1 == "research aspect " + Decimal(i + 1) + ": " + r.snippet
            else if agent && report then CallsOnly(r, calls, "generate_report")
            else if HasRetrieval(r.tools) && !AssistantCalled(r.messages, RETRIEVAL_TOOLS)
            then CallsRetrieval(r, calls, 1)
            else if report then CallsOnly(r, calls, "generate_report")
            else calls == [(r.tools[0], r.snippet)]
  {
    hide PickTools, ByName, OfferedRetrieval, HasTool, IsTool, HasRetrieval, CallsRetrieval, AssistantCalled, Decimal;
    RequiredPicks(r, k);
    ByNameMeaning(r.tools, RESEARCH_AGENT);
    ByNameMeaning(r.tools, GENERATE_REPORT);
    RetrievalOffered(r.tools);
    if OfferedRetrieval(r.tools, RETRIEVAL_TOOLS) != [] {
      RetrievalCalledOnce(r);
    }
  }

  /**
   Left to the model: the plan alone if it is offered; otherwise, if the knob asks for tools and none has
   answered yet, that many retrieval tools, or the first tool when there are none; otherwise text.
   */
  lemma AutoMeaning(r: Request, k: Knobs)
    requires IsAuto(r.choice)
    ensures PickTools(r, k).Ok?
    ensures var calls := PickTools(r, k).value;
            if HasTool(r.tools, "generate_plan") then CallsOnly(r, calls, "generate_plan")
            else if r.tools == [] || k.nAutoTools == 0 || exists i :: 0 <= i < |r.messages| && r.messages[i].role == "tool"
            then calls == []
            else if HasRetrieval(r.tools) then CallsRetrieval(r, calls, k.nAutoTools)
            else calls == [(r.tools[0], r.snippet)]
  {
    hide PickTools, ByName, OfferedRetrieval, IsTool, HasRetrieval, CallsRetrieval;
    AutoPicks(r, k);
    ByNameMeaning(r.tools, GENERATE_PLAN);
    RetrievalOffered(r.tools);
    RetrievalCalled(r, k.nAutoTools);
  }

  /** A forced function is called alone, or rejected when it is missing, blank or not offered. */
  lemma ForcedMeaning(r: Request, k: Knobs)
    requires r.choice.Forced?
    ensures var f := r.choice.function_;
            if f.Some? && f.value != "" && HasTool(r.tools, f.value)
            then PickTools(r, k).Ok? && CallsOnly(r, PickTools(r, k).value, f.value)
            else PickTools(r, k) == Err(ForcedFunctionNotOffered)
  {
    if r.choice.function_.Some? {
      ByNameMeaning(r.tools, r.choice.function_.value);
    }
    hide ByName, IsTool, HasTool;
  }

  /** Every call is to an offered tool. */
  lemma CallsAreOffered(r: Request, k: Knobs)
    requires PickTools(r, k).Ok?
    ensures forall i :: 0 <= i < |PickTools(r, k).value| ==> Offered(r.tools, PickTools(r, k).value[i].0.name)
  {
    RetrievalMeaning(r.tools, RETRIEVAL_TOOLS);
    OfferedMeaning(r.tools, RESEARCH_AGENT);
    OfferedMeaning(r.tools, GENERATE_REPORT);
    OfferedMeaning(r.tools, GENERATE_PLAN);
    if r.tools != [] {
      OfferedMeaning(r.tools, r.tools[0].name);
    }
    if r.choice.Forced? && r.choice.function_.Some? {
      OfferedMeaning(r.tools, r.choice.function_.value);
    }
  }

  /** Left to the model: no choice, or any word other than none and required. */
  predicate IsAuto(choice: ToolChoice) {
    choice.Absent? || (choice.Named? && choice.choice != "none" && choice.choice != "required")
  }

  /** Each tool_choice contract: a forced function is called alone or rejected, none stays silent, required speaks. */
  lemma ChoiceContracts(r: Request, k: Knobs)
    requires k.nAgents >= 1
    ensures r.choice.Forced? ==>
              var f := r.choice.function_;
              (PickTools(r, k).Ok? <==> f.Some? && f.value != "" && Offered(r.tools, f.value))
              && (PickTools(r, k).Ok? ==> |PickTools(r, k).value| == 1 && PickTools(r, k).value[0].0.name == f.value)
    ensures r.choice == Named("none") || (r.tools == [] && !r.choice.Forced?) ==> PickTools(r, k) == Ok([])
    ensures r.choice == Named("required") && r.tools != [] ==> PickTools(r, k).Ok? && PickTools(r, k).value != []
    ensures IsAuto(r.choice) && k.nAutoTools == 0 && !Offered(r.tools, GENERATE_PLAN) ==> PickTools(r, k) == Ok([])
    ensures IsAuto(r.choice) && Offered(r.tools, GENERATE_PLAN) ==>
              PickTools(r, k).Ok? && |PickTools(r, k).value| == 1 && PickTools(r, k).value[0].0.name == GENERATE_PLAN
    ensures IsAuto(r.choice) && PickTools(r, k).Ok? ==>
              |PickTools(r, k).value| <= (if k.nAutoTools > 1 then k.nAutoTools else 1)
  {
    if r.choice.Forced? && r.choice.function_.Some? {
      OfferedMeaning(r.tools, r.choice.function_.value);
    }
    OfferedMeaning(r.tools, GENERATE_PLAN);
    assert "required" != "none" && "auto" != "none" && "auto" != "required";
  }

  /** The history after an assistant turn with these calls and a result for each. */
  function AfterCalls(messages: seq<Message>, calls: seq<(Tool, string)>): seq<Message> {
    messages + [Message("assistant", seq(|calls|, i requires 0 <= i < |calls| => calls[i].0.name))]
    + seq(|calls|, _ => Message("tool", []))
  }

  /**
   A loop that keeps asking with tool_choice "required" is asked for the report at most one turn later:
   whatever was called first, the next answer is generate_report if it is offered.
   */
  lemma RequiredLoopReachesReport(r: Request, k: Knobs)
    requires r.choice == Named("required") && Offered(r.tools, GENERATE_REPORT) && k.nAgents >= 1
    ensures var calls := PickRequired(r, k);
            var next := PickRequired(r.(messages := AfterCalls(r.messages, calls)), k);
            |next| == 1 && next[0].0.name == GENERATE_REPORT
  {
    var calls := PickRequired(r, k);
    var after := AfterCalls(r.messages, calls);
    OfferedMeaning(r.tools, GENERATE_REPORT);
    OfferedMeaning(r.tools, RESEARCH_AGENT);
    RetrievalMeaning(r.tools, RETRIEVAL_TOOLS);
    StillCalled(r.messages, calls, [RESEARCH_AGENT]);
    StillCalled(r.messages, calls, RETRIEVAL_TOOLS);
    if Offered(r.tools, RESEARCH_AGENT) {
      if !AssistantCalled(r.messages, [RESEARCH_AGENT]) {
        assert calls[0].0.name == RESEARCH_AGENT;
      }
    } else if OfferedRetrieval(r.tools, RETRIEVAL_TOOLS) != [] && !AssistantCalled(r.messages, RETRIEVAL_TOOLS) {
      assert calls[0].0.name in RETRIEVAL_TOOLS;
    }
  }

  lemma StillCalled(messages: seq<Message>, calls: seq<(Tool, string)>, names: seq<string>)
    ensures AssistantCalled(messages, names) ==> AssistantCalled(AfterCalls(messages, calls), names)
    ensures calls != [] && calls[0].0.name in names ==> AssistantCalled(AfterCalls(messages, calls), names)
  {
    var after := AfterCalls(messages, calls);
    if AssistantCalled(messages, names) {
      var i :| 0 <= i < |messages| && messages[i].role == "assistant"
               && exists j :: 0 <= j < |messages[i].calls| && messages[i].calls[j] in names;
      assert after[i] == messages[i];
    }
    if calls != [] && calls[0].0.name in names {
      assert after[|messages|].role == "assistant" && after[|messages|].calls[0] in names;
    }
  }

  // ---- words --------------------------------------------------------------------------------------

  /** Index of the first white space, or the length. */
  function WordEnd(s: string): (k: nat)
    ensures k <= |s|
  {
    if s == "" || IsSpace(s[0]) then 0 else 1 + WordEnd(s[1..])
  }

  /** `s.split()`. */
  function Words(s: string): seq<string>
    decreases |s|
  {
    if s == "" then []
    else if IsSpace(s[0]) then Words(s[1..])
    else
      var k := WordEnd(s);
      [s[..k]] + Words(s[k..])
  }

  predicate IsWord(w: string) {
    w != "" && forall i :: 0 <= i < |w| ==> !IsSpace(w[i])
  }

  lemma {:induction false} WordEndMeaning(s: string)
    ensures forall i :: 0 <= i < WordEnd(s) ==> !IsSpace(s[i])
  {
    if s != "" && !IsSpace(s[0]) {
      WordEndMeaning(s[1..]);
    }
  }

  lemma {:induction false} WordsAreWords(s: string)
    ensures forall i :: 0 <= i < |Words(s)| ==> IsWord(Words(s)[i])
    decreases |s|
  {
    if s != "" {
      if IsSpace(s[0]) {
        WordsAreWords(s[1..]);
      } else {
        WordEndMeaning(s);
        WordsAreWords(s[WordEnd(s)..]);
      }
    }
  }

  lemma {:induction false} WordEndAt(w: string, rest: string)
    requires forall i :: 0 <= i < |w| ==> !IsSpace(w[i])
    ensures WordEnd(w + " " + rest) == |w|
  {
    var s := w + " " + rest;
    if w == "" {
      assert s[0] == ' ';
    } else {
      assert s[1..] == w[1..] + " " + rest;
      WordEndAt(w[1..], rest);
    }
  }

  /** `w` is a word of `s`, whole, at position `p`. */
  ghost predicate WordAt(s: string, p: nat, w: string) {
    && p + |w| <= |s| && s[p..p + |w|] == w && IsWord(w)
    && (p == 0 || IsSpace(s[p - 1])) && (p + |w| == |s| || IsSpace(s[p + |w|]))
  }

  /** The words found in `s` at these ascending positions, and nothing but white space beside them. */
  ghost predicate WordsAt(s: string, at: seq<nat>, ws: seq<string>) {
    && |at| == |ws| && (forall i, j :: 0 <= i < j < |at| ==> at[i] < at[j])
    && (forall i :: 0 <= i < |at| ==> WordAt(s, at[i], ws[i]))
    && forall p :: 0 <= p < |s| && !IsSpace(s[p]) ==> InWord(at, ws, p)
  }

  ghost predicate InWord(at: seq<nat>, ws: seq<string>, p: int)
    requires |at| == |ws|
  {
    exists i :: 0 <= i < |at| && at[i] <= p < at[i] + |ws[i]|
  }

  function Shifted(at: seq<nat>, k: nat): seq<nat> {
    seq(|at|, i requires 0 <= i < |at| => at[i] + k)
  }

  lemma ShiftedInWord(at: seq<nat>, ws: seq<string>, k: nat, p: int)
    requires |at| == |ws| && InWord(at, ws, p - k)
    ensures InWord(Shifted(at, k), ws, p)
  {
    var i :| 0 <= i < |at| && at[i] <= p - k < at[i] + |ws[i]|;
    assert Shifted(at, k)[i] == at[i] + k;
  }

  lemma MoreInWord(at: seq<nat>, ws: seq<string>, p: int, w: string)
    requires |at| == |ws|
    ensures InWord(at, ws, p) ==> InWord([0] + at, [w] + ws, p)
    ensures 0 <= p < |w| ==> InWord([0] + at, [w] + ws, p)
  {
    if i :| 0 <= i < |at| && at[i] <= p < at[i] + |ws[i]| {
      assert ([0] + at)[i + 1] == at[i] && ([w] + ws)[i + 1] == ws[i];
    }
    if 0 <= p < |w| {
      assert ([0] + at)[0] == 0 && ([w] + ws)[0] == w;
    }
  }

  /** Words further on stay words, unless the cut goes through one. */
  lemma WordShift(s: string, k: nat, p: nat, w: string)
    requires 0 < k <= |s| && WordAt(s[k..], p, w) && (IsSpace(s[k - 1]) || k == |s| || IsSpace(s[k]))
    ensures WordAt(s, p + k, w)
  {
    hide IsSpace;
    assert s[p + k..p + k + |w|] == s[k..][p..p + |w|];
    assert p == 0 ==> s[k..][0] == w[0];
  }

  lemma WordsShift(s: string, k: nat, at: seq<nat>, ws: seq<string>)
    requires 0 < k <= |s| && WordsAt(s[k..], at, ws) && (IsSpace(s[k - 1]) || k == |s| || IsSpace(s[k]))
    ensures |at| == |ws| == |Shifted(at, k)| && forall i :: 0 <= i < |at| ==> WordAt(s, Shifted(at, k)[i], ws[i])
    ensures forall i, j :: 0 <= i < j < |at| ==> k <= Shifted(at, k)[i] < Shifted(at, k)[j]
    ensures at != [] ==> k <= Shifted(at, k)[0]
    ensures forall p :: k <= p < |s| && !IsSpace(s[p]) ==> InWord(Shifted(at, k), ws, p)
  {
    hide IsSpace, WordAt, InWord;
    forall i | 0 <= i < |at| ensures WordAt(s, at[i] + k, ws[i]) {
      WordShift(s, k, at[i], ws[i]);
    }
    forall p | k <= p < |s| && !IsSpace(s[p]) ensures InWord(Shifted(at, k), ws, p) {
      assert s[k..][p - k] == s[p];
      ShiftedInWord(at, ws, k, p);
    }
  }

  lemma SpaceFirst(s: string, at: seq<nat>, ws: seq<string>)
    requires s != "" && IsSpace(s[0]) && WordsAt(s[1..], at, ws)
    ensures WordsAt(s, Shifted(at, 1), ws)
  {
    hide IsSpace, WordAt, InWord;
    WordsShift(s, 1, at, ws);
  }

  lemma WordFirst(s: string, k: nat, at: seq<nat>, ws: seq<string>)
    requires 0 < k <= |s| && WordsAt(s[k..], at, ws) && WordAt(s, 0, s[..k])
    ensures WordsAt(s, [0] + Shifted(at, k), [s[..k]] + ws)
  {
    assert k == |s| || IsSpace(s[k]);
    hide IsSpace, WordAt, InWord, Shifted;
    WordsShift(s, k, at, ws);
    var from, words := [0] + Shifted(at, k), [s[..k]] + ws;
    forall i | 0 <= i < |from| ensures WordAt(s, from[i], words[i]) {
      assert i > 0 ==> from[i] == Shifted(at, k)[i - 1] && words[i] == ws[i - 1];
    }
    forall p | 0 <= p < |s| && !IsSpace(s[p]) ensures InWord(from, words, p) {
      MoreInWord(Shifted(at, k), ws, p, s[..k]);
    }
  }

  lemma WordEndStops(s: string)
    requires s != "" && !IsSpace(s[0])
    ensures 0 < WordEnd(s) && WordAt(s, 0, s[..WordEnd(s)])
  {
    WordEndMeaning(s);
    WordEndAtSpace(s);
  }

  lemma {:induction false} WordEndAtSpace(s: string)
    ensures WordEnd(s) == |s| || IsSpace(s[WordEnd(s)])
  {
    if s != "" && !IsSpace(s[0]) {
      WordEndAtSpace(s[1..]);
    }
  }

  /** The words of a text are its longest stretches without white space, in order. */
  lemma {:induction false} WordsMeaning(s: string) returns (at: seq<nat>)
    ensures WordsAt(s, at, Words(s))
    decreases |s|
  {
    at := [];
    if s != "" {
      if IsSpace(s[0]) {
        at := WordsMeaning(s[1..]);
        SpaceFirst(s, at, Words(s[1..]));
        at := Shifted(at, 1);
      } else {
        var k := WordEnd(s);
        WordEndStops(s);
        at := WordsMeaning(s[k..]);
        WordFirst(s, k, at, Words(s[k..]));
        at := [0] + Shifted(at, k);
      }
    }
  }

  /** The streamed text: every word followed by a space. */
  function Spaced(ws: seq<string>): string {
    if ws == [] then "" else ws[0] + " " + Spaced(ws[1..])
  }

  lemma {:induction false} WordsOfSpaced(ws: seq<string>)
    requires forall i :: 0 <= i < |ws| ==> IsWord(ws[i])
    ensures Words(Spaced(ws)) == ws
  {
    if ws != [] {
      var s := Spaced(ws);
      WordEndAt(ws[0], Spaced(ws[1..]));
      assert s[..|ws[0]|] == ws[0] && s[|ws[0]|..] == " " + Spaced(ws[1..]);
      assert (" " + Spaced(ws[1..]))[1..] == Spaced(ws[1..]);
      WordsOfSpaced(ws[1..]);
    }
  }

  lemma {:induction false} SpacedAppend(ws: seq<string>, w: string)
    ensures Spaced(ws + [w]) == Spaced(ws) + w + " "
  {
    if ws == [] {
      assert [w] == [] + [w] && [w][1..] == [];
      assert Spaced([w]) == w + " " + "";
    } else {
      assert (ws + [w])[1..] == ws[1..] + [w];
      SpacedAppend(ws[1..], w);
    }
  }

  // ---- the stream --------------------------------------------------------------------------------------

  /** Fields left out on the wire are None. */
  datatype ToolDelta = ToolDelta(index: nat, id: Option<string>, name: Option<string>, arguments: Option<string>)

  datatype Delta = Delta(role: Option<string>, content: Option<string>, toolCalls: Option<seq<ToolDelta>>)

  datatype Event = Chunk(delta: Delta, finishReason: Option<string>) | DoneMarker

  /** A client's view of one call while its deltas arrive. */
  datatype Partial = Partial(id: Option<string>, name: Option<string>, arguments: string)

  datatype Received = Received(content: string, calls: map<nat, Partial>, finishReason: Option<string>, done: bool)

  const NOTHING := Received("", map[], None, false)

  function OrElse(a: Option<string>, b: Option<string>): Option<string> {
    if a.Some? then a else b
  }

  function MergeCall(calls: map<nat, Partial>, d: ToolDelta): map<nat, Partial> {
    var before := if d.index in calls then calls[d.index] else Partial(None, None, "");
    calls[d.index := Partial(OrElse(d.id, before.id), OrElse(d.name, before.name),
                             before.arguments + (if d.arguments.Some? then d.arguments.value else ""))]
  }

  function MergeCalls(calls: map<nat, Partial>, ds: seq<ToolDelta>): map<nat, Partial> {
    if ds == [] then calls else MergeCall(MergeCalls(calls, ds[..|ds| - 1]), ds[|ds| - 1])
  }

  function Receive(r: Received, e: Event): Received {
    match e
    case DoneMarker => r.(done := true)
    case Chunk(d, finish) =>
      Received(r.content + (if d.content.Some? then d.content.value else ""),
               if d.toolCalls.Some? then MergeCalls(r.calls, d.toolCalls.value) else r.calls,
               OrElse(finish, r.finishReason), r.done)
  }

  function ReceiveAll(es: seq<Event>): Received {
    if es == [] then NOTHING else Receive(ReceiveAll(es[..|es| - 1]), es[|es| - 1])
  }

  /** The calls once the first `k` argument deltas have arrived. */
  function Rebuilt(calls: seq<ToolCall>, k: nat): map<nat, Partial> {
    map i: nat | 0 <= i < |calls| ::
      Partial(Some(calls[i].id), Some(calls[i].name), if i < k then calls[i].arguments else "")
  }

  function Header(calls: seq<ToolCall>, n: nat): seq<ToolDelta>
    requires n <= |calls|
  {
    seq(n, i requires 0 <= i < n => ToolDelta(i, Some(calls[i].id), Some(calls[i].name), Some("")))
  }

  lemma {:induction false} HeaderRebuilds(calls: seq<ToolCall>, n: nat)
    requires n <= |calls|
    ensures MergeCalls(map[], Header(calls, n)) == Rebuilt(calls[..n], 0)
  {
    if n > 0 {
      HeaderRebuilds(calls, n - 1);
      var ds := Header(calls, n);
      assert ds[..n - 1] == Header(calls, n - 1);
      hide MergeCall, Rebuilt;
      assert MergeCalls(map[], ds) == MergeCall(Rebuilt(calls[..n - 1], 0), ds[n - 1]);
      HeaderMerged(calls, n - 1);
    }
  }

  lemma HeaderMerged(calls: seq<ToolCall>, n: nat)
    requires n < |calls|
    ensures MergeCall(Rebuilt(calls[..n], 0), Header(calls, n + 1)[n]) == Rebuilt(calls[..n + 1], 0)
  {
    var before, after := Rebuilt(calls[..n], 0), Rebuilt(calls[..n + 1], 0);
    var merged := MergeCall(before, Header(calls, n + 1)[n]);
    assert n !in before && "" + "" == "" && merged[n] == after[n];
    assert merged.Keys == after.Keys;
    assert forall i: nat :: i < n ==> calls[..n + 1][i] == calls[..n][i] && merged[i] == after[i];
  }

  lemma MergeOne(calls: map<nat, Partial>, d: ToolDelta)
    ensures MergeCalls(calls, [d]) == MergeCall(calls, d)
  {
    hide MergeCall;
    assert [d][..0] == [];
  }

  lemma CompletedAt(calls: seq<ToolCall>, i: nat)
    requires i < |calls|
    ensures i in Rebuilt(calls, i) && Rebuilt(calls, i)[i] == Partial(Some(calls[i].id), Some(calls[i].name), "")
    ensures Rebuilt(calls, i)[i := Partial(Some(calls[i].id), Some(calls[i].name), calls[i].arguments)] == Rebuilt(calls, i + 1)
  {
  }

  lemma Completes(calls: map<nat, Partial>, i: nat, id: string, name: string, arguments: string)
    requires i in calls && calls[i] == Partial(Some(id), Some(name), "")
    ensures MergeCall(calls, ToolDelta(i, None, None, Some(arguments))) == calls[i := Partial(Some(id), Some(name), arguments)]
  {
    assert "" + arguments == arguments;
  }

  /** The next argument delta completes call `i`. */
  lemma ArgumentsRebuild(calls: seq<ToolCall>, i: nat)
    requires i < |calls|
    ensures MergeCalls(Rebuilt(calls, i), [ToolDelta(i, None, None, Some(calls[i].arguments))]) == Rebuilt(calls, i + 1)
  {
    hide *;
    MergeOne(Rebuilt(calls, i), ToolDelta(i, None, None, Some(calls[i].arguments)));
    CompletedAt(calls, i);
    Completes(Rebuilt(calls, i), i, calls[i].id, calls[i].name, calls[i].arguments);
  }

  lemma ReceiveNext(events: seq<Event>, e: Event)
    ensures ReceiveAll(events + [e]) == Receive(ReceiveAll(events), e)
  {
  }

  method GenerateCalls(calls: seq<ToolCall>) returns (events: seq<Event>)
    ensures ReceiveAll(events) == Received("", Rebuilt(calls, |calls|), Some("tool_calls"), true)
    ensures |events| == |calls| + 3
  {
    hide MergeCalls, MergeCall, Rebuilt;
    var header := Chunk(Delta(Some("assistant"), None, Some(Header(calls, |calls|))), None);
    events := [] + [header];
    ReceiveNext([], header);
    HeaderRebuilds(calls, |calls|);
    assert calls[..|calls|] == calls;
    for i := 0 to |calls|
      invariant ReceiveAll(events) == Received("", Rebuilt(calls, i), None, false)
      invariant |events| == i + 1
    {
      var next := Chunk(Delta(None, None, Some([ToolDelta(i, None, None, Some(calls[i].arguments))])), None);
      ReceiveNext(events, next);
      ArgumentsRebuild(calls, i);
      events := events + [next];
    }
    events := Finish(events, "tool_calls");
  }

  method GenerateText(answer: string) returns (events: seq<Event>)
    ensures ReceiveAll(events) == Received(Spaced(Words(answer)), map[], Some("stop"), true)
    ensures |events| == |Words(answer)| + 3
  {
    var opening := Chunk(Delta(Some("assistant"), Some(""), None), None);
    events := [] + [opening];
    ReceiveNext([], opening);
    var ws := Words(answer);
    for i := 0 to |ws|
      invariant ReceiveAll(events) == Received(Spaced(ws[..i]), map[], None, false)
      invariant |events| == i + 1
    {
      var next := Chunk(Delta(None, Some(ws[i] + " "), None), None);
      ReceiveNext(events, next);
      assert ws[..i + 1] == ws[..i] + [ws[i]];
      SpacedAppend(ws[..i], ws[i]);
      assert Spaced(ws[..i]) + (ws[i] + " ") == Spaced(ws[..i]) + ws[i] + " ";
      events := events + [next];
    }
    assert ws[..|ws|] == ws;
    events := Finish(events, "stop");
  }

  /** The closing chunk and the end marker. */
  method Finish(events: seq<Event>, reason: string) returns (all: seq<Event>)
    ensures ReceiveAll(all) == ReceiveAll(events).(finishReason := Some(reason), done := true)
    ensures |all| == |events| + 2
  {
    var closing := Chunk(Delta(None, None, None), Some(reason));
    ReceiveNext(events, closing);
    ReceiveNext(events + [closing], DoneMarker);
    all := events + [closing] + [DoneMarker];
  }

  /** The message of a non-streamed completion. */
  datatype Answer = Answer(content: Option<string>, calls: seq<ToolCall>, finishReason: string)

  function NonStreamed(calls: seq<ToolCall>, answer: string): Answer {
    if calls != [] then Answer(None, calls, "tool_calls") else Answer(Some(answer), [], "stop")
  }

  /** A client that merges deltas by index ends with what the non-streamed completion would have said. */
  ghost predicate SameAnswer(r: Received, a: Answer) {
    && r.done && r.finishReason == Some(a.finishReason)
    && (forall i: nat :: i in r.calls <==> i < |a.calls|)
    && (forall i: nat :: i < |a.calls| ==>
          r.calls[i] == Partial(Some(a.calls[i].id), Some(a.calls[i].name), a.calls[i].arguments))
    && (if a.content.None? then r.content == "" else Words(r.content) == Words(a.content.value))
  }

  /** Stream and non-stream agree: same calls, same finish reason, same sequence of words. */
  method Generate(calls: seq<ToolCall>, answer: string) returns (events: seq<Event>)
    ensures SameAnswer(ReceiveAll(events), NonStreamed(calls, answer))
  {
    if calls != [] {
      events := GenerateCalls(calls);
    } else {
      events := GenerateText(answer);
      WordsAreWords(answer);
      WordsOfSpaced(Words(answer));
    }
  }
}
