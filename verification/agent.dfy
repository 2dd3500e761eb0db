/**
 * assistant/agent.py: handle_query, the orchestration of one request. The
 * language is detected, the safety decision is taken, and then the request
 * is refused, escalated, or answered from retrieved passages, extractively or
 * through a language model. Every step appends an event to the log.
 */
module Agent {
  import opened Base
  import opened TextUtils
  import opened Safety
  import opened RagStore

  /** A value of a log payload or an evaluation hook. */
  datatype Value = Str(s: string) | Int(n: int) | Flag(b: bool) | Strs(ss: seq<string>) | Fields(fields: seq<(string, Value)>)

  /** One logged event: its name and its payload, in keyword order. */
  datatype Event = Event(name: string, payload: seq<(string, Value)>)

  /** What handle_query returns. */
  datatype AgentResponse = AgentResponse(
    action: string,
    answer: string,
    language: string,
    retrieved: seq<Retrieved>,
    evalHooks: seq<(string, Value)>)

  /** What the language model returns. */
  datatype LlmResult = LlmResult(text: string, model: string)

  /** The exceptions handle_query lets through from the tools it calls. */
  datatype AgentError = RetrievalFailed(error: StoreError) | GenerationFailed(message: string)

  /** detect_language: a language code, or "unknown". */
  type Detector = string -> string

  /** rag.retrieve(query, top_k=k). */
  type Retriever = (string, int) -> Result<seq<Retrieved>, StoreError>

  /** generate_with_ollama(prompt). */
  type Llm = string -> Result<LlmResult, string>

  /** The three-decimal rendering of a score. */
  type ScoreFormat = real -> string

  /** handle_query's own default top_k. */
  const HandleQueryTopK: int := 4

  // ---------------------------------------------------------------------------
  // The log and the tools

  /** The run log: events are only ever appended. */
  class EventLog {
    var events: seq<Event>

    constructor ()
      ensures events == []
    {
      events := [];
    }

    method Log(name: string, payload: seq<(string, Value)>)
      modifies this
      ensures events == old(events) + [Event(name, payload)]
    {
      events := events + [Event(name, payload)];
    }
  }

  /** The external tools of the agent, with a record of every call made to them. */
  class Tools {
    const retriever: Retriever
    const llm: Llm
    /** The (query, top_k) of every retrieval, in order. */
    var retrievals: seq<(string, int)>
    /** The prompt of every generation, in order. */
    var prompts: seq<string>

    constructor (retriever: Retriever, llm: Llm)
      ensures this.retriever == retriever && this.llm == llm
      ensures retrievals == [] && prompts == []
    {
      this.retriever := retriever;
      this.llm := llm;
      retrievals := [];
      prompts := [];
    }

    method Retrieve(query: string, topK: int) returns (r: Result<seq<Retrieved>, StoreError>)
      modifies this
      ensures r == retriever(query, topK)
      ensures retrievals == old(retrievals) + [(query, topK)] && prompts == old(prompts)
    {
      retrievals := retrievals + [(query, topK)];
      r := retriever(query, topK);
    }

    method Generate(prompt: string) returns (r: Result<LlmResult, string>)
      modifies this
      ensures r == llm(prompt)
      ensures prompts == old(prompts) + [prompt] && retrievals == old(retrievals)
    {
      prompts := prompts + [prompt];
      r := llm(prompt);
    }
  }

  // ---------------------------------------------------------------------------
  // The answers

  /** f"{n}": the decimal digits of a natural number. */
  function NatToString(n: nat): string
    decreases n
  {
    var d := ['0' + (n % 10) as char];
    if n < 10 then d else NatToString(n / 10) + d
  }

  /** f"{n}" for an integer. */
  function IntToString(n: int): string {
    if n < 0 then "-" + NatToString(-n) else NatToString(n)
  }

  const NoDocumentAnswer: string := "Je n'ai pas trouv\U{E9} de document pertinent dans la base locale."
  const ExtractiveHeader: string := "R\U{E9}ponse (bas\U{E9}e sur les documents locaux):\n\n"
  const SourcesHeader: string := "\n\nSources:\n"

  /** The citation line of one result. */
  function SourceLine(r: Retrieved): string {
    "- " + r.source + " (chunk " + IntToString(r.chunkId) + ")"
  }

  /** The citation lines of the results, in retrieval order. */
  function SourceLines(retrieved: seq<Retrieved>): (lines: seq<string>)
    ensures |lines| == |retrieved|
  {
    seq(|retrieved|, i requires 0 <= i < |retrieved| => SourceLine(retrieved[i]))
  }

  /** _extractive_answer: the top passage followed by one citation line per result. */
  function ExtractiveAnswer(userText: string, retrieved: seq<Retrieved>): string {
    if retrieved == [] then NoDocumentAnswer
    else ExtractiveHeader + retrieved[0].text + SourcesHeader + JoinWith("\n", SourceLines(retrieved))
  }

  /** An occurrence in b is one in a + b, |a| further on. */
  lemma OccursInSuffix(a: string, b: string, w: string, k: nat)
    requires OccursAt(b, w, k)
    ensures OccursAt(a + b, w, |a| + k)
  {
    assert (a + b)[|a| + k..|a| + k + |w|] == b[k..k + |w|];
  }

  /** An occurrence in a is one in a + b, at the same place. */
  lemma OccursInPrefix(a: string, b: string, w: string, k: nat)
    requires OccursAt(a, w, k)
    ensures OccursAt(a + b, w, k)
  {
    assert (a + b)[k..k + |w|] == a[k..k + |w|];
  }

  /** An occurrence of w inside an occurrence of m is an occurrence of w. */
  lemma OccursTrans(s: string, m: string, w: string, k: nat, j: nat)
    requires OccursAt(s, m, k) && OccursAt(m, w, j)
    ensures OccursAt(s, w, k + j)
  {
    forall x | 0 <= x < |w| ensures s[k + j + x] == w[x] {
      assert s[k + j + x] == s[k..k + |m|][j + x];
      assert w[x] == m[j..j + |w|][x];
    }
    assert s[k + j..k + j + |w|] == w;
  }

  lemma OccursItself(w: string)
    ensures OccursAt(w, w, 0)
  {
    assert w[0..|w|] == w;
  }

  /** Part i of a join occurs in it, at its offset. */
  lemma OccursInJoin(sep: string, parts: seq<string>, i: nat) returns (k: nat)
    requires i < |parts|
    ensures k == JoinOffset(sep, parts, i)
    ensures OccursAt(JoinWith(sep, parts), parts[i], k)
  {
    k := JoinWithPartAt(sep, parts, i);
  }

  /** What occurs in one of the joined strings occurs in the joined string. */
  lemma OccursInJoinedPart(sep: string, parts: seq<string>, i: nat, w: string, h: nat) returns (k: nat)
    requires i < |parts| && OccursAt(parts[i], w, h)
    ensures OccursAt(JoinWith(sep, parts), w, k)
  {
    var j := OccursInJoin(sep, parts, i);
    OccursTrans(JoinWith(sep, parts), parts[i], w, j, h);
    k := j + h;
  }

  /** The citation line of a result names its source right after the bullet. */
  lemma SourceLineNamesSource(r: Retrieved)
    ensures OccursAt(SourceLine(r), r.source, 2)
  {
    OccursItself(r.source);
    OccursInSuffix("- ", r.source, r.source, 0);
    OccursInPrefix("- " + r.source, " (chunk ", r.source, 2);
    OccursInPrefix("- " + r.source + " (chunk ", IntToString(r.chunkId), r.source, 2);
    OccursInPrefix("- " + r.source + " (chunk " + IntToString(r.chunkId), ")", r.source, 2);
  }

  /** Where the citation line of result i starts in the extractive answer. */
  function CitationOffset(retrieved: seq<Retrieved>, i: nat): nat
    requires i < |retrieved|
  {
    |ExtractiveHeader + retrieved[0].text + SourcesHeader| + JoinOffset("\n", SourceLines(retrieved), i)
  }

  /**
   * The extractive answer quotes the top passage right after its header and
   * cites the source of every result, at its citation offset.
   */
  lemma ExtractiveAnswerCites(userText: string, retrieved: seq<Retrieved>, i: nat) returns (k: nat)
    requires i < |retrieved|
    ensures k == CitationOffset(retrieved, i)
    ensures var answer := ExtractiveAnswer(userText, retrieved);
      && OccursAt(answer, retrieved[0].text, |ExtractiveHeader|)
      && OccursAt(answer, SourceLine(retrieved[i]), k)
      && OccursAt(answer, retrieved[i].source, k + 2)
  {
    var joined := JoinWith("\n", SourceLines(retrieved));
    var head := ExtractiveHeader + retrieved[0].text + SourcesHeader;
    var answer := ExtractiveAnswer(userText, retrieved);
    assert answer == head + joined;
    var j := CitationsNameSources(retrieved, i);
    k := |head| + j;
    OccursInFour(ExtractiveHeader, retrieved[0].text, SourcesHeader, joined, SourceLine(retrieved[i]), j);
    CitedAfter(head, joined, SourceLine(retrieved[i]), retrieved[i].source, j);
  }

  /** A line naming a source in the tail still names it after a head is put in front. */
  lemma CitedAfter(head: string, tail: string, line: string, source: string, j: nat)
    requires OccursAt(tail, line, j) && OccursAt(tail, source, j + 2)
    ensures OccursAt(head + tail, line, |head| + j) && OccursAt(head + tail, source, |head| + j + 2)
  {
    OccursInSuffix(head, tail, line, j);
    OccursInSuffix(head, tail, source, j + 2);
  }

  /**
   * The citations follow retrieval order: the line of an earlier result ends,
   * and a newline follows it, before the line of a later result starts.
   */
  lemma CitationsInOrder(retrieved: seq<Retrieved>, i: nat, j: nat)
    requires i < j < |retrieved|
    ensures CitationOffset(retrieved, i) + |SourceLine(retrieved[i])| < CitationOffset(retrieved, j)
  {
    var lines := SourceLines(retrieved);
    JoinOffsetOrder("\n", lines, i, j);
    assert lines[i] == SourceLine(retrieved[i]);
  }

  /** The joined citation lines hold the line of every result, with its source right after the bullet. */
  lemma CitationsNameSources(retrieved: seq<Retrieved>, i: nat) returns (j: nat)
    requires i < |retrieved|
    ensures j == JoinOffset("\n", SourceLines(retrieved), i)
    ensures var joined := JoinWith("\n", SourceLines(retrieved));
      && OccursAt(joined, SourceLine(retrieved[i]), j)
      && OccursAt(joined, retrieved[i].source, j + 2)
  {
    var lines := SourceLines(retrieved);
    assert lines[i] == SourceLine(retrieved[i]);
    j := OccursInJoin("\n", lines, i);
    SourceLineNamesSource(retrieved[i]);
    OccursTrans(JoinWith("\n", lines), lines[i], retrieved[i].source, j, 2);
  }

  const ContextSeparator: string := "\n\n---\n\n"

  /** One passage of the context: a header naming its source, chunk and score, then its text. */
  function ContextPart(r: Retrieved, formatScore: ScoreFormat): string {
    "[source=" + r.source + " chunk=" + IntToString(r.chunkId) + " score=" + formatScore(r.score) + "]\n" + r.text
  }

  /** _format_context: the passages, in retrieval order, separated by rules. */
  function FormatContext(retrieved: seq<Retrieved>, formatScore: ScoreFormat): string {
    JoinWith(ContextSeparator, ContextParts(retrieved, formatScore))
  }

  /** The context parts of the results, in retrieval order. */
  function ContextParts(retrieved: seq<Retrieved>, formatScore: ScoreFormat): (parts: seq<string>)
    ensures |parts| == |retrieved|
  {
    seq(|retrieved|, i requires 0 <= i < |retrieved| => ContextPart(retrieved[i], formatScore))
  }

  const PromptIntro: string := "You are a public administration assistant. Answer using ONLY the context. " + "If the context is insufficient, say so.\n\n"

  /** The grounded prompt sent to the language model. */
  function Prompt(userText: string, context: string): string {
    PromptIntro + "User: " + userText + "\n\nContext:\n" + context + "\n\nAnswer:"
  }

  /** The text of a passage ends its part of the context. */
  lemma ContextPartQuotesText(r: Retrieved, formatScore: ScoreFormat) returns (k: nat)
    ensures OccursAt(ContextPart(r, formatScore), r.text, k)
  {
    var head := "[source=" + r.source + " chunk=" + IntToString(r.chunkId) + " score=" + formatScore(r.score) + "]\n";
    OccursItself(r.text);
    OccursInSuffix(head, r.text, r.text, 0);
    k := |head|;
  }

  /** In a + u + b + tail, u occurs after a, and what occurs in tail occurs after a + u + b. */
  lemma OccursInFour(a: string, u: string, b: string, tail: string, w: string, j: nat)
    requires OccursAt(tail, w, j)
    ensures OccursAt(a + u + b + tail, u, |a|)
    ensures OccursAt(a + u + b + tail, w, |a + u + b| + j)
  {
    OccursInSuffix(a + u + b, tail, w, j);
    OccursItself(u);
    OccursInSuffix(a, u, u, 0);
    OccursInPrefix(a + u, b, u, |a|);
    OccursInPrefix(a + u + b, tail, u, |a|);
  }

  /** In a + u + b + ctx + c, u occurs after a, and what occurs in ctx occurs after a + u + b. */
  lemma OccursInFive(a: string, u: string, b: string, ctx: string, c: string, w: string, j: nat)
    requires OccursAt(ctx, w, j)
    ensures OccursAt(a + u + b + ctx + c, u, |a|)
    ensures OccursAt(a + u + b + ctx + c, w, |a + u + b| + j)
  {
    OccursInFour(a, u, b, ctx, w, j);
    OccursInPrefix(a + u + b + ctx, c, w, |a + u + b| + j);
    OccursInPrefix(a + u + b + ctx, c, u, |a|);
  }

  /** The context quotes the full text of every retrieved passage. */
  lemma ContextQuotesText(retrieved: seq<Retrieved>, formatScore: ScoreFormat, i: nat) returns (k: nat)
    requires i < |retrieved|
    ensures OccursAt(FormatContext(retrieved, formatScore), retrieved[i].text, k)
  {
    var parts := ContextParts(retrieved, formatScore);
    var h := ContextPartQuotesText(retrieved[i], formatScore);
    k := OccursInJoinedPart(ContextSeparator, parts, i, retrieved[i].text, h);
  }

  /** The prompt carries the user's text and the full text of every retrieved passage. */
  lemma PromptIsGrounded(userText: string, retrieved: seq<Retrieved>, formatScore: ScoreFormat, i: nat) returns (k: nat)
    requires i < |retrieved|
    ensures var prompt := Prompt(userText, FormatContext(retrieved, formatScore));
      && OccursAt(prompt, userText, |PromptIntro + "User: "|)
      && OccursAt(prompt, retrieved[i].text, k)
  {
    var context := FormatContext(retrieved, formatScore);
    var j := ContextQuotesText(retrieved, formatScore, i);
    OccursInFive(PromptIntro + "User: ", userText, "\n\nContext:\n", context, "\n\nAnswer:", retrieved[i].text, j);
    k := |PromptIntro + "User: " + userText + "\n\nContext:\n"| + j;
  }

  const RefusalText: string :=
    "Je ne peux pas traiter des donn\U{E9}es personnelles/sensibles ici. "
    + "Merci de retirer les identifiants (CIN, t\U{E9}l\U{E9}phone, email) ou contactez un agent."
    + "Raison: "

  /** The refusal message, ending with the reason of the safety decision. */
  function RefusalAnswer(reason: string): string {
    RefusalText + reason
  }

  const EscalationAnswer: string :=
    "Je vous redirige vers un agent humain pour ce cas. "
    + "Veuillez fournir votre demande sans donn\U{E9}es sensibles, ou via le canal officiel."

  // ---------------------------------------------------------------------------
  // The evaluation hooks

  function Hooks(select: seq<(string, Value)>, generate: seq<(string, Value)>): seq<(string, Value)> {
    [("after_Tool_Select", Fields(select)), ("after_Generate_Response", Fields(generate))]
  }

  const RefusalHooks := Hooks([("selected", Str("none")), ("reason", Str("safety_refusal"))], [("type", Str("refusal"))])
  const EscalationHooks := Hooks([("selected", Str("human")), ("reason", Str("escalation_trigger"))], [("type", Str("escalation"))])
  const ExtractiveHooks := Hooks([("selected", Str("retrieve"))], [("type", Str("extractive")), ("grounded", Flag(true))])

  function LlmHooks(model: string): seq<(string, Value)> {
    Hooks([("selected", Str("retrieve+generate")), ("model", Str(model))], [("type", Str("llm")), ("grounded", Flag(true))])
  }

  /** The value under key in a list of fields, the first one if the key repeats. */
  function Lookup(fields: seq<(string, Value)>, key: string): Option<Value>
    decreases |fields|
  {
    if fields == [] then None
    else if fields[0].0 == key then Some(fields[0].1)
    else Lookup(fields[1..], key)
  }

  /** eval_hooks["after_Tool_Select"]["selected"]. */
  function Selected(hooks: seq<(string, Value)>): Option<string> {
    match Lookup(hooks, "after_Tool_Select")
    case Some(Fields(fs)) =>
      (match Lookup(fs, "selected")
       case Some(Str(s)) => Some(s)
       case _ => None)
    case _ => None
  }

  // ---------------------------------------------------------------------------
  // handle_query

  /** The effects of one call: its result, the events logged, and the tool calls made. */
  datatype Outcome = Outcome(
    result: Result<AgentResponse, AgentError>,
    events: seq<Event>,
    retrievals: seq<(string, int)>,
    prompts: seq<string>)

  /** The Tool_Result event of a retrieval. */
  function ToolResultEvent(retrieved: seq<Retrieved>): Event {
    Event("Tool_Result", [
      ("selected", Str("retrieve")),
      ("retrieved_count", Int(|retrieved|)),
      ("retrieved_sources", Strs(seq(|retrieved|, i requires 0 <= i < |retrieved| => retrieved[i].source)))])
  }

  /** What handle_query does after the safety check allowed the request. */
  function AllowedSpec(userText: string, lang: string, topK: int, allowGeneration: bool,
                       retriever: Retriever, llm: Llm, formatScore: ScoreFormat): Outcome
  {
    var select := Event("Tool_Select", [("selected", Str("retrieve")), ("top_k", Int(topK))]);
    match retriever(userText, topK)
    case Failure(err) => Outcome(Failure(RetrievalFailed(err)), [select], [(userText, topK)], [])
    case Success(retrieved) =>
      var toolResult := ToolResultEvent(retrieved);
      if !allowGeneration then
        Outcome(
          Success(AgentResponse("retrieve_document", ExtractiveAnswer(userText, retrieved), lang, retrieved, ExtractiveHooks)),
          [select, toolResult, Event("Generate_Response", [("mode", Str("extractive"))])],
          [(userText, topK)], [])
      else
        var prompt := Prompt(userText, FormatContext(retrieved, formatScore));
        match llm(prompt)
        case Failure(msg) => Outcome(Failure(GenerationFailed(msg)), [select, toolResult], [(userText, topK)], [prompt])
        case Success(res) =>
          var answer := if Strip(res.text) != [] then Strip(res.text) else ExtractiveAnswer(userText, retrieved);
          Outcome(
            Success(AgentResponse("summarize_procedure", answer, lang, retrieved, LlmHooks(res.model))),
            [select, toolResult, Event("Generate_Response", [("mode", Str("ollama")), ("model", Str(res.model))])],
            [(userText, topK)], [prompt])
  }

  /** The events logged before the decision branches. */
  function Preamble(userText: string, lang: string, safety: SafetyDecision): seq<Event> {
    [Event("Log_Interaction", [("user_text", Str(userText)), ("language", Str(lang))]),
     Event("Safety_Check", [("action", Str(safety.action.Name())), ("reason", Str(safety.reason))])]
  }

  /** What handle_query does once the safety decision is taken. */
  function Respond(userText: string, lang: string, safety: SafetyDecision, topK: int, allowGeneration: bool,
                   retriever: Retriever, llm: Llm, formatScore: ScoreFormat): Outcome
  {
    match safety.action
    case Refuse =>
      Outcome(Success(AgentResponse("refuse", RefusalAnswer(safety.reason), lang, [], RefusalHooks)),
              [Event("Generate_Response", [("mode", Str("refusal"))])], [], [])
    case Escalate =>
      Outcome(Success(AgentResponse("escalate", EscalationAnswer, lang, [], EscalationHooks)),
              [Event("Generate_Response", [("mode", Str("escalation"))])], [], [])
    case Allow =>
      AllowedSpec(userText, lang, topK, allowGeneration, retriever, llm, formatScore)
  }

  /** What handle_query does for user_text: the preamble, then the response to the safety decision. */
  function HandleSpec(userText: string, topK: int, allowGeneration: bool, detect: Detector,
                      retriever: Retriever, llm: Llm, formatScore: ScoreFormat): Outcome
  {
    var lang := detect(userText);
    var safety := Decision(userText);
    var rest := Respond(userText, lang, safety, topK, allowGeneration, retriever, llm, formatScore);
    Outcome(rest.result, Preamble(userText, lang, safety) + rest.events, rest.retrievals, rest.prompts)
  }

  /**
   * handle_query: detects the language and logs the request, takes the
   * safety decision and logs it, then refuses, escalates, or retrieves and
   * answers. An exception of the retriever or the language model propagates.
   */
  method HandleQuery(userText: string, log: EventLog, tools: Tools, detect: Detector, formatScore: ScoreFormat,
                     topK: int := HandleQueryTopK, allowGeneration: bool := false)
    returns (r: Result<AgentResponse, AgentError>)
    modifies log, tools
    ensures var spec := HandleSpec(userText, topK, allowGeneration, detect, tools.retriever, tools.llm, formatScore);
      && r == spec.result
      && log.events == old(log.events) + spec.events
      && tools.retrievals == old(tools.retrievals) + spec.retrievals
      && tools.prompts == old(tools.prompts) + spec.prompts
  {
    var lang := detect(userText);
    log.Log("Log_Interaction", [("user_text", Str(userText)), ("language", Str(lang))]);

    var safety := CheckSafety(userText);
    log.Log("Safety_Check", [("action", Str(safety.action.Name())), ("reason", Str(safety.reason))]);

    r := Answer(userText, lang, safety, log, tools, formatScore, topK, allowGeneration);
  }

  /** The part of handle_query that acts on the safety decision. */
  method Answer(userText: string, lang: string, safety: SafetyDecision, log: EventLog, tools: Tools,
                formatScore: ScoreFormat, topK: int, allowGeneration: bool)
    returns (r: Result<AgentResponse, AgentError>)
    modifies log, tools
    ensures var spec := Respond(userText, lang, safety, topK, allowGeneration, tools.retriever, tools.llm, formatScore);
      && r == spec.result
      && log.events == old(log.events) + spec.events
      && tools.retrievals == old(tools.retrievals) + spec.retrievals
      && tools.prompts == old(tools.prompts) + spec.prompts
  {
    if safety.action == Refuse {
      var answer := RefusalText + safety.reason;
      log.Log("Generate_Response", [("mode", Str("refusal"))]);
      return Success(AgentResponse("refuse", answer, lang, [], RefusalHooks));
    }

    if safety.action == Escalate {
      log.Log("Generate_Response", [("mode", Str("escalation"))]);
      return Success(AgentResponse("escalate", EscalationAnswer, lang, [], EscalationHooks));
    }

    r := RetrieveAndAnswer(userText, lang, log, tools, formatScore, topK, allowGeneration);
  }

  /** The part of handle_query after the safety check allowed the request. */
  method RetrieveAndAnswer(userText: string, lang: string, log: EventLog, tools: Tools, formatScore: ScoreFormat,
                           topK: int, allowGeneration: bool)
    returns (r: Result<AgentResponse, AgentError>)
    modifies log, tools
    ensures var spec := AllowedSpec(userText, lang, topK, allowGeneration, tools.retriever, tools.llm, formatScore);
      && r == spec.result
      && log.events == old(log.events) + spec.events
      && tools.retrievals == old(tools.retrievals) + spec.retrievals
      && tools.prompts == old(tools.prompts) + spec.prompts
  {
    log.Log("Tool_Select", [("selected", Str("retrieve")), ("top_k", Int(topK))]);
    var found := tools.Retrieve(userText, topK);
    if found.Failure? {
      return Failure(RetrievalFailed(found.error));
    }
    var retrieved := found.value;
    var sources := seq(|retrieved|, i requires 0 <= i < |retrieved| => retrieved[i].source);
    log.Log("Tool_Result", [
      ("selected", Str("retrieve")),
      ("retrieved_count", Int(|retrieved|)),
      ("retrieved_sources", Strs(sources))]);

    if !allowGeneration {
      var answer := ExtractiveAnswer(userText, retrieved);
      log.Log("Generate_Response", [("mode", Str("extractive"))]);
      return Success(AgentResponse("retrieve_document", answer, lang, retrieved, ExtractiveHooks));
    }

    var context := FormatContext(retrieved, formatScore);
    var prompt := Prompt(userText, context);
    var generated := tools.Generate(prompt);
    if generated.Failure? {
      return Failure(GenerationFailed(generated.error));
    }
    var llmResult := generated.value;
    log.Log("Generate_Response", [("mode", Str("ollama")), ("model", Str(llmResult.model))]);
    var text := Strip(llmResult.text);
    var answer := if text != [] then text else ExtractiveAnswer(userText, retrieved);
    return Success(AgentResponse("summarize_procedure", answer, lang, retrieved, LlmHooks(llmResult.model)));
  }

  // ---------------------------------------------------------------------------
  // Properties of handle_query

  function Names(events: seq<Event>): (names: seq<string>)
    ensures |names| == |events|
  {
    seq(|events|, i requires 0 <= i < |events| => events[i].name)
  }

  /**
   * Every call first logs the request with its detected language, then the
   * safety decision; every response carries that language.
   */
  lemma PreambleLogged(userText: string, topK: int, allowGeneration: bool, detect: Detector,
                       retriever: Retriever, llm: Llm, formatScore: ScoreFormat)
    ensures var o := HandleSpec(userText, topK, allowGeneration, detect, retriever, llm, formatScore);
      && |o.events| >= 3
      && o.events[0] == Event("Log_Interaction", [("user_text", Str(userText)), ("language", Str(detect(userText)))])
      && o.events[1] == Event("Safety_Check", [("action", Str(Decision(userText).action.Name())),
                                               ("reason", Str(Decision(userText).reason))])
      && (o.result.Success? ==> o.result.value.language == detect(userText))
  {
    var o := HandleSpec(userText, topK, allowGeneration, detect, retriever, llm, formatScore);
    var rest := Respond(userText, detect(userText), Decision(userText), topK, allowGeneration, retriever, llm, formatScore);
    RespondLogs(userText, detect(userText), Decision(userText), topK, allowGeneration, retriever, llm, formatScore);
    assert o.events == Preamble(userText, detect(userText), Decision(userText)) + rest.events;
  }

  /** Acting on a decision logs at least one event, and a response carries the language it was given. */
  lemma RespondLogs(userText: string, lang: string, safety: SafetyDecision, topK: int, allowGeneration: bool,
                    retriever: Retriever, llm: Llm, formatScore: ScoreFormat)
    ensures var o := Respond(userText, lang, safety, topK, allowGeneration, retriever, llm, formatScore);
      |o.events| >= 1 && (o.result.Success? ==> o.result.value.language == lang)
  {
  }

  /**
   * A refused request is answered with the refusal text ending in the
   * decision's reason; nothing is retrieved or generated, and one
   * Generate_Response event is logged.
   */
  lemma RefusePath(userText: string, lang: string, safety: SafetyDecision, topK: int, allowGeneration: bool,
                   retriever: Retriever, llm: Llm, formatScore: ScoreFormat)
    requires safety.action == Refuse
    ensures var o := Respond(userText, lang, safety, topK, allowGeneration, retriever, llm, formatScore);
      && o.result.Success?
      && o.result.value.action == "refuse"
      && o.result.value.retrieved == []
      && OccursAt(o.result.value.answer, safety.reason, |RefusalText|)
      && o.retrievals == [] && o.prompts == []
      && Names(o.events) == ["Generate_Response"]
      && Selected(o.result.value.evalHooks) == Some("none")
  {
    OccursItself(safety.reason);
    OccursInSuffix(RefusalText, safety.reason, safety.reason, 0);
  }

  /** An escalated request gets the fixed hand-over answer; nothing is retrieved or generated. */
  lemma EscalatePath(userText: string, lang: string, safety: SafetyDecision, topK: int, allowGeneration: bool,
                     retriever: Retriever, llm: Llm, formatScore: ScoreFormat)
    requires safety.action == Escalate
    ensures var o := Respond(userText, lang, safety, topK, allowGeneration, retriever, llm, formatScore);
      && o.result == Success(AgentResponse("escalate", EscalationAnswer, lang, [], EscalationHooks))
      && o.retrievals == [] && o.prompts == []
      && Names(o.events) == ["Generate_Response"]
      && Selected(o.result.value.evalHooks) == Some("human")
  {
  }

  /** A request with citizen-identifiable data never reaches the retriever or the language model. */
  lemma SensitiveQueryNeverRetrieved(userText: string, topK: int, allowGeneration: bool, detect: Detector,
                                     retriever: Retriever, llm: Llm, formatScore: ScoreFormat, p: Pattern)
    requires p in SensitivePatterns && Search(p, Strip(userText))
    ensures var o := HandleSpec(userText, topK, allowGeneration, detect, retriever, llm, formatScore);
      o.retrievals == [] && o.prompts == [] && o.result.Success? && o.result.value.action == "refuse"
  {
    RefuseIff(userText);
    RefusePath(userText, detect(userText), Decision(userText), topK, allowGeneration, retriever, llm, formatScore);
  }

  /** The CIN request of the evaluation script is refused without any retrieval. */
  lemma CinQueryNeverRetrieved(query: string, topK: int, allowGeneration: bool, detect: Detector,
                               retriever: Retriever, llm: Llm, formatScore: ScoreFormat)
    requires query == "Mon CIN est " + "01234567" + ", peux-tu v\U{E9}rifier mon statut ?"
    ensures var o := HandleSpec(query, topK, allowGeneration, detect, retriever, llm, formatScore);
      && o.retrievals == [] && o.prompts == []
      && o.result == Success(AgentResponse("refuse", RefusalAnswer(RefuseReason(CinLike)), detect(query), [], RefusalHooks))
  {
    RefusesCinQuery(query);
  }

  /**
   * An allowed request is retrieved exactly once with user_text and top_k;
   * when it is answered, three events follow the preamble, in order, and a
   * failed retrieval stops after Tool_Select with the retriever's error.
   */
  lemma AllowEventOrder(userText: string, lang: string, safety: SafetyDecision, topK: int, allowGeneration: bool,
                        retriever: Retriever, llm: Llm, formatScore: ScoreFormat)
    requires safety.action == Allow
    ensures var o := Respond(userText, lang, safety, topK, allowGeneration, retriever, llm, formatScore);
      && o.retrievals == [(userText, topK)]
      && (o.result.Success? ==> Names(o.events) == ["Tool_Select", "Tool_Result", "Generate_Response"])
      && (retriever(userText, topK).Failure? ==>
            && o.result == Failure(RetrievalFailed(retriever(userText, topK).error))
            && Names(o.events) == ["Tool_Select"])
  {
  }

  /** The Tool_Result event reports how many results were retrieved and their sources, in order. */
  lemma ToolResultReportsRetrieval(userText: string, lang: string, safety: SafetyDecision, topK: int,
                                   allowGeneration: bool, retriever: Retriever, llm: Llm, formatScore: ScoreFormat)
    requires safety.action == Allow && retriever(userText, topK).Success?
    ensures var o := Respond(userText, lang, safety, topK, allowGeneration, retriever, llm, formatScore);
      var rs := retriever(userText, topK).value;
      && |o.events| >= 2
      && o.events[1].name == "Tool_Result"
      && Lookup(o.events[1].payload, "retrieved_count") == Some(Int(|rs|))
      && Lookup(o.events[1].payload, "retrieved_sources").Some?
      && var sources := Lookup(o.events[1].payload, "retrieved_sources").value;
      && sources.Strs?
      && |sources.ss| == |rs|
      && forall i :: 0 <= i < |rs| ==> sources.ss[i] == rs[i].source
  {
    var rs := retriever(userText, topK).value;
    var o := Respond(userText, lang, safety, topK, allowGeneration, retriever, llm, formatScore);
    assert o.events[1] == ToolResultEvent(rs);
    ToolResultFields(rs);
  }

  /** The count and the sources stored in a Tool_Result event. */
  lemma ToolResultFields(rs: seq<Retrieved>)
    ensures var payload := ToolResultEvent(rs).payload;
      && Lookup(payload, "retrieved_count") == Some(Int(|rs|))
      && Lookup(payload, "retrieved_sources") == Some(Strs(seq(|rs|, i requires 0 <= i < |rs| => rs[i].source)))
  {
    var payload := ToolResultEvent(rs).payload;
    assert payload[0].0 == "selected";
    assert payload[1..][0].0 == "retrieved_count";
    assert payload[1..][1..][0].0 == "retrieved_sources";
    assert "selected" != "retrieved_count" && "selected" != "retrieved_sources";
    assert "retrieved_count" != "retrieved_sources";
    assert Lookup(payload, "retrieved_sources") == Lookup(payload[1..], "retrieved_sources");
    assert Lookup(payload[1..], "retrieved_sources") == Lookup(payload[1..][1..], "retrieved_sources");
  }

  /**
   * Without generation the response holds exactly what the retriever returned,
   * and its answer quotes the top passage and cites every source.
   */
  lemma ExtractivePath(userText: string, lang: string, safety: SafetyDecision, topK: int,
                       retriever: Retriever, llm: Llm, formatScore: ScoreFormat)
    requires safety.action == Allow && retriever(userText, topK).Success?
    ensures var o := Respond(userText, lang, safety, topK, false, retriever, llm, formatScore);
      var rs := retriever(userText, topK).value;
      && o.result.Success?
      && o.result.value.action == "retrieve_document"
      && o.result.value.retrieved == rs
      && o.result.value.answer == ExtractiveAnswer(userText, rs)
      && (rs == [] ==> o.result.value.answer == NoDocumentAnswer)
      && (rs != [] ==> OccursAt(o.result.value.answer, rs[0].text, |ExtractiveHeader|))
      && (forall i :: 0 <= i < |rs| ==> Contains(o.result.value.answer, rs[i].source))
      && o.prompts == []
      && Selected(o.result.value.evalHooks) == Some("retrieve")
  {
    var rs := retriever(userText, topK).value;
    var answer := ExtractiveAnswer(userText, rs);
    forall i | 0 <= i < |rs| ensures Contains(answer, rs[i].source) {
      var k := ExtractiveAnswerCites(userText, rs, i);
      assert OccursAt(answer, rs[i].source, k + 2);
    }
    if rs != [] {
      var k := ExtractiveAnswerCites(userText, rs, 0);
    }
  }

  /**
   * With generation the model is prompted once, with a prompt carrying
   * user_text and every retrieved passage; the answer is its stripped text,
   * or the extractive answer when that is empty.
   */
  lemma GenerativePath(userText: string, lang: string, safety: SafetyDecision, topK: int,
                       retriever: Retriever, llm: Llm, formatScore: ScoreFormat)
    requires safety.action == Allow && retriever(userText, topK).Success?
    ensures var o := Respond(userText, lang, safety, topK, true, retriever, llm, formatScore);
      var rs := retriever(userText, topK).value;
      var prompt := Prompt(userText, FormatContext(rs, formatScore));
      && o.prompts == [prompt]
      && Contains(prompt, userText)
      && (forall i :: 0 <= i < |rs| ==> Contains(prompt, rs[i].text))
      && (llm(prompt).Failure? ==> o.result == Failure(GenerationFailed(llm(prompt).error)))
      && (llm(prompt).Success? ==>
            && o.result.Success?
            && o.result.value.action == "summarize_procedure"
            && o.result.value.retrieved == rs
            && o.result.value.answer
               == (if Strip(llm(prompt).value.text) != [] then Strip(llm(prompt).value.text) else ExtractiveAnswer(userText, rs))
            && Selected(o.result.value.evalHooks) == Some("retrieve+generate"))
  {
    var rs := retriever(userText, topK).value;
    var ctx := FormatContext(rs, formatScore);
    var prompt := Prompt(userText, ctx);
    forall i | 0 <= i < |rs| ensures Contains(prompt, rs[i].text) {
      var k := PromptIsGrounded(userText, rs, formatScore, i);
      assert OccursAt(prompt, rs[i].text, k);
    }
    OccursItself(ctx);
    OccursInFive(PromptIntro + "User: ", userText, "\n\nContext:\n", ctx, "\n\nAnswer:", ctx, 0);
    assert OccursAt(prompt, userText, |PromptIntro + "User: "|);
  }

  /** Every response handle_query returns has a non-empty answer. */
  lemma AnswerNeverEmpty(userText: string, lang: string, safety: SafetyDecision, topK: int, allowGeneration: bool,
                         retriever: Retriever, llm: Llm, formatScore: ScoreFormat)
    ensures var o := Respond(userText, lang, safety, topK, allowGeneration, retriever, llm, formatScore);
      o.result.Success? ==> o.result.value.answer != []
  {
    assert |RefusalText| > 0 && |EscalationAnswer| > 0 && |NoDocumentAnswer| > 0 && |ExtractiveHeader| > 0;
  }
}
