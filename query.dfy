/** `query_index` (pdf_handler.py): load the index, retrieve, gate, and
    call the model only past the gate. Retrieval and the vector index are
    given as values. */
module Query {
  import opened Wrappers
  import opened PyStrings
  import opened EvidenceGate
  import opened OpenRouter

  /** What retrieval produced: scored hits, or, when scoring raised, the
      documents of the MMR retriever without scores. */
  datatype Retrieval = Scored(hits: seq<Hit>) | Unscored(docs: seq<string>)

  datatype Index = NoIndex | Loaded(retrieval: Retrieval)

  /** The plain reply, or with `announce` the pair (banner, reply). */
  datatype Answer = Plain(text: string) | Announced(banner: string, text: string)

  const NO_INDEX: string := "❌ База знаний не найдена. Пожалуйста, загрузите документ."
  const SEARCHING: string := "🔍 Ищу ответ..."

  /** The model client's environment: the API key, the model list and what
      the network answers to the request for each model. */
  datatype Llm = Llm(apiKey: Option<string>, models: seq<string>, outcomes: seq<HttpOutcome>)

  /** The gate applied on either retrieval path. */
  function GateDecision(r: Retrieval, question: string, cfg: GateConfig): Decision {
    match r
    case Scored(hits) => Decide(question, hits, cfg.minContextChars, cfg.maxL2Distance)
    case Unscored(docs) => DecideFallback(docs, cfg.minContextChars)
  }

  /** The two messages of a question from documents: the system prompt,
      then the strict prompt, whose context comes before the question. */
  function RagMessages(systemPrompt: string, context: string, question: string): (ms: seq<Message>)
    ensures |ms| == 2
    ensures ms[0].role == "system" && ms[0].content == systemPrompt
    ensures ms[1].role == "user" && ms[1].content == BuildStrictPrompt(context, question)
    ensures ContainsAt(ms[1].content, PROMPT_HEAD, 0)
    ensures ContainsAt(ms[1].content, context, |PROMPT_HEAD|)
    ensures ContainsAt(ms[1].content, question, |PROMPT_HEAD| + |context| + |PROMPT_QUESTION|)
    ensures EndsWith(ms[1].content, PROMPT_TAIL)
  {
    [Message("system", systemPrompt), Message("user", BuildStrictPrompt(context, question))]
  }

  /** `query_index(question, announce)`. */
  method QueryIndex(index: Index, question: string, cfg: GateConfig, llm: Llm, announce: bool)
    returns (answer: Answer, requests: seq<Request>)
    requires |llm.outcomes| == |llm.models|
    ensures index.NoIndex? ==> answer == Plain(NO_INDEX) && requests == []
    ensures index.Loaded? ==> (answer.Announced? <==> announce)
    ensures answer.Announced? ==> answer.banner == SEARCHING
    ensures index.Loaded? && GateDecision(index.retrieval, question, cfg).Refuse? ==>
      answer.text == cfg.refusalText && requests == []
    ensures index.Loaded? && GateDecision(index.retrieval, question, cfg).Accept? ==>
      var messages := RagMessages(cfg.systemPrompt, GateDecision(index.retrieval, question, cfg).context, question);
      && answer.text == Reply(llm.apiKey, llm.models, llm.outcomes)
      && requests == (if HasKey(llm.apiKey)
                      then RequestsFor(llm.models, Attempts(llm.outcomes), messages, RAG_TEMPERATURE, None)
                      else [])
  {
    if index.NoIndex? {
      return Plain(NO_INDEX), [];
    }
    var decision := GateDecision(index.retrieval, question, cfg);
    var text;
    if decision.Refuse? {
      text := cfg.refusalText;
      requests := [];
    } else {
      var messages := RagMessages(cfg.systemPrompt, decision.context, question);
      text, requests := CallOpenRouter(llm.apiKey, llm.models, llm.outcomes, messages, RAG_TEMPERATURE, None);
    }
    answer := if announce then Announced(SEARCHING, text) else Plain(text);
  }

  /** A scored retrieval with no hits is refused before any request. */
  lemma NoHitsNoRequest(question: string, cfg: GateConfig)
    ensures GateDecision(Scored([]), question, cfg) == Refuse
  {
  }

  /** At the default settings a question is answered from documents only
      when the joined context has at least 300 characters and, for scored
      retrieval, some hit lies within L2 distance 1.1. */
  lemma DefaultGateAccepts(r: Retrieval, question: string)
    ensures GateDecision(r, question, DEFAULT_GATE).Accept? ==>
      |GateDecision(r, question, DEFAULT_GATE).context| >= 300
    ensures r.Scored? && GateDecision(r, question, DEFAULT_GATE).Accept? ==>
      SomeHitWithin(r.hits, 1.1)
  {
    if r.Scored? {
      DecideAccepts(question, r.hits, 300, 1.1);
    }
  }

  /** Every request sent for an accepted question carries exactly the
      system prompt and the strict prompt, whose context precedes the
      question, at temperature 0.3 and without a token limit. */
  lemma AcceptedRequestsShape(models: seq<string>, n: nat, cfg: GateConfig, context: string, question: string)
    requires n <= |models|
    ensures forall r :: r in RequestsFor(models, n, RagMessages(cfg.systemPrompt, context, question), RAG_TEMPERATURE, None) ==>
      && r.temperature == 0.3
      && r.maxTokens.None?
      && r.messages == [Message("system", cfg.systemPrompt), Message("user", BuildStrictPrompt(context, question))]
      && ContainsAt(r.messages[1].content, context, |PROMPT_HEAD|)
      && ContainsAt(r.messages[1].content, question, |PROMPT_HEAD| + |context| + |PROMPT_QUESTION|)
  {
  }
}
