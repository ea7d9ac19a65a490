/** The retrieval-confidence gate of `query_index` (pdf_handler.py): given
    the question and the retrieved `(chunk, distance)` hits it either
    refuses with a fixed text or builds the strict prompt for the model.
    Distances are compared only, so they are `real`. */
module EvidenceGate {
  import opened PyStrings

  // ---------------------------------------------------------------------
  // `_normalize_ru`
  // ---------------------------------------------------------------------

  /** The characters `_normalize_ru` turns into spaces, as written: the en
      dash appears twice and the em dash not at all. */
  const PUNCT: string := ",.;:!?()[]{}\"'«»––-"

  /** `s.replace(ch, " ")` for a single character `ch`. */
  function ReplaceChar(s: string, ch: char): (r: string)
    ensures |r| == |s|
    ensures forall k :: 0 <= k < |s| ==> r[k] == if s[k] == ch then ' ' else s[k]
  {
    seq(|s|, k requires 0 <= k < |s| => if s[k] == ch then ' ' else s[k])
  }

  /** Every character of `PUNCT` in `s` replaced by a space. */
  function Unpunct(s: string): (r: string)
    ensures |r| == |s|
    ensures forall k :: 0 <= k < |s| ==> r[k] == if s[k] in PUNCT then ' ' else s[k]
  {
    seq(|s|, k requires 0 <= k < |s| => if s[k] in PUNCT then ' ' else s[k])
  }

  /** What `_normalize_ru(s)` returns. */
  function Normalized(s: string): string {
    JoinWith(" ", Words(Unpunct(Lower(s))))
  }

  /** `_normalize_ru`: lower-case, replace each punctuation character in
      turn by a space, then collapse whitespace. */
  method NormalizeRu(s: string) returns (r: string)
    ensures r == Normalized(s)
  {
    var low := Lower(s);
    var t := low;
    var i := 0;
    while i < |PUNCT|
      invariant 0 <= i <= |PUNCT|
      invariant |t| == |low|
      invariant forall k :: 0 <= k < |t| ==> t[k] == if low[k] in PUNCT[..i] then ' ' else low[k]
    {
      assert PUNCT[..i + 1] == PUNCT[..i] + [PUNCT[i]];
      t := ReplaceChar(t, PUNCT[i]);
      i := i + 1;
    }
    assert PUNCT[..i] == PUNCT;
    assert t == Unpunct(low);
    r := JoinWith(" ", Words(t));
  }

  /** Not an upper-case letter of the alphabets `Lower` folds. */
  predicate IsLowered(c: char) {
    !('A' <= c <= 'Z') && !('\U{400}' <= c <= '\U{42F}')
  }

  predicate Clean(c: char) {
    c !in PUNCT && IsLowered(c)
  }

  lemma UnpunctLowerIsClean(s: string)
    ensures AllChars(Unpunct(Lower(s)), Clean)
  {
  }

  /** The normalised text holds no listed punctuation and no capital, and
      its words are separated by single spaces with none at either end. */
  lemma NormalizedShape(s: string)
    ensures forall k :: 0 <= k < |Normalized(s)| ==> Normalized(s)[k] !in PUNCT
    ensures forall k :: 0 <= k < |Normalized(s)| ==> IsLowered(Normalized(s)[k])
    ensures SingleSpaced(Normalized(s))
  {
    var u := Unpunct(Lower(s));
    UnpunctLowerIsClean(s);
    WordsKeep(u, Clean);
    JoinKeep(" ", Words(u), Clean);
    WordsAreWords(u);
    JoinWordsSingleSpaced(Words(u));
    var r := Normalized(s);
    assert forall k :: 0 <= k < |r| ==> Clean(r[k]);
  }

  /** Normalising a normalised text changes nothing. */
  lemma NormalizedIdempotent(s: string)
    ensures Normalized(Normalized(s)) == Normalized(s)
  {
    var r := Normalized(s);
    NormalizedShape(s);
    assert Lower(r) == r;
    assert Unpunct(r) == r;
    JoinWordsOfSingleSpaced(r);
  }

  // ---------------------------------------------------------------------
  // `_has_overlap`
  // ---------------------------------------------------------------------

  const STOP_WORDS: set<string> :=
    {"что", "как", "почему", "зачем", "где", "когда", "для", "в", "на", "и", "или", "это", "такие"}

  /** A question word that takes part in the overlap test. */
  predicate Qualifies(w: string) {
    |w| >= 5 && w !in STOP_WORDS
  }

  /** The distinct qualifying words of the normalised question that occur
      in the normalised context. */
  function MatchedTokens(question: string, context: string): (m: set<string>)
    ensures forall w :: w in m ==> w in Words(Normalized(question))
    ensures forall w :: w in m ==> Qualifies(w) && Contains(Normalized(context), w)
    ensures forall w :: w in Words(Normalized(question)) && Qualifies(w) && Contains(Normalized(context), w) ==> w in m
  {
    var c := Normalized(context);
    set w | w in Words(Normalized(question)) && Qualifies(w) && Contains(c, w)
  }

  /** `_has_overlap(question, context, min_hits)`. */
  function HasOverlap(question: string, context: string, minHits: int): (b: bool)
    ensures minHits <= 0 ==> b
  {
    |MatchedTokens(question, context)| >= minHits
  }

  /** With one hit required, the test passes exactly when some qualifying
      question word occurs in the context. */
  lemma OverlapOfOne(question: string, context: string)
    ensures HasOverlap(question, context, 1) <==>
      exists w :: w in Words(Normalized(question)) && Qualifies(w) && Contains(Normalized(context), w)
  {
    var m := MatchedTokens(question, context);
    if |m| >= 1 {
      var w :| w in m;
    }
    if exists w :: w in Words(Normalized(question)) && Qualifies(w) && Contains(Normalized(context), w) {
      var w :| w in Words(Normalized(question)) && Qualifies(w) && Contains(Normalized(context), w);
      assert w in m;
    }
  }

  /** The qualifying words of the normalised question: the most the overlap
      test can ever count. */
  function QuestionTerms(question: string): set<string> {
    set w | w in Words(Normalized(question)) && Qualifies(w)
  }

  /** The test never counts more tokens than the question has qualifying
      words, so asking for more hits than that always fails. */
  lemma OverlapBound(question: string, context: string, minHits: int)
    ensures |MatchedTokens(question, context)| <= |QuestionTerms(question)|
    ensures minHits > |QuestionTerms(question)| ==> !HasOverlap(question, context, minHits)
  {
    SubsetCard(MatchedTokens(question, context), QuestionTerms(question));
  }

  /** A subset has no more elements than its superset. */
  lemma {:induction false} SubsetCard(a: set<string>, b: set<string>)
    requires a <= b
    ensures |a| <= |b|
    decreases |a|
  {
    if a != {} {
      var x :| x in a;
      SubsetCard(a - {x}, b - {x});
    }
  }

  /** The test normalises both texts itself, so normalising them first
      changes nothing. */
  lemma OverlapOfNormalForm(question: string, context: string, minHits: int)
    ensures MatchedTokens(Normalized(question), Normalized(context)) == MatchedTokens(question, context)
    ensures HasOverlap(Normalized(question), Normalized(context), minHits) == HasOverlap(question, context, minHits)
  {
    NormalizedIdempotent(question);
    NormalizedIdempotent(context);
  }

  // ---------------------------------------------------------------------
  // The gate of `query_index`
  // ---------------------------------------------------------------------

  /** A retrieved chunk and its L2 distance to the question (smaller is
      closer). */
  datatype Hit = Hit(chunk: string, distance: real)

  function Chunks(hits: seq<Hit>): (cs: seq<string>)
    ensures |cs| == |hits|
    ensures forall i :: 0 <= i < |hits| ==> cs[i] == hits[i].chunk
  {
    seq(|hits|, i requires 0 <= i < |hits| => hits[i].chunk)
  }

  function StripAll(xs: seq<string>): (r: seq<string>)
    ensures |r| == |xs|
    ensures forall i :: 0 <= i < |xs| ==> r[i] == Strip(xs[i])
  {
    seq(|xs|, i requires 0 <= i < |xs| => Strip(xs[i]))
  }

  /** `"\n".join(chunk.strip() for chunk in chunks).strip()`. */
  function JoinedContext(chunks: seq<string>): string {
    Strip(JoinWith("\n", StripAll(chunks)))
  }

  lemma {:induction false} NonSpaceAllStripped(xs: seq<string>)
    ensures NonSpaceAll(StripAll(xs)) == NonSpaceAll(xs)
  {
    if xs != [] {
      StripKeepsText(xs[0]);
      NonSpaceAllStripped(xs[1..]);
      assert StripAll(xs)[1..] == StripAll(xs[1..]);
    }
  }

  /** The context holds the visible text of every chunk, in retrieval
      order, and nothing else. */
  lemma JoinedContextKeepsChunks(chunks: seq<string>)
    ensures NonSpace(JoinedContext(chunks)) == NonSpaceAll(chunks)
  {
    var joined := JoinWith("\n", StripAll(chunks));
    StripKeepsText(joined);
    assert NonSpace("\n") == [];
    NonSpaceJoin("\n", StripAll(chunks));
    NonSpaceAllStripped(chunks);
  }

  function Context(hits: seq<Hit>): string {
    JoinedContext(Chunks(hits))
  }

  /** `min(scores)`: the best (smallest) distance. */
  function MinDistance(hits: seq<Hit>): (d: real)
    requires hits != []
    ensures forall i :: 0 <= i < |hits| ==> d <= hits[i].distance
    ensures exists i :: 0 <= i < |hits| && d == hits[i].distance
  {
    if |hits| == 1 then hits[0].distance
    else
      var rest := MinDistance(hits[1..]);
      assert forall i :: 1 <= i < |hits| ==> hits[i] == hits[1..][i - 1];
      if hits[0].distance <= rest then hits[0].distance else rest
  }

  /** `min_hits`: questions shorter than 35 characters once stripped skip
      the overlap test. */
  function MinHits(question: string): (n: int)
    ensures n == 0 || n == 1
    ensures n == 0 <==> |Strip(question)| < 35
  {
    if |Strip(question)| < 35 then 0 else 1
  }

  datatype Decision = Refuse | Accept(context: string)

  /** The gate, check by check: no hits, too short a context, best
      distance above the bound, failed overlap; otherwise the context goes
      to the model. */
  function Decide(question: string, hits: seq<Hit>, minChars: int, maxDist: real): (d: Decision)
    ensures hits == [] ==> d == Refuse
    ensures d.Accept? ==> d.context == Context(hits) && |d.context| >= minChars
  {
    if hits == [] then Refuse
    else
      var context := Context(hits);
      if |context| < minChars || MinDistance(hits) > maxDist then Refuse
      else if !HasOverlap(question, context, MinHits(question)) then Refuse
      else Accept(context)
  }

  /** Some hit lies within the distance bound. */
  predicate SomeHitWithin(hits: seq<Hit>, maxDist: real) {
    exists i :: 0 <= i < |hits| && hits[i].distance <= maxDist
  }

  /** The gate accepts exactly when there are hits, the context is long
      enough, at least one hit is within the bound (a best distance equal to
      the bound passes) and the overlap test passes. */
  lemma DecideAccepts(question: string, hits: seq<Hit>, minChars: int, maxDist: real)
    ensures Decide(question, hits, minChars, maxDist).Accept? <==>
      && hits != []
      && |Context(hits)| >= minChars
      && SomeHitWithin(hits, maxDist)
      && HasOverlap(question, Context(hits), MinHits(question))
  {
    if hits != [] {
      var best := MinDistance(hits);
      if SomeHitWithin(hits, maxDist) {
        var i :| 0 <= i < |hits| && hits[i].distance <= maxDist;
        assert best <= hits[i].distance;
      }
    }
  }

  /** A question shorter than 35 characters is never refused for lack of
      overlap. */
  lemma ShortQuestionSkipsOverlap(question: string, hits: seq<Hit>, minChars: int, maxDist: real)
    requires |Strip(question)| < 35
    ensures Decide(question, hits, minChars, maxDist).Accept? <==>
      hits != [] && |Context(hits)| >= minChars && SomeHitWithin(hits, maxDist)
  {
    DecideAccepts(question, hits, minChars, maxDist);
  }

  /** A longer question is accepted only if one of its qualifying words
      occurs in the context. */
  lemma LongQuestionNeedsSharedWord(question: string, hits: seq<Hit>, minChars: int, maxDist: real)
    requires |Strip(question)| >= 35
    requires Decide(question, hits, minChars, maxDist).Accept?
    ensures exists w ::
      w in Words(Normalized(question)) && Qualifies(w) && Contains(Normalized(Context(hits)), w)
  {
    OverlapOfOne(question, Context(hits));
  }

  /** Loosening either bound never turns an acceptance into a refusal. */
  lemma DecideMonotone(question: string, hits: seq<Hit>, minChars: int, maxDist: real,
                       minChars': int, maxDist': real)
    requires minChars' <= minChars && maxDist <= maxDist'
    requires Decide(question, hits, minChars, maxDist).Accept?
    ensures Decide(question, hits, minChars', maxDist') == Decide(question, hits, minChars, maxDist)
  {
  }

  /** The gate of the fallback path (retrieval without scores): only the
      context length is checked. */
  function DecideFallback(chunks: seq<string>, minChars: int): (d: Decision)
    ensures d.Accept? <==> |JoinedContext(chunks)| >= minChars
    ensures d.Accept? ==> d.context == JoinedContext(chunks)
  {
    var context := JoinedContext(chunks);
    if |context| < minChars then Refuse else Accept(context)
  }

  /** Whatever the scored gate accepts, the fallback gate accepts too, with
      the same context. */
  lemma FallbackAcceptsWhatGateAccepts(question: string, hits: seq<Hit>, minChars: int, maxDist: real)
    requires Decide(question, hits, minChars, maxDist).Accept?
    ensures DecideFallback(Chunks(hits), minChars) == Decide(question, hits, minChars, maxDist)
  {
  }

  /** The context the fallback path accepts holds the visible text of all
      the retrieved documents, in retrieval order. */
  lemma FallbackContextKeepsDocs(chunks: seq<string>, minChars: int)
    ensures DecideFallback(chunks, minChars).Accept? ==>
      NonSpace(DecideFallback(chunks, minChars).context) == NonSpaceAll(chunks)
  {
    JoinedContextKeepsChunks(chunks);
  }

  /** The context the scored gate accepts holds the visible text of all the
      hits' chunks, in retrieval order. */
  lemma AcceptedContextKeepsHits(question: string, hits: seq<Hit>, minChars: int, maxDist: real)
    ensures Decide(question, hits, minChars, maxDist).Accept? ==>
      NonSpace(Decide(question, hits, minChars, maxDist).context) == NonSpaceAll(Chunks(hits))
  {
    JoinedContextKeepsChunks(Chunks(hits));
  }

  // ---------------------------------------------------------------------
  // `_build_strict_rag_prompt`
  // ---------------------------------------------------------------------

  const PROMPT_HEAD: string := "Контекст (выдержки из документов):\n"
  const PROMPT_QUESTION: string := "\n---\nВопрос: "
  const PROMPT_TAIL: string :=
    "\n\nОтветь ТОЛЬКО тем, что явно есть в контексте.\n"
    + "Формат ответа (строго):\n"
    + "Пункт: <краткий ответ>. Цитата: \"<дословная фраза из контекста>\"\n"
    + "Если не можешь дать цитату – ответь: \"В документах это не найдено.\"\n"
    + "Ответ:"

  /** `_build_strict_rag_prompt`: the prompt opens with the header, then
      the context, then the question, and closes with the answer
      instructions. */
  function BuildStrictPrompt(context: string, question: string): (p: string)
    ensures |p| == |PROMPT_HEAD| + |context| + |PROMPT_QUESTION| + |question| + |PROMPT_TAIL|
    ensures ContainsAt(p, PROMPT_HEAD, 0)
    ensures ContainsAt(p, context, |PROMPT_HEAD|)
    ensures ContainsAt(p, PROMPT_QUESTION, |PROMPT_HEAD| + |context|)
    ensures ContainsAt(p, question, |PROMPT_HEAD| + |context| + |PROMPT_QUESTION|)
    ensures EndsWith(p, PROMPT_TAIL)
  {
    var p := PROMPT_HEAD + context + PROMPT_QUESTION + question + PROMPT_TAIL;
    var i := |PROMPT_HEAD|;
    var j := i + |context| + |PROMPT_QUESTION|;
    assert p[..i] == PROMPT_HEAD;
    assert p[i..i + |context|] == context;
    assert p[i + |context|..j] == PROMPT_QUESTION;
    assert p[j..j + |question|] == question;
    assert p[|p| - |PROMPT_TAIL|..] == PROMPT_TAIL;
    p
  }

  // ---------------------------------------------------------------------
  // Settings and the messages sent to the model
  // ---------------------------------------------------------------------

  const REFUSAL_TEXT: string :=
    "В текущей базе документов нет информации для ответа на этот вопрос.\n"
    + "Я отвечаю только на основе загруженных материалов. "
    + "Уточните запрос или загрузите другой документ."

  const DEFAULT_SYSTEM_PROMPT: string :=
    "Ты – ассистент для ответов по документам. "
    + "Отвечай ТОЛЬКО фактами из предоставленного контекста. "
    + "НЕ добавляй выводы, обобщения и интерпретации. "
    + "НЕ используй фразы 'на основе контекста', 'можно выделить', 'вероятно', 'скорее всего'. "
    + "Если в контексте нет прямого ответа – скажи: 'В документах это не найдено'. "
    + "Формат: 2–6 коротких пунктов или 2–4 предложения. Без лишнего."

  /** The gate's settings; each can be overridden from the environment. */
  datatype GateConfig = GateConfig(
    minContextChars: int,   // RAG_MIN_CONTEXT_CHARS
    maxL2Distance: real,    // RAG_MAX_L2_DISTANCE
    refusalText: string,    // RAG_REFUSAL_TEXT
    systemPrompt: string)   // SYSTEM_PROMPT

  const DEFAULT_GATE: GateConfig := GateConfig(300, 1.1, REFUSAL_TEXT, DEFAULT_SYSTEM_PROMPT)

  /** The sampling temperature of answers from documents. */
  const RAG_TEMPERATURE: real := 0.3
}
