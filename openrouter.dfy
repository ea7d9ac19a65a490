/** The model client of pdf_handler.py: the model list read from
    `OPENROUTER_MODELS` and the failover loop of `call_openrouter`. The
    network is abstracted: `outcomes[i]` is what posting the request for
    `models[i]` yields, should that request be sent. */
module OpenRouter {
  import opened Wrappers
  import opened PyStrings

  // ---------------------------------------------------------------------
  // `_models_from_env`
  // ---------------------------------------------------------------------

  const DEFAULT_MODELS: seq<string> := ["deepseek/deepseek-chat-v3-0324", "deepseek/deepseek-chat"]

  /** `[m.strip() for m in pieces if m.strip()]`. */
  function Entries(pieces: seq<string>): (r: seq<string>)
    ensures |r| <= |pieces|
  {
    if pieces == [] then []
    else
      var m := Strip(pieces[0]);
      if m == [] then Entries(pieces[1..]) else [m] + Entries(pieces[1..])
  }

  /** A piece's entry: its stripped text, or nothing when that is empty. */
  function EntryOf(piece: string): seq<string> {
    if Strip(piece) == [] then [] else [Strip(piece)]
  }

  /** The entries of more pieces are those of the earlier pieces followed
      by the new piece's own: order is kept and only blank pieces vanish. */
  lemma {:induction false} EntriesSnoc(pieces: seq<string>, p: string)
    ensures Entries(pieces + [p]) == Entries(pieces) + EntryOf(p)
  {
    if pieces == [] {
      assert pieces + [p] == [p];
      assert [p][1..] == [];
    } else {
      assert (pieces + [p])[0] == pieces[0];
      assert (pieces + [p])[1..] == pieces[1..] + [p];
      EntriesSnoc(pieces[1..], p);
    }
  }

  /** An id is an entry exactly when it is the non-empty stripped text of
      some piece. */
  lemma {:induction false} EntriesMembers(pieces: seq<string>, m: string)
    ensures m in Entries(pieces) <==> m != [] && exists i :: 0 <= i < |pieces| && Strip(pieces[i]) == m
  {
    if pieces != [] {
      EntriesMembers(pieces[1..], m);
      if exists i :: 0 <= i < |pieces| && Strip(pieces[i]) == m {
        var i :| 0 <= i < |pieces| && Strip(pieces[i]) == m;
        if i > 0 {
          assert pieces[1..][i - 1] == pieces[i];
        }
      }
      if exists i :: 0 <= i < |pieces[1..]| && Strip(pieces[1..][i]) == m {
        var i :| 0 <= i < |pieces[1..]| && Strip(pieces[1..][i]) == m;
        assert pieces[i + 1] == pieces[1..][i];
      }
    }
  }

  /** `_models_from_env()` given the variable's value (`None` when unset). */
  function ModelsFromEnv(raw: Option<string>): (ms: seq<string>)
    ensures Strip(raw.GetOr("")) == [] ==> ms == DEFAULT_MODELS
  {
    var r := Strip(raw.GetOr(""));
    if r == [] then DEFAULT_MODELS else Entries(SplitOn(r, ","))
  }

  /** A usable model id: not empty, no surrounding whitespace, no comma. */
  predicate CleanId(m: string) {
    m != [] && Strip(m) == m && ',' !in m
  }

  lemma StripOfTrimmed(s: string)
    requires s != [] && !IsSpace(s[0]) && !IsSpace(s[|s| - 1])
    ensures Strip(s) == s
  {
  }

  lemma StripIdempotent(s: string)
    ensures Strip(Strip(s)) == Strip(s)
  {
    StripKeepsText(s);
    if Strip(s) != [] {
      StripOfTrimmed(Strip(s));
    }
  }

  /** `strip()` keeps a slice of its input, so it adds no character. */
  lemma StripAddsNothing(s: string, c: char)
    requires c in Strip(s)
    ensures c in s
  {
    var t := TrimStart(s);
    TrimStartDropsSpaces(s);
    TrimEndDropsSpaces(t);
    var k :| 0 <= k < |Strip(s)| && Strip(s)[k] == c;
    assert t[k] == c;
    assert s[|s| - |t| + k] == c;
  }

  lemma {:induction false} SplitPiecesFree(s: string, d: char)
    ensures forall i :: 0 <= i < |SplitOn(s, [d])| ==> d !in SplitOn(s, [d])[i]
    decreases |s|
  {
    var r := SplitOn(s, [d]);
    if |s| < 1 {
    } else if s[..1] == [d] {
      SplitAtSep(s, [d]);
      SplitPiecesFree(s[1..], d);
      assert forall i :: 1 <= i < |r| ==> r[i] == SplitOn(s[1..], [d])[i - 1];
    } else {
      SplitPastChar(s, [d]);
      SplitPiecesFree(s[1..], d);
      var rest := SplitOn(s[1..], [d]);
      assert s[0] != d by { assert s[..1] == [s[0]]; }
      assert r[0] == [s[0]] + rest[0];
      assert forall i :: 1 <= i < |r| ==> r[i] == rest[i];
    }
  }

  predicate AllClean(ms: seq<string>) {
    forall i :: 0 <= i < |ms| ==> CleanId(ms[i])
  }

  lemma AllCleanCons(m: string, ms: seq<string>)
    requires CleanId(m) && AllClean(ms)
    ensures AllClean([m] + ms)
  {
    var all := [m] + ms;
    forall i | 0 <= i < |all| ensures CleanId(all[i]) {
      if i > 0 {
        assert all[i] == ms[i - 1];
      }
    }
  }

  lemma StripClean(p: string)
    requires ',' !in p && Strip(p) != []
    ensures CleanId(Strip(p))
  {
    StripIdempotent(p);
    if ',' in Strip(p) {
      StripAddsNothing(p, ',');
    }
  }

  lemma {:induction false} EntriesClean(pieces: seq<string>)
    requires forall i :: 0 <= i < |pieces| ==> ',' !in pieces[i]
    ensures AllClean(Entries(pieces))
  {
    if pieces != [] {
      EntriesClean(pieces[1..]);
      var m := Strip(pieces[0]);
      if m != [] {
        StripClean(pieces[0]);
        AllCleanCons(m, Entries(pieces[1..]));
      }
    }
  }

  /** Every model id the variable yields is non-empty, trimmed and free
      of commas. */
  lemma ModelsAreClean(raw: Option<string>)
    ensures AllClean(ModelsFromEnv(raw))
  {
    var r := Strip(raw.GetOr(""));
    if r == [] {
      StripOfTrimmed(DEFAULT_MODELS[0]);
      StripOfTrimmed(DEFAULT_MODELS[1]);
    } else {
      SplitPiecesFree(r, ',');
      EntriesClean(SplitOn(r, ","));
    }
  }

  lemma {:induction false} EntriesOfClean(ms: seq<string>)
    requires AllClean(ms)
    ensures Entries(ms) == ms
  {
    if ms != [] {
      assert CleanId(ms[0]);
      EntriesOfClean(ms[1..]);
      assert ms == [ms[0]] + ms[1..];
    }
  }

  lemma {:induction false} JoinEnds(sep: string, ms: seq<string>)
    requires forall i :: 0 <= i < |ms| ==> ms[i] != []
    requires ms != []
    ensures JoinWith(sep, ms) != []
    ensures JoinWith(sep, ms)[0] == ms[0][0]
    ensures JoinWith(sep, ms)[|JoinWith(sep, ms)| - 1] == ms[|ms| - 1][|ms[|ms| - 1]| - 1]
  {
    if |ms| > 1 {
      JoinEnds(sep, ms[1..]);
      assert ms[1..][|ms[1..]| - 1] == ms[|ms| - 1];
    }
  }

  /** Clean ids joined by commas have nothing to strip. */
  lemma JoinOfCleanIsTrimmed(ms: seq<string>)
    requires ms != []
    requires AllClean(ms)
    ensures Strip(JoinWith(",", ms)) == JoinWith(",", ms)
  {
    JoinEnds(",", ms);
    var j := JoinWith(",", ms);
    var first := ms[0];
    var last := ms[|ms| - 1];
    assert CleanId(first);
    assert CleanId(last);
    StripKeepsText(first);
    StripKeepsText(last);
    assert !IsSpace(j[0]);
    assert !IsSpace(j[|j| - 1]);
    StripOfTrimmed(j);
  }

  /** Writing clean model ids into the variable, comma-separated, yields
      exactly those ids, in the same order. */
  lemma ModelsRoundTrip(ms: seq<string>)
    requires ms != []
    requires AllClean(ms)
    ensures ModelsFromEnv(Some(JoinWith(",", ms))) == ms
  {
    JoinOfCleanIsTrimmed(ms);
    JoinEnds(",", ms);
    assert forall i :: 0 <= i < |ms| ==> ',' !in ms[i];
    SplitJoin(ms, ',');
    EntriesOfClean(ms);
  }

  // ---------------------------------------------------------------------
  // `call_openrouter`
  // ---------------------------------------------------------------------

  datatype Message = Message(role: string, content: string)

  /** The body posted for one model. */
  datatype Request = Request(model: string, messages: seq<Message>, temperature: real, maxTokens: Option<nat>)

  /** A status code other than 200. */
  type ErrorStatus = c: nat | c != 200 witness 404

  /** What one POST yields. */
  datatype HttpOutcome =
    | Raised(error: string)                            // the request raised; `error` is `str(e)`
    | Answered(content: Option<string>, data: string)  // status 200; the content if the reply has one, and `str(data)`
    | Failed(code: ErrorStatus, message: string)       // any other status and the message extracted from the body

  const NO_KEY: string := "Ошибка: не задан OPENROUTER_API_KEY в переменных окружения."
  const NO_REPLY: string := "Не удалось получить ответ от LLM."
  const PARSE_ERROR: string := "Ошибка разбора ответа LLM: "
  const REQUEST_ERROR: string := "Ошибка запроса к LLM"
  const NO_ENDPOINTS: string := "No endpoints found"

  /** `not OPENROUTER_API_KEY` is false. */
  predicate HasKey(apiKey: Option<string>) {
    apiKey.Some? && apiKey.value != []
  }

  /** The loop moves to the next model only after an exception or a 404
      whose message says no endpoints were found. */
  predicate Advances(o: HttpOutcome) {
    o.Raised? || (o.Failed? && o.code == 404 && Contains(o.message, NO_ENDPOINTS))
  }

  /** The `last_err` text a failed attempt leaves. */
  function ErrorText(model: string, o: HttpOutcome): (e: string)
    requires !o.Answered?
    ensures e != []
  {
    match o
    case Raised(error) => REQUEST_ERROR + ": " + error
    case Failed(code, message) =>
      REQUEST_ERROR + " (" + NatToString(code) + ") для модели " + model + ": " + message
  }

  /** The text a 200 response yields. */
  function AnswerText(o: HttpOutcome): string
    requires o.Answered?
  {
    if o.content.Some? then o.content.value else PARSE_ERROR + o.data
  }

  /** What the loop returns from the remaining models, given `last_err`. */
  function Failover(models: seq<string>, outcomes: seq<HttpOutcome>, lastErr: Option<string>): string
    requires |outcomes| == |models|
    decreases |models|
  {
    if models == [] then
      if lastErr.Some? && lastErr.value != [] then lastErr.value else NO_REPLY
    else if outcomes[0].Answered? then AnswerText(outcomes[0])
    else
      var err := ErrorText(models[0], outcomes[0]);
      if Advances(outcomes[0]) then Failover(models[1..], outcomes[1..], Some(err)) else err
  }

  /** How many requests the loop sends. */
  function Attempts(outcomes: seq<HttpOutcome>): (n: nat)
    ensures n <= |outcomes|
    ensures outcomes != [] ==> n >= 1
  {
    if outcomes == [] then 0
    else if Advances(outcomes[0]) then 1 + Attempts(outcomes[1..])
    else 1
  }

  /** `call_openrouter`'s reply. */
  function Reply(apiKey: Option<string>, models: seq<string>, outcomes: seq<HttpOutcome>): string
    requires |outcomes| == |models|
  {
    if HasKey(apiKey) then Failover(models, outcomes, None) else NO_KEY
  }

  /** The requests for the first `n` models, in list order. */
  function RequestsFor(models: seq<string>, n: nat, messages: seq<Message>, temperature: real,
                       maxTokens: Option<nat>): (rs: seq<Request>)
    requires n <= |models|
    ensures |rs| == n
    ensures forall i :: 0 <= i < n ==> rs[i] == Request(models[i], messages, temperature, maxTokens)
  {
    seq(n, i requires 0 <= i < n => Request(models[i], messages, temperature, maxTokens))
  }

  lemma RequestsForNext(models: seq<string>, n: nat, messages: seq<Message>, temperature: real,
                        maxTokens: Option<nat>)
    requires n < |models|
    ensures RequestsFor(models, n + 1, messages, temperature, maxTokens)
         == RequestsFor(models, n, messages, temperature, maxTokens) + [Request(models[n], messages, temperature, maxTokens)]
  {
  }

  /** One failed-over attempt: the loop goes on with the next model and
      this model's error as `last_err`. */
  lemma FailoverStep(models: seq<string>, outcomes: seq<HttpOutcome>, lastErr: Option<string>, i: nat)
    requires |outcomes| == |models| && i < |models|
    requires Advances(outcomes[i])
    ensures Failover(models[i..], outcomes[i..], lastErr)
         == Failover(models[i + 1..], outcomes[i + 1..], Some(ErrorText(models[i], outcomes[i])))
    ensures Attempts(outcomes[i..]) == 1 + Attempts(outcomes[i + 1..])
  {
    assert models[i..][1..] == models[i + 1..];
    assert outcomes[i..][1..] == outcomes[i + 1..];
  }

  /** One final attempt: the loop ends with this model's answer or error. */
  lemma FinalStep(models: seq<string>, outcomes: seq<HttpOutcome>, lastErr: Option<string>, i: nat)
    requires |outcomes| == |models| && i < |models|
    requires !Advances(outcomes[i])
    ensures Failover(models[i..], outcomes[i..], lastErr)
         == if outcomes[i].Answered? then AnswerText(outcomes[i]) else ErrorText(models[i], outcomes[i])
    ensures Attempts(outcomes[i..]) == 1
  {
  }

  /** `call_openrouter(messages, temperature, max_tokens)`: tries the
      models in order and returns the first answer, or the last error, or
      the fallback text; `requests` are the bodies it posts. */
  method CallOpenRouter(apiKey: Option<string>, models: seq<string>, outcomes: seq<HttpOutcome>,
                        messages: seq<Message>, temperature: real, maxTokens: Option<nat>)
    returns (reply: string, requests: seq<Request>)
    requires |outcomes| == |models|
    ensures reply == Reply(apiKey, models, outcomes)
    ensures !HasKey(apiKey) ==> requests == []
    ensures HasKey(apiKey) ==>
      requests == RequestsFor(models, Attempts(outcomes), messages, temperature, maxTokens)
  {
    if !HasKey(apiKey) {
      return NO_KEY, [];
    }
    var lastErr: Option<string> := None;
    requests := [];
    var i := 0;
    while i < |models|
      invariant 0 <= i <= |models|
      invariant Failover(models[i..], outcomes[i..], lastErr) == Failover(models, outcomes, None)
      invariant Attempts(outcomes) == i + Attempts(outcomes[i..])
      invariant requests == RequestsFor(models, i, messages, temperature, maxTokens)
    {
      RequestsForNext(models, i, messages, temperature, maxTokens);
      requests := requests + [Request(models[i], messages, temperature, maxTokens)];
      var o := outcomes[i];
      if o.Answered? {
        FinalStep(models, outcomes, lastErr, i);
        reply := AnswerText(o);
        return;
      }
      if !Advances(o) {
        FinalStep(models, outcomes, lastErr, i);
        lastErr := Some(ErrorText(models[i], o));
        break;
      }
      FailoverStep(models, outcomes, lastErr, i);
      lastErr := Some(ErrorText(models[i], o));
      i := i + 1;
    }
    reply := if lastErr.Some? && lastErr.value != [] then lastErr.value else NO_REPLY;
  }

  /** The requests go out one per model, in list order, each after a model
      that failed over: every model before the last one tried failed with
      an exception or a 404 "No endpoints found", and when models remain
      the last one tried did not. */
  lemma {:induction false} AttemptsStopAtFirstFinal(outcomes: seq<HttpOutcome>)
    ensures forall j :: 0 <= j < Attempts(outcomes) - 1 ==> Advances(outcomes[j])
    ensures Attempts(outcomes) < |outcomes| ==> !Advances(outcomes[Attempts(outcomes) - 1])
  {
    if outcomes != [] && Advances(outcomes[0]) {
      AttemptsStopAtFirstFinal(outcomes[1..]);
      assert forall j :: 1 <= j < |outcomes| ==> outcomes[j] == outcomes[1..][j - 1];
    }
  }

  /** A first model that fails over hands the rest of the list its
      error as `last_err`. */
  lemma FailoverHead(models: seq<string>, outcomes: seq<HttpOutcome>, lastErr: Option<string>)
    requires |outcomes| == |models| && models != []
    requires Advances(outcomes[0])
    ensures Failover(models, outcomes, lastErr)
         == Failover(models[1..], outcomes[1..], Some(ErrorText(models[0], outcomes[0])))
    ensures Attempts(outcomes) == 1 + Attempts(outcomes[1..])
  {
  }

  lemma ShiftAdvances(outcomes: seq<HttpOutcome>, i: nat)
    requires 0 < i <= |outcomes|
    requires forall j :: 0 <= j < i ==> Advances(outcomes[j])
    ensures forall j :: 0 <= j < i - 1 ==> Advances(outcomes[1..][j])
  {
    forall j | 0 <= j < i - 1 ensures Advances(outcomes[1..][j]) {
      assert outcomes[1..][j] == outcomes[j + 1];
    }
  }

  /** If the models before `i` all fail over and model `i` answers with
      status 200, its content is the reply and no later model is asked. */
  lemma {:induction false} FirstAnswerWins(models: seq<string>, outcomes: seq<HttpOutcome>,
                                           lastErr: Option<string>, i: nat)
    requires |outcomes| == |models| && i < |models|
    requires forall j :: 0 <= j < i ==> Advances(outcomes[j])
    requires outcomes[i].Answered?
    ensures Failover(models, outcomes, lastErr) == AnswerText(outcomes[i])
    ensures Attempts(outcomes) == i + 1
  {
    if i > 0 {
      FailoverHead(models, outcomes, lastErr);
      ShiftAdvances(outcomes, i);
      assert outcomes[1..][i - 1] == outcomes[i];
      FirstAnswerWins(models[1..], outcomes[1..], Some(ErrorText(models[0], outcomes[0])), i - 1);
    }
  }

  /** If the models before `i` all fail over and model `i` fails any other
      way, the reply is model `i`'s error and no later model is asked. */
  lemma {:induction false} OtherFailureStops(models: seq<string>, outcomes: seq<HttpOutcome>,
                                             lastErr: Option<string>, i: nat)
    requires |outcomes| == |models| && i < |models|
    requires forall j :: 0 <= j < i ==> Advances(outcomes[j])
    requires outcomes[i].Failed? && !Advances(outcomes[i])
    ensures Failover(models, outcomes, lastErr) == ErrorText(models[i], outcomes[i])
    ensures Attempts(outcomes) == i + 1
  {
    if i > 0 {
      FailoverHead(models, outcomes, lastErr);
      ShiftAdvances(outcomes, i);
      assert outcomes[1..][i - 1] == outcomes[i];
      assert models[1..][i - 1] == models[i];
      OtherFailureStops(models[1..], outcomes[1..], Some(ErrorText(models[0], outcomes[0])), i - 1);
    }
  }

  /** If every model fails over, every model is asked. */
  lemma {:induction false} AllFailOverAttempts(outcomes: seq<HttpOutcome>)
    requires forall j :: 0 <= j < |outcomes| ==> Advances(outcomes[j])
    ensures Attempts(outcomes) == |outcomes|
  {
    if outcomes != [] {
      ShiftAdvances(outcomes, |outcomes|);
      AllFailOverAttempts(outcomes[1..]);
    }
  }

  /** If every model fails over, the reply is the last model's error; with
      no models at all it is `last_err`, or the fallback text when there
      is none. */
  lemma {:induction false} AllFailOver(models: seq<string>, outcomes: seq<HttpOutcome>, lastErr: Option<string>)
    requires |outcomes| == |models|
    requires forall j :: 0 <= j < |models| ==> Advances(outcomes[j])
    requires lastErr.Some? ==> lastErr.value != []
    ensures models != [] ==>
      && Advances(outcomes[|models| - 1])
      && Failover(models, outcomes, lastErr) == ErrorText(models[|models| - 1], outcomes[|models| - 1])
    ensures models == [] ==> Failover(models, outcomes, lastErr) == lastErr.GetOr(NO_REPLY)
  {
    if models != [] {
      var n := |models|;
      FailoverHead(models, outcomes, lastErr);
      ShiftAdvances(outcomes, n);
      AllFailOver(models[1..], outcomes[1..], Some(ErrorText(models[0], outcomes[0])));
      if n > 1 {
        assert models[1..][n - 2] == models[n - 1];
        assert outcomes[1..][n - 2] == outcomes[n - 1];
      }
    }
  }
}
