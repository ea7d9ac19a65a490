# FinPilot AI Telegram bot — a verified model of its decision logic

FinPilot is a Telegram bot that answers business questions through an
OpenRouter-hosted language model. It also answers questions about documents
the user uploads (PDF, DOCX, TXT) or picks from Google Drive, using a FAISS
vector index. This project models the parts of `pdf_handler.py` and `bot.py`
that decide something, and proves what they promise:

- **The retrieval-confidence gate of `query_index`** (`EvidenceGate`, `Query`).
  Given the question and the retrieved `(chunk, distance)` hits, the gate
  refuses with a fixed text or builds the strict prompt and calls the model.
  It refuses when:
  - there are no hits;
  - the joined context is too short;
  - the best distance is over the bound;
  - the stripped question is at least 35 characters long, counting any
    whitespace inside it, and no distinct word of the normalised question
    that has five or more characters and is not a stop word occurs in the
    normalised context.

  The model also covers `_normalize_ru`, `_has_overlap` and
  `_build_strict_rag_prompt`, and the fallback path taken when scored
  retrieval raises.
- **The model client** (`OpenRouter`). This covers the model list read from
  `OPENROUTER_MODELS`, and the failover loop of `call_openrouter`. That loop
  moves to the next model only after an exception or a 404 saying "No
  endpoints found". The network is abstracted as one outcome per model.
- **Format dispatch** (`Extraction`). `extract_text_from_file` chooses an
  extractor by the lower-cased suffix. `save_file` builds the stored path.
- **Message splitting in `send_html`** (`TelegramSplit`). This is an
  imperative method with the source's loops. It greedily packs `\n\n`
  paragraphs into parts of at most 3900 characters, and hard-cuts
  oversized paragraphs.
- **The conversation handlers** (`Conversation`).
  - A `Bot` class holds the `pending_auth` dictionary and each user's
    `user_data`.
  - `handle_text` routes on the user's step.
  - `/syncdrive` and `handle_drive_code` manage the OAuth hand-over.
  - `handle_drive_file` covers the file choice.
  - `handle_document` applies the upload whitelist.
  - `handle_message` and `/askfile` call the model or the document search.

`PyStrings` gives the Python `str` operations these rely on: `isspace`,
`strip`, `split`, `join`, `lower`, `endswith` and `in`. Lemmas state what
each guarantees.

Foreign calls are parameters of the model. These are retrieval, OAuth,
Drive listing, the Markdown formatter and the HTTP responses. Side effects
(saving, downloading, indexing) are returned as a list of `Effect` values.

## Model

| member | source | states |
|---|---|---|
| PyStrings.TrimStartDropsSpaces | pdf_handler.py:88 | `lstrip()` is a suffix of its input, and what it drops is whitespace only |
| PyStrings.TrimEndDropsSpaces | pdf_handler.py:88 | `rstrip()` is a prefix of its input, and what it drops is whitespace only |
| PyStrings.StripKeepsText | pdf_handler.py:88 | a non-empty `strip()` result starts and ends with a visible character; its visible characters are exactly those of the input |
| PyStrings.StripOfBlank | bot.py:160-162 | a string with no visible character strips to the empty string, so a blank message is ignored |
| PyStrings.NonSpaceJoin | pdf_handler.py:230 | joining with a whitespace separator adds no visible character: the visible text is that of the pieces, in order |
| PyStrings.JoinSplit | bot.py:100 | joining the pieces of `s.split(sep)` with `sep` gives `s` back |
| PyStrings.SplitJoin | pdf_handler.py:91 | splitting a comma-join of comma-free pieces on `,` gives the pieces back |
| PyStrings.WordsAreWords | pdf_handler.py:170 | `split()` yields non-empty pieces with no whitespace in them |
| PyStrings.WordsKeep | pdf_handler.py:170 | any property every character of `s` has, every character of every word of `s.split()` has |
| PyStrings.JoinWordsSingleSpaced | pdf_handler.py:170 | `" ".join` of words has no leading, trailing or doubled space and no other whitespace |
| PyStrings.WordsOfJoin | pdf_handler.py:170 | `split()` of words joined by single spaces gives the words back |
| PyStrings.JoinWordsOfSingleSpaced | pdf_handler.py:170 | `" ".join(s.split())` leaves a single-spaced string unchanged |
| PyStrings.LowerChar | pdf_handler.py:167 | the lowered character is never a Basic Latin or Cyrillic capital. Latin capitals and U+0410–U+042F move up by 32, U+0400–U+040F move up by 80, and characters outside both ranges are kept |
| PyStrings.LowerConcat | pdf_handler.py:46 | lower-casing distributes over concatenation |
| Extraction.ExtractFormat | pdf_handler.py:45-53 | a chosen extractor's suffix ends the lower-cased path; a rejected path raises the fixed "only PDF, DOCX and TXT" message |
| Extraction.ExtractFormatBySuffix | pdf_handler.py:45-53 | a path is accepted iff its lower-cased form ends in `.pdf`, `.docx` or `.txt`, and it goes to format `f` iff it ends in `f`'s suffix |
| Extraction.SuffixesExclusive | pdf_handler.py:47-52 | no string ends with two different suffixes, so the order of the checks does not matter |
| Extraction.LowerIdempotent | pdf_handler.py:46 | lower-casing twice is lower-casing once |
| Extraction.ExtractFormatIgnoresCase | pdf_handler.py:46-53 | the dispatch of a path and of its lower-cased form agree |
| Extraction.StoredPath | pdf_handler.py:22-28 | the stored path ends with `_` followed by the original file name |
| Extraction.SuffixThroughPrefix | pdf_handler.py:24-25 | putting `<uuid>_` in front of a name changes none of the suffix tests |
| EvidenceGate.NormalizeRu | pdf_handler.py:166-170 | the loop over the punctuation characters computes the normal form: lower-cased, punctuation to spaces, whitespace collapsed |
| EvidenceGate.UnpunctLowerIsClean | pdf_handler.py:167-169 | after lowering and the replacements no character is a listed punctuation character or a capital |
| EvidenceGate.NormalizedShape | pdf_handler.py:166-170 | the normal form has no listed punctuation, no capital letter, and no leading, trailing or doubled space |
| EvidenceGate.NormalizedIdempotent | pdf_handler.py:166-170 | normalising twice is normalising once |
| EvidenceGate.OverlapBound | pdf_handler.py:178-181 | the test counts at most as many tokens as the question has distinct qualifying words, so asking for more hits than that always fails |
| EvidenceGate.OverlapOfNormalForm | pdf_handler.py:173-174 | normalising the question and the context beforehand changes neither the counted tokens nor the verdict |
| EvidenceGate.HasOverlap | pdf_handler.py:172-181 | with `min_hits <= 0` the test always passes |
| EvidenceGate.OverlapOfOne | pdf_handler.py:172-181 | with `min_hits == 1` the test passes iff some normalised question word of 5+ characters outside the stop set occurs in the normalised context |
| EvidenceGate.NonSpaceAllStripped | pdf_handler.py:230 | stripping the chunks loses no visible character |
| EvidenceGate.JoinedContextKeepsChunks | pdf_handler.py:230 | the joined, stripped context holds exactly the visible text of the chunks, in order |
| EvidenceGate.AcceptedContextKeepsHits | pdf_handler.py:227-230 | the context the scored gate accepts holds the visible text of every hit's chunk, in retrieval order |
| EvidenceGate.FallbackContextKeepsDocs | pdf_handler.py:207-211 | the context the fallback path accepts holds the visible text of every retrieved document, in order |
| EvidenceGate.MinDistance | pdf_handler.py:228-231 | the best score is no greater than any hit's distance and is some hit's distance |
| EvidenceGate.Decide | pdf_handler.py:224-239 | no hits means refusal; an acceptance carries the joined context, which is at least the minimum length |
| EvidenceGate.DecideAccepts | pdf_handler.py:224-239 | the gate accepts iff there are hits, the context is long enough, some hit is within the bound (equality passes), and the overlap test passes |
| EvidenceGate.ShortQuestionSkipsOverlap | pdf_handler.py:237-239 | for a question under 35 stripped characters only the hits, the length and the distance decide |
| EvidenceGate.LongQuestionNeedsSharedWord | pdf_handler.py:237-239 | an accepted longer question shares a qualifying word with the context |
| EvidenceGate.DecideMonotone | pdf_handler.py:235 | loosening the length or the distance bound never turns an acceptance into a refusal |
| EvidenceGate.FallbackAcceptsWhatGateAccepts | pdf_handler.py:203-236 | whatever the scored gate accepts, the fallback gate accepts with the same context |
| EvidenceGate.BuildStrictPrompt | pdf_handler.py:183-194 | the prompt starts with the header, then the context, then the question marker and the question, and ends with the fixed instructions; its length is exactly that of the template plus the context and the question |
| OpenRouter.ModelsFromEnv | pdf_handler.py:87-91 | an unset or blank variable gives the two default models |
| OpenRouter.EntriesSnoc | pdf_handler.py:91 | the entries of the pieces plus one more are the earlier entries followed by the new piece's stripped text, or nothing when that is blank: order is kept and only blank pieces vanish |
| OpenRouter.EntriesMembers | pdf_handler.py:91 | an id is an entry iff it is the non-empty stripped text of some piece |
| OpenRouter.StripIdempotent | pdf_handler.py:91 | stripping twice is stripping once |
| OpenRouter.StripAddsNothing | pdf_handler.py:91 | every character of a stripped piece comes from the piece |
| OpenRouter.SplitPiecesFree | pdf_handler.py:91 | no piece of `split(",")` contains a comma |
| OpenRouter.EntriesClean | pdf_handler.py:91 | every kept entry is non-empty, trimmed and comma-free |
| OpenRouter.ModelsAreClean | pdf_handler.py:87-91 | every model id read from the variable is non-empty, trimmed and comma-free |
| OpenRouter.EntriesOfClean | pdf_handler.py:91 | clean entries pass through the filter unchanged and in order |
| OpenRouter.JoinOfCleanIsTrimmed | pdf_handler.py:88 | clean ids joined by commas have nothing to strip |
| OpenRouter.ModelsRoundTrip | pdf_handler.py:87-91 | setting the variable to a comma-join of clean ids yields exactly those ids in the same order |
| OpenRouter.ErrorText | pdf_handler.py:120-137 | the `last_err` text of a failed attempt is never empty, so `last_err or ...` returns it |
| OpenRouter.Attempts | pdf_handler.py:113-142 | the loop sends at most one request per model and at least one when there are models |
| OpenRouter.FailoverStep | pdf_handler.py:118-140 | after an exception or a "No endpoints found" 404 the loop continues with the next model, and that attempt's error becomes `last_err` |
| OpenRouter.FinalStep | pdf_handler.py:124-142 | any other outcome ends the loop: a 200 returns its content (or the parse error), another status returns its error |
| OpenRouter.CallOpenRouter | pdf_handler.py:104-144 | the loop returns the specified reply. Without a key it sends no request; otherwise it posts one body per model tried, in list order |
| OpenRouter.AttemptsStopAtFirstFinal | pdf_handler.py:113-142 | every model before the last one tried failed over; when models remain, the last one tried did not fail over |
| OpenRouter.FirstAnswerWins | pdf_handler.py:113-129 | if the models before `i` fail over and model `i` answers 200, its text is the reply and exactly `i + 1` requests are sent |
| OpenRouter.OtherFailureStops | pdf_handler.py:131-142 | if model `i` fails with another status after failovers, its error is the reply and no later model is asked |
| OpenRouter.AllFailOverAttempts | pdf_handler.py:113-140 | if every model fails over, every model is asked |
| OpenRouter.AllFailOver | pdf_handler.py:113-144 | if every model fails over, the reply is the last model's error; with no models it is `last_err` or the fallback text |
| Query.RagMessages | pdf_handler.py:243-246 | exactly two messages: the system prompt, then the user message. The user message opens with the header, carries the context right after it and the question after the marker, and ends with the answer instructions |
| Query.QueryIndex | pdf_handler.py:196-249 | covers all outcomes of the query. No index: the fixed text and no request. A refusal: the refusal text and no request. An acceptance: the model's reply and the requests of the loop. `announce` adds the banner exactly when an index exists |
| Query.NoHitsNoRequest | pdf_handler.py:224-225 | an empty hit list is refused |
| Query.DefaultGateAccepts | pdf_handler.py:157-158 | at the default settings an accepted question has a context of at least 300 characters, and with scored hits some hit lies within distance 1.1 |
| Query.AcceptedRequestsShape | pdf_handler.py:242-248 | every request for an accepted question has temperature 0.3, no token limit, and the system and strict prompts, with the context placed before the question |
| TelegramSplit.PackKeepsText | bot.py:101 | packing a paragraph onto the buffer keeps the visible text of both, in order |
| TelegramSplit.ParagraphsKeepText | bot.py:100 | the `\n\n` paragraphs hold the visible text of the whole reply |
| TelegramSplit.SlicesCutChunk | bot.py:108-111 | every slice the inner loop cuts is exactly the maximum length. The remainder fits and is empty only for an empty paragraph. The slices followed by the remainder are the paragraph |
| TelegramSplit.SliceIsRun | bot.py:108-110 | the k-th slice is the k-th run of maximum-length characters of the paragraph |
| TelegramSplit.RemainderIsTail | bot.py:110-111 | the remainder that becomes the new buffer is the paragraph after its last slice |
| TelegramSplit.PackedKeeps | bot.py:101-103 | a paragraph packed onto the buffer keeps every part within bounds and loses no visible text |
| TelegramSplit.OverflowKeeps | bot.py:104-111 | flushing the buffer and hard-splitting the paragraph keeps every part non-empty and within bounds, and loses no visible text |
| TelegramSplit.PackStepKeeps | bot.py:100-111 | one turn of the outer loop keeps every part non-empty and within bounds and the buffer within the maximum, and loses no visible text |
| TelegramSplit.PackChunksKeeps | bot.py:98-111 | after any number of paragraphs, the parts and the buffer are within bounds and hold the paragraphs' visible text in order |
| TelegramSplit.SplitPartsKeep | bot.py:93-113 | every part sent is non-empty and within the maximum. The parts hold the reply's visible text in order, and a reply with visible text yields at least one part |
| TelegramSplit.HardSplit | bot.py:108-111 | the inner loop appends exactly the slices of the paragraph to the parts and returns its remainder |
| TelegramSplit.PackParagraph | bot.py:101-111 | when the stripped candidate fits, the parts are unchanged and the candidate is the buffer. Otherwise a non-empty buffer is flushed, the paragraph's slices follow it, and its remainder is the buffer |
| TelegramSplit.PackAll | bot.py:98-113 | the loop over the paragraphs and the final flush compute the specified packing |
| TelegramSplit.Split | bot.py:93-113 | the parts are the specified split: none for an empty text, each 1 to the maximum long, holding the visible text in order, and at least one when there is visible text |
| Conversation.WhitelistAgreesWithExtraction | bot.py:179-190 | an upload passes the whitelist iff its stored path can be read, and it is read in the format its own name gives |
| Conversation.HandleDocument | bot.py:174-193 | no document: nothing. A name off the whitelist: one reply, with no download and no indexing. Otherwise: fetch, save and index in that order, and two replies |
| Conversation.LineMentions | bot.py:240 | a listing line shows the file name and its id |
| Conversation.ListingLinesMention | bot.py:239-240 | the listing lines show every file's name and id |
| Conversation.ListingMentionsEveryFile | bot.py:238-241 | the listing message shows every file's name and id |
| Conversation.BuildListing | bot.py:238-241 | the loop builds the header, one line per file and the tail |
| Conversation.DictOf | bot.py:243 | the final listed pair is always in the dictionary with its own name |
| Conversation.DictOfLastWins | bot.py:243 | for every listed id, the name kept is the one from its last pair |
| Conversation.DictOfListed | bot.py:243 | the ids accepted afterwards are exactly the listed ids, each mapped to a name listed with it |
| Conversation.CodeThenFile | bot.py:243-244 | after a code whose listing is not empty, the next text goes to the file handler, the client is stored, and exactly the listed ids are accepted |
| Conversation.Bot.constructor | bot.py:213 | no pending flows and no user data at start |
| Conversation.Bot.SyncDrive | bot.py:215-219 | records the new flow for the user, sets the step to `awaiting_auth_code` and sends the link |
| Conversation.Bot.HandleDriveCode | bot.py:221-245 | the pending flow is always popped. Without one, only the `/syncdrive` reply. If finishing the flow raises, nothing else changes; otherwise the client is stored, and if listing raises nothing more happens. An empty listing leaves the step unchanged. Otherwise the listing is sent, the files remembered and the step set to `awaiting_file_id` |
| Conversation.Bot.HandleDriveFile | bot.py:247-271 | an unknown id or a missing client gets one reply and changes nothing. Otherwise: download under `./data`, index in the name's format and clear the step. A name with no known suffix raises after the download, with the step kept. `pending_auth` is untouched |
| Conversation.Bot.HandleText | bot.py:273-280 | the handler is chosen by the user's step: `awaiting_auth_code` gives the code handler's outcome, `awaiting_file_id` the file handler's, and anything else the chat handler's, which changes no state |
| Conversation.SendHtml | bot.py:89-116 | the parts sent are the split of the formatted text: none when it is empty, each 1 to 3900 characters long, carrying its visible characters in order |
| Conversation.HandleMessage | bot.py:159-172 | a blank message gets no reply and no request. Otherwise "thinking", then exactly the split of the formatted reply: parts of 1 to 3900 characters carrying its visible text. The requests carry the chat system prompt and the stripped text at temperature 0.4 |
| Conversation.AskFile | bot.py:195-204 | an empty query gets the usage example and no search or request. Otherwise the search banner, then exactly the split of the formatted answer. A missing index or a refusal sends no request. An accepted question sends the model's reply, and the requests carry the strict prompt at temperature 0.3 |

## Left out

- FAISS, the HuggingFace embeddings, the text splitter and similarity or
  MMR retrieval are foreign library calls. The retrieved hits (or documents)
  are inputs, and the index is present or absent.
- `requests.post` and the JSON decoding of responses are network and
  parsing. Each model's response is a given `HttpOutcome`:
  - an exception, with its text;
  - a 200 with its content or a parse failure;
  - another status with the message already extracted from the body.

  A 200 whose body is not JSON makes `call_openrouter` raise; this is not
  modelled. A JSON `null` content is not modelled either, since the reply
  is always a string here.
- OpenRouter.CallOpenRouter: a non-200 response whose body is valid JSON
  but not an object, or whose `"error"` field is not an object, makes
  `err_json.get("error", {}).get("message")` (pdf_handler.py:136) raise
  `AttributeError` out of `call_openrouter` and `query_index`. This is not
  modelled. Every `Failed` outcome carries an already extracted message,
  and the loop goes on or stops as for any other error.
- The headers, URL, referer, app name and timeout are constants of the
  request, and the model's `Request` leaves them out.
- The PDF, DOCX and TXT extractors, file writes and `uuid4` are I/O. The
  model records which extractor runs (`Format`) and the path written. The
  uuid is the `fileId` parameter.
- `summarize_pdf` is retrieval plus one model call, with no gate.
- `markdown_to_telegram_html` and `detect_markdown` rely on Python `re`
  features (lookbehind, non-greedy, multiline). The formatter is a
  parameter `format` of `SendHtml`.
- `start`, `help`, `reset` (directory deletion) and `summary` only send
  fixed texts or do file-system work. The `__main__` wiring, `run_polling`,
  environment loading and the Telegram API are left out too. The gate
  settings are the `GateConfig` parameter; `DEFAULT_GATE` holds their
  defaults.
- Google OAuth (`start_flow`, `finish_flow`), `list_files` and
  `download_file` are foreign calls. `finish` and `listFiles` are
  parameters that return `None` when the call raises. The download is an
  `Effect` value. `gdrive_handler.py` is not part of this model.
- Conversation.Bot.HandleDriveFile: an exception from `download_file`
  (bot.py:265) is not modelled; the download always succeeds. An exception
  from an extractor on a file with a known suffix (a corrupt PDF, a
  non-UTF-8 text) is not modelled either. Only the unknown-suffix
  `ValueError` is.
- Conversation.HandleDocument: exceptions from the Telegram download and
  from the extractors on a whitelisted name are not modelled.
- Concurrency between async handlers is not modelled; each handler runs to
  completion.
- PyStrings.LowerChar: lower-cases only Basic Latin and basic Cyrillic
  (U+0400–U+042F) capitals, not every Unicode case mapping.
- PyStrings.IsSpace: the whitespace set is fixed to Python's `isspace`
  characters up to U+3000.
- EvidenceGate.MinDistance: distances are `real`, not IEEE floats. The gate
  only compares them.
- TelegramSplit.Split: requires `maxLen > 0`. With 0 the source's hard-split
  loop would never end, and the bot always uses 3900.
- OpenRouter.ModelsFromEnv: states the default case directly. The other
  case (clean, ordered entries) is stated by `ModelsAreClean` and
  `ModelsRoundTrip`.
- Behaviours kept as written:
  - the punctuation list holds the en dash twice and no em dash;
  - a variable made only of commas and spaces gives an empty model list.
    With an API key every call then returns the fallback text; without one
    it returns the missing-key message;
  - a part of the split may be whitespace only, because a hard-cut remainder
    is not stripped;
  - `handle_drive_code` leaves the step unchanged when the user has no
    pending flow or the listing is empty;
  - a Drive file is not checked against the whitelist before it is
    downloaded.
