/** The Telegram handlers of bot.py that decide something: the dispatch of
    text messages on the user's `step`, the Google Drive hand-over
    (`pending_auth` and the per-user data), the file-name whitelist for
    uploads, the chat handler and the empty-query guard of `/askfile`.
    Sending goes through `send_html`, whose Markdown-to-HTML formatter is a
    parameter; OAuth, listing and downloading are parameters or effects. */
module Conversation {
  import opened Wrappers
  import opened PyStrings
  import opened Extraction
  import opened EvidenceGate
  import opened OpenRouter
  import opened Query
  import opened TelegramSplit

  type UserId = int

  /** An OAuth flow begun by `/syncdrive`, and the Drive client it yields. */
  datatype Flow = Flow(id: nat)
  datatype Service = Service(id: nat)

  const AWAITING_AUTH_CODE: string := "awaiting_auth_code"
  const AWAITING_FILE_ID: string := "awaiting_file_id"

  const THINKING: string := "🧠 Думаю..."
  const UNSUPPORTED_UPLOAD: string := "Поддерживаются только PDF, DOCX, TXT."
  const READING: string := "📖 Читаю документ..."
  const DOCUMENT_READ: string :=
    "Документ прочитан. Используйте /askfile [вопрос] для быстрого поиска ответа или /summary для краткого пересказа документа."
  const ASK_USAGE: string := "Пример: /askfile Какие выводы в документе по метрикам?"
  const ASK_SEARCHING: string := "🔍 Ищу ответ..."
  const AUTH_PROMPT: string := "Перейдите по ссылке и отправьте код:\n"
  const SYNC_FIRST: string := "Сначала выполните /syncdrive."
  const NO_FILES: string := "Файлы не найдены."
  const LISTING_HEAD: string := "📄 Найденные файлы:\n"
  const LISTING_TAIL: string := "\nОтправьте ID файла."
  const LINE_ID: string := " – ID: `"
  const LINE_END: string := "`\n"
  const ID_NOT_FOUND: string := "ID не найден. Скопируйте ID из списка."
  const SYSTEM_PROMPT_CHAT: string :=
    "Ты – полезный бизнес-ассистент. Отвечай чётко и структурировано. "
    + "Давай практические шаги, примеры, метрики. Без воды."
  const CHAT_TEMPERATURE: real := 0.4
  const DATA_DIR: string := "./data"
  const DRIVE_READ_HEAD: string := "Документ "
  const DRIVE_READ_TAIL: string :=
    " прочитан. Используйте /askfile [вопрос] для быстрого поиска ответа или /summary для краткого пересказа документа."

  /** The confirmation after a Drive file has been read. */
  function DriveDocumentRead(filename: string): string {
    DRIVE_READ_HEAD + filename + DRIVE_READ_TAIL
  }

  /** What the handlers do besides replying. */
  datatype Effect =
    | FetchUpload                               // the uploaded file is downloaded from Telegram
    | Save(path: string)                        // `save_file` writes it under `path`
    | DriveDownload(fileId: string, path: string)
    | Index(path: string, format: Format)       // text extracted with that format's reader and indexed

  // ---------------------------------------------------------------------
  // `handle_text` dispatch
  // ---------------------------------------------------------------------

  datatype Handler = DriveCode | DriveFile | Chat

  /** Which handler a text message goes to, given the user's `step`. */
  function Route(step: Option<string>): (h: Handler)
    ensures h == DriveCode <==> step == Some(AWAITING_AUTH_CODE)
    ensures h == DriveFile <==> step == Some(AWAITING_FILE_ID)
    ensures h == Chat <==> step != Some(AWAITING_AUTH_CODE) && step != Some(AWAITING_FILE_ID)
  {
    if step == Some(AWAITING_AUTH_CODE) then DriveCode
    else if step == Some(AWAITING_FILE_ID) then DriveFile
    else Chat
  }

  // ---------------------------------------------------------------------
  // `handle_document`
  // ---------------------------------------------------------------------

  /** An uploaded document; Telegram may omit its file name. */
  datatype Document = Document(fileName: Option<string>)

  /** `(doc.file_name or "").lower()` ends with `.pdf`, `.docx` or `.txt`. */
  predicate UploadAccepted(fileName: Option<string>) {
    HasKnownSuffix(Lower(fileName.GetOr("")))
  }

  /** The bot's whitelist and the handler's dispatch agree: a stored upload
      is readable exactly when its name passed the whitelist, and it is
      read in the format its own name gives. */
  lemma WhitelistAgreesWithExtraction(fileId: string, name: string)
    ensures UploadAccepted(Some(name)) <==> ExtractFormat(StoredPath(fileId, name)).Ok?
    ensures ExtractFormat(StoredPath(fileId, name)) == ExtractFormat(name)
  {
    var path := StoredPath(fileId, name);
    var prefix := "./data/" + fileId + "_";
    assert path == prefix + name;
    SuffixThroughPrefix(prefix, name, Pdf);
    SuffixThroughPrefix(prefix, name, Docx);
    SuffixThroughPrefix(prefix, name, Txt);
    ExtractFormatBySuffix(path, Pdf);
    ExtractFormatBySuffix(name, Pdf);
  }

  datatype Outcome = Outcome(replies: seq<string>, effects: seq<Effect>, raised: bool)

  /** `handle_document` for an upload stored under the identifier
      `fileId`. */
  function HandleDocument(doc: Option<Document>, fileId: string): (o: Outcome)
    ensures doc.None? ==> o == Outcome([], [], false)
    ensures doc.Some? && !UploadAccepted(doc.value.fileName) ==> o == Outcome([UNSUPPORTED_UPLOAD], [], false)
    ensures doc.Some? && UploadAccepted(doc.value.fileName) ==>
      && !o.raised
      && o.replies == [READING, DOCUMENT_READ]
      && |o.effects| == 3
      && o.effects[..2] == [FetchUpload, Save(StoredPath(fileId, doc.value.fileName.value))]
      && o.effects[2] == Index(StoredPath(fileId, doc.value.fileName.value), ExtractFormat(doc.value.fileName.value).value)
  {
    if doc.None? then Outcome([], [], false)
    else if !UploadAccepted(doc.value.fileName) then Outcome([UNSUPPORTED_UPLOAD], [], false)
    else
      var name := doc.value.fileName.value;
      var path := StoredPath(fileId, name);
      WhitelistAgreesWithExtraction(fileId, name);
      match ExtractFormat(path)
      case Ok(format) => Outcome([READING, DOCUMENT_READ], [FetchUpload, Save(path), Index(path, format)], false)
      case Err(_) => Outcome([READING], [FetchUpload, Save(path)], true)
  }

  // ---------------------------------------------------------------------
  // Drive listing
  // ---------------------------------------------------------------------

  /** One line of the Drive listing for a `(file id, file name)` pair. */
  function ListingLine(file: (string, string)): string {
    file.1 + LINE_ID + file.0 + LINE_END
  }

  function ListingLines(files: seq<(string, string)>): string {
    if files == [] then [] else ListingLines(files[..|files| - 1]) + ListingLine(files[|files| - 1])
  }

  /** The message `handle_drive_code` sends for a non-empty listing. */
  function Listing(files: seq<(string, string)>): string {
    LISTING_HEAD + ListingLines(files) + LISTING_TAIL
  }

  lemma ContainsInConcat(a: string, b: string, c: string, sub: string)
    requires Contains(b, sub)
    ensures Contains(a + b + c, sub)
  {
    var i :| 0 <= i <= |b| && ContainsAt(b, sub, i);
    assert (a + b + c)[|a| + i..|a| + i + |sub|] == b[i..i + |sub|];
    assert ContainsAt(a + b + c, sub, |a| + i);
  }

  lemma LineMentions(file: (string, string))
    ensures Contains(ListingLine(file), file.0) && Contains(ListingLine(file), file.1)
  {
    var line := ListingLine(file);
    var before := file.1 + LINE_ID;
    assert line == before + file.0 + LINE_END;
    assert line[..|file.1|] == file.1;
    assert ContainsAt(line, file.1, 0);
    assert line[|before|..|before| + |file.0|] == file.0;
    assert ContainsAt(line, file.0, |before|);
  }

  lemma {:induction false} ListingLinesMention(files: seq<(string, string)>, k: nat)
    requires k < |files|
    ensures Contains(ListingLines(files), files[k].0)
    ensures Contains(ListingLines(files), files[k].1)
  {
    var n := |files| - 1;
    var init := ListingLines(files[..n]);
    var line := ListingLine(files[n]);
    assert ListingLines(files) == init + line + [];
    if k == n {
      LineMentions(files[n]);
      ContainsInConcat(init, line, [], files[n].0);
      ContainsInConcat(init, line, [], files[n].1);
    } else {
      assert files[..n][k] == files[k];
      ListingLinesMention(files[..n], k);
      ContainsInConcat([], init, line + [], files[k].0);
      ContainsInConcat([], init, line + [], files[k].1);
      assert [] + init + (line + []) == init + line + [];
    }
  }

  /** The listing names every file and shows its identifier. */
  lemma ListingMentionsEveryFile(files: seq<(string, string)>, k: nat)
    requires k < |files|
    ensures Contains(Listing(files), files[k].0) && Contains(Listing(files), files[k].1)
  {
    ListingLinesMention(files, k);
    ContainsInConcat(LISTING_HEAD, ListingLines(files), LISTING_TAIL, files[k].0);
    ContainsInConcat(LISTING_HEAD, ListingLines(files), LISTING_TAIL, files[k].1);
  }

  /** The loop of `handle_drive_code` that writes the listing. */
  method BuildListing(files: seq<(string, string)>) returns (msg: string)
    ensures msg == Listing(files)
  {
    msg := LISTING_HEAD;
    var i := 0;
    while i < |files|
      invariant 0 <= i <= |files|
      invariant msg == LISTING_HEAD + ListingLines(files[..i])
    {
      assert files[..i + 1][..i] == files[..i];
      msg := msg + ListingLine(files[i]);
      i := i + 1;
    }
    assert files[..i] == files;
    msg := msg + LISTING_TAIL;
  }

  /** `dict(files)`: a later pair with the same identifier wins. */
  function DictOf(files: seq<(string, string)>): (d: map<string, string>)
    ensures files != [] ==> files[|files| - 1].0 in d && d[files[|files| - 1].0] == files[|files| - 1].1
  {
    if files == [] then map[] else DictOf(files[..|files| - 1])[files[|files| - 1].0 := files[|files| - 1].1]
  }

  /** The identifiers the bot accepts afterwards are exactly the listed
      ones, each mapped to a name listed with it. */
  lemma {:induction false} DictOfListed(files: seq<(string, string)>)
    ensures forall id :: id in DictOf(files) <==> exists k :: 0 <= k < |files| && files[k].0 == id
    ensures forall id :: id in DictOf(files) ==> exists k :: 0 <= k < |files| && files[k] == (id, DictOf(files)[id])
  {
    if files != [] {
      var n := |files| - 1;
      var init := files[..n];
      DictOfListed(init);
      assert forall k :: 0 <= k < n ==> init[k] == files[k];
    }
  }

  // ---------------------------------------------------------------------
  // The bot's state and the text handlers
  // ---------------------------------------------------------------------

  /** For every listed id, the name kept is the one of its last pair. */
  lemma {:induction false} DictOfLastWins(files: seq<(string, string)>, k: nat)
    requires k < |files|
    requires forall j :: k < j < |files| ==> files[j].0 != files[k].0
    ensures files[k].0 in DictOf(files) && DictOf(files)[files[k].0] == files[k].1
  {
    var n := |files| - 1;
    if k < n {
      assert files[..n][k] == files[k];
      DictOfLastWins(files[..n], k);
    }
  }

  /** The per-user `context.user_data` entries the handlers use; a missing
      `drive_files` reads as `{}`. */
  datatype UserData = UserData(step: Option<string>, service: Option<Service>, driveFiles: map<string, string>)

  const NEW_USER: UserData := UserData(None, None, map[])

  /** `(update.message.text or "").strip()`. */
  function MessageText(text: Option<string>): string {
    Strip(text.GetOr(""))
  }

  /** `os.path.join(DATA_DIR, filename)`: an absolute name replaces the
      directory. */
  function JoinPath(filename: string): string {
    if |filename| > 0 && filename[0] == '/' then filename else DATA_DIR + "/" + filename
  }

  /** The data `context.user_data` holds for `user`. */
  function UserDataOf(data: map<UserId, UserData>, user: UserId): UserData {
    if user in data then data[user] else NEW_USER
  }

  /** What `handle_drive_code` leaves behind, from the pending flows and
      user data before it to those after it. The user's pending flow is
      always popped. Without one the bot only asks for `/syncdrive`. If
      finishing the flow raises, nothing else changes; otherwise the Drive
      client is stored, and if listing the files raises nothing more
      happens. No files: the step is left as it was. Some files: they are
      listed, remembered, and the bot waits for an id. */
  predicate DriveCodeHandled(pending: map<UserId, Flow>, data: map<UserId, UserData>, user: UserId,
                             text: Option<string>, finish: (Flow, string) -> Option<Service>,
                             listFiles: Service -> Option<seq<(string, string)>>,
                             pending': map<UserId, Flow>, data': map<UserId, UserData>, o: Outcome)
  {
    && pending' == pending - {user}
    && (user !in pending ==> o == Outcome([SYNC_FIRST], [], false) && data' == data)
    && (user in pending ==>
          match finish(pending[user], MessageText(text))
          case None => o == Outcome([], [], true) && data' == data
          case Some(service) =>
            var stored := UserDataOf(data, user).(service := Some(service));
            match listFiles(service)
            case None => o == Outcome([], [], true) && data' == data[user := stored]
            case Some(files) =>
              if files == [] then o == Outcome([NO_FILES], [], false) && data' == data[user := stored]
              else
                && o == Outcome([Listing(files)], [], false)
                && data' == data[user := stored.(driveFiles := DictOf(files), step := Some(AWAITING_FILE_ID))])
  }

  /** What `handle_drive_file` leaves behind. An unknown id, or no Drive
      client, only gets a reply. Otherwise the file is downloaded under
      `./data` and read in the format its name gives, and the step is
      cleared; a name with no known suffix makes the extraction raise after
      the download, with the step left as it was. */
  predicate DriveFileHandled(data: map<UserId, UserData>, user: UserId, text: Option<string>,
                             data': map<UserId, UserData>, o: Outcome)
  {
    var id := MessageText(text);
    var before := UserDataOf(data, user);
    && (id !in before.driveFiles ==> o == Outcome([ID_NOT_FOUND], [], false) && data' == data)
    && (id in before.driveFiles && before.service.None? ==> o == Outcome([SYNC_FIRST], [], false) && data' == data)
    && (id in before.driveFiles && before.service.Some? ==>
          var filename := before.driveFiles[id];
          var path := JoinPath(filename);
          var download := DriveDownload(id, path);
          match ExtractFormat(path)
          case Err(_) => o == Outcome([READING], [download], true) && data' == data
          case Ok(format) =>
            && o == Outcome([READING, DriveDocumentRead(filename)], [download, Index(path, format)], false)
            && data' == data[user := before.(step := None)])
  }

  /** What `handle_message` sends and asks: a blank message is ignored;
      otherwise the bot says it is thinking, asks the model with the chat
      system prompt and the stripped text at temperature 0.4, and sends the
      split of the formatted reply, which carries its visible text. */
  predicate ChatHandled(text: Option<string>, llm: Llm, format: string -> string,
                        replies: seq<string>, requests: seq<Request>)
    requires |llm.outcomes| == |llm.models|
  {
    var input := Strip(text.GetOr(""));
    && (input == [] ==> replies == [] && requests == [])
    && (input != [] ==>
          && |replies| >= 1 && replies[0] == THINKING
          && replies[1..] == SplitParts(format(Reply(llm.apiKey, llm.models, llm.outcomes)), TG_MAX_LEN)
          && NonSpace(Concat(replies[1..])) == NonSpace(format(Reply(llm.apiKey, llm.models, llm.outcomes)))
          && requests == (if HasKey(llm.apiKey)
                          then RequestsFor(llm.models, Attempts(llm.outcomes),
                                           [Message("system", SYSTEM_PROMPT_CHAT), Message("user", input)],
                                           CHAT_TEMPERATURE, None)
                          else []))
  }

  /** After a code whose listing is not empty, the user's next text goes
      to the file handler, which accepts exactly the listed ids. */
  lemma CodeThenFile(pending: map<UserId, Flow>, data: map<UserId, UserData>, user: UserId,
                     text: Option<string>, finish: (Flow, string) -> Option<Service>,
                     listFiles: Service -> Option<seq<(string, string)>>,
                     pending': map<UserId, Flow>, data': map<UserId, UserData>, o: Outcome,
                     service: Service, files: seq<(string, string)>)
    requires DriveCodeHandled(pending, data, user, text, finish, listFiles, pending', data', o)
    requires user in pending && finish(pending[user], MessageText(text)) == Some(service)
    requires listFiles(service) == Some(files) && files != []
    ensures Route(UserDataOf(data', user).step) == DriveFile
    ensures UserDataOf(data', user).service == Some(service)
    ensures forall id :: id in UserDataOf(data', user).driveFiles <==>
      exists k :: 0 <= k < |files| && files[k].0 == id
  {
    DictOfListed(files);
  }

  class Bot {
    /** `pending_auth`: the OAuth flow each user began with `/syncdrive`. */
    var pendingAuth: map<UserId, Flow>
    /** `context.user_data` per user. */
    var userData: map<UserId, UserData>

    constructor()
      ensures pendingAuth == map[] && userData == map[]
    {
      pendingAuth := map[];
      userData := map[];
    }

    /** `/syncdrive`: remembers the new flow and waits for the code. */
    method SyncDrive(user: UserId, flow: Flow, authUrl: string) returns (replies: seq<string>)
      modifies this
      ensures pendingAuth == old(pendingAuth)[user := flow]
      ensures userData == old(userData)[user := UserDataOf(old(userData), user).(step := Some(AWAITING_AUTH_CODE))]
      ensures replies == [AUTH_PROMPT + authUrl]
    {
      var data := UserDataOf(userData, user);
      pendingAuth := pendingAuth[user := flow];
      userData := userData[user := data.(step := Some(AWAITING_AUTH_CODE))];
      replies := [AUTH_PROMPT + authUrl];
    }

    /** `handle_drive_code`. `finish` and `listFiles` stand for
        `finish_flow` and `list_files`; `None` means the call raised. */
    method HandleDriveCode(user: UserId, text: Option<string>,
                           finish: (Flow, string) -> Option<Service>,
                           listFiles: Service -> Option<seq<(string, string)>>)
      returns (o: Outcome)
      modifies this
      ensures DriveCodeHandled(old(pendingAuth), old(userData), user, text, finish, listFiles,
                               pendingAuth, userData, o)
    {
      var code := Strip(text.GetOr(""));
      var flow: Option<Flow> := if user in pendingAuth then Some(pendingAuth[user]) else None;
      pendingAuth := pendingAuth - {user};
      if flow.None? {
        return Outcome([SYNC_FIRST], [], false);
      }
      var service := finish(flow.value, code);
      if service.None? {
        return Outcome([], [], true);
      }
      var data := UserDataOf(userData, user).(service := Some(service.value));
      userData := userData[user := data];
      var listed := listFiles(service.value);
      if listed.None? {
        return Outcome([], [], true);
      }
      var files := listed.value;
      if files == [] {
        return Outcome([NO_FILES], [], false);
      }
      var msg := BuildListing(files);
      userData := userData[user := data.(driveFiles := DictOf(files), step := Some(AWAITING_FILE_ID))];
      o := Outcome([msg], [], false);
    }

    /** `handle_drive_file`. */
    method HandleDriveFile(user: UserId, text: Option<string>) returns (o: Outcome)
      modifies this
      ensures pendingAuth == old(pendingAuth)
      ensures DriveFileHandled(old(userData), user, text, userData, o)
    {
      var id := MessageText(text);
      var data := UserDataOf(userData, user);
      if id !in data.driveFiles {
        return Outcome([ID_NOT_FOUND], [], false);
      }
      if data.service.None? {
        return Outcome([SYNC_FIRST], [], false);
      }
      var filename := data.driveFiles[id];
      var path := JoinPath(filename);
      var download := DriveDownload(id, path);
      match ExtractFormat(path)
      case Err(_) =>
        return Outcome([READING], [download], true);
      case Ok(format) =>
        userData := userData[user := data.(step := None)];
        return Outcome([READING, DriveDocumentRead(filename)], [download, Index(path, format)], false);
    }

    /** `handle_text`: routes on the user's step and does what the chosen
        handler does. Only the code handler touches the pending flows, and
        the chat handler changes no state. */
    method HandleText(user: UserId, text: Option<string>,
                      finish: (Flow, string) -> Option<Service>,
                      listFiles: Service -> Option<seq<(string, string)>>,
                      llm: Llm, format: string -> string)
      returns (handled: Handler, o: Outcome, requests: seq<Request>)
      requires |llm.outcomes| == |llm.models|
      modifies this
      ensures handled == Route(UserDataOf(old(userData), user).step)
      ensures handled == DriveCode ==>
        && DriveCodeHandled(old(pendingAuth), old(userData), user, text, finish, listFiles, pendingAuth, userData, o)
        && requests == []
      ensures handled == DriveFile ==>
        && DriveFileHandled(old(userData), user, text, userData, o)
        && pendingAuth == old(pendingAuth) && requests == []
      ensures handled == Chat ==>
        && ChatHandled(text, llm, format, o.replies, requests)
        && o.effects == [] && !o.raised
        && pendingAuth == old(pendingAuth) && userData == old(userData)
    {
      handled := Route(UserDataOf(userData, user).step);
      requests := [];
      match handled
      case DriveCode =>
        o := HandleDriveCode(user, text, finish, listFiles);
      case DriveFile =>
        o := HandleDriveFile(user, text);
      case Chat =>
        var replies;
        replies, requests := HandleMessage(text, llm, format);
        o := Outcome(replies, [], false);
    }
  }

  /** `send_html`: formats the reply and sends the parts of the split;
      nothing when the formatted text is empty. */
  method SendHtml(text: string, format: string -> string) returns (parts: seq<string>)
    ensures parts == SplitParts(format(text), TG_MAX_LEN)
    ensures format(text) == [] ==> parts == []
    ensures forall k :: 0 <= k < |parts| ==> 0 < |parts[k]| <= TG_MAX_LEN
    ensures NonSpace(Concat(parts)) == NonSpace(format(text))
  {
    var formatted := format(text);
    if formatted == [] {
      return [];
    }
    parts := Split(formatted, TG_MAX_LEN);
  }

  /** `handle_message`. */
  method HandleMessage(text: Option<string>, llm: Llm, format: string -> string)
    returns (replies: seq<string>, requests: seq<Request>)
    requires |llm.outcomes| == |llm.models|
    ensures ChatHandled(text, llm, format, replies, requests)
  {
    var input := Strip(text.GetOr(""));
    if input == [] {
      return [], [];
    }
    var messages := [Message("system", SYSTEM_PROMPT_CHAT), Message("user", input)];
    var reply;
    reply, requests := CallOpenRouter(llm.apiKey, llm.models, llm.outcomes, messages, CHAT_TEMPERATURE, None);
    var parts := SendHtml(reply, format);
    replies := [THINKING] + parts;
    assert replies[1..] == parts;
  }

  /** `/askfile`: an empty query gets the usage example and no search;
      otherwise the bot announces the search, runs `query_index` and sends
      its reply. */
  method AskFile(args: seq<string>, index: Index, cfg: GateConfig, llm: Llm, format: string -> string)
    returns (replies: seq<string>, requests: seq<Request>)
    requires |llm.outcomes| == |llm.models|
    ensures Strip(JoinWith(" ", args)) == [] ==> replies == [ASK_USAGE] && requests == []
    ensures Strip(JoinWith(" ", args)) != [] ==> |replies| >= 1 && replies[0] == ASK_SEARCHING
    ensures Strip(JoinWith(" ", args)) != [] && index.NoIndex? ==>
      && requests == []
      && replies[1..] == SplitParts(format(NO_INDEX), TG_MAX_LEN)
      && NonSpace(Concat(replies[1..])) == NonSpace(format(NO_INDEX))
    ensures Strip(JoinWith(" ", args)) != [] && index.Loaded?
            && GateDecision(index.retrieval, Strip(JoinWith(" ", args)), cfg).Refuse? ==>
      && requests == []
      && replies[1..] == SplitParts(format(cfg.refusalText), TG_MAX_LEN)
      && NonSpace(Concat(replies[1..])) == NonSpace(format(cfg.refusalText))
    ensures Strip(JoinWith(" ", args)) != [] && index.Loaded?
            && GateDecision(index.retrieval, Strip(JoinWith(" ", args)), cfg).Accept? ==>
      var query := Strip(JoinWith(" ", args));
      var messages := RagMessages(cfg.systemPrompt, GateDecision(index.retrieval, query, cfg).context, query);
      && replies[1..] == SplitParts(format(Reply(llm.apiKey, llm.models, llm.outcomes)), TG_MAX_LEN)
      && NonSpace(Concat(replies[1..])) == NonSpace(format(Reply(llm.apiKey, llm.models, llm.outcomes)))
      && requests == (if HasKey(llm.apiKey)
                      then RequestsFor(llm.models, Attempts(llm.outcomes), messages, RAG_TEMPERATURE, None)
                      else [])
  {
    var query := Strip(JoinWith(" ", args));
    if query == [] {
      return [ASK_USAGE], [];
    }
    var answer;
    answer, requests := QueryIndex(index, query, cfg, llm, false);
    var parts := SendHtml(answer.text, format);
    replies := [ASK_SEARCHING] + parts;
    assert replies[1..] == parts;
  }
}
