/** The conversation layer: console themes, the file-path heuristic for typed
    input, the prompt sent to the chat model, and the persistence of each
    message in a session's memory folder and transcript. */
module Conversation {
  import opened Wrappers
  import opened Text
  import opened Dicts
  import opened Slices
  import opened Memory

  /** The external capabilities the conversation layer calls. */
  datatype Services = Services(
    embed: string -> Result<Vector>,   // the embeddings endpoint
    chat: string -> Result<string>,    // `send_message`: the chat endpoint
    complete: (string, nat) -> Reply,  // the completion endpoint, by request number
    tokenCount: string -> nat,         // the token count of a prompt
    sim: (Vector, Vector) -> real,     // cosine similarity
    timeString: real -> string,        // `timestamp_to_datetime`
    stamp: real -> string)             // `str` of a timestamp, as used in file names

  // ---------------------------------------------------------------------------
  // Themes

  /** The themes defined before the configuration's `[Theme]` items are added. */
  const DefaultThemes: ODict<string> :=
    [("Error", "bold red"), ("Warning", "bold yellow"), ("Info", "bold blue"), ("Success", "bold green")]

  /** The themes after assigning `items` in order to `themes`. */
  function AddThemes(themes: ODict<string>, items: seq<(string, string)>): ODict<string> {
    if items == [] then themes
    else Put(AddThemes(themes, items[..|items| - 1]), items[|items| - 1].0, items[|items| - 1].1)
  }

  /** An item with key `k` occurs in `items`. */
  predicate Names(items: seq<(string, string)>, k: string) {
    exists i | 0 <= i < |items| :: items[i].0 == k
  }

  /** The value of the last item with key `k`. */
  function LastValue(items: seq<(string, string)>, k: string): string
    requires Names(items, k)
  {
    if items[|items| - 1].0 == k then items[|items| - 1].1
    else
      assert Names(items[..|items| - 1], k) by {
        var i :| 0 <= i < |items| && items[i].0 == k;
        assert items[..|items| - 1][i] == items[i];
      }
      LastValue(items[..|items| - 1], k)
  }

  /** A theme is defined by the configuration (the last item for it wins) or
      else by the defaults; no other theme is defined. */
  lemma {:induction false} AddThemesLookup(themes: ODict<string>, items: seq<(string, string)>, k: string)
    ensures HasKey(AddThemes(themes, items), k) <==> Names(items, k) || HasKey(themes, k)
    ensures Names(items, k) ==> Get(AddThemes(themes, items), k) == LastValue(items, k)
    ensures !Names(items, k) && HasKey(themes, k) ==> Get(AddThemes(themes, items), k) == Get(themes, k)
  {
    if items != [] {
      var init := items[..|items| - 1];
      var last := items[|items| - 1];
      AddThemesLookup(themes, init, k);
      assert Names(items, k) <==> Names(init, k) || last.0 == k by {
        if Names(items, k) {
          var i :| 0 <= i < |items| && items[i].0 == k;
          if i < |init| { assert init[i] == items[i]; }
        }
        if Names(init, k) {
          var i :| 0 <= i < |init| && init[i].0 == k;
          assert items[i] == init[i];
        }
      }
      if last.0 == k {
        PutGet(AddThemes(themes, init), k, last.1);
      } else {
        PutOther(AddThemes(themes, init), last.0, last.1, k);
      }
    }
  }

  /** The module-level `themes` dictionary: the defaults, then every item of
      the configuration's `[Theme]` section. */
  method BuildThemes(configTheme: seq<(string, string)>) returns (themes: ODict<string>)
    ensures themes == AddThemes(DefaultThemes, configTheme)
  {
    themes := DefaultThemes;
    for i := 0 to |configTheme|
      invariant themes == AddThemes(DefaultThemes, configTheme[..i])
    {
      assert configTheme[..i + 1][..i] == configTheme[..i];
      themes := Put(themes, configTheme[i].0, configTheme[i].1);
    }
    assert configTheme[..|configTheme|] == configTheme;
  }

  /** The style `themed_print` uses: `"bold "` before the theme's value, the
      `os_color` theme standing in for an unknown one; a KeyError when neither
      is defined. */
  function ThemeStyle(themes: ODict<string>, theme: string): (r: Result<string>)
    ensures r.Success? <==> HasKey(themes, theme) || HasKey(themes, "os_color")
    ensures HasKey(themes, theme) ==> r == Success("bold " + Get(themes, theme))
    ensures !HasKey(themes, theme) && HasKey(themes, "os_color") ==> r == Success("bold " + Get(themes, "os_color"))
  {
    if HasKey(themes, theme) then Success("bold " + Get(themes, theme))
    else if HasKey(themes, "os_color") then Success("bold " + Get(themes, "os_color"))
    else Failure("KeyError: 'os_color'")
  }

  /** A default theme the configuration does not redefine keeps its value, to
      which `themed_print` adds a second `"bold "`: `"Error"` prints in
      `"bold bold red"`. */
  lemma DefaultThemeStyle(configTheme: seq<(string, string)>)
    requires !Names(configTheme, "Error")
    ensures ThemeStyle(AddThemes(DefaultThemes, configTheme), "Error") == Success("bold bold red")
  {
    assert DefaultThemes[0].0 == "Error";
    AddThemesLookup(DefaultThemes, configTheme, "Error");
    assert Get(DefaultThemes, "Error") == "bold red";
    assert "bold " + "bold red" == "bold bold red";
  }

  // ---------------------------------------------------------------------------
  // is_file_path and request_filepath_or_text

  /** The length of the longest suffix of `t` made of ASCII letters and digits. */
  function AlnumSuffix(t: string): (n: nat)
    ensures n <= |t|
    ensures forall j :: |t| - n <= j < |t| ==> IsAsciiAlnum(t[j])
    ensures n < |t| ==> !IsAsciiAlnum(t[|t| - n - 1])
  {
    if t != [] && IsAsciiAlnum(t[|t| - 1]) then
      var n := AlnumSuffix(t[..|t| - 1]);
      assert forall j :: |t| - 1 - n <= j < |t| - 1 ==> t[j] == t[..|t| - 1][j];
      n + 1
    else 0
  }

  /** `t` ends in `.` followed by one or more ASCII letters or digits. */
  predicate EndsWithExtension(t: string) {
    var n := AlnumSuffix(t);
    0 < n < |t| && t[|t| - n - 1] == '.'
  }

  /** The regular-expression reading: a `.` at `i` with only (and at least one)
      letters or digits after it. */
  predicate ExtensionAt(t: string, i: int) {
    0 <= i < |t| - 1 && t[i] == '.' && forall j :: i < j < |t| ==> IsAsciiAlnum(t[j])
  }

  /** `re.search(r'\.[a-zA-Z0-9]+\Z', t)` would succeed. */
  predicate HasExtension(t: string) {
    exists i | 0 <= i < |t| :: ExtensionAt(t, i)
  }

  /** The scan agrees with the regular-expression reading. */
  lemma EndsWithExtensionIff(t: string)
    ensures EndsWithExtension(t) <==> HasExtension(t)
  {
    var n := AlnumSuffix(t);
    if EndsWithExtension(t) {
      assert ExtensionAt(t, |t| - n - 1);
    }
    if HasExtension(t) {
      var i :| 0 <= i < |t| && ExtensionAt(t, i);
      assert !IsAsciiAlnum(t[i]);
      if i < |t| - n - 1 {
        assert false;
      }
    }
  }

  /** `re.search(r'\.[a-zA-Z0-9]+$', s)`: `$` also matches just before a final
      newline. */
  predicate ExtensionAtEnd(s: string) {
    EndsWithExtension(s) || (s != [] && s[|s| - 1] == '\n' && EndsWithExtension(s[..|s| - 1]))
  }

  /** `is_file_path(s)`, given whether `os.path.dirname(s)` exists. */
  predicate IsFilePath(s: string, parentExists: bool) {
    ('/' in s || '\\' in s) && ExtensionAtEnd(s) && parentExists
  }

  /** Only text with a path separator and a trailing extension can be taken for a path. */
  lemma IsFilePathShape(s: string, parentExists: bool)
    ensures IsFilePath(s, parentExists) <==>
              parentExists && ('/' in s || '\\' in s)
              && (HasExtension(s) || (s != [] && s[|s| - 1] == '\n' && HasExtension(s[..|s| - 1])))
  {
    EndsWithExtensionIff(s);
    if s != [] {
      EndsWithExtensionIff(s[..|s| - 1]);
    }
  }

  /** `request_filepath_or_text` once the text has been read from standard
      input. The request is printed in the default style `"bold green"`, an
      unknown theme. An existing file path is read: a failing read raises,
      and a read that yields `None` is reported in the `"Info"` theme and
      falls back. Any other input is used as text, reduced to ASCII. */
  function RequestFilepathOrText(themes: ODict<string>, userInput: string, parentExists: bool, fileExists: bool,
                                 read: string -> Result<Option<string>>): (r: Result<string>)
    ensures ThemeStyle(themes, "bold green").Failure? ==> r.Failure?
    ensures ThemeStyle(themes, "bold green").Success? && !(IsFilePath(userInput, parentExists) && fileExists) ==>
              r == Success(AsciiOnly(userInput))
    ensures r.Success? && r.value != AsciiOnly(userInput) ==>
              IsFilePath(userInput, parentExists) && fileExists && read(userInput) == Success(Some(r.value))
    ensures ThemeStyle(themes, "bold green").Success? && IsFilePath(userInput, parentExists) && fileExists ==>
              (read(userInput).Failure? ==> r == Failure(read(userInput).error))
              && (read(userInput).Success? && read(userInput).value.Some? ==> r == Success(read(userInput).value.value))
              && (read(userInput) == Success(None) ==>
                    r == if ThemeStyle(themes, "Info").Success? then Success(AsciiOnly(userInput))
                         else Failure(ThemeStyle(themes, "Info").error))
  {
    var request := ThemeStyle(themes, "bold green");
    if request.Failure? then Failure(request.error)
    else if IsFilePath(userInput, parentExists) && fileExists then
      match read(userInput)
      case Failure(e) => Failure(e)
      case Success(content) =>
        if content.Some? then Success(content.value)
        else
          var notice := ThemeStyle(themes, "Info");
          if notice.Failure? then Failure(notice.error) else Success(AsciiOnly(userInput))
    else Success(AsciiOnly(userInput))
  }

  /** The default themes are exactly the four named ones. */
  lemma DefaultThemeNames(k: string)
    ensures HasKey(DefaultThemes, k) <==> k == "Error" || k == "Warning" || k == "Info" || k == "Success"
  {
    if HasKey(DefaultThemes, k) {
      var i :| 0 <= i < |DefaultThemes| && DefaultThemes[i].0 == k;
    }
    if k == "Info" {
      assert DefaultThemes[2].0 == k;
    }
    if k == "Error" || k == "Warning" || k == "Success" {
      assert DefaultThemes[0].0 == k || DefaultThemes[1].0 == k || DefaultThemes[3].0 == k;
    }
  }

  /** With the module's themes, the request prints only when the
      configuration defines `"bold green"` or `os_color`, and the `"Info"`
      notice always prints. */
  lemma RequestStyles(configTheme: seq<(string, string)>)
    ensures var themes := AddThemes(DefaultThemes, configTheme);
            (ThemeStyle(themes, "bold green").Success? <==> Names(configTheme, "bold green") || Names(configTheme, "os_color"))
            && ThemeStyle(themes, "Info").Success?
  {
    AddThemesLookup(DefaultThemes, configTheme, "bold green");
    AddThemesLookup(DefaultThemes, configTheme, "os_color");
    AddThemesLookup(DefaultThemes, configTheme, "Info");
    DefaultThemeNames("bold green");
    DefaultThemeNames("os_color");
    DefaultThemeNames("Info");
  }

  /** Text typed directly is returned with every non-ASCII character removed. */
  lemma DirectTextIsAscii(themes: ODict<string>, userInput: string, parentExists: bool, fileExists: bool,
                          read: string -> Result<Option<string>>)
    requires ThemeStyle(themes, "bold green").Success?
    requires !(IsFilePath(userInput, parentExists) && fileExists)
    ensures var r := RequestFilepathOrText(themes, userInput, parentExists, fileExists, read);
            r.Success? && AllAscii(r.value) && IsSubsequence(r.value, userInput)
  {
    AsciiOnlyIsSubsequence(userInput);
  }

  // ---------------------------------------------------------------------------
  // get_conversation

  const PersonaIntro: string := "I am a chatbot named EmployEase. My goals are to increase user success rate in securing job offers. I will read the conversation notes and recent messages, and then I will provide an answer. The following are notes from earlier conversations with USER: "
  const RecentIntro: string := " The following are the most recent messages in the conversation: "
  const ResponseCue: string := " I will now provide a response. EmployEase: "

  /** The prompt `get_conversation` builds around the notes and the recent block. */
  function ConversationPrompt(notes: string, recent: string): string {
    PersonaIntro + notes + RecentIntro + recent + ResponseCue
  }

  /** The notes and the recent block sit at fixed places in the prompt, which
      ends in the cue `"EmployEase: "`. */
  lemma ConversationPromptParts(notes: string, recent: string)
    ensures var p := ConversationPrompt(notes, recent);
            var n := |PersonaIntro| + |notes|;
            var m := n + |RecentIntro| + |recent|;
            |p| == m + |ResponseCue|
            && p[|PersonaIntro|..n] == notes && p[n + |RecentIntro|..m] == recent
            && p[|p| - |"EmployEase: "|..] == "EmployEase: "
  {
    var p := ConversationPrompt(notes, recent);
    var n := |PersonaIntro| + |notes|;
    var m := n + |RecentIntro| + |recent|;
    var a := PersonaIntro + notes;
    var b := a + RecentIntro + recent;
    assert p == b + ResponseCue;
    assert p[..n] == a && a[|PersonaIntro|..] == notes;
    assert p[..m] == b && b[n + |RecentIntro|..] == recent;
    assert ResponseCue[|ResponseCue| - 12..] == "EmployEase: ";
  }

  /** The prompt `get_conversation` builds from a loaded conversation: notes
      summarised from the five closest memories (none when nothing is
      recalled) and the last four messages. */
  function Context(conversation: seq<LogRecord>, vector: Vector, svc: Services): string {
    var memories := Recall(conversation, vector, 5, svc.sim);
    var notes := if memories == [] then "" else Summary(memories, svc.tokenCount, svc.complete);
    var recent := Strip(Join(Messages(conversation[|conversation| - Min(4, |conversation|)..]), "\n\n"));
    ConversationPrompt(notes, recent)
  }

  /** Reading a file of the memory folder `folder` whose records are `files`,
      by its full path. */
  function ReadMemoryFile(files: ODict<LogRecord>, folder: string, path: string): Result<LogRecord> {
    var prefix := folder + "\\";
    if |prefix| <= |path| && path[..|prefix|] == prefix && HasKey(files, path[|prefix|..])
    then Success(Get(files, path[|prefix|..]))
    else Failure("FileNotFoundError")
  }

  /** The reader of the memory folder `folder` holding `files`. */
  function Reader(files: ODict<LogRecord>, folder: string): string -> Result<LogRecord> {
    path => ReadMemoryFile(files, folder, path)
  }

  /** A stored file reads back as the record stored under its name. */
  lemma ReadStored(files: ODict<LogRecord>, folder: string, name: string)
    requires HasKey(files, name)
    ensures Reader(files, folder)(folder + "\\" + name) == Success(Get(files, name))
  {
    var prefix := folder + "\\";
    assert (prefix + name)[..|prefix|] == prefix;
    assert (prefix + name)[|prefix|..] == name;
    assert folder + "\\" + name == prefix + name;
  }

  /** The listing of the memory folder: `None` while it does not exist. */
  function Listing(folderExists: bool, files: ODict<LogRecord>): Option<seq<string>> {
    if folderExists then Some(Keys(files)) else None
  }

  /** What `get_conversation` returns for the session folder `sessionName`. */
  function ConversationSpec(sessionName: string, folderExists: bool, files: ODict<LogRecord>,
                            vector: Vector, svc: Services): Result<string> {
    match LoadSpec(sessionName, Listing(folderExists, files), Reader(files, MemoryFolder(sessionName)))
    case Failure(e) => Failure(e)
    case Success(conversation) => Success(Context(conversation, vector, svc))
  }

  /** Every file the session writes loads: the prompt is built from all the
      stored records, among them the one just written under a `.json` name. */
  lemma StoredRecordIsLoaded(sessionName: string, files: ODict<LogRecord>, name: string)
    requires HasKey(files, name) && Occurs(name, ".json")
    ensures var loaded := LoadSpec(sessionName, Some(Keys(files)), Reader(files, MemoryFolder(sessionName)));
            loaded.Success? && Get(files, name) in loaded.value
  {
    var folder := MemoryFolder(sessionName);
    var read := Reader(files, folder);
    var names := JsonFiles(Keys(files));
    forall i | 0 <= i < |names| ensures read(folder + "\\" + names[i]).Success? {
      assert names[i] in Keys(files);
      HasKeyInKeys(files, names[i]);
      ReadStored(files, folder, names[i]);
    }
    HasKeyInKeys(files, name);
    ReadStored(files, folder, name);
    LoadProps(sessionName, Keys(files), read, name, Get(files, name));
  }

  /** A query vector held by a stored record always recalls something, so
      the notes in the prompt come from the summary of the memories. */
  lemma ContextSummarises(conversation: seq<LogRecord>, rec: LogRecord, svc: Services)
    requires rec in conversation
    ensures var memories := Recall(conversation, rec.vector, 5, svc.sim);
            memories != []
            && Context(conversation, rec.vector, svc)
               == ConversationPrompt(Summary(memories, svc.tokenCount, svc.complete),
                                     Strip(Join(Messages(conversation[|conversation| - Min(4, |conversation|)..]), "\n\n")))
  {
    RecallNonEmpty(conversation, rec.vector, 5, svc.sim, rec);
  }

  // ---------------------------------------------------------------------------
  // save_message and send_prompt

  /** The name of the memory file of a message (logger.py). */
  function MemoryFileName(speaker: string, stamp: string): (r: string)
    ensures Occurs(r, ".json")
  {
    var r := speaker + "Log_" + stamp + ".json";
    assert OccursAt(r, ".json", |r| - 5);
    r
  }

  /** The transcript entry of a message. */
  function Entry(speaker: string, content: string): string {
    speaker + ": " + content
  }

  /** The record `save_message` stores for a message, before the memory file
      is written: the user's own prompt, or the chat model's answer to it,
      with the embedding of its ASCII characters. */
  function Message(userPrompt: string, speaker: string, svc: Services, now: real, uuid: string): (r: Result<LogRecord>)
    ensures r.Success? ==> r.value.speaker == speaker && r.value.time == now && r.value.uuid == uuid
                           && r.value.timestring == svc.timeString(now) && r.value.score == None
    ensures r.Success? && speaker == "User" ==> r.value.message == userPrompt
    ensures r.Success? && speaker != "User" ==> svc.chat(userPrompt) == Success(r.value.message)
    ensures r.Success? ==> svc.embed(AsciiOnly(r.value.message)) == Success(r.value.vector)
  {
    var content := if speaker == "User" then Success(userPrompt) else svc.chat(userPrompt);
    if content.Failure? then Failure(content.error)
    else
      match svc.embed(AsciiOnly(content.value))
      case Failure(e) => Failure(e)
      case Success(vector) =>
        Success(LogRecord(speaker, now, vector, content.value, uuid, svc.timeString(now), None))
  }

  /** The outcome of one exchange: the user's record, the prompt built with
      its context, the chat model's record and the memory folder after both
      files are written. */
  datatype Turn = Turn(user: LogRecord, context: string, bot: LogRecord, files: ODict<LogRecord>)

  /** What one `send_prompt` does to the memory folder `files` of
      `sessionName` when every service call succeeds: the user's message is
      stored, the context is built from the folder that now holds it, and the
      chat model's answer to that context is stored. */
  function TakeTurn(sessionName: string, files: ODict<LogRecord>, prompt: string, svc: Services,
                    userTime: real, userUuid: string, botTime: real, botUuid: string): Result<Turn>
  {
    match Message(prompt, "User", svc, userTime, userUuid)
    case Failure(e) => Failure(e)
    case Success(user) =>
      var stored := Put(files, MemoryFileName("User", svc.stamp(userTime)), user);
      match ConversationSpec(sessionName, true, stored, user.vector, svc)
      case Failure(e) => Failure(e)
      case Success(context) =>
        match Message(context, "EmployEase", svc, botTime, botUuid)
        case Failure(e) => Failure(e)
        case Success(bot) => Success(Turn(user, context, bot, Put(stored, MemoryFileName("EmployEase", svc.stamp(botTime)), bot)))
  }

  /** An exchange whose three steps succeed. */
  lemma TurnOfSteps(sessionName: string, files: ODict<LogRecord>, prompt: string, svc: Services,
                    userTime: real, userUuid: string, botTime: real, botUuid: string,
                    user: LogRecord, context: string, bot: LogRecord)
    requires Message(prompt, "User", svc, userTime, userUuid) == Success(user)
    requires ConversationSpec(sessionName, true, Put(files, MemoryFileName("User", svc.stamp(userTime)), user),
                              user.vector, svc) == Success(context)
    requires Message(context, "EmployEase", svc, botTime, botUuid) == Success(bot)
    ensures TakeTurn(sessionName, files, prompt, svc, userTime, userUuid, botTime, botUuid)
            == Success(Turn(user, context, bot, Put(Put(files, MemoryFileName("User", svc.stamp(userTime)), user),
                                                    MemoryFileName("EmployEase", svc.stamp(botTime)), bot)))
  {
  }

  /** Within an exchange the folder always loads: an exchange fails only
      when one of the two messages cannot be made. */
  lemma TurnFailsOnlyInServices(sessionName: string, files: ODict<LogRecord>, prompt: string, svc: Services,
                                userTime: real, userUuid: string, botTime: real, botUuid: string)
    requires Message(prompt, "User", svc, userTime, userUuid).Success?
    ensures var user := Message(prompt, "User", svc, userTime, userUuid).value;
            var stored := Put(files, MemoryFileName("User", svc.stamp(userTime)), user);
            var context := ConversationSpec(sessionName, true, stored, user.vector, svc);
            context.Success?
            && (TakeTurn(sessionName, files, prompt, svc, userTime, userUuid, botTime, botUuid).Success?
                <==> Message(context.value, "EmployEase", svc, botTime, botUuid).Success?)
  {
    var user := Message(prompt, "User", svc, userTime, userUuid).value;
    var name := MemoryFileName("User", svc.stamp(userTime));
    var stored := Put(files, name, user);
    PutGet(files, name, user);
    StoredRecordIsLoaded(sessionName, stored, name);
  }

  /** The context of a successful exchange is built from a loaded
      conversation that holds the user's record; since the query is that
      record's own vector, the notes always come from a summary. */
  lemma TurnContext(sessionName: string, files: ODict<LogRecord>, prompt: string, svc: Services,
                    userTime: real, userUuid: string, botTime: real, botUuid: string)
    requires TakeTurn(sessionName, files, prompt, svc, userTime, userUuid, botTime, botUuid).Success?
    ensures var t := TakeTurn(sessionName, files, prompt, svc, userTime, userUuid, botTime, botUuid).value;
            var stored := Put(files, MemoryFileName("User", svc.stamp(userTime)), t.user);
            var loaded := LoadSpec(sessionName, Some(Keys(stored)), Reader(stored, MemoryFolder(sessionName)));
            t.user.message == prompt && loaded.Success? && t.user in loaded.value
            && t.context == Context(loaded.value, t.user.vector, svc)
            && Recall(loaded.value, t.user.vector, 5, svc.sim) != []
  {
    var t := TakeTurn(sessionName, files, prompt, svc, userTime, userUuid, botTime, botUuid).value;
    var user := Message(prompt, "User", svc, userTime, userUuid).value;
    var name := MemoryFileName("User", svc.stamp(userTime));
    var stored := Put(files, name, user);
    var loaded := LoadSpec(sessionName, Some(Keys(stored)), Reader(stored, MemoryFolder(sessionName)));
    PutGet(files, name, user);
    StoredRecordIsLoaded(sessionName, stored, name);
    assert ConversationSpec(sessionName, true, stored, user.vector, svc)
           == Success(Context(loaded.value, user.vector, svc));
    assert t.user == user && t.context == Context(loaded.value, user.vector, svc);
    RecallNonEmpty(loaded.value, user.vector, 5, svc.sim, user);
  }

  /** A successful exchange stores the chat model's answer to the context
      under the bot's file name. */
  lemma TurnStoresAnswer(sessionName: string, files: ODict<LogRecord>, prompt: string, svc: Services,
                         userTime: real, userUuid: string, botTime: real, botUuid: string)
    requires TakeTurn(sessionName, files, prompt, svc, userTime, userUuid, botTime, botUuid).Success?
    ensures var t := TakeTurn(sessionName, files, prompt, svc, userTime, userUuid, botTime, botUuid).value;
            var name := MemoryFileName("EmployEase", svc.stamp(botTime));
            svc.chat(t.context) == Success(t.bot.message)
            && HasKey(t.files, name) && Get(t.files, name) == t.bot
  {
    var t := TakeTurn(sessionName, files, prompt, svc, userTime, userUuid, botTime, botUuid).value;
    var user := Message(prompt, "User", svc, userTime, userUuid).value;
    var stored := Put(files, MemoryFileName("User", svc.stamp(userTime)), user);
    PutGet(stored, MemoryFileName("EmployEase", svc.stamp(botTime)), t.bot);
  }

  /** One session: its memory folder (file name to record, in the order the
      files were created), its log folder and the transcript in it. */
  class Session {
    /** `Session_{session_timestamp}`. */
    const name: string
    /** The memory folder `src\internal\memory\Session_...` exists. */
    var folderExists: bool
    var files: ODict<LogRecord>
    /** The log folder `logs\Session_...` exists. */
    var logFolder: bool
    /** `logs\Session_...\Transcript.txt` exists. */
    var hasTranscript: bool
    /** The transcript's entries (after its header, when
        `create_new_transcript` wrote one). */
    var transcript: seq<string>

    /** Each file name is stored once, names a JSON file, files exist only
        in an existing folder, and a transcript only in the log folder. */
    ghost predicate Valid()
      reads this
    {
      DistinctKeys(files) && (files != [] ==> folderExists)
      && (hasTranscript ==> logFolder) && (!hasTranscript ==> transcript == [])
      && forall i :: 0 <= i < |files| ==> Occurs(files[i].0, ".json")
    }

    /** A session before anything is saved. */
    constructor (sessionTimestamp: string)
      ensures name == "Session_" + sessionTimestamp
      ensures !folderExists && files == [] && !logFolder && !hasTranscript && transcript == []
      ensures Valid()
    {
      name := "Session_" + sessionTimestamp;
      folderExists := false;
      files := [];
      logFolder := false;
      hasTranscript := false;
      transcript := [];
    }

    /** `save_message(userPrompt, session_timestamp, speaker)`, with the clock
        reading `now` and the fresh `uuid`: a failing chat or embedding call
        changes nothing; otherwise the memory file is written (replacing a file
        of the same name), the transcript gets `speaker: content` (appending
        creates the transcript when it is missing, and raises when the log
        folder is missing), and a bot message is printed in the `bot_color`
        theme. */
    method SaveMessage(userPrompt: string, speaker: string, svc: Services, themes: ODict<string>,
                       now: real, uuid: string) returns (r: Result<(Vector, string)>)
      requires Valid()
      modifies this
      ensures Valid()
      ensures logFolder == old(logFolder)
      ensures var m := Message(userPrompt, speaker, svc, now, uuid);
              m.Failure? ==> r == Failure(m.error) && files == old(files) && folderExists == old(folderExists)
                             && hasTranscript == old(hasTranscript) && transcript == old(transcript)
      ensures var m := Message(userPrompt, speaker, svc, now, uuid);
              m.Success? ==> folderExists && files == Put(old(files), MemoryFileName(speaker, svc.stamp(now)), m.value)
                             && hasTranscript == (old(hasTranscript) || logFolder)
                             && transcript == (if logFolder then old(transcript) + [Entry(speaker, m.value.message)]
                                               else old(transcript))
      ensures var m := Message(userPrompt, speaker, svc, now, uuid);
              r.Success? <==> m.Success? && logFolder && (speaker == "User" || ThemeStyle(themes, "bot_color").Success?)
      ensures r.Success? ==> r.value == (Message(userPrompt, speaker, svc, now, uuid).value.vector,
                                         Message(userPrompt, speaker, svc, now, uuid).value.message)
    {
      var content := "";
      if speaker == "User" {
        content := userPrompt;
      } else {
        var reply := svc.chat(userPrompt);
        if reply.Failure? {
          return Failure(reply.error);
        }
        content := reply.value;
      }
      var vector := svc.embed(AsciiOnly(content));
      if vector.Failure? {
        return Failure(vector.error);
      }
      var info := LogRecord(speaker, now, vector.value, content, uuid, svc.timeString(now), None);
      assert Message(userPrompt, speaker, svc, now, uuid) == Success(info);
      var fileName := MemoryFileName(speaker, svc.stamp(now));
      PutDistinct(files, fileName, info);
      PutKeysJson(files, fileName, info);
      folderExists := true;
      files := Put(files, fileName, info);
      if !logFolder {
        return Failure("FileNotFoundError");
      }
      hasTranscript := true;
      transcript := transcript + [Entry(speaker, content)];
      if speaker != "User" {
        var style := ThemeStyle(themes, "bot_color");
        if style.Failure? {
          return Failure(style.error);
        }
      }
      return Success((vector.value, content));
    }

    /** `send_prompt(prompt, session_timestamp)`, with the clock readings and
        uuids of the two messages: creates the log folder and the transcript
        when the transcript is missing,
        prints the prompt in the `user_color` theme, saves the user's message,
        builds the prompt with its context from the session's files (which
        now hold the user's message) and saves the chat model's answer to it,
        which is returned. */
    method SendPrompt(prompt: string, svc: Services, themes: ODict<string>,
                      userTime: real, userUuid: string, botTime: real, botUuid: string)
      returns (r: Result<string>)
      requires Valid()
      modifies this
      ensures Valid() && logFolder && hasTranscript
      ensures ThemeStyle(themes, "user_color").Failure? ==> r.Failure? && files == old(files)
      ensures r.Success? <==> (ThemeStyle(themes, "user_color").Success?
                               && TakeTurn(name, old(files), prompt, svc, userTime, userUuid, botTime, botUuid).Success?
                               && ThemeStyle(themes, "bot_color").Success?)
      ensures r.Success? ==>
                var t := TakeTurn(name, old(files), prompt, svc, userTime, userUuid, botTime, botUuid);
                t.Success? && r.value == t.value.bot.message && files == t.value.files
                && transcript == (if old(hasTranscript) then old(transcript) else [])
                                 + [Entry("User", prompt)] + [Entry("EmployEase", t.value.bot.message)]
    {
      if !hasTranscript {
        logFolder := true;
        hasTranscript := true;
        transcript := [];
      }
      var style := ThemeStyle(themes, "user_color");
      if style.Failure? {
        return Failure(style.error);
      }
      ghost var before := files;
      ghost var lines := transcript;
      assert lines == if old(hasTranscript) then old(transcript) else [];
      var user := SaveMessage(prompt, "User", svc, themes, userTime, userUuid);
      if user.Failure? {
        return Failure(user.error);
      }
      ghost var u := Message(prompt, "User", svc, userTime, userUuid).value;
      assert files == Put(before, MemoryFileName("User", svc.stamp(userTime)), u);
      assert hasTranscript && u.message == prompt;
      assert transcript == lines + [Entry("User", prompt)];
      ghost var lines' := transcript;
      ghost var stored := files;
      var context := GetConversation(user.value.0, svc);
      if context.Failure? {
        return Failure(context.error);
      }
      assert context == ConversationSpec(name, true, stored, u.vector, svc);
      var bot := SaveMessage(context.value, "EmployEase", svc, themes, botTime, botUuid);
      if bot.Failure? {
        return Failure(bot.error);
      }
      ghost var b := Message(context.value, "EmployEase", svc, botTime, botUuid).value;
      assert files == Put(stored, MemoryFileName("EmployEase", svc.stamp(botTime)), b);
      TurnOfSteps(name, before, prompt, svc, userTime, userUuid, botTime, botUuid, u, context.value, b);
      assert TakeTurn(name, before, prompt, svc, userTime, userUuid, botTime, botUuid) == Success(Turn(u, context.value, b, files));
      assert transcript == lines' + [Entry("EmployEase", b.message)];
      assert bot.value.1 == b.message;
      return Success(bot.value.1);
    }

    /** `get_conversation(session_timestamp, vector)`: loads the session's
        records, recalls the five closest ones (scoring the loaded records in
        place) and builds the prompt around their summary and the last four
        messages. */
    method GetConversation(vector: Vector, svc: Services) returns (r: Result<string>)
      ensures r == ConversationSpec(name, folderExists, files, vector, svc)
    {
      var loaded := LoadConvo(name, Listing(folderExists, files), Reader(files, MemoryFolder(name)));
      if loaded.Failure? {
        return Failure(loaded.error);
      }
      var prompt := Recollect(loaded.value, vector, svc);
      return Success(prompt);
    }
  }

  /** The part of `get_conversation` after loading: recalls the memories,
      summarises them when there are any, and fills the prompt with the notes
      and the last four messages. */
  method Recollect(records: seq<LogRecord>, vector: Vector, svc: Services) returns (prompt: string)
    ensures prompt == Context(records, vector, svc)
  {
    var conversation := ToArray(records);
    var memories := FetchMemories(vector, conversation, 5, svc.sim);
    var notes := "";
    if memories != [] {
      notes := SummarizeMemories(memories, svc.tokenCount, svc.complete);
    }
    ghost var scored := conversation[..];
    var recent := GetLastMessages(conversation[..], 4);
    RecentUnscored(records, vector, svc.sim, scored, recent);
    ContextOf(records, vector, svc, memories, notes, recent);
    return ConversationPrompt(notes, recent);
  }

  /** The list `load_convo` returns, as the array `fetch_memories` updates in place. */
  method ToArray(records: seq<LogRecord>) returns (a: array<LogRecord>)
    ensures fresh(a) && a[..] == records
  {
    a := new LogRecord[|records|];
    for i := 0 to |records|
      invariant a[..i] == records[..i]
    {
      a[i] := records[i];
      assert a[..i + 1] == a[..i] + [records[i]];
      assert records[..i + 1] == records[..i] + [records[i]];
    }
    assert a[..] == a[..|records|];
    assert records == records[..|records|];
  }

  /** The last four messages are the same before and after scoring. */
  lemma RecentUnscored(records: seq<LogRecord>, vector: Vector, sim: (Vector, Vector) -> real,
                       scored: seq<LogRecord>, recent: string)
    requires scored == Scored(records, vector, sim)
    requires recent == Strip(Join(Messages(scored[|scored| - Min(4, |scored|)..]), "\n\n"))
    ensures recent == Strip(Join(Messages(records[|records| - Min(4, |records|)..]), "\n\n"))
  {
    ScoredMessages(records, vector, sim, |records| - Min(4, |records|));
  }

  /** The prompt from the recalled memories, their notes and the recent block. */
  lemma ContextOf(records: seq<LogRecord>, vector: Vector, svc: Services,
                  memories: seq<LogRecord>, notes: string, recent: string)
    requires memories == Recall(records, vector, 5, svc.sim)
    requires notes == if memories == [] then "" else Summary(memories, svc.tokenCount, svc.complete)
    requires recent == Strip(Join(Messages(records[|records| - Min(4, |records|)..]), "\n\n"))
    ensures ConversationPrompt(notes, recent) == Context(records, vector, svc)
  {
  }

  /** Writing a JSON-named file keeps every name a JSON name. */
  lemma PutKeysJson(files: ODict<LogRecord>, name: string, rec: LogRecord)
    requires forall i :: 0 <= i < |files| ==> Occurs(files[i].0, ".json")
    requires Occurs(name, ".json")
    ensures forall i :: 0 <= i < |Put(files, name, rec)| ==> Occurs(Put(files, name, rec)[i].0, ".json")
  {
    var p := Put(files, name, rec);
    PutKeys(files, name, rec);
    forall i | 0 <= i < |p| ensures Occurs(p[i].0, ".json") {
      assert Keys(p)[i] == p[i].0;
      if i < |files| {
        assert Keys(files)[i] == files[i].0;
      }
    }
  }

  /** Scoring records leaves their messages as they were. */
  lemma ScoredMessages(logs: seq<LogRecord>, vector: Vector, sim: (Vector, Vector) -> real, from: nat)
    requires from <= |logs|
    ensures Messages(Scored(logs, vector, sim)[from..]) == Messages(logs[from..])
  {
    var a := Messages(Scored(logs, vector, sim)[from..]);
    var b := Messages(logs[from..]);
    forall i | 0 <= i < |a| ensures a[i] == b[i] {
      assert Scored(logs, vector, sim)[from + i].(score := logs[from + i].score) == logs[from + i];
    }
  }
}
