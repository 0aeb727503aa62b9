# Employ Ease core, modelled in Dafny

Employ Ease is a console chatbot for job seekers. Every message of a session
is stored as a JSON memory file with an embedding vector, and the prompt for
each answer is built from two parts: notes summarised from the recalled
memories and the most recent messages. This project models that core:

- `memory.dfy` (module `Memory`): recall in `fetch_memories`, which scores
  the loaded records in place in an array; the recent-message window of
  `get_last_messages`; the notes prompt and token budget of
  `summarize_memories`; `load_convo`; and the retry loop and text clean-up of
  `gpt3_completion`, including the ASCII filter applied to prompts.
- `conversation.dfy` (module `Conversation`): the theme table and the
  fallback in `themed_print`; the syntactic file-path test of
  `is_file_path`; `request_filepath_or_text` once the input has been read;
  and the prompt of `get_conversation`. The class `Session` holds a
  session's memory folder, log folder and transcript, which `save_message` and
  `send_prompt` update.
- `truth.dfy` (module `Truth`): `update_ssot_ini_info`. It splits each
  keyword argument at its first underscore into a section and an option,
  groups the results by section and sets every value, in double quotes, in
  the parser it is given.
  Also the `single_source_of_truth` object. Its fields are read from a
  configuration parser shared by every instance, and `__init__` and
  `update_truth` strip them.
- `menu.dfy` (module `Menu`): the option maps of the main and category
  menus; how the main loop and the question loop read a choice; and the
  placeholder substitution applied to a category's questions, done in place
  over an array.
- Supporting modules model the Python semantics the core relies on:
  - `text.dfy`: `str.isspace`, `strip`, ASCII encoding with `errors='ignore'`,
    `str.replace`, `str(n)` and `int(s)`.
  - `sorting.dfy`: the stable `sorted`.
  - `dicts.dfy`: insertion-ordered dictionaries.
  - `slices.dfy`: slicing with negative and out-of-range bounds.
  - `wrappers.dfy`: `Option` and `Result`.

The outside world enters as parameters. A `Services` value carries the
embedding, chat and completion endpoints, the tokenizer, cosine similarity,
and the clock formatting; a file reader and directory listings stand for the
disk. An exception becomes a `Failure` value.

Some behaviour follows from the code as written, and the model keeps it:

- `fetch_memories` scores only records whose vector equals the query vector
  exactly. So every recalled record has the score `sim(q, q)`, and the recall
  is the first `count` exact matches in stored order (`RecallIsFirstMatches`).
- The main menu shows the keys `G`, `U` and `Q`, but the loop matches only
  `g`, `u` and `q`. Typing a shown letter reaches `int()`, which raises
  (`ShownLettersRaise`).
- The question loop tests the integer `int(choice) - 1` against string keys,
  and that test can never hold. A question is therefore chosen only by its
  key as typed (`ChooseQuestion`, `DigitChoiceByKey`).
- `load_convo` raises when the session folder is missing and when a file
  cannot be read.
- `update_ssot_ini_info` passes the ini file's own path
  (`<cwd>\src\internal\single_source_of_truth.ini`) to `load_ini` as the
  directory, so `load_ini` looks for
  `...\single_source_of_truth.ini\single_source_of_truth.ini`. That file
  never exists, and `create_empty_ini_file(os.getcwd(), ...)` does nothing
  because the working directory exists. The parser read is therefore empty,
  and the first `parser.set` raises `NoSectionError`: every update with a
  keyword fails and nothing is written (`UpdateOfEmptyParserFails`).
- `re.search(r'\.[a-zA-Z0-9]+$', s)` also matches just before a final
  newline, so text read from standard input that ends in `a/b.txt\n` counts
  as a path.

## Model

| member | source | states |
|---|---|---|
| Memory.ScoreOf | Employ_Ease/src/scripts/memory.py:96-98 | a record whose vector equals the query gets score `sim(q, q)`, and nothing else of it changes; every other record is unchanged |
| Memory.Scored | Employ_Ease/src/scripts/memory.py:95-98 | the scoring pass keeps the length and every field except `score`, sets the score of exactly the matching records, and leaves the others alone |
| Memory.FetchMemories | Employ_Ease/src/scripts/memory.py:86-105 | the array afterwards holds the records with the scores written in place, and the result is the recall of the original records: matches sorted by decreasing score and cut to `count` |
| Memory.MatchingHas | Employ_Ease/src/scripts/memory.py:95-99 | every record whose vector equals the query is among the scored candidates |
| Memory.MatchingProps | Employ_Ease/src/scripts/memory.py:95-99 | every candidate has the query vector, and the candidates form a sub-multiset of the logs |
| Memory.MatchingScoredLength | Employ_Ease/src/scripts/memory.py:95-99 | scoring does not change which records match the query |
| Memory.MatchingScoredScores | Employ_Ease/src/scripts/memory.py:96-98 | every candidate after scoring carries the score `sim(q, q)` |
| Memory.RecallBound | Employ_Ease/src/scripts/memory.py:100-105 | the recall has at most as many records as there are matches, and exactly `min(count, matches)` for a non-negative count |
| Memory.RecallNonEmpty | Employ_Ease/src/scripts/memory.py:95-103 | when a record with the query vector is stored and `count > 0`, something is recalled |
| Memory.RecallExact | Employ_Ease/src/scripts/memory.py:95-103 | every recalled record has the query vector and score `sim(q, q)`, and the recall is a sub-multiset of the scored logs |
| Memory.RecallIsFirstMatches | Employ_Ease/src/scripts/memory.py:100-103 | because all scores are equal and the sort is stable, the recall is the first `count` matches in stored order |
| Memory.RecallOrdered | Employ_Ease/src/scripts/memory.py:100 | the recall is in non-increasing score order |
| Memory.BlocksJoin | Employ_Ease/src/scripts/memory.py:158-159 | appending each message and a blank line gives the messages joined by blank lines, plus one trailing blank line |
| Memory.StripBlocks | Employ_Ease/src/scripts/memory.py:158-162 | the stripped block equals the stripped join, so the trailing separator is lost |
| Memory.GetLastMessages | Employ_Ease/src/scripts/memory.py:175-191 | the result is the stripped, blank-line-separated join of `conversation[-limit:]` with Python's slice rules: the last `limit` messages for `limit > 0`, all of them for `0`, and all but the first `-limit` for a negative limit; an empty conversation gives `""` |
| Memory.CollapseRunsProps | Employ_Ease/src/scripts/memory.py:222-223 | after `re.sub('[..]+', c, s)` every class character is `c`, every other character comes from `s`, and no two class characters are adjacent |
| Memory.CollapseKeepsNoAdjacent | Employ_Ease/src/scripts/memory.py:222-223 | collapsing one class does not create adjacent pairs of characters outside it |
| Memory.CleanProps | Employ_Ease/src/scripts/memory.py:220-223 | the cleaned completion has no `\r` and no tab, no two adjacent newlines and no two adjacent spaces |
| Memory.Gpt3Completion | Employ_Ease/src/scripts/memory.py:193-230 | returns the completion of the ASCII-only prompt; it makes between 1 and 3 requests, each before the last one failed, and if it stops early the last one succeeded |
| Memory.CompletionUsesThreeRequests | Employ_Ease/src/scripts/memory.py:206-228 | the outcome depends only on the first three replies to the ASCII-only prompt |
| Memory.CompletionCases | Employ_Ease/src/scripts/memory.py:209-228 | the first successful reply among three attempts is returned cleaned, and after three failures the result is `"GPT3 error: "` followed by the last error |
| Memory.SentPromptIsAscii | Employ_Ease/src/scripts/memory.py:208 | the prompt sent is all ASCII and a subsequence of the given prompt |
| Memory.Budget | Employ_Ease/src/scripts/memory.py:166-171 | the budgeted prompt is a prefix of the prompt |
| Memory.BudgetCases | Employ_Ease/src/scripts/memory.py:166-171 | a prompt whose token count plus 400 is at most 4097 is sent unchanged, and a longer one is cut to `min(4097, length)` characters |
| Memory.SummaryOrder | Employ_Ease/src/scripts/memory.py:154 | the memories are summarised in non-decreasing time, each exactly once, and records with equal times keep their order |
| Memory.SummarizeMemories | Employ_Ease/src/scripts/memory.py:148-173 | returns the completion of the budgeted notes prompt around the stripped chronological block |
| Memory.FitToBudget | Employ_Ease/src/scripts/memory.py:166-171 | a prompt whose token count plus the 400 reserved response tokens is at most 4097 is returned unchanged; one over that limit is returned as its first `min(4097, len)` characters |
| Memory.JsonFiles | Employ_Ease/src/scripts/memory.py:115 | the filter keeps exactly the listed names that contain `.json` |
| Memory.ReadAll | Employ_Ease/src/scripts/memory.py:117-120 | on success there is one record per file, read from `folder\name`; reading fails if and only if some file's read fails |
| Memory.LoadConvo | Employ_Ease/src/scripts/memory.py:107-122 | returns `LoadSpec`: a missing folder raises; otherwise the JSON files are read in listing order and sorted by time |
| Memory.ReadAllPrefixFails | Employ_Ease/src/scripts/memory.py:117-120 | the first failing read decides the outcome |
| Memory.LoadProps | Employ_Ease/src/scripts/memory.py:113-122 | a successful load holds one record per JSON file, in non-decreasing time, and includes every stored JSON record |
| Conversation.AddThemesLookup | src/scripts/conversation.py:227-234 | after the configuration's items are assigned, a theme exists if and only if it is a default or a configured name; the last configured value wins, and otherwise the default stays |
| Conversation.BuildThemes | src/scripts/conversation.py:227-234 | builds the default themes with the configured items assigned in order |
| Conversation.ThemeStyle | src/scripts/conversation.py:36-40 | a known theme gives `"bold " + themes[theme]`; an unknown one falls back to `os_color`; with neither, the lookup raises |
| Conversation.DefaultThemeStyle | src/scripts/conversation.py:37-40 | without a configured `Error` theme, the error style is `"bold bold red"` |
| Conversation.DefaultThemeNames | src/scripts/conversation.py:227-232 | the default table holds exactly the four named themes |
| Conversation.EndsWithExtensionIff | src/scripts/conversation.py:147-150 | the scan for a trailing extension holds if and only if a `.` is followed by one or more letters or digits up to the end |
| Conversation.IsFilePathShape | src/scripts/conversation.py:140-155 | input counts as a path if and only if it has a separator and ends with an extension (before an optional final newline) and its directory exists |
| Conversation.RequestFilepathOrText | src/scripts/conversation.py:157-170 | input that is not an existing path is returned reduced to ASCII; for an existing path, a read that raises makes the request raise, content read is returned, and a read yielding nothing falls back to the ASCII input once the `Info` notice prints (and raises when it cannot); any result other than the ASCII input is content read from the file; a request that cannot be printed raises |
| Conversation.RequestStyles | src/scripts/conversation.py:37-40 | with the module's themes, the request prints if and only if `bold green` or `os_color` is configured, and the `Info` notice always prints |
| Conversation.DirectTextIsAscii | src/scripts/conversation.py:169-170 | typed text comes back as ASCII only, as a subsequence of the input |
| Conversation.ConversationPromptParts | src/scripts/conversation.py:137 | the prompt contains the notes and the recent messages at fixed offsets and ends with `EmployEase: ` |
| Conversation.ReadStored | src/scripts/conversation.py:131 | a stored memory file reads back as its record |
| Conversation.StoredRecordIsLoaded | src/scripts/conversation.py:131 | every stored record with a `.json` name is among the loaded conversation |
| Conversation.ContextSummarises | src/scripts/conversation.py:131-138 | when the record is stored in the conversation, something is recalled and the prompt embeds the summary of the five recalled memories and the last four messages |
| Conversation.MemoryFileName | src/scripts/conversation.py:94 | every memory file name contains `.json`, so `load_convo` reads it back |
| Conversation.Message | src/scripts/conversation.py:80-92 | the stored record has the speaker, clock reading, uuid and time string; its text is the user's prompt or the chat answer to it; its vector is the embedding of the ASCII text |
| Conversation.TurnOfSteps | src/scripts/conversation.py:64-66 | an exchange whose three steps succeed stores the user's record, builds the context and stores the answer |
| Conversation.TurnFailsOnlyInServices | src/scripts/conversation.py:64-66 | once the user's message is saved, building the context cannot fail, so the exchange succeeds if and only if the answer's service calls succeed |
| Conversation.TurnContext | src/scripts/conversation.py:64-65 | the context is built from a loaded conversation that holds the user's own message, so its recall is never empty |
| Conversation.TurnStoresAnswer | src/scripts/conversation.py:66 | the answer is the chat model's reply to the context, and it is stored under its memory file name |
| Conversation.Session.constructor | src/scripts/conversation.py:45-53 | a session named `Session_<timestamp>` starts with no folder, no files and no transcript |
| Conversation.Session.SaveMessage | src/scripts/conversation.py:69-102 | a failing chat or embedding call changes nothing; otherwise the memory file is written (or replaced), and when the log folder exists the transcript gets `speaker: content`, being created by the append if missing; the result is the (vector, text) pair exactly when the log folder exists and a bot message's theme resolves |
| Conversation.Session.SendPrompt | src/scripts/conversation.py:45-67 | the log folder and the transcript exist afterwards; an unknown `user_color` theme raises before anything is saved; the exchange succeeds exactly when `user_color` resolves, both messages and the context can be computed, and `bot_color` resolves; a reply is the answer of the exchange, with both files stored and both transcript entries appended |
| Conversation.Session.GetConversation | src/scripts/conversation.py:124-138 | returns the prompt built from the loaded session, or the loading error |
| Conversation.Recollect | src/scripts/conversation.py:132-138 | computes the prompt from the loaded records: recall, the summary if there is anything recalled, and the last four messages |
| Conversation.RecentUnscored | src/scripts/conversation.py:132-136 | the recent messages are the same whether taken before or after scoring in place |
| Conversation.ContextOf | src/scripts/conversation.py:132-137 | the pieces computed step by step make up `Context` |
| Conversation.PutKeysJson | src/scripts/conversation.py:94 | writing a `.json` file keeps every file name in the folder a `.json` name |
| Conversation.ScoredMessages | src/scripts/conversation.py:132-136 | scoring does not change any message text |
| Truth.SplitKey | Employ_Ease/src/scripts/single_source_of_truth.py:79 | `key.split("_", 1)` into two names succeeds if and only if the key has an underscore; the key is then section `_` option, and the section has no underscore |
| Truth.SplitKeyExact | Employ_Ease/src/scripts/single_source_of_truth.py:79 | a section without underscores and any option split back from their joined keyword |
| Truth.SplitCompanyName | src/scripts/conversation.py:194-196 | `application_company_name` writes option `company_name` of section `application` |
| Truth.AddUpdateLookup | Employ_Ease/src/scripts/single_source_of_truth.py:80-82 | one grouping step adds or overwrites exactly one (section, option) entry |
| Truth.GroupFails | Employ_Ease/src/scripts/single_source_of_truth.py:78-79 | grouping raises if and only if some keyword has no underscore |
| Truth.GroupEntries | Employ_Ease/src/scripts/single_source_of_truth.py:77-82 | the groups hold exactly the pairs named by the keywords; other entries are left as they were |
| Truth.GroupValue | Employ_Ease/src/scripts/single_source_of_truth.py:77-82 | every keyword's value is stored under its section and option |
| Truth.CountAddUpdate | Employ_Ease/src/scripts/single_source_of_truth.py:80-82 | a grouping step adds one entry unless the pair is already present |
| Truth.GroupCount | Employ_Ease/src/scripts/single_source_of_truth.py:77-82 | distinct keywords produce exactly one entry each |
| Truth.GroupWellGrouped | Employ_Ease/src/scripts/single_source_of_truth.py:77-82 | the groups keep distinct section names and distinct option names within each section |
| Truth.GroupedCount | Employ_Ease/src/scripts/single_source_of_truth.py:77-82 | grouping distinct keywords from nothing yields one entry per keyword |
| Truth.Quote | Employ_Ease/src/scripts/single_source_of_truth.py:87 | the written value is the value between two double quotes |
| Truth.StripQuote | Employ_Ease/src/scripts/single_source_of_truth.py:42-56 | stripping a quoted value keeps its quotes, so the object's fields read back quoted |
| Truth.SetOptionsLookup | Employ_Ease/src/scripts/single_source_of_truth.py:86-87 | setting a section's options writes each one quoted, adds nothing else and keeps every other option |
| Truth.SetOptionsFails | Employ_Ease/src/scripts/single_source_of_truth.py:86-87 | `parser.set` raises if and only if there is an option and the section is missing |
| Truth.ApplyLookup | Employ_Ease/src/scripts/single_source_of_truth.py:85-87 | applying all groups writes every grouped value quoted, keeps every other option, and adds no section |
| Truth.ApplyFails | Employ_Ease/src/scripts/single_source_of_truth.py:85-87 | applying raises if and only if some non-empty group names a section the parser lacks |
| Truth.SetOptionsKeys | Employ_Ease/src/scripts/single_source_of_truth.py:87 | setting options never adds a section |
| Truth.UpdateSsotIniInfo | Employ_Ease/src/scripts/single_source_of_truth.py:71-92 | the loops compute `UpdateSpec`: group the keywords, then set each value quoted |
| Truth.UpdateFails | Employ_Ease/src/scripts/single_source_of_truth.py:77-87 | the update raises if and only if a keyword has no underscore or names a section the parser lacks |
| Truth.UpdateOfEmptyParserFails | Employ_Ease/src/scripts/single_source_of_truth.py:84-87 | with the empty parser that the call to `load_ini` yields, every update with at least one keyword raises |
| Truth.UpdateWrites | Employ_Ease/src/scripts/single_source_of_truth.py:77-87 | every keyword's value ends up quoted under its section and option |
| Truth.UpdateKeeps | Employ_Ease/src/scripts/single_source_of_truth.py:77-87 | the sections are unchanged, options are added only for keywords, and every option no keyword names keeps its value |
| Truth.FieldKeys | Employ_Ease/src/scripts/single_source_of_truth.py:42-47 | each field's keyword splits back to its section and option, and different fields have different option names |
| Truth.MergeLookup | Employ_Ease/src/scripts/single_source_of_truth.py:41 | reading a file into the shared parser adds its sections and options, with the file's values taking precedence |
| Truth.ReadField | Employ_Ease/src/scripts/single_source_of_truth.py:42-47 | `config_obj.get(section, option).strip()` succeeds if and only if the section and option exist, and gives the stripped stored text |
| Truth.ReadFieldTrimmed | Employ_Ease/src/scripts/single_source_of_truth.py:42-47 | a read field has no surrounding whitespace and sits between whitespace runs of the raw text |
| Truth.AssignSucceeds | Employ_Ease/src/scripts/single_source_of_truth.py:42-56 | the assignments finish if and only if every field in the order can be read |
| Truth.AssignValue | Employ_Ease/src/scripts/single_source_of_truth.py:42-56 | when they finish, every assigned field holds its stripped text and the other fields are unchanged |
| Truth.FirstFailure | Employ_Ease/src/scripts/single_source_of_truth.py:42-56 | the position of the first field that cannot be read |
| Truth.AssignStops | Employ_Ease/src/scripts/single_source_of_truth.py:42-56 | a failing read stops the assignments: the fields before it are assigned and the error is the failing read's |
| Truth.OrdersHold | Employ_Ease/src/scripts/single_source_of_truth.py:42-56 | both assignment orders cover all six fields |
| Truth.SameFields | Employ_Ease/src/scripts/single_source_of_truth.py:42-56 | two orders over the same fields agree on success and on the values |
| Truth.OrdersAgree | Employ_Ease/src/scripts/single_source_of_truth.py:42-56 | `__init__` and `update_truth` assign in different orders but give the same outcome and values |
| Truth.InitLoadsEveryField | Employ_Ease/src/scripts/single_source_of_truth.py:42-47 | after a successful `__init__` every field holds its stripped configuration text |
| Truth.WrittenReadsQuoted | Employ_Ease/src/scripts/single_source_of_truth.py:42-56 | a value written by the update reads back into the object with its quotes |
| Truth.SharedConfig.constructor | Employ_Ease/src/scripts/single_source_of_truth.py:33 | the shared parser starts empty |
| Truth.SharedConfig.Read | Employ_Ease/src/scripts/single_source_of_truth.py:41 | reading a file merges its sections into the shared parser |
| Truth.SingleSourceOfTruth.Blank | Employ_Ease/src/scripts/single_source_of_truth.py:34-38 | the object before `__init__`'s assignments, with every field empty; these values are never observed, since `__init__` assigns all six fields or raises |
| Truth.SingleSourceOfTruth.New | Employ_Ease/src/scripts/single_source_of_truth.py:40-47 | `__init__` reads the file into the shared parser; the object exists if and only if all six fields can be read, and then it holds their stripped values; otherwise the first error is returned |
| Truth.SingleSourceOfTruth.UpdateTruth | Employ_Ease/src/scripts/single_source_of_truth.py:49-56 | reads the file again and reassigns the fields in order; fields assigned before a failing read keep their new values |
| Truth.SingleSourceOfTruth.Load | Employ_Ease/src/scripts/single_source_of_truth.py:42-56 | the fields and the error are those `Assign` gives |
| Truth.SingleSourceOfTruth.Set | Employ_Ease/src/scripts/single_source_of_truth.py:42 | assigning one attribute changes that field only |
| Menu.MainMenuOptions | src/scripts/Main.py:67-73 | the main menu maps `"1"`..`"n"` to the categories in order, followed by `G`, `U` and `Q`; all keys are distinct |
| Menu.FixedEntriesAppended | src/scripts/Main.py:71-73 | the three letter entries never overwrite a numbered entry and are appended in order |
| Menu.NumberedDistinct | src/scripts/Main.py:67-73 | the number keys and the letter keys are pairwise distinct |
| Menu.Listed | src/scripts/Main.py:80-81 | a listed question has no double quote and ends with a comma |
| Menu.CategoryMenuOptions | src/scripts/Main.py:78-82 | every question is listed under its key in order, then `Q` for "Return to Main Menu", which replaces a question keyed `Q` if there is one; the keys stay distinct |
| Menu.CategoryMenuUnquoted | src/scripts/Main.py:80-82 | no entry of a category menu contains a double quote |
| Menu.CategoryChoice | src/scripts/Main.py:190-210 | a category is chosen if and only if the choice is not `q`, `g` or `u` and `int()` gives a number from 1 to n, and it is then the category at that number; the choice raises if and only if `int()` fails |
| Menu.MenuKeySelects | src/scripts/Main.py:69-70 | typing a category's menu key selects that category |
| Menu.ShownLettersRaise | src/scripts/Main.py:71-73 | typing `G`, `U` or `Q` as the menu shows them raises instead of acting |
| Menu.PyIntAlphabetFails | src/scripts/Main.py:203 | `int()` raises on a single letter |
| Menu.ChooseQuestion | src/scripts/Main.py:226-240 | `q` in either case goes back; otherwise a question is sent if and only if the typed text is its key, and then it is that key's question |
| Menu.ShownKeySends | src/scripts/Main.py:226-236 | typing a listed key other than q sends that question, and `Q` goes back |
| Menu.DigitChoiceByKey | src/scripts/Main.py:231-236 | a digit choice works only through the string key it spells |
| Menu.Bracketed | src/scripts/Main.py:218-224 | a name without angle brackets, in brackets, is a placeholder tag |
| Menu.OptionName | src/scripts/Main.py:219-224 | placeholder names are lower-case letters and underscores |
| Menu.TagShape | src/scripts/Main.py:219-224 | every placeholder is a tag, and different fields have different placeholders |
| Menu.Substituted | src/scripts/Main.py:218 | a question without both `<` and `>` is left unchanged |
| Menu.SubstitutePlaceholders | src/scripts/Main.py:213-224 | each question is replaced in place by its substituted text, under its own key |
| Menu.PartialNone | src/scripts/Main.py:219-224 | a question template with no field filled in is the question text itself |
| Menu.PartialFree | src/scripts/Main.py:218 | a question without `<` holds no placeholder, so filling in any fields leaves it unchanged |
| Menu.OpenedIsClosed | src/scripts/Main.py:218 | a question that contains `<` (its literal text and values having none) contains `>` too, so the guard lets every question with a placeholder through |
| Menu.OtherTagHead | src/scripts/Main.py:219-224 | replacing one field's placeholder passes over a different field's placeholder unchanged |
| Menu.TagPasses | src/scripts/Main.py:219-224 | a placeholder is copied unchanged by the replacement of a different one |
| Menu.StepPartial | src/scripts/Main.py:219-224 | each `replace` call fills in exactly its own field, at every occurrence, given values without `<` |
| Menu.SixStepsFill | src/scripts/Main.py:219-224 | the six `replace` calls, in the source's order, fill in every field of the question |
| Menu.SubstituteAll | src/scripts/Main.py:218-224 | a question made of literal text and any number of placeholders, of different fields or repeated, becomes that text with every placeholder replaced by its field's value (text and values without `<`) |
| Menu.SubstituteOne | src/scripts/Main.py:218-224 | a question with one placeholder (and values without `<`) becomes the question with that field's value in its place |
| Menu.SubstituteTwo | src/scripts/Main.py:218-224 | a question with two placeholders, of different fields or the same one, gets both values in their places |
| Text.Strip | Employ_Ease/src/scripts/memory.py:162 | `str.strip()` gives the text between a leading and a trailing whitespace run; it neither starts nor ends with whitespace, and it is empty if and only if the text is all whitespace |
| Text.StripUnique | Employ_Ease/src/scripts/memory.py:162 | any trimmed core between whitespace runs is the stripped text |
| Text.StripAppendSpaces | Employ_Ease/src/scripts/memory.py:189-190 | trailing whitespace does not change the stripped text |
| Text.StripFixed | Employ_Ease/src/scripts/memory.py:162 | stripping is the identity on trimmed text |
| Text.StripKeeps | Employ_Ease/src/scripts/memory.py:162 | every character that is not whitespace survives stripping |
| Text.AsciiOnly | Employ_Ease/src/scripts/memory.py:208 | encoding to ASCII with `errors='ignore'` gives ASCII text that is no longer, and leaves the text unchanged if and only if it is already ASCII |
| Text.AsciiOnlyIsSubsequence | Employ_Ease/src/scripts/memory.py:208 | the filter only drops characters and keeps the order |
| Text.AsciiOnlyIdempotent | Employ_Ease/src/scripts/memory.py:72 | filtering twice is filtering once |
| Text.ReplaceAbsent | src/scripts/Main.py:219-224 | `replace` with no occurrence changes nothing |
| Text.ReplaceSelf | src/scripts/Main.py:219-224 | replacing a pattern by itself changes nothing |
| Text.ReplaceLeftmost | src/scripts/Main.py:219-224 | the leftmost occurrence is replaced, and the scan resumes after it |
| Text.ReplaceAt | src/scripts/Main.py:219-224 | the first occurrence, at position k, is replaced and the rest is scanned after it |
| Text.ReplacePassesPrefix | src/scripts/Main.py:219-224 | text without the pattern's first character is copied unchanged and the scan goes on after it |
| Text.ReplaceHead | src/scripts/Main.py:219-224 | text that starts with the pattern gets the replacement first, then the rest is scanned |
| Text.ReplaceRemovesChar | src/scripts/Main.py:80 | removing a character with `replace` leaves no occurrence of it |
| Text.NatToString | src/scripts/Main.py:69 | `str(n)` is a non-empty string of digits |
| Text.DecimalRoundTrip | src/scripts/Main.py:69 | `str(n)` spells the decimal value `n` |
| Text.NatToStringInjective | src/scripts/Main.py:69 | different numbers give different menu keys |
| Text.PyIntOfNatToString | src/scripts/Main.py:203 | `int(str(n)) == n` |
| Text.PyIntAlphabet | src/scripts/Main.py:203 | `int()` accepts only whitespace, digits, underscores and signs |
| Sorting.WithKeyAppend | Employ_Ease/src/scripts/memory.py:154 | the elements with a given key distribute over concatenation |
| Sorting.InsertPermutes | Employ_Ease/src/scripts/memory.py:154 | insertion adds exactly the inserted element |
| Sorting.InsertSorted | Employ_Ease/src/scripts/memory.py:154 | insertion into a sorted list keeps it sorted |
| Sorting.InsertStable | Employ_Ease/src/scripts/memory.py:154 | insertion puts the new element after every element with an equal key |
| Sorting.SortBy | Employ_Ease/src/scripts/memory.py:121 | `sorted(..., key=...)` has the input's length and is in non-decreasing key order |
| Sorting.SortPermutes | Employ_Ease/src/scripts/memory.py:121 | the sorted list is a permutation of its input |
| Sorting.SortStable | Employ_Ease/src/scripts/memory.py:100 | elements with equal keys keep their relative order |
| Sorting.SortOfSorted | Employ_Ease/src/scripts/memory.py:154 | sorting a sorted list is the identity |
| Dicts.Keys | src/scripts/conversation.py:233-234 | the keys in iteration order, one per entry |
| Dicts.PutKeys | src/scripts/conversation.py:233-234 | assignment keeps the key order and appends a new key at the end |
| Dicts.HasKeyInKeys | src/scripts/conversation.py:37 | `k in d` if and only if `k` is among the keys |
| Dicts.PutGet | src/scripts/conversation.py:234 | after `d[k] = v`, `d[k]` is `v` |
| Dicts.PutOther | src/scripts/conversation.py:234 | assignment to one key leaves the presence and value of every other key unchanged |
| Dicts.PutDistinct | src/scripts/Main.py:70 | assignment keeps keys distinct |
| Dicts.GetHolds | src/scripts/conversation.py:40 | a looked-up value has any property all values share |
| Dicts.PutHolds | src/scripts/conversation.py:234 | assignment keeps a property shared by all values |
| Dicts.PutLength | src/scripts/Main.py:70 | assignment grows the dictionary by one exactly for a new key |
| Dicts.GetAt | src/scripts/Main.py:235-236 | looking up an entry's key gives that entry's value |
| Dicts.PutNew | src/scripts/Main.py:70 | assigning a new key appends the entry |
| Dicts.PutAt | src/scripts/Main.py:82 | assigning an existing key replaces its entry in place |
| Slices.Bound | Employ_Ease/src/scripts/memory.py:183 | a slice bound counts from the end when negative and is clamped to the list |
| Slices.PrefixSlice | Employ_Ease/src/scripts/memory.py:102 | `s[0:count]` is the first `min(count, len)` elements for a non-negative count |
| Slices.TailSlice | Employ_Ease/src/scripts/memory.py:183 | `s[-limit:]` is the last `limit` elements for a positive limit, everything for 0, and everything after position `-limit` for a negative limit |

## Left out

- Cosine similarity and floating point: the similarity is the parameter `sim`. Scores are exact reals, not floats, and no NaN arises.
- The chat, completion and embedding endpoints, API keys, the network and the one-second sleep between retries: the endpoints are the functions in `Services`, and a failing request is a `Failed` reply or a `Failure` result.
- Token counting with tiktoken and `encoding_getter`/`tokenizer`: the token count is the parameter `tokenCount`.
- The clock, `uuid4` and `strftime`: the clock readings, uuids, the time-string formatter and the stamp used in file names are parameters.
- File I/O: JSON encoding, the transcript file's header and format, `read_file_content`, `load_ini`, `create_new_memory_file` and `append_transcript`. The model keeps the memory folder and the transcript as values. It represents the directory listing order by the order files were created, and `os.path.exists`/`os.path.dirname` by booleans passed in.
- The rich console output: spinners, panels, tables, and the menu strings built at `src/scripts/Main.py:74` and `:83`. A theme is modelled only through the style lookup, which raises when it fails.
- configparser details: interpolation, the lower-casing of option names, the `DEFAULT` section, an empty section list, writing the parser back to disk, and the `IOError` message.
- Truth.SharedConfig.Read: it takes an already parsed file, so the errors `config_obj.read` raises on a malformed file (`MissingSectionHeaderError`, `DuplicateSectionError`, `DuplicateOptionError` and other `ParsingError`s, at single_source_of_truth.py:41 and :50) are not modelled.
- Truth.UpdateSsotIniInfo: the parser is a parameter, and the program's `load_ini` call is not modelled. The lemmas about it describe the update of the file it is evidently meant to load. The parser the program actually loads is empty, and `UpdateOfEmptyParserFails` states what follows from that. `load_ini` and `create_empty_ini_file` are not part of this model.
- `str.isdigit` and `str.lower`, and `int()` on non-ASCII digits: only ASCII digits and the ASCII `q`/`Q` are modelled.
- The interactive loops of `main`, `general_questions` and `update_application_info`, and the contents of `prime_information`, `prime_chatgpt` and `display_contents_in_memory`: these are I/O-driven orchestration around the modelled operations.
- The methods `job_name()`, … at single_source_of_truth.py:58-69: each instance assignment shadows its method, so they are never called.
- Menu.CategoryMenuOptions: `print_menu_options` picks its branch by `"MENU" in title` (`src/scripts/Main.py:66`). The title is not modelled, so a category whose name contains `MENU`, which is rendered as a main menu, is not covered; the model assumes the category branch.
- Menu.SubstituteAll: the property is proved for question text and values without `<`. A value that holds a later field's placeholder is replaced again by the following `replace` calls. `Substituted` models that case, but no lemma describes its result.
- Memory.Gpt3Completion: the number of requests made is a ghost out-parameter, and the contract does not state which three replies the endpoint gave.
- Conversation.Session.SendPrompt: when a step after the first save fails, its contract does not state which files and transcript entries were written before the failure.
- Conversation.Session.SaveMessage: the transcript records only entries; the `TRANSCRIPT FILE` header of `create_new_transcript` and the `=` separator lines are not modelled, and a transcript created by the append has no header.
- Conversation.Session.SaveMessage: the order of a bot message's printing relative to the transcript append is not modelled, only whether printing raises.
