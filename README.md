# MoM Agent core, modelled in Dafny

The MoM Agent turns a meeting transcript into Minutes of Meeting (MoM) with a chat-completion
model, and keeps projects and their meetings in a data directory. This project models three
parts of it:

- `OpenAIService` (app/ai_service.py) is modelled in `MomText.dfy`, `MomPrompt.dfy` and
  `AiService.dfy`. It covers:
  - the list of models to try (the primary, then three fallbacks);
  - the two prompts;
  - the fallback loop of `generate_mom`, proved against the specification function `RunFrom`;
  - removal of unwanted reply prefixes and placeholder substitution;
  - the diagnostic document returned when the last model fails;
  - `test_connection`.

  The chat API is a parameter: `transport(i)` is what the i-th request came back with. It can
  raise, return no choices, or return a reply whose content may be `None`.
- `DataManager` (app/models.py) is modelled in `Models.dfy`. It is a class whose `projects`
  field maps each project name to its directory: the metadata plus the meeting files, keyed by
  meeting id. Each file is either a readable record or unreadable. Every operation states its
  whole new state and keeps the invariant `Consistent`, which says each record sits under its
  own id. The meeting listing is proved to hold one entry per readable file, so a record
  stored in two files appears twice, and to be sorted newest first. The prior-meeting context is proved against the function `Context`.
- `markdown_to_clean_text` (app/main.py) is modelled in `Cleaner.dfy` as `CleanText`. Each
  `re.sub` becomes a left-to-right scanner. The lemmas prove:
  - no checkbox survives;
  - no line starts with "- " after the bullet step;
  - dropping bold and italic markers removes asterisks and nothing else.

`Text.dfy` holds the Python string operations the core relies on: `strip`, `startswith`, `in`,
`replace`, `join` and `<` on `str`. `Wrappers.dfy` holds `Option` and `Result`.

Where the code's behaviour is surprising, the model keeps it:

- The fallback loop decides whether a failed model is "the last" by comparing its name with
  the name of the last entry. A primary named "gpt-3.5-turbo" that fails therefore ends the
  run after one request (`PrimaryNamedLastSkipsFallbacks`).
- A reply whose `content` is `None` raises inside the `try`, because `.strip()` is called on
  `None`. It is treated like a failed call.
- A response with no choices on the last model makes `generate_mom` return `None`.
- `get_project_context` takes `meetings[-5:]` of a listing sorted newest first. So it reads
  the five oldest meetings, although the comment there speaks of the last five
  (`WindowHoldsOldest`).

## Model

| member | source | states |
|---|---|---|
| AiService.RunFrom | app/ai_service.py:75-127 | the loop sends at least one request and at most one per entry, and it runs off the end only after trying every entry |
| AiService.RunSkips | app/ai_service.py:110-124 | attempts with no choices, or failing on a model not named like the last entry, only hand over to the next entry |
| AiService.RunStops | app/ai_service.py:75-127 | every attempt before the last one sent let the loop go on, and the last one sent either stopped it or was the final entry |
| AiService.FirstReplyWins | app/ai_service.py:87-108 | the first reply with content ends the loop after k+1 requests, and its content is what gets returned |
| AiService.FailureOnLastNameReports | app/ai_service.py:110-123 | a failure on a model named like the last entry reports that attempt's error at once |
| AiService.ExhaustedGivesNone | app/ai_service.py:126-127 | when every attempt lets the loop go on, every entry is tried and the outcome is "nothing" |
| AiService.SendRequests | app/ai_service.py:75-127 | the loop ends as `RunFrom` says and sends as many requests; request j goes to model j with max_tokens 2000 and the two prompts |
| AiService.ResultOf | app/ai_service.py:87-127 | what `generate_mom` returns for each way the loop ends: the sanitized reply, the diagnostic or `None`; `GenerateMom` is proved to return it for the run `RunFrom` describes |
| AiService.OpenAIService.constructor | app/ai_service.py:6-14 | the service keeps the given primary model, "gpt-4o-mini" when none is given |
| AiService.OpenAIService.ModelsToTry | app/ai_service.py:73 | four entries: the primary, then "gpt-4o-mini", "gpt-4o" and "gpt-3.5-turbo" |
| AiService.OpenAIService.GenerateMom | app/ai_service.py:16-127 | the requests sent and the result match the loop specification: a cleaned and substituted reply, the diagnostic, or `None`; request j goes to model j with max_tokens 2000 and the two prompts |
| AiService.OpenAIService.TestConnection | app/ai_service.py:129-141 | one 10-token ping to the primary model; true exactly when the response had choices |
| AiService.OpenAIService.PrimaryNamedLastSkipsFallbacks | app/ai_service.py:112 | a failing primary named "gpt-3.5-turbo" ends the run after one request with its error reported |
| AiService.OpenAIService.AllFailuresTryEveryModel | app/ai_service.py:110-124 | with any other primary, failures everywhere try all four models and report the fourth error |
| AiService.OpenAIService.NoChoicesAtEndGivesNone | app/ai_service.py:126-127 | no choices from the fourth model, after the others let the loop go on, gives `None` after four requests |
| MomPrompt.DisplayName | app/ai_service.py:104 | never empty; a non-empty project name is used as given |
| MomPrompt.UserPrompt | app/ai_service.py:70 | the fixed instruction, a blank line, then the whole transcript |
| MomPrompt.SystemPrompt | app/ai_service.py:45-68 | the head with the project name and date, the context block only for a non-empty context, then the closing instructions; `SystemPromptHasDate`, `SystemPromptNamesProject` and `SystemPromptContext` prove what it holds |
| MomPrompt.SystemPromptHasDate | app/ai_service.py:59 | the system prompt carries the date guideline followed by the given date |
| MomPrompt.SystemPromptNamesProject | app/ai_service.py:58 | the system prompt names the project, as "Meeting Project" when no name is given |
| MomPrompt.SystemPromptContext | app/ai_service.py:62 | a non-empty context appears after its marker, and the prompt differs from the context-free one exactly when a context is given |
| MomPrompt.DropPrefix | app/ai_service.py:100-101 | one prefix step leaves the reply as it was or returns it stripped |
| MomPrompt.DropPrefixes | app/ai_service.py:99-101 | the prefix loop as a function: one `DropPrefix` step per prefix, in order, with no early exit; `RemovePrefixes` is proved to compute it, the lemmas below say what it returns |
| MomPrompt.RemovePrefixes | app/ai_service.py:91-101 | the loop over the five prefixes computes `DropPrefixes` of the reply |
| MomPrompt.DropPrefixesNoMatch | app/ai_service.py:99-101 | a reply whose stripped form starts with none of the prefixes is returned with its whitespace intact |
| MomPrompt.DropPrefixesShape | app/ai_service.py:99-101 | the prefix loop returns the reply untouched or stripped at both ends |
| MomPrompt.DropPrefixesGoesOn | app/ai_service.py:99-101 | there is no `break`: after prefix k matches, the later prefixes go on to act on the stripped rest, so a reply can lose several prefixes |
| MomPrompt.DropPrefixesRemovesMatch | app/ai_service.py:99-101 | a reply starting with prefix k, where no other prefix applies, comes back as the stripped rest |
| MomPrompt.Substitute | app/ai_service.py:104-106 | the three replaces in source order; the `SubstituteResolves*`, `SubstituteWithoutTokens` and `SubstituteIdempotent` lemmas prove what it leaves |
| MomPrompt.Sanitize | app/ai_service.py:91-106 | what a reply with content becomes: the prefix loop, then the substitution |
| MomPrompt.AgentNameFormsNoToken | app/ai_service.py:106 | "MoM Agent" cannot help form any of the three placeholders |
| MomPrompt.IsoDateFormsNoToken | app/ai_service.py:105 | a YYYY-MM-DD date cannot help form either brace placeholder |
| MomPrompt.DefaultNameFormsNoToken | app/ai_service.py:104 | "Meeting Project" cannot help form `{project_name}` |
| MomPrompt.SubstituteResolvesName | app/ai_service.py:106 | no `[Name]` is left after substitution, for every reply |
| MomPrompt.SubstituteResolvesDate | app/ai_service.py:105 | with a well-formed date, no `{meeting_date}` is left |
| MomPrompt.SubstituteResolvesProject | app/ai_service.py:104 | no `{project_name}` is left when the name cannot help form it |
| MomPrompt.SubstituteWithoutTokens | app/ai_service.py:104-106 | a reply with no placeholder passes substitution unchanged |
| MomPrompt.SubstituteIdempotent | app/ai_service.py:104-106 | a second substitution pass changes nothing |
| MomPrompt.DiagnosticDocument | app/ai_service.py:113-123 | the diagnostic returned on a failure judged to be on the last model; `DiagnosticContents` proves what it holds |
| MomPrompt.DiagnosticContents | app/ai_service.py:113-123 | the diagnostic starts with the title and names the project, the date, the last error and every model tried, comma-separated in order |
| Models.NewMeeting | app/models.py:8-20 | a new meeting has the given id, title and date, and empty transcript, minutes and attendees |
| Models.NewProject | app/models.py:22-30 | a new project has the given name and date and no meetings |
| Models.InsertByDate | app/models.py:73 | inserting adds exactly one meeting and loses none |
| Models.InsertKeepsOrder | app/models.py:73 | inserting into a newest-first list keeps it newest-first |
| Models.SortByDate | app/models.py:73 | the sorted list is a permutation of the input, with dates in descending string order |
| Models.Window | app/models.py:124 | at most five entries: the whole list when it is short, otherwise its last five |
| Models.Minutes | app/models.py:126 | the final minutes when present, otherwise the draft |
| Models.Part | app/models.py:127 | each context part starts with "Previous meeting (" and ends with a line break |
| Models.Context | app/models.py:117-129 | `get_project_context` on a listing: "" for an empty listing, otherwise the parts of the window joined by line breaks; `ContextOf` is proved to compute it, and `ContextEmpty` and `ContextShowsMinutes` say what it holds |
| Models.ContextParts | app/models.py:123-127 | no more parts than meetings read |
| Models.ContextPartsMembers | app/models.py:123-127 | a part is in the list exactly when it belongs to a meeting there that has minutes |
| Models.ContextEmpty | app/models.py:117-129 | the context is empty exactly when no meeting in the window has minutes |
| Models.ContextShowsMinutes | app/models.py:123-129 | every meeting in the window with minutes has its part in the context |
| Models.WindowHoldsOldest | app/models.py:124 | on a newest-first listing, no meeting left out is older than one in the window |
| Models.DataManager.constructor | app/models.py:33-35 | the manager starts over the existing data directory |
| Models.DataManager.GetMeeting | app/models.py:95-105 | a record comes back exactly when its file exists and parses, and it is that file's record |
| Models.DataManager.GetProjects | app/models.py:37-41 | every project name, each exactly once, and nothing else |
| Models.DataManager.CreateProject | app/models.py:43-55 | true exactly for a new name, which gets an empty project; an existing name changes nothing |
| Models.DataManager.GetProjectMeetings | app/models.py:57-74 | the readable records of the project, each as many times as files hold it, newest first; nothing for a missing project |
| Models.DataManager.CreateMeeting | app/models.py:76-93 | a missing project is the error "Project <name> does not exist" and changes nothing; otherwise the new record is stored under its id and the id is returned |
| Models.DataManager.SaveMeeting | app/models.py:107-115 | true exactly when the project exists; the record is then stored under its own id and reads back unchanged |
| Models.DataManager.GetProjectContext | app/models.py:117-129 | the context of the project's listing |
| Models.DataManager.DeleteMeeting | app/models.py:131-140 | true exactly when the file existed; afterwards it is gone and nothing else changed |
| Models.DataManager.DeleteProject | app/models.py:142-152 | true exactly when the project existed; afterwards it is gone with its meetings |
| Models.ReadRecords | app/models.py:63-70 | the file loop keeps one entry per readable file, so each record appears as many times as files hold it, and skips the unreadable ones |
| Models.ContextOf | app/models.py:120-129 | the context loop computes `Context` of the listing |
| Cleaner.CloseAt | app/main.py:21-22 | a match that closes does so on an occurrence of the marker at or after the opening |
| Cleaner.CloseAtFirst | app/main.py:21-22 | the lazy `(.*?)` stops at the first closing marker with no line break before it, and finds none only when there is no such marker |
| Cleaner.Opening | app/main.py:21-22 | a match opens only on the marker and closes on a second marker that does not overlap the first |
| Cleaner.Unwrap | app/main.py:21-22 | one `re.sub` of a marker pair: each match, found left to right, is replaced by its inner text; `UnwrapAbsent`, `UnwrapSpan` and `UnwrapKeepsText` prove what it does |
| Cleaner.UnwrapAbsent | app/main.py:21-22 | text without the marker passes unchanged |
| Cleaner.CloseAtFinds | app/main.py:21-22 | the first marker with no line break before it is where the match closes |
| Cleaner.UnwrapSpan | app/main.py:21-22 | a one-line span without asterisks loses exactly its two markers |
| Cleaner.UnwrapKeepsText | app/main.py:21-22 | dropping markers removes asterisks only: every other character stays, in order |
| Cleaner.Checkboxes | app/main.py:25-26 | the two checkbox substitutions in source order; `CheckboxesLeaveNone` and `CheckboxesKeepCapitalBox` prove what they do |
| Cleaner.BulletFormsNoBox | app/main.py:25-26 | the bullet cannot help form either checkbox |
| Cleaner.CheckboxesLeaveNone | app/main.py:25-26 | no checkbox of either kind is left after the two substitutions |
| Cleaner.CheckboxesKeepCapitalBox | app/main.py:25-26 | the patterns are case-sensitive: every "- [X] " in the input is still there after both substitutions |
| Cleaner.Numbered | app/main.py:29 | the numbered-list substitution leaves the text unchanged |
| Cleaner.Bullets | app/main.py:32 | the bullet step keeps the length and leaves text without "- " unchanged |
| Cleaner.BulletsLeaveNoDash | app/main.py:32 | after the bullet step no line starts with "- " |
| Cleaner.BulletsAvoid | app/main.py:32 | the bullet step creates no occurrence of a text its bullet cannot help form |
| Cleaner.BulletsLineKept | app/main.py:32 | a single line that does not open with "- " passes the bullet step unchanged |
| Cleaner.BulletsOneLine | app/main.py:32 | away from a line start, one line passes the bullet step unchanged |
| Cleaner.CleanText | app/main.py:12-34 | the result has no whitespace at either end, and `None` or "" gives "" |
| Cleaner.CleanTextLeavesNoBoxes | app/main.py:12-34 | no checkbox of either kind survives the whole cleaner |
| Cleaner.CleanTextPlain | app/main.py:12-34 | text with no asterisk and no "- " only loses its surrounding whitespace |
| Cleaner.CleanTextUnmarked | app/main.py:12-34 | text with no asterisk and no checkbox reaches the bullet step unchanged |
| Cleaner.CleanTextKeepsPlain | app/main.py:12-34 | a trimmed line with no asterisk, no checkbox and no bullet to rewrite comes through unchanged |
| Cleaner.CapitalBoxKept | app/main.py:26 | "- [X] " with a capital X is not a checkbox: "a - [X] b" comes through unchanged |
| Cleaner.IndentedDashKept | app/main.py:32-34 | an indented "- x" is not bulleted; the final strip turns "  - x" into "- x" |
| Text.Strip | app/main.py:34 | `strip()` leaves no whitespace, in the sense of `str.isspace()`, at either end and never lengthens |
| Text.StripCutsOnlyEnds | app/main.py:34 | `strip()` removes only whitespace, and only from the two ends |
| Text.Replace | app/ai_service.py:104-106 | `replace` leaves text without the pattern unchanged |
| Text.ReplaceAvoids | app/ai_service.py:104-106 | after `replace` the pattern is gone, and a text the replacement cannot help form is not created |
| Text.ReplaceKeeps | app/main.py:25-26 | `replace` keeps every occurrence of a text that no occurrence of the pattern can overlap |
| Text.JoinContainsParts | app/models.py:129 | every part appears in the joined string |
| Text.JoinEmpty | app/models.py:129 | joining non-empty parts gives "" exactly when there are no parts |
| Text.LessTransitive | app/models.py:73 | Python's string order is transitive |
| Text.LessTotal | app/models.py:73 | any two different strings are ordered one way or the other |

## Left out

- The Streamlit user interface, run.py, the OpenAI client object, the API key, `temperature=0.3` and the `print` of each failure are not modelled. The chat call is the `transport` parameter.
- Clocks are parameters. `GenerateMom` takes one `today` string for all three `datetime.now()` calls of a run, so a run that crosses midnight is not modelled. `CreateProject` takes the creation date, and `CreateMeeting` takes the meeting id and the date.
- File-system and JSON details are not modelled: paths, the `project.json` metadata file on disk, encodings, indentation, directory creation and `base_dir` existence. I/O errors other than a missing project directory are not modelled either. A file that fails to open or parse is an `Unreadable` entry.
- Project names are opaque keys. Names containing path separators are not modelled.
- A key missing from a stored record reads as "". Records with extra or wrongly typed keys are not modelled.
- Models.DataManager.GetProjects: the order is the directory iteration order. The model promises only each name once.
- Models.SortByDate: Python's sort is stable, but stability among meetings with equal dates is not stated.
- Models.DataManager.GetProjectMeetings: the order among meetings with equal dates is not stated.
- MomPrompt.SubstituteResolvesProject: the claim needs a project name that cannot help form `{project_name}`. The name "p" shows why: it turns the reply "{{project_name}roject_name}" into "{project_name}".
- Text.Strip: the whitespace set is the one `str.isspace()` has in current Python 3 (0x09-0x0D, 0x1C-0x20, 0x85, 0xA0, 0x1680, 0x2000-0x200A, 0x2028, 0x2029, 0x202F, 0x205F, 0x3000). Changes to that set in other Unicode versions are not modelled.
- Cleaner.Numbered: only ASCII digits count for `\d`. Python also matches other Unicode decimal digits.
- Cleaner.CleanText: the model works on code points. Grapheme clusters and other Unicode issues are not modelled.
- The prompt template text and the guideline wording are constants in `MomText.dfy`. Only the parts the lemmas rely on are stated as properties.
