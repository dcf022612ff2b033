# ApartmentManager: JSON viewer panel and conversation bookkeeping

This project is a Dafny model of two parts of ApartmentManager, a chat assistant for managing
apartments, tenants and contracts.

**The JSON viewer panel (`JsonViewerPanel`, frontend).** The assistant's structured answers are
shown here. The panel does the following:

- decides whether a payload can be shown as a table (`isFlatUniformArray`);
- keeps a set of opened paths, addressed by dotted keys such as `root.items.2`;
- opens the paths leading to search hits;
- pages long arrays in chunks sized from the window height;
- renders the tree, the table and the toolbar;
- exports a table as CSV.

**The conversation bookkeeping (backend).** This part covers:

- the CRUD state of a conversation (`ConversationState`);
- the intent check that moves an idle conversation into create, update, delete or show (`ai_set_conversation_state`);
- the operation-id bookkeeping of `get_llm_answer`, which gives fresh ids to new write
  operations, tracks the pending id, clears it once a write finishes, and reports interrupted
  operations.

Modules follow the program's structure:

| module | models |
|---|---|
| `JsonModel` | JSON values; schemas |
| `PathKeys` | `pathKey` |
| `Classifier` | `isFlatUniformArray` |
| `Labels` | the schema title helpers |
| `Search` | case-insensitive `includes` |
| `Expansion` | the initial expansion; `togglePath` |
| `SearchWalk` | the search effect's walk |
| `Window` | chunk sizes; "Show more" |
| `Render` | `renderTree` |
| `Panel` | the toolbar; the table; the view cases |
| `CsvExport` | `exportCsvIfTabular` |
| `Explorer` | the panel's state, as a class |
| `ConversationStates` | the conversation's CRUD state |
| `CrudCheck` | the intent check |
| `ConversationClients` | the conversation client |

`Wrappers` and `Errors` hold the shared `Option` and exception types.

Some outside results are parameters of the model:

- `JSON.stringify` is a `Serializer` parameter.
- The window height is an input.
- The LLM assistants' answers are inputs.
- The write and read actions' results are inputs. The write action's input also says whether it built its prompt, which sets the prompt name.
- The generated UUIDs are inputs: strings of 36 characters.

## Model

| member | source | states |
|---|---|---|
| Classifier.IsFlatUniformArrayIff | frontend/app.js:35-45 | a payload is tabular exactly when it is a non-empty array of plain objects, each holding the same multiset of keys as the first |
| Classifier.SortKeysEqualIff | frontend/app.js:39-43 | two key lists are equal after sorting exactly when they hold the same keys with the same multiplicities |
| PathKeys.PathKeyInjective | frontend/app.js:230 | two paths whose segments contain no dots get the same address only when their segment texts are equal |
| PathKeys.DottedKeyCollision | frontend/app.js:230 | a key containing a dot collides with a two-segment path (`a.b` and `a`,`b` both give `root.a.b`) |
| PathKeys.SiblingAddressesDiffer | frontend/app.js:230 | an address below array item k (k ≠ 1) is never an address below item 1 |
| Labels.GetPropertyTitle | frontend/app.js:194-197 | a property's schema title is used exactly when it exists and is not blank after trimming |
| Labels.GetSchemaTitle | frontend/app.js:198 | a schema's own title is used exactly when it exists and is not blank |
| Labels.GetLabelForKey | frontend/app.js:201-204 | a non-empty key-mapping entry wins; otherwise a non-blank property title; otherwise the key itself |
| Labels.TrimNonEmptyIff | frontend/app.js:196 | a trimmed string is non-empty exactly when the string has a non-whitespace character |
| Search.ContainsIff | frontend/app.js:215-223 | the recursive substring test holds exactly when the search string occurs at some position |
| Search.HitNeedsFirstChar | frontend/app.js:215-223 | a non-empty search can only hit a text that contains its first character, ignoring case |
| Search.Lower | frontend/app.js:217 | lower-casing keeps the length and maps every character on its own |
| Expansion.CollectExpandablePaths | frontend/app.js:86-106 | the collected addresses are those of every container below the given path, the path itself first |
| Expansion.BuildInitialExpansion | frontend/app.js:107-113 | the initial open set is `root` plus the addresses of the containers inside the first array item |
| Expansion.InitialHasRoot | frontend/app.js:107-113 | the root is always open initially |
| Expansion.InitialCoversFirstItem | frontend/app.js:107-113 | every container inside the first item of an array payload is open initially |
| Expansion.InitialSound | frontend/app.js:107-113 | apart from `root`, only addresses of containers inside the first item are open initially |
| Expansion.InitialExcludesSiblings | frontend/app.js:107-113 | nothing below the second or a later item is open initially |
| Expansion.ContainerPathsComplete | frontend/app.js:86-106 | every path that reaches a container is collected |
| Expansion.ContainerPathsSound | frontend/app.js:86-106 | every collected path reaches a container |
| Expansion.TogglePath | frontend/app.js:231 | toggling flips the membership of the path's address and leaves every other address as it was |
| Expansion.ToggleTwice | frontend/app.js:231 | toggling the same path twice restores the open set |
| Expansion.TogglesCommute | frontend/app.js:231 | two toggles give the same open set in either order |
| SearchWalk.Walker.Walk | frontend/app.js:132-172 | the walk answers whether anything below matches, and adds exactly the addresses of the opened paths |
| SearchWalk.Walker.WalkItems | frontend/app.js:136-149 | the array branch of the walk, as above |
| SearchWalk.Walker.WalkMembers | frontend/app.js:150-170 | the object branch of the walk, as above |
| SearchWalk.RecomputeForSearch | frontend/app.js:116-176 | the search effect's open set is `root` plus the addresses of the paths the walk opens |
| SearchWalk.OpenedIff | frontend/app.js:132-172 | a path is opened exactly when the walk descends into its target and a match lies at or below it (a matching member key opens its parent) |
| SearchWalk.HasIff | frontend/app.js:123-130 | the walk reports a hit exactly when some path reaches a matching leaf or key |
| SearchWalk.SearchExpansionIff | frontend/app.js:116-176 | an address is open after a search exactly when it is `root` or the address of an opened path |
| SearchWalk.SearchForBob | frontend/app.js:116-176 | searching "Bob" in `{"items":[{"id":1,"name":"Alice"},{"id":2,"name":"Bob"}]}` opens `root`, `root.items` and `root.items.2` |
| Window.ChunkSize | frontend/app.js:182 | the chunk is at least 50 rows and is the smallest such count covering three window heights of 28-pixel rows |
| Window.ChunkSizeMonotone | frontend/app.js:182 | a taller window never gives a smaller chunk |
| Window.RecalcVisible | frontend/app.js:184-186 | the visible count becomes the smaller of the array length and the chunk |
| Window.GrowTree | frontend/app.js:260 | the tree's "Show more" sets the count to the smaller of the array length and the count plus one chunk |
| Window.GrowTable | frontend/app.js:332 | the bottom "Show more" adds exactly 200 to the count |
| Window.GrowTreeReachesLength | frontend/app.js:260 | each press reaches the end or shows at least 50 more items, and at the end it stays put |
| Window.GrowTableOvershoots | frontend/app.js:260-332 | whenever the count is within 200 of the length, the bottom button passes the length, while the tree's button stops at or below it |
| Render.RenderTreeOk | frontend/app.js:233-284 | every row's level lies between the starting depth and the maximum depth; item headers and leaves sit strictly deeper than the start; a depth hint sits exactly at the maximum depth and no deeper than the node's height reaches |
| Render.TreeWithinMaxDepth | frontend/app.js:234-236 | no row of the whole tree is deeper than the maximum depth; depth hints sit exactly there |
| Render.ShallowTreeHasNoHint | frontend/app.js:234-236 | a tree shallower than the maximum depth shows no "Expand deeper" hint |
| Render.OpenArrayWindow | frontend/app.js:237-261 | an open array shows its header, one item header per visible item, and a "Show more" exactly when items remain hidden |
| Render.ClosedArrayIsHeader | frontend/app.js:237-261 | a closed array renders as its header alone |
| Render.MatchingMembersIff | frontend/app.js:264 | the kept members are exactly those that pass the search test, in their original order |
| Render.ObjectShowsMatchingMembers | frontend/app.js:262-279 | an object shows one row per kept member, so one row per member when the search is empty |
| Panel.ViewCases | frontend/app.js:286-334 | "No data yet" exactly for a falsy payload; "Invalid data" exactly for a non-empty string; otherwise the table exactly in table mode over a tabular payload; the toggle button exactly for tabular payloads; the CSV button exactly with the table; the bottom "Show more" exactly when array items are hidden |
| Panel.Filter | frontend/app.js:313 | `rows.filter(keep)` never returns more rows than it is given |
| Panel.FilterConcat | frontend/app.js:313 | filtering two row lists one after the other gives the two filtered lists one after the other, so order and repeats are kept |
| Panel.FilterPositions | frontend/app.js:313 | the kept rows are the rows at strictly increasing positions, one kept row per position, and a position is among them exactly when its row passes the test |
| Panel.FilterMembers | frontend/app.js:313 | a row is among the kept rows exactly when it is one of the rows and passes the test |
| Panel.FilterKeepsAll | frontend/app.js:313 | a test every row passes keeps the whole list, in order |
| Panel.FilterRows | frontend/app.js:313 | the table filter keeps no more rows than it is given, and keeps every row, in order, for an empty search |
| Panel.FilterRowsConcat | frontend/app.js:313 | filtering two row lists one after the other by the search gives the two filtered lists one after the other |
| Panel.FilterRowsPositions | frontend/app.js:313 | the rows the search keeps are the rows at strictly increasing positions, and a position is among them exactly when its row matches the search |
| Panel.TableCellsDefined | frontend/app.js:300-327 | in a tabular payload every shown cell has a value under every header |
| Panel.TableWithoutSearch | frontend/app.js:300-327 | with no search, the table shows the visible rows in order, numbered from 1, with one cell per header of the first item |
| Panel.TableRowsMatch | frontend/app.js:300-327 | with a search, the table rows are visible rows taken at strictly increasing positions, numbered from 1, with one cell per header of the first item; a visible row is among them exactly when its serialisation matches |
| Panel.EmptyKeyMisses | frontend/app.js:215-223 | a row's empty key never matches a non-empty search, so only its value decides |
| Panel.TableIgnoresKeyMapping | frontend/app.js:300-327 | the key mapping does not change the table |
| CsvExport.CsvRoundTrip | frontend/app.js:228 | export succeeds exactly for tabular payloads, and reading the corrected text back gives the title line followed by every row's cells |
| CsvExport.CsvLineCount | frontend/app.js:228 | the export has one line per row plus the title line |
| CsvExport.AsWrittenRoundTrip | frontend/app.js:228 | the export as written reads back as the title line followed by every row's cells when there is at least one title and no title contains a comma or a newline or starts with a quote |
| CsvExport.HeaderCommaSplits | frontend/app.js:228 | a title containing a comma reads back as two columns in the export as written, but as one in the corrected export |
| Explorer.JsonViewerPanel.constructor | frontend/app.js:69-77 | the state after mounting without data: no payload, empty search, tree mode, 100 visible items, a chunk from the window height, only `root` open, depth 10, "No data yet" |
| Explorer.JsonViewerPanel.RenderCtx | frontend/app.js:215-223 | the rendering context filters members by the current search and carries the current open set, count and depth |
| Explorer.JsonViewerPanel.LoadEnvelope | frontend/app.js:80-191 | a new payload resets the search, mode and depth; opens either the stale search's paths or the initial expansion; and recomputes the chunk and visible count |
| Explorer.JsonViewerPanel.SetSearch | frontend/app.js:116-176 | typing a search stores it; over a truthy payload a non-empty search replaces the open set with the search expansion; otherwise nothing else changes |
| Explorer.JsonViewerPanel.Toggle | frontend/app.js:231 | clicking a header toggles its path; nothing else changes |
| Explorer.JsonViewerPanel.ShowMoreTree | frontend/app.js:260 | the tree's "Show more" grows the visible count by one chunk, capped at the length |
| Explorer.JsonViewerPanel.ShowMoreBottom | frontend/app.js:332 | the bottom "Show more" adds 200 to the visible count |
| Explorer.JsonViewerPanel.ExpandDeeper | frontend/app.js:234-236 | "Expand deeper" raises the maximum depth by 5 |
| Explorer.JsonViewerPanel.ToggleViewMode | frontend/app.js:295 | the view toggle switches between tree and table mode |
| Explorer.JsonViewerPanel.Recalc | frontend/app.js:178-191 | recalculation sets the chunk from the window height and, for an array payload, clamps the visible count to the length |
| Explorer.JsonViewerPanel.ExportCsv | frontend/app.js:228 | export yields text exactly for a tabular payload; the text is the one the code writes, with an unquoted title line, and it reads back as the title line followed by every row's cells whenever there is at least one title and no title holds a comma or a line break or starts with a quote |
| Explorer.StaleSearchDiffers | frontend/app.js:80-176 | the payload `{"items":[{"id":1,"name":"Alice"},{"id":2,"name":"Bob"}]}` loaded while "Bob" is typed opens `root`, `root.items` and `root.items.2`, where a fresh load opens `root` alone |
| ConversationStates.OrdinalInjective | backend/AI_API/general/conversation_state.py:4-12 | the five CRUD states are distinct |
| ConversationStates.ConversationState.constructor | backend/AI_API/general/conversation_state.py:15-16 | a new conversation is idle |
| ConversationStates.ConversationState.SetState | backend/AI_API/general/conversation_state.py:18-38 | setting a state makes exactly its predicate true |
| ConversationStates.ConversationState.Reset | backend/AI_API/general/conversation_state.py:21-22 | reset makes the conversation idle, with every other predicate false |
| ConversationStates.ExactlyOneFlag | backend/AI_API/general/conversation_state.py:24-42 | exactly one of the five predicates holds at any time |
| CrudCheck.DictGet | backend/AI_API/general/conversation_crud_check.py:31-43 | a missing key reads as None, and a non-None result is the value stored under the key |
| CrudCheck.Surface | backend/AI_API/general/conversation_crud_check.py:49-56 | an exception leaves the check as an API error or an LLM error |
| CrudCheck.AiSetConversationState | backend/AI_API/general/conversation_crud_check.py:14-56 | the check's new state and result are those of the transition from the old state |
| CrudCheck.BusyIgnoresAssistant | backend/AI_API/general/conversation_crud_check.py:23-28 | a busy conversation keeps its state and returns `{}` without asking the assistant |
| CrudCheck.IdlePriority | backend/AI_API/general/conversation_crud_check.py:31-47 | an idle conversation becomes create, update, delete or show by the first active flag in that order, or stays idle; the intent is returned |
| CrudCheck.FalsyAnswerMeansNone | backend/AI_API/general/conversation_crud_check.py:31-47 | an empty answer from the assistant leaves the conversation idle and returns `{}` |
| CrudCheck.MissingEntryIsInactive | backend/AI_API/general/conversation_crud_check.py:31-43 | a flag missing from the intent counts as inactive |
| CrudCheck.ErrorsSurface | backend/AI_API/general/conversation_crud_check.py:49-56 | a raised error leaves the state unchanged; the assistant's API and LLM errors surface as they are, others as error 1002 (LLM error getting CRUD result), and so does a truthy non-dict answer |
| CrudCheck.MalformedLaterEntryIgnored | backend/AI_API/general/conversation_crud_check.py:31-43 | an active create flag decides before a malformed update entry is read |
| ConversationClients.WithOp | backend/AI_API/general/conversation_client.py:88-91 | replacing one write operation leaves the other operations unchanged |
| ConversationClients.ActiveKind | backend/AI_API/general/conversation_client.py:95-100 | the active write kind is the first active one of create, update, delete |
| ConversationClients.ConversationClient.constructor | backend/AI_API/general/conversation_client.py:19-27 | a new client has no question, intent, id or result, and the function-call system prompt |
| ConversationClients.ConversationClient.ExtractOperationIds | backend/AI_API/general/conversation_client.py:40-62 | with no stored intent the result is empty; otherwise a write kind is reported exactly when its operation is inactive but carries a non-empty id, together with that id and entity |
| ConversationClients.InterruptedMeaning | backend/AI_API/general/conversation_client.py:40-62 | the loop over the write kinds reports each kind exactly when it is interrupted, with its id and entity |
| ConversationClients.ShowNeverInterrupted | backend/AI_API/general/conversation_client.py:40-62 | a show operation is never reported as interrupted |
| ConversationClients.ConversationClient.IssueNewIds | backend/AI_API/general/conversation_client.py:88-91 | every active write operation whose id is `NEW` gets the first 8 characters of a fresh UUID; everything else stays |
| ConversationClients.IssuedMeaning | backend/AI_API/general/conversation_client.py:88-91 | after the loop, each write kind keeps its flag and entity, and its id is replaced exactly when it was active and `NEW` |
| ConversationClients.ConversationClient.GetLlmAnswer | backend/AI_API/general/conversation_client.py:65-149 | the client's new state and result are those of one answering step from its old state, including the prompt name the write action sets |
| ConversationClients.PromptNameCases | backend/AI_API/general/conversation_write_actions.py:434-530 | a write that builds its prompt names it `DELETE_ENTITY` when delete is requested, else `CREATE_ENTITY` when create is, else `UPDATE_ENTITY`; a write without a prompt and a show keep the old name; a general question uses `GET_FUNCTION_CALL` |
| ConversationClients.WriteOrdersDiffer | backend/AI_API/general/conversation_client.py:95-103 | with create and delete both requested, the pending ID is the create operation's while the write action's prompt is the delete prompt |
| ConversationClients.ReadyClearsIds | backend/AI_API/general/conversation_client.py:103-113 | a finished write returns its envelope, forgets the pending id and empties the active operation's id, leaving the other operations as issued |
| ConversationClients.PendingFollowsActiveId | backend/AI_API/general/conversation_client.py:95-100 | while a write is unfinished, the pending id is the active operation's id, after a `NEW` id was replaced |
| ConversationClients.ReadsClearId | backend/AI_API/general/conversation_client.py:116-131 | a show or a general answer forgets the pending id; an empty general answer raises error 1010 (empty LLM answer) |
| ConversationClients.FinishedNotInterrupted | backend/AI_API/general/conversation_client.py:106-113 | a finished write's operation is no longer reported as interrupted |
| ConversationClients.AnswerErrors | backend/AI_API/general/conversation_client.py:140-149 | the question is always stored; an error keeps the old result; when the intent assistant fails nothing else changes, its API, LLM and request errors pass through, and others become error 3009 |

## Left out

- Number and date formatting, value type classes, and all styling: they decide how rows look, not which rows are shown.
- Clipboard copy, the JSON export and the Blob download: these are browser I/O. The CSV export is modelled as the text it would download.
- React keys, element identity and re-rendering: each click and effect is a method call on the panel's state.
- The window `resize` listener: `Recalc` takes the window height as a parameter, and each resize is one more call.
- The `try`/`catch` around `JSON.stringify` in the search test: the serializer is total here.
- `JSON.stringify` itself is an injected `Serializer`. Numbers are integers, so floating point is not modelled.
- Search.Lower: lower-cases only ASCII letters, not full Unicode case mapping.
- An object's members are kept in the order `Object.keys` lists them: integer-like keys first, in ascending order, then the other keys in insertion order. That order can differ from the order in the JSON text. The model takes it as given and does not compute it from the text.
- Objects are sequences of members, so a repeated key keeps all its entries. `JSON.parse` would keep only the last one. The lemmas that look members up by key require unique keys.
- Tree rows keep their labels and values, but not the display text of a leaf value.
- The table and the CSV titles use schema titles only; the key mapping applies to tree labels alone. This is what the code does, and it is stated, not left out.
- CsvExport.CsvRoundTrip: the round trip is stated for payloads with at least one header. An array of empty objects produces an empty title line, which reads back as one empty cell.
- The Markdown and chat panels, the envelope parsing around the viewer, and the rest of the frontend are not part of this model.
- The LLM calls, the write and read actions, UUID generation, trace ids and logging are inputs or are dropped. `get_llm_answer` is modelled on their results.
- The system prompt's text: only its name is kept.
- The `log_error` calls and their trace ids are dropped; an `APIError` keeps only its code.

## Findings

| source | as written | input that shows it | evidently intended | confidence | as-written member | corrected member |
|---|---|---|---|---|---|---|
| frontend/app.js:228 | the CSV title line is joined with commas without quoting, while every data cell is quoted; the panel's export is this text | the payload `[{"a,b": "x"}]` exports `a,b` then `"x"`, so the title reads back as two columns over one | the title line quoted like the data lines | not executed | CsvExport.HeaderCommaSplits | CsvExport.CsvRoundTrip |
