# chat_ui client core in Dafny

A model of the client-side logic of the chat_ui web front end, with proofs about that model.

**Streamed chat responses** (`src/api/chat.api.ts`)
- The server sends a reply as an event stream. Blocks are separated by `"\n\n"`. Each block has `event:` and `data:` lines.
- `parseSseChunk` reads each block's name and data and makes at most one handler call per block: `onToken`, `onDone` or `onError`.
- `streamMessage` reads the response body piece by piece into a buffer. After each read it parses the text up to the last block delimiter and keeps the rest. At the end of the body it parses what is left, unless that is only whitespace.
- `SseFormat` gives the pure specification: the handler calls for a chunk of text, as a sequence of `Callback` values.
- `ChatApi.StreamSession` is the imperative buffer and call log, proved against that specification.
- The main result is in the contract of `ChatApi.StreamMessage`: the calls made depend only on the text of the whole body, not on where the reads split it.

**Chat state** (`src/chat/ChatContext.tsx`)
- A class holding the conversation list, the active id, the loading flag and the stored copy of the active id.
- Its methods are refresh, start-new, logout and the persistence effect.

**Knowledge selector** (`src/components/chat/KnowledgeSelector.tsx`)
- Toggling a type in an ordered selection, and the NONE button.
- The value reported to `onChange`.

**Sign-in and sign-up pages** (`src/pages/Login.tsx`, `src/pages/Register.tsx`)
- `extractToken`.
- The outcome of a submit, as state changes on a form object.
- The confirm-password validator.

**Theme** (`src/theme/ThemeProvider.tsx`)
- The initial light/dark mode, the toggle, the write to storage, and the configuration each mode selects.

How the outside world is represented:
- `JSON.parse` is a parameter, `Env.jsonParse : string -> Option<Json>`; `None` means it throws.
- The answers of `fetch`, `reader.read()`, the axios calls and the auth context are parameters. They are either a `Completion` (a returned value or a thrown value) or a `Connection`, a description of the response.
- Nothing performs I/O.

Text is a sequence of Unicode code points. `trim` removes the ECMAScript WhiteSpace and LineTerminator code points (`JsString.IsWhitespace`). The client only searches for and splits on ASCII separators, so UTF-16 code units never need to be told apart.

About toggling twice (`KnowledgeSelection.ToggleTwiceSelected`):
- Clicking a type that is already selected, and clicking it again, gives back the same set of types.
- The order is not always the same: the type moves to the end of the selection.
- The lemma states that exact order. Only an unselected type gives back the identical sequence (`KnowledgeSelection.ToggleTwiceUnselected`).

## Model

| member | source | states |
|---|---|---|
| JsString.TrimStartFacts | src/api/chat.api.ts:42-44 | trimming the start keeps a suffix of the text; everything dropped is whitespace, and the result starts with a non-whitespace character or is empty |
| JsString.TrimEndFacts | src/api/chat.api.ts:42-44 | trimming the end keeps a prefix of the text; everything dropped is whitespace, and the result ends with a non-whitespace character or is empty |
| JsString.TrimFacts | src/api/chat.api.ts:107 | `trim()` never lengthens text, leaves no whitespace at either end, and gives "" exactly when the text is all whitespace |
| JsString.TrimAfterSpace | src/api/chat.api.ts:42-44 | a trimmed value read after the single space that follows `event:` or `data:` comes back unchanged |
| JsString.IndexOf | src/api/chat.api.ts:35 | the index found is an occurrence of the separator, and no occurrence comes before it; None only when there is no occurrence |
| JsString.LastIndexOf | src/api/chat.api.ts:99 | -1 exactly when the separator does not occur; otherwise an occurrence with no occurrence after it |
| JsString.AfterLastOccurrence | src/api/chat.api.ts:99-103 | the text after the last occurrence of a separator does not contain it |
| JsString.SplitOn | src/api/chat.api.ts:35 | `split` always gives at least one piece |
| JsString.SplitOnPiecesFree | src/api/chat.api.ts:35 | no piece of a split contains the separator |
| JsString.SplitOnJoin | src/api/chat.api.ts:35 | joining the pieces with the separator gives back the text, so splitting loses nothing |
| JsString.SplitOnAround | src/api/chat.api.ts:39 | splitting on a character around one occurrence of it gives the pieces of the left side followed by the pieces of the right side |
| JsString.SplitOnKeepsWhitespace | src/api/chat.api.ts:107-108 | every piece of all-whitespace text is all whitespace |
| SseFormat.ErrorLog | src/api/chat.api.ts:57-59 | `onError?.()` makes exactly one onError call when the caller supplied one, and none otherwise |
| SseFormat.EventLineIsNotDataLine | src/api/chat.api.ts:41-45 | no line is both an event line and a data line, so the order of the two tests does not matter |
| SseFormat.ContentOf | src/api/chat.api.ts:52 | `data.content ?? ""` fails exactly on a null payload and never yields null; it is the object's `content` when present and not null, and "" for any other non-null payload |
| SseFormat.Dispatch | src/api/chat.api.ts:48-60 | at most one call per block; none for empty data; onError exactly when the data is not JSON (or is null in a "token" block) and onError is supplied; onToken exactly for "token" with its content; onDone exactly for "done" with the payload as parsed; nothing for any other name |
| SseFormat.NonEmpty | src/api/chat.api.ts:35 | `filter(Boolean)` leaves no empty piece, and a string is kept exactly when it is a non-empty piece |
| SseFormat.NonEmptySingle | src/api/chat.api.ts:35 | a single piece is kept exactly when it is not empty |
| SseFormat.NonEmptyAppend | src/api/chat.api.ts:35 | filtering two runs of pieces is filtering each, so the kept pieces stay in order and keep their multiplicity |
| SseFormat.NameWithoutEventLine | src/api/chat.api.ts:37-42 | a block without an event line is named "message" |
| SseFormat.NameIsLastEventLine | src/api/chat.api.ts:40-42 | a block's name is the trimmed value of its last event line |
| SseFormat.NameOfAppend | src/api/chat.api.ts:40-42 | later lines change the name only when they hold an event line (last wins) |
| SseFormat.DataOfAppend | src/api/chat.api.ts:43-45 | the data of consecutive lines is the data of the first part followed by that of the second, with nothing between |
| SseFormat.DataOfWithoutDataLines | src/api/chat.api.ts:43-48 | a block without a data line has empty data |
| SseFormat.LinesEventsIgnoreEmpty | src/api/chat.api.ts:39-48 | an empty line at either end of a block changes neither its name nor its data |
| SseFormat.ReadBlockByLines | src/api/chat.api.ts:39-46 | lines with no empty line inside are read as a single block |
| SseFormat.EventsByLinesAround | src/api/chat.api.ts:35-39 | an empty line separates the calls of the lines before it from those of the lines after it |
| SseFormat.LinesBlankOnlyAtEnd | src/api/chat.api.ts:35-39 | a block (no "\n\n" inside) that does not start with "\n" has no empty line before its last |
| SseFormat.BlockEventsByLines | src/api/chat.api.ts:36-39 | a block's calls are those of reading its lines one by one with an empty line as block end |
| SseFormat.LinesAroundBoundary | src/api/chat.api.ts:35-39 | the block delimiter is an empty line between the lines before it and the lines after it |
| SseFormat.EmptyChunk | src/api/chat.api.ts:35 | the empty chunk has no block and makes no call |
| SseFormat.ChunkEventsSingleBlock | src/api/chat.api.ts:35-39 | a chunk without "\n\n" is read as a single run of lines |
| SseFormat.BlocksUnfold | src/api/chat.api.ts:35 | the blocks of a chunk are its text before the first delimiter, unless empty, then the blocks of the rest |
| SseFormat.ChunkEventsByLines | src/api/chat.api.ts:35-46 | cutting into blocks and then into lines gives the same calls as reading lines one by one with empty lines as block ends |
| SseFormat.ChunkEventsAtBoundary | src/api/chat.api.ts:35-61 | the calls for text cut at a delimiter are the calls for the part before, then those for the part after |
| SseFormat.ChunkEventsTrailingDelimiter | src/api/chat.api.ts:35 | a delimiter at the end of a chunk adds no call |
| SseFormat.ChunkEventsTrailingNewline | src/api/chat.api.ts:35-46 | a single newline at the end of a chunk adds no call |
| SseFormat.ChunkEventsAppend | src/api/chat.api.ts:35-61 | text that ends at a delimiter can be parsed apart from what follows it |
| SseFormat.BlankTextIsSilent | src/api/chat.api.ts:107-109 | whitespace-only text makes no call, so skipping it at the end loses nothing |
| SseFormat.WhitespaceHasNoDataLine | src/api/chat.api.ts:43-48 | no line of whitespace-only text is a data line |
| SseFormat.WhitespaceIsNotDataLine | src/api/chat.api.ts:43 | a whitespace-only line is not a data line |
| SseFormat.SilentLines | src/api/chat.api.ts:43-48 | lines none of which is a data line make no call |
| SseFormat.EventsOfAppend | src/api/chat.api.ts:36-61 | the calls for consecutive runs of blocks are those of the first run, then those of the second |
| SseFormat.EventsOfPrefix | src/api/chat.api.ts:36-61 | the calls of the first n+1 blocks are those of the first n, then those of block n |
| SseFormat.MalformedBlockIsolated | src/api/chat.api.ts:49-60 | a block whose data is not JSON costs one onError; the blocks before and after it make their calls unchanged |
| SseFormat.MalformedBlockEvents | src/api/chat.api.ts:49-59 | a lone block whose data is not JSON makes one onError (none without a handler) |
| SseFormat.NoDataNoCall | src/api/chat.api.ts:48 | a chunk without a data line makes no call, whatever its event lines say |
| SseFormat.OneLine | src/api/chat.api.ts:39 | text without a newline is a single line |
| SseFormat.EventLineReads | src/api/chat.api.ts:41-42 | `event: name` is an event line whose value is name |
| SseFormat.DataLineReads | src/api/chat.api.ts:43-44 | `data: payload` is a data line whose value is payload |
| SseFormat.EventBlockLines | src/api/chat.api.ts:39 | an event block's lines are its event line and its data line |
| SseFormat.EventThenData | src/api/chat.api.ts:40-45 | an event line then a data line: the name is the first's value and the data the second's |
| SseFormat.EventBlockReads | src/api/chat.api.ts:37-46 | an event block reads back as the name and payload it was built from |
| SseFormat.OneEventBlock | src/api/chat.api.ts:34-61 | an event block makes exactly Dispatch's calls for its name and payload, with or without a delimiter after it |
| SseFormat.EventWithoutDataIsSkipped | src/api/chat.api.ts:48 | an event line with no data line makes no call |
| SseFormat.PlainNames | src/api/chat.api.ts:51-53 | the names "token" and "done" are single trimmed words |
| SseFormat.TokenEvent | src/api/chat.api.ts:50-52 | a token block whose payload has a string content makes exactly one onToken with that content |
| SseFormat.TokenEventWithoutContent | src/api/chat.api.ts:50-52 | a token block whose payload is not null but has no non-null `content` makes exactly one onToken with "" |
| ChatApi.StreamSession.constructor | src/api/chat.api.ts:92 | the buffer and the call log start empty |
| ChatApi.StreamSession.ReadBlock | src/api/chat.api.ts:37-46 | the line loop ends with the last event line's value as the name and all data values joined as the data |
| ChatApi.StreamSession.ParseBlock | src/api/chat.api.ts:37-60 | one block appends exactly its specified calls to the log |
| ChatApi.StreamSession.ParseChunk | src/api/chat.api.ts:34-62 | parseSseChunk appends the chunk's calls, block after block, to the log |
| ChatApi.StreamSession.Receive | src/api/chat.api.ts:95-104 | after a read the buffer holds what follows the last delimiter and never a whole delimiter; the log gains the calls for the text before it |
| ChatApi.StreamSession.ReceiveAll | src/api/chat.api.ts:94-105 | after all reads the log holds the calls for the text up to the last delimiter, and those calls followed by the buffer's calls are the calls for all the text read |
| ChatApi.StreamSession.Finish | src/api/chat.api.ts:107-109 | the end flush appends exactly the buffer's calls, including when it skips whitespace-only text |
| ChatApi.SplitAtLastDelimiter | src/api/chat.api.ts:99-103 | the buffer is what precedes the last delimiter, the delimiter, and a tail without a delimiter |
| ChatApi.LastDelimiterAfter | src/api/chat.api.ts:99 | after text that ends at a delimiter, the last delimiter is that one, or starts one character later when a newline follows |
| ChatApi.ConsumedIsParsedBefore | src/api/chat.api.ts:94-105 | whatever the reads, the text consumed so far makes the calls of the text up to the last delimiter |
| ChatApi.ReceiveStepText | src/api/chat.api.ts:97-103 | one read keeps the loop invariant on text: consumed text and buffer make up all text read, and consumed text ends at a delimiter |
| ChatApi.ReceiveStepEvents | src/api/chat.api.ts:97-104 | one read keeps the loop invariant on calls: the log holds the calls of the consumed text |
| ChatApi.StreamMessage | src/api/chat.api.ts:72-114 | one onError if fetch rejects or the response is not ok or has no body; otherwise the calls for the whole body text however it was split into reads; or, if a read fails, the calls up to the last delimiter and then one onError |
| ChatApi.DataCutAcrossReads | src/api/chat.api.ts:94-105 | a data line cut in two by the reads is dispatched once, whole |
| ChatApi.SplitToken | src/api/chat.api.ts:94-109 | a token whose JSON is cut across two reads is delivered as exactly one onToken |
| ChatApi.UnterminatedDone | src/api/chat.api.ts:107-109 | a done block whose delimiter never arrives is still delivered, once, when the body ends |
| ChatState.RefreshedActiveId | src/chat/ChatContext.tsx:41-46 | after a refresh with a non-empty list the active id is listed; it changes only to the first item's id and only when the list is non-empty and lacks the active id |
| ChatState.RefreshSettles | src/chat/ChatContext.tsx:41-46 | a second refresh with the same list selects nothing new |
| ChatState.Digits | src/chat/ChatContext.tsx:86 | the decimal text of a number has at least one digit, only digits, and no leading zero |
| ChatState.DigitsRoundTrip | src/chat/ChatContext.tsx:86 | the decimal digits of n read back as n |
| ChatState.DecimalRoundTrip | src/chat/ChatContext.tsx:86 | `String(id)` of any integer id reads back as that id |
| ChatState.StoredForm | src/chat/ChatContext.tsx:82-91 | nothing is stored exactly when the id is null or 0; what is stored reads back as the id |
| ChatState.ChatProvider.constructor | src/chat/ChatContext.tsx:30-33 | the list starts empty and not loading, with the id read back from storage as the active id |
| ChatState.ChatProvider.SetActive | src/chat/ChatContext.tsx:97 | setActiveConversationId sets the active id |
| ChatState.ChatProvider.Refresh | src/chat/ChatContext.tsx:36-50 | the list becomes the response's data, or empty without data; the active id follows RefreshedActiveId; a rejection changes neither and is passed on; loading ends false either way |
| ChatState.ChatProvider.StartNew | src/chat/ChatContext.tsx:52-66 | a created conversation with a truthy id is prepended, made active and its id returned; otherwise null is returned and nothing changes; a rejection is passed on; loading ends false either way |
| ChatState.ChatProvider.Logout | src/chat/ChatContext.tsx:68-76 | the list, the active id and the stored copy are cleared even when the auth logout throws, and what it throws is passed on |
| ChatState.ChatProvider.PersistActiveId | src/chat/ChatContext.tsx:82-91 | storage holds the active id's decimal text when the id is truthy, and nothing otherwise |
| ChatState.RefreshThenPersist | src/chat/ChatContext.tsx:41-91 | after a refresh with a non-empty list and the persistence effect, storage names a listed conversation, unless that id is 0 |
| KnowledgeSelection.Without | src/components/chat/KnowledgeSelector.tsx:14 | filtering removes every occurrence of the type and keeps every other one, as many times as before; an unselected type leaves the selection unchanged |
| KnowledgeSelection.WithoutAppend | src/components/chat/KnowledgeSelector.tsx:14 | filtering two runs is filtering each, so the remaining types keep their order |
| KnowledgeSelection.Toggled | src/components/chat/KnowledgeSelector.tsx:13-15 | after a click the type is selected exactly when it was not; other types are untouched; an unselected type is appended at the end |
| KnowledgeSelection.Reported | src/components/chat/KnowledgeSelector.tsx:17 | onChange receives null exactly for the empty selection, and the selection otherwise |
| KnowledgeSelection.WithoutKeepsDistinct | src/components/chat/KnowledgeSelector.tsx:14 | filtering keeps a duplicate-free selection duplicate-free |
| KnowledgeSelection.ToggleKeepsDistinct | src/components/chat/KnowledgeSelector.tsx:14-15 | a click never creates a duplicate |
| KnowledgeSelection.WithoutLast | src/components/chat/KnowledgeSelector.tsx:14-15 | removing a type that was just appended gives back the selection before it |
| KnowledgeSelection.ToggleTwiceUnselected | src/components/chat/KnowledgeSelector.tsx:14-15 | clicking an unselected type twice gives back exactly the same selection |
| KnowledgeSelection.ToggleTwiceSelected | src/components/chat/KnowledgeSelector.tsx:14-15 | clicking a selected type twice in a duplicate-free selection gives back the same types, each once, with that type moved to the end |
| KnowledgeSelection.ClicksKeepSelectionDistinct | src/components/chat/KnowledgeSelector.tsx:9-25 | any sequence of clicks on the offered buttons keeps the selection duplicate-free and made of offered types |
| KnowledgeSelection.Selector.constructor | src/components/chat/KnowledgeSelector.tsx:10 | the selection starts empty and nothing has been reported |
| KnowledgeSelection.Selector.Toggle | src/components/chat/KnowledgeSelector.tsx:12-18 | the selection becomes the toggled one, stays duplicate-free, and exactly its reported form is passed to onChange |
| KnowledgeSelection.Selector.SelectNone | src/components/chat/KnowledgeSelector.tsx:34-37 | NONE empties the selection and reports null |
| AuthPages.ExtractToken | src/pages/Login.tsx:23-28 | no token from a non-object; `access_token` is chosen unless null or missing, then `token`; the chosen value counts only as a string (Register.tsx:22-27 is the same code) |
| AuthPages.NoFallbackToToken | src/pages/Login.tsx:26-27 | an `access_token` that is present but not a string gives no token, even when `token` is a string |
| AuthPages.MessageOf | src/pages/Login.tsx:52-53 | an Error's message is shown; any other thrown value shows the fallback |
| AuthPages.ConfirmPasswordCheck | src/pages/Register.tsx:150-158 | the confirmation passes exactly when it is empty or missing or equals the password; otherwise it is rejected with "Passwords do not match." |
| AuthPages.ConfirmAcceptsRepeat | src/pages/Register.tsx:152 | typing the password again, or leaving the field empty, passes |
| AuthPages.FormState.constructor | src/pages/Login.tsx:36-37 | the form starts not loading, with no error, no sign-in and no navigation |
| AuthPages.LoginSubmit | src/pages/Login.tsx:39-58 | the trimmed email and unchanged password are sent; a rejection shows its message or "Unable to sign in."; a missing or empty token shows "Login succeeded but no token was returned."; a token is handed to login but the missing clearCacheAndRefresh throws, so its error shows and the router stays put; loading ends false |
| AuthPages.LoginSubmitWithRefresh | src/pages/Login.tsx:39-58 | the same, with a working chat-state refresh: a token signs in and goes to "/" when the refresh succeeds |
| AuthPages.RegisterSubmit | src/pages/Register.tsx:38-65 | the trimmed email is sent; a rejection shows its message or "Unable to create account."; no token goes to "/login" with no error; a token is handed to login and then the missing clearCacheAndRefresh throws and the router stays put; loading ends false |
| AuthPages.RegisterSubmitWithRefresh | src/pages/Register.tsx:38-65 | the same, with a working chat-state refresh: a token signs in and goes to "/" when the refresh succeeds |
| AuthPages.SignInStaysOnLogin | src/pages/Login.tsx:48-50 | a sign-in answered with a token never navigates and shows the TypeError's message |
| AuthPages.SignUpStaysOnRegister | src/pages/Register.tsx:51-54 | a sign-up answered with a token never navigates and shows the TypeError's message |
| Theme.StoredMode | src/theme/ThemeProvider.tsx:26-27 | a stored mode is recognised exactly when storage holds "light" or "dark", and it is that mode |
| Theme.InitialMode | src/theme/ThemeProvider.tsx:24-31 | "dark" without a window; a valid stored mode unchanged; otherwise "dark" exactly when the dark-scheme query matches |
| Theme.Toggle | src/theme/ThemeProvider.tsx:80 | toggling always changes the mode |
| Theme.ToggleInvolution | src/theme/ThemeProvider.tsx:80 | toggling twice gives back the mode |
| Theme.Persist | src/theme/ThemeProvider.tsx:48-51 | with a window, storage afterwards holds the mode under "ui-theme", has exactly the keys it had plus "ui-theme", keeps every other key's value, and the media query is unchanged; without one nothing is written |
| Theme.PersistThenReload | src/theme/ThemeProvider.tsx:24-51 | a page loaded after the mode was written starts in that mode |
| Theme.Mount | src/theme/ThemeProvider.tsx:46-55 | the provider starts in the initial mode, and storage agrees with it once the effect has run |
| Theme.Apply | src/theme/ThemeProvider.tsx:77-84 | toggle switches the mode, setMode sets it, and the effect leaves storage in agreement with the new mode |
| Theme.ChangesKeepStorage | src/theme/ThemeProvider.tsx:48-55 | storage agreeing with the mode stays so through any sequence of changes |
| Theme.ReloadKeepsMode | src/theme/ThemeProvider.tsx:24-84 | whatever the user does after mounting, a reload in the same browser comes back in the mode on screen |
| Theme.ConfigFor | src/theme/ThemeProvider.tsx:57-75 | dark mode, and only dark mode, selects the dark algorithm; each mode selects its own palette |
| Theme.ConfigDeterminesMode | src/theme/ThemeProvider.tsx:57-75 | different modes give different configurations |

## Left out

- HTTP transport: `fetch`, the request headers and bearer token, and the `AbortController` with the controller that `streamMessage` returns (src/api/chat.api.ts:70-84, 116). The outcome of the request is the `Connection` parameter.
- `TextDecoder`: the reads are already-decoded text. The code never makes a final non-streaming `decode()`, so an incomplete trailing byte sequence is dropped; that is not modelled.
- `JSON.parse`: a parameter, `Env.jsonParse`. Only whether it throws and what it returns matter.
- ChatApi.StreamMessage: the handlers are assumed not to throw. In the source, an exception from `onToken` or `onDone` is caught at src/api/chat.api.ts:56 and reported through `onError`, and an exception from `onError` would end the read loop.
- ChatApi.StreamMessage: `onError` is recorded with the kind of failure (`Failure`), not the Error object itself.
- `src/components/chat/ChatWindow.tsx`: updating the message list depends on React state batching and closures, so it is not modelled.
- `getStoredConversationId` (src/chat/ChatContext.tsx:22-27): `Number()` and `Number.isFinite` are floating point. The id read back from storage is the constructor's parameter.
- ChatState.StoredForm: ids are integers. `String(id)` for numbers of 1e21 or more (exponent notation), negative zero and non-integers is not modelled.
- ChatState.ChatProvider.Refresh: `response.data` is an optional list of conversations. A non-array `data` value whose `length` is truthy is not modelled.
- React scheduling: setters take effect at once, and the closures are assumed to see the current active id. Overlapping refreshes or creates (which share one `isLoading` flag) are not modelled, and neither is the mount-time refresh at src/chat/ChatContext.tsx:78-80.
- The thin API wrappers (`listConversations`, `createConversation`, `login`, `register` and the other axios calls) are not part of this model: their results are parameters.
- AuthPages.LoginSubmit: the message of the TypeError thrown by calling the missing `clearCacheAndRefresh` is engine-specific, so it is the parameter `missingCallMessage`.
- AuthPages.LoginSubmit: the intermediate `loading == true` while the request is pending is not observable in the model; only the final state is stated.
- src/App.tsx renders the sign-in and sign-up pages with no `ChatProvider` or `ThemeProvider` above them. That wiring is not part of this model: the pages are modelled as if both providers were present.
- The theme's `document.documentElement.dataset.theme` write (src/theme/ThemeProvider.tsx:52-54) touches the DOM and is not modelled. Neither is `useThemeMode` outside a provider.
- Theme.Apply: the storage effect runs only when the mode actually changes. The model writes after every change, which leaves the same storage.
- The knowledge selector's button rendering and highlight classes are presentational.

## Findings

| source | as written | input that shows it | evidently intended | confidence | as-written member | corrected member |
|---|---|---|---|---|---|---|
| src/pages/Login.tsx:49 | after `login(token)` it awaits `clearCacheAndRefresh()` from the chat context, but the chat context's value (src/chat/ChatContext.tsx:93-104) has no such member, so the call throws a TypeError: the error is shown and `navigate("/")` is never reached | a sign-in answered with `{"access_token": "abc"}` | after storing the token, refresh the chat state and go to "/" | not executed | AuthPages.SignInStaysOnLogin | AuthPages.LoginSubmitWithRefresh |
| src/pages/Register.tsx:53 | the same missing `clearCacheAndRefresh` after `login(token)`, so a sign-up that returns a token shows a TypeError and never reaches "/" | a sign-up answered with `{"access_token": "abc"}` | after storing the token, refresh the chat state and go to "/" | not executed | AuthPages.SignUpStaysOnRegister | AuthPages.RegisterSubmitWithRefresh |
