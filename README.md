# SEA assistant core in Dafny

This project models the core of the SEA sea-level assistant. It proves properties of that model.

The server (`app.py`) is a FastAPI application. It gives each browser session its own code interpreter. It keeps two records per session in a key/value store: the time the session was last active (`last_active:<id>`) and its transcript (`messages:<id>`). Uploaded files live under `static/<id>/uploads`. The chat endpoint streams the engine's output as server-sent events.

The browser client (`frontend/assistant.js`) reads that stream line by line and turns its chunks into a list of messages. It also reloads the stored history and escapes text before putting it into HTML.

Two data-preparation scripts are modelled as well:
- `utils/donwload_and_pack_tide_data.py` fetches the tide tables of every station month by month and packs them together.
- `utils/fetch_and_process.py` keeps only the GeoJSON station features whose padded id appears in the station index.

How the model is organised:

- **Values and specifications.** `Sessions`, `Uploads`, `Chat` and `Limits` state the server's behaviour as functions over one value, `Sessions.State`. That value holds the interpreter registry, the store, the session directories, the upload directories with their files, and the serial number of the next interpreter.
- **The server object.** `Server.App` is a class with those five parts as fields. Each handler is a method whose `ensures` ties the new state and the answer to the specification function. Where the source has one of the bugs listed under "## Findings", that function is the intended one, and a separate `AsWritten` function models the code as it stands. Loops of the source stay loops: the chunked write of an upload, the sweep over idle sessions, the listing, the unlinking of every file, and the event generator. The methods also keep the invariant `Valid()`:
  - interpreter handles are distinct;
  - every upload directory lies inside its session directory;
  - every file name is a single path component.
- **The client page.** `ClientView.ChatView` is a class with the page's `messages` array and `currentMessageId` as fields. `ProcessChunk`, the reader loop `ReceiveStream` and the history loader `LoadHistory` are methods proved against `Step`, `Run` and `Kept`.
- **The stream's line handling.** `ClientStream` models the client's line buffer. `StreamRoundTrip` proves that the client reads back exactly the events the server sends, however the transport cuts the response into chunks.
- **JSON.** `JsonModel` keeps it abstract. A codec is any pair of encode and decode functions, and the facts used about it are stated as predicates: `Lawful` (decoding undoes encoding) and `OneLine`.
- **Months and tide data.** `Months` models `generate_date_range` with Python's calendar arithmetic. `TidePack` models `save_tide_data`.
- **Station filter.** `StationFilter` models lines 19-30 of `fetch_and_process.py`.

Some things are outside Dafny, so they are parameters of the model or are chosen for each call:
- the current time `now`;
- the failure points of the store and the file system: `CreateFault` for creating an interpreter, `StoreFault` for the chat turn's two store writes, `ClearStep`, one fault per session in the sweep, and `IoFault` for the upload directory and the temporary file of an upload;
- the engine's run and the transcript it produces;
- the ids `generateId` returns;
- the tide fetch function.

## Model

| member | source | states |
|---|---|---|
| Sessions.KeysDistinct | app.py:324-337 | the `last_active:` and `messages:` keys never collide, and each determines its session id |
| Sessions.GetOrCreateExisting | app.py:180-182 | an id already registered gets its own handle back and nothing changes |
| Sessions.GetOrCreateNew | app.py:185-208 | a new id gets a handle no other session holds; the registry gains exactly that entry and `last_active:<id>` is set to now; nothing else changes; the invariant holds |
| Sessions.GetOrCreateFailures | app.py:185-212 | a failing configuration raises and leaves the state exactly as it was; a failing timestamp write raises after the handle is registered |
| Sessions.GetOrCreateKeepsValid | app.py:176-212 | building an interpreter keeps the handles distinct |
| Sessions.ClearSessionView | app.py:231-255 | the cleared session ends as the four steps say, stopping at the one that raises; every other session's view is unchanged |
| Sessions.ClearSessionRemovesAll | app.py:231-255 | a clear that raises nothing removes the handle, both store keys, `static/<id>` and its uploads, and nothing else |
| Sessions.ClearSessionIdempotent | app.py:231-255 | clearing twice is clearing once |
| Sessions.ClearSessionStopsAtFailure | app.py:233-255 | a failing step is re-raised and the later steps do not run |
| Sessions.ClearSessionKeepsValid | app.py:231-255 | clearing keeps the invariant under every fault |
| Sessions.ShrunkKeepsValid | app.py:231-255 | dropping registry entries or upload directories keeps the invariant when every upload directory keeps its session directory |
| Sessions.SweepPerSession | app.py:257-279 | for every session, whatever the order of the key snapshot: one idle at the start ends as `clear_session` leaves it, even when other clears raise; every other session is untouched |
| Sessions.SweepSparesActive | app.py:265-276 | the sweep never touches a session whose timestamp is recent, missing or unreadable, and removes every trace of an idle session whose clear succeeds |
| Sessions.SweepKeepsValid | app.py:257-279 | the sweep keeps the invariant |
| Uploads.HeaderSession | app.py:397-399 | a session id exists exactly when the `x-session-id` header is present and nonempty |
| Uploads.HasExecutableHeader | app.py:377-387 | true exactly when the content starts with `MZ` or with `\x7fELF` |
| Uploads.ScanFile | app.py:131-159 | the scan stub reports every file clean, with the "skipped" message |
| Uploads.Components | app.py:413-421 | the components `PurePath` keeps are nonempty, not `.`, and free of '/' |
| Uploads.LastComponent | app.py:413 | the name `Path` gives has no '/' |
| Uploads.PlainComponents | app.py:413-452 | a name without '/' that is neither empty nor `.` is its own single component and its own last component |
| Uploads.LastDot | app.py:413 | the position of the last '.', or none when there is no '.' |
| Uploads.ComponentSuffix | app.py:413 | the suffix is empty, or starts with its only '.' and is shorter than the component |
| Uploads.SuffixOfStemAndExtension | app.py:413-418 | a one-component name made of a nonempty stem and an extension has that extension as its suffix |
| Uploads.AllowedNameIsSegment | app.py:413-421 | a slash-free name with an allowed extension, and its `temp_` name, are single path components |
| Uploads.TempPieces | app.py:421 | the pieces of `temp_<name>` between slashes are those of the name, with the prefix joined to the first |
| Uploads.FirstPieceAlone | app.py:421 | a proper first piece is the only component exactly when the pieces after it give none |
| Uploads.TempInUploadsNames | app.py:421-458 | when `temp_<name>` lies in the upload directory itself, the name normalises to its last component, and both that component and its `temp_` name are single path segments |
| Uploads.TrailingSlashPieces | app.py:421-452 | a plain component followed by '/' splits into the component and an empty piece, and normalises to the component |
| Uploads.TrailingSlashDropped | app.py:413-458 | `name/` passes the same extension check as `name`, keeps its temporary file in the upload directory, and is stored as `name` |
| Uploads.PlainNameStaysInUploads | app.py:421-458 | a slash-free allowed name keeps its temporary file in the upload directory and is stored under itself |
| Uploads.MakeUploadDir | app.py:409-410 | afterwards the session directory and its upload directory exist |
| Uploads.ContentCheck | app.py:425-449 | the bytes pass exactly when they are at most 10 MiB and have no executable header |
| Uploads.UploadSucceedsIff | app.py:390-471 | an upload succeeds exactly when the header, quota, extension, size and header checks all pass, the temporary file lies in the upload directory itself, and creating the directory and opening, writing and renaming the file raise nothing; the file, named by the last component of the name, then holds the bytes; the receipt gives the name as sent, that component as its path, and the number of bytes |
| Uploads.UploadErrors | app.py:396-471 | each failing check answers with its own status, in the order the checks run: 400 for the header, 429 for the quota, 500 with no change when the upload directory cannot be created, 400 for the extension, 500 when the temporary file lies outside the upload directory or cannot be opened or written, 400 for the size and for an executable header, and 500 when the rename fails |
| Uploads.ReceiveTouchesTwoFiles | app.py:420-465 | the temporary file is gone afterwards whatever happens, including a file-system failure; the bytes are stored under the given name exactly when the content checks pass and no open, write or rename raises; the answer is an operating-system error exactly when one of those raised; no other file changes |
| Uploads.ReceiveCount | app.py:420-465 | receiving adds at most one file |
| Uploads.UploadKeepsValid | app.py:390-471 | uploading keeps the invariant |
| Uploads.StoreKeepsValid | app.py:412-471 | the steps after creating the directory keep the invariant |
| Uploads.MakeUploadDirKeepsValid | app.py:409-410 | creating the directory keeps the invariant |
| Uploads.UploadKeepsWithinQuota | app.py:402-460 | no session ever holds more than 10 files |
| Uploads.RelativeTo | app.py:487-490 | a relative path exists exactly when the base is a prefix of the path, and the base followed by it gives the path back |
| Uploads.DeleteFileNeverDenies | app.py:484-490 | a one-component name always lies inside the upload directory, so `delete_file` never answers 403 |
| Uploads.DeleteFileRemovesOne | app.py:473-501 | deleting removes exactly the named file of this session and answers 404 when it is missing; nothing else changes |
| Uploads.CaughtAsInternal | app.py:524-526 | the catch-all turns every error into a 500 |
| Uploads.FilesGuard | app.py:506-509 | the intended session check fails exactly when the header is missing, with the 400 |
| Uploads.FilesGuardAsWrittenAnswers500 | app.py:506-526 | as written, a missing header gets a 500 reading "400: Session ID required"; with a header both checks agree |
| Uploads.DeleteAllFilesEmpties | app.py:528-549 | afterwards the session holds no file and may upload again; no other session changes; the invariant holds |
| Chat.Field | app.py:304 | `dict.get` gives the default when no field has the key |
| Chat.ChatGuardStatus | app.py:298-308 | the intended checks answer 400 exactly when the header is missing or the message list is falsy, and accept exactly when there is a session, an object body and truthy messages, which are passed on |
| Chat.ChatGuardAsWrittenAnswers500 | app.py:298-308 | as written, a missing header gets a 500; both versions accept the same requests and agree on them |
| Chat.ItemFrames | app.py:328-330 | at most one event per item, and exactly one per item when no encoding fails |
| Chat.EventStreamOfCleanRun | app.py:326-338 | a run in which nothing raises sends one event per item, in order |
| Chat.FramesOfItems | app.py:328-330 | each event carries its item's `json.dumps` or its string |
| Chat.EventStreamAsWrittenDropsErrors | app.py:331-334 | as written, a failing run sends no error event and the response is cut off |
| Chat.EventStreamReportsErrors | app.py:331-334 | as intended, a failing run ends normally with one error event after the same events |
| Chat.ChatRun | app.py:328 | the generator runs the engine on the last message, or raises before yielding anything when the messages cannot be indexed |
| Chat.UnindexableMessagesFailInStream | app.py:326-334 | truthy messages that cannot be indexed fail inside the stream: as intended with a single error event, as written with an empty cut-off response |
| Chat.ChatTurnRecords | app.py:312-344 | a turn answers with a stream exactly when `get_or_create_interpreter` succeeds and the timestamp write succeeds; a failing `get_or_create_interpreter` answers 500 with the state it left, and the id is registered afterwards unless the configuration failed for a new id; a failing timestamp write answers 500 with the interpreter already registered; after a stream the session has an interpreter and a fresh timestamp; the transcript is stored whether or not the run failed, unless its own write fails, which cuts the stream off and leaves `messages:<id>` as it was; directories and files do not change |
| Chat.HistoryAfterChatTurn | app.py:336-356 | the history endpoint gives back the transcript a chat turn stored |
| Chat.HistoryAfterClear | app.py:347-374 | after a clear, the history is empty |
| Chat.ClearEndpointAsWrittenAnswers500 | app.py:359-374 | as written, a missing header gets a 500; otherwise both versions agree |
| Chat.ClearEndpointOutcome | app.py:362-374 | a successful clear answers "Chat history cleared" and leaves nothing of the session; a store failure is reported as a failure to clear the history |
| JsonModel.ToJson | app.py:329-334 | there is no JSON form exactly when the value holds an exception object |
| JsonModel.Dumps | app.py:329-334 | `json.dumps` raises exactly when the value holds an exception object |
| JsonModel.ErrorDictOfExceptionIsUnencodable | app.py:333-334 | `json.dumps({"error": e})` with an exception object always raises |
| Limits.SizeLimitDecides | app.py:91-100 | a POST announcing more than 10 MiB gets 413 and any other announced size passes; a request without the header passes |
| Limits.SizeLimitOnlyStopsPosts | app.py:91-100 | the middleware answers a request itself only when it is a POST with a nonempty Content-Length |
| Limits.RateLimitMessageRoundTrip | app.py:111-128 | the wait announced in the 429 detail can be read back exactly when a nonzero `retry_after` was given |
| Text.ParseIntRoundTrip | app.py:95 | `int(str(i)) == i` |
| Server.App.constructor | app.py:33-49 | a new server holds no sessions and keeps the invariant |
| Server.App.GetOrCreateInterpreter | app.py:176-212 | new state and handle are those of `Sessions.GetOrCreate`; the invariant is kept |
| Server.App.ClearSession | app.py:231-255 | new state and raised step are those of `Sessions.ClearSession`; the invariant is kept |
| Server.App.CleanupIdleSessions | app.py:257-279 | the snapshot visited lists every registered id once; the new state is the sweep over it; the invariant is kept |
| Server.App.CheckSessionUploadLimit | app.py:162-169 | counting the files gives true exactly when the session holds fewer than 10 files |
| Server.App.UploadFile | app.py:390-471 | new state and answer are those of `Uploads.Upload`, including a failing `mkdir`; the invariant is kept |
| Server.App.StoreFile | app.py:412-471 | new state and answer are those of `Uploads.StoreUpload`, including a name whose temporary file lies outside the upload directory |
| Server.App.ReceiveFile | app.py:420-465 | the upload directory and the answer are those of `Uploads.Receive` for the name's last component, including a failing open, write or rename; no other directory or field changes |
| Server.App.WriteChunks | app.py:421-434 | the chunk loop stops with a failure exactly when the faulty chunk's write is reached before the size passes 10 MiB; otherwise it stops early exactly when the body exceeds 10 MiB, and else the temporary file holds the whole body and the size is its length; no other file changes |
| Server.App.InspectTemp | app.py:440-449 | on a temporary file holding the whole body, the header check and the scan give the verdict of `Uploads.ContentCheck` |
| Server.App.DeleteFile | app.py:473-501 | new state and answer are those of `Uploads.DeleteFile`; the invariant is kept |
| Server.App.ListFiles | app.py:503-526 | as intended (the 400 of `Uploads.FilesGuard`): fails exactly when the header is missing; gives `[]` when there is no upload directory; otherwise one entry per file with its name, size and relative path |
| Server.App.DeleteAllFiles | app.py:528-549 | as intended: new state and answer are those of `Uploads.DeleteAllFiles`, with the 400 of `Uploads.FilesGuard`; the invariant is kept |
| Server.App.UnlinkAll | app.py:536-543 | the unlink loop empties the session's upload directory and changes nothing else |
| Server.App.StreamEvents | app.py:326-338 | as intended: the events sent are `Chat.EventStream`, with its error event; afterwards the store holds the encoded transcript under `messages:<id>`; when that write fails, the same frames are sent, the response is cut off and the store is unchanged; nothing else changes |
| Server.App.ChatEndpoint | app.py:295-344 | as intended: a rejected request changes nothing and gets the 400 or 500 of `Chat.ChatGuard`; an accepted one has the effect and answer of `Chat.ChatTurn`, including a failing timestamp or transcript write; the invariant is kept |
| Server.App.HistoryEndpoint | app.py:347-356 | the answer is `Chat.History` of the current state |
| Server.App.ClearEndpoint | app.py:359-374 | as intended: new state and answer are those of `Chat.ClearEndpoint`, with its 400; the invariant is kept |
| ClientStream.CompleteLines | frontend/assistant.js:237-240 | the dispatched lines contain no newline |
| ClientStream.Pending | frontend/assistant.js:240 | the carried buffer contains no newline |
| ClientStream.Decompose | frontend/assistant.js:237-240 | the complete lines, each followed by a newline, then the buffer, give the text back |
| ClientStream.DecomposeUnique | frontend/assistant.js:237-240 | that decomposition is the only one into newline-free lines and a newline-free rest |
| ClientStream.FeedExtends | frontend/assistant.js:233-240 | one read dispatches exactly the lines the new text completes and carries its unfinished rest |
| ClientStream.ChunkingIrrelevant | frontend/assistant.js:228-255 | the lines dispatched depend only on the whole text, not on how it is cut into reads |
| ClientStream.ConcatAppend | frontend/assistant.js:234 | the text received over two runs of reads is their texts one after the other |
| ClientStream.ReplaceFirst | frontend/assistant.js:245 | on a line starting with the prefix, `replace` removes exactly that prefix |
| ClientStream.Payload | frontend/assistant.js:243-245 | a line has a payload exactly when it starts with `data: ` |
| ClientStream.PayloadOfDataLine | frontend/assistant.js:243-245 | the payload of `data: ` + d is d trimmed |
| ClientStream.PayloadsAppend | frontend/assistant.js:242-253 | the payloads of two runs of lines are their payloads one after the other |
| StreamRoundTrip.FramesAreEventLines | app.py:329-330 | the bytes of the events are their lines, each ended by a newline |
| StreamRoundTrip.PayloadsOfEventLines | frontend/assistant.js:242-253 | the client's payloads of the event lines are the payloads sent, when each is a trimmed single line |
| StreamRoundTrip.StreamRoundTrip | frontend/assistant.js:226-255 | however the events are cut into reads, the client dispatches exactly the event lines, keeps nothing pending, and extracts every payload sent, in order |
| StreamRoundTrip.UnterminatedNotDispatched | frontend/assistant.js:237-240 | text after the last newline is held back and only extends the buffer |
| StreamRoundTrip.CleanRunDecodes | app.py:326-330 | for a run of encodable dicts, the client parses back exactly the JSON of every item, in order |
| StreamRoundTrip.EncodedItem | app.py:329-330 | an object without exceptions encodes to one trimmed line that decodes back to its JSON |
| StreamRoundTrip.ItemFramesOfClean | app.py:328-330 | in a clean run, event i carries the encoding of item i |
| ClientView.OrUndefined | frontend/assistant.js:290-291 | `x \|\| undefined` keeps exactly the nonempty strings |
| ClientView.FindCurrent | frontend/assistant.js:312 | the position found is the first message with the current id, or none when no message has it |
| ClientView.StartChunk | frontend/assistant.js:282-296 | a start chunk adds one message and makes it current; the same call then appends the content again (unless `active_line`); earlier messages are untouched |
| ClientView.ErrorChunk | frontend/assistant.js:297-303 | an error chunk that is not a start appends one system message with the error's text and changes nothing else |
| ClientView.UpdateChunk | frontend/assistant.js:311-324 | any other chunk changes only the first message with the current id: completion, format, and content replaced or extended |
| ClientView.StartIgnoresError | frontend/assistant.js:282-303 | an error on a start chunk is ignored |
| ClientView.Run | frontend/assistant.js:242-253 | as intended, with every `processChunk` promise resolved: there are no more calls than lines |
| ClientView.RunProcessesEveryChunk | frontend/assistant.js:242-253 | every line that carries a chunk is processed, one call each |
| ClientView.RunAsWrittenWithoutErrors | frontend/assistant.js:248-249 | without error chunks the loop as written does what `Run` does and never hangs |
| ClientView.RunAsWrittenStaysStuck | frontend/assistant.js:248-249 | once hung, the loop as written dispatches nothing more |
| ClientView.ErrorChunkStopsReader | frontend/assistant.js:297-303 | an error event: as written the loop hangs and the next chunk is never processed; as intended it is |
| ClientView.RunSkipsNonData | frontend/assistant.js:243 | lines without `data: ` leave the view alone |
| ClientView.Kept | frontend/assistant.js:659-671 | the history loader keeps no more messages than were stored |
| ClientView.KeptAppend | frontend/assistant.js:659-671 | the loader works message by message: two runs are kept one after the other |
| ClientView.KeptOne | frontend/assistant.js:663-667 | a stored message is dropped exactly when it is a console message, and otherwise keeps its id or gets a generated one |
| ClientView.KeptMembers | frontend/assistant.js:659-671 | every non-console stored message is kept, and every kept message is a stored non-console one |
| ClientView.ChatView.constructor | frontend/assistant.js:15-20 | the page starts with no messages and no current message |
| ClientView.ChatView.ProcessChunk | frontend/assistant.js:278-332 | the new page state is `Step` of the old one |
| ClientView.ChatView.ReceiveStream | frontend/assistant.js:226-255 | as intended: the page state and the number of calls are `Run` over the complete lines of the whole text received |
| ClientView.ChatView.DispatchLines | frontend/assistant.js:242-253 | as intended: dispatching a read's lines extends `Run` by those lines |
| ClientView.ChatView.DispatchLine | frontend/assistant.js:243-252 | one line is processed exactly as `LineStep` says |
| ClientView.ChatView.LoadHistory | frontend/assistant.js:649-672 | the kept stored messages are appended in order, and the current message is unchanged |
| HtmlEscape.Entity | frontend/assistant.js:596-602 | each entity starts with '&', ends with ';', and contains no other special character |
| HtmlEscape.EscapeHtml | frontend/assistant.js:595-604 | the escape is at least as long as the text and contains no `<`, `>`, `"` or `'` |
| HtmlEscape.EscapeOne | frontend/assistant.js:596-603 | each of the five characters becomes its entity, and every other character is kept |
| HtmlEscape.EscapeRoundTrip | frontend/assistant.js:595-604 | escaping loses nothing: unescaping gives the text back |
| HtmlEscape.EscapeAppend | frontend/assistant.js:603 | escaping works character by character |
| HtmlEscape.EscapePlain | frontend/assistant.js:603 | a text without special characters is unchanged |
| Months.DaysIn | utils/donwload_and_pack_tide_data.py:14 | every month has 28 to 31 days |
| Months.AddDays | utils/donwload_and_pack_tide_data.py:14 | adding days to a valid date gives a valid date, or none past year 9999 |
| Months.Advance | utils/donwload_and_pack_tide_data.py:14-15 | 32 days after the first of a month, then day 1, is the first of the next month; it fails only after December 9999 |
| Months.ParseMonth | utils/donwload_and_pack_tide_data.py:10-11 | a parsed month is a valid first day of a month |
| Months.FormatRoundTrip | utils/donwload_and_pack_tide_data.py:10-13 | from year 1000 on, `strftime("%Y%m")` has six characters and `strptime` reads it back |
| Months.GenerateDateRange | utils/donwload_and_pack_tide_data.py:9-15 | the generator's loop yields `DateRange`: every month from start to end, then the error it stops with, if any |
| Months.Between | utils/donwload_and_pack_tide_data.py:12-15 | the number of months from start to end, none when start is after end |
| Months.RangeLength | utils/donwload_and_pack_tide_data.py:9-15 | 12·(Ye−Ys) + (Me−Ms) + 1 months when start is not after end, none otherwise |
| Months.RangeEnds | utils/donwload_and_pack_tide_data.py:9-15 | the first month is the start and the last is the end |
| Months.RangeConsecutive | utils/donwload_and_pack_tide_data.py:13-15 | each month is followed by the next calendar month |
| Months.RangeBounded | utils/donwload_and_pack_tide_data.py:12 | every month yielded lies between start and end |
| Months.RangeTextsHaveSixCharacters | utils/donwload_and_pack_tide_data.py:13 | from year 1000 on, every value yielded has six characters |
| TidePack.SaveTideData | utils/donwload_and_pack_tide_data.py:17-63 | as intended: the station and month loops compute `SaveTideDataSpec`, which skips every station with a failed month |
| TidePack.FetchStation | utils/donwload_and_pack_tide_data.py:27-37 | the month loop of one station computes `Collect` |
| TidePack.CollectIsFaithful | utils/donwload_and_pack_tide_data.py:27-40 | the loop stacks in order the tables of the months that succeeded, keeps the first notes that are not None, flags the station exactly when a fetch raised, and has something to concatenate exactly when a fetch returned |
| TidePack.FirstNotesSnoc | utils/donwload_and_pack_tide_data.py:32-33 | later notes never replace earlier ones |
| TidePack.TablesOfSnoc | utils/donwload_and_pack_tide_data.py:29-30 | one more successful month appends its table |
| TidePack.SavedStations | utils/donwload_and_pack_tide_data.py:22-61 | on success, the stations stored are exactly the listed ones with no failed month, each with the range text `start-end`, its first notes and its stacked tables |
| TidePack.SaveFailsIff | utils/donwload_and_pack_tide_data.py:22-61 | for a nonempty station list the call raises the month range's error when the range fails; otherwise it raises `NothingToConcatenate` exactly when some listed station had no failed and no fetched month |
| TidePack.PackErrorPersists | utils/donwload_and_pack_tide_data.py:22-40 | once the station loop has raised, later stations change nothing |
| TidePack.FalsyIdNotSkipped | utils/donwload_and_pack_tide_data.py:36-39 | as written, a station with the empty id and a failed month is stored with the months that did not fail |
| TidePack.FalsyIdSkipped | utils/donwload_and_pack_tide_data.py:36-39 | as intended, the same station is left out |
| StationFilter.Str | utils/fetch_and_process.py:25 | `str` leaves a string alone and writes a natural number as digits that read back as it |
| StationFilter.ZFill | utils/fetch_and_process.py:25 | `zfill` adds zeros on the left, after any sign, up to the width; a string already that long is unchanged |
| StationFilter.IdSet | utils/fetch_and_process.py:19 | the id set holds exactly the listed ids, or is a KeyError exactly when some entry has no id |
| StationFilter.Matched | utils/fetch_and_process.py:25 | the filter raises exactly when some feature has no id, and never gives more features than it got |
| StationFilter.Collection | utils/fetch_and_process.py:27-30 | the output is a FeatureCollection holding the matched features in order |
| StationFilter.FetchAndProcess | utils/fetch_and_process.py:19-30 | each missing key raises its own KeyError; on success the output is the collection of the features that match |
| StationFilter.MatchedMembers | utils/fetch_and_process.py:25 | a feature is kept exactly when it is an input feature whose padded id is listed |
| StationFilter.MatchedNeverAdds | utils/fetch_and_process.py:25 | the filter never adds a feature, nor repeats one more often than the input does |
| StationFilter.MatchedAppend | utils/fetch_and_process.py:25 | the filter works feature by feature and keeps the order |
| StationFilter.MatchedOne | utils/fetch_and_process.py:25 | one feature with an id is kept alone or dropped |
| StationFilter.PaddedStationNumber | utils/fetch_and_process.py:25 | a station number below 1000, padded, is a three-digit numeral reading back as it |
| StationFilter.NumericEntriesNeverMatch | utils/fetch_and_process.py:19-25 | only the string entries of the index matter: an id matches the index exactly when it matches its string entries, and never one holding no string |
| StationFilter.PaddingExamples | utils/fetch_and_process.py:19-25 | station 7 matches the index entry "007", the string "7" does too, and 7 does not match the entry 7 stored as a number |

## Left out

- The interpreter engine (`open-interpreter`) is not modelled: its run is an input (the items it yields and the exception it ends with), and so is the transcript it keeps.
- Concurrency is not modelled: several requests, the background cleanup task and the Redis connection are treated as one sequence of operations. The rate limiter's bookkeeping is left out too; only the 429 message is modelled.
- Clocks, randomness and I/O are parameters: the time `now`, the ids `generateId` returns, what the file system and the store do on failure, and what `get_tide_data` returns.
- JSON syntax is not modelled: encoders and decoders are abstract functions, and the facts used about them are the predicates `Lawful` and `OneLine`.
- Session ids are single path segments: an id containing `/` or `..` that would make paths alias each other is not modelled. A partial `rmtree` failure is modelled as no change to the directory.
- Store values are either a float timestamp or other text. Which texts `float()` accepts is not modelled beyond that split. Timestamps are exact reals: the rounding of the float subtraction `current_time - last_active_time` against the 3600-second boundary is not modelled.
- Uploads.HttpError: the operating system's message for a failed open, write or rename is represented by the temporary file's path alone. A failed write gives a message without a path, and a failed rename one naming both paths.
- Uploads.ExtensionAllowed: lowercasing covers the ASCII letters only, where Python lowercases all of Unicode.
- Uploads.ALLOWED_LISTING: the order of the extensions in the error text is fixed. In the source it is the iteration order of a Python set.
- Text.ParseInt accepts an optional sign and ASCII digits only. Python's `int` also allows white space, underscores and other Unicode digits.
- Text.TrimStart: its contract does not state that the result is a suffix of the input. Text.TrimEnd likewise does not state that it is a prefix.
- Text.IsJsSpace covers the ASCII white space, no-break space and the byte-order mark. It does not cover the other Unicode space separators JavaScript's `trim` removes.
- Months.ParseMonth: the year's four digits are read as ASCII digits only. `strptime`'s `%Y` also accepts other Unicode decimal digits; its `%m` is ASCII-only, as in the model.
- Months.FormatRoundTrip holds from year 1000 on only. Before that, `strftime` gives fewer than four digits of year, which `strptime` does not read back.
- Chat.NOT_SERIALIZABLE: the type name in the TypeError message is not modelled.
- Chat.SUBSCRIPT_FAILED stands for the KeyError or TypeError that `messages[-1]` raises. Its exact text is not modelled.
- Chat.ChatTurn uses one `now` for both the interpreter's creation and the timestamp written afterwards. A failing store write (`StoreFault`) changes nothing in the store. Whether a write that raised took effect on the server is not modelled.
- ClientView.ChunkOf: a chunk field that is not a string is read as absent. The `created_at` field is not kept.
- ClientView.TextOf: the page keeps an error value as it is. The model turns it into text. A fractional number and an array get the text of an object, `[object Object]`, where JavaScript would print the number or join the elements.
- ClientView.SystemMessage: the messages `appendSystemMessage` pushes carry no `isComplete` field. The model gives them `false`, which is how the missing field reads.
- Server.App.ListFiles: models the intended 400 for a missing header. The code as written answers 500; that is `Uploads.FilesGuardAsWritten`.
- Server.App.DeleteAllFiles: models the intended 400 for a missing header. The code as written answers 500; that is `Uploads.DeleteAllFilesAsWritten`.
- Server.App.StreamEvents: sends the intended error event of `Chat.EventStream`. The code as written sends none and cuts the response off; that is `Chat.EventStreamAsWritten`.
- Server.App.ChatEndpoint: answers the intended 400s of `Chat.ChatGuard`. The code as written answers 500; that is `Chat.ChatGuardAsWritten`.
- Server.App.ClearEndpoint: answers the intended 400 of `Chat.ClearEndpoint`. The code as written answers 500; that is `Chat.ClearEndpointAsWritten`.
- TidePack.SaveTideData: skips every station with a failed month, as intended. The code as written keeps one whose id is empty; that is `TidePack.SaveTideDataAsWritten`.
- ClientView.Run: every `processChunk` promise resolves, as intended. The loop as written hangs after an error chunk; that is `ClientView.RunAsWritten`.
- ClientView.ChatView.ReceiveStream: is proved against the intended `Run`. The loop as written stops for good after an error chunk; that is `ClientView.RunAsWritten`.
- ClientView.ChatView.DispatchLines: extends the intended `Run`. The hang of the loop as written is modelled by `ClientView.RunAsWritten` only.
- Sessions.Directory: an upload directory holds only regular files, each named by one path component. Subdirectories are not modelled. So a name whose `temp_` path has more than one component fails when its temporary file is opened, and the file count of `check_session_upload_limit` is the number of entries.
- Uploads.MakeUploadDir: a failing `mkdir` (`IoFault.MkdirFails`) leaves the state as it was. A run that creates `static/<id>` and then fails on `uploads` is not modelled.
- Uploads.IoFault: which names the file system refuses (too long, an embedded NUL) and where a write fails are chosen for each call, not computed from the name. Reading the file back in `has_executable_header`, and the unlinks, are taken to succeed.
- ClientView.Kept: entries of the stored history are modelled as messages. The `history.length === 0` branch inside the loop is never taken in a non-empty array, so the prompt ideas it would show are not modelled.
- ClientView.ChatView.ReceiveStream: the `TextDecoder`, the `isGenerating` flag set by the stop button, and `resetButtons` are not modelled, and neither is rendering (`appendMessage`, `updateMessageContent`, the DOM).
- TidePack.StationRecord: writing the pickle, the `created_at` time, and turning the pandas index into a list are not modelled. A table is represented by its rows.
- StationFilter.Value: the id values are integers, strings or other values given by their `str` text. Unhashable ids, and the difference between a KeyError and a TypeError on a feature whose `properties` is not a dict, are not modelled. The two downloads and the output file are not modelled either.

## Findings

| source | as written | input that shows it | evidently intended | confidence | as-written member | corrected member |
|---|---|---|---|---|---|---|
| app.py:298-308, 342-344 | the 400s for a missing header and an empty message list are raised inside `try`, and its `except Exception` answers 500 | `POST /chat` without `x-session-id` | answer 400 "x-session-id header is required" | not executed | Chat.ChatGuardAsWrittenAnswers500 | Chat.ChatGuardStatus |
| app.py:359-374 | the 400 for a missing header is caught by the catch-all and answered as 500 | `POST /clear` without `x-session-id` | answer 400 | not executed | Chat.ClearEndpointAsWrittenAnswers500 | Chat.ClearEndpointOutcome |
| app.py:503-549 | in `list_files` and `delete_all_files` the 400 is re-raised as a 500 whose detail is "400: Session ID required" | `GET /files` without `x-session-id` | answer 400 "Session ID required", as `upload_file` and `delete_file` do | not executed | Uploads.FilesGuardAsWrittenAnswers500 | Uploads.FilesGuard |
| app.py:331-334 | the error event is `json.dumps({"error": e})` with the exception object itself, which raises a TypeError, so no error event is sent and the response is cut off | an engine that raises during a run | send `{"error": str(e)}` as a last event | not executed | Chat.EventStreamAsWrittenDropsErrors | Chat.EventStreamReportsErrors |
| utils/donwload_and_pack_tide_data.py:36-39 | the error flag is set to the station id, so a station whose id is falsy is not skipped after a failed fetch | station id `""`, with the fetch for 202401 raising and the one for 202402 returning | skip every station with a failed month | not executed | TidePack.FalsyIdNotSkipped | TidePack.SavedStations |
| frontend/assistant.js:297-303 | on an error chunk `processChunk` returns without resolving its promise, so the reader loop that awaits it never continues | an error event followed by any other event | resolve the promise on the error path too | not executed | ClientView.ErrorChunkStopsReader | ClientView.RunProcessesEveryChunk |

The check with status 403 in `delete_file` (app.py:487-490) can never fail: the route only matches file names without `/`, so the path always lies inside the upload directory (`Uploads.DeleteFileNeverDenies`).
