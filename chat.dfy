/** The chat endpoints of app.py: the request checks of `chat_endpoint`, the server-sent
    event stream it returns, the transcript it stores, `history_endpoint` and
    `clear_endpoint`. */
module Chat {
  import opened Wrappers
  import opened JsonModel
  import opened Sessions
  import opened Uploads

  const HEADER_REQUIRED: string := "x-session-id header is required"
  const INTERNAL_ERROR: HttpError := HttpError(500, "Internal server error")

  // ---------------------------------------------------------------------------
  // The request checks of chat_endpoint (app.py:298-308)

  /** Python truthiness of a JSON value. */
  predicate Truthy(j: Json) {
    match j
    case JNull => false
    case JBool(b) => b
    case JNum(n) => n != 0.0
    case JStr(s) => s != []
    case JArr(items) => items != []
    case JObj(fields) => fields != []
  }

  /** `d.get(key, default)` on a decoded object: the last field with that key wins, as
      `json.loads` keeps the last of repeated keys. */
  function Field(fields: seq<(string, Json)>, key: string, default: Json): (r: Json)
    ensures (forall i :: 0 <= i < |fields| ==> fields[i].0 != key) ==> r == default
    decreases |fields|
  {
    if fields == [] then default
    else if fields[|fields| - 1].0 == key then fields[|fields| - 1].1
    else Field(fields[..|fields| - 1], key, default)
  }

  /** `messages[-1]` on a truthy value: the last element of a list, the last character of a
      string; any other value makes the subscript raise (evaluated inside the stream). */
  function LastMessage(messages: Json): Option<Json> {
    match messages
    case JArr(items) => if items != [] then Some(items[|items| - 1]) else None
    case JStr(s) => if s != [] then Some(JStr([s[|s| - 1]])) else None
    case _ => None
  }

  /** The checks as intended: a missing header or an empty message list is the client's
      error (400); a body that does not parse, or is not a JSON object so that `get`
      raises, fails inside the handler (500). On success: the session id and the
      messages. */
  function ChatGuard(header: Option<string>, body: Option<Json>): (r: Result<(SessionId, Json), HttpError>)
  {
    var sid := HeaderSession(header);
    if sid.None? then Err(HttpError(400, HEADER_REQUIRED))
    else if body.None? || !body.value.JObj? then Err(INTERNAL_ERROR)
    else
      var messages := Field(body.value.fields, "messages", JArr([]));
      if !Truthy(messages) then Err(HttpError(400, "No messages provided"))
      else Ok((sid.value, messages))
  }

  /** The checks as written: both 400s are raised inside the `try` whose
      `except Exception` answers every error with a 500. */
  function ChatGuardAsWritten(header: Option<string>, body: Option<Json>): Result<(SessionId, Json), HttpError> {
    var r := ChatGuard(header, body);
    if r.Err? then Err(INTERNAL_ERROR) else r
  }

  /** The intended checks reject the request with 400 exactly when the header is missing
      or the message list is falsy, and accept it exactly when it has a session id, an
      object body and truthy messages, which are passed on. */
  lemma ChatGuardStatus(header: Option<string>, body: Option<Json>)
    ensures var r := ChatGuard(header, body);
      && ((r.Err? && r.error.Status() == 400) <==>
            (HeaderSession(header).None?
             || (body.Some? && body.value.JObj? && !Truthy(Field(body.value.fields, "messages", JArr([]))))))
      && (r.Ok? <==>
            && HeaderSession(header).Some? && body.Some? && body.value.JObj?
            && Truthy(Field(body.value.fields, "messages", JArr([]))))
      && (r.Ok? ==> r.value == (header.value, Field(body.value.fields, "messages", JArr([]))))
  {
  }

  /** As written, a request without the header gets a 500 instead of the 400 meant; the
      two versions agree on every request they accept. */
  lemma ChatGuardAsWrittenAnswers500(header: Option<string>, body: Option<Json>)
    ensures HeaderSession(header).None? ==>
      ChatGuardAsWritten(header, body) == Err(HttpError(500, "Internal server error"))
      && ChatGuard(header, body) == Err(HttpError(400, HEADER_REQUIRED))
    ensures ChatGuardAsWritten(header, body).Ok? <==> ChatGuard(header, body).Ok?
    ensures ChatGuard(header, body).Ok? ==> ChatGuardAsWritten(header, body) == ChatGuard(header, body)
    ensures ChatGuardAsWritten(header, body).Err? ==> ChatGuardAsWritten(header, body).error.Status() == 500
  {
  }

  // ---------------------------------------------------------------------------
  // event_stream (app.py:326-338)

  /** One item the engine yields: a dict, which may hold a value the encoder refuses, or a
      string, passed on unencoded. */
  datatype ChatItem = DictItem(o: PyObj) | TextItem(s: string)

  /** A run of the engine: what it yields, then the message of the exception it raises
      at the end, if it does. */
  datatype EngineRun = EngineRun(items: seq<ChatItem>, failure: Option<string>)

  /** How a stream ends: normally, or by an exception escaping the generator, which cuts
      the response short. */
  datatype StreamEnd = Completed | Aborted

  datatype Stream = Stream(frames: seq<string>, end: StreamEnd)

  /** One server-sent event. */
  function Frame(data: string): string {
    "data: " + data + "\n\n"
  }

  /** The message of the TypeError `json.dumps` raises on a value it cannot encode (the
      type name it also mentions is not modelled). */
  const NOT_SERIALIZABLE: string := "Object is not JSON serializable"

  /** The text sent for one item: `json.dumps` of a dict (nothing when it raises), a
      string as it is. */
  function ItemData(c: Codec, item: ChatItem): Option<string> {
    match item
    case DictItem(o) => Dumps(c, o)
    case TextItem(s) => Some(s)
  }

  /** The frames of the yielded items up to the first one `json.dumps` refuses, and the
      message of the exception that stopped the loop, if any. */
  function ItemFrames(c: Codec, items: seq<ChatItem>): (r: (seq<string>, Option<string>))
    ensures |r.0| <= |items|
    ensures r.1.None? ==> |r.0| == |items|
    decreases |items|
  {
    if items == [] then ([], None)
    else
      var data := ItemData(c, items[0]);
      if data.None? then ([], Some(NOT_SERIALIZABLE))
      else
        var (rest, failure) := ItemFrames(c, items[1..]);
        ([Frame(data.value)] + rest, failure)
  }

  /** The exception that ends the `for` loop: one from encoding an item, otherwise the
      engine's own. */
  function LoopFailure(c: Codec, run: EngineRun): Option<string> {
    var (_, failure) := ItemFrames(c, run.items);
    if failure.Some? then failure else run.failure
  }

  /** The stream as written: on an exception the handler builds `{"error": e}` around the
      exception object itself and hands it to `json.dumps`, which raises in turn. */
  function EventStreamAsWritten(c: Codec, run: EngineRun): Stream {
    var (frames, _) := ItemFrames(c, run.items);
    var failure := LoopFailure(c, run);
    if failure.None? then Stream(frames, Completed)
    else
      var reply := Dumps(c, PyDict([Entry("error", PyException(failure.value))]));
      if reply.Some? then Stream(frames + [Frame(reply.value)], Completed)
      else Stream(frames, Aborted)
  }

  /** The error event as intended: `{"error": str(e)}`. */
  function ErrorFrame(c: Codec, message: string): string {
    Frame(c.encode(JObj([("error", JStr(message))])))
  }

  /** The stream as intended: a failure is reported to the client in one last event. */
  function EventStream(c: Codec, run: EngineRun): Stream {
    var (frames, _) := ItemFrames(c, run.items);
    var failure := LoopFailure(c, run);
    if failure.None? then Stream(frames, Completed)
    else Stream(frames + [ErrorFrame(c, failure.value)], Completed)
  }

  /** A run in which nothing raises sends one event per item, in order. */
  lemma {:induction false} EventStreamOfCleanRun(c: Codec, run: EngineRun)
    requires LoopFailure(c, run).None?
    ensures EventStream(c, run) == EventStreamAsWritten(c, run)
    ensures |EventStream(c, run).frames| == |run.items|
    ensures forall i :: 0 <= i < |run.items| && run.items[i].TextItem? ==>
      EventStream(c, run).frames[i] == Frame(run.items[i].s)
  {
    FramesOfItems(c, run.items);
  }

  /** Each frame carries its item's encoding. */
  lemma {:induction false} FramesOfItems(c: Codec, items: seq<ChatItem>)
    ensures var (frames, _) := ItemFrames(c, items);
      forall i :: 0 <= i < |frames| ==>
        match items[i]
        case DictItem(o) => Dumps(c, o).Some? && frames[i] == Frame(Dumps(c, o).value)
        case TextItem(s) => frames[i] == Frame(s)
    decreases |items|
  {
    if items != [] {
      FramesOfItems(c, items[1..]);
    }
  }

  /** As written, a failing run never tells the client: no error event is sent, and the
      response is cut off after the events of the items before the failure. */
  lemma {:induction false} EventStreamAsWrittenDropsErrors(c: Codec, run: EngineRun)
    requires LoopFailure(c, run).Some?
    ensures EventStreamAsWritten(c, run) == Stream(ItemFrames(c, run.items).0, Aborted)
  {
    ErrorDictOfExceptionIsUnencodable(c, LoopFailure(c, run).value);
  }

  /** As intended, a failing run ends with one error event carrying the exception's
      message, after the same events as before. */
  lemma EventStreamReportsErrors(c: Codec, run: EngineRun)
    requires LoopFailure(c, run).Some?
    ensures EventStream(c, run).end == Completed
    ensures EventStream(c, run).frames ==
      EventStreamAsWritten(c, run).frames + [ErrorFrame(c, LoopFailure(c, run).value)]
  {
    EventStreamAsWrittenDropsErrors(c, run);
  }

  /** The message of the exception `messages[-1]` raises on a value it cannot index (the
      KeyError or TypeError text itself is not modelled). */
  const SUBSCRIPT_FAILED: string := "messages[-1] is not subscriptable"

  /** What the generator's `for` loop runs: the engine's run on the last message, or, when
      the messages cannot be indexed, a run that raises before yielding anything. */
  function ChatRun(messages: Json, run: EngineRun): (r: EngineRun)
    ensures LastMessage(messages).Some? ==> r == run
    ensures LastMessage(messages).None? ==> r == EngineRun([], Some(SUBSCRIPT_FAILED))
  {
    if LastMessage(messages).Some? then run else EngineRun([], Some(SUBSCRIPT_FAILED))
  }

  /** Messages that cannot be indexed pass the checks and fail inside the stream: as
      intended the client gets a single error event, as written an empty, cut-off
      response. */
  lemma UnindexableMessagesFailInStream(c: Codec, messages: Json, run: EngineRun)
    requires LastMessage(messages).None?
    ensures EventStream(c, ChatRun(messages, run)) == Stream([ErrorFrame(c, SUBSCRIPT_FAILED)], Completed)
    ensures EventStreamAsWritten(c, ChatRun(messages, run)) == Stream([], Aborted)
  {
    EventStreamAsWrittenDropsErrors(c, ChatRun(messages, run));
  }

  // ---------------------------------------------------------------------------
  // A chat turn on the session state (app.py:309-338)

  /** Where the store refuses a write of a chat turn: the `last_active:<id>` update before
      the stream starts, or the transcript write in the generator's `finally`. */
  datatype StoreFault = NoStoreFault | StampSetFails | TranscriptSetFails

  /** The state after a request that passed the checks: the interpreter is fetched or
      built, `last_active:<id>` is set, and when the stream ends (normally or not) the
      engine's transcript is stored under `messages:<id>`. A failing stamp write is caught
      by the catch-all and answered 500; a failing transcript write raises out of the
      generator, which cuts the response off. */
  function ChatTurn(c: Codec, s: State, id: SessionId, messages: Json, now: real, fault: CreateFault,
                    storeFault: StoreFault, run: EngineRun, transcript: Json): (State, Result<Stream, HttpError>)
  {
    var (s1, handle) := GetOrCreate(s, id, now, fault);
    if handle.Err? || storeFault.StampSetFails? then (s1, Err(INTERNAL_ERROR))
    else
      var s2 := s1.(store := s1.store[StampKey(id) := Stamp(now)]);
      var stream := EventStream(c, ChatRun(messages, run));
      if storeFault.TranscriptSetFails? then (s2, Ok(Stream(stream.frames, Aborted)))
      else (s2.(store := s2.store[TranscriptKey(id) := Raw(c.encode(transcript))]), Ok(stream))
  }

  /** A turn whose interpreter is available streams exactly when the stamp write succeeds.
      Then the session has a fresh timestamp, and the transcript is stored, whether or not
      the run failed, exactly when its write succeeds; when it fails the response is cut
      off after the same events and the stored transcript is the earlier one. A failing
      stamp write answers 500 with the interpreter already registered, and so does a
      failing `get_or_create_interpreter`, with the state that call left. */
  lemma ChatTurnRecords(c: Codec, s: State, id: SessionId, messages: Json, now: real, fault: CreateFault,
                        storeFault: StoreFault, run: EngineRun, transcript: Json)
    ensures var (t, r) := ChatTurn(c, s, id, messages, now, fault, storeFault, run, transcript);
      var (created, handle) := GetOrCreate(s, id, now, fault);
      var stream := EventStream(c, ChatRun(messages, run));
      && (r.Ok? <==> handle.Ok? && !storeFault.StampSetFails?)
      && (handle.Err? ==> r == Err(INTERNAL_ERROR) && t == created)
      && (id in t.registry <==> id in s.registry || fault != ConfigurationFails)
      && (id in s.registry ==> t.registry == s.registry)
      && t.sessionDirs == s.sessionDirs && t.uploads == s.uploads
      && (storeFault.StampSetFails? ==> r == Err(INTERNAL_ERROR) && t == created)
      && (r.Ok? ==> Get(t.store, StampKey(id)) == Some(Stamp(now)))
      && (handle.Ok? && storeFault.NoStoreFault? ==>
            r == Ok(stream) && Get(t.store, TranscriptKey(id)) == Some(Raw(c.encode(transcript))))
      && (handle.Ok? && storeFault.TranscriptSetFails? ==>
            && r == Ok(Stream(stream.frames, Aborted))
            && Get(t.store, TranscriptKey(id)) == Get(s.store, TranscriptKey(id)))
  {
    KeysDistinct(id, id);
  }

  // ---------------------------------------------------------------------------
  // history_endpoint (app.py:347-356)

  /** `GET /history`: the stored transcript, `[]` when nothing (or an empty value) is
      stored, an error object (with status 200) when the header is missing, and a 500
      when the stored text does not decode. */
  function History(c: Codec, s: State, header: Option<string>): Result<Json, HttpError> {
    var sid := HeaderSession(header);
    if sid.None? then Ok(JObj([("error", JStr(HEADER_REQUIRED))]))
    else
      var stored := Get(s.store, TranscriptKey(sid.value));
      if stored.None? || stored.value == Raw([]) then Ok(JArr([]))
      else match stored.value
        case Stamp(seconds) => Ok(JNum(seconds))
        case Raw(text) =>
          var j := c.decode(text);
          if j.Some? then Ok(j.value) else Err(HttpError(500, "Internal Server Error"))
  }

  /** What a chat turn stores, the history endpoint gives back. */
  lemma HistoryAfterChatTurn(c: Codec, s: State, id: SessionId, messages: Json, now: real, fault: CreateFault,
                             run: EngineRun, transcript: Json)
    requires Lawful(c) && id != []
    requires fault == NoCreateFault || id in s.registry
    ensures History(c, ChatTurn(c, s, id, messages, now, fault, NoStoreFault, run, transcript).0, Some(id)) == Ok(transcript)
  {
    ChatTurnRecords(c, s, id, messages, now, fault, NoStoreFault, run, transcript);
    assert c.decode(c.encode(transcript)) == Some(transcript) && c.encode(transcript) != [];
  }

  /** After a session is cleared its history is empty. */
  lemma HistoryAfterClear(c: Codec, s: State, id: SessionId)
    requires id != []
    ensures History(c, ClearSession(s, id, None).0, Some(id)) == Ok(JArr([]))
  {
    ClearSessionRemovesAll(s, id);
  }

  // ---------------------------------------------------------------------------
  // clear_endpoint (app.py:359-374)

  /** The response to a clear that raised at `step`: the store's errors are reported as
      such, any other error as an internal one. */
  function ClearFailure(step: ClearStep): HttpError {
    if step == StampDeleteFails || step == TranscriptDeleteFails then HttpError(500, "Failed to clear chat history")
    else INTERNAL_ERROR
  }

  /** `POST /clear` as intended: a missing header is a 400. */
  function ClearEndpoint(s: State, header: Option<string>, fault: Option<ClearStep>): (State, Result<string, HttpError>) {
    var sid := HeaderSession(header);
    if sid.None? then (s, Err(HttpError(400, HEADER_REQUIRED)))
    else
      var (t, raised) := ClearSession(s, sid.value, fault);
      if raised.None? then (t, Ok("Chat history cleared")) else (t, Err(ClearFailure(raised.value)))
  }

  /** `POST /clear` as written: the 400 is raised inside the `try` and its catch-all
      answers 500. */
  function ClearEndpointAsWritten(s: State, header: Option<string>, fault: Option<ClearStep>): (State, Result<string, HttpError>) {
    if HeaderSession(header).None? then (s, Err(INTERNAL_ERROR)) else ClearEndpoint(s, header, fault)
  }

  /** The two versions differ only on a missing header: 500 as written, 400 as meant. */
  lemma ClearEndpointAsWrittenAnswers500(s: State, header: Option<string>, fault: Option<ClearStep>)
    ensures HeaderSession(header).None? ==>
      ClearEndpointAsWritten(s, header, fault) == (s, Err(HttpError(500, "Internal server error")))
      && ClearEndpoint(s, header, fault) == (s, Err(HttpError(400, HEADER_REQUIRED)))
    ensures HeaderSession(header).Some? ==> ClearEndpointAsWritten(s, header, fault) == ClearEndpoint(s, header, fault)
  {
  }

  /** A clear that succeeds answers "Chat history cleared" and leaves nothing of the
      session; a redis failure is reported as a failure to clear the history. */
  lemma ClearEndpointOutcome(s: State, header: Option<string>, fault: Option<ClearStep>)
    requires HeaderSession(header).Some?
    ensures var (t, r) := ClearEndpoint(s, header, fault);
      && (fault.None? ==> r == Ok("Chat history cleared") && Gone(Project(t, header.value)))
      && (fault == Some(StampDeleteFails) ==> r == Err(HttpError(500, "Failed to clear chat history")))
      && (fault == Some(TranscriptDeleteFails) ==> r == Err(HttpError(500, "Failed to clear chat history")))
  {
    ClearSessionRemovesAll(s, header.value);
  }
}
