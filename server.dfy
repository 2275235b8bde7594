/** The FastAPI application of app.py as an object: the interpreter registry, the key/value
    store and the upload directories are its fields, and each handler is a method proved
    to change them as the specification functions of `Sessions`, `Uploads` and `Chat`
    say. */
module Server {
  import opened Wrappers
  import opened JsonModel
  import opened Sessions
  import opened Uploads
  import Chat

  /** A second write to the same key replaces the first. Proved here, apart from the
      handlers, where the same map equality would be much more expensive to prove. */
  lemma UpdateOverwrites<K, V>(m: map<K, V>, k: K, a: V, b: V)
    ensures m[k := a][k := b] == m[k := b]
  {
  }

  class App {
    var registry: map<SessionId, Handle>
    var store: map<string, StoreValue>
    var sessionDirs: set<SessionId>
    var uploads: map<SessionId, Directory>
    var nextHandle: nat

    /** The whole server state as a value. */
    function Snapshot(): State
      reads this
    {
      State(registry, store, sessionDirs, uploads, nextHandle)
    }

    ghost predicate Valid()
      reads this
    {
      Sessions.Valid(Snapshot())
    }

    /** A server that has just started: no sessions, and the given store contents and
        directories left over from earlier runs. */
    constructor (store0: map<string, StoreValue>, sessionDirs0: set<SessionId>, uploads0: map<SessionId, Directory>)
      requires Sessions.Valid(State(map[], store0, sessionDirs0, uploads0, 0))
      ensures Valid()
      ensures Snapshot() == State(map[], store0, sessionDirs0, uploads0, 0)
    {
      registry := map[];
      store := store0;
      sessionDirs := sessionDirs0;
      uploads := uploads0;
      nextHandle := 0;
    }

    // -------------------------------------------------------------------------
    // Sessions

    /** `get_or_create_interpreter` (app.py:176-212). */
    method GetOrCreateInterpreter(id: SessionId, now: real, fault: CreateFault)
      returns (r: Result<Handle, InterpreterError>)
      requires Valid()
      modifies this
      ensures Valid()
      ensures (Snapshot(), r) == GetOrCreate(old(Snapshot()), id, now, fault)
    {
      GetOrCreateKeepsValid(Snapshot(), id, now, fault);
      if id in registry {
        return Ok(registry[id]);
      }
      if fault == ConfigurationFails {
        return Err(InterpreterError);
      }
      var h := Handle(nextHandle);
      registry := registry[id := h];
      nextHandle := nextHandle + 1;
      if fault == StampWriteFails {
        return Err(InterpreterError);
      }
      store := store[StampKey(id) := Stamp(now)];
      return Ok(h);
    }

    /** `clear_session` (app.py:231-255): the step that raised, if one did. */
    method ClearSession(id: SessionId, fault: Option<ClearStep>) returns (raised: Option<ClearStep>)
      requires Valid()
      modifies this
      ensures Valid()
      ensures (Snapshot(), raised) == Sessions.ClearSession(old(Snapshot()), id, fault)
    {
      ClearSessionKeepsValid(Snapshot(), id, fault);
      assert uploads.Keys <= sessionDirs;
      assert id !in registry ==> registry - {id} == registry;
      assert id !in sessionDirs ==> sessionDirs - {id} == sessionDirs;
      if id in registry {
        if fault == Some(ResetFails) {
          return fault;
        }
        registry := registry - {id};
      }
      if fault == Some(StampDeleteFails) {
        return fault;
      }
      store := store - {StampKey(id)};
      if fault == Some(TranscriptDeleteFails) {
        return fault;
      }
      store := store - {TranscriptKey(id)};
      if id in sessionDirs {
        if fault == Some(TreeRemovalFails) {
          return fault;
        }
        sessionDirs := sessionDirs - {id};
        uploads := uploads - {id};
      } else {
        assert uploads - {id} == uploads;
      }
      return None;
    }

    /** `cleanup_idle_sessions` (app.py:257-279). The registry's keys are visited in an
        order the dictionary decides, returned as `order`; errors from one session are
        caught and the sweep goes on. */
    method CleanupIdleSessions(now: real, faults: map<SessionId, ClearStep>) returns (order: seq<SessionId>)
      requires Valid()
      modifies this
      ensures Valid()
      ensures Distinct(order) && (forall id :: id in order <==> id in old(registry))
      ensures Snapshot() == Sweep(old(Snapshot()), order, now, faults)
    {
      // list(interpreter_instances.keys())
      var pending := registry.Keys;
      order := [];
      while pending != {}
        invariant pending <= registry.Keys
        invariant forall id :: id in order <==> id in registry && id !in pending
        invariant Distinct(order)
        decreases |pending|
      {
        var id :| id in pending;
        order := order + [id];
        pending := pending - {id};
      }
      ghost var start := Snapshot();
      var i := 0;
      while i < |order|
        invariant 0 <= i <= |order|
        invariant Valid()
        invariant Sweep(Snapshot(), order[i..], now, faults) == Sweep(start, order, now, faults)
      {
        var id := order[i];
        assert order[i..][0] == id && order[i..][1..] == order[i + 1..];
        var stamp := Get(store, StampKey(id));
        if stamp.Some? && stamp.value.Stamp? && now - stamp.value.seconds > IDLE_TIMEOUT {
          var _ := ClearSession(id, Get(faults, id));
        }
        i := i + 1;
      }
    }

    // -------------------------------------------------------------------------
    // Uploads

    /** `check_session_upload_limit` (app.py:162-169): counts the regular files of the
        session's upload directory. */
    method CheckSessionUploadLimit(id: SessionId) returns (ok: bool)
      ensures ok <==> QuotaOk(Snapshot(), id)
      ensures ok <==> FileCount(Snapshot(), id) < MAX_UPLOADS_PER_SESSION
    {
      if id !in uploads {
        return true;
      }
      var dir := uploads[id];
      var pending := dir.Keys;
      var count := 0;
      while pending != {}
        invariant pending <= dir.Keys
        invariant count + |pending| == |dir.Keys|
        decreases |pending|
      {
        var name :| name in pending;
        pending := pending - {name};
        count := count + 1;
      }
      assert |dir.Keys| == |dir|;
      return count < MAX_UPLOADS_PER_SESSION;
    }

    /** `POST /upload` (app.py:390-471). */
    method UploadFile(header: Option<string>, filename: string, body: Bytes, fault: IoFault)
      returns (r: Result<UploadReceipt, HttpError>)
      requires Valid()
      modifies this
      ensures Valid()
      ensures (Snapshot(), r) == Upload(old(Snapshot()), header, filename, body, fault)
    {
      UploadKeepsValid(Snapshot(), header, filename, body, fault);
      var sid := HeaderSession(header);
      if sid.None? {
        return Err(HttpError(400, "Session ID required"));
      }
      var id := sid.value;
      var ok := CheckSessionUploadLimit(id);
      if !ok {
        return Err(HttpError(429, "Upload limit reached. Maximum 10 files per session"));
      }
      if fault.MkdirFails? {
        return Err(OsError(UploadDirText(id)));
      }
      sessionDirs := sessionDirs + {id};
      if id !in uploads {
        uploads := uploads[id := map[]];
      }
      r := StoreFile(id, filename, body, fault);
    }

    /** `upload_file` once the upload directory exists: the extension check, then the
        temporary file. */
    method StoreFile(id: SessionId, filename: string, body: Bytes, fault: IoFault)
      returns (r: Result<UploadReceipt, HttpError>)
      requires id in uploads
      modifies this
      ensures (Snapshot(), r) == StoreUpload(old(Snapshot()), id, filename, body, fault)
    {
      if !ExtensionAllowed(filename) {
        return Err(HttpError(400, "File type not allowed. Allowed types: " + ALLOWED_LISTING));
      }
      if !TempInUploads(filename) {
        return Err(OsError(TempPath(id, filename)));
      }
      r := ReceiveFile(id, filename, body, fault);
    }

    /** From opening `temp_<filename>` on: the chunked write with the running size check,
        the executable-header check, the scan, and the rename into place under the name's
        last component. Whatever raises, the temporary file is unlinked when it exists. */
    method ReceiveFile(id: SessionId, filename: string, body: Bytes, fault: IoFault)
      returns (r: Result<UploadReceipt, HttpError>)
      requires id in uploads
      modifies this
      ensures id in uploads
      ensures (uploads[id], r) == Receive(id, old(uploads)[id], filename, LastComponent(filename), body, fault)
      ensures uploads == old(uploads)[id := uploads[id]]
      ensures registry == old(registry) && store == old(store)
      ensures sessionDirs == old(sessionDirs) && nextHandle == old(nextHandle)
    {
      var name := LastComponent(filename);
      var temp := TempName(name);
      var dir := uploads[id];
      var cleared := dir - {temp};
      var ioError := Err(OsError(TempPath(id, filename)));
      if fault.OpenFails? {
        uploads := uploads[id := cleared];
        return ioError;
      }
      // open("wb") creates or truncates the temporary file
      uploads := uploads[id := dir[temp := []]];
      var size, oversize, failed := WriteChunks(id, temp, body, fault);
      assert FailsBeforeChecks(body, fault) <==> failed;
      assert uploads == old(uploads)[id := uploads[id]] by {
        UpdateOverwrites(old(uploads), id, dir[temp := []], uploads[id]);
      }
      var verdict: Option<HttpError> := None;
      if failed {
        verdict := None;
      } else if oversize {
        verdict := Some(HttpError(400, "File too large. Maximum size: 10.0MB"));
      } else {
        verdict := InspectTemp(id, temp, body);
      }
      assert !failed ==> verdict == ContentCheck(body);
      // the temporary file is unlinked on every failure, and renamed into place otherwise
      var renamed := !failed && verdict.None? && !fault.RenameFails?;
      var after := if renamed then cleared[name := body] else cleared;
      r := if renamed then Ok(UploadReceipt(filename, size, name, ScanFile(body).message))
           else if verdict.Some? then Err(verdict.value)
           else ioError;
      ghost var expected := Receive(id, dir, filename, name, body, fault);
      assert expected.0 == after && expected.1 == r;
      UpdateOverwrites(old(uploads), id, uploads[id], after);
      uploads := uploads[id := after];
    }

    /** `has_executable_header` and `scan_file` on the temporary file, once it holds the
        whole body. */
    method InspectTemp(id: SessionId, temp: string, body: Bytes) returns (verdict: Option<HttpError>)
      requires id in uploads && temp in uploads[id] && uploads[id][temp] == body
      requires |body| <= MAX_FILE_SIZE
      ensures verdict == ContentCheck(body)
    {
      var written := uploads[id][temp];
      verdict := None;
      if HasExecutableHeader(written) {
        verdict := Some(HttpError(400, "Executable file detected"));
      } else {
        var scan := ScanFile(written);
        if !scan.clean {
          verdict := Some(HttpError(400, scan.message));
        }
      }
    }

    /** The `while chunk := await file.read(CHUNK_SIZE)` loop: chunks are appended to the
        temporary file until the body is consumed, until the running size passes the
        maximum, or until a write raises; the last two stop the loop with the file written
        only in part. */
    method WriteChunks(id: SessionId, temp: string, body: Bytes, fault: IoFault)
      returns (size: nat, oversize: bool, failed: bool)
      requires id in uploads
      modifies this
      ensures failed <==> fault.WriteFails? && WriteReached(body, fault.chunk)
      ensures !failed ==> (oversize <==> |body| > MAX_FILE_SIZE)
      ensures !failed && !oversize ==> size == |body|
      ensures id in uploads && uploads == old(uploads)[id := uploads[id]]
      ensures !failed && !oversize ==> uploads[id] == old(uploads)[id][temp := body]
      ensures !failed && !oversize ==> temp in uploads[id] && uploads[id][temp] == body
      ensures uploads[id] - {temp} == old(uploads)[id] - {temp}
      ensures registry == old(registry) && store == old(store)
      ensures sessionDirs == old(sessionDirs) && nextHandle == old(nextHandle)
    {
      var dir := uploads[id];
      size := 0;
      var i: nat := 0;
      var content: Bytes := [];
      oversize := false;
      failed := false;
      uploads := uploads[id := dir[temp := content]];
      while size < |body| && !oversize && !failed
        invariant size <= |body|
        invariant size == if i * CHUNK_SIZE < |body| then i * CHUNK_SIZE else |body|
        invariant !(oversize && failed)
        invariant oversize <==> size > MAX_FILE_SIZE
        invariant !oversize && !failed ==> content == body[..size]
        invariant failed ==> fault.WriteFails? && fault.chunk + 1 == i && WriteReached(body, fault.chunk)
        invariant !failed && fault.WriteFails? && fault.chunk < i ==> oversize && fault.chunk + 1 == i
        invariant uploads == old(uploads)[id := dir[temp := content]]
        invariant registry == old(registry) && store == old(store)
        invariant sessionDirs == old(sessionDirs) && nextHandle == old(nextHandle)
        decreases |body| - size
      {
        var n := if |body| - size < CHUNK_SIZE then |body| - size else CHUNK_SIZE;
        var chunk := body[size..size + n];
        size := size + n;
        i := i + 1;
        if size > MAX_FILE_SIZE {
          oversize := true;
        } else if fault.WriteFails? && fault.chunk + 1 == i {
          failed := true;
        } else {
          content := content + chunk;
          assert content == body[..size];
          uploads := uploads[id := dir[temp := content]];
        }
      }
      if !failed && fault.WriteFails? && fault.chunk >= i {
        assert fault.chunk * CHUNK_SIZE >= i * CHUNK_SIZE;
      }
      assert !oversize && !failed ==> content == body;
      assert dir[temp := content] - {temp} == dir - {temp};
    }

    /** `DELETE /files/{filename}` (app.py:473-501). */
    method DeleteFile(header: Option<string>, filename: string) returns (r: Result<string, HttpError>)
      requires '/' !in filename
      requires Valid()
      modifies this
      ensures Valid()
      ensures (Snapshot(), r) == Uploads.DeleteFile(old(Snapshot()), header, filename)
    {
      var sid := HeaderSession(header);
      if sid.None? {
        return Err(HttpError(400, "Session ID required"));
      }
      var id := sid.value;
      if id !in uploads || filename !in uploads[id] {
        return Err(HttpError(404, "File not found"));
      }
      var base := UploadDirPath(id);
      if RelativeTo(JoinPath(base, filename), base).None? {
        return Err(HttpError(403, "Access denied"));
      }
      uploads := uploads[id := uploads[id] - {filename}];
      return Ok("File deleted successfully");
    }

    /** `GET /files` (app.py:503-526): one entry per file, in the order the directory
        listing gives. */
    method ListFiles(header: Option<string>) returns (r: Result<seq<FileInfo>, HttpError>)
      ensures r.Err? <==> FilesGuard(header).Err?
      ensures r.Err? ==> r.error == MISSING_SESSION
      ensures r.Ok? && header.value !in uploads ==> r.value == []
      ensures r.Ok? && header.value in uploads ==> IsListing(uploads[header.value], r.value)
    {
      var sid := FilesGuard(header);
      if sid.Err? {
        return Err(sid.error);
      }
      var id := sid.value;
      if id !in uploads {
        return Ok([]);
      }
      var dir := uploads[id];
      var pending := dir.Keys;
      var entries: seq<FileInfo> := [];
      while pending != {}
        invariant pending <= dir.Keys
        invariant |entries| + |pending| == |dir.Keys|
        invariant forall i :: 0 <= i < |entries| ==>
          entries[i].name in dir && entries[i].name !in pending
          && entries[i].size == |dir[entries[i].name]| && entries[i].path == entries[i].name
        invariant forall i, j :: 0 <= i < j < |entries| ==> entries[i].name != entries[j].name
        invariant forall n :: n in dir && n !in pending ==> exists i :: 0 <= i < |entries| && entries[i].name == n
        decreases |pending|
      {
        var name :| name in pending;
        ghost var before := entries;
        entries := entries + [FileInfo(name, |dir[name]|, name)];
        pending := pending - {name};
        forall n | n in dir && n !in pending
          ensures exists i :: 0 <= i < |entries| && entries[i].name == n
        {
          if n == name {
            assert entries[|before|].name == n;
          } else {
            var i :| 0 <= i < |before| && before[i].name == n;
            assert entries[i].name == n;
          }
        }
      }
      assert |dir.Keys| == |dir|;
      return Ok(entries);
    }

    /** `DELETE /files` (app.py:528-549): unlinks each file, then removes the directory. */
    method DeleteAllFiles(header: Option<string>) returns (r: Result<string, HttpError>)
      requires Valid()
      modifies this
      ensures Valid()
      ensures (Snapshot(), r) == Uploads.DeleteAllFiles(old(Snapshot()), header)
    {
      var sid := FilesGuard(header);
      if sid.Err? {
        return Err(sid.error);
      }
      var id := sid.value;
      DeleteAllFilesEmpties(Snapshot(), header, id);
      if id in uploads {
        UnlinkAll(id);
        // session_dir.rmdir()
        uploads := uploads - {id};
        assert uploads == old(uploads) - {id};
      } else {
        assert uploads - {id} == uploads;
      }
      return Ok("All files deleted successfully");
    }

    /** The loop of `delete_all_files` that unlinks the files of the upload directory one
        by one. */
    method UnlinkAll(id: SessionId)
      requires id in uploads
      modifies this
      ensures uploads == old(uploads)[id := map[]]
      ensures registry == old(registry) && store == old(store)
      ensures sessionDirs == old(sessionDirs) && nextHandle == old(nextHandle)
    {
      var dir := uploads[id];
      var pending := dir.Keys;
      while pending != {}
        invariant dir.Keys == pending
        invariant uploads == old(uploads)[id := dir]
        invariant registry == old(registry) && store == old(store)
        invariant sessionDirs == old(sessionDirs) && nextHandle == old(nextHandle)
        decreases |pending|
      {
        var name :| name in pending;
        // file_path.unlink()
        dir := dir - {name};
        pending := pending - {name};
        uploads := uploads[id := dir];
      }
      assert dir == map[];
    }

    // -------------------------------------------------------------------------
    // Chat

    /** The generator of `chat_endpoint` (app.py:326-338), with the error event sent as
        intended; its `finally` stores the engine's transcript, and a failure of that write
        cuts the response off. */
    method StreamEvents(c: Codec, id: SessionId, run: Chat.EngineRun, transcript: Json, transcriptFails: bool)
      returns (stream: Chat.Stream)
      modifies this
      ensures !transcriptFails ==> stream == Chat.EventStream(c, run)
      ensures !transcriptFails ==> store == old(store)[TranscriptKey(id) := Raw(c.encode(transcript))]
      ensures transcriptFails ==> stream == Chat.Stream(Chat.EventStream(c, run).frames, Chat.Aborted)
      ensures transcriptFails ==> store == old(store)
      ensures registry == old(registry) && sessionDirs == old(sessionDirs)
      ensures uploads == old(uploads) && nextHandle == old(nextHandle)
    {
      var frames: seq<string> := [];
      var failure: Option<string> := None;
      var i := 0;
      assert run.items[0..] == run.items;
      assert frames + Chat.ItemFrames(c, run.items).0 == Chat.ItemFrames(c, run.items).0;
      while i < |run.items| && failure.None?
        invariant 0 <= i <= |run.items|
        invariant failure.None? ==>
          && Chat.ItemFrames(c, run.items).0 == frames + Chat.ItemFrames(c, run.items[i..]).0
          && Chat.ItemFrames(c, run.items).1 == Chat.ItemFrames(c, run.items[i..]).1
        invariant failure.Some? ==>
          Chat.ItemFrames(c, run.items) == (frames, failure) && failure == Some(Chat.NOT_SERIALIZABLE)
        decreases |run.items| - i, failure.None?
      {
        var data := Chat.ItemData(c, run.items[i]);
        ghost var rest := Chat.ItemFrames(c, run.items[i + 1..]);
        assert run.items[i..][0] == run.items[i] && run.items[i..][1..] == run.items[i + 1..];
        assert Chat.ItemFrames(c, run.items[i..]) ==
          if data.None? then ([], Some(Chat.NOT_SERIALIZABLE))
          else ([Chat.Frame(data.value)] + rest.0, rest.1);
        if data.None? {
          failure := Some(Chat.NOT_SERIALIZABLE);
          assert frames + [] == frames;
        } else {
          frames := frames + [Chat.Frame(data.value)];
          i := i + 1;
        }
      }
      if failure.None? {
        assert run.items[i..] == [];
        failure := run.failure;
      }
      if failure.Some? {
        frames := frames + [Chat.ErrorFrame(c, failure.value)];
      }
      // finally: the transcript is stored however the stream ended
      if transcriptFails {
        stream := Chat.Stream(frames, Chat.Aborted);
      } else {
        stream := Chat.Stream(frames, Chat.Completed);
        store := store[TranscriptKey(id) := Raw(c.encode(transcript))];
      }
    }

    /** `POST /chat` (app.py:295-344) with its checks answering as intended. */
    method ChatEndpoint(c: Codec, header: Option<string>, body: Option<Json>, now: real,
                        fault: CreateFault, storeFault: Chat.StoreFault, run: Chat.EngineRun, transcript: Json)
      returns (r: Result<Chat.Stream, HttpError>)
      requires Valid()
      modifies this
      ensures Valid()
      ensures var guard := Chat.ChatGuard(header, body);
        && (guard.Err? ==> Snapshot() == old(Snapshot()) && r == Err(guard.error))
        && (guard.Ok? ==>
              (Snapshot(), r) == Chat.ChatTurn(c, old(Snapshot()), guard.value.0, guard.value.1, now, fault, storeFault, run, transcript))
    {
      var guard := Chat.ChatGuard(header, body);
      if guard.Err? {
        return Err(guard.error);
      }
      var id := guard.value.0;
      var handle := GetOrCreateInterpreter(id, now, fault);
      if handle.Err? {
        return Err(Chat.INTERNAL_ERROR);
      }
      if storeFault.StampSetFails? {
        return Err(Chat.INTERNAL_ERROR);
      }
      store := store[StampKey(id) := Stamp(now)];
      assert Valid();
      var stream := StreamEvents(c, id, Chat.ChatRun(guard.value.1, run), transcript, storeFault.TranscriptSetFails?);
      return Ok(stream);
    }

    /** `GET /history` (app.py:347-356). */
    method HistoryEndpoint(c: Codec, header: Option<string>) returns (r: Result<Json, HttpError>)
      ensures r == Chat.History(c, Snapshot(), header)
    {
      var sid := HeaderSession(header);
      if sid.None? {
        return Ok(JObj([("error", JStr(Chat.HEADER_REQUIRED))]));
      }
      var stored := Get(store, TranscriptKey(sid.value));
      if stored.None? || stored.value == Raw([]) {
        return Ok(JArr([]));
      }
      match stored.value
      case Stamp(seconds) =>
        return Ok(JNum(seconds));
      case Raw(text) =>
        var j := c.decode(text);
        if j.None? {
          return Err(HttpError(500, "Internal Server Error"));
        }
        return Ok(j.value);
    }

    /** `POST /clear` (app.py:359-374) with the missing header answered as intended. */
    method ClearEndpoint(header: Option<string>, fault: Option<ClearStep>) returns (r: Result<string, HttpError>)
      requires Valid()
      modifies this
      ensures Valid()
      ensures (Snapshot(), r) == Chat.ClearEndpoint(old(Snapshot()), header, fault)
    {
      var sid := HeaderSession(header);
      if sid.None? {
        return Err(HttpError(400, Chat.HEADER_REQUIRED));
      }
      var raised := ClearSession(sid.value, fault);
      if raised.None? {
        return Ok("Chat history cleared");
      }
      return Err(Chat.ClearFailure(raised.value));
    }
  }
}
