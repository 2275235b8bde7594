/** The upload and file endpoints of app.py as specification functions over the session
    state: `upload_file`, `delete_file`, `list_files`, `delete_all_files`, with the checks
    they perform (`check_session_upload_limit`, the extension list, the size cap,
    `has_executable_header`, the `scan_file` stub). */
module Uploads {
  import opened Wrappers
  import opened Sessions
  import Text

  const CHUNK_SIZE: nat := 8192
  const MAX_FILE_SIZE: nat := 10485760   // 10 MiB
  const MAX_UPLOADS_PER_SESSION: nat := 10
  const ALLOWED_EXTENSIONS: set<string> := {".csv", ".txt", ".json", ".nc", ".xlsx", ".tif"}
  const SCAN_SKIPPED: string := "Virus scan skipped (ClamAV unavailable)"
  const ALLOWED_LISTING: string := ".csv, .txt, .json, .nc, .xlsx, .tif"
  const TEMP_PREFIX: string := "temp_"

  /** An error response. `OsError(path)` is a 500 whose detail is the operating system's
      message about `path`. */
  datatype HttpError = HttpError(status: int, detail: string) | OsError(path: string) {
    function Status(): int {
      match this
      case HttpError(status, _) => status
      case OsError(_) => 500
    }
  }

  /** The session id from the `x-session-id` header; an absent or empty header gives none. */
  function HeaderSession(header: Option<string>): (r: Option<SessionId>)
    ensures r.Some? <==> header.Some? && header.value != []
    ensures r.Some? ==> r.value == header.value
  {
    if header.Some? && header.value != [] then header else None
  }

  // ---------------------------------------------------------------------------
  // has_executable_header (app.py:377-387) and scan_file (app.py:131-159)

  /** The first four bytes start with `MZ` or with `\x7fELF`. */
  function HasExecutableHeader(content: Bytes): (r: bool)
    ensures r <==> ((|content| >= 2 && content[0] == 0x4D && content[1] == 0x5A)
                    || (|content| >= 4 && content[..4] == [0x7F, 0x45, 0x4C, 0x46]))
  {
    var header := if |content| <= 4 then content else content[..4];
    assert |content| >= 4 ==> header == content[..4];
    Text.StartsWith(header, [0x4D, 0x5A]) || Text.StartsWith(header, [0x7F, 0x45, 0x4C, 0x46])
  }

  datatype ScanResult = ScanResult(clean: bool, message: string)

  /** The virus scan is a stub: every file is reported clean, with the same message. */
  function ScanFile(content: Bytes): (r: ScanResult)
    ensures r.clean && r.message == SCAN_SKIPPED
  {
    ScanResult(true, SCAN_SKIPPED)
  }

  // ---------------------------------------------------------------------------
  // The file extension: `Path(name).suffix.lower()`

  /** The components `PurePath` keeps of a relative name: the pieces between the slashes,
      without the empty and `.` ones. */
  function Components(name: string): (r: seq<string>)
    ensures forall i :: 0 <= i < |r| ==> r[i] != [] && r[i] != "." && '/' !in r[i]
  {
    ProperPieces(Text.Split(name, '/'))
  }

  function ProperPieces(parts: seq<string>): (r: seq<string>)
    requires forall i :: 0 <= i < |parts| ==> '/' !in parts[i]
    ensures forall i :: 0 <= i < |r| ==> r[i] != [] && r[i] != "." && '/' !in r[i]
    decreases |parts|
  {
    if parts == [] then []
    else
      var last := parts[|parts| - 1];
      ProperPieces(parts[..|parts| - 1]) + (if last == [] || last == "." then [] else [last])
  }

  lemma {:induction false} ProperPiecesAppend(a: seq<string>, b: seq<string>)
    requires forall i :: 0 <= i < |a| ==> '/' !in a[i]
    requires forall i :: 0 <= i < |b| ==> '/' !in b[i]
    ensures ProperPieces(a + b) == ProperPieces(a) + ProperPieces(b)
    decreases |b|
  {
    if b == [] {
      assert a + b == a;
    } else {
      var front := b[..|b| - 1];
      assert (a + b)[..|a + b| - 1] == a + front;
      assert (a + b)[|a + b| - 1] == b[|b| - 1];
      ProperPiecesAppend(a, front);
    }
  }

  /** The last path component of `name`, as `PurePath.name` gives it (empty when there is
      none). */
  function LastComponent(name: string): (r: string)
    ensures '/' !in r
  {
    var c := Components(name);
    if c == [] then [] else c[|c| - 1]
  }

  /** A name without '/' that is neither empty nor `.` is its own single component. */
  lemma PlainComponents(name: string)
    requires '/' !in name && name != [] && name != "."
    ensures Components(name) == [name] && LastComponent(name) == name
  {
    Text.SplitWithoutSeparator(name, '/');
    assert ProperPieces([name]) == ProperPieces([]) + [name];
  }

  /** Index of the last '.' in `s`, if any. */
  function LastDot(s: string): (r: Option<nat>)
    ensures r.Some? ==> r.value < |s| && s[r.value] == '.'
    ensures r.Some? ==> forall j :: r.value < j < |s| ==> s[j] != '.'
    ensures r.None? ==> forall j :: 0 <= j < |s| ==> s[j] != '.'
    decreases |s|
  {
    if s == [] then None
    else if s[|s| - 1] == '.' then Some(|s| - 1)
    else LastDot(s[..|s| - 1])
  }

  /** `PurePath.suffix` of a component: from its last '.', provided that dot is neither the
      first nor the last character. */
  function ComponentSuffix(c: string): (r: string)
    ensures r == [] || (|r| >= 2 && |r| < |c| && r[0] == '.')
    ensures forall j :: 1 <= j < |r| ==> r[j] != '.'
  {
    var i := LastDot(c);
    if i.Some? && 0 < i.value < |c| - 1 then c[i.value..] else []
  }

  function Suffix(name: string): (r: string)
    ensures r == [] || (|r| >= 2 && r[0] == '.' && '/' !in r)
    ensures forall j :: 1 <= j < |r| ==> r[j] != '.'
  {
    ComponentSuffix(LastComponent(name))
  }

  /** A one-component name made of a nonempty stem and an extension has that extension
      as its suffix. */
  lemma {:induction false} SuffixOfStemAndExtension(stem: string, ext: string)
    requires stem != [] && '/' !in stem
    requires |ext| >= 2 && ext[0] == '.' && '/' !in ext
    requires forall j :: 1 <= j < |ext| ==> ext[j] != '.'
    ensures Suffix(stem + ext) == ext
  {
    var name := stem + ext;
    assert '/' !in name;
    PlainComponents(name);
    var i := LastDot(name);
    assert name[|stem|] == '.';
    assert i.value == |stem|;
    assert name[|stem|..] == ext;
  }

  predicate ExtensionAllowed(filename: string) {
    Text.Lower(Suffix(filename)) in ALLOWED_EXTENSIONS
  }

  /** An allowed name has a last component of at least three characters. */
  lemma AllowedNameHasComponent(filename: string)
    requires ExtensionAllowed(filename)
    ensures |LastComponent(filename)| >= 3
  {
    AllowedExtensionsAreLong(Text.Lower(Suffix(filename)));
  }

  /** A name with an allowed extension is a single nonempty component when it has no '/'. */
  lemma {:induction false} AllowedNameIsSegment(filename: string)
    requires ExtensionAllowed(filename) && '/' !in filename
    ensures IsSegment(filename) && IsSegment(TempName(filename))
  {
    AllowedNameHasComponent(filename);
    Text.SplitWithoutSeparator(filename, '/');
    assert ProperPieces([filename]) == ProperPieces([]) + (if filename == [] || filename == "." then [] else [filename]);
    assert LastComponent(filename) == filename;
    assert '/' !in TempName(filename) by {
      assert forall k :: 0 <= k < |TempName(filename)| ==>
        TempName(filename)[k] == if k < |TEMP_PREFIX| then TEMP_PREFIX[k] else filename[k - |TEMP_PREFIX|];
    }
  }

  /** `session_dir / f"temp_{filename}"` names a file of the upload directory itself: the
      normalised path has one component below it. */
  predicate TempInUploads(filename: string) {
    |Components(TempName(filename))| == 1
  }

  /** The pieces of `temp_<filename>`: the prefix joins the name's first piece. */
  lemma {:induction false} TempPieces(filename: string)
    ensures var parts := Text.Split(filename, '/');
      && Text.Split(TempName(filename), '/') == [TEMP_PREFIX + parts[0]] + parts[1..]
      && |TEMP_PREFIX + parts[0]| >= 5 && '/' !in TEMP_PREFIX + parts[0]
  {
    var parts := Text.Split(filename, '/');
    Text.SplitAfterPlainPrefix(TEMP_PREFIX, filename, '/');
    var head := TEMP_PREFIX + parts[0];
    assert forall k :: 0 <= k < |head| ==>
      head[k] == if k < |TEMP_PREFIX| then TEMP_PREFIX[k] else parts[0][k - |TEMP_PREFIX|];
  }

  /** A proper first piece followed by `rest` gives one component exactly when `rest`
      gives none. */
  lemma {:induction false} FirstPieceAlone(head: string, rest: seq<string>)
    requires head != [] && head != "." && '/' !in head
    requires forall i :: 0 <= i < |rest| ==> '/' !in rest[i]
    ensures |ProperPieces([head] + rest)| == 1 <==> ProperPieces(rest) == []
    ensures ProperPieces(rest) == [] ==> ProperPieces([head] + rest) == [head]
  {
    ProperPiecesAppend([head], rest);
    assert ProperPieces([head]) == ProperPieces([]) + [head];
  }

  /** When the temporary file lies in the upload directory, the name is its last
      component alone (followed at most by empty and `.` pieces), and both the stored
      name and the temporary name are single path segments. */
  lemma {:induction false} TempInUploadsNames(filename: string)
    requires ExtensionAllowed(filename) && TempInUploads(filename)
    ensures Components(filename) == [LastComponent(filename)]
    ensures Components(TempName(filename)) == [TempName(LastComponent(filename))]
    ensures IsSegment(LastComponent(filename)) && IsSegment(TempName(LastComponent(filename)))
  {
    var parts := Text.Split(filename, '/');
    var name := parts[0];
    var rest := parts[1..];
    TempPieces(filename);
    FirstPieceAlone(TEMP_PREFIX + name, rest);
    assert ProperPieces(rest) == [];
    AllowedNameHasComponent(filename);
    assert name != [] && name != "." by {
      ProperPiecesAppend([name], rest);
      assert parts == [name] + rest;
      assert ProperPieces([name]) == ProperPieces([]) + (if name == [] || name == "." then [] else [name]);
    }
    FirstPieceAlone(name, rest);
    assert parts == [name] + rest;
    assert Components(filename) == [name];
    PlainComponents(name);
    assert Suffix(name) == Suffix(filename);
    AllowedNameIsSegment(name);
  }

  /** A plain component followed by '/' gives that component alone. */
  lemma {:induction false} TrailingSlashPieces(p: string)
    requires '/' !in p && p != [] && p != "."
    ensures Text.Split(p + "/", '/') == [p, []]
    ensures Components(p + "/") == [p]
  {
    assert Text.Split("/", '/') == [[], []] by {
      assert "/"[1..] == [];
    }
    Text.SplitAfterPlainPrefix(p, "/", '/');
    assert p + [] == p;
    assert ProperPieces([[]]) == [] by {
      var empty: seq<string> := [[]];
      assert empty[..0] == [];
    }
    FirstPieceAlone(p, [[]]);
  }

  /** A trailing '/' is dropped: `name/` passes the same extension check, keeps its
      temporary file in the upload directory, and is stored as `name`. */
  lemma {:induction false} TrailingSlashDropped(name: string)
    requires ExtensionAllowed(name) && '/' !in name
    ensures ExtensionAllowed(name + "/") && TempInUploads(name + "/")
    ensures LastComponent(name + "/") == name
  {
    AllowedNameIsSegment(name);
    TrailingSlashPieces(name);
    PlainComponents(name);
    assert TempName(name + "/") == TempName(name) + "/";
    TrailingSlashPieces(TempName(name));
  }

  /** A name without '/' keeps its temporary file in the upload directory and is stored
      under itself. */
  lemma PlainNameStaysInUploads(filename: string)
    requires ExtensionAllowed(filename) && '/' !in filename
    ensures TempInUploads(filename) && LastComponent(filename) == filename
  {
    AllowedNameIsSegment(filename);
    PlainComponents(filename);
    PlainComponents(TempName(filename));
  }

  lemma AllowedExtensionsAreLong(e: string)
    requires e in ALLOWED_EXTENSIONS
    ensures |e| >= 2
  {
  }

  // ---------------------------------------------------------------------------
  // check_session_upload_limit (app.py:162-169)

  /** The number of regular files in the session's upload directory (none when missing). */
  function FileCount(s: State, id: SessionId): nat {
    if id in s.uploads then |s.uploads[id]| else 0
  }

  /** True when the session holds fewer than the maximum number of files. */
  predicate QuotaOk(s: State, id: SessionId) {
    FileCount(s, id) < MAX_UPLOADS_PER_SESSION
  }

  // ---------------------------------------------------------------------------
  // upload_file (app.py:390-471)

  datatype UploadReceipt = UploadReceipt(filename: string, size: nat, path: string, scanResult: string)

  function TempName(filename: string): string {
    TEMP_PREFIX + filename
  }

  function UploadDirText(id: SessionId): string {
    "static/" + id + "/uploads"
  }

  /** The temporary file's path as `pathlib` prints it, normalised. */
  function TempPath(id: SessionId, filename: string): string {
    UploadDirText(id) + "/" + Text.Join(Components(TempName(filename)), '/')
  }

  /** Where the file system refuses an upload: creating the upload directory, opening
      the temporary file (a name longer than the file system allows, an embedded NUL, no
      permission), writing the chunk with the given index, or renaming the file into
      place. */
  datatype IoFault = NoIoFault | MkdirFails | OpenFails | WriteFails(chunk: nat) | RenameFails

  /** The write of chunk `k` is reached: the body has such a chunk, and the running size
      after it does not pass the maximum. */
  predicate WriteReached(body: Bytes, k: nat) {
    && k * CHUNK_SIZE < |body|
    && (if (k + 1) * CHUNK_SIZE < |body| then (k + 1) * CHUNK_SIZE else |body|) <= MAX_FILE_SIZE
  }

  /** The fault raises before the content checks run. */
  predicate FailsBeforeChecks(body: Bytes, fault: IoFault) {
    fault.OpenFails? || (fault.WriteFails? && WriteReached(body, fault.chunk))
  }

  /** `mkdir(parents=True, exist_ok=True)` on `static/<id>/uploads`. */
  function MakeUploadDir(s: State, id: SessionId): (t: State)
    ensures id in t.uploads && id in t.sessionDirs
  {
    s.(sessionDirs := s.sessionDirs + {id},
       uploads := if id in s.uploads then s.uploads else s.uploads[id := map[]])
  }

  /** `POST /upload`: the new state and the receipt or the error response. The checks run
      in the source's order (header, quota, directory creation, extension, opening the
      temporary file, size, executable header, scan). */
  function Upload(s: State, header: Option<string>, filename: string, body: Bytes, fault: IoFault)
    : (State, Result<UploadReceipt, HttpError>)
  {
    var sid := HeaderSession(header);
    if sid.None? then (s, Err(HttpError(400, "Session ID required")))
    else
      var id := sid.value;
      if !QuotaOk(s, id) then
        (s, Err(HttpError(429, "Upload limit reached. Maximum 10 files per session")))
      else if fault.MkdirFails? then (s, Err(OsError(UploadDirText(id))))
      else
        StoreUpload(MakeUploadDir(s, id), id, filename, body, fault)
  }

  /** The steps of `upload_file` once the upload directory exists. */
  function StoreUpload(s1: State, id: SessionId, filename: string, body: Bytes, fault: IoFault)
    : (State, Result<UploadReceipt, HttpError>)
    requires id in s1.uploads
  {
    if !ExtensionAllowed(filename) then
      (s1, Err(HttpError(400, "File type not allowed. Allowed types: " + ALLOWED_LISTING)))
    else if !TempInUploads(filename) then
      // `temp_<filename>` names a file inside a directory that does not exist.
      (s1, Err(OsError(TempPath(id, filename))))
    else
      var (dir, r) := Receive(id, s1.uploads[id], filename, LastComponent(filename), body, fault);
      (s1.(uploads := s1.uploads[id := dir]), r)
  }

  /** The checks on the received bytes, in the source's order: size, executable header,
      virus scan. */
  function ContentCheck(body: Bytes): (r: Option<HttpError>)
    ensures r.None? <==> |body| <= MAX_FILE_SIZE && !HasExecutableHeader(body)
  {
    if |body| > MAX_FILE_SIZE then Some(HttpError(400, "File too large. Maximum size: 10.0MB"))
    else if HasExecutableHeader(body) then Some(HttpError(400, "Executable file detected"))
    else
      var scan := ScanFile(body);
      if !scan.clean then Some(HttpError(400, scan.message)) else None
  }

  /** From opening `temp_<filename>` on, in the upload directory of session `id`, where
      `name` is the last component of `filename`: the temporary file `temp_<name>` is gone
      afterwards whatever happens, and the bytes are stored under `name` when they pass
      the checks and the file system raises nothing. A raised `OSError` is answered by
      the outer handler as a 500 with its text. */
  function Receive(id: SessionId, dir: Directory, filename: string, name: string, body: Bytes, fault: IoFault)
    : (Directory, Result<UploadReceipt, HttpError>)
  {
    var cleared := dir - {TempName(name)};
    var ioError := Err(OsError(TempPath(id, filename)));
    if FailsBeforeChecks(body, fault) then (cleared, ioError)
    else
      var verdict := ContentCheck(body);
      if verdict.Some? then (cleared, Err(verdict.value))
      else if fault.RenameFails? then (cleared, ioError)
      else
        (cleared[name := body], Ok(UploadReceipt(filename, |body|, name, ScanFile(body).message)))
  }

  /** An upload succeeds exactly when every check passes and the file system raises
      nothing; the file then holds the uploaded bytes under the name's last component,
      and the receipt reports their number. */
  lemma {:induction false} UploadSucceedsIff(s: State, header: Option<string>, filename: string, body: Bytes, fault: IoFault)
    ensures var (t, r) := Upload(s, header, filename, body, fault);
      && (r.Ok? <==>
            && HeaderSession(header).Some?
            && QuotaOk(s, header.value)
            && !fault.MkdirFails?
            && ExtensionAllowed(filename)
            && TempInUploads(filename)
            && |body| <= MAX_FILE_SIZE
            && !HasExecutableHeader(body)
            && !FailsBeforeChecks(body, fault)
            && !fault.RenameFails?)
      && (r.Ok? ==>
            && header.value in t.uploads
            && LastComponent(filename) in t.uploads[header.value]
            && t.uploads[header.value][LastComponent(filename)] == body
            && IsSegment(LastComponent(filename))
            && r.value == UploadReceipt(filename, |body|, LastComponent(filename), SCAN_SKIPPED))
  {
    var (t, r) := Upload(s, header, filename, body, fault);
    if r.Ok? {
      TempInUploadsNames(filename);
    }
  }

  /** Each failure answers with its own status, in the order the checks run; a file-system
      failure is a 500. */
  lemma UploadErrors(s: State, header: Option<string>, filename: string, body: Bytes, fault: IoFault)
    ensures var (t, r) := Upload(s, header, filename, body, fault);
      && (HeaderSession(header).None? ==> r == Err(HttpError(400, "Session ID required")))
      && (HeaderSession(header).Some? && !QuotaOk(s, header.value) ==> r.Err? && r.error.Status() == 429)
      && ((HeaderSession(header).Some? && QuotaOk(s, header.value) && fault.MkdirFails?) ==>
            r == Err(OsError(UploadDirText(header.value))) && t == s)
      && (HeaderSession(header).Some? && QuotaOk(s, header.value) && !fault.MkdirFails?
          && !ExtensionAllowed(filename) ==>
            r.Err? && r.error.Status() == 400)
      && ((HeaderSession(header).Some? && QuotaOk(s, header.value) && !fault.MkdirFails?
           && ExtensionAllowed(filename)
           && (!TempInUploads(filename) || FailsBeforeChecks(body, fault))) ==>
            r == Err(OsError(TempPath(header.value, filename))))
      && ((HeaderSession(header).Some? && QuotaOk(s, header.value) && !fault.MkdirFails?
           && ExtensionAllowed(filename) && TempInUploads(filename)
           && !FailsBeforeChecks(body, fault) && |body| > MAX_FILE_SIZE) ==>
            r == Err(HttpError(400, "File too large. Maximum size: 10.0MB")))
      && ((HeaderSession(header).Some? && QuotaOk(s, header.value) && !fault.MkdirFails?
           && ExtensionAllowed(filename) && TempInUploads(filename)
           && !FailsBeforeChecks(body, fault) && |body| <= MAX_FILE_SIZE
           && HasExecutableHeader(body)) ==>
            r == Err(HttpError(400, "Executable file detected")))
      && ((HeaderSession(header).Some? && QuotaOk(s, header.value) && !fault.MkdirFails?
           && ExtensionAllowed(filename) && TempInUploads(filename)
           && ContentCheck(body).None? && fault.RenameFails?) ==>
            r == Err(OsError(TempPath(header.value, filename))))
  {
    if HeaderSession(header).Some? && QuotaOk(s, header.value) && !fault.MkdirFails? {
      var id := header.value;
      var s1 := MakeUploadDir(s, id);
      assert Upload(s, header, filename, body, fault) == StoreUpload(s1, id, filename, body, fault);
      if ExtensionAllowed(filename) && TempInUploads(filename) {
        assert StoreUpload(s1, id, filename, body, fault).1 == Receive(id, s1.uploads[id], filename, LastComponent(filename), body, fault).1;
      }
    }
  }

  /** Receiving never leaves the temporary file behind (an earlier upload named
      `temp_<name>` is destroyed, and so is a file written in part), stores the bytes
      under the last component `name` only when they pass and every file operation
      succeeds, and touches no other file. */
  lemma {:induction false} ReceiveTouchesTwoFiles(id: SessionId, dir: Directory, filename: string, name: string, body: Bytes, fault: IoFault)
    ensures var (d, r) := Receive(id, dir, filename, name, body, fault);
      && TempName(name) !in d
      && (r.Ok? <==> ContentCheck(body).None? && !FailsBeforeChecks(body, fault) && !fault.RenameFails?)
      && (r.Ok? ==> name in d && d[name] == body)
      && (r.Err? ==> d == dir - {TempName(name)})
      && (r.Err? && r.error.OsError? <==>
            FailsBeforeChecks(body, fault) || (ContentCheck(body).None? && fault.RenameFails?))
      && (forall n :: n != TempName(name) && n != name ==> Get(d, n) == Get(dir, n))
  {
    assert TempName(name) != name by {
      assert |TempName(name)| != |name|;
    }
  }

  /** Receiving adds at most one file. */
  lemma {:induction false} ReceiveCount(id: SessionId, dir: Directory, filename: string, name: string, body: Bytes, fault: IoFault)
    ensures |Receive(id, dir, filename, name, body, fault).0| <= |dir| + 1
  {
    var temp := TempName(name);
    var cleared := dir - {temp};
    assert |cleared.Keys| <= |dir.Keys| by {
      assert cleared.Keys == dir.Keys - {temp};
      if temp in dir {
        assert dir.Keys == cleared.Keys + {temp};
      } else {
        assert cleared.Keys == dir.Keys;
      }
    }
  }

  lemma ReplaceDirectoryKeepsValid(s: State, id: SessionId, dir: Directory)
    requires Valid(s) && id in s.sessionDirs
    requires forall n :: n in dir ==> IsSegment(n)
    ensures Valid(s.(uploads := s.uploads[id := dir]))
  {
  }

  lemma {:induction false} UploadKeepsValid(s: State, header: Option<string>, filename: string, body: Bytes, fault: IoFault)
    requires Valid(s)
    ensures Valid(Upload(s, header, filename, body, fault).0)
  {
    if HeaderSession(header).Some? && QuotaOk(s, header.value) && !fault.MkdirFails? {
      MakeUploadDirKeepsValid(s, header.value);
      StoreKeepsValid(MakeUploadDir(s, header.value), header.value, filename, body, fault);
    }
  }

  lemma {:induction false} StoreKeepsValid(s1: State, id: SessionId, filename: string, body: Bytes, fault: IoFault)
    requires Valid(s1) && id in s1.uploads
    ensures Valid(StoreUpload(s1, id, filename, body, fault).0)
  {
    if ExtensionAllowed(filename) && TempInUploads(filename) {
      var name := LastComponent(filename);
      TempInUploadsNames(filename);
      var dir := s1.uploads[id];
      var d := Receive(id, dir, filename, name, body, fault).0;
      assert StoreUpload(s1, id, filename, body, fault).0 == s1.(uploads := s1.uploads[id := d]);
      ReceiveKeys(id, dir, filename, name, body, fault);
      assert forall n :: n in d ==> IsSegment(n);
      ReplaceDirectoryKeepsValid(s1, id, d);
    }
  }

  lemma ReceiveKeys(id: SessionId, dir: Directory, filename: string, name: string, body: Bytes, fault: IoFault)
    ensures forall n :: n in Receive(id, dir, filename, name, body, fault).0 ==> n in dir || n == name
  {
  }

  lemma MakeUploadDirKeepsValid(s: State, id: SessionId)
    requires Valid(s)
    ensures Valid(MakeUploadDir(s, id))
  {
    var s1 := MakeUploadDir(s, id);
    assert s1.registry == s.registry && s1.nextHandle == s.nextHandle;
    assert forall k, n :: k in s1.uploads && n in s1.uploads[k] ==> k in s.uploads && n in s.uploads[k];
  }

  /** Every session holds at most the maximum number of files. */
  ghost predicate WithinQuota(s: State) {
    forall id :: id in s.uploads ==> |s.uploads[id]| <= MAX_UPLOADS_PER_SESSION
  }

  /** The per-session limit is kept by uploads: a successful upload replaces a file or
      adds one to a session that had fewer than the maximum. */
  lemma {:induction false} UploadKeepsWithinQuota(s: State, header: Option<string>, filename: string, body: Bytes, fault: IoFault)
    requires WithinQuota(s)
    ensures WithinQuota(Upload(s, header, filename, body, fault).0)
  {
    if HeaderSession(header).Some? && QuotaOk(s, header.value) && !fault.MkdirFails? {
      var id := header.value;
      var s1 := MakeUploadDir(s, id);
      assert |s1.uploads[id]| < MAX_UPLOADS_PER_SESSION;
      ReplaceKeepsQuota(s, id, s1.uploads[id]);
      assert s1.uploads == s.uploads[id := s1.uploads[id]];
      if ExtensionAllowed(filename) && TempInUploads(filename) {
        ReceiveCount(id, s1.uploads[id], filename, LastComponent(filename), body, fault);
        ReplaceKeepsQuota(s1, id, Receive(id, s1.uploads[id], filename, LastComponent(filename), body, fault).0);
      }
    }
  }

  lemma ReplaceKeepsQuota(s: State, id: SessionId, dir: Directory)
    requires WithinQuota(s) && |dir| <= MAX_UPLOADS_PER_SESSION
    ensures WithinQuota(s.(uploads := s.uploads[id := dir]))
  {
  }

  // ---------------------------------------------------------------------------
  // delete_file (app.py:473-501)

  /** A path as its sequence of components; joining a one-component name appends it
      (`PurePath` drops an empty or `.` component). */
  function JoinPath(base: seq<string>, name: string): seq<string> {
    if name == [] || name == "." then base else base + [name]
  }

  /** `PurePath.relative_to`: lexical, the rest of `path` after the prefix `base`. */
  function RelativeTo(path: seq<string>, base: seq<string>): (r: Option<seq<string>>)
    ensures r.Some? <==> |base| <= |path| && path[..|base|] == base
    ensures r.Some? ==> base + r.value == path
  {
    if |base| <= |path| && path[..|base|] == base then Some(path[|base|..]) else None
  }

  function UploadDirPath(id: SessionId): seq<string> {
    ["static", id, "uploads"]
  }

  /** `DELETE /files/{filename}`. The route only matches a `filename` without '/'. */
  function DeleteFile(s: State, header: Option<string>, filename: string): (State, Result<string, HttpError>)
    requires '/' !in filename
  {
    var sid := HeaderSession(header);
    if sid.None? then (s, Err(HttpError(400, "Session ID required")))
    else
      var id := sid.value;
      if id !in s.uploads || filename !in s.uploads[id] then (s, Err(HttpError(404, "File not found")))
      else if RelativeTo(JoinPath(UploadDirPath(id), filename), UploadDirPath(id)).None? then
        (s, Err(HttpError(403, "Access denied")))
      else (s.(uploads := s.uploads[id := s.uploads[id] - {filename}]), Ok("File deleted successfully"))
  }

  /** The containment check cannot fail: a one-component name joined to the upload
      directory always lies inside it, so `delete_file` never answers 403. */
  lemma DeleteFileNeverDenies(s: State, header: Option<string>, filename: string)
    requires '/' !in filename
    ensures DeleteFile(s, header, filename).1.Err? ==> DeleteFile(s, header, filename).1.error.Status() != 403
  {
    if HeaderSession(header).Some? {
      var base := UploadDirPath(header.value);
      assert JoinPath(base, filename)[..|base|] == base;
    }
  }

  /** Deleting removes exactly the named file of this session and answers 404 when there
      is no such file; nothing else changes. */
  lemma DeleteFileRemovesOne(s: State, header: Option<string>, filename: string)
    requires '/' !in filename && HeaderSession(header).Some?
    ensures var (t, r) := DeleteFile(s, header, filename);
      var id := header.value;
      && (r.Ok? <==> id in s.uploads && filename in s.uploads[id])
      && (r.Err? ==> t == s && r.error == HttpError(404, "File not found"))
      && (r.Ok? ==> t.uploads == s.uploads[id := s.uploads[id] - {filename}] && FileCount(t, id) == FileCount(s, id) - 1)
      && t.registry == s.registry && t.store == s.store && t.sessionDirs == s.sessionDirs
  {
    var id := header.value;
    var base := UploadDirPath(id);
    assert JoinPath(base, filename)[..|base|] == base;
    if id in s.uploads && filename in s.uploads[id] {
      var d := s.uploads[id];
      assert d.Keys == (d - {filename}).Keys + {filename};
    }
  }

  // ---------------------------------------------------------------------------
  // list_files (app.py:503-526) and delete_all_files (app.py:528-549)

  datatype FileInfo = FileInfo(name: string, size: nat, path: string)

  /** The 400 the file endpoints raise when the session header is missing. */
  const MISSING_SESSION: HttpError := HttpError(400, "Session ID required")

  /** What a catch-all `except Exception as e: raise HTTPException(500, str(e))` turns an
      error into: an HTTPException's text is "<status>: <detail>". */
  function CaughtAsInternal(e: HttpError): (r: HttpError)
    ensures r.Status() == 500
  {
    match e
    case HttpError(status, detail) => HttpError(500, Text.IntToDecimal(status) + ": " + detail)
    case OsError(_) => e
  }

  /** The session check of `list_files` and `delete_all_files` as written: the 400 is
      raised inside the `try` whose catch-all re-raises it as a 500. */
  function FilesGuardAsWritten(header: Option<string>): Result<SessionId, HttpError> {
    var sid := HeaderSession(header);
    if sid.None? then Err(CaughtAsInternal(MISSING_SESSION)) else Ok(sid.value)
  }

  /** The session check as intended (and as `upload_file` and `delete_file` behave). */
  function FilesGuard(header: Option<string>): (r: Result<SessionId, HttpError>)
    ensures r.Err? <==> HeaderSession(header).None?
    ensures r.Err? ==> r.error == MISSING_SESSION
    ensures r.Ok? ==> r.value == header.value
  {
    var sid := HeaderSession(header);
    if sid.None? then Err(MISSING_SESSION) else Ok(sid.value)
  }

  /** A missing header gets a 500 reading "400: Session ID required" from the code as
      written, where a 400 was meant; with a header the two checks agree. */
  lemma {:induction false} FilesGuardAsWrittenAnswers500(header: Option<string>)
    ensures HeaderSession(header).None? ==>
      FilesGuardAsWritten(header) == Err(HttpError(500, "400: " + MISSING_SESSION.detail))
      && FilesGuard(header) == Err(MISSING_SESSION)
    ensures HeaderSession(header).Some? ==> FilesGuardAsWritten(header) == FilesGuard(header)
  {
    if HeaderSession(header).None? {
      StatusText400();
      assert "400" + ": " == "400: ";
    }
  }

  lemma StatusText400()
    ensures Text.IntToDecimal(400) == "400"
  {
    assert Text.DigitChar(4) == '4' && Text.DigitChar(0) == '0';
    assert Text.NatToDecimal(4) == "4";
    assert Text.NatToDecimal(40) == Text.NatToDecimal(4) + "0";
    assert Text.NatToDecimal(400) == Text.NatToDecimal(40) + "0";
  }

  /** A listing of a directory: one entry per file, with its name, its size in bytes and
      its path relative to the directory, in any order. */
  ghost predicate IsListing(dir: Directory, r: seq<FileInfo>) {
    && |r| == |dir|
    && (forall i :: 0 <= i < |r| ==> r[i].name in dir && r[i].size == |dir[r[i].name]| && r[i].path == r[i].name)
    && (forall i, j :: 0 <= i < j < |r| ==> r[i].name != r[j].name)
    && (forall n :: n in dir ==> exists i :: 0 <= i < |r| && r[i].name == n)
  }

  /** `DELETE /files`: every file of the session and its upload directory are removed; the
      session directory stays. A missing directory is not an error. */
  function DeleteAllFiles(s: State, header: Option<string>): (State, Result<string, HttpError>)
  {
    var sid := FilesGuard(header);
    if sid.Err? then (s, Err(sid.error))
    else (s.(uploads := s.uploads - {sid.value}), Ok("All files deleted successfully"))
  }

  /** `DELETE /files` with the session check as written. */
  function DeleteAllFilesAsWritten(s: State, header: Option<string>): (State, Result<string, HttpError>)
  {
    var sid := FilesGuardAsWritten(header);
    if sid.Err? then (s, Err(sid.error)) else DeleteAllFiles(s, header)
  }

  /** After deleting all files the session holds none and may upload the maximum again;
      no other session is affected and the invariant is kept. */
  lemma DeleteAllFilesEmpties(s: State, header: Option<string>, other: SessionId)
    requires Valid(s) && HeaderSession(header).Some?
    ensures var t := DeleteAllFiles(s, header).0;
      && FileCount(t, header.value) == 0
      && QuotaOk(t, header.value)
      && Valid(t)
      && (other != header.value ==> Project(t, other) == Project(s, other))
  {
  }
}
