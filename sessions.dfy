/** The server's session bookkeeping (app.py) as values: the registry of per-session
    interpreter handles, the key/value store holding `last_active:<id>` and
    `messages:<id>`, and the part of the file system under `static/`. The functions
    here are the specifications the `Server.App` methods are proved against, and the
    lemmas state what `get_or_create_interpreter`, `clear_session` and
    `cleanup_idle_sessions` promise. */
module Sessions {
  import opened Wrappers

  type SessionId = string
  type Byte = b: int | 0 <= b < 256
  type Bytes = seq<Byte>

  /** An interpreter instance; the serial number stands for object identity. */
  datatype Handle = Handle(serial: nat)

  /** A store value: a timestamp written as `str(time())`, or any other text (a
      serialized transcript, or something `float` does not accept). */
  datatype StoreValue = Stamp(seconds: real) | Raw(text: string)

  /** The regular files of one upload directory `static/<id>/uploads`, by name. */
  type Directory = map<string, Bytes>

  const IDLE_TIMEOUT: real := 3600.0
  const LAST_ACTIVE_PREFIX: string := "last_active:"
  const MESSAGES_PREFIX: string := "messages:"

  function StampKey(id: SessionId): string { LAST_ACTIVE_PREFIX + id }
  function TranscriptKey(id: SessionId): string { MESSAGES_PREFIX + id }

  /** The two key families never collide, and each determines its session id. */
  lemma KeysDistinct(a: SessionId, b: SessionId)
    ensures StampKey(a) != TranscriptKey(b)
    ensures StampKey(a) == StampKey(b) ==> a == b
    ensures TranscriptKey(a) == TranscriptKey(b) ==> a == b
  {
    assert StampKey(a)[0] == 'l' && TranscriptKey(b)[0] == 'm';
    if StampKey(a) == StampKey(b) {
      assert a == StampKey(a)[|LAST_ACTIVE_PREFIX|..] == StampKey(b)[|LAST_ACTIVE_PREFIX|..] == b;
    }
    if TranscriptKey(a) == TranscriptKey(b) {
      assert a == TranscriptKey(a)[|MESSAGES_PREFIX|..] == TranscriptKey(b)[|MESSAGES_PREFIX|..] == b;
    }
  }

  datatype State = State(
    registry: map<SessionId, Handle>,   // interpreter_instances
    store: map<string, StoreValue>,     // the Redis database
    sessionDirs: set<SessionId>,        // ids whose static/<id> exists
    uploads: map<SessionId, Directory>, // the ids whose static/<id>/uploads exists
    nextHandle: nat)                    // serial of the next interpreter to be built

  /** A file name that is a single path component. */
  predicate IsSegment(name: string) {
    name != "" && name != "." && name != ".." && '/' !in name
  }

  /** The invariant every operation keeps: handles are distinct and were all built by
      this process; an upload directory lies in its session directory; every file lies in
      an upload directory and has a one-component name. */
  ghost predicate Valid(s: State) {
    && (forall id :: id in s.registry ==> s.registry[id].serial < s.nextHandle)
    && (forall a, b :: a in s.registry && b in s.registry && a != b ==> s.registry[a] != s.registry[b])
    && s.uploads.Keys <= s.sessionDirs
    && (forall id, name :: id in s.uploads && name in s.uploads[id] ==> IsSegment(name))
  }

  /** Everything the server keeps about one session. */
  datatype SessionView = SessionView(
    handle: Option<Handle>,
    stamp: Option<StoreValue>,
    transcript: Option<StoreValue>,
    hasDir: bool,
    uploads: Option<Directory>)

  function Project(s: State, id: SessionId): SessionView {
    SessionView(Get(s.registry, id), Get(s.store, StampKey(id)), Get(s.store, TranscriptKey(id)),
                id in s.sessionDirs, Get(s.uploads, id))
  }

  /** A view of a session that holds nothing. */
  predicate Gone(v: SessionView) {
    v.handle.None? && v.stamp.None? && v.transcript.None? && !v.hasDir && v.uploads.None?
  }

  // ---------------------------------------------------------------------------
  // get_or_create_interpreter (app.py:176-212)

  /** Where building a new interpreter can raise: while configuring it (before it is
      registered) or while writing its timestamp (after). */
  datatype CreateFault = NoCreateFault | ConfigurationFails | StampWriteFails

  datatype InterpreterError = InterpreterError

  function GetOrCreate(s: State, id: SessionId, now: real, fault: CreateFault)
    : (State, Result<Handle, InterpreterError>)
  {
    if id in s.registry then (s, Ok(s.registry[id]))
    else if fault == ConfigurationFails then (s, Err(InterpreterError))
    else
      var h := Handle(s.nextHandle);
      var registered := s.(registry := s.registry[id := h], nextHandle := s.nextHandle + 1);
      if fault == StampWriteFails then (registered, Err(InterpreterError))
      else (registered.(store := registered.store[StampKey(id) := Stamp(now)]), Ok(h))
  }

  /** An id already registered gets its own handle back and nothing changes. */
  lemma GetOrCreateExisting(s: State, id: SessionId, now: real, fault: CreateFault)
    requires id in s.registry
    ensures GetOrCreate(s, id, now, fault) == (s, Ok(s.registry[id]))
  {
  }

  /** A new id gets a handle no other session holds, the registry gains exactly that
      entry, and `last_active:<id>` is set to the current time; nothing else changes. */
  lemma {:induction false} GetOrCreateNew(s: State, id: SessionId, now: real)
    requires Valid(s) && id !in s.registry
    ensures var (t, r) := GetOrCreate(s, id, now, NoCreateFault);
      && r.Ok?
      && (forall other :: other in s.registry ==> s.registry[other] != r.value)
      && t.registry == s.registry[id := r.value]
      && t.store == s.store[StampKey(id) := Stamp(now)]
      && t.sessionDirs == s.sessionDirs && t.uploads == s.uploads
      && Valid(t)
  {
    var (t, r) := GetOrCreate(s, id, now, NoCreateFault);
    forall other | other in s.registry ensures s.registry[other] != r.value {
      assert s.registry[other].serial < s.nextHandle == r.value.serial;
    }
  }

  /** A configuration failure raises and leaves the state exactly as it was; a failed
      timestamp write raises after the handle has been registered. */
  lemma GetOrCreateFailures(s: State, id: SessionId, now: real)
    requires id !in s.registry
    ensures GetOrCreate(s, id, now, ConfigurationFails) == (s, Err(InterpreterError))
    ensures var (t, r) := GetOrCreate(s, id, now, StampWriteFails);
      r.Err? && id in t.registry && t.store == s.store
  {
  }

  lemma {:induction false} GetOrCreateKeepsValid(s: State, id: SessionId, now: real, fault: CreateFault)
    requires Valid(s)
    ensures Valid(GetOrCreate(s, id, now, fault).0)
  {
    if id !in s.registry && fault != ConfigurationFails {
      var t := GetOrCreate(s, id, now, fault).0;
      forall a, b | a in t.registry && b in t.registry && a != b
        ensures t.registry[a] != t.registry[b]
      {
        if a != id && b != id {
        } else if a == id {
          assert s.registry[b].serial < s.nextHandle;
        } else {
          assert s.registry[a].serial < s.nextHandle;
        }
      }
    }
  }

  // ---------------------------------------------------------------------------
  // clear_session (app.py:231-255)

  /** The four steps, each of which may raise; a raised step ends the operation. */
  datatype ClearStep = ResetFails | StampDeleteFails | TranscriptDeleteFails | TreeRemovalFails

  /** `shutil.rmtree(static/<id>)`: the session directory, its upload directory and all
      its files disappear. */
  function RemoveTree(s: State, id: SessionId): State {
    s.(sessionDirs := s.sessionDirs - {id},
       uploads := s.uploads - {id})
  }

  /** `clear_session(id)` with the step that raises, if any; the result's second part is
      the step that was re-raised. Steps: reset and unregister the interpreter (only when
      one is registered), delete `last_active:<id>`, delete `messages:<id>`, remove
      `static/<id>` (only when it exists). */
  function ClearSession(s: State, id: SessionId, fault: Option<ClearStep>): (State, Option<ClearStep>) {
    if id in s.registry && fault == Some(ResetFails) then (s, fault)
    else
      var unregistered := s.(registry := s.registry - {id});
      if fault == Some(StampDeleteFails) then (unregistered, fault)
      else
        var noStamp := unregistered.(store := unregistered.store - {StampKey(id)});
        if fault == Some(TranscriptDeleteFails) then (noStamp, fault)
        else
          var noTranscript := noStamp.(store := noStamp.store - {TranscriptKey(id)});
          if id in s.sessionDirs && fault == Some(TreeRemovalFails) then (noTranscript, fault)
          else (RemoveTree(noTranscript, id), None)
  }

  /** The same four steps on the view of the cleared session. */
  function ClearView(v: SessionView, fault: Option<ClearStep>): SessionView {
    if v.handle.Some? && fault == Some(ResetFails) then v
    else
      var unregistered := v.(handle := None);
      if fault == Some(StampDeleteFails) then unregistered
      else
        var noStamp := unregistered.(stamp := None);
        if fault == Some(TranscriptDeleteFails) then noStamp
        else
          var noTranscript := noStamp.(transcript := None);
          if v.hasDir && fault == Some(TreeRemovalFails) then noTranscript
          else noTranscript.(hasDir := false, uploads := None)
  }

  // Each step of `clear_session` changes the cleared session's view as ClearView says
  // and leaves every other session's view alone.

  lemma UnregisterView(s: State, id: SessionId, other: SessionId)
    ensures Project(s.(registry := s.registry - {id}), id) == Project(s, id).(handle := None)
    ensures other != id ==> Project(s.(registry := s.registry - {id}), other) == Project(s, other)
  {
  }

  lemma DeleteStampView(s: State, id: SessionId, other: SessionId)
    ensures Project(s.(store := s.store - {StampKey(id)}), id) == Project(s, id).(stamp := None)
    ensures other != id ==> Project(s.(store := s.store - {StampKey(id)}), other) == Project(s, other)
  {
    KeysDistinct(id, id);
    KeysDistinct(other, id);
    KeysDistinct(id, other);
  }

  lemma DeleteTranscriptView(s: State, id: SessionId, other: SessionId)
    ensures Project(s.(store := s.store - {TranscriptKey(id)}), id) == Project(s, id).(transcript := None)
    ensures other != id ==> Project(s.(store := s.store - {TranscriptKey(id)}), other) == Project(s, other)
  {
    KeysDistinct(id, id);
    KeysDistinct(other, id);
    KeysDistinct(id, other);
  }

  lemma RemoveTreeView(s: State, id: SessionId, other: SessionId)
    ensures Project(RemoveTree(s, id), id) == Project(s, id).(hasDir := false, uploads := None)
    ensures other != id ==> Project(RemoveTree(s, id), other) == Project(s, other)
  {
  }

  /** The cleared session ends as ClearView says, and no other session changes. */
  lemma {:induction false} ClearSessionView(s: State, id: SessionId, fault: Option<ClearStep>, other: SessionId)
    ensures Project(ClearSession(s, id, fault).0, id) == ClearView(Project(s, id), fault)
    ensures other != id ==> Project(ClearSession(s, id, fault).0, other) == Project(s, other)
  {
    var unregistered := s.(registry := s.registry - {id});
    var noStamp := unregistered.(store := unregistered.store - {StampKey(id)});
    var noTranscript := noStamp.(store := noStamp.store - {TranscriptKey(id)});
    UnregisterView(s, id, other);
    DeleteStampView(unregistered, id, other);
    DeleteTranscriptView(noStamp, id, other);
    RemoveTreeView(noTranscript, id, other);
  }

  /** After a clear that raises nothing, every trace of the session is gone and nothing
      else changed. */
  lemma {:induction false} ClearSessionRemovesAll(s: State, id: SessionId)
    ensures var (t, raised) := ClearSession(s, id, None);
      && raised == None
      && Gone(Project(t, id))
      && t.registry == s.registry - {id}
      && t.store == s.store - {StampKey(id), TranscriptKey(id)}
      && t.sessionDirs == s.sessionDirs - {id}
      && t.uploads == s.uploads - {id}
      && t.nextHandle == s.nextHandle
  {
    ClearSessionView(s, id, None, id);
  }

  /** Clearing twice is clearing once. */
  lemma {:induction false} ClearSessionIdempotent(s: State, id: SessionId)
    ensures var t := ClearSession(s, id, None).0;
      ClearSession(t, id, None) == (t, None)
  {
    var t := ClearSession(s, id, None).0;
    ClearSessionRemovesAll(s, id);
    var u := ClearSession(t, id, None).0;
    assert u.registry == t.registry;
    assert u.store == t.store;
    assert u.sessionDirs == t.sessionDirs;
    assert u.uploads == t.uploads;
  }

  /** A failing step is re-raised and the steps after it do not run. */
  lemma ClearSessionStopsAtFailure(s: State, id: SessionId, step: ClearStep)
    ensures var (t, raised) := ClearSession(s, id, Some(step));
      && (step == ResetFails && id in s.registry ==> t == s && raised == Some(step))
      && (step == StampDeleteFails ==>
            raised == Some(step) && t.registry == s.registry - {id} && t.store == s.store
            && t.uploads == s.uploads && t.sessionDirs == s.sessionDirs)
      && (step == TranscriptDeleteFails ==>
            raised == Some(step) && t.store == s.store - {StampKey(id)}
            && t.uploads == s.uploads && t.sessionDirs == s.sessionDirs)
      && (step == TreeRemovalFails && id in s.sessionDirs ==>
            raised == Some(step) && t.store == s.store - {StampKey(id), TranscriptKey(id)}
            && t.uploads == s.uploads && t.sessionDirs == s.sessionDirs)
  {
  }

  lemma {:induction false} ClearSessionKeepsValid(s: State, id: SessionId, fault: Option<ClearStep>)
    requires Valid(s)
    ensures Valid(ClearSession(s, id, fault).0)
  {
    var t := ClearSession(s, id, fault).0;
    assert t.registry == s.registry || t.registry == s.registry - {id};
    assert (t.sessionDirs == s.sessionDirs && t.uploads == s.uploads)
      || (t.sessionDirs == s.sessionDirs - {id} && t.uploads == s.uploads - {id});
    ShrunkKeepsValid(s, t);
  }

  /** Dropping entries from the registry or the upload directories keeps the invariant,
      as long as every upload directory keeps its session directory. */
  lemma ShrunkKeepsValid(s: State, t: State)
    requires Valid(s)
    requires forall k :: k in t.registry ==> k in s.registry && t.registry[k] == s.registry[k]
    requires forall k :: k in t.uploads ==> k in s.uploads && t.uploads[k] == s.uploads[k]
    requires t.uploads.Keys <= t.sessionDirs && t.nextHandle == s.nextHandle
    ensures Valid(t)
  {
  }

  // ---------------------------------------------------------------------------
  // cleanup_idle_sessions (app.py:257-279)

  /** A session is idle when its stored timestamp is more than IDLE_TIMEOUT seconds old.
      A missing key, an empty value and a value `float` rejects are never idle. */
  predicate Idle(s: State, id: SessionId, now: real) {
    && StampKey(id) in s.store
    && s.store[StampKey(id)].Stamp?
    && now - s.store[StampKey(id)].seconds > IDLE_TIMEOUT
  }

  /** One iteration of the sweep: clear the session when it is idle; an exception from
      `clear_session` (or from parsing its timestamp) is caught and the sweep goes on with
      whatever the failed step left behind. */
  function SweepOne(s: State, id: SessionId, now: real, faults: map<SessionId, ClearStep>): State {
    if Idle(s, id, now) then ClearSession(s, id, Get(faults, id)).0 else s
  }

  /** The sweep over a snapshot of the registry's keys, in that order. */
  function Sweep(s: State, snapshot: seq<SessionId>, now: real, faults: map<SessionId, ClearStep>): State
    decreases |snapshot|
  {
    if snapshot == [] then s else Sweep(SweepOne(s, snapshot[0], now, faults), snapshot[1..], now, faults)
  }

  predicate Distinct<T(==)>(xs: seq<T>) {
    forall i, j :: 0 <= i < j < |xs| ==> xs[i] != xs[j]
  }

  /** The outcome of the sweep for each session, whatever the order of the snapshot:
      a session in the snapshot that was idle at the start ends as `clear_session` leaves
      it, even when clearing other sessions raised; every other session is untouched. */
  lemma {:induction false} SweepPerSession(s: State, snapshot: seq<SessionId>, now: real,
                                           faults: map<SessionId, ClearStep>, id: SessionId)
    requires Distinct(snapshot)
    ensures Project(Sweep(s, snapshot, now, faults), id) ==
      if id in snapshot && Idle(s, id, now) then ClearView(Project(s, id), Get(faults, id))
      else Project(s, id)
    decreases |snapshot|
  {
    if snapshot != [] {
      var first := snapshot[0];
      var t := SweepOne(s, first, now, faults);
      assert Distinct(snapshot[1..]);
      SweepPerSession(t, snapshot[1..], now, faults, id);
      if Idle(s, first, now) {
        ClearSessionView(s, first, Get(faults, first), id);
      }
      if id == first {
        assert id !in snapshot[1..];
      } else {
        assert id in snapshot <==> id in snapshot[1..];
        assert Project(t, id) == Project(s, id);
        assert Get(t.store, StampKey(id)) == Get(s.store, StampKey(id));
        assert Idle(t, id, now) == Idle(s, id, now);
      }
    }
  }

  /** Corollary: the sweep never touches a session whose timestamp is recent, missing or
      unreadable, and removes every trace of an idle session whose clear raises nothing. */
  lemma SweepSparesActive(s: State, snapshot: seq<SessionId>, now: real,
                          faults: map<SessionId, ClearStep>, id: SessionId)
    requires Distinct(snapshot)
    ensures !Idle(s, id, now) ==> Project(Sweep(s, snapshot, now, faults), id) == Project(s, id)
    ensures id in snapshot && Idle(s, id, now) && id !in faults ==>
      Gone(Project(Sweep(s, snapshot, now, faults), id))
  {
    SweepPerSession(s, snapshot, now, faults, id);
  }

  lemma {:induction false} SweepKeepsValid(s: State, snapshot: seq<SessionId>, now: real, faults: map<SessionId, ClearStep>)
    requires Valid(s)
    ensures Valid(Sweep(s, snapshot, now, faults))
    decreases |snapshot|
  {
    if snapshot != [] {
      ClearSessionKeepsValid(s, snapshot[0], Get(faults, snapshot[0]));
      SweepKeepsValid(SweepOne(s, snapshot[0], now, faults), snapshot[1..], now, faults);
    }
  }
}
