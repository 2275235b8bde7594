/** The browser client's message list (frontend/assistant.js): `processChunk`, which
    builds messages from the chunks of the stream, the loop that feeds it, and the
    loading of the stored history. The page's global `messages` array and
    `currentMessageId` are the fields of `ChatView`. Rendering is not modelled. */
module ClientView {
  import opened Wrappers
  import opened JsonModel
  import Text
  import Chat
  import ClientStream

  /** A message of the client's list; an empty `id` stands for a missing one. */
  datatype Message = Message(
    id: string,
    role: Option<string>,
    kind: Option<string>,
    content: string,
    format: Option<string>,
    recipient: Option<string>,
    complete: bool)

  /** A parsed chunk, as `processChunk` reads it: the flags by JavaScript truthiness, the
      text fields when they are strings, and the text of the error when it is truthy. */
  datatype Chunk = Chunk(
    start: bool,
    end: bool,
    role: Option<string>,
    kind: Option<string>,
    content: Option<string>,
    format: Option<string>,
    recipient: Option<string>,
    error: Option<string>)

  datatype View = View(messages: seq<Message>, current: Option<string>)

  const ACTIVE_LINE: string := "active_line"
  const SYSTEM: string := "system"
  const CONSOLE: string := "console"

  /** What a message whose content is an object shows when turned into text. */
  const OBJECT_TEXT: string := "[object Object]"

  // ---------------------------------------------------------------------------
  // Reading a chunk

  /** JavaScript truthiness of a parsed JSON value (empty arrays and objects are truthy). */
  predicate JsTruthy(j: Json) {
    match j
    case JNull => false
    case JBool(b) => b
    case JNum(n) => n != 0.0
    case JStr(s) => s != []
    case JArr(_) => true
    case JObj(_) => true
  }

  function StringField(fields: seq<(string, Json)>, key: string): Option<string> {
    match Chat.Field(fields, key, JNull)
    case JStr(s) => Some(s)
    case _ => None
  }

  /** The text a value shows as on the page: a string itself, a boolean, `null`, an
      integral number below 10^21 in decimal, and an object as `[object Object]`. Other
      numbers and arrays are given the object's text too. */
  function TextOf(j: Json): string {
    match j
    case JStr(s) => s
    case JBool(b) => if b then "true" else "false"
    case JNull => "null"
    case JNum(n) =>
      if n == n.Floor as real && -1000000000000000000000 < n.Floor < 1000000000000000000000
      then Text.IntToDecimal(n.Floor) else OBJECT_TEXT
    case _ => OBJECT_TEXT
  }

  /** `chunk.error.message || chunk.error`, as text. */
  function ErrorText(e: Json): string {
    if e.JObj? && JsTruthy(Chat.Field(e.fields, "message", JNull))
    then TextOf(Chat.Field(e.fields, "message", JNull))
    else TextOf(e)
  }

  /** The chunk `JSON.parse` hands to `processChunk`; `null` has no properties, so reading
      `chunk.start` throws, and that chunk is skipped by the reader's `catch`. */
  function ChunkOf(j: Json): Option<Chunk> {
    match j
    case JNull => None
    case JObj(fields) =>
      var e := Chat.Field(fields, "error", JNull);
      Some(Chunk(
        JsTruthy(Chat.Field(fields, "start", JNull)),
        JsTruthy(Chat.Field(fields, "end", JNull)),
        StringField(fields, "role"),
        StringField(fields, "type"),
        StringField(fields, "content"),
        StringField(fields, "format"),
        StringField(fields, "recipient"),
        if JsTruthy(e) then Some(ErrorText(e)) else None))
    case _ => Some(Chunk(false, false, None, None, None, None, None, None))
  }

  // ---------------------------------------------------------------------------
  // processChunk (frontend/assistant.js:278-332)

  /** `chunk.content || ''` */
  function ContentOf(chunk: Chunk): string {
    if chunk.content.Some? then chunk.content.value else ""
  }

  /** `x || undefined` on an optional string. */
  function OrUndefined(x: Option<string>): (r: Option<string>)
    ensures r.Some? <==> x.Some? && x.value != []
    ensures r.Some? ==> r == x
  {
    if x.Some? && x.value != [] then x else None
  }

  /** The message a start chunk creates (`isComplete: false`). */
  function NewMessage(chunk: Chunk, id: string): Message {
    Message(id, chunk.role, chunk.kind, ContentOf(chunk), OrUndefined(chunk.format),
            OrUndefined(chunk.recipient), false)
  }

  /** The message `appendSystemMessage` pushes. */
  function SystemMessage(id: string, text: string): Message {
    Message(id, Some(SYSTEM), Some(SYSTEM), text, None, None, false)
  }

  /** `messages.find(msg => msg.id === currentMessageId)`: the position of the first
      message with the current id, if there is one. */
  function FindCurrent(messages: seq<Message>, current: Option<string>): (r: Option<nat>)
    ensures r.Some? ==> r.value < |messages| && current.Some? && messages[r.value].id == current.value
    ensures r.Some? ==> forall j :: 0 <= j < r.value ==> messages[j].id != current.value
    ensures r.None? ==> current.None? || forall j :: 0 <= j < |messages| ==> messages[j].id != current.value
    decreases |messages|
  {
    if current.None? || messages == [] then None
    else if messages[0].id == current.value then Some(0)
    else
      var r := FindCurrent(messages[1..], current);
      if r.None? then None else Some(r.value + 1)
  }

  /** Applying a chunk to the current message: completion, format and content. */
  function Apply(m: Message, chunk: Chunk): Message {
    m.(complete := if chunk.end then true else m.complete,
       format := OrUndefined(chunk.format),
       content := if chunk.format == Some(ACTIVE_LINE) then ContentOf(chunk) else m.content + ContentOf(chunk))
  }

  /** Whether the chunk takes the error path: not a start, and a truthy error. */
  predicate IsError(chunk: Chunk) {
    !chunk.start && chunk.error.Some?
  }

  /** The effect of one `processChunk(chunk)`, with `newId` the id `generateId` returns. */
  function Step(v: View, chunk: Chunk, newId: string): View {
    if IsError(chunk) then View(v.messages + [SystemMessage(newId, chunk.error.value)], v.current)
    else
      var started := if chunk.start then View(v.messages + [NewMessage(chunk, newId)], Some(newId)) else v;
      var k := FindCurrent(started.messages, started.current);
      if k.None? then started
      else started.(messages := started.messages[k.value := Apply(started.messages[k.value], chunk)])
  }

  predicate IdUnused(messages: seq<Message>, id: string) {
    forall j :: 0 <= j < |messages| ==> messages[j].id != id
  }

  /** A start chunk with an unused id adds exactly one message and makes it current; the
      message is then updated by the same chunk, so its content is the chunk's content
      twice unless the format is `active_line`, and it is complete exactly when the chunk
      also ends it. The messages before it are untouched. */
  lemma StartChunk(v: View, chunk: Chunk, newId: string)
    requires chunk.start && IdUnused(v.messages, newId)
    ensures var w := Step(v, chunk, newId);
      && w.current == Some(newId)
      && |w.messages| == |v.messages| + 1
      && w.messages[..|v.messages|] == v.messages
      && var m := w.messages[|v.messages|];
      && m.id == newId && m.role == chunk.role && m.kind == chunk.kind
      && m.content == (if chunk.format == Some(ACTIVE_LINE) then ContentOf(chunk) else ContentOf(chunk) + ContentOf(chunk))
      && m.format == OrUndefined(chunk.format)
      && m.complete == chunk.end
  {
    var started := v.messages + [NewMessage(chunk, newId)];
    assert forall j :: 0 <= j < |v.messages| ==> started[j] == v.messages[j];
    assert started[|v.messages|].id == newId;
    assert FindCurrent(started, Some(newId)) == Some(|v.messages|);
  }

  /** A chunk that is not a start and carries an error appends one system message with
      the error's text and changes nothing else. */
  lemma ErrorChunk(v: View, chunk: Chunk, newId: string)
    requires !chunk.start && chunk.error.Some?
    ensures Step(v, chunk, newId) ==
      View(v.messages + [SystemMessage(newId, chunk.error.value)], v.current)
  {
  }

  /** Any other chunk changes only the first message with the current id, if there is
      one: `end` completes it, the format is overwritten, and the content is replaced for
      `active_line` and extended otherwise. Nothing else changes. */
  lemma UpdateChunk(v: View, chunk: Chunk, newId: string)
    requires !chunk.start && chunk.error.None?
    ensures var w := Step(v, chunk, newId);
      && w.current == v.current
      && |w.messages| == |v.messages|
      && var k := FindCurrent(v.messages, v.current);
      && (k.None? ==> w.messages == v.messages)
      && (k.Some? ==>
            && (forall j :: 0 <= j < |v.messages| && j != k.value ==> w.messages[j] == v.messages[j])
            && var m, n := v.messages[k.value], w.messages[k.value];
            && n.id == m.id && n.role == m.role && n.kind == m.kind
            && n.complete == (chunk.end || m.complete)
            && n.format == OrUndefined(chunk.format)
            && n.content == (if chunk.format == Some(ACTIVE_LINE) then ContentOf(chunk) else m.content + ContentOf(chunk)))
  {
  }

  /** An error carried by a start chunk is ignored: the start path runs instead. */
  lemma StartIgnoresError(v: View, chunk: Chunk, newId: string)
    requires chunk.start && chunk.error.Some?
    ensures Step(v, chunk, newId) == Step(v, chunk.(error := None), newId)
  {
  }

  // ---------------------------------------------------------------------------
  // The reader loop (frontend/assistant.js:226-255)

  /** The chunk a dispatched line carries: a `data: ` line whose payload parses into a
      value `processChunk` can read; every other line carries none. */
  function LineChunk(c: Codec, line: string): Option<Chunk> {
    var p := ClientStream.Payload(line);
    if p.None? then None
    else
      var j := c.decode(p.value);
      if j.None? then None else ChunkOf(j.value)
  }

  /** One dispatched line: a line that carries a chunk has it processed with the next
      generated id; every other line is skipped. */
  function LineStep(c: Codec, v: View, calls: nat, line: string, ids: nat -> string): (View, nat) {
    var chunk := LineChunk(c, line);
    if chunk.None? then (v, calls) else (Step(v, chunk.value, ids(calls)), calls + 1)
  }

  /** The view after dispatching `lines` in order, and the number of `processChunk` calls,
      with every call's promise resolved. */
  function Run(c: Codec, v: View, lines: seq<string>, ids: nat -> string): (r: (View, nat))
    ensures r.1 <= |lines|
    decreases |lines|
  {
    if lines == [] then (v, 0)
    else
      var (w, calls) := Run(c, v, lines[..|lines| - 1], ids);
      LineStep(c, w, calls, lines[|lines| - 1], ids)
  }

  /** The number of lines that carry a chunk. */
  function ChunkCount(c: Codec, lines: seq<string>): nat
    decreases |lines|
  {
    if lines == [] then 0
    else ChunkCount(c, lines[..|lines| - 1]) + (if LineChunk(c, lines[|lines| - 1]).Some? then 1 else 0)
  }

  /** Every line that carries a chunk is processed, one call each, and a payload that does
      not parse does not stop the loop. */
  lemma {:induction false} RunProcessesEveryChunk(c: Codec, v: View, lines: seq<string>, ids: nat -> string)
    ensures Run(c, v, lines, ids).1 == ChunkCount(c, lines)
    decreases |lines|
  {
    if lines != [] {
      RunProcessesEveryChunk(c, v, lines[..|lines| - 1], ids);
    }
  }

  /** A line whose chunk takes the error path of `processChunk`. */
  predicate ErrorLine(c: Codec, line: string) {
    LineChunk(c, line).Some? && IsError(LineChunk(c, line).value)
  }

  /** The reader loop as written: on an error chunk `processChunk` returns without
      resolving its promise, so the `await` never completes and no later line is
      dispatched. The third component tells whether the loop is stuck. */
  function RunAsWritten(c: Codec, v: View, lines: seq<string>, ids: nat -> string): (View, nat, bool)
    decreases |lines|
  {
    if lines == [] then (v, 0, false)
    else
      var (w, calls, stuck) := RunAsWritten(c, v, lines[..|lines| - 1], ids);
      if stuck then (w, calls, true)
      else
        var line := lines[|lines| - 1];
        var (w2, calls2) := LineStep(c, w, calls, line, ids);
        (w2, calls2, ErrorLine(c, line))
  }

  /** Without error chunks the loop as written does what `Run` does and is never stuck. */
  lemma {:induction false} RunAsWrittenWithoutErrors(c: Codec, v: View, lines: seq<string>, ids: nat -> string)
    requires forall i :: 0 <= i < |lines| ==> !ErrorLine(c, lines[i])
    ensures RunAsWritten(c, v, lines, ids) == (Run(c, v, lines, ids).0, Run(c, v, lines, ids).1, false)
    decreases |lines|
  {
    if lines != [] {
      var init := lines[..|lines| - 1];
      assert forall i :: 0 <= i < |init| ==> init[i] == lines[i];
      RunAsWrittenWithoutErrors(c, v, init, ids);
    }
  }

  /** Once stuck, the loop as written dispatches nothing more, whatever follows. */
  lemma {:induction false} RunAsWrittenStaysStuck(c: Codec, v: View, a: seq<string>, b: seq<string>, ids: nat -> string)
    requires RunAsWritten(c, v, a, ids).2
    ensures RunAsWritten(c, v, a + b, ids) == RunAsWritten(c, v, a, ids)
    decreases |b|
  {
    if b == [] {
      assert a + b == a;
    } else {
      var init := b[..|b| - 1];
      assert (a + b)[..|a + b| - 1] == a + init;
      RunAsWrittenStaysStuck(c, v, a, init, ids);
    }
  }

  /** An error event followed by any other event: as written the loop is stuck after the
      error and never processes the second chunk, while the corrected loop processes both. */
  lemma ErrorChunkStopsReader(c: Codec, v: View, a: seq<string>, errorLine: string, next: string, ids: nat -> string)
    requires forall i :: 0 <= i < |a| ==> !ErrorLine(c, a[i])
    requires ErrorLine(c, errorLine) && LineChunk(c, next).Some?
    ensures RunAsWritten(c, v, a + [errorLine, next], ids).2
    ensures RunAsWritten(c, v, a + [errorLine, next], ids).1 == Run(c, v, a, ids).1 + 1
    ensures Run(c, v, a + [errorLine, next], ids).1 == Run(c, v, a, ids).1 + 2
  {
    RunAsWrittenWithoutErrors(c, v, a, ids);
    var a1 := a + [errorLine];
    assert a1[..|a1| - 1] == a && a1[|a1| - 1] == errorLine;
    var a2 := a + [errorLine, next];
    assert a2 == a1 + [next];
    assert a2[..|a2| - 1] == a1 && a2[|a2| - 1] == next;
  }

  /** Lines without a payload leave the view alone. */
  lemma {:induction false} RunSkipsNonData(c: Codec, v: View, lines: seq<string>, ids: nat -> string)
    requires forall i :: 0 <= i < |lines| ==> !Text.StartsWith(lines[i], ClientStream.DATA_PREFIX)
    ensures Run(c, v, lines, ids) == (v, 0)
    decreases |lines|
  {
    if lines != [] {
      RunSkipsNonData(c, v, lines[..|lines| - 1], ids);
    }
  }

  // ---------------------------------------------------------------------------
  // History load (frontend/assistant.js:649-672)

  function WithId(m: Message, newId: string): Message {
    if m.id == [] then m.(id := newId) else m
  }

  /** The stored messages the client keeps, in order: all but the console ones, each
      given the generated id of its position when it has none. */
  function Kept(history: seq<Message>, ids: seq<string>): (r: seq<Message>)
    requires |ids| == |history|
    ensures |r| <= |history|
    decreases |history|
  {
    if history == [] then []
    else
      (if history[0].kind == Some(CONSOLE) then [] else [WithId(history[0], ids[0])])
      + Kept(history[1..], ids[1..])
  }

  /** Keeping distributes over concatenation: the kept messages of two runs of stored
      messages are those of the first followed by those of the second, so the order is
      kept. */
  lemma {:induction false} KeptAppend(h1: seq<Message>, i1: seq<string>, h2: seq<Message>, i2: seq<string>)
    requires |i1| == |h1| && |i2| == |h2|
    ensures Kept(h1 + h2, i1 + i2) == Kept(h1, i1) + Kept(h2, i2)
    decreases |h1|
  {
    if h1 == [] {
      assert h1 + h2 == h2 && i1 + i2 == i2;
    } else {
      var head := if h1[0].kind == Some(CONSOLE) then [] else [WithId(h1[0], i1[0])];
      assert (h1 + h2)[0] == h1[0] && (i1 + i2)[0] == i1[0];
      assert (h1 + h2)[1..] == h1[1..] + h2 && (i1 + i2)[1..] == i1[1..] + i2;
      assert Kept(h1 + h2, i1 + i2) == head + Kept(h1[1..] + h2, i1[1..] + i2);
      KeptAppend(h1[1..], i1[1..], h2, i2);
      assert Kept(h1, i1) == head + Kept(h1[1..], i1[1..]);
    }
  }

  /** A single stored message is dropped exactly when it is a console message, and is
      otherwise kept with an id. */
  lemma KeptOne(m: Message, newId: string)
    ensures Kept([m], [newId]) == if m.kind == Some(CONSOLE) then [] else [WithId(m, newId)]
    ensures newId != [] ==> forall j :: 0 <= j < |Kept([m], [newId])| ==> Kept([m], [newId])[j].id != []
  {
    assert [m][1..] == [] && [newId][1..] == [];
  }

  /** Every non-console stored message is kept, and every kept message is a stored one
      that is not a console message. */
  lemma {:induction false} KeptMembers(history: seq<Message>, ids: seq<string>)
    requires |ids| == |history|
    ensures forall i :: 0 <= i < |history| && history[i].kind != Some(CONSOLE) ==>
      WithId(history[i], ids[i]) in Kept(history, ids)
    ensures forall m :: m in Kept(history, ids) ==>
      m.kind != Some(CONSOLE) && exists i :: 0 <= i < |history| && m == WithId(history[i], ids[i])
    decreases |history|
  {
    if history != [] {
      KeptMembers(history[1..], ids[1..]);
      var rest := Kept(history[1..], ids[1..]);
      forall m | m in Kept(history, ids)
        ensures m.kind != Some(CONSOLE) && exists i :: 0 <= i < |history| && m == WithId(history[i], ids[i])
      {
        if m !in rest {
          assert m == WithId(history[0], ids[0]);
        } else {
          var i :| 0 <= i < |history[1..]| && m == WithId(history[1..][i], ids[1..][i]);
          assert m == WithId(history[i + 1], ids[i + 1]);
        }
      }
      forall i | 0 <= i < |history| && history[i].kind != Some(CONSOLE)
        ensures WithId(history[i], ids[i]) in Kept(history, ids)
      {
        if i > 0 {
          assert history[1..][i - 1] == history[i] && ids[1..][i - 1] == ids[i];
        }
      }
    }
  }

  // ---------------------------------------------------------------------------
  // The page's state

  class ChatView {
    var messages: seq<Message>
    var current: Option<string>

    function Snapshot(): View
      reads this
    {
      View(messages, current)
    }

    /** `let messages = []; let currentMessageId = null;` */
    constructor ()
      ensures Snapshot() == View([], None)
    {
      messages := [];
      current := None;
    }

    /** `processChunk(chunk)`, with `newId` the id `generateId` returns. */
    method ProcessChunk(chunk: Chunk, newId: string)
      modifies this
      ensures Snapshot() == Step(old(Snapshot()), chunk, newId)
    {
      if chunk.start {
        messages := messages + [NewMessage(chunk, newId)];
        current := Some(newId);
      } else if chunk.error.Some? {
        messages := messages + [SystemMessage(newId, chunk.error.value)];
        return;
      }
      var k := FindCurrent(messages, current);
      if k.Some? {
        var message := messages[k.value];
        if chunk.end {
          message := message.(complete := true);
        }
        message := message.(format := OrUndefined(chunk.format));
        if chunk.format == Some(ACTIVE_LINE) {
          message := message.(content := ContentOf(chunk));
        } else {
          message := message.(content := message.content + ContentOf(chunk));
        }
        messages := messages[k.value := message];
      }
    }

    /** The reader loop: each read is appended to the carried buffer, the complete lines
        are dispatched in order, and the payload of each `data: ` line is parsed and
        processed; a payload that does not parse is skipped. The `i`-th `processChunk` call
        is given `ids(i)`. The unfinished last line is never dispatched. */
    method ReceiveStream(c: Codec, chunks: seq<string>, ids: nat -> string) returns (calls: nat)
      modifies this
      ensures (Snapshot(), calls) == Run(c, old(Snapshot()), ClientStream.CompleteLines(ClientStream.Concat(chunks)), ids)
    {
      ghost var start := Snapshot();
      ghost var done: seq<string> := [];
      var partial := "";
      calls := 0;
      var i := 0;
      Text.SplitWithoutSeparator([], '\n');
      while i < |chunks|
        invariant 0 <= i <= |chunks|
        invariant done == ClientStream.CompleteLines(ClientStream.Concat(chunks[..i]))
        invariant partial == ClientStream.Pending(ClientStream.Concat(chunks[..i]))
        invariant (Snapshot(), calls) == Run(c, start, done, ids)
      {
        assert chunks[..i + 1][..i] == chunks[..i];
        ClientStream.FeedExtends(ClientStream.Concat(chunks[..i]), chunks[i]);
        var (buffer, lines) := ClientStream.Feed(partial, chunks[i]);
        partial := buffer;
        calls := DispatchLines(c, start, done, lines, ids, calls);
        done := done + lines;
        i := i + 1;
      }
      assert chunks[..i] == chunks;
    }

    /** The inner `for` loop: the lines completed by one read, dispatched in order. */
    method DispatchLines(c: Codec, ghost start: View, ghost before: seq<string>, lines: seq<string>,
                         ids: nat -> string, calls: nat) returns (next: nat)
      requires (Snapshot(), calls) == Run(c, start, before, ids)
      modifies this
      ensures (Snapshot(), next) == Run(c, start, before + lines, ids)
    {
      next := calls;
      ghost var done := before;
      var j := 0;
      while j < |lines|
        invariant 0 <= j <= |lines|
        invariant done == before + lines[..j]
        invariant (Snapshot(), next) == Run(c, start, done, ids)
      {
        assert (done + [lines[j]])[..|done|] == done;
        next := DispatchLine(c, lines[j], ids, next);
        done := done + [lines[j]];
        assert lines[..j + 1] == lines[..j] + [lines[j]];
        j := j + 1;
      }
      assert lines[..j] == lines;
    }

    /** The body of the inner `for` loop: a `data: ` line whose payload parses is handed to
        `processChunk`. */
    method DispatchLine(c: Codec, line: string, ids: nat -> string, calls: nat) returns (next: nat)
      modifies this
      ensures (Snapshot(), next) == LineStep(c, old(Snapshot()), calls, line, ids)
    {
      next := calls;
      var payload := ClientStream.Payload(line);
      if payload.Some? {
        var parsed := c.decode(payload.value);
        if parsed.Some? {
          var chunk := ChunkOf(parsed.value);
          if chunk.Some? {
            ProcessChunk(chunk.value, ids(calls));
            next := calls + 1;
          }
        }
      }
    }

    /** The history handler: the stored messages that are kept are appended in order. */
    method LoadHistory(history: seq<Message>, ids: seq<string>)
      requires |ids| == |history|
      modifies this
      ensures messages == old(messages) + Kept(history, ids)
      ensures current == old(current)
    {
      var i := 0;
      assert history[0..] == history && ids[0..] == ids;
      while i < |history|
        invariant 0 <= i <= |history|
        invariant messages + Kept(history[i..], ids[i..]) == old(messages) + Kept(history, ids)
        invariant current == old(current)
      {
        assert history[i..][1..] == history[i + 1..] && ids[i..][1..] == ids[i + 1..];
        ghost var rest := Kept(history[i + 1..], ids[i + 1..]);
        var message := history[i];
        if message.kind != Some(CONSOLE) {
          message := WithId(message, ids[i]);
          assert Kept(history[i..], ids[i..]) == [message] + rest;
          assert messages + ([message] + rest) == (messages + [message]) + rest;
          messages := messages + [message];
        } else {
          assert Kept(history[i..], ids[i..]) == [] + rest;
          assert [] + rest == rest;
        }
        i := i + 1;
      }
    }
  }
}
