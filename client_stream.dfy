/** The line buffer of the browser client's stream reader (frontend/assistant.js:226-255):
    the text received so far is split on newlines, every complete line is dispatched and
    the unfinished last piece is carried over to the next read. Only lines starting with
    `data: ` carry a payload. */
module ClientStream {
  import opened Wrappers
  import Text

  const DATA_PREFIX: string := "data: "

  /** Everything received after the given chunks. */
  function Concat(chunks: seq<string>): string
    decreases |chunks|
  {
    if chunks == [] then [] else Concat(chunks[..|chunks| - 1]) + chunks[|chunks| - 1]
  }

  /** The complete lines of `text`: every piece of `text.split("\n")` but the last. */
  function CompleteLines(text: string): (lines: seq<string>)
    ensures Text.NoSep(lines, '\n')
  {
    var parts := Text.Split(text, '\n');
    parts[..|parts| - 1]
  }

  /** The unfinished last line of `text`: the piece `lines.pop()` removes. */
  function Pending(text: string): (rest: string)
    ensures '\n' !in rest
  {
    var parts := Text.Split(text, '\n');
    parts[|parts| - 1]
  }

  /** One read: the new text is appended to the carried buffer, the result is split and
      the last piece becomes the new buffer. */
  function Feed(buffer: string, text: string): (string, seq<string>) {
    (Pending(buffer + text), CompleteLines(buffer + text))
  }

  /** The complete lines, each followed by a newline, then the unfinished rest give back
      the text. */
  lemma Decompose(text: string)
    ensures Text.Terminated(CompleteLines(text), '\n') + Pending(text) == text
  {
    Text.JoinIsTerminatedPlusLast(Text.Split(text, '\n'), '\n');
  }

  /** That decomposition is the only one into newline-free lines and a newline-free rest. */
  lemma DecomposeUnique(lines: seq<string>, rest: string, text: string)
    requires Text.NoSep(lines, '\n') && '\n' !in rest
    requires Text.Terminated(lines, '\n') + rest == text
    ensures lines == CompleteLines(text) && rest == Pending(text)
  {
    Decompose(text);
    Text.TerminatedUnique(lines, rest, CompleteLines(text), Pending(text), '\n');
  }

  /** Feeding a read to the buffer left by `text` dispatches exactly the lines that
      `text + read` completes beyond those of `text`, and leaves its unfinished rest. */
  lemma {:induction false} FeedExtends(text: string, read: string)
    ensures var (buffer, lines) := Feed(Pending(text), read);
      && CompleteLines(text + read) == CompleteLines(text) + lines
      && Pending(text + read) == buffer
  {
    var before := CompleteLines(text);
    var lines := CompleteLines(Pending(text) + read);
    var buffer := Pending(Pending(text) + read);
    assert Text.Terminated(before + lines, '\n') + buffer == text + read by {
      Decompose(text);
      Decompose(Pending(text) + read);
      Text.TerminatedAppend(before, lines, '\n');
      var t := Text.Terminated(before, '\n');
      assert t + Pending(text) == text;
      assert Text.Terminated(lines, '\n') + buffer == Pending(text) + read;
      assert Text.Terminated(before + lines, '\n') + buffer == t + (Text.Terminated(lines, '\n') + buffer);
    }
    assert Text.NoSep(before + lines, '\n') by {
      NoSepAppend(before, lines);
    }
    DecomposeUnique(before + lines, buffer, text + read);
  }

  lemma NoSepAppend(a: seq<string>, b: seq<string>)
    requires Text.NoSep(a, '\n') && Text.NoSep(b, '\n')
    ensures Text.NoSep(a + b, '\n')
  {
    forall i | 0 <= i < |a + b|
      ensures '\n' !in (a + b)[i]
    {
      if i >= |a| {
        assert (a + b)[i] == b[i - |a|];
      }
    }
  }

  /** However the stream is cut into chunks, the lines dispatched are the complete lines of
      the whole text: those of the first chunks followed by those the last read adds. */
  lemma ChunkingIrrelevant(chunks: seq<string>, more: seq<string>)
    ensures CompleteLines(Concat(chunks + more)) ==
      CompleteLines(Concat(chunks)) + CompleteLines(Pending(Concat(chunks)) + Concat(more))
  {
    var t := Concat(chunks);
    var m := Concat(more);
    assert Concat(chunks + more) == t + m by { ConcatAppend(chunks, more); }
    FeedExtends(t, m);
  }

  lemma {:induction false} ConcatAppend(a: seq<string>, b: seq<string>)
    ensures Concat(a + b) == Concat(a) + Concat(b)
    decreases |b|
  {
    if b == [] {
      assert a + b == a;
    } else {
      var init, last := b[..|b| - 1], b[|b| - 1];
      assert (a + b)[..|a + b| - 1] == a + init;
      assert (a + b)[|a + b| - 1] == last;
      assert Concat(a + b) == Concat(a + init) + last;
      ConcatAppend(a, init);
      assert Concat(b) == Concat(init) + last;
      assert (Concat(a) + Concat(init)) + last == Concat(a) + (Concat(init) + last);
    }
  }

  /** `s.replace(pattern, "")`: the first occurrence of `pattern` removed. */
  function ReplaceFirst(s: string, pattern: string): (r: string)
    requires pattern != []
    ensures Text.StartsWith(s, pattern) ==> r == s[|pattern|..]
    decreases |s|
  {
    if |s| < |pattern| then s
    else if s[..|pattern|] == pattern then s[|pattern|..]
    else [s[0]] + ReplaceFirst(s[1..], pattern)
  }

  /** The payload of a dispatched line: for a `data: ` line, the line with that prefix
      removed and white space trimmed; other lines carry none. */
  function Payload(line: string): (r: Option<string>)
    ensures r.Some? <==> Text.StartsWith(line, DATA_PREFIX)
  {
    if Text.StartsWith(line, DATA_PREFIX) then Some(Text.Trim(ReplaceFirst(line, DATA_PREFIX))) else None
  }

  /** Since the prefix starts the line, `replace` removes exactly that prefix. */
  lemma PayloadOfDataLine(line: string, data: string)
    requires line == DATA_PREFIX + data
    ensures Payload(line) == Some(Text.Trim(data))
  {
    assert line[|DATA_PREFIX|..] == data;
  }

  /** The payloads of a run of lines, in order. */
  function Payloads(lines: seq<string>): (r: seq<string>)
    ensures |r| <= |lines|
    decreases |lines|
  {
    if lines == [] then []
    else
      var p := Payload(lines[0]);
      (if p.Some? then [p.value] else []) + Payloads(lines[1..])
  }

  lemma {:induction false} PayloadsAppend(a: seq<string>, b: seq<string>)
    ensures Payloads(a + b) == Payloads(a) + Payloads(b)
    decreases |a|
  {
    if a == [] {
      assert a + b == b;
    } else {
      var head := Payload(a[0]);
      var first := if head.Some? then [head.value] else [];
      assert (a + b)[0] == a[0];
      assert (a + b)[1..] == a[1..] + b;
      assert Payloads(a + b) == first + Payloads(a[1..] + b);
      PayloadsAppend(a[1..], b);
      assert Payloads(a) == first + Payloads(a[1..]);
    }
  }
}
