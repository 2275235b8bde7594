/** The chat stream end to end: the events the server's generator sends
    (app.py:313-336) read back by the browser's line buffer (frontend/assistant.js:226-264).
    Whatever way the transport cuts the response into chunks, the client extracts the
    payload of every event, in order, and nothing else. */
module StreamRoundTrip {
  import opened Wrappers
  import opened JsonModel
  import Text
  import Chat
  import ClientStream

  /** The events of a run of payloads, in the order sent. */
  function Frames(datas: seq<string>): (r: seq<string>)
    ensures |r| == |datas| && forall i :: 0 <= i < |datas| ==> r[i] == Chat.Frame(datas[i])
  {
    seq(|datas|, i requires 0 <= i < |datas| => Chat.Frame(datas[i]))
  }

  /** The lines of those events: each payload behind the `data: ` prefix, then the blank
      line that ends the event. */
  function EventLines(datas: seq<string>): (r: seq<string>)
    ensures |r| == 2 * |datas|
    decreases |datas|
  {
    if datas == [] then []
    else EventLines(datas[..|datas| - 1]) + [ClientStream.DATA_PREFIX + datas[|datas| - 1], ""]
  }

  /** The bytes of the events are those lines, each ended by a newline. */
  lemma {:induction false} FramesAreEventLines(datas: seq<string>)
    ensures ClientStream.Concat(Frames(datas)) == Text.Terminated(EventLines(datas), '\n')
    decreases |datas|
  {
    if datas != [] {
      var init, d := datas[..|datas| - 1], datas[|datas| - 1];
      var frames := Frames(datas);
      assert frames[..|frames| - 1] == Frames(init);
      FramesAreEventLines(init);
      Text.TerminatedAppend(EventLines(init), [ClientStream.DATA_PREFIX + d, ""], '\n');
      var last := [ClientStream.DATA_PREFIX + d, ""];
      assert last[1..] == [""] && [""][1..] == [];
      assert Text.Terminated(last, '\n') == ClientStream.DATA_PREFIX + d + "\n" + "\n";
    }
  }

  lemma {:induction false} EventLinesHaveNoNewline(datas: seq<string>)
    requires forall i :: 0 <= i < |datas| ==> '\n' !in datas[i]
    ensures Text.NoSep(EventLines(datas), '\n')
    decreases |datas|
  {
    if datas != [] {
      var init, d := datas[..|datas| - 1], datas[|datas| - 1];
      assert forall i :: 0 <= i < |init| ==> init[i] == datas[i];
      EventLinesHaveNoNewline(init);
      assert '\n' !in ClientStream.DATA_PREFIX + d by {
        assert '\n' !in d;
        assert forall k :: 0 <= k < |ClientStream.DATA_PREFIX + d| ==>
          (ClientStream.DATA_PREFIX + d)[k] == if k < 6 then ClientStream.DATA_PREFIX[k] else d[k - 6];
      }
      ClientStream.NoSepAppend(EventLines(init), [ClientStream.DATA_PREFIX + d, ""]);
    }
  }

  /** The client's payloads of the event lines are the payloads sent, when each is a
      single line without white space at its ends. */
  lemma {:induction false} PayloadsOfEventLines(datas: seq<string>)
    requires forall i :: 0 <= i < |datas| ==> TrimmedLine(datas[i])
    ensures ClientStream.Payloads(EventLines(datas)) == datas
    decreases |datas|
  {
    if datas != [] {
      var init, d := datas[..|datas| - 1], datas[|datas| - 1];
      assert forall i :: 0 <= i < |init| ==> init[i] == datas[i];
      PayloadsOfEventLines(init);
      ClientStream.PayloadsAppend(EventLines(init), [ClientStream.DATA_PREFIX + d, ""]);
      PayloadsOfEvent(d);
      assert datas == init + [d];
    }
  }

  lemma PayloadsOfEvent(d: string)
    requires TrimmedLine(d)
    ensures ClientStream.Payloads([ClientStream.DATA_PREFIX + d, ""]) == [d]
  {
    var last := [ClientStream.DATA_PREFIX + d, ""];
    assert ClientStream.Payload(last[0]) == Some(d) by {
      ClientStream.PayloadOfDataLine(ClientStream.DATA_PREFIX + d, d);
      Text.TrimNoop(d);
    }
    var blank: seq<string> := [""];
    assert ClientStream.Payloads(blank) == [] by {
      assert !Text.StartsWith(blank[0], ClientStream.DATA_PREFIX);
      assert blank[1..] == [];
    }
    assert last[1..] == blank;
  }

  /** However the response is cut into chunks, the lines the reader dispatches are the
      event lines, nothing is left in its buffer at the end, and the payloads it extracts
      are those sent, in order. */
  lemma StreamRoundTrip(datas: seq<string>, chunks: seq<string>)
    requires forall i :: 0 <= i < |datas| ==> TrimmedLine(datas[i])
    requires ClientStream.Concat(chunks) == ClientStream.Concat(Frames(datas))
    ensures ClientStream.CompleteLines(ClientStream.Concat(chunks)) == EventLines(datas)
    ensures ClientStream.Pending(ClientStream.Concat(chunks)) == []
    ensures ClientStream.Payloads(ClientStream.CompleteLines(ClientStream.Concat(chunks))) == datas
  {
    FramesAreEventLines(datas);
    EventLinesHaveNoNewline(datas);
    var text := ClientStream.Concat(chunks);
    assert Text.Terminated(EventLines(datas), '\n') + [] == text;
    ClientStream.DecomposeUnique(EventLines(datas), [], text);
    PayloadsOfEventLines(datas);
  }

  /** Text after the last newline is held back: a response cut off in the middle of an
      event dispatches only the lines completed before the cut. */
  lemma UnterminatedNotDispatched(text: string, partial: string)
    requires '\n' !in partial
    ensures ClientStream.CompleteLines(text + partial) == ClientStream.CompleteLines(text)
    ensures ClientStream.Pending(text + partial) == ClientStream.Pending(text) + partial
  {
    var lines, rest := ClientStream.CompleteLines(text), ClientStream.Pending(text);
    ClientStream.Decompose(text);
    assert '\n' !in rest + partial by {
      assert forall k :: 0 <= k < |rest + partial| ==>
        (rest + partial)[k] == if k < |rest| then rest[k] else partial[k - |rest|];
    }
    assert Text.Terminated(lines, '\n') + (rest + partial) == text + partial;
    ClientStream.DecomposeUnique(lines, rest + partial, text + partial);
  }

  /** A run whose items are all dicts the encoder accepts, sent with an encoder whose
      output is one trimmed line and which its decoder undoes: the client parses back
      exactly the JSON of every item, in order. */
  lemma CleanRunDecodes(c: Codec, items: seq<Chat.ChatItem>, chunks: seq<string>)
    requires Lawful(c) && OneLine(c)
    requires forall i :: 0 <= i < |items| ==> items[i].DictItem? && !ContainsException(items[i].o)
    requires ClientStream.Concat(chunks) == ClientStream.Concat(Chat.ItemFrames(c, items).0)
    ensures var payloads := ClientStream.Payloads(ClientStream.CompleteLines(ClientStream.Concat(chunks)));
      && |payloads| == |items|
      && forall i :: 0 <= i < |items| ==> c.decode(payloads[i]) == ToJson(items[i].o)
  {
    var datas := seq(|items|, i requires 0 <= i < |items| => c.encode(ToJson(items[i].o).value));
    assert Chat.ItemFrames(c, items).0 == Frames(datas) by {
      ItemFramesOfClean(c, items);
    }
    forall i | 0 <= i < |datas|
      ensures TrimmedLine(datas[i]) && c.decode(datas[i]) == ToJson(items[i].o)
    {
      EncodedItem(c, items[i].o);
    }
    StreamRoundTrip(datas, chunks);
  }

  /** An object without exceptions encodes to one trimmed line that decodes back. */
  lemma EncodedItem(c: Codec, o: PyObj)
    requires Lawful(c) && OneLine(c) && !ContainsException(o)
    ensures TrimmedLine(c.encode(ToJson(o).value))
    ensures c.decode(c.encode(ToJson(o).value)) == ToJson(o)
  {
  }

  lemma {:induction false} ItemFramesOfClean(c: Codec, items: seq<Chat.ChatItem>)
    requires forall i :: 0 <= i < |items| ==> items[i].DictItem? && !ContainsException(items[i].o)
    ensures |Chat.ItemFrames(c, items).0| == |items|
    ensures forall i :: 0 <= i < |items| ==>
      Chat.ItemFrames(c, items).0[i] == Chat.Frame(c.encode(ToJson(items[i].o).value))
    decreases |items|
  {
    if items != [] {
      assert forall i :: 0 <= i < |items| - 1 ==> items[1..][i] == items[i + 1];
      ItemFramesOfClean(c, items[1..]);
    }
  }
}
