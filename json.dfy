/** JSON values and the encoder/decoder pair (`json.dumps` / `json.loads` on the server,
    `JSON.parse` on the client), kept abstract: a codec is any pair of functions, and the
    facts the model relies on are the predicates below rather than a concrete syntax. */
module JsonModel {
  import opened Wrappers
  import Text

  datatype Json =
    | JNull
    | JBool(b: bool)
    | JNum(n: real)
    | JStr(s: string)
    | JArr(items: seq<Json>)
    | JObj(fields: seq<(string, Json)>)

  /** A Python value handed to `json.dumps`: JSON data, an exception object, or a dict
      whose values may be either. */
  datatype PyObj =
    | PyJson(j: Json)
    | PyException(message: string)
    | PyDict(entries: seq<Entry>)

  datatype Entry = Entry(key: string, value: PyObj)

  predicate ContainsException(o: PyObj)
    decreases o, 1
  {
    match o
    case PyJson(_) => false
    case PyException(_) => true
    case PyDict(es) => EntriesContainException(es)
  }

  predicate EntriesContainException(es: seq<Entry>)
    decreases es, 0
  {
    if es == [] then false else ContainsException(es[0].value) || EntriesContainException(es[1..])
  }

  /** The JSON form of a Python value: absent exactly when the value holds an exception
      object, which the standard encoder refuses with a TypeError. */
  function ToJson(o: PyObj): (r: Option<Json>)
    ensures r.None? <==> ContainsException(o)
    ensures o.PyJson? ==> r == Some(o.j)
    decreases o, 1
  {
    match o
    case PyJson(j) => Some(j)
    case PyException(_) => None
    case PyDict(es) =>
      var fs := EntriesToJson(es);
      if fs.Some? then Some(JObj(fs.value)) else None
  }

  function EntriesToJson(es: seq<Entry>): (r: Option<seq<(string, Json)>>)
    ensures r.None? <==> EntriesContainException(es)
    ensures r.Some? ==> |r.value| == |es|
    decreases es, 0
  {
    if es == [] then Some([])
    else
      var head := ToJson(es[0].value);
      var tail := EntriesToJson(es[1..]);
      if head.Some? && tail.Some? then Some([(es[0].key, head.value)] + tail.value) else None
  }

  /** An encoder and a decoder. */
  datatype Codec = Codec(encode: Json -> string, decode: string -> Option<Json>)

  /** Decoding undoes encoding, and no value encodes to the empty string. */
  ghost predicate Lawful(c: Codec) {
    forall j :: c.decode(c.encode(j)) == Some(j) && c.encode(j) != []
  }

  /** The encoder's output fits on one line and has no white space at either end, as
      the default `json.dumps` output does (newlines inside strings are escaped). */
  ghost predicate OneLine(c: Codec) {
    forall j :: TrimmedLine(c.encode(j))
  }

  predicate TrimmedLine(s: string) {
    '\n' !in s && (s == [] || (!Text.IsJsSpace(s[0]) && !Text.IsJsSpace(s[|s| - 1])))
  }

  /** `json.dumps(o)`: the encoding of its JSON form, or nothing when the encoder raises. */
  function Dumps(c: Codec, o: PyObj): (r: Option<string>)
    ensures r.None? <==> ContainsException(o)
  {
    var j := ToJson(o);
    if j.Some? then Some(c.encode(j.value)) else None
  }

  /** `json.dumps({"error": e})` for an exception object `e` raises: the payload the chat
      stream builds on a fault can never be encoded. */
  lemma {:induction false} ErrorDictOfExceptionIsUnencodable(c: Codec, message: string)
    ensures Dumps(c, PyDict([Entry("error", PyException(message))])) == None
  {
    var es := [Entry("error", PyException(message))];
    assert es[1..] == [];
    assert ContainsException(es[0].value);
    assert EntriesContainException(es);
  }
}
