/** The station metadata filter of `fetch_and_process` (utils/fetch_and_process.py:19-30):
    the ids listed under `results` of the station index form a set, and a feature of the
    GeoJSON metadata is kept when its `properties.uhslc_id`, printed with `str` and
    zero-padded to three characters, is in that set. The two downloads and the file
    written are not modelled: the decoded documents are the inputs. */
module StationFilter {
  import opened Wrappers
  import opened JsonModel
  import Text

  /** A Python value found at an id key: an integer, a string, or any other value, given
      by the text `str` prints for it. Only strings compare equal to strings. */
  datatype Value = PyInt(i: int) | PyStr(s: string) | PyOther(text: string)

  /** An entry of `results`: the value under its `id` key, `None` when the key is absent. */
  datatype Item = Item(id: Option<Value>)

  /** A GeoJSON feature: the whole feature as JSON, and the value under
      `properties.uhslc_id`, `None` when that lookup raises. */
  datatype Feature = Feature(uhslcId: Option<Value>, data: Json)

  /** The subscript that raised a KeyError. */
  datatype Missing = MissingResults | MissingId | MissingFeatures | MissingUhslcId

  /** Python's `str` of a value. */
  function Str(v: Value): (r: string)
    ensures v.PyStr? ==> r == v.s
    ensures v.PyInt? && v.i >= 0 ==> Text.AllDigits(r) && Text.DecimalToNat(r) == v.i
  {
    match v
    case PyInt(i) =>
      Text.DecimalRoundTrip(if i >= 0 then i else -i);
      Text.IntToDecimal(i)
    case PyStr(s) => s
    case PyOther(t) => t
  }

  function Zeros(n: nat): (r: string)
    ensures |r| == n && forall i :: 0 <= i < n ==> r[i] == '0'
  {
    seq(n, _ => '0')
  }

  /** Python's `str.zfill(width)`: zeros are added on the left up to `width` characters,
      after a leading sign if there is one; a string already that long is unchanged. */
  function ZFill(s: string, width: nat): (r: string)
    ensures |r| == if |s| >= width then |s| else width
    ensures |s| >= width ==> r == s
    ensures |s| < width && (s == [] || (s[0] != '+' && s[0] != '-')) ==> r == Zeros(width - |s|) + s
    ensures |s| < width && s != [] && (s[0] == '+' || s[0] == '-') ==>
      r == [s[0]] + Zeros(width - |s|) + s[1..]
  {
    if |s| >= width then s
    else if s != [] && (s[0] == '+' || s[0] == '-') then [s[0]] + Zeros(width - |s|) + s[1..]
    else Zeros(width - |s|) + s
  }

  /** The `id` set of line 19, or the KeyError of the first entry without an `id`. */
  function IdSet(items: seq<Item>): (r: Result<set<Value>, Missing>)
    ensures r.Err? <==> exists k :: 0 <= k < |items| && items[k].id.None?
    ensures r.Err? ==> r.error == MissingId
    ensures r.Ok? ==> forall v :: v in r.value <==> exists k :: 0 <= k < |items| && items[k].id == Some(v)
    decreases |items|
  {
    if items == [] then Ok({})
    else
      var rest := IdSet(items[1..]);
      if items[0].id.None? then Err(MissingId)
      else if rest.Err? then
        assert forall k :: 0 < k < |items| ==> items[k] == items[1..][k - 1];
        rest
      else
        assert forall k :: 0 < k < |items| ==> items[k] == items[1..][k - 1];
        assert forall k :: 0 <= k < |items| - 1 ==> items[1..][k] == items[k + 1];
        Ok({items[0].id.value} + rest.value)
  }

  /** The test of line 25 for a feature whose id lookup succeeded. */
  predicate Matches(id: Value, ids: set<Value>) {
    PyStr(ZFill(Str(id), 3)) in ids
  }

  /** The comprehension of line 25: the features that match, in order, or the KeyError of
      the first feature without an id (every feature is looked up, kept or not). */
  function Matched(features: seq<Feature>, ids: set<Value>): (r: Result<seq<Feature>, Missing>)
    ensures r.Err? <==> exists k :: 0 <= k < |features| && features[k].uhslcId.None?
    ensures r.Err? ==> r.error == MissingUhslcId
    ensures r.Ok? ==> |r.value| <= |features|
    decreases |features|
  {
    if features == [] then Ok([])
    else
      var f := features[0];
      var rest := Matched(features[1..], ids);
      assert forall k :: 0 < k < |features| ==> features[k] == features[1..][k - 1];
      if f.uhslcId.None? then Err(MissingUhslcId)
      else if rest.Err? then rest
      else
        Ok((if Matches(f.uhslcId.value, ids) then [f] else []) + rest.value)
  }

  /** The object written out: the type tag and the matched features. */
  function Collection(features: seq<Feature>): (r: Json)
    ensures r.JObj? && |r.fields| == 2
    ensures r.fields[0] == ("type", JStr("FeatureCollection"))
    ensures r.fields[1].0 == "features" && r.fields[1].1.JArr?
    ensures |r.fields[1].1.items| == |features|
    ensures forall i :: 0 <= i < |features| ==> r.fields[1].1.items[i] == features[i].data
  {
    JObj([("type", JStr("FeatureCollection")), ("features", JArr(seq(|features|, i requires 0 <= i < |features| => features[i].data)))])
  }

  /** Lines 19-30, from the decoded documents to the object written: `None` stands for a
      document without its `results` or `features` key. */
  function FetchAndProcess(results: Option<seq<Item>>, features: Option<seq<Feature>>): (r: Result<Json, Missing>)
    ensures results.None? ==> r == Err(MissingResults)
    ensures results.Some? && IdSet(results.value).Err? ==> r == Err(MissingId)
    ensures results.Some? && IdSet(results.value).Ok? && features.None? ==> r == Err(MissingFeatures)
    ensures r.Ok? ==>
      && results.Some? && features.Some? && IdSet(results.value).Ok?
      && Matched(features.value, IdSet(results.value).value).Ok?
      && r.value == Collection(Matched(features.value, IdSet(results.value).value).value)
  {
    if results.None? then Err(MissingResults)
    else
      var ids := IdSet(results.value);
      if ids.Err? then Err(ids.error)
      else if features.None? then Err(MissingFeatures)
      else
        var kept := Matched(features.value, ids.value);
        if kept.Err? then Err(kept.error) else Ok(Collection(kept.value))
  }

  // ---------------------------------------------------------------------------
  // Properties

  /** A feature is kept exactly when it is one of the input features and its padded id is
      one of the listed ids. */
  lemma {:induction false} MatchedMembers(features: seq<Feature>, ids: set<Value>, f: Feature)
    requires Matched(features, ids).Ok?
    ensures f in Matched(features, ids).value <==> f in features && Matches(f.uhslcId.value, ids)
    decreases |features|
  {
    if features != [] {
      MatchedMembers(features[1..], ids, f);
      assert features == [features[0]] + features[1..];
    }
  }

  /** The filter never adds a feature, nor repeats one more often than the input does. */
  lemma {:induction false} MatchedNeverAdds(features: seq<Feature>, ids: set<Value>)
    requires Matched(features, ids).Ok?
    ensures multiset(Matched(features, ids).value) <= multiset(features)
    decreases |features|
  {
    if features != [] {
      MatchedNeverAdds(features[1..], ids);
      var f, tail := features[0], features[1..];
      var head: seq<Feature> := if Matches(f.uhslcId.value, ids) then [f] else [];
      assert Matched(features, ids).value == head + Matched(tail, ids).value;
      assert multiset(head) <= multiset([f]);
      assert features == [f] + tail;
      assert multiset(features) == multiset([f]) + multiset(tail);
    }
  }

  /** The filter works feature by feature: the result for two lists one after the other is
      the result for the first followed by the result for the second, so the order of the
      input is kept. */
  lemma {:induction false} MatchedAppend(a: seq<Feature>, b: seq<Feature>, ids: set<Value>)
    requires Matched(a + b, ids).Ok?
    ensures Matched(a, ids).Ok? && Matched(b, ids).Ok?
    ensures Matched(a + b, ids).value == Matched(a, ids).value + Matched(b, ids).value
    decreases |a|
  {
    if a == [] {
      assert a + b == b;
    } else {
      assert (a + b)[0] == a[0];
      assert (a + b)[1..] == a[1..] + b;
      MatchedAppend(a[1..], b, ids);
      var head: seq<Feature> := if Matches(a[0].uhslcId.value, ids) then [a[0]] else [];
      var x, y := Matched(a[1..], ids).value, Matched(b, ids).value;
      assert head + (x + y) == (head + x) + y;
      assert Matched(a + b, ids).value == head + (x + y);
      assert Matched(a, ids).value == head + x;
    }
  }

  /** One feature with an id: kept alone or dropped. */
  lemma MatchedOne(f: Feature, ids: set<Value>)
    requires f.uhslcId.Some?
    ensures Matched([f], ids) == Ok(if Matches(f.uhslcId.value, ids) then [f] else [])
  {
    assert [f][1..] == [];
    var kept: seq<Feature> := if Matches(f.uhslcId.value, ids) then [f] else [];
    assert kept + [] == kept;
  }

  /** Python's `str` of an integer from 0 to 999, zero-padded to three characters, is a
      three-digit numeral reading back as that integer. */
  lemma PaddedStationNumber(n: nat)
    requires n < 1000
    ensures var z := ZFill(Str(PyInt(n)), 3);
      |z| == 3 && Text.AllDigits(z) && Text.DecimalToNat(z) == n
  {
    var s := Str(PyInt(n));
    Text.DecimalLength(n);
    var z := ZFill(s, 3);
    LeadingZeros(Zeros(3 - |s|), s);
  }

  /** Zeros in front of a numeral do not change its value. */
  lemma {:induction false} LeadingZeros(zeros: string, s: string)
    requires forall i :: 0 <= i < |zeros| ==> zeros[i] == '0'
    requires Text.AllDigits(s)
    ensures Text.AllDigits(zeros + s) && Text.DecimalToNat(zeros + s) == Text.DecimalToNat(s)
    decreases |s|
  {
    var t := zeros + s;
    assert Text.AllDigits(t) by {
      forall i | 0 <= i < |t| ensures Text.IsDigit(t[i]) {
        if i >= |zeros| { assert t[i] == s[i - |zeros|]; }
      }
    }
    if s == [] {
      assert t == zeros;
      AllZeros(zeros);
    } else {
      assert t[..|t| - 1] == zeros + s[..|s| - 1];
      LeadingZeros(zeros, s[..|s| - 1]);
    }
  }

  lemma {:induction false} AllZeros(zeros: string)
    requires forall i :: 0 <= i < |zeros| ==> zeros[i] == '0'
    ensures Text.AllDigits(zeros) && Text.DecimalToNat(zeros) == 0
    decreases |zeros|
  {
    if zeros != [] {
      AllZeros(zeros[..|zeros| - 1]);
    }
  }

  /** Only the string entries of the index can be matched: an entry stored as a number (or
      as any other value that is not a string) never equals a padded id. */
  lemma NumericEntriesNeverMatch(v: Value, ids: set<Value>)
    ensures Matches(v, ids) <==> Matches(v, set x | x in ids && x.PyStr?)
    ensures (forall x :: x in ids ==> !x.PyStr?) ==> !Matches(v, ids)
  {
  }

  /** Station 7 of the metadata matches the index entry "007"; the string id "7" matches
      too, while the entry 7 stored as a number does not. */
  lemma PaddingExamples()
    ensures Matches(PyInt(7), {PyStr("007")})
    ensures Matches(PyStr("7"), {PyStr("007")})
    ensures !Matches(PyInt(7), {PyInt(7)})
    ensures ZFill("-7", 3) == "-07"
  {
    assert Str(PyInt(7)) == "7";
    assert ZFill("7", 3) == "007";
  }
}
