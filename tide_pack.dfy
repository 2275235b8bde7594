/** The per-station accumulation of `save_tide_data`
    (utils/donwload_and_pack_tide_data.py:17-63): every month of the range is fetched for
    every station; a station for which a fetch raised is left out, the others are stored
    with their monthly tables concatenated. The fetch is a parameter; writing the pickle
    file, the creation time and the conversion of the frame's index are not modelled. */
module TidePack {
  import opened Wrappers
  import Months
  import Text

  /** The rows of a monthly frame; `pd.concat` stacks them in order. */
  type Table = seq<string>

  /** What `get_tide_data(station, month)` does: return a table and the month's notes
      (which may be `None`), or raise. */
  datatype Fetch = Fetched(table: Table, notes: Option<string>) | Raised

  datatype StationRecord = StationRecord(stationId: string, dateRange: string, notes: Option<string>, rows: Table)

  /** Why the whole call raises: the month range failed, or a station kept no table, so
      `pd.concat([])` raised. */
  datatype SaveError = RangeFailed(reason: Months.RangeError) | NothingToConcatenate

  /** The fetches of one station over the months, in order: the concatenated rows of the
      months that succeeded, the first notes that are not `None`, whether a fetch raised,
      and whether one returned (so that `all_tide_data` is not empty). */
  function Collect(fetch: (string, string) -> Fetch, id: string, months: seq<string>): (Table, Option<string>, bool, bool)
    decreases |months|
  {
    if months == [] then ([], None, false, false)
    else
      var (rows, notes, failed, fetched) := Collect(fetch, id, months[..|months| - 1]);
      match fetch(id, months[|months| - 1])
      case Raised => (rows, notes, true, fetched)
      case Fetched(table, monthNotes) => (rows + table, if notes.None? then monthNotes else notes, failed, true)
  }

  function DateRangeText(start: string, end: string): string {
    start + "-" + end
  }

  /** The loop over stations, given the outcome of the station's `if station_with_error`
      test; a later occurrence of a station replaces an earlier one. */
  function Pack(fetch: (string, string) -> Fetch, ids: seq<string>, start: string, end: string,
                skip: (string, bool) -> bool): Result<map<string, StationRecord>, SaveError>
    decreases |ids|
  {
    if ids == [] then Ok(map[])
    else
      var earlier := Pack(fetch, ids[..|ids| - 1], start, end, skip);
      var (months, failure) := Months.DateRange(start, end);
      if earlier.Err? then earlier
      else if failure.Some? then Err(RangeFailed(failure.value))
      else
        var id := ids[|ids| - 1];
        var (rows, notes, failed, fetched) := Collect(fetch, id, months);
        if skip(id, failed) then earlier
        else if !fetched then Err(NothingToConcatenate)
        else Ok(earlier.value[id := StationRecord(id, DateRangeText(start, end), notes, rows)])
  }

  /** As written: the error flag holds the station id, so a station is skipped only when a
      fetch raised and its id is truthy. */
  function SaveTideDataAsWritten(fetch: (string, string) -> Fetch, ids: seq<string>, start: string, end: string)
    : Result<map<string, StationRecord>, SaveError>
  {
    Pack(fetch, ids, start, end, SkipAsWritten)
  }

  function SkipAsWritten(id: string, failed: bool): bool {
    failed && id != []
  }

  function SkipFailed(id: string, failed: bool): bool {
    failed
  }

  /** As intended: a station is skipped whenever a fetch raised. */
  function SaveTideDataSpec(fetch: (string, string) -> Fetch, ids: seq<string>, start: string, end: string)
    : Result<map<string, StationRecord>, SaveError>
  {
    Pack(fetch, ids, start, end, SkipFailed)
  }

  /** The loops of `save_tide_data`, with the error flag as intended. */
  method SaveTideData(fetch: (string, string) -> Fetch, ids: seq<string>, start: string, end: string)
    returns (r: Result<map<string, StationRecord>, SaveError>)
    ensures r == SaveTideDataSpec(fetch, ids, start, end)
  {
    var all: map<string, StationRecord> := map[];
    var i := 0;
    while i < |ids|
      invariant 0 <= i <= |ids|
      invariant Pack(fetch, ids[..i], start, end, SkipFailed) == Ok(all)
    {
      var id := ids[i];
      var months, failure := Months.GenerateDateRange(start, end);
      var rows, notes, failed, fetched := FetchStation(fetch, id, months);
      assert ids[..i + 1][..i] == ids[..i];
      if failure.Some? {
        PackErrorPersists(fetch, ids, i + 1, start, end, SkipFailed);
        return Err(RangeFailed(failure.value));
      }
      if !failed {
        if !fetched {
          PackErrorPersists(fetch, ids, i + 1, start, end, SkipFailed);
          return Err(NothingToConcatenate);
        }
        all := all[id := StationRecord(id, DateRangeText(start, end), notes, rows)];
      }
      i := i + 1;
    }
    assert ids[..i] == ids;
    return Ok(all);
  }

  /** The loop over the months of one station. */
  method FetchStation(fetch: (string, string) -> Fetch, id: string, months: seq<string>)
    returns (rows: Table, notes: Option<string>, failed: bool, fetched: bool)
    ensures (rows, notes, failed, fetched) == Collect(fetch, id, months)
  {
    rows, notes, failed, fetched := [], None, false, false;
    var j := 0;
    while j < |months|
      invariant 0 <= j <= |months|
      invariant (rows, notes, failed, fetched) == Collect(fetch, id, months[..j])
    {
      assert months[..j + 1][..j] == months[..j];
      match fetch(id, months[j]) {
        case Raised =>
          failed := true;
        case Fetched(table, monthNotes) =>
          rows := rows + table;
          fetched := true;
          if notes.None? {
            notes := monthNotes;
          }
      }
      j := j + 1;
    }
    assert months[..j] == months;
  }

  // ---------------------------------------------------------------------------
  // Properties

  /** A fetch of the station raised for some month. */
  predicate MonthFailed(fetch: (string, string) -> Fetch, id: string, months: seq<string>) {
    exists i :: 0 <= i < |months| && fetch(id, months[i]).Raised?
  }

  /** A fetch of the station returned for some month. */
  predicate MonthFetched(fetch: (string, string) -> Fetch, id: string, months: seq<string>) {
    exists i :: 0 <= i < |months| && fetch(id, months[i]).Fetched?
  }

  /** The notes of the first month, from the start, whose notes are not `None`. */
  function FirstNotes(fetch: (string, string) -> Fetch, id: string, months: seq<string>): Option<string>
    decreases |months|
  {
    if months == [] then None
    else match fetch(id, months[0])
      case Fetched(_, Some(n)) => Some(n)
      case _ => FirstNotes(fetch, id, months[1..])
  }

  /** The tables of the months that succeeded, from the start, stacked. */
  function TablesOf(fetch: (string, string) -> Fetch, id: string, months: seq<string>): Table
    decreases |months|
  {
    if months == [] then []
    else match fetch(id, months[0])
      case Fetched(table, _) => table + TablesOf(fetch, id, months[1..])
      case Raised => TablesOf(fetch, id, months[1..])
  }

  lemma {:induction false} FirstNotesSnoc(fetch: (string, string) -> Fetch, id: string, months: seq<string>, m: string)
    ensures FirstNotes(fetch, id, months + [m]) ==
      if FirstNotes(fetch, id, months).Some? then FirstNotes(fetch, id, months)
      else if fetch(id, m).Fetched? then fetch(id, m).notes else None
    decreases |months|
  {
    if months == [] {
      assert ([] + [m])[1..] == [];
    } else {
      assert (months + [m])[0] == months[0] && (months + [m])[1..] == months[1..] + [m];
      FirstNotesSnoc(fetch, id, months[1..], m);
    }
  }

  lemma {:induction false} TablesOfSnoc(fetch: (string, string) -> Fetch, id: string, months: seq<string>, m: string)
    ensures TablesOf(fetch, id, months + [m]) ==
      TablesOf(fetch, id, months) + (if fetch(id, m).Fetched? then fetch(id, m).table else [])
    decreases |months|
  {
    if months == [] {
      assert ([] + [m])[1..] == [];
    } else {
      assert (months + [m])[0] == months[0] && (months + [m])[1..] == months[1..] + [m];
      TablesOfSnoc(fetch, id, months[1..], m);
    }
  }

  /** The accumulation loop keeps, in order, the tables of the months that succeeded and
      the notes of the first month that has some, flags the station exactly when a fetch
      raised, and has something to concatenate exactly when a fetch returned. */
  lemma {:induction false} CollectIsFaithful(fetch: (string, string) -> Fetch, id: string, months: seq<string>)
    ensures var (rows, notes, failed, fetched) := Collect(fetch, id, months);
      && rows == TablesOf(fetch, id, months)
      && notes == FirstNotes(fetch, id, months)
      && (failed <==> MonthFailed(fetch, id, months))
      && (fetched <==> MonthFetched(fetch, id, months))
    decreases |months|
  {
    if months != [] {
      var init, m := months[..|months| - 1], months[|months| - 1];
      assert months == init + [m];
      CollectIsFaithful(fetch, id, init);
      FirstNotesSnoc(fetch, id, init, m);
      TablesOfSnoc(fetch, id, init, m);
      if MonthFailed(fetch, id, init) {
        var i :| 0 <= i < |init| && fetch(id, init[i]).Raised?;
        assert months[i] == init[i];
      }
      if MonthFailed(fetch, id, months) && !fetch(id, m).Raised? {
        var i :| 0 <= i < |months| && fetch(id, months[i]).Raised?;
        assert i < |init| && init[i] == months[i];
      }
      if MonthFetched(fetch, id, init) {
        var i :| 0 <= i < |init| && fetch(id, init[i]).Fetched?;
        assert months[i] == init[i];
      }
      if MonthFetched(fetch, id, months) && !fetch(id, m).Fetched? {
        var i :| 0 <= i < |months| && fetch(id, months[i]).Fetched?;
        assert i < |init| && init[i] == months[i];
      }
    }
  }

  /** When the call succeeds, the stations stored are exactly those of the list for which
      no fetch raised, each with the range `start-end`, the first notes and the stacked
      tables. */
  lemma {:induction false} SavedStations(fetch: (string, string) -> Fetch, ids: seq<string>, start: string, end: string)
    ensures var r, months := SaveTideDataSpec(fetch, ids, start, end), Months.DateRange(start, end).0;
      r.Ok? ==> forall id ::
        && (id in r.value <==> id in ids && !MonthFailed(fetch, id, months))
        && (id in r.value ==>
              r.value[id] == StationRecord(id, DateRangeText(start, end), FirstNotes(fetch, id, months), TablesOf(fetch, id, months)))
    decreases |ids|
  {
    var r, months := SaveTideDataSpec(fetch, ids, start, end), Months.DateRange(start, end).0;
    if ids != [] && r.Ok? {
      var init, last := ids[..|ids| - 1], ids[|ids| - 1];
      assert ids == init + [last];
      assert SaveTideDataSpec(fetch, init, start, end).Ok?;
      SavedStations(fetch, init, start, end);
      CollectIsFaithful(fetch, last, months);
      assert forall id :: id in ids <==> id in init || id == last;
    }
  }

  /** When the call raises: for a nonempty station list, with the month range's error when
      the range fails; otherwise with `NothingToConcatenate`, exactly when some listed
      station had no fetch that raised and none that returned. */
  lemma {:induction false} SaveFailsIff(fetch: (string, string) -> Fetch, ids: seq<string>, start: string, end: string)
    ensures var r, (months, failure) := SaveTideDataSpec(fetch, ids, start, end), Months.DateRange(start, end);
      && (ids != [] && failure.Some? ==> r == Err(RangeFailed(failure.value)))
      && (failure.None? ==>
            && (r.Err? <==> exists i :: 0 <= i < |ids| && NothingToPack(fetch, ids[i], months))
            && (r.Err? ==> r == Err(NothingToConcatenate)))
    decreases |ids|
  {
    var (months, failure) := Months.DateRange(start, end);
    if ids != [] {
      var init, last := ids[..|ids| - 1], ids[|ids| - 1];
      SaveFailsIff(fetch, init, start, end);
      assert SaveTideDataSpec(fetch, ids, start, end) == Pack(fetch, ids, start, end, SkipFailed);
      if failure.None? {
        CollectIsFaithful(fetch, last, months);
        assert forall i :: 0 <= i < |init| ==> ids[i] == init[i];
      }
    }
  }

  /** A station neither kept out by a failed month nor given a table to concatenate. */
  predicate NothingToPack(fetch: (string, string) -> Fetch, id: string, months: seq<string>) {
    !MonthFailed(fetch, id, months) && !MonthFetched(fetch, id, months)
  }

  /** A fetch that raises for January 2024 and returns one row for every other month. */
  function ExampleFetch(id: string, month: string): Fetch {
    if month == "202401" then Raised else Fetched(["row"], None)
  }

  /** The station with the empty id and one failing month: as written it is stored with
      the months that did not fail. */
  lemma FalsyIdNotSkipped()
    ensures SaveTideDataAsWritten(ExampleFetch, [""], "202401", "202402")
            == Ok(map["" := StationRecord("", "202401-202402", None, ["row"])])
  {
    var ids: seq<string> := [""];
    assert ids[..|ids| - 1] == [] && ids[|ids| - 1] == "";
    MonthsOfExample();
    CollectExample();
    assert Pack(ExampleFetch, [], "202401", "202402", SkipAsWritten) == Ok(map[]);
    assert !SkipAsWritten("", true);
    assert DateRangeText("202401", "202402") == "202401-202402";
  }

  /** The same station is left out once every raised fetch skips its station. */
  lemma FalsyIdSkipped()
    ensures SaveTideDataSpec(ExampleFetch, [""], "202401", "202402") == Ok(map[])
  {
    var ids: seq<string> := [""];
    assert ids[..|ids| - 1] == [] && ids[|ids| - 1] == "";
    MonthsOfExample();
    CollectExample();
    assert Pack(ExampleFetch, [], "202401", "202402", SkipFailed) == Ok(map[]);
    assert SkipFailed("", true);
  }

  lemma CollectExample()
    ensures Collect(ExampleFetch, "", ["202401", "202402"]) == (["row"], None, true, true)
  {
    var months := ["202401", "202402"];
    assert months[..1] == ["202401"] && months[..1][..0] == [];
    assert Collect(ExampleFetch, "", months[..1]) == ([], None, true, false);
    assert months[1] == "202402" && months[1][5] != "202401"[5];
    assert ExampleFetch("", months[1]) == Fetched(["row"], None);
    assert |months| == 2 && months[..|months| - 1] == months[..1];
    var empty: Table := [];
    assert empty + ["row"] == ["row"];
    assert Collect(ExampleFetch, "", months) == (empty + ["row"], None, true, true);
  }

  lemma MonthsOfExample()
    ensures Months.DateRange("202401", "202402") == (["202401", "202402"], None)
  {
    var s := Months.Date(2024, 1, 1);
    var e := Months.Date(2024, 2, 1);
    FormatExample();
    assert Months.ParseMonth("202401") == Some(s) && Months.ParseMonth("202402") == Some(e) by {
      Months.FormatRoundTrip(s);
      Months.FormatRoundTrip(e);
    }
    BetweenExample();
    Months.BetweenValid(s, e);
    var b := Months.Between(s, e);
    assert Months.FormatAll(b) == [Months.Format(s), Months.Format(e)];
  }

  lemma FormatExample()
    ensures Months.Format(Months.Date(2024, 1, 1)) == "202401"
    ensures Months.Format(Months.Date(2024, 2, 1)) == "202402"
  {
    assert Text.NatToDecimal(2) == "2";
    assert Text.NatToDecimal(20) == Text.NatToDecimal(2) + "0";
    assert Text.NatToDecimal(202) == Text.NatToDecimal(20) + "2";
    assert Text.NatToDecimal(2024) == Text.NatToDecimal(202) + "4";
    assert Months.TwoDigits(1) == "01" && Months.TwoDigits(2) == "02";
  }

  lemma BetweenExample()
    ensures Months.Between(Months.Date(2024, 1, 1), Months.Date(2024, 2, 1)) == [Months.Date(2024, 1, 1), Months.Date(2024, 2, 1)]
  {
    var s := Months.Date(2024, 1, 1);
    var e := Months.Date(2024, 2, 1);
    assert Months.Index(s) == 24288 && Months.Index(e) == 24289;
    assert 24288 / 12 == 2024 && 24288 % 12 == 0;
    assert 24289 / 12 == 2024 && 24289 % 12 == 1;
    var b := Months.Between(s, e);
    assert |b| == 2;
    assert b[0] == Months.FromIndex(24288) == s;
    assert b[1] == Months.FromIndex(24289) == e;
  }

  /** Once the loop over stations has raised, the later stations change nothing. */
  lemma {:induction false} PackErrorPersists(fetch: (string, string) -> Fetch, ids: seq<string>, k: nat,
                                             start: string, end: string, skip: (string, bool) -> bool)
    requires k <= |ids|
    requires Pack(fetch, ids[..k], start, end, skip).Err?
    ensures Pack(fetch, ids, start, end, skip) == Pack(fetch, ids[..k], start, end, skip)
    decreases |ids| - k
  {
    if k < |ids| {
      assert ids[..|ids| - 1][..k] == ids[..k];
      PackErrorPersists(fetch, ids[..|ids| - 1], k, start, end, skip);
    } else {
      assert ids[..k] == ids;
    }
  }
}
