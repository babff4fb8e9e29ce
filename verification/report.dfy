/** `_generate_results` and `_write_results` of the refactored processor:
    the completed scans are fetched once more, their columns gathered into
    one row per URL, a header chosen, and the rows appended to the report
    together with the rows already in it. */
module Report {
  import opened Wrappers
  import opened Dicts
  import opened Values
  import opened Strings
  import opened Sorting
  import opened Ledger
  import opened Extraction

  /** One report row: column name to value. */
  type ReportRow = Dict<Value>

  /** The rows being gathered, keyed by URL, in the order URLs first got one. */
  type UrlRows = Dict<ReportRow>

  /** The clock read when the n-th URL gets its row: the integer part of
      the current POSIX time. */
  type Clock = nat -> int

  /** A record the pass for `engine` fetches again. */
  predicate Eligible(r: Record, engine: string) {
    r.engine == engine && Truthy(r.state) && r.scanId != ErrorId
  }

  /** The scan id handed to `_extract_scan_data`: the record's own for
      RecordedFuture, none for HybridAnalysis. */
  function ScanIdArgument(r: Record, engine: string): Value {
    if engine == "RecordedFuture" then r.scanId else VNone
  }

  /** The columns one record brings, or None when the fetch or the
      extraction raises (the exception is logged and the record skipped). */
  function ScanData(r: Record, engine: string, fetch: Fetch): Option<Dict<Value>> {
    match fetch(r.engine, r.scanId)
    case Raised(_) => None
    case Returned(result) =>
      match ExtractScanData(engine, result, ScanIdArgument(r, engine))
      case Failure(_) => None
      case Success(data) => Some(data)
  }

  /** The record adds columns to its URL's row in the pass for `engine`. */
  predicate Contributes(r: Record, engine: string, fetch: Fetch) {
    Eligible(r, engine) && ScanData(r, engine, fetch).Some?
  }

  predicate EngineColumn(k: string) {
    StartsWith(k, "ha_") || StartsWith(k, "rf_")
  }

  /** Neither base column looks like an engine column. */
  lemma BaseNotEngineColumn()
    ensures !EngineColumn("url") && !EngineColumn("generated_at")
  {
    if StartsWith("url", "ha_") { StartsWithFirst("url", "ha_"); }
    if StartsWith("url", "rf_") { StartsWithFirst("url", "rf_"); }
    if StartsWith("generated_at", "ha_") { StartsWithFirst("generated_at", "ha_"); }
    if StartsWith("generated_at", "rf_") { StartsWithFirst("generated_at", "rf_"); }
  }

  /** Extracted columns are engine columns without repetitions. */
  lemma ScanDataColumns(r: Record, engine: string, fetch: Fetch)
    requires ScanData(r, engine, fetch).Some?
    ensures Wf(ScanData(r, engine, fetch).value)
    ensures forall k :: k in Keys(ScanData(r, engine, fetch).value) ==> EngineColumn(k)
  {
  }

  /** A row as gathered: its URL under "url", an integer stamp under
      "generated_at", and engine columns otherwise, each once. */
  predicate RowOk(url: string, row: ReportRow) {
    && Wf(row)
    && Get(row, "url") == Some(VStr(url))
    && HasKey(row, "generated_at") && Get(row, "generated_at").value.VInt?
    && forall k :: k in Keys(row) ==> k == "url" || k == "generated_at" || EngineColumn(k)
  }

  predicate RowsOk(rows: UrlRows) {
    Wf(rows) && forall i :: 0 <= i < |rows| ==> RowOk(rows[i].0, rows[i].1)
  }

  /** The row a URL starts with: `{'url': url, 'generated_at': stamp}`. */
  function NewRow(url: string, stamp: int): (row: ReportRow)
    ensures RowOk(url, row)
    ensures Keys(row) == ["url", "generated_at"]
  {
    var row := [("url", VStr(url)), ("generated_at", VInt(stamp))];
    GetAt(row, 0);
    GetAt(row, 1);
    row
  }

  /** `url_results[url].update(data)`, for a well-formed row. */
  lemma MergeKeepsRow(url: string, row: ReportRow, data: Dict<Value>)
    requires RowOk(url, row)
    requires Wf(data) && forall k :: k in Keys(data) ==> EngineColumn(k)
    ensures RowOk(url, Update(row, data))
    ensures forall k :: k in Keys(row) ==> k in Keys(Update(row, data))
    ensures forall k :: HasKey(data, k) ==> Get(Update(row, data), k) == Get(data, k)
  {
    var merged := Update(row, data);
    BaseNotEngineColumn();
    HasKeyInKeys(data, "url");
    HasKeyInKeys(data, "generated_at");
    forall k | k in Keys(merged)
      ensures k == "url" || k == "generated_at" || EngineColumn(k)
    {
    }
  }

  /** Writing a merged row under `url` adds at most that key, keeps every
      column of every row, and leaves the new data readable in the row. */
  lemma SetRow(rows: UrlRows, url: string, row: ReportRow, data: Dict<Value>)
    requires HasKey(rows, url) ==> row == Get(rows, url).value
    ensures var rows' := Set(rows, url, Update(row, data));
            && (forall u :: HasKey(rows', u) <==> HasKey(rows, u) || u == url)
            && Keys(rows) <= Keys(rows')
            && (forall u, k :: HasKey(rows, u) && k in Keys(Get(rows, u).value) ==> k in Keys(Get(rows', u).value))
            && (forall k :: HasKey(data, k) ==> Get(Get(rows', url).value, k) == Get(data, k))
  {
    var merged := Update(row, data);
    var rows' := Set(rows, url, merged);
    assert Get(rows', url) == Some(merged);
    forall u | HasKey(rows, u)
      ensures forall k :: k in Keys(Get(rows, u).value) ==> k in Keys(Get(rows', u).value)
    {
      if u != url {
        assert Get(rows', u) == Get(rows, u);
      }
    }
  }

  /** Storing the merged row of a URL keeps the rows well formed. */
  lemma MergeIntoRows(rows: UrlRows, url: string, row: ReportRow, data: Dict<Value>)
    requires RowsOk(rows)
    requires HasKey(rows, url) ==> row == Get(rows, url).value
    requires !HasKey(rows, url) ==> RowOk(url, row)
    requires Wf(data) && forall k :: k in Keys(data) ==> EngineColumn(k)
    ensures RowsOk(Set(rows, url, Update(row, data)))
    ensures forall k :: k in Keys(row) ==> k in Keys(Update(row, data))
    ensures forall k :: HasKey(data, k) ==> Get(Update(row, data), k) == Get(data, k)
  {
    var rows' := Set(rows, url, Update(row, data));
    if HasKey(rows, url) {
      var i := IndexOf(rows, url);
      assert RowOk(rows[i].0, rows[i].1);
    }
    MergeKeepsRow(url, row, data);
    forall i | 0 <= i < |rows'|
      ensures RowOk(rows'[i].0, rows'[i].1)
    {
      GetAt(rows', i);
      if rows'[i].0 != url {
        GetAt(rows, IndexOf(rows, rows'[i].0));
      }
    }
  }

  /** Columns as an extraction yields them: each once, all engine columns. */
  predicate ColumnsOk(data: Dict<Value>) {
    Wf(data) && forall k :: k in Keys(data) ==> EngineColumn(k)
  }

  /** `url_results[url].update(data)`, the row created first with the
      clock's current reading when the URL has none yet. */
  function Put(rows: UrlRows, url: string, data: Dict<Value>, clock: Clock): (rows': UrlRows)
    ensures forall u :: HasKey(rows', u) <==> HasKey(rows, u) || u == url
    ensures HasKey(rows, url) ==> Keys(rows') == Keys(rows)
    ensures !HasKey(rows, url) ==> Keys(rows') == Keys(rows) + [url]
    ensures forall u :: u != url ==> Get(rows', u) == Get(rows, u)
    ensures RowsOk(rows) && ColumnsOk(data) ==> RowsOk(rows')
    ensures forall u, k :: HasKey(rows, u) && k in Keys(Get(rows, u).value) ==> k in Keys(Get(rows', u).value)
    ensures var row := if HasKey(rows, url) then Get(rows, url).value else NewRow(url, clock(|rows|));
            forall k :: Get(Get(rows', url).value, k) == if HasKey(data, k) then Get(data, k) else Get(row, k)
  {
    var row := if HasKey(rows, url) then Get(rows, url).value else NewRow(url, clock(|rows|));
    SetRow(rows, url, row, data);
    if RowsOk(rows) && ColumnsOk(data) then
      MergeIntoRows(rows, url, row, data);
      Set(rows, url, Update(row, data))
    else
      Set(rows, url, Update(row, data))
  }

  /** The body of either aggregation loop for one record. */
  function Contribute(rows: UrlRows, r: Record, engine: string, fetch: Fetch, clock: Clock): (rows': UrlRows)
    ensures RowsOk(rows) ==> RowsOk(rows')
    ensures !Contributes(r, engine, fetch) ==> rows' == rows
    ensures forall u :: HasKey(rows', u) <==> HasKey(rows, u) || (Contributes(r, engine, fetch) && u == r.url)
    ensures Keys(rows) <= Keys(rows')
    ensures forall u, k :: HasKey(rows, u) && k in Keys(Get(rows, u).value) ==> k in Keys(Get(rows', u).value)
    ensures Contributes(r, engine, fetch) ==>
              var data := ScanData(r, engine, fetch).value;
              forall k :: HasKey(data, k) ==> Get(Get(rows', r.url).value, k) == Get(data, k)
  {
    if !Contributes(r, engine, fetch) then rows
    else
      ScanDataColumns(r, engine, fetch);
      Put(rows, r.url, ScanData(r, engine, fetch).value, clock)
  }

  /** Some element of `xs` satisfies `p`. */
  predicate Any<T>(xs: seq<T>, p: T -> bool) {
    exists i :: 0 <= i < |xs| && p(xs[i])
  }

  lemma AnySnoc<T>(xs: seq<T>, p: T -> bool)
    requires xs != []
    ensures Any(xs, p) <==> Any(xs[..|xs| - 1], p) || p(xs[|xs| - 1])
  {
    var front := xs[..|xs| - 1];
    if Any(front, p) {
      var i :| 0 <= i < |front| && p(front[i]);
      assert xs[i] == front[i];
    }
    if Any(xs, p) {
      var i :| 0 <= i < |xs| && p(xs[i]);
      if i < |front| {
        assert front[i] == xs[i];
      }
    }
  }

  /** The record adds columns to the row of `url`. */
  function ContributesTo(url: string, engine: string, fetch: Fetch): Record -> bool {
    (r: Record) => r.url == url && Contributes(r, engine, fetch)
  }

  /** Some record of `records` adds columns to the row of `url`. */
  predicate SomeContributes(records: seq<Record>, url: string, engine: string, fetch: Fetch) {
    Any(records, ContributesTo(url, engine, fetch))
  }

  /** One aggregation loop over all records, for one engine. */
  function EnginePass(rows: UrlRows, records: seq<Record>, engine: string, fetch: Fetch, clock: Clock): (rows': UrlRows)
    ensures RowsOk(rows) ==> RowsOk(rows')
    ensures Keys(rows) <= Keys(rows')
    ensures forall u :: HasKey(rows', u) <==> HasKey(rows, u) || SomeContributes(records, u, engine, fetch)
    decreases |records|
  {
    if records == [] then rows
    else
      var front := records[..|records| - 1];
      var last := records[|records| - 1];
      var mid := EnginePass(rows, front, engine, fetch, clock);
      var rows' := Contribute(mid, last, engine, fetch, clock);
      forall u
        ensures HasKey(rows', u) <==> HasKey(rows, u) || SomeContributes(records, u, engine, fetch)
      {
        AnySnoc(records, ContributesTo(u, engine, fetch));
      }
      rows'
  }

  /** Both aggregation loops: RecordedFuture first, then HybridAnalysis. */
  function Aggregate(records: seq<Record>, fetch: Fetch, clock: Clock): (rows: UrlRows)
    ensures RowsOk(rows)
    ensures forall u :: HasKey(rows, u) <==>
              SomeContributes(records, u, "RecordedFuture", fetch) || SomeContributes(records, u, "HybridAnalysis", fetch)
    ensures Keys(EnginePass([], records, "RecordedFuture", fetch, clock)) <= Keys(rows)
  {
    var rf := EnginePass([], records, "RecordedFuture", fetch, clock);
    EnginePass(rf, records, "HybridAnalysis", fetch, clock)
  }


  /** A record that is not complete, or whose submission raised, never
      shows in the report. */
  lemma IneligibleIgnored(rows: UrlRows, r: Record, engine: string, fetch: Fetch, clock: Clock)
    requires !Truthy(r.state) || r.scanId == ErrorId
    ensures Contribute(rows, r, engine, fetch, clock) == rows
  {
  }

  // ---------------------------------------------------------------------
  // The header
  // ---------------------------------------------------------------------

  /** `[h for h in ks if h.startswith(p)]`. */
  function Filter(ks: seq<string>, p: string): (r: seq<string>)
    ensures |r| <= |ks|
    ensures forall k :: k in r <==> k in ks && StartsWith(k, p)
  {
    if ks == [] then []
    else
      var rest := Filter(ks[1..], p);
      assert ks == [ks[0]] + ks[1..];
      if StartsWith(ks[0], p) then [ks[0]] + rest else rest
  }

  const BaseHeaders: seq<string> := ["url", "generated_at"]

  /** A header laid out as the base columns, then `ha`, then `rf`. */
  lemma HeaderLayout(ha: seq<string>, rf: seq<string>)
    ensures var h := BaseHeaders + ha + rf;
            && |h| == 2 + |ha| + |rf|
            && h[..2] == BaseHeaders && h[2..2 + |ha|] == ha && h[2 + |ha|..] == rf
            && (forall k :: k in ha ==> k in h)
            && (forall k :: k in rf ==> k in h)
  {
    var h := BaseHeaders + ha + rf;
    assert h[..2] == BaseHeaders && h[2..2 + |ha|] == ha && h[2 + |ha|..] == rf;
  }

  /** The header `_generate_results` writes with: "url", "generated_at",
      then the sorted `ha_` columns and the sorted `rf_` columns of the FIRST
      URL's row only. No row at all makes `next(iter(...))` raise. */
  function Headers(rows: UrlRows): (r: Result<seq<string>, string>)
    ensures r.Failure? <==> rows == []
    ensures r.Success? ==>
              |r.value| == 2 + |Filter(Keys(rows[0].1), "ha_")| + |Filter(Keys(rows[0].1), "rf_")|
    ensures r.Success? ==>
              var first := Keys(rows[0].1);
              var ha := r.value[2..2 + |Filter(first, "ha_")|];
              var rf := r.value[2 + |Filter(first, "ha_")|..];
              && r.value[..2] == BaseHeaders
              && Sorted(ha) && (forall k :: k in ha <==> k in first && StartsWith(k, "ha_"))
              && Sorted(rf) && (forall k :: k in rf <==> k in first && StartsWith(k, "rf_"))
  {
    if rows == [] then Failure("StopIteration")
    else
      var first := Keys(rows[0].1);
      var ha := Sort(Filter(first, "ha_"));
      var rf := Sort(Filter(first, "rf_"));
      assert |ha| == |Filter(first, "ha_")| by {
        assert |multiset(ha)| == |multiset(Filter(first, "ha_"))|;
      }
      assert |rf| == |Filter(first, "rf_")| by {
        assert |multiset(rf)| == |multiset(Filter(first, "rf_"))|;
      }
      forall k
        ensures k in ha <==> k in Filter(first, "ha_")
        ensures k in rf <==> k in Filter(first, "rf_")
      {
        assert k in ha <==> k in multiset(ha);
        assert k in rf <==> k in multiset(rf);
      }
      HeaderLayout(ha, rf);
      Success(BaseHeaders + ha + rf)
  }

  // ---------------------------------------------------------------------
  // Writing the report
  // ---------------------------------------------------------------------

  /** The cells `csv.DictWriter` writes for one row: for each header, the
      row's value, or "No results" when the row has no such column. */
  function Cells(row: ReportRow, headers: seq<string>): (cells: seq<string>)
    ensures |cells| == |headers|
    ensures forall j :: 0 <= j < |headers| && HasKey(row, headers[j]) ==> cells[j] == CsvCell(Get(row, headers[j]).value)
    ensures forall j :: 0 <= j < |headers| && !HasKey(row, headers[j]) ==> cells[j] == "No results"
  {
    seq(|headers|, j requires 0 <= j < |headers| => CsvCell(GetOr(row, headers[j], NoResults)))
  }

  /** A written report: header line and data lines. */
  datatype Table = Table(header: seq<string>, rows: seq<seq<string>>)

  /** `_write_results`: the rows already in the report (as `csv.DictReader`
      read them) and then the new rows, all under the new header. Columns of
      old rows that the new header lacks are dropped. */
  function WriteResults(existing: seq<ReportRow>, results: seq<ReportRow>, headers: seq<string>): (t: Table)
    ensures t.header == headers
    ensures |t.rows| == |existing| + |results|
    ensures forall i :: 0 <= i < |existing| ==> t.rows[i] == Cells(existing[i], headers)
    ensures forall i :: 0 <= i < |results| ==> t.rows[|existing| + i] == Cells(results[i], headers)
  {
    var all := existing + results;
    Table(headers, seq(|all|, i requires 0 <= i < |all| => Cells(all[i], headers)))
  }

  /** What `csv.DictReader` makes of a data line: each header with its cell. */
  function ReadRow(headers: seq<string>, cells: seq<string>): ReportRow
    requires |cells| == |headers|
  {
    FromItems(seq(|headers|, j requires 0 <= j < |headers| => (headers[j], VStr(cells[j]))))
  }

  /** An old row whose columns are exactly the new header's reads back
      unchanged from the rewritten report: rewriting preserves it. */
  lemma ExistingRowPreserved(row: ReportRow, headers: seq<string>)
    requires forall k :: k in Keys(row) <==> k in headers
    requires forall i :: 0 <= i < |row| ==> row[i].1.VStr?
    ensures forall k :: Get(ReadRow(headers, Cells(row, headers)), k) == Get(row, k)
  {
    var cells := Cells(row, headers);
    var items := seq(|headers|, j requires 0 <= j < |headers| => (headers[j], VStr(cells[j])));
    forall k
      ensures Get(ReadRow(headers, cells), k) == Get(row, k)
    {
      HasKeyInKeys(row, k);
      HasKeyInKeys(items, k);
      assert Keys(items) == headers;
      if HasKey(row, k) {
        var j := IndexOf(items, k);
        var i := IndexOf(row, k);
        assert row[i].1.VStr?;
        assert cells[j] == CsvCell(row[i].1);
      }
    }
  }

  /** A column the header names but a row lacks is padded with "No results". */
  lemma MissingColumnPadded(row: ReportRow, headers: seq<string>, j: int)
    requires 0 <= j < |headers| && headers[j] !in Keys(row)
    ensures Cells(row, headers)[j] == "No results"
  {
    HasKeyInKeys(row, headers[j]);
  }

  /** `_generate_results` followed by `_write_results`. */
  function GenerateResults(records: seq<Record>, fetch: Fetch, clock: Clock, existing: seq<ReportRow>): (r: Result<Table, string>)
    ensures r.Failure? <==> Aggregate(records, fetch, clock) == []
    ensures r.Success? ==> |r.value.rows| == |existing| + |Aggregate(records, fetch, clock)|
    ensures r.Success? ==>
              var rows := Aggregate(records, fetch, clock);
              && Headers(rows).Success?
              && r.value.header == Headers(rows).value
              && (forall i :: 0 <= i < |existing| ==> r.value.rows[i] == Cells(existing[i], r.value.header))
              && (forall k :: 0 <= k < |rows| ==> r.value.rows[|existing| + k] == Cells(rows[k].1, r.value.header))
  {
    var rows := Aggregate(records, fetch, clock);
    var headers :- Headers(rows);
    Success(WriteResults(existing, Dicts.Values(rows), headers))
  }

  // ---------------------------------------------------------------------
  // The header of every row
  // ---------------------------------------------------------------------

  /** Every key of every row, row by row. */
  function AllColumns(rows: UrlRows): (ks: seq<string>)
    ensures forall k :: k in ks <==> exists i :: 0 <= i < |rows| && k in Keys(rows[i].1)
  {
    if rows == [] then []
    else
      var rest := AllColumns(rows[1..]);
      assert forall i :: 0 < i < |rows| ==> rows[i] == rows[1..][i - 1];
      Keys(rows[0].1) + rest
  }

  /** The header as evidently intended: "url", "generated_at", then the
      sorted `ha_` and `rf_` columns of all rows together. */
  function HeadersCorrected(rows: UrlRows): (r: Result<seq<string>, string>)
    ensures r.Failure? <==> rows == []
    ensures r.Success? ==>
              |r.value| == 2 + |SortedSet(Filter(AllColumns(rows), "ha_"))| + |SortedSet(Filter(AllColumns(rows), "rf_"))|
    ensures r.Success? ==> r.value[..2] == BaseHeaders
    ensures r.Success? ==> StrictlySorted(r.value[2..2 + |SortedSet(Filter(AllColumns(rows), "ha_"))|])
    ensures r.Success? ==> StrictlySorted(r.value[2 + |SortedSet(Filter(AllColumns(rows), "ha_"))|..])
    ensures r.Success? && RowsOk(rows) ==>
              forall i, k :: 0 <= i < |rows| && k in Keys(rows[i].1) ==> k in r.value
  {
    if rows == [] then Failure("StopIteration")
    else
      var columns := AllColumns(rows);
      var ha := SortedSet(Filter(columns, "ha_"));
      var rf := SortedSet(Filter(columns, "rf_"));
      HeaderLayout(ha, rf);
      Success(BaseHeaders + ha + rf)
  }

  /** With the corrected header every column of every row is written: each
      value of each row stands in that row's cells. */
  lemma CorrectedHeaderKeepsColumns(rows: UrlRows, i: int, k: string)
    requires RowsOk(rows) && rows != []
    requires 0 <= i < |rows| && HasKey(rows[i].1, k)
    ensures var headers := HeadersCorrected(rows).value;
            CsvCell(Get(rows[i].1, k).value) in Cells(rows[i].1, headers)
  {
    var headers := HeadersCorrected(rows).value;
    HasKeyInKeys(rows[i].1, k);
    assert k in Keys(rows[i].1);
    assert HeadersCorrected(rows).Success?;
    assert k in headers;
    var j :| 0 <= j < |headers| && headers[j] == k;
    assert Cells(rows[i].1, headers)[j] == CsvCell(Get(rows[i].1, k).value);
  }

  /** `_generate_results` and `_write_results` with the corrected header. */
  function GenerateResultsCorrected(records: seq<Record>, fetch: Fetch, clock: Clock, existing: seq<ReportRow>): (r: Result<Table, string>)
    ensures r.Failure? <==> Aggregate(records, fetch, clock) == []
    ensures r.Success? ==> |r.value.rows| == |existing| + |Aggregate(records, fetch, clock)|
    ensures r.Success? ==>
              var rows := Aggregate(records, fetch, clock);
              && HeadersCorrected(rows).Success?
              && r.value.header == HeadersCorrected(rows).value
              && (forall i :: 0 <= i < |existing| ==> r.value.rows[i] == Cells(existing[i], r.value.header))
              && (forall k :: 0 <= k < |rows| ==> r.value.rows[|existing| + k] == Cells(rows[k].1, r.value.header))
    ensures r.Success? ==>
              var rows := Aggregate(records, fetch, clock);
              forall i, k :: 0 <= i < |rows| && k in Keys(rows[i].1) ==> k in r.value.header
  {
    var rows := Aggregate(records, fetch, clock);
    var headers :- HeadersCorrected(rows);
    Success(WriteResults(existing, Dicts.Values(rows), headers))
  }
}
