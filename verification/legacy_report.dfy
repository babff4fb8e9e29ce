/** The report generator of the original single-file scanner in `main.py`
    (`ResultsFileGenerator.generate`). It reads the control file, fetches
    every job's answer again, lists each answer's (key, status) results, and
    writes one report row per URL under a header holding every column any
    answer produced, sorted. A column a URL has no result for reads "N/A",
    and so does a result whose status is None. */
module LegacyReport {
  import opened Wrappers
  import opened Dicts
  import opened Values
  import opened Strings
  import opened Sorting
  import LL = LegacyLedger
  import R = Report

  const NotAvailable: Value := VStr("N/A")

  /** One element of the generator's `control_urls`: the stripped engine
      name and URL of a control line and the (key, status) results of its
      answer. */
  datatype Scanned = Scanned(source: string, url: string, results: seq<(Value, Value)>)

  // ---------------------------------------------------------------------
  // Reading the answers
  // ---------------------------------------------------------------------

  /** Python's `v[key]` for a string key. */
  function Subscript(v: Value, key: string): (r: Result<Value, string>)
    ensures r.Success? <==> v.VDict? && HasKey(v.entries, key)
    ensures r.Success? ==> r.value == Get(v.entries, key).value
  {
    match v
    case VDict(entries) => if HasKey(entries, key) then Success(Get(entries, key).value) else Failure("'" + key + "'")
    case VList(_) => Failure("list indices must be integers or slices, not str")
    case VStr(_) => Failure("string indices must be integers, not 'str'")
    case _ => Failure("'" + TypeName(v) + "' object is not subscriptable")
  }

  /** What `for element in v` visits: a list's items, a dict's keys, a
      string's characters; any other value is not iterable. */
  function Elements(v: Value): (r: Result<seq<Value>, string>)
    ensures r.Success? <==> v.VList? || v.VDict? || v.VStr?
    ensures v.VList? ==> r == Success(v.items)
    ensures v.VDict? ==> r.Success? && |r.value| == |v.entries| &&
                         forall i :: 0 <= i < |v.entries| ==> r.value[i] == VStr(v.entries[i].0)
    ensures v.VStr? ==> r.Success? && |r.value| == |v.s| &&
                        forall i :: 0 <= i < |v.s| ==> r.value[i] == VStr([v.s[i]])
  {
    match v
    case VList(items) => Success(items)
    case VDict(entries) => Success(seq(|entries|, i requires 0 <= i < |entries| => VStr(entries[i].0)))
    case VStr(s) => Success(seq(|s|, i requires 0 <= i < |s| => VStr([s[i]])))
    case _ => Failure("'" + TypeName(v) + "' object is not iterable")
  }

  /** A RecordedFuture task list: `[element['id'], element['status']]` for
      every element, which must be a dict holding both keys. */
  function TaskResults(elements: seq<Value>): (r: Result<seq<(Value, Value)>, string>)
    ensures r.Success? <==>
              forall i :: 0 <= i < |elements| ==>
                elements[i].VDict? && HasKey(elements[i].entries, "id") && HasKey(elements[i].entries, "status")
    ensures r.Success? ==>
              && |r.value| == |elements|
              && forall i :: 0 <= i < |elements| ==>
                   r.value[i] == (Get(elements[i].entries, "id").value, Get(elements[i].entries, "status").value)
    decreases |elements|
  {
    if elements == [] then Success([])
    else
      var id :- Subscript(elements[0], "id");
      var status :- Subscript(elements[0], "status");
      var rest :- TaskResults(elements[1..]);
      Success([(id, status)] + rest)
  }

  /** A HybridAnalysis scanner dict: `[key, value.get('status')]` for a
      scanner whose value is a dict, `[key, value]` otherwise. */
  function ScannerResults(scanners: Dict<Value>): (r: seq<(Value, Value)>)
    ensures |r| == |scanners|
    ensures forall i :: 0 <= i < |scanners| ==>
              && r[i].0 == VStr(scanners[i].0)
              && r[i].1 == if scanners[i].1.VDict? then GetOr(scanners[i].1.entries, "status", VNone) else scanners[i].1
  {
    seq(|scanners|, i requires 0 <= i < |scanners| =>
      var v := scanners[i].1;
      (VStr(scanners[i].0), if v.VDict? then GetOr(v.entries, "status", VNone) else v))
  }

  /** One control line: unpacked into four fields, its job fetched with the
      client its raw engine field names, and the answer's `tasks` (for
      RecordedFuture) or `scanners_v2` (otherwise) listed. */
  function ReadLine(line: string, fetch: LL.Fetch): (r: Result<Scanned, string>)
    ensures r.Success? ==> LL.ParseLine(line).Success?
    ensures r.Success? ==>
              var c := LL.ParseLine(line).value;
              && r.value.source == Strip(c.engine)
              && r.value.url == Strip(c.url)
              && LL.Answer(fetch(LL.ClientOf(c.engine), Strip(c.scanId))).Success?
    ensures LL.ParseLine(line).Success? && LL.Answer(fetch(LL.ClientOf(LL.ParseLine(line).value.engine),
                                                             Strip(LL.ParseLine(line).value.scanId))).Success? ==>
              var c := LL.ParseLine(line).value;
              var answer := LL.Answer(fetch(LL.ClientOf(c.engine), Strip(c.scanId))).value;
              && (c.engine != "RecordedFuture" ==>
                    (r.Success? <==> GetOr(answer, "scanners_v2", VNone).VDict?)
                    && (r.Success? ==> r.value.results == ScannerResults(GetOr(answer, "scanners_v2", VNone).entries)))
              && (c.engine == "RecordedFuture" ==>
                    var elements := Elements(GetOr(answer, "tasks", VNone));
                    (r.Success? <==> elements.Success? && TaskResults(elements.value).Success?)
                    && (r.Success? ==> r.value.results == TaskResults(elements.value).value))
  {
    var c :- LL.ParseLine(line);
    var answer :- LL.Answer(fetch(LL.ClientOf(c.engine), Strip(c.scanId)));
    if c.engine == "RecordedFuture" then
      var elements :- Elements(GetOr(answer, "tasks", VNone));
      var results :- TaskResults(elements);
      Success(Scanned(Strip(c.engine), Strip(c.url), results))
    else
      var scanners := GetOr(answer, "scanners_v2", VNone);
      if !scanners.VDict? then Failure(NoAttributeMessage(scanners, "items"))
      else Success(Scanned(Strip(c.engine), Strip(c.url), ScannerResults(scanners.entries)))
  }

  /** The values of a loop whose every step succeeds; the first failing
      step's error otherwise. */
  function AllOk<T>(rs: seq<Result<T, string>>): (r: Result<seq<T>, string>)
    ensures r.Success? <==> forall i :: 0 <= i < |rs| ==> rs[i].Success?
    ensures r.Success? ==> |r.value| == |rs| && forall i :: 0 <= i < |rs| ==> r.value[i] == rs[i].value
    decreases |rs|
  {
    if rs == [] then Success([])
    else
      var x :- rs[0];
      var rest :- AllOk(rs[1..]);
      assert forall i :: 1 <= i < |rs| ==> rs[i] == rs[1..][i - 1];
      Success([x] + rest)
  }

  function ReadResults(lines: seq<string>, fetch: LL.Fetch): (rs: seq<Result<Scanned, string>>)
    ensures |rs| == |lines| && forall i :: 0 <= i < |lines| ==> rs[i] == ReadLine(lines[i], fetch)
  {
    seq(|lines|, i requires 0 <= i < |lines| => ReadLine(lines[i], fetch))
  }

  /** The read loop: every line read in turn; the first that fails stops
      the generator before anything is written. */
  function ReadLines(lines: seq<string>, fetch: LL.Fetch): (r: Result<seq<Scanned>, string>)
    ensures r.Success? <==> forall i :: 0 <= i < |lines| ==> ReadLine(lines[i], fetch).Success?
    ensures r.Success? ==> |r.value| == |lines| &&
                           forall i :: 0 <= i < |lines| ==> r.value[i] == ReadLine(lines[i], fetch).value
  {
    AllOk(ReadResults(lines, fetch))
  }

  // ---------------------------------------------------------------------
  // Columns
  // ---------------------------------------------------------------------

  /** `engines_prefixes_map.get(source, source[:2].lower())`. */
  function Prefix(source: string): string {
    if source == "HybridAnalysis" then "ha"
    else if source == "RecordedFuture" then "rf"
    else Lower(source[..if |source| < 2 then |source| else 2])
  }

  /** The report column of a result key. */
  function Column(source: string, key: Value): string {
    Prefix(source) + "_" + Str(key)
  }

  /** The cell value of a result: None shows as "N/A". */
  function Shown(v: Value): (c: Value)
    ensures c != VNone
    ensures v != VNone ==> c == v
  {
    if v == VNone then NotAvailable else v
  }

  /** The cells one element stores into its URL's row, in order. */
  function Writes(s: Scanned): (w: Dict<Value>)
    ensures |w| == |s.results|
    ensures forall i :: 0 <= i < |s.results| ==> w[i] == (Column(s.source, s.results[i].0), Shown(s.results[i].1))
  {
    seq(|s.results|, i requires 0 <= i < |s.results| => (Column(s.source, s.results[i].0), Shown(s.results[i].1)))
  }

  /** Every column the elements produce, with repetitions, in order. */
  function AllColumns(scanned: seq<Scanned>): (cs: seq<string>)
    ensures forall c :: c in cs <==> exists i :: 0 <= i < |scanned| && c in Keys(Writes(scanned[i]))
    decreases |scanned|
  {
    if scanned == [] then []
    else
      var front := scanned[..|scanned| - 1];
      var rest := AllColumns(front);
      assert forall i :: 0 <= i < |front| ==> front[i] == scanned[i];
      rest + Keys(Writes(scanned[|scanned| - 1]))
  }

  /** `csv_dynamic_headers`: the distinct columns, sorted. */
  function DynamicHeaders(scanned: seq<Scanned>): (dyn: seq<string>)
    ensures StrictlySorted(dyn)
    ensures forall c :: c in dyn <==> exists i :: 0 <= i < |scanned| && c in Keys(Writes(scanned[i]))
  {
    SortedSet(AllColumns(scanned))
  }

  // ---------------------------------------------------------------------
  // Rows
  // ---------------------------------------------------------------------

  /** `{col: "N/A" for col in csv_dynamic_headers}`. */
  function FreshRow(dyn: seq<string>): (row: Dict<Value>)
    ensures forall c :: Get(row, c) == if c in dyn then Some(NotAvailable) else None
  {
    var row := seq(|dyn|, j requires 0 <= j < |dyn| => (dyn[j], NotAvailable));
    forall c
      ensures Get(row, c) == if c in dyn then Some(NotAvailable) else None
    {
      HasKeyInKeys(row, c);
      assert Keys(row) == dyn;
    }
    row
  }

  /** One turn of the row loop: the URL's row, created if it is new, takes
      the element's cells. */
  function AddScanned(rows: Dict<Dict<Value>>, s: Scanned, dyn: seq<string>): Dict<Dict<Value>> {
    var row := if HasKey(rows, s.url) then Get(rows, s.url).value else FreshRow(dyn);
    Set(rows, s.url, Update(row, Writes(s)))
  }

  /** `urls_dict` after the row loop. */
  function Rows(scanned: seq<Scanned>, dyn: seq<string>): Dict<Dict<Value>>
    decreases |scanned|
  {
    if scanned == [] then []
    else AddScanned(Rows(scanned[..|scanned| - 1], dyn), scanned[|scanned| - 1], dyn)
  }

  function Urls(scanned: seq<Scanned>): (us: seq<string>)
    ensures |us| == |scanned|
    ensures forall i :: 0 <= i < |scanned| ==> us[i] == scanned[i].url
  {
    seq(|scanned|, i requires 0 <= i < |scanned| => scanned[i].url)
  }

  /** Every cell stored for `url`, in order: the reference the rows are
      stated against. */
  function UrlWrites(scanned: seq<Scanned>, url: string): Dict<Value>
    decreases |scanned|
  {
    if scanned == [] then []
    else
      var last := scanned[|scanned| - 1];
      UrlWrites(scanned[..|scanned| - 1], url) + (if last.url == url then Writes(last) else [])
  }

  /** The row loop keeps one row per URL, in order of first appearance. */
  lemma {:induction false} RowsKeys(scanned: seq<Scanned>, dyn: seq<string>)
    ensures Wf(Rows(scanned, dyn))
    ensures Keys(Rows(scanned, dyn)) == FirstSeen(Urls(scanned))
    decreases |scanned|
  {
    if scanned != [] {
      var front := scanned[..|scanned| - 1];
      RowsKeys(front, dyn);
      assert Urls(scanned)[..|scanned| - 1] == Urls(front);
      HasKeyInKeys(Rows(front, dyn), scanned[|scanned| - 1].url);
    }
  }

  /** A row agrees with the cells `w` stored into it when each column holds
      the last value stored under it, or "N/A" for a header column that
      received none. */
  predicate Agrees(row: Dict<Value>, w: Dict<Value>, dyn: seq<string>, c: string) {
    Get(row, c) == if HasKey(w, c) then Get(w, c) else if c in dyn then Some(NotAvailable) else None
  }

  /** An element's turn of the row loop leaves its URL's row agreeing with
      everything stored for that URL so far. */
  lemma AddScannedSame(rows: Dict<Dict<Value>>, s: Scanned, dyn: seq<string>, uw: Dict<Value>, c: string)
    requires HasKey(rows, s.url) ==> Agrees(Get(rows, s.url).value, uw, dyn, c)
    requires !HasKey(rows, s.url) ==> uw == []
    ensures HasKey(AddScanned(rows, s, dyn), s.url)
    ensures Agrees(Get(AddScanned(rows, s, dyn), s.url).value, uw + Writes(s), dyn, c)
  {
    var row := if HasKey(rows, s.url) then Get(rows, s.url).value else FreshRow(dyn);
    var w := Writes(s);
    assert Agrees(row, uw, dyn, c) by {
      if !HasKey(rows, s.url) {
        assert !HasKey(uw, c);
      }
    }
    GetAppend(uw, w, c);
    assert HasKey(uw + w, c) <==> HasKey(w, c) || HasKey(uw, c);
  }

  /** An element's turn of the row loop leaves the other URLs' rows alone. */
  lemma AddScannedOther(rows: Dict<Dict<Value>>, s: Scanned, dyn: seq<string>, url: string)
    requires url != s.url
    ensures Get(AddScanned(rows, s, dyn), url) == Get(rows, url)
  {
  }

  /** The row loop has a row for exactly the URLs some element names. */
  lemma RowsHasKey(scanned: seq<Scanned>, dyn: seq<string>, url: string)
    ensures HasKey(Rows(scanned, dyn), url) <==> url in Urls(scanned)
  {
    RowsKeys(scanned, dyn);
    HasKeyInKeys(Rows(scanned, dyn), url);
  }

  /** The last element's turn, for the last element's own URL. */
  lemma RowsLastSame(scanned: seq<Scanned>, dyn: seq<string>, c: string)
    requires |scanned| > 0
    requires var front := scanned[..|scanned| - 1];
             var url := scanned[|scanned| - 1].url;
             && (HasKey(Rows(front, dyn), url) ==> Agrees(Get(Rows(front, dyn), url).value, UrlWrites(front, url), dyn, c))
             && (!HasKey(Rows(front, dyn), url) ==> UrlWrites(front, url) == [])
    ensures var url := scanned[|scanned| - 1].url;
            HasKey(Rows(scanned, dyn), url) && Agrees(Get(Rows(scanned, dyn), url).value, UrlWrites(scanned, url), dyn, c)
  {
    var front := scanned[..|scanned| - 1];
    var last := scanned[|scanned| - 1];
    assert Rows(scanned, dyn) == AddScanned(Rows(front, dyn), last, dyn);
    assert UrlWrites(scanned, last.url) == UrlWrites(front, last.url) + Writes(last);
    AddScannedSame(Rows(front, dyn), last, dyn, UrlWrites(front, last.url), c);
  }

  /** The last element's turn, for any other URL. */
  lemma RowsLastOther(scanned: seq<Scanned>, dyn: seq<string>, url: string)
    requires |scanned| > 0 && scanned[|scanned| - 1].url != url
    ensures var front := scanned[..|scanned| - 1];
            Get(Rows(scanned, dyn), url) == Get(Rows(front, dyn), url) && UrlWrites(scanned, url) == UrlWrites(front, url)
  {
    var front := scanned[..|scanned| - 1];
    var last := scanned[|scanned| - 1];
    assert Rows(scanned, dyn) == AddScanned(Rows(front, dyn), last, dyn);
    AddScannedOther(Rows(front, dyn), last, dyn, url);
    assert UrlWrites(scanned, url) == UrlWrites(front, url) + [];
  }

  /** Every cell of a URL's row is the last cell stored for that URL under
      its column, or "N/A" for a column of the header that received none. */
  lemma {:induction false} RowsCells(scanned: seq<Scanned>, dyn: seq<string>, url: string, c: string)
    requires url in Urls(scanned)
    ensures HasKey(Rows(scanned, dyn), url)
    ensures Agrees(Get(Rows(scanned, dyn), url).value, UrlWrites(scanned, url), dyn, c)
    decreases |scanned|
  {
    var front := scanned[..|scanned| - 1];
    assert Urls(scanned) == Urls(front) + [scanned[|scanned| - 1].url];
    if url in Urls(front) {
      RowsCells(front, dyn, url, c);
    } else {
      RowsHasKey(front, dyn, url);
      UrlWritesElsewhere(front, url);
    }
    if scanned[|scanned| - 1].url == url {
      RowsLastSame(scanned, dyn, c);
    } else {
      RowsLastOther(scanned, dyn, url);
    }
  }

  /** A URL no element names has no cells stored. */
  lemma {:induction false} UrlWritesElsewhere(scanned: seq<Scanned>, url: string)
    requires url !in Urls(scanned)
    ensures UrlWrites(scanned, url) == []
    decreases |scanned|
  {
    if scanned != [] {
      var front := scanned[..|scanned| - 1];
      assert Urls(scanned) == Urls(front) + [scanned[|scanned| - 1].url];
      UrlWritesElsewhere(front, url);
    }
  }

  // ---------------------------------------------------------------------
  // The report
  // ---------------------------------------------------------------------

  /** `[url] + [values[col] for col in csv_dynamic_headers] + [timestamp]`. */
  function ReportRow(url: string, row: Dict<Value>, dyn: seq<string>, stamp: string): (cells: seq<string>)
    ensures |cells| == |dyn| + 2
    ensures cells[0] == url && cells[|dyn| + 1] == stamp
    ensures forall j :: 0 <= j < |dyn| ==> cells[1 + j] == CsvCell(GetOr(row, dyn[j], NotAvailable))
  {
    [url] + seq(|dyn|, j requires 0 <= j < |dyn| => CsvCell(GetOr(row, dyn[j], NotAvailable))) + [stamp]
  }

  /** The report written for the elements read: the header and one row
      per URL, each with the timestamp taken for it. */
  function Report(scanned: seq<Scanned>, stamp: nat -> string): R.Table {
    var dyn := DynamicHeaders(scanned);
    var rows := Rows(scanned, dyn);
    R.Table(["url"] + dyn + ["generated_at"],
            seq(|rows|, k requires 0 <= k < |rows| => ReportRow(rows[k].0, rows[k].1, dyn, stamp(k))))
  }

  /** `generate()`: the report written for a control file, given the fetch
      oracle and the timestamp taken for each row. A failure means an
      exception escaped before the report was opened. */
  function Generate(control: string, fetch: LL.Fetch, stamp: nat -> string): (r: Result<R.Table, string>)
    ensures r.Success? <==> ReadLines(LL.Lines(control), fetch).Success?
    ensures r.Success? ==> r.value == Report(ReadLines(LL.Lines(control), fetch).value, stamp)
  {
    var scanned :- ReadLines(LL.Lines(control), fetch);
    Success(Report(scanned, stamp))
  }

  /** The report's header is "url", every column some answer produced
      exactly once and in sorted order, and "generated_at"; it has one row
      per URL, in order of first appearance, each opening with its URL and
      closing with its timestamp. */
  lemma ReportShape(scanned: seq<Scanned>, stamp: nat -> string)
    ensures var dyn := DynamicHeaders(scanned);
            var t := Report(scanned, stamp);
            && t.header == ["url"] + dyn + ["generated_at"]
            && StrictlySorted(dyn)
            && (forall c :: c in dyn <==> exists i :: 0 <= i < |scanned| && c in Keys(Writes(scanned[i])))
            && |t.rows| == |FirstSeen(Urls(scanned))|
            && forall k :: 0 <= k < |t.rows| ==>
                 && |t.rows[k]| == |dyn| + 2
                 && t.rows[k][0] == FirstSeen(Urls(scanned))[k]
                 && t.rows[k][|dyn| + 1] == stamp(k)
  {
    var dyn := DynamicHeaders(scanned);
    var rows := Rows(scanned, dyn);
    RowsKeys(scanned, dyn);
    RowsOpenWithKeys(rows, dyn, stamp);
  }

  /** Each report row opens with its URL and closes with its timestamp. */
  lemma RowsOpenWithKeys(rows: Dict<Dict<Value>>, dyn: seq<string>, stamp: nat -> string)
    ensures var t := seq(|rows|, k requires 0 <= k < |rows| => ReportRow(rows[k].0, rows[k].1, dyn, stamp(k)));
            forall k :: 0 <= k < |t| ==>
              && |t[k]| == |dyn| + 2
              && t[k][0] == Keys(rows)[k]
              && t[k][|dyn| + 1] == stamp(k)
  {
    var t := seq(|rows|, k requires 0 <= k < |rows| => ReportRow(rows[k].0, rows[k].1, dyn, stamp(k)));
    forall k | 0 <= k < |t|
      ensures |t[k]| == |dyn| + 2 && t[k][0] == Keys(rows)[k] && t[k][|dyn| + 1] == stamp(k)
    {
      var r := ReportRow(rows[k].0, rows[k].1, dyn, stamp(k));
      assert t[k] == r;
    }
  }

  /** Each cell of a URL's report row is the last value stored for that URL
      under the cell's column, None and missing results showing as "N/A". */
  lemma ReportCell(scanned: seq<Scanned>, stamp: nat -> string, k: nat, j: nat)
    requires k < |FirstSeen(Urls(scanned))| && j < |DynamicHeaders(scanned)|
    ensures var dyn := DynamicHeaders(scanned);
            var w := UrlWrites(scanned, FirstSeen(Urls(scanned))[k]);
            var t := Report(scanned, stamp);
            k < |t.rows| && |t.rows[k]| == |dyn| + 2 &&
            t.rows[k][1 + j] == CsvCell(if HasKey(w, dyn[j]) then Get(w, dyn[j]).value else NotAvailable)
  {
    var dyn := DynamicHeaders(scanned);
    var rows := Rows(scanned, dyn);
    RowsKeys(scanned, dyn);
    var t := Report(scanned, stamp);
    assert t.rows[k] == ReportRow(rows[k].0, rows[k].1, dyn, stamp(k));
    var url := rows[k].0;
    assert url == FirstSeen(Urls(scanned))[k];
    RowsCells(scanned, dyn, url, dyn[j]);
    GetAt(rows, k);
  }
}
