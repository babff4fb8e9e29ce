/** What the report holds. Each aggregation loop is a sequence of
    contributions, one per record that adds columns to its URL's row; the
    rows gathered from them are stated against those contributions: one row
    per URL in order of first contribution, stamped when it was created, and
    under each engine column the last value written for its URL. */
module ReportContents {
  import opened Wrappers
  import opened Dicts
  import opened Values
  import opened Strings
  import opened Ledger
  import opened Extraction
  import opened Report

  /** A record that adds columns: its URL and the columns. */
  type Contribution = (string, Dict<Value>)

  /** The contributions of one aggregation loop, in record order. */
  function Contributions(records: seq<Record>, engine: string, fetch: Fetch): (cs: seq<Contribution>)
    ensures forall i :: 0 <= i < |cs| ==> ColumnsOk(cs[i].1)
    decreases |records|
  {
    if records == [] then []
    else
      var front := Contributions(records[..|records| - 1], engine, fetch);
      var last := records[|records| - 1];
      if Contributes(last, engine, fetch) then
        ScanDataColumns(last, engine, fetch);
        front + [(last.url, ScanData(last, engine, fetch).value)]
      else front
  }

  /** `Put` of every contribution, in order. */
  function Gather(rows: UrlRows, cs: seq<Contribution>, clock: Clock): UrlRows
    decreases |cs|
  {
    if cs == [] then rows
    else Put(Gather(rows, cs[..|cs| - 1], clock), cs[|cs| - 1].0, cs[|cs| - 1].1, clock)
  }

  /** An aggregation loop stores its contributions one after the other. */
  lemma {:induction false} EnginePassGathers(rows: UrlRows, records: seq<Record>, engine: string, fetch: Fetch, clock: Clock)
    ensures EnginePass(rows, records, engine, fetch, clock) == Gather(rows, Contributions(records, engine, fetch), clock)
    decreases |records|
  {
    if records != [] {
      var front := records[..|records| - 1];
      var last := records[|records| - 1];
      EnginePassGathers(rows, front, engine, fetch, clock);
      if Contributes(last, engine, fetch) {
        var cs := Contributions(records, engine, fetch);
        assert cs[..|cs| - 1] == Contributions(front, engine, fetch);
      }
    }
  }

  lemma GatherSnoc(rows: UrlRows, cs: seq<Contribution>, c: Contribution, clock: Clock)
    ensures Gather(rows, cs + [c], clock) == Put(Gather(rows, cs, clock), c.0, c.1, clock)
  {
    var d := cs + [c];
    assert d != [] && d[..|d| - 1] == cs && d[|d| - 1] == c;
  }

  lemma {:induction false} GatherAppend(rows: UrlRows, a: seq<Contribution>, b: seq<Contribution>, clock: Clock)
    ensures Gather(Gather(rows, a, clock), b, clock) == Gather(rows, a + b, clock)
    decreases |b|
  {
    if b == [] {
      assert a + b == a;
    } else {
      var front, c := b[..|b| - 1], b[|b| - 1];
      assert b == front + [c];
      assert a + b == (a + front) + [c];
      GatherAppend(rows, a, front, clock);
      GatherSnoc(rows, a + front, c, clock);
      GatherSnoc(Gather(rows, a, clock), front, c, clock);
    }
  }

  /** The URL of each contribution, in order. */
  function ContributionUrls(cs: seq<Contribution>): (us: seq<string>)
    ensures |us| == |cs|
    ensures forall i :: 0 <= i < |cs| ==> us[i] == cs[i].0
  {
    seq(|cs|, i requires 0 <= i < |cs| => cs[i].0)
  }

  lemma ContributionUrlsSnoc(cs: seq<Contribution>, c: Contribution)
    ensures ContributionUrls(cs + [c]) == ContributionUrls(cs) + [c.0]
  {
  }

  /** Every column written for `url`, in order: the reference the rows are
      stated against. Looking a column up in it finds the last value
      written under that column. */
  function Written(cs: seq<Contribution>, url: string): Dict<Value>
    decreases |cs|
  {
    if cs == [] then []
    else
      var last := cs[|cs| - 1];
      Written(cs[..|cs| - 1], url) + (if last.0 == url then last.1 else [])
  }

  lemma WrittenSnoc(cs: seq<Contribution>, c: Contribution, url: string)
    ensures Written(cs + [c], url) == Written(cs, url) + (if c.0 == url then c.1 else [])
  {
    var d := cs + [c];
    assert d[..|d| - 1] == cs && d[|d| - 1] == c;
  }

  /** Nothing is written for a URL no contribution names. */
  lemma {:induction false} WrittenElsewhere(cs: seq<Contribution>, url: string)
    requires url !in ContributionUrls(cs)
    ensures Written(cs, url) == []
    decreases |cs|
  {
    if cs != [] {
      var front := cs[..|cs| - 1];
      assert ContributionUrls(cs) == ContributionUrls(front) + [cs[|cs| - 1].0];
      WrittenElsewhere(front, url);
    }
  }

  /** The row of `url` carries the stamp read when it was created, the
      clock's reading at the row's position. */
  predicate Stamped(rows: UrlRows, url: string, clock: Clock)
    requires HasKey(rows, url)
  {
    Get(Get(rows, url).value, "generated_at") == Some(VInt(clock(IndexOf(rows, url))))
  }

  /** The row of `url` holds, under each engine column, the last value
      written for that URL. */
  predicate Holds(rows: UrlRows, url: string, cs: seq<Contribution>, k: string)
    requires HasKey(rows, url)
  {
    Get(Get(rows, url).value, k) == Get(Written(cs, url), k)
  }

  /** What the gathered rows hold after some contributions. */
  ghost predicate Gathered(rows: UrlRows, cs: seq<Contribution>, clock: Clock) {
    && RowsOk(rows)
    && Keys(rows) == FirstSeen(ContributionUrls(cs))
    && (forall u :: HasKey(rows, u) ==> Stamped(rows, u, clock))
    && (forall u, k :: HasKey(rows, u) && EngineColumn(k) ==> Holds(rows, u, cs, k))
  }

  /** One more contribution: the URLs. */
  lemma GatherStepKeys(rows: UrlRows, cs: seq<Contribution>, url: string, data: Dict<Value>, clock: Clock)
    requires Keys(rows) == FirstSeen(ContributionUrls(cs))
    ensures Keys(Put(rows, url, data, clock)) == FirstSeen(ContributionUrls(cs + [(url, data)]))
  {
    ContributionUrlsSnoc(cs, (url, data));
    FirstSeenSnoc(ContributionUrls(cs), url);
    HasKeyInKeys(rows, url);
  }

  /** One more contribution: the stamps. */
  lemma GatherStepStamps(rows: UrlRows, url: string, data: Dict<Value>, clock: Clock)
    requires RowsOk(rows) && ColumnsOk(data)
    requires forall u :: HasKey(rows, u) ==> Stamped(rows, u, clock)
    ensures var rows' := Put(rows, url, data, clock);
            forall u :: HasKey(rows', u) ==> Stamped(rows', u, clock)
  {
    var rows' := Put(rows, url, data, clock);
    forall u | HasKey(rows', u)
      ensures Stamped(rows', u, clock)
    {
      GatherStepStamp(rows, url, data, clock, u);
    }
  }

  /** One more contribution: the stamp of one URL. */
  lemma GatherStepStamp(rows: UrlRows, url: string, data: Dict<Value>, clock: Clock, u: string)
    requires RowsOk(rows) && ColumnsOk(data)
    requires HasKey(rows, u) ==> Stamped(rows, u, clock)
    requires HasKey(Put(rows, url, data, clock), u)
    ensures Stamped(Put(rows, url, data, clock), u, clock)
  {
    BaseNotEngineColumn();
    HasKeyInKeys(data, "generated_at");
    if HasKey(rows, u) {
      StampKept(rows, url, data, clock, u);
    } else {
      StampNew(rows, url, data, clock);
    }
  }

  /** A URL already present keeps its stamp and its position. */
  lemma StampKept(rows: UrlRows, url: string, data: Dict<Value>, clock: Clock, u: string)
    requires !HasKey(data, "generated_at")
    requires HasKey(rows, u) && Stamped(rows, u, clock)
    ensures HasKey(Put(rows, url, data, clock), u)
    ensures Stamped(Put(rows, url, data, clock), u, clock)
  {
    var rows' := Put(rows, url, data, clock);
    assert Get(Get(rows', u).value, "generated_at") == Get(Get(rows, u).value, "generated_at");
    if HasKey(rows, url) {
      IndexOfSameKeys(rows', rows, u);
    } else {
      IndexOfAppended(rows, rows', url, u);
    }
  }

  /** A new URL is stamped with the clock's reading at its position. */
  lemma StampNew(rows: UrlRows, url: string, data: Dict<Value>, clock: Clock)
    requires !HasKey(data, "generated_at")
    requires !HasKey(rows, url)
    ensures HasKey(Put(rows, url, data, clock), url)
    ensures Stamped(Put(rows, url, data, clock), url, clock)
  {
    var rows' := Put(rows, url, data, clock);
    assert Get(Get(rows', url).value, "generated_at") == Get(NewRow(url, clock(|rows|)), "generated_at");
    IndexOfAppended(rows, rows', url, url);
  }

  /** One more contribution: the cells of its own URL. */
  lemma GatherStepSame(rows: UrlRows, cs: seq<Contribution>, url: string, data: Dict<Value>, clock: Clock, k: string)
    requires EngineColumn(k)
    requires Keys(rows) == FirstSeen(ContributionUrls(cs))
    requires HasKey(rows, url) ==> Holds(rows, url, cs, k)
    ensures HasKey(Put(rows, url, data, clock), url)
    ensures Holds(Put(rows, url, data, clock), url, cs + [(url, data)], k)
  {
    WrittenSnoc(cs, (url, data), url);
    GetAppend(Written(cs, url), data, k);
    if !HasKey(rows, url) {
      HasKeyInKeys(rows, url);
      WrittenElsewhere(cs, url);
      BaseNotEngineColumn();
      HasKeyInKeys(NewRow(url, clock(|rows|)), k);
    }
  }

  /** One more contribution: the cells of every other URL. */
  lemma GatherStepOther(rows: UrlRows, cs: seq<Contribution>, url: string, data: Dict<Value>, clock: Clock, u: string, k: string)
    requires u != url && HasKey(rows, u) && Holds(rows, u, cs, k)
    ensures HasKey(Put(rows, url, data, clock), u)
    ensures Holds(Put(rows, url, data, clock), u, cs + [(url, data)], k)
  {
    WrittenSnoc(cs, (url, data), u);
    assert Written(cs + [(url, data)], u) == Written(cs, u) + [];
    assert Written(cs + [(url, data)], u) == Written(cs, u);
    assert Get(Put(rows, url, data, clock), u) == Get(rows, u);
  }

  /** Gathering contributions from no rows at all leaves one row per URL in
      order of first contribution, each stamped when it was created and
      holding the last value written under each of its engine columns. */
  lemma {:induction false} GatherRows(cs: seq<Contribution>, clock: Clock)
    requires forall i :: 0 <= i < |cs| ==> ColumnsOk(cs[i].1)
    ensures Gathered(Gather([], cs, clock), cs, clock)
    decreases |cs|
  {
    if cs != [] {
      var front := cs[..|cs| - 1];
      var url, data := cs[|cs| - 1].0, cs[|cs| - 1].1;
      var rows := Gather([], front, clock);
      SplitLast(cs);
      forall i | 0 <= i < |front|
        ensures ColumnsOk(front[i].1)
      {
        assert front[i] == cs[i];
      }
      GatherRows(front, clock);
      GatherStep(rows, front, url, data, clock);
      GatherSnoc([], front, (url, data), clock);
    }
  }

  /** One more contribution keeps the rows gathered. */
  lemma GatherStep(rows: UrlRows, cs: seq<Contribution>, url: string, data: Dict<Value>, clock: Clock)
    requires Gathered(rows, cs, clock) && ColumnsOk(data)
    ensures Gathered(Put(rows, url, data, clock), cs + [(url, data)], clock)
  {
    GatherStepKeys(rows, cs, url, data, clock);
    GatherStepStamps(rows, url, data, clock);
    forall u, k | HasKey(Put(rows, url, data, clock), u) && EngineColumn(k)
      ensures Holds(Put(rows, url, data, clock), u, cs + [(url, data)], k)
    {
      if u == url {
        GatherStepSame(rows, cs, url, data, clock, k);
      } else {
        GatherStepOther(rows, cs, url, data, clock, u, k);
      }
    }
  }

  /** The contributions of both loops, RecordedFuture's first. */
  function AllContributions(records: seq<Record>, fetch: Fetch): seq<Contribution> {
    Contributions(records, "RecordedFuture", fetch) + Contributions(records, "HybridAnalysis", fetch)
  }

  /** `url_results` after both loops: one row per URL in the order URLs
      first contributed, RecordedFuture's loop before HybridAnalysis's; the
      i-th row stamped with the clock's i-th reading; and under each engine
      column the value the last record contributing to that URL wrote there. */
  lemma AggregateRows(records: seq<Record>, fetch: Fetch, clock: Clock)
    ensures var rows := Aggregate(records, fetch, clock);
            var cs := AllContributions(records, fetch);
            && Keys(rows) == FirstSeen(ContributionUrls(cs))
            && (forall i :: 0 <= i < |rows| ==> Get(rows[i].1, "generated_at") == Some(VInt(clock(i))))
            && (forall i, k :: 0 <= i < |rows| && EngineColumn(k) ==> Get(rows[i].1, k) == Get(Written(cs, rows[i].0), k))
  {
    var rows := Aggregate(records, fetch, clock);
    var cs := AllContributions(records, fetch);
    AggregateGathered(records, fetch, clock);
    forall i | 0 <= i < |rows|
      ensures Get(rows[i].1, "generated_at") == Some(VInt(clock(i)))
    {
      GetAt(rows, i);
      IndexOfAt(rows, i);
      assert Stamped(rows, rows[i].0, clock);
    }
    forall i, k | 0 <= i < |rows| && EngineColumn(k)
      ensures Get(rows[i].1, k) == Get(Written(cs, rows[i].0), k)
    {
      GetAt(rows, i);
      assert Holds(rows, rows[i].0, cs, k);
    }
  }

  /** Both loops together gather all the contributions from no rows. */
  lemma AggregateGathered(records: seq<Record>, fetch: Fetch, clock: Clock)
    ensures Gathered(Aggregate(records, fetch, clock), AllContributions(records, fetch), clock)
  {
    var rf := Contributions(records, "RecordedFuture", fetch);
    var ha := Contributions(records, "HybridAnalysis", fetch);
    EnginePassGathers([], records, "RecordedFuture", fetch, clock);
    EnginePassGathers(Gather([], rf, clock), records, "HybridAnalysis", fetch, clock);
    GatherAppend([], rf, ha, clock);
    ConcatColumnsOk(rf, ha);
    GatherRows(rf + ha, clock);
  }

  lemma ConcatColumnsOk(a: seq<Contribution>, b: seq<Contribution>)
    requires forall i :: 0 <= i < |a| ==> ColumnsOk(a[i].1)
    requires forall i :: 0 <= i < |b| ==> ColumnsOk(b[i].1)
    ensures forall i :: 0 <= i < |a + b| ==> ColumnsOk((a + b)[i].1)
  {
    forall i | 0 <= i < |a + b|
      ensures ColumnsOk((a + b)[i].1)
    {
      if i >= |a| {
        assert (a + b)[i] == b[i - |a|];
      }
    }
  }

  // ---------------------------------------------------------------------
  // The header of the first row, as written
  // ---------------------------------------------------------------------

  /** Two completed records: URL "a" scanned by RecordedFuture, URL "b" by
      HybridAnalysis. */
  const ExampleRecords: seq<Record> :=
    [Record("RecordedFuture", "a", VStr("r1"), VBool(true)), Record("HybridAnalysis", "b", VStr("h1"), VBool(true))]

  /** RecordedFuture answers with no task at all ... */
  const RecordedFutureAnswer: Value := VDict([("tasks", VDict([]))])

  /** ... and HybridAnalysis with one scanner's verdict. */
  const HybridAnalysisAnswer: Value := VDict([("scanners_v2", VDict([("crowdstrike", VStr("malicious"))]))])

  function ExampleFetch(engine: string, scanId: Value): Outcome {
    if engine == "RecordedFuture" then Returned(RecordedFutureAnswer) else Returned(HybridAnalysisAnswer)
  }

  function ZeroClock(n: nat): int {
    0
  }

  /** The RecordedFuture loop: record "a" brings the six "No results"
      columns of an answer without tasks. */
  lemma ExampleRecordedFuture()
    ensures Contributions(ExampleRecords, "RecordedFuture", ExampleFetch) == [("a", NoTaskColumns())]
  {
    var ra := ExampleRecords[0];
    assert ExampleRecords[..1] == [ra] && [ra][..0] == [];
    assert Get(RecordedFutureAnswer.entries, "tasks") == Some(VDict([]));
    assert FromItems<Value>([]) == [];
    assert ScanData(ra, "RecordedFuture", ExampleFetch) == Some(NoTaskColumns());
  }

  /** The HybridAnalysis loop: record "b" brings the scanner's column. */
  lemma ExampleHybridAnalysis()
    ensures ExtractHybridAnalysis(HybridAnalysisAnswer).Success?
    ensures Contributions(ExampleRecords, "HybridAnalysis", ExampleFetch) ==
              [("b", ExtractHybridAnalysis(HybridAnalysisAnswer).value)]
  {
    var ra := ExampleRecords[0];
    assert ExampleRecords[..1] == [ra] && [ra][..0] == [];
    assert Get(HybridAnalysisAnswer.entries, "scanners_v2").Some?;
  }

  /** Each record contributes once, in its own engine's loop. */
  lemma ExampleContributions()
    ensures ExtractHybridAnalysis(HybridAnalysisAnswer).Success?
    ensures AllContributions(ExampleRecords, ExampleFetch) ==
              [("a", NoTaskColumns()), ("b", ExtractHybridAnalysis(HybridAnalysisAnswer).value)]
  {
    ExampleRecordedFuture();
    ExampleHybridAnalysis();
    assert [("a", NoTaskColumns())] + [("b", ExtractHybridAnalysis(HybridAnalysisAnswer).value)] ==
           [("a", NoTaskColumns()), ("b", ExtractHybridAnalysis(HybridAnalysisAnswer).value)];
  }

  /** Two contributions for two URLs: one row each, in that order, each
      holding its own contribution's engine columns. */
  lemma TwoUrlsGathered(rows: UrlRows, rf: Dict<Value>, ha: Dict<Value>, clock: Clock)
    requires Gathered(rows, [("a", rf), ("b", ha)], clock)
    ensures RowsOk(rows) && Keys(rows) == ["a", "b"]
    ensures forall k :: EngineColumn(k) ==> Get(rows[0].1, k) == Get(rf, k)
    ensures forall k :: EngineColumn(k) ==> Get(rows[1].1, k) == Get(ha, k)
    ensures Get(rows[1].1, "generated_at") == Some(VInt(clock(1)))
  {
    var cs := [("a", rf), ("b", ha)];
    TwoUrls(rf, ha);
    TwoWritten(rf, ha);
    GetAt(rows, 0);
    GetAt(rows, 1);
    IndexOfAt(rows, 1);
    assert Stamped(rows, "b", clock);
    forall k | EngineColumn(k)
      ensures Get(rows[0].1, k) == Get(rf, k) && Get(rows[1].1, k) == Get(ha, k)
    {
      assert Holds(rows, "a", cs, k) && Holds(rows, "b", cs, k);
    }
  }

  lemma TwoUrls(rf: Dict<Value>, ha: Dict<Value>)
    ensures FirstSeen(ContributionUrls([("a", rf), ("b", ha)])) == ["a", "b"]
  {
    assert ContributionUrls([("a", rf), ("b", ha)]) == ["a", "b"];
    FirstSeenSnoc([], "a");
    FirstSeenSnoc(["a"], "b");
    assert [] + ["a"] == ["a"] && ["a"] + ["b"] == ["a", "b"];
  }

  lemma TwoWritten(rf: Dict<Value>, ha: Dict<Value>)
    ensures Written([("a", rf), ("b", ha)], "a") == rf
    ensures Written([("a", rf), ("b", ha)], "b") == ha
  {
    assert [] + [("a", rf)] == [("a", rf)] && [("a", rf)] + [("b", ha)] == [("a", rf), ("b", ha)];
    WrittenSnoc([], ("a", rf), "a");
    WrittenSnoc([("a", rf)], ("b", ha), "a");
    WrittenSnoc([], ("a", rf), "b");
    WrittenSnoc([("a", rf)], ("b", ha), "b");
  }

  /** No key starts with both engine prefixes. */
  lemma PrefixesDisjoint(k: string)
    ensures !(StartsWith(k, "ha_") && StartsWith(k, "rf_"))
  {
    if StartsWith(k, "ha_") && StartsWith(k, "rf_") {
      StartsWithFirst(k, "ha_");
      StartsWithFirst(k, "rf_");
    }
  }

  /** A first row whose engine columns are all RecordedFuture ones gives a
      header of the two base columns followed by `rf_` columns only. */
  lemma HeaderOfRecordedFutureRow(rows: UrlRows, rf: Dict<Value>)
    requires RowsOk(rows) && rows != []
    requires forall k :: k in Keys(rf) ==> StartsWith(k, "rf_")
    requires forall k :: EngineColumn(k) ==> Get(rows[0].1, k) == Get(rf, k)
    ensures Headers(rows).Success?
    ensures var header := Headers(rows).value;
            && |header| >= 2 && header[..2] == BaseHeaders
            && (forall j :: 2 <= j < |header| ==> StartsWith(header[j], "rf_"))
            && (forall k :: StartsWith(k, "ha_") ==> k !in header)
  {
    var first := Keys(rows[0].1);
    if Filter(first, "ha_") != [] {
      var k := Filter(first, "ha_")[0];
      assert k in first && StartsWith(k, "ha_");
      HasKeyInKeys(rows[0].1, k);
      HasKeyInKeys(rf, k);
      PrefixesDisjoint(k);
      assert false;
    }
    var header := Headers(rows).value;
    forall j | 2 <= j < |header|
      ensures StartsWith(header[j], "rf_")
    {
      assert header[j] in header[2 + |Filter(first, "ha_")|..];
    }
    BaseNotEngineColumn();
    forall k | StartsWith(k, "ha_")
      ensures k !in header
    {
      PrefixesDisjoint(k);
      forall j | 0 <= j < |header|
        ensures header[j] != k
      {
        if j < 2 {
          assert header[j] == BaseHeaders[j];
        }
      }
    }
  }

  /** Under such a header, a row whose engine columns are all HybridAnalysis
      ones shows its URL, its stamp and "No results" everywhere else. */
  lemma CellsOfHybridAnalysisRow(row: ReportRow, ha: Dict<Value>, header: seq<string>)
    requires RowOk("b", row) && Get(row, "generated_at") == Some(VInt(0))
    requires forall k :: k in Keys(ha) ==> StartsWith(k, "ha_")
    requires forall k :: EngineColumn(k) ==> Get(row, k) == Get(ha, k)
    requires |header| >= 2 && header[..2] == BaseHeaders
    requires forall j :: 2 <= j < |header| ==> StartsWith(header[j], "rf_")
    ensures "malicious" !in Cells(row, header)
  {
    var cells := Cells(row, header);
    forall j | 0 <= j < |cells|
      ensures cells[j] != "malicious"
    {
      if j < 2 {
        BaseCells(row, header, j);
      } else {
        HasKeyInKeys(ha, header[j]);
        PrefixesDisjoint(header[j]);
        assert !HasKey(row, header[j]);
      }
    }
  }

  lemma BaseCells(row: ReportRow, header: seq<string>, j: int)
    requires RowOk("b", row) && Get(row, "generated_at") == Some(VInt(0))
    requires |header| >= 2 && header[..2] == BaseHeaders && 0 <= j < 2
    ensures Cells(row, header)[j] != "malicious"
  {
    assert header[j] == BaseHeaders[j];
    if j == 1 {
      assert Cells(row, header)[1] == NatToString(0);
    }
  }

  /** As written, the header comes from the first URL's row alone: the
      second URL's HybridAnalysis verdict is gathered into its row, but its
      column is not in the header and the verdict is in no cell of the
      report. */
  lemma FirstRowHidesColumns()
    ensures var rows := Aggregate(ExampleRecords, ExampleFetch, ZeroClock);
            var r := GenerateResults(ExampleRecords, ExampleFetch, ZeroClock, []);
            && |rows| == 2 && rows[1].0 == "b"
            && Get(rows[1].1, "ha_crowdstrike") == Some(VStr("malicious"))
            && r.Success? && |r.value.rows| == 2
            && "ha_crowdstrike" !in r.value.header
            && "malicious" !in r.value.rows[1]
  {
    var rows := Aggregate(ExampleRecords, ExampleFetch, ZeroClock);
    var rf := NoTaskColumns();
    var ha := ExtractHybridAnalysis(HybridAnalysisAnswer).value;
    ExampleContributions();
    AggregateGathered(ExampleRecords, ExampleFetch, ZeroClock);
    TwoUrlsGathered(rows, rf, ha, ZeroClock);
    assert rows[0].0 == "a" && rows[1].0 == "b";
    HybridVerdict();
    HeaderOfRecordedFutureRow(rows, rf);
    StartsWithAppend("ha_", "crowdstrike");
    assert "ha_crowdstrike" == "ha_" + "crowdstrike";
    CellsOfHybridAnalysisRow(rows[1].1, ha, Headers(rows).value);
  }

  /** The scanner's verdict is under `ha_crowdstrike`. */
  lemma HybridVerdict()
    ensures ExtractHybridAnalysis(HybridAnalysisAnswer).Success?
    ensures Get(ExtractHybridAnalysis(HybridAnalysisAnswer).value, "ha_crowdstrike") == Some(VStr("malicious"))
  {
    var scanners := GetOr(HybridAnalysisAnswer.entries, "scanners_v2", VDict([])).entries;
    assert Get(HybridAnalysisAnswer.entries, "scanners_v2").Some?;
    assert HasKey(scanners, "crowdstrike") && Get(scanners, "crowdstrike").value == VStr("malicious");
    assert "ha_crowdstrike" == "ha_" + "crowdstrike";
  }
}
