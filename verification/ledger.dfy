/** The job ledger of the refactored URL-file processor: one control record
    per (engine, URL) pair, the control file that persists them, and the
    refresh pass the poller repeats until every record is complete.

    The engine clients are oracles: `Submit` stands for
    `scanner.scan_url(url)` and `Fetch` for
    `scanners[engine].retrieve_scan_results(scan_id)`; each either returns a
    decoded JSON value or raises. Every refresh cycle gets its own `Fetch`,
    since the engines answer differently as time passes. */
module Ledger {
  import opened Wrappers
  import opened Dicts
  import opened Values
  import opened Strings

  /** One control record `[engine, url, scan_id, state]`. */
  datatype Record = Record(engine: string, url: string, scanId: Value, state: Value)

  /** One CSV row, field by field. */
  type Row = seq<string>

  /** What a call into an engine client did. */
  datatype Outcome = Returned(value: Value) | Raised(message: string)

  /** `scan_url` of the client configured under an engine name, given (engine, url). */
  type Submit = (string, string) -> Outcome

  /** `scanners[engine].retrieve_scan_results(scan_id)`, given (engine, scan id);
      an engine name with no configured client raises `KeyError`. */
  type Fetch = (string, Value) -> Outcome

  /** The scan id written for a submission that raised. */
  const ErrorId: Value := VStr("error")

  /** `result.get('completed', result.get('finished', False))`: the
      completion flag of an engine answer, `completed` taking precedence over
      `finished`. Fails as Python does when the answer is not a dict. */
  function Completion(result: Value): (r: Result<Value, string>)
    ensures r.Success? <==> result.VDict?
    ensures result.VDict? && HasKey(result.entries, "completed") ==>
              r.value == Get(result.entries, "completed").value
    ensures result.VDict? && !HasKey(result.entries, "completed") && HasKey(result.entries, "finished") ==>
              r.value == Get(result.entries, "finished").value
    ensures result.VDict? && !HasKey(result.entries, "completed") && !HasKey(result.entries, "finished") ==>
              r.value == VBool(false)
  {
    var finished :- GetAttr(result, "finished", VBool(false));
    GetAttr(result, "completed", finished)
  }

  // ---------------------------------------------------------------------
  // Creating the ledger
  // ---------------------------------------------------------------------

  /** The outcome of submitting one URL to one engine. */
  datatype Submission =
    | Accepted(record: Record)
    | Rejected(engine: string, url: string, message: string)
  {
    function Engine(): string {
      if Accepted? then record.engine else engine
    }

    function Url(): string {
      if Accepted? then record.url else url
    }
  }

  /** The body of the inner loop of `_create_new_control_file`: submit, read
      `id` and the completion flag, and turn any exception into a rejection. */
  function SubmitPair(engine: string, url: string, submit: Submit): (s: Submission)
    ensures s.Engine() == engine && s.Url() == url
    ensures s.Accepted? <==> submit(engine, url).Returned? && submit(engine, url).value.VDict?
    ensures submit(engine, url).Raised? ==> s == Rejected(engine, url, submit(engine, url).message)
    ensures s.Accepted? ==>
              var answer := submit(engine, url).value;
              && s.record.scanId == GetOr(answer.entries, "id", VNone)
              && s.record.state == Completion(answer).value
  {
    match submit(engine, url)
    case Raised(message) => Rejected(engine, url, message)
    case Returned(answer) =>
      match GetAttr(answer, "id", VNone)
      case Failure(message) => Rejected(engine, url, message)
      case Success(id) => Accepted(Record(engine, url, id, Completion(answer).value))
  }

  /** The control-file row of a record, as `csv.writer` writes it. */
  function RecordRow(r: Record): (row: Row)
    ensures |row| == 4 && row[0] == r.engine && row[1] == r.url
  {
    [r.engine, r.url, CsvCell(r.scanId), CsvCell(r.state)]
  }

  /** The control-file row of a submission: the record's row, or
      `[engine, url, "error", message]` for one that raised. */
  function SubmissionRow(s: Submission): (row: Row)
    ensures |row| == 4 && row[0] == s.Engine() && row[1] == s.Url()
    ensures s.Rejected? ==> row[2] == "error" && row[3] == s.message
  {
    match s
    case Accepted(r) => RecordRow(r)
    case Rejected(engine, url, message) => [engine, url, "error", message]
  }

  /** The submissions for one URL, engine by engine. */
  function SubmitUrl(url: string, engines: seq<string>, submit: Submit): (subs: seq<Submission>)
    ensures |subs| == |engines|
    ensures forall e :: 0 <= e < |engines| ==> subs[e] == SubmitPair(engines[e], url, submit)
  {
    if engines == [] then [] else [SubmitPair(engines[0], url, submit)] + SubmitUrl(url, engines[1..], submit)
  }

  /** Every submission, URL by URL and, within a URL, engine by engine. */
  function SubmitAll(urls: seq<string>, engines: seq<string>, submit: Submit): (subs: seq<Submission>)
  {
    if urls == [] then [] else SubmitUrl(urls[0], engines, submit) + SubmitAll(urls[1..], engines, submit)
  }

  /** Where the pair (engines[e], urls[u]) falls in URL-major order. */
  function Slot(u: nat, e: nat, n: nat): nat {
    u * n + e
  }

  lemma MulStep(a: int, n: int)
    ensures a * n == (a - 1) * n + n
  {
  }

  lemma {:induction false} SubmitAllLength(urls: seq<string>, engines: seq<string>, submit: Submit)
    ensures |SubmitAll(urls, engines, submit)| == |urls| * |engines|
  {
    if urls != [] {
      SubmitAllLength(urls[1..], engines, submit);
      MulStep(|urls|, |engines|);
    }
  }

  /** The URL-major order of submission: the pair (engines[e], urls[u]) is
      the `Slot(u, e, |engines|)`-th one submitted. */
  lemma {:induction false} SubmitAllAt(urls: seq<string>, engines: seq<string>, submit: Submit, u: int, e: int)
    requires 0 <= u < |urls| && 0 <= e < |engines|
    ensures 0 <= Slot(u, e, |engines|) < |SubmitAll(urls, engines, submit)|
    ensures SubmitAll(urls, engines, submit)[Slot(u, e, |engines|)] == SubmitPair(engines[e], urls[u], submit)
  {
    SubmitAllLength(urls, engines, submit);
    SlotBelow(u, e, |urls|, |engines|);
    if u > 0 {
      SubmitAllAt(urls[1..], engines, submit, u - 1, e);
      SubmitAllAtStep(urls, engines, submit, u, e);
    } else {
      var head := SubmitUrl(urls[0], engines, submit);
      var tail := SubmitAll(urls[1..], engines, submit);
      assert Slot(u, e, |engines|) == e;
      assert SubmitAll(urls, engines, submit) == head + tail;
      assert (head + tail)[e] == head[e];
    }
  }

  /** Slots of the first `m` URLs lie below `m * n`. */
  lemma SlotBelow(u: nat, e: nat, m: nat, n: nat)
    requires u < m && e < n
    ensures Slot(u, e, n) < m * n
  {
    assert u * n <= (m - 1) * n by { MulMono(u, m - 1, n); }
    MulStep(m, n);
  }

  lemma MulMono(a: nat, b: nat, n: nat)
    requires a <= b
    ensures a * n <= b * n
  {
  }

  /** The slot of URL `u` in the whole run is the slot of URL `u - 1` in the
      run over the later URLs, shifted past the first URL's submissions. */
  lemma SubmitAllAtStep(urls: seq<string>, engines: seq<string>, submit: Submit, u: int, e: int)
    requires 0 < u < |urls| && 0 <= e < |engines|
    requires 0 <= Slot(u - 1, e, |engines|) < |SubmitAll(urls[1..], engines, submit)|
    requires SubmitAll(urls[1..], engines, submit)[Slot(u - 1, e, |engines|)] == SubmitPair(engines[e], urls[1..][u - 1], submit)
    ensures 0 <= Slot(u, e, |engines|) < |SubmitAll(urls, engines, submit)|
    ensures SubmitAll(urls, engines, submit)[Slot(u, e, |engines|)] == SubmitPair(engines[e], urls[u], submit)
  {
    var n := |engines|;
    var head := SubmitUrl(urls[0], engines, submit);
    var tail := SubmitAll(urls[1..], engines, submit);
    var j := Slot(u - 1, e, n);
    assert SubmitAll(urls, engines, submit) == head + tail;
    assert Slot(u, e, n) == |head| + j by { MulStep(u, n); }
    assert (head + tail)[|head| + j] == tail[j];
    assert urls[u] == urls[1..][u - 1];
  }

  /** How many of the submissions returned a dict. */
  function CountAccepted(subs: seq<Submission>): (n: nat)
    ensures n <= |subs|
  {
    if subs == [] then 0
    else (if subs[0].Accepted? then 1 else 0) + CountAccepted(subs[1..])
  }

  /** The accepted submissions' records, in submission order. */
  function AcceptedRecords(subs: seq<Submission>): (records: seq<Record>)
    ensures |records| == CountAccepted(subs)
    ensures forall r :: r in records <==> Accepted(r) in subs
  {
    if subs == [] then []
    else
      var rest := AcceptedRecords(subs[1..]);
      assert subs == [subs[0]] + subs[1..];
      if subs[0].Accepted? then [subs[0].record] + rest else rest
  }

  /** The record of an accepted submission sits after those of the
      accepted submissions before it: one record per accepted submission,
      in submission order, repeats included. */
  lemma {:induction false} AcceptedRecordsAt(subs: seq<Submission>, j: int)
    requires 0 <= j < |subs| && subs[j].Accepted?
    ensures CountAccepted(subs[..j]) < |AcceptedRecords(subs)|
    ensures AcceptedRecords(subs)[CountAccepted(subs[..j])] == subs[j].record
  {
    var rest := AcceptedRecords(subs[1..]);
    assert subs == [subs[0]] + subs[1..];
    if j == 0 {
      assert subs[..j] == [];
    } else {
      AcceptedRecordsAt(subs[1..], j - 1);
      assert subs[..j][1..] == subs[1..][..j - 1];
      assert subs[..j][0] == subs[0];
    }
  }

  /** The in-memory ledger and the control file written with it. */
  datatype Ledger = Ledger(records: seq<Record>, file: seq<Row>)

  /** `s` is the submission of some (engine, URL) pair of the inputs. */
  ghost predicate SubmittedPair(urls: seq<string>, engines: seq<string>, submit: Submit, s: Submission) {
    exists u, e :: 0 <= u < |urls| && 0 <= e < |engines| && SubmitPair(engines[e], urls[u], submit) == s
  }

  /** The control rows of a run of submissions. */
  function SubmissionRows(subs: seq<Submission>): (rows: seq<Row>)
    ensures |rows| == |subs|
    ensures forall k :: 0 <= k < |subs| ==> rows[k] == SubmissionRow(subs[k])
  {
    seq(|subs|, k requires 0 <= k < |subs| => SubmissionRow(subs[k]))
  }

  lemma RowOfSubmission(urls: seq<string>, engines: seq<string>, submit: Submit, k: int)
    requires 0 <= k < |SubmitAll(urls, engines, submit)|
    ensures SubmissionRows(SubmitAll(urls, engines, submit))[k] == SubmissionRow(SubmitAll(urls, engines, submit)[k])
  {
  }

  /** The row of the pair (engines[e], urls[u]) is the `Slot(u, e, |engines|)`-th one written. */
  lemma SubmissionRowAt(urls: seq<string>, engines: seq<string>, submit: Submit, u: int, e: int)
    requires 0 <= u < |urls| && 0 <= e < |engines|
    ensures 0 <= Slot(u, e, |engines|) < |SubmissionRows(SubmitAll(urls, engines, submit))|
    ensures SubmissionRows(SubmitAll(urls, engines, submit))[Slot(u, e, |engines|)] == SubmissionRow(SubmitPair(engines[e], urls[u], submit))
  {
    SubmitAllAt(urls, engines, submit, u, e);
    RowOfSubmission(urls, engines, submit, Slot(u, e, |engines|));
  }

  /** The accepted records are exactly those of the pairs whose submission
      returned a dict. */
  lemma AcceptedArePairs(urls: seq<string>, engines: seq<string>, submit: Submit)
    ensures forall r :: r in AcceptedRecords(SubmitAll(urls, engines, submit)) <==>
              SubmittedPair(urls, engines, submit, Accepted(r))
  {
    var subs := SubmitAll(urls, engines, submit);
    forall r | Accepted(r) in subs
      ensures SubmittedPair(urls, engines, submit, Accepted(r))
    {
      SubmissionFromPair(urls, engines, submit, Accepted(r));
    }
    forall r | SubmittedPair(urls, engines, submit, Accepted(r))
      ensures Accepted(r) in subs
    {
      var u, e :| 0 <= u < |urls| && 0 <= e < |engines| && SubmitPair(engines[e], urls[u], submit) == Accepted(r);
      SubmitAllAt(urls, engines, submit, u, e);
    }
  }

  /** `_create_new_control_file`: every URL submitted to every engine, URL
      by URL. Each submission writes one row; only the submissions that did
      not raise become in-memory records. */
  function CreateControlFile(urls: seq<string>, engines: seq<string>, submit: Submit): (l: Ledger)
    ensures |l.file| == |urls| * |engines|
    ensures forall u, e {:trigger SubmitPair(engines[e], urls[u], submit)} :: 0 <= u < |urls| && 0 <= e < |engines| ==>
              0 <= Slot(u, e, |engines|) < |l.file| &&
              l.file[Slot(u, e, |engines|)] == SubmissionRow(SubmitPair(engines[e], urls[u], submit))
    ensures forall r :: r in l.records <==> SubmittedPair(urls, engines, submit, Accepted(r))
    ensures |l.records| == CountAccepted(SubmitAll(urls, engines, submit))
    ensures forall u, e {:trigger SubmitPair(engines[e], urls[u], submit)} ::
              0 <= u < |urls| && 0 <= e < |engines| && SubmitPair(engines[e], urls[u], submit).Accepted? ==>
              Slot(u, e, |engines|) < |SubmitAll(urls, engines, submit)| &&
              var before := CountAccepted(SubmitAll(urls, engines, submit)[..Slot(u, e, |engines|)]);
              before < |l.records| && l.records[before] == SubmitPair(engines[e], urls[u], submit).record
  {
    var subs := SubmitAll(urls, engines, submit);
    SubmitAllLength(urls, engines, submit);
    forall u, e | 0 <= u < |urls| && 0 <= e < |engines| {
      SubmissionRowAt(urls, engines, submit, u, e);
    }
    forall u, e | 0 <= u < |urls| && 0 <= e < |engines| && SubmitPair(engines[e], urls[u], submit).Accepted? {
      AcceptedPairAt(urls, engines, submit, u, e);
    }
    AcceptedArePairs(urls, engines, submit);
    Ledger(AcceptedRecords(subs), SubmissionRows(subs))
  }

  /** The record of an accepted pair follows the records of the accepted
      pairs before it in URL-major order. */
  lemma AcceptedPairAt(urls: seq<string>, engines: seq<string>, submit: Submit, u: int, e: int)
    requires 0 <= u < |urls| && 0 <= e < |engines| && SubmitPair(engines[e], urls[u], submit).Accepted?
    ensures Slot(u, e, |engines|) < |SubmitAll(urls, engines, submit)|
    ensures var before := CountAccepted(SubmitAll(urls, engines, submit)[..Slot(u, e, |engines|)]);
            before < |AcceptedRecords(SubmitAll(urls, engines, submit))| &&
            AcceptedRecords(SubmitAll(urls, engines, submit))[before] == SubmitPair(engines[e], urls[u], submit).record
  {
    SubmitAllAt(urls, engines, submit, u, e);
    AcceptedRecordsAt(SubmitAll(urls, engines, submit), Slot(u, e, |engines|));
  }

  /** Every submission is that of some pair of the inputs. */
  lemma {:induction false} SubmissionFromPair(urls: seq<string>, engines: seq<string>, submit: Submit, s: Submission)
    requires s in SubmitAll(urls, engines, submit)
    ensures SubmittedPair(urls, engines, submit, s)
  {
    if urls != [] {
      var first := SubmitUrl(urls[0], engines, submit);
      if s in first {
        var e :| 0 <= e < |engines| && first[e] == s;
        assert SubmitPair(engines[e], urls[0], submit) == s;
      } else {
        SubmissionFromPair(urls[1..], engines, submit, s);
        var u, e :| 0 <= u < |urls[1..]| && 0 <= e < |engines| && SubmitPair(engines[e], urls[1..][u], submit) == s;
        assert urls[u + 1] == urls[1..][u];
      }
    }
  }

  /** No two records share both engine and URL. */
  predicate JobsDistinct(records: seq<Record>) {
    forall i, j :: 0 <= i < j < |records| ==>
      records[i].engine != records[j].engine || records[i].url != records[j].url
  }

  predicate Distinct(xs: seq<string>) {
    forall i, j :: 0 <= i < j < |xs| ==> xs[i] != xs[j]
  }

  /** With no URL and no engine listed twice, the ledger holds at most one
      record per (engine, URL) pair. */
  lemma CreatedRecordsDistinct(urls: seq<string>, engines: seq<string>, submit: Submit)
    requires Distinct(urls) && Distinct(engines)
    ensures JobsDistinct(CreateControlFile(urls, engines, submit).records)
  {
    AcceptedDistinct(urls, engines, submit);
  }

  /** A record whose engine no later record has keeps the ledger distinct. */
  lemma JobsDistinctCons(h: Record, rest: seq<Record>)
    requires JobsDistinct(rest)
    requires forall r :: r in rest ==> r.engine != h.engine
    ensures JobsDistinct([h] + rest)
  {
    var records := [h] + rest;
    forall i, j | 0 <= i < j < |records|
      ensures records[i].engine != records[j].engine || records[i].url != records[j].url
    {
      if i == 0 {
        assert records[j] == rest[j - 1];
      } else {
        assert records[i] == rest[i - 1] && records[j] == rest[j - 1];
      }
    }
  }

  /** Two distinct ledgers with no URL in common make a distinct ledger. */
  lemma JobsDistinctAppend(first: seq<Record>, rest: seq<Record>)
    requires JobsDistinct(first) && JobsDistinct(rest)
    requires forall a, b :: a in first && b in rest ==> a.url != b.url
    ensures JobsDistinct(first + rest)
  {
    var records := first + rest;
    forall i, j | 0 <= i < j < |records|
      ensures records[i].engine != records[j].engine || records[i].url != records[j].url
    {
      if j < |first| {
        assert records[i] == first[i] && records[j] == first[j];
      } else if i >= |first| {
        assert records[i] == rest[i - |first|] && records[j] == rest[j - |first|];
      } else {
        assert records[i] == first[i] && records[i] in first;
        assert records[j] == rest[j - |first|] && records[j] in rest;
      }
    }
  }

  lemma AcceptedRecordsFrom(subs: seq<Submission>, r: Record)
    requires r in AcceptedRecords(subs)
    ensures exists k :: 0 <= k < |subs| && subs[k] == Accepted(r)
  {
    assert Accepted(r) in subs;
  }

  lemma {:induction false} AcceptedOfUrl(url: string, engines: seq<string>, submit: Submit)
    requires Distinct(engines)
    ensures forall r :: r in AcceptedRecords(SubmitUrl(url, engines, submit)) ==> r.url == url && r.engine in engines
    ensures JobsDistinct(AcceptedRecords(SubmitUrl(url, engines, submit)))
  {
    var subs := SubmitUrl(url, engines, submit);
    var records := AcceptedRecords(subs);
    forall r | r in records
      ensures r.url == url && r.engine in engines
    {
      AcceptedRecordsFrom(subs, r);
      var k :| 0 <= k < |subs| && subs[k] == Accepted(r);
      assert SubmitPair(engines[k], url, submit) == Accepted(r);
    }
    if engines != [] {
      var tailSubs := SubmitUrl(url, engines[1..], submit);
      assert subs[1..] == tailSubs;
      AcceptedOfUrl(url, engines[1..], submit);
      var rest := AcceptedRecords(tailSubs);
      assert forall r :: r in rest ==> r.engine != engines[0] by {
        forall r | r in rest
          ensures r.engine != engines[0]
        {
          var e :| 0 <= e < |engines[1..]| && engines[1..][e] == r.engine;
          assert engines[e + 1] == r.engine;
        }
      }
      if subs[0].Accepted? {
        assert records == [subs[0].record] + rest;
        assert subs[0].record.engine == engines[0];
        JobsDistinctCons(subs[0].record, rest);
      } else {
        assert records == rest;
      }
    }
  }

  lemma {:induction false} AcceptedRecordsAppend(a: seq<Submission>, b: seq<Submission>)
    ensures AcceptedRecords(a + b) == AcceptedRecords(a) + AcceptedRecords(b)
  {
    if a != [] {
      assert (a + b)[1..] == a[1..] + b;
      AcceptedRecordsAppend(a[1..], b);
    } else {
      assert a + b == b;
    }
  }

  lemma {:induction false} AcceptedDistinct(urls: seq<string>, engines: seq<string>, submit: Submit)
    requires Distinct(urls) && Distinct(engines)
    ensures forall r :: r in AcceptedRecords(SubmitAll(urls, engines, submit)) ==> r.url in urls
    ensures JobsDistinct(AcceptedRecords(SubmitAll(urls, engines, submit)))
  {
    if urls != [] {
      var first := AcceptedRecords(SubmitUrl(urls[0], engines, submit));
      var rest := AcceptedRecords(SubmitAll(urls[1..], engines, submit));
      AcceptedRecordsAppend(SubmitUrl(urls[0], engines, submit), SubmitAll(urls[1..], engines, submit));
      AcceptedOfUrl(urls[0], engines, submit);
      AcceptedDistinct(urls[1..], engines, submit);
      var records := first + rest;
      assert records == AcceptedRecords(SubmitAll(urls, engines, submit));
      assert forall r :: r in rest ==> r.url != urls[0] && r.url in urls by {
        forall r | r in rest
          ensures r.url != urls[0] && r.url in urls
        {
          var u :| 0 <= u < |urls[1..]| && urls[1..][u] == r.url;
          assert urls[u + 1] == r.url;
        }
      }
      forall r | r in records
        ensures r.url in urls
      {
      }
      JobsDistinctAppend(first, rest);
    }
  }

  // ---------------------------------------------------------------------
  // Reading the ledger back
  // ---------------------------------------------------------------------

  /** The record a 4-field control row reads back as: the state is true iff
      its text lower-cases to "true". */
  function RowRecord(row: Row): Record
    requires |row| == 4
  {
    Record(row[0], row[1], VStr(row[2]), VBool(Lower(row[3]) == "true"))
  }

  /** `_read_control_file`: the rows with exactly four fields, in file
      order, as records; every other row is skipped without a word. */
  function ParseControl(rows: seq<Row>): (records: seq<Record>)
    ensures |records| <= |rows|
    ensures forall r :: r in records ==> exists row :: row in rows && |row| == 4 && r == RowRecord(row)
    ensures (forall i :: 0 <= i < |rows| ==> |rows[i]| == 4) ==>
              |records| == |rows| && forall i :: 0 <= i < |rows| ==> records[i] == RowRecord(rows[i])
  {
    if rows == [] then []
    else
      var rest := ParseControl(rows[1..]);
      assert forall row :: row in rows[1..] ==> row in rows;
      if |rows[0]| == 4 then [RowRecord(rows[0])] + rest else rest
  }

  /** Reading back a file is reading back its parts. */
  lemma {:induction false} ParseControlAppend(a: seq<Row>, b: seq<Row>)
    ensures ParseControl(a + b) == ParseControl(a) + ParseControl(b)
  {
    if a == [] {
      assert a + b == b;
    } else {
      assert (a + b)[1..] == a[1..] + b;
      ParseControlAppend(a[1..], b);
    }
  }

  /** A row without exactly four fields contributes nothing. */
  lemma ParseControlSkips(a: seq<Row>, row: Row, b: seq<Row>)
    requires |row| != 4
    ensures ParseControl(a + [row] + b) == ParseControl(a + b)
  {
    ParseControlAppend(a + [row], b);
    ParseControlAppend(a, [row]);
    ParseControlAppend(a, b);
  }

  /** The record a record turns into when written and read back: the scan id
      as its CSV text, the state as whether that text is "true" in some case. */
  function Reloaded(r: Record): Record {
    Record(r.engine, r.url, VStr(CsvCell(r.scanId)), VBool(Lower(CsvCell(r.state)) == "true"))
  }

  function RecordRows(records: seq<Record>): (rows: seq<Row>)
    ensures |rows| == |records|
    ensures forall i :: 0 <= i < |records| ==> rows[i] == RecordRow(records[i])
  {
    seq(|records|, i requires 0 <= i < |records| => RecordRow(records[i]))
  }

  /** Writing records and reading them back yields their reloaded forms. */
  lemma RecordRowsRoundTrip(records: seq<Record>)
    ensures ParseControl(RecordRows(records)) == seq(|records|, i requires 0 <= i < |records| => Reloaded(records[i]))
  {
  }

  /** A record whose scan id is a string and whose state is a boolean, as
      every record read from a file is. */
  predicate Plain(r: Record) {
    r.scanId.VStr? && r.state.VBool?
  }

  /** Plain records survive a write and a read unchanged. */
  lemma PlainRoundTrip(records: seq<Record>)
    requires forall i :: 0 <= i < |records| ==> Plain(records[i])
    ensures ParseControl(RecordRows(records)) == records
  {
    RecordRowsRoundTrip(records);
    forall i | 0 <= i < |records|
      ensures Reloaded(records[i]) == records[i]
    {
      LowerOfBoolText(records[i].state.b);
    }
  }

  /** `_initialize_control_file`: a missing or empty control file (no rows)
      starts a new ledger; any other is resumed without submitting anything. */
  function Initialize(file: seq<Row>, urls: seq<string>, engines: seq<string>, submit: Submit): (l: Ledger)
    ensures file != [] ==> l.file == file && l.records == ParseControl(file)
    ensures file == [] ==> |l.file| == |urls| * |engines|
    ensures file == [] ==> l == CreateControlFile(urls, engines, submit)
  {
    if file == [] then CreateControlFile(urls, engines, submit) else Ledger(ParseControl(file), file)
  }

  /** Resuming never submits: the ledger read from an existing control file
      does not depend on the engines' answers to `scan_url`. */
  lemma ResumeDoesNotSubmit(file: seq<Row>, urls: seq<string>, engines: seq<string>, s1: Submit, s2: Submit)
    requires file != []
    ensures Initialize(file, urls, engines, s1) == Initialize(file, urls, engines, s2)
  {
  }

  /** What the control file written at creation reads back as: every
      submission, the accepted ones as their records and the rejected ones as
      records with scan id "error". */
  lemma CreatedFileReadsBack(urls: seq<string>, engines: seq<string>, submit: Submit)
    ensures var l := CreateControlFile(urls, engines, submit);
            var resumed := ParseControl(l.file);
            && |resumed| == |urls| * |engines|
            && forall u, e {:trigger SubmitPair(engines[e], urls[u], submit)} :: 0 <= u < |urls| && 0 <= e < |engines| ==>
                 var s := SubmitPair(engines[e], urls[u], submit);
                 && 0 <= Slot(u, e, |engines|) < |resumed|
                 && resumed[Slot(u, e, |engines|)].engine == engines[e]
                 && resumed[Slot(u, e, |engines|)].url == urls[u]
                 && (s.Rejected? ==> resumed[Slot(u, e, |engines|)] ==
                                       Record(engines[e], urls[u], ErrorId, VBool(Lower(s.message) == "true")))
                 && (s.Accepted? ==> resumed[Slot(u, e, |engines|)] == Reloaded(s.record))
  {
    var l := CreateControlFile(urls, engines, submit);
    var resumed := ParseControl(l.file);
    forall u, e | 0 <= u < |urls| && 0 <= e < |engines|
      ensures var s := SubmitPair(engines[e], urls[u], submit);
              && 0 <= Slot(u, e, |engines|) < |resumed|
              && resumed[Slot(u, e, |engines|)].engine == engines[e]
              && resumed[Slot(u, e, |engines|)].url == urls[u]
              && (s.Rejected? ==> resumed[Slot(u, e, |engines|)] ==
                                    Record(engines[e], urls[u], ErrorId, VBool(Lower(s.message) == "true")))
              && (s.Accepted? ==> resumed[Slot(u, e, |engines|)] == Reloaded(s.record))
    {
      var k := Slot(u, e, |engines|);
      assert l.file[k] == SubmissionRow(SubmitPair(engines[e], urls[u], submit));
      assert resumed[k] == RowRecord(l.file[k]);
    }
  }

  // ---------------------------------------------------------------------
  // Refreshing the ledger
  // ---------------------------------------------------------------------

  /** A record the refresh pass asks its engine about: not yet complete and
      not a failed submission. */
  predicate Pending(r: Record) {
    !Truthy(r.state) && r.scanId != ErrorId
  }

  /** The body of the loop of `_check_scan_status` for one record. */
  function RefreshRecord(r: Record, fetch: Fetch): (r': Record)
    ensures r'.engine == r.engine && r'.url == r.url && r'.scanId == r.scanId
    ensures !Pending(r) ==> r' == r
    ensures Pending(r) && fetch(r.engine, r.scanId).Raised? ==> r'.state == VBool(false)
    ensures Pending(r) && fetch(r.engine, r.scanId).Returned? ==>
              r'.state == Completion(fetch(r.engine, r.scanId).value).GetOr(VBool(false))
  {
    if !Pending(r) then r
    else
      match fetch(r.engine, r.scanId)
      case Raised(_) => r.(state := VBool(false))
      case Returned(answer) => r.(state := Completion(answer).GetOr(VBool(false)))
  }

  /** The records a refresh pass leaves, each refreshed on its own. */
  function Refreshed(records: seq<Record>, fetch: Fetch): (r: seq<Record>)
    ensures |r| == |records|
    ensures forall i :: 0 <= i < |records| ==> r[i] == RefreshRecord(records[i], fetch)
  {
    seq(|records|, i requires 0 <= i < |records| => RefreshRecord(records[i], fetch))
  }

  /** Every record's state is truthy: what stops the polling. */
  predicate AllCompleted(records: seq<Record>) {
    forall i :: 0 <= i < |records| ==> Truthy(records[i].state)
  }

  /** What one refresh pass leaves behind: the records, the rewritten
      control file, and whether the job cancels itself. */
  datatype Pass = Pass(records: seq<Record>, file: seq<Row>, done: bool)

  /** `_check_scan_status`: every record is refreshed and rewritten in
      order, and `all_completed = all_completed and state` decides whether
      the scheduled job cancels itself. */
  method RefreshPass(records: seq<Record>, fetch: Fetch) returns (p: Pass)
    ensures |p.records| == |records|
    ensures forall i :: 0 <= i < |records| ==>
              p.records[i].engine == records[i].engine && p.records[i].url == records[i].url &&
              p.records[i].scanId == records[i].scanId
    ensures forall i :: 0 <= i < |records| && !Pending(records[i]) ==> p.records[i] == records[i]
    ensures forall i :: 0 <= i < |records| && Pending(records[i]) ==> p.records[i] == RefreshRecord(records[i], fetch)
    ensures forall i :: 0 <= i < |records| && Pending(records[i]) && fetch(records[i].engine, records[i].scanId).Raised? ==>
              !Truthy(p.records[i].state)
    ensures p.records == Refreshed(records, fetch)
    ensures p.file == RecordRows(p.records)
    ensures p.done <==> AllCompleted(p.records)
  {
    var updated: seq<Record> := [];
    var rows: seq<Row> := [];
    var allCompleted: Value := VBool(true);
    var i := 0;
    while i < |records|
      invariant 0 <= i <= |records|
      invariant |updated| == i
      invariant forall j :: 0 <= j < i ==> updated[j] == RefreshRecord(records[j], fetch)
      invariant rows == RecordRows(updated)
      invariant Truthy(allCompleted) <==> AllCompleted(updated)
    {
      var entry := RefreshRecord(records[i], fetch);
      rows := rows + [RecordRow(entry)];
      updated := updated + [entry];
      allCompleted := if Truthy(allCompleted) then entry.state else allCompleted;
      i := i + 1;
    }
    p := Pass(updated, rows, Truthy(allCompleted));
  }

  /** A truthy state is never reset, and a fetch that raises never makes a
      record complete. */
  lemma RefreshMonotonic(r: Record, fetch: Fetch)
    ensures Truthy(r.state) ==> Truthy(RefreshRecord(r, fetch).state)
    ensures !Truthy(r.state) && fetch(r.engine, r.scanId).Raised? ==> !Truthy(RefreshRecord(r, fetch).state)
  {
  }

  /** Done is monotonic: a completed ledger stays completed, and no record of
      it is fetched again. */
  lemma DoneIsMonotonic(records: seq<Record>, fetch: Fetch)
    requires AllCompleted(records)
    ensures Refreshed(records, fetch) == records
    ensures AllCompleted(Refreshed(records, fetch))
  {
  }

  /** The records after one refresh pass per element of `cycles`, in order:
      the reference the poller is stated against. */
  function RefreshedBy(records: seq<Record>, cycles: seq<Fetch>): (r: seq<Record>)
    ensures |r| == |records|
    ensures forall i :: 0 <= i < |records| ==>
              r[i].engine == records[i].engine && r[i].url == records[i].url && r[i].scanId == records[i].scanId
    ensures forall i :: 0 <= i < |records| && !Pending(records[i]) ==> r[i] == records[i]
    decreases |cycles|
  {
    if cycles == [] then records
    else Refreshed(RefreshedBy(records, cycles[..|cycles| - 1]), cycles[|cycles| - 1])
  }

  /** One more cycle is one more refresh pass. */
  lemma RefreshedByStep(records: seq<Record>, cycles: seq<Fetch>, n: nat)
    requires n < |cycles|
    ensures RefreshedBy(records, cycles[..n + 1]) == Refreshed(RefreshedBy(records, cycles[..n]), cycles[n])
  {
    var c := cycles[..n + 1];
    assert c[..|c| - 1] == cycles[..n] && c[|c| - 1] == cycles[n];
  }

  /** `_process_urls` after initialisation: refresh passes, one per element
      of `cycles`, until a pass reports that every record is complete. The
      length of `cycles` bounds the number of passes: the records left are
      those of the passes run, the job stops at the first pass that finds
      every record complete, and it is done exactly when its last pass did.
      `onDisk` is the control file as initialised; every pass rewrites it. */
  method Poll(records: seq<Record>, onDisk: seq<Row>, cycles: seq<Fetch>) returns (final: seq<Record>, file: seq<Row>, passes: nat, done: bool)
    ensures passes <= |cycles|
    ensures done ==> AllCompleted(final)
    ensures !done ==> passes == |cycles|
    ensures |final| == |records|
    ensures forall i :: 0 <= i < |records| ==>
              final[i].engine == records[i].engine && final[i].url == records[i].url && final[i].scanId == records[i].scanId
    ensures forall i :: 0 <= i < |records| && !Pending(records[i]) ==> final[i] == records[i]
    ensures forall i :: 0 <= i < |records| && records[i].scanId == ErrorId && !Truthy(records[i].state) ==> !done
    ensures passes == 0 ==> file == onDisk
    ensures passes > 0 ==> file == RecordRows(final)
    ensures final == RefreshedBy(records, cycles[..passes])
    ensures done <==> passes > 0 && AllCompleted(final)
    ensures forall n :: 0 < n < passes ==> !AllCompleted(RefreshedBy(records, cycles[..n]))
  {
    final := records;
    file := onDisk;
    passes := 0;
    done := false;
    while passes < |cycles| && !done
      invariant passes <= |cycles|
      invariant final == RefreshedBy(records, cycles[..passes])
      invariant done <==> passes > 0 && AllCompleted(final)
      invariant forall n :: 0 < n < passes ==> !AllCompleted(RefreshedBy(records, cycles[..n]))
      invariant passes == 0 ==> file == onDisk
      invariant passes > 0 ==> file == RecordRows(final)
    {
      RefreshedByStep(records, cycles, passes);
      ghost var before := passes;
      assert before > 0 ==> !AllCompleted(RefreshedBy(records, cycles[..before]));
      var p := RefreshPass(final, cycles[passes]);
      final, file, done := p.records, p.file, p.done;
      passes := passes + 1;
      forall n | 0 < n < passes
        ensures !AllCompleted(RefreshedBy(records, cycles[..n]))
      {
        if n == before {
        }
      }
    }
  }

  // ---------------------------------------------------------------------
  // A failed submission read back from the control file
  // ---------------------------------------------------------------------

  /** The engine reports the record's scan complete in this cycle. */
  predicate AnswersComplete(r: Record, fetch: Fetch) {
    && fetch(r.engine, r.scanId).Returned?
    && Truthy(Completion(fetch(r.engine, r.scanId).value).GetOr(VBool(false)))
  }

  /** Every scan still outstanding is reported complete in this cycle. */
  predicate AnswersAllPending(records: seq<Record>, fetch: Fetch) {
    forall i :: 0 <= i < |records| && Pending(records[i]) ==> AnswersComplete(records[i], fetch)
  }

  /** As written, a resumed row of a submission that raised is never
      complete: it is never fetched and its state stays false, so
      `all_completed` is false on every pass, whatever the engines answer. */
  lemma ResumedErrorRowNeverCompletes(engine: string, url: string, message: string, fetch: Fetch)
    requires Lower(message) != "true"
    ensures var records := ParseControl([[engine, url, "error", message]]);
            && records == [Record(engine, url, ErrorId, VBool(false))]
            && AnswersAllPending(records, fetch)
            && !AllCompleted(Refreshed(records, fetch))
  {
    var records := ParseControl([[engine, url, "error", message]]);
    assert records[0] == RowRecord([engine, url, "error", message]);
    assert !Truthy(Refreshed(records, fetch)[0].state);
  }

  /** A record the poller need no longer wait for: complete, or a
      submission that raised and is never fetched. */
  predicate Settled(r: Record) {
    Truthy(r.state) || r.scanId == ErrorId
  }

  /** Every record is settled: the corrected stop condition. */
  predicate AllSettled(records: seq<Record>) {
    forall i :: 0 <= i < |records| ==> Settled(records[i])
  }

  /** The refresh pass with the stop condition the poller evidently intends:
      the job cancels itself once every record is settled. */
  method RefreshPassCorrected(records: seq<Record>, fetch: Fetch) returns (p: Pass)
    ensures p.records == Refreshed(records, fetch)
    ensures p.file == RecordRows(p.records)
    ensures p.done <==> AllSettled(p.records)
    ensures AnswersAllPending(records, fetch) ==> p.done
  {
    var q := RefreshPass(records, fetch);
    var done := true;
    var i := 0;
    while i < |q.records|
      invariant 0 <= i <= |q.records|
      invariant done <==> forall j :: 0 <= j < i ==> Settled(q.records[j])
    {
      done := done && Settled(q.records[i]);
      i := i + 1;
    }
    p := q.(done := done);
  }

  /** One cycle in which every outstanding scan is reported complete
      settles every record. */
  lemma FirstPassSettles(records: seq<Record>, cycles: seq<Fetch>)
    requires |cycles| > 0 && AnswersAllPending(records, cycles[0])
    ensures AllSettled(RefreshedBy(records, cycles[..1]))
  {
    RefreshedByStep(records, cycles, 0);
    assert cycles[..0] == [];
    var r := RefreshedBy(records, cycles[..1]);
    forall i | 0 <= i < |r|
      ensures Settled(r[i])
    {
      assert r[i] == RefreshRecord(records[i], cycles[0]);
    }
  }

  /** Polling with the corrected stop condition: one cycle in which every
      outstanding scan is reported complete ends it, rows of failed
      submissions notwithstanding. */
  method PollCorrected(records: seq<Record>, onDisk: seq<Row>, cycles: seq<Fetch>) returns (final: seq<Record>, file: seq<Row>, passes: nat, done: bool)
    ensures passes <= |cycles|
    ensures done ==> forall i :: 0 <= i < |final| ==> Settled(final[i])
    ensures !done ==> passes == |cycles|
    ensures |final| == |records|
    ensures |cycles| > 0 && AnswersAllPending(records, cycles[0]) ==> done && passes == 1
    ensures passes == 0 ==> file == onDisk
    ensures passes > 0 ==> file == RecordRows(final)
    ensures final == RefreshedBy(records, cycles[..passes])
    ensures done <==> passes > 0 && AllSettled(final)
    ensures forall n :: 0 < n < passes ==> !AllSettled(RefreshedBy(records, cycles[..n]))
  {
    final := records;
    file := onDisk;
    passes := 0;
    done := false;
    while passes < |cycles| && !done
      invariant passes <= |cycles|
      invariant final == RefreshedBy(records, cycles[..passes])
      invariant done <==> passes > 0 && AllSettled(final)
      invariant forall n :: 0 < n < passes ==> !AllSettled(RefreshedBy(records, cycles[..n]))
      invariant passes == 0 ==> file == onDisk
      invariant passes > 0 ==> file == RecordRows(final)
    {
      RefreshedByStep(records, cycles, passes);
      ghost var before := passes;
      assert before > 0 ==> !AllSettled(RefreshedBy(records, cycles[..before]));
      var p := RefreshPassCorrected(final, cycles[passes]);
      final, file, done := p.records, p.file, p.done;
      passes := passes + 1;
      forall n | 0 < n < passes
        ensures !AllSettled(RefreshedBy(records, cycles[..n]))
      {
        if n == before {
        }
      }
    }
    if |cycles| > 0 && AnswersAllPending(records, cycles[0]) {
      FirstPassSettles(records, cycles);
      assert AllSettled(RefreshedBy(records, cycles[..1]));
    }
  }
}
