/** The control ledger of the original single-file scanner in `main.py`
    (`URLFileScanner.__generate_urls_file_control`). Each scheduled step
    either stops on a recorded engine message, creates the control file from
    scratch, or re-reads it, polls every job again and rewrites it.

    Unlike the refactored ledger, the control file is plain text: lines are
    written with f-strings (`"{engine}, {url}, {id}, {state}\n"`) and read
    back with `csv.reader`, so the blank after each comma stays part of the
    next field. The clients are oracles, as in the refactored model, but they
    are chosen by name: RecordedFuture's for "RecordedFuture" and
    HybridAnalysis's for any other engine. */
module LegacyLedger {
  import opened Wrappers
  import opened Dicts
  import opened Values
  import opened Strings
  import L = Ledger

  /** The engines a new control file is filled for, in this order. */
  const Engines: seq<string> := ["RecordedFuture", "HybridAnalysis"]

  datatype Client = RecordedFutureClient | HybridAnalysisClient

  function ClientOf(engine: string): Client {
    if engine == "RecordedFuture" then RecordedFutureClient else HybridAnalysisClient
  }

  /** `client.scan_url(url)`. */
  type Submit = (Client, string) -> L.Outcome

  /** `client.retrieve_scan_results(scan_id)`. */
  type Fetch = (Client, string) -> L.Outcome

  /** One element of `control_urls`: a job `[engine, url, id, state]`, or
      the `[url, "message: ..."]` pair kept for a rejected submission. */
  datatype Entry =
    | Job(engine: string, url: string, scanId: Value, state: Value)
    | Message(url: string, text: string)
  {
    /** The items `for item in sub` visits. */
    function Items(): (items: seq<Value>)
      ensures |items| > 0
    {
      match this
      case Job(engine, url, scanId, state) => [VStr(engine), VStr(url), scanId, state]
      case Message(url, text) => [VStr(url), VStr(text)]
    }

    /** `sub[-1]`. */
    function LastItem(): Value {
      Last(Items())
    }
  }

  predicate IsMessageItem(v: Value) {
    v.VStr? && Contains(v.s, "message:")
  }

  /** Some string item of some entry mentions "message:". */
  predicate HasMessage(entries: seq<Entry>) {
    exists i, j :: 0 <= i < |entries| && 0 <= j < |entries[i].Items()| && IsMessageItem(entries[i].Items()[j])
  }

  /** `all(sub[-1] == True for sub in control_urls)`. */
  predicate AllTrue(entries: seq<Entry>) {
    forall i :: 0 <= i < |entries| ==> EqualsTrue(entries[i].LastItem())
  }

  /** What one step leaves behind: `control_urls` and the control file's
      text. `Exit` is the `sys.exit()` on a recorded message, `Crash` an
      exception escaping the step, `Written` a normal return; `done` is
      `file_control_check`. */
  datatype Step =
    | Exit(entries: seq<Entry>, file: string)
    | Crash(message: string, entries: seq<Entry>, file: string)
    | Written(entries: seq<Entry>, file: string, done: bool)

  /** The decoded answer of a client call; a call that returns something
      other than a dict makes the following `.get` raise. */
  function Answer(o: L.Outcome): (r: Result<Dict<Value>, string>)
    ensures r.Success? <==> o.Returned? && o.value.VDict?
    ensures r.Success? ==> r.value == o.value.entries
  {
    match o
    case Raised(message) => Failure(message)
    case Returned(v) => if v.VDict? then Success(v.entries) else Failure(NoAttributeMessage(v, "get"))
  }

  /** The state kept for an answer: RecordedFuture's `completed` as a
      boolean, HybridAnalysis's `finished` as it is (None when absent). */
  function AnswerState(engine: string, answer: Dict<Value>): (s: Value)
    ensures engine == "RecordedFuture" ==> s.VBool? && (s.b <==> Truthy(GetOr(answer, "completed", VNone)))
    ensures engine != "RecordedFuture" ==> s == GetOr(answer, "finished", VNone)
  {
    if engine == "RecordedFuture" then VBool(Truthy(GetOr(answer, "completed", VNone)))
    else GetOr(answer, "finished", VNone)
  }

  /** A job line without its line break. */
  function JobLine(engine: string, url: string, id: Value, state: Value): string {
    engine + ", " + url + ", " + Str(id) + ", " + Str(state)
  }

  /** The text written for an engine message, without a line break. */
  function MessageText(url: string, message: Value): string {
    url + ", message: " + Str(message)
  }

  /** The file text of a sequence of lines, each ended by a line break. */
  function Text(lines: seq<string>): string {
    if lines == [] then "" else lines[0] + "\n" + Text(lines[1..])
  }

  /** How many results come before the first failure. */
  function Leading<T>(rs: seq<Result<T, string>>): (n: nat)
    ensures n <= |rs|
    ensures forall k :: 0 <= k < n ==> rs[k].Success?
    ensures n < |rs| ==> rs[n].Failure?
  {
    if rs == [] || rs[0].Failure? then 0 else 1 + Leading(rs[1..])
  }

  // ---------------------------------------------------------------------
  // Creating the control file
  // ---------------------------------------------------------------------

  /** The (engine, url) pairs of a new control file: every URL for
      RecordedFuture, then every URL for HybridAnalysis. */
  function Pairs(urls: seq<string>): (ps: seq<(string, string)>)
    ensures |ps| == |Engines| * |urls|
    ensures forall u :: 0 <= u < |urls| ==> ps[u] == (Engines[0], urls[u])
    ensures forall u :: 0 <= u < |urls| ==> ps[|urls| + u] == (Engines[1], urls[u])
  {
    seq(|urls|, u requires 0 <= u < |urls| => (Engines[0], urls[u]))
    + seq(|urls|, u requires 0 <= u < |urls| => (Engines[1], urls[u]))
  }

  /** Submitting one URL to one engine: the entry kept and the line written.
      An answer with a message becomes a message entry and a message line;
      otherwise the job records the answer's id and state. */
  function Submitted(engine: string, url: string, submit: Submit): (r: Result<(Entry, string), string>)
    ensures r.Success? <==> Answer(submit(ClientOf(engine), url)).Success?
    ensures r.Success? ==> r.value.0.url == url
    ensures r.Success? ==>
              var answer := Answer(submit(ClientOf(engine), url)).value;
              var message := GetOr(answer, "message", VNone);
              && (r.value.0.Message? <==> message != VNone)
              && (r.value.0.Message? ==> r.value.0.text == "message: " + Str(message)
                                         && r.value.1 == MessageText(url, message))
              && (r.value.0.Job? ==> r.value.0 == Job(engine, url, GetOr(answer, "id", VNone), AnswerState(engine, answer))
                                     && r.value.1 == JobLine(engine, url, r.value.0.scanId, r.value.0.state))
  {
    var answer :- Answer(submit(ClientOf(engine), url));
    var message := GetOr(answer, "message", VNone);
    if message != VNone then
      Success((Message(url, "message: " + Str(message)), MessageText(url, message)))
    else
      var id := GetOr(answer, "id", VNone);
      var state := AnswerState(engine, answer);
      Success((Job(engine, url, id, state), JobLine(engine, url, id, state)))
  }

  function SubmitResults(pairs: seq<(string, string)>, submit: Submit): (rs: seq<Result<(Entry, string), string>>)
    ensures |rs| == |pairs|
    ensures forall k :: 0 <= k < |pairs| ==> rs[k] == Submitted(pairs[k].0, pairs[k].1, submit)
  {
    seq(|pairs|, k requires 0 <= k < |pairs| => Submitted(pairs[k].0, pairs[k].1, submit))
  }

  /** What a loop that stops at its first failure leaves behind: the items
      and lines of the steps before it, and its error if there was one. */
  datatype Run<T> = Run(items: seq<T>, lines: seq<string>, error: Option<string>)

  /** A loop over the outcomes `rs` of its steps, each step either failing or
      contributing an item and a line. */
  function RunAll<T>(rs: seq<Result<(T, string), string>>): (r: Run<T>)
    ensures |r.items| == |r.lines| <= |rs|
  {
    if rs == [] then Run([], [], None)
    else
      match rs[0]
      case Failure(m) => Run([], [], Some(m))
      case Success((x, line)) =>
        var rest := RunAll(rs[1..]);
        Run([x] + rest.items, [line] + rest.lines, rest.error)
  }

  /** The loop keeps, in order, the item and line of every step before the
      first failing one, and nothing else; it reports an error exactly when
      some step fails, and then that step's error. */
  lemma {:induction false} RunAllSpec<T>(rs: seq<Result<(T, string), string>>)
    ensures var r := RunAll(rs);
            var n := Leading(rs);
            && |r.items| == n
            && (forall k :: 0 <= k < n ==> r.items[k] == rs[k].value.0 && r.lines[k] == rs[k].value.1)
            && (r.error.Some? <==> n < |rs|)
            && (r.error.Some? ==> r.error.value == rs[n].error)
  {
    if rs != [] && rs[0].Success? {
      RunAllSpec(rs[1..]);
      var r := RunAll(rs);
      var rest := RunAll(rs[1..]);
      assert r.items == [rs[0].value.0] + rest.items;
      assert r.lines == [rs[0].value.1] + rest.lines;
      assert Leading(rs) == 1 + Leading(rs[1..]);
      forall k | 1 <= k < Leading(rs)
        ensures r.items[k] == rs[k].value.0 && r.lines[k] == rs[k].value.1
      {
        assert rs[1..][k - 1] == rs[k];
      }
    }
  }

  /** The create branch: the file is truncated and the pairs are submitted
      one by one, each appending its entry and its line. The first
      submission that raises, or answers with something other than a dict,
      stops the step with what was written so far kept. */
  function CreateBranch(entries: seq<Entry>, urls: seq<string>, submit: Submit): (r: Step)
    ensures r.Written? || r.Crash?
  {
    CreateFrom(entries, RunAll(SubmitResults(Pairs(urls), submit)))
  }

  /** What the create branch leaves after its submission loop ran. */
  function CreateFrom(entries: seq<Entry>, run: Run<Entry>): (r: Step)
    ensures r.Written? || r.Crash?
  {
    if run.error.Some? then Crash(run.error.value, entries + run.items, Text(run.lines))
    else Written(entries + run.items, Text(run.lines), false)
  }

  /** The create branch over any sequence of submission outcomes. */
  lemma CreateFromSpec(entries: seq<Entry>, rs: seq<Result<(Entry, string), string>>)
    ensures var r := CreateFrom(entries, RunAll(rs));
            var n := Leading(rs);
            && (r.Written? <==> n == |rs|)
            && !(r.Written? && r.done)
            && (r.Crash? ==> r.message == rs[n].error)
            && |r.entries| == |entries| + n
            && r.entries[..|entries|] == entries
            && (forall k :: 0 <= k < n ==> r.entries[|entries| + k] == rs[k].value.0)
            && r.file == Text(seq(n, k requires 0 <= k < n => rs[k].value.1))
  {
    RunAllSpec(rs);
    var run := RunAll(rs);
    var n := Leading(rs);
    var r := CreateFrom(entries, run);
    assert r.entries == entries + run.items;
    assert r.entries[..|entries|] == entries;
    assert run.lines == seq(n, k requires 0 <= k < n => rs[k].value.1);
    assert r.file == Text(run.lines);
  }

  // ---------------------------------------------------------------------
  // Re-reading and rewriting the control file
  // ---------------------------------------------------------------------

  /** The lines `csv.reader` sees: the text split at line breaks, where a
      final line break does not open another line. */
  function Lines(text: string): (ls: seq<string>)
    ensures forall i :: 0 <= i < |ls| ==> '\n' !in ls[i]
  {
    DropFinalEmpty(Split(text, '\n'))
  }

  /** The parts without the empty piece a final line break leaves. */
  function DropFinalEmpty(parts: seq<string>): (r: seq<string>)
    requires |parts| >= 1
    ensures r == parts || (Last(parts) == "" && r == parts[..|parts| - 1])
    ensures forall i :: 0 <= i < |r| ==> r[i] == parts[i]
  {
    if Last(parts) == "" then parts[..|parts| - 1] else parts
  }

  /** The fields `csv.reader` makes of one line that holds no quote: none
      for an empty line, otherwise the comma-separated pieces. */
  function Fields(line: string): seq<string> {
    if line == "" then [] else Split(line, ',')
  }

  /** One parsed control line; the state is already the boolean
      `state.strip().lower() == "true"`. */
  datatype ControlLine = ControlLine(engine: string, url: string, scanId: string, state: bool)

  /** `engine, url, scan_id, state = line`: exactly four fields, or the
      unpacking raises. */
  function ParseLine(line: string): (r: Result<ControlLine, string>)
    ensures r.Success? <==> |Fields(line)| == 4
    ensures r.Success? ==> (r.value.state <==> Lower(Strip(Fields(line)[3])) == "true")
    ensures r.Success? ==>
              r.value.engine == Fields(line)[0] && r.value.url == Fields(line)[1] && r.value.scanId == Fields(line)[2]
  {
    var f := Fields(line);
    if |f| < 4 then Failure("not enough values to unpack (expected 4, got " + IntToString(|f|) + ")")
    else if |f| > 4 then Failure("too many values to unpack (expected 4)")
    else Success(ControlLine(f[0], f[1], f[2], Lower(Strip(f[3])) == "true"))
  }

  function ParseResults(lines: seq<string>): (rs: seq<Result<ControlLine, string>>)
    ensures |rs| == |lines|
    ensures forall k :: 0 <= k < |lines| ==> rs[k] == ParseLine(lines[k])
  {
    seq(|lines|, k requires 0 <= k < |lines| => ParseLine(lines[k]))
  }

  /** A loop that stops at its first failure, collecting the values before
      it and reporting its error. */
  function Collect<T>(rs: seq<Result<T, string>>): (seq<T>, Option<string>)
    decreases |rs|
  {
    if rs == [] then ([], None)
    else
      match rs[0]
      case Failure(m) => ([], Some(m))
      case Success(x) =>
        var (rest, error) := Collect(rs[1..]);
        ([x] + rest, error)
  }

  /** The loop keeps exactly the values before the first failure, and
      reports an error exactly when there is one, that failure's. */
  lemma {:induction false} CollectSpec<T>(rs: seq<Result<T, string>>)
    ensures var r := Collect(rs);
            var n := Leading(rs);
            && |r.0| == n
            && (forall k :: 0 <= k < n ==> r.0[k] == rs[k].value)
            && (r.1.Some? <==> n < |rs|)
            && (r.1.Some? ==> r.1.value == rs[n].error)
    decreases |rs|
  {
    if rs != [] && rs[0].Success? {
      CollectSpec(rs[1..]);
      var r := Collect(rs);
      var tail := Collect(rs[1..]);
      assert r.0 == [rs[0].value] + tail.0;
    }
  }

  /** A loop none of whose steps fails collects every value. */
  lemma {:induction false} CollectAll<T>(rs: seq<Result<T, string>>, xs: seq<T>)
    requires |rs| == |xs|
    requires forall k :: 0 <= k < |rs| ==> rs[k] == Success(xs[k])
    ensures Collect(rs) == (xs, None)
    decreases |rs|
  {
    if rs != [] {
      assert forall k :: 0 <= k < |rs| - 1 ==> rs[1..][k] == rs[k + 1] && xs[1..][k] == xs[k + 1];
      CollectAll(rs[1..], xs[1..]);
      assert xs == [xs[0]] + xs[1..];
    }
  }

  /** The read loop: the control lines parsed before the first line that
      does not unpack, and that line's error. */
  function ParseLines(lines: seq<string>): (seq<ControlLine>, Option<string>) {
    Collect(ParseResults(lines))
  }

  /** Reading stops at the first line that does not unpack, reports its
      error, and keeps exactly the lines before it. */
  lemma ParseLinesSpec(lines: seq<string>)
    ensures var r := ParseLines(lines);
            var rs := ParseResults(lines);
            var n := Leading(rs);
            && |r.0| == n
            && (forall k :: 0 <= k < n ==> r.0[k] == rs[k].value)
            && (r.1.Some? <==> n < |lines|)
            && (r.1.Some? ==> r.1.value == rs[n].error)
  {
    CollectSpec(ParseResults(lines));
  }

  /** The job a parsed line stands for, holding `state`. */
  function JobOf(c: ControlLine, state: Value): Entry {
    Job(c.engine, c.url, VStr(c.scanId), state)
  }

  /** The entry a parsed line becomes: its state is the parsed boolean. */
  function ParsedEntry(c: ControlLine): Entry {
    JobOf(c, VBool(c.state))
  }

  function ParsedEntries(cs: seq<ControlLine>): (es: seq<Entry>)
    ensures |es| == |cs|
    ensures forall k :: 0 <= k < |cs| ==> es[k] == ParsedEntry(cs[k])
  {
    seq(|cs|, k requires 0 <= k < |cs| => ParsedEntry(cs[k]))
  }

  /** Polling one parsed job again: the new state and the text written. A
      message answer writes the message text with no line break in front of
      the job line. The stored state plays no part. */
  function RefreshLine(c: ControlLine, fetch: Fetch): (r: Result<(Value, string), string>)
    ensures r.Success? <==> Answer(fetch(ClientOf(c.engine), Strip(c.scanId))).Success?
    ensures r.Success? ==>
              var answer := Answer(fetch(ClientOf(c.engine), Strip(c.scanId))).value;
              var message := GetOr(answer, "message", VNone);
              var job := JobLine(c.engine, c.url, GetOr(answer, "id", VNone), r.value.0);
              && r.value.0 == AnswerState(c.engine, answer)
              && r.value.1 == if message == VNone then job else MessageText(c.url, message) + job
  {
    var answer :- Answer(fetch(ClientOf(c.engine), Strip(c.scanId)));
    var message := GetOr(answer, "message", VNone);
    var state := AnswerState(c.engine, answer);
    var job := JobLine(c.engine, c.url, GetOr(answer, "id", VNone), state);
    Success((state, if message == VNone then job else MessageText(c.url, message) + job))
  }

  /** Polling one parsed job again, as the entry it becomes and its text. */
  function Polled(c: ControlLine, fetch: Fetch): (r: Result<(Entry, string), string>)
    ensures r.Success? <==> RefreshLine(c, fetch).Success?
    ensures r.Success? ==> r.value == (JobOf(c, RefreshLine(c, fetch).value.0), RefreshLine(c, fetch).value.1)
  {
    var (state, text) :- RefreshLine(c, fetch);
    Success((JobOf(c, state), text))
  }

  function PollResults(cs: seq<ControlLine>, fetch: Fetch): (rs: seq<Result<(Entry, string), string>>)
    ensures |rs| == |cs|
    ensures forall k :: 0 <= k < |cs| ==> rs[k] == Polled(cs[k], fetch)
  {
    seq(|cs|, k requires 0 <= k < |cs| => Polled(cs[k], fetch))
  }

  /** The rewrite branch over the parsed jobs: each poll replaces its job's
      state and writes its text; the first poll that fails stops the step,
      leaving the jobs after it as they were read. A full pass is done when
      every job's state equals True. */
  function ResumeBranch(parsed: seq<ControlLine>, fetch: Fetch): (r: Step)
    ensures r.Written? || r.Crash?
  {
    ResumeFrom(parsed, RunAll(PollResults(parsed, fetch)))
  }

  /** What the rewrite branch leaves after its polling loop ran. */
  function ResumeFrom(parsed: seq<ControlLine>, run: Run<Entry>): (r: Step)
    requires |run.items| <= |parsed|
    ensures r.Written? || r.Crash?
  {
    if run.error.Some? then Crash(run.error.value, run.items + ParsedEntries(parsed[|run.items|..]), Text(run.lines))
    else Written(run.items, Text(run.lines), AllTrue(run.items))
  }

  /** The rewrite branch over any sequence of poll outcomes, one per parsed
      line. */
  lemma ResumeFromSpec(parsed: seq<ControlLine>, rs: seq<Result<(Entry, string), string>>)
    requires |rs| == |parsed|
    ensures var r := ResumeFrom(parsed, RunAll(rs));
            var n := Leading(rs);
            && (r.Written? <==> n == |parsed|)
            && (r.Written? ==> (r.done <==> AllTrue(r.entries)))
            && (r.Crash? ==> r.message == rs[n].error)
            && |r.entries| == |parsed|
            && (forall k :: 0 <= k < n ==> r.entries[k] == rs[k].value.0)
            && (forall k :: n <= k < |parsed| ==> r.entries[k] == ParsedEntry(parsed[k]))
            && r.file == Text(seq(n, k requires 0 <= k < n => rs[k].value.1))
  {
    RunAllSpec(rs);
    var run := RunAll(rs);
    var n := Leading(rs);
    var r := ResumeFrom(parsed, run);
    assert run.lines == seq(n, k requires 0 <= k < n => rs[k].value.1);
    if run.error.Some? {
      var rest := ParsedEntries(parsed[n..]);
      assert r.entries == run.items + rest;
      forall k | n <= k < |parsed|
        ensures r.entries[k] == ParsedEntry(parsed[k])
      {
        UnpolledEntry(parsed, n, k);
      }
    }
  }

  /** One run of `__generate_urls_file_control`, given `control_urls`, the
      control file's text (empty when the file is missing) and the URLs read
      from the input file. */
  function ControlStep(entries: seq<Entry>, file: string, urls: seq<string>, submit: Submit, fetch: Fetch): (r: Step)
    ensures r.Exit? <==> HasMessage(entries)
    ensures r.Exit? ==> r == Exit(entries, file)
    ensures r.Written? && r.done ==> file != "" && AllTrue(r.entries)
    ensures !HasMessage(entries) && file == "" ==> r == CreateBranch(entries, urls, submit)
    ensures !HasMessage(entries) && file != "" && ParseLines(Lines(file)).1 == None ==>
              r == ResumeBranch(ParseLines(Lines(file)).0, fetch)
  {
    if HasMessage(entries) then Exit(entries, file)
    else if file == "" then CreateBranch(entries, urls, submit)
    else
      var (parsed, error) := ParseLines(Lines(file));
      if error.Some? then Crash(error.value, ParsedEntries(parsed), file)
      else ResumeBranch(parsed, fetch)
  }

  // ---------------------------------------------------------------------
  // Properties of one step
  // ---------------------------------------------------------------------

  /** The create branch keeps the entry of every submission before the
      first failing one, in order, and nothing else; it ends normally
      exactly when no submission fails, and never marks the work done. */
  lemma CreateBranchEntries(entries: seq<Entry>, urls: seq<string>, submit: Submit)
    ensures var r := CreateBranch(entries, urls, submit);
            var rs := SubmitResults(Pairs(urls), submit);
            var n := Leading(rs);
            && (r.Written? <==> n == 2 * |urls|)
            && !(r.Written? && r.done)
            && (r.Crash? ==> r.message == rs[n].error)
            && |r.entries| == |entries| + n
            && r.entries[..|entries|] == entries
            && (forall k :: 0 <= k < n ==> r.entries[|entries| + k] == rs[k].value.0)
  {
    CreateFromSpec(entries, SubmitResults(Pairs(urls), submit));
  }

  /** The create branch leaves in the file the line of every submission
      before the first failing one, in order, and nothing else. */
  lemma CreateBranchFile(entries: seq<Entry>, urls: seq<string>, submit: Submit)
    ensures var rs := SubmitResults(Pairs(urls), submit);
            var n := Leading(rs);
            CreateBranch(entries, urls, submit).file == Text(seq(n, k requires 0 <= k < n => rs[k].value.1))
  {
    CreateFromSpec(entries, SubmitResults(Pairs(urls), submit));
  }

  /** The create branch submits every URL to RecordedFuture first, then
      every URL to HybridAnalysis, each in input order. */
  lemma CreateBranchOrder(entries: seq<Entry>, urls: seq<string>, submit: Submit)
    ensures var r := CreateBranch(entries, urls, submit);
            var n := |r.entries| - |entries|;
            && (forall u :: 0 <= u < |urls| && u < n ==>
                  r.entries[|entries| + u].url == urls[u] &&
                  (r.entries[|entries| + u].Job? ==> r.entries[|entries| + u].engine == "RecordedFuture"))
            && (forall u :: 0 <= u < |urls| && |urls| + u < n ==>
                  r.entries[|entries| + |urls| + u].url == urls[u] &&
                  (r.entries[|entries| + |urls| + u].Job? ==> r.entries[|entries| + |urls| + u].engine == "HybridAnalysis"))
  {
    CreateBranchEntries(entries, urls, submit);
    var r := CreateBranch(entries, urls, submit);
    var ps := Pairs(urls);
    var rs := SubmitResults(ps, submit);
    forall u | 0 <= u < |urls| && u < |r.entries| - |entries|
      ensures r.entries[|entries| + u].url == urls[u]
      ensures r.entries[|entries| + u].Job? ==> r.entries[|entries| + u].engine == "RecordedFuture"
    {
      assert r.entries[|entries| + u] == rs[u].value.0;
      assert ps[u] == ("RecordedFuture", urls[u]);
    }
    forall u | 0 <= u < |urls| && |urls| + u < |r.entries| - |entries|
      ensures r.entries[|entries| + |urls| + u].url == urls[u]
      ensures r.entries[|entries| + |urls| + u].Job? ==> r.entries[|entries| + |urls| + u].engine == "HybridAnalysis"
    {
      assert r.entries[|entries| + (|urls| + u)] == rs[|urls| + u].value.0;
      assert ps[|urls| + u] == ("HybridAnalysis", urls[u]);
    }
  }

  /** The rewrite branch gives every job polled before the first failing
      poll the state of its answer, whatever state the file held for it; it
      ends normally exactly when no poll fails, and is then done exactly
      when every state equals True. */
  lemma ResumeBranchEntries(parsed: seq<ControlLine>, fetch: Fetch)
    ensures var r := ResumeBranch(parsed, fetch);
            var rs := PollResults(parsed, fetch);
            var n := Leading(rs);
            && (r.Written? <==> n == |parsed|)
            && (r.Written? ==> (r.done <==> AllTrue(r.entries)))
            && (r.Crash? ==> r.message == rs[n].error)
            && |r.entries| == |parsed|
            && (forall k :: 0 <= k < n ==> r.entries[k] == JobOf(parsed[k], RefreshLine(parsed[k], fetch).value.0))
  {
    ResumeFromSpec(parsed, PollResults(parsed, fetch));
  }

  /** A failing poll leaves every job after it as it was read. */
  lemma ResumeBranchKeepsUnpolled(parsed: seq<ControlLine>, fetch: Fetch, k: nat)
    requires Leading(PollResults(parsed, fetch)) <= k < |parsed|
    ensures var r := ResumeBranch(parsed, fetch);
            k < |r.entries| && r.entries[k] == ParsedEntry(parsed[k])
  {
    ResumeFromSpec(parsed, PollResults(parsed, fetch));
  }

  lemma UnpolledEntry(parsed: seq<ControlLine>, n: nat, k: nat)
    requires n <= k < |parsed|
    ensures ParsedEntries(parsed[n..])[k - n] == ParsedEntry(parsed[k])
  {
    assert parsed[n..][k - n] == parsed[k];
  }

  /** The rewrite branch leaves in the file the text of every poll before
      the first failing one, in order, and nothing else. */
  lemma ResumeBranchFile(parsed: seq<ControlLine>, fetch: Fetch)
    ensures var rs := PollResults(parsed, fetch);
            var n := Leading(rs);
            ResumeBranch(parsed, fetch).file == Text(seq(n, k requires 0 <= k < n => rs[k].value.1))
  {
    ResumeFromSpec(parsed, PollResults(parsed, fetch));
  }

  /** A file that cannot be read back is left as it was. */
  lemma UnreadableFileKept(entries: seq<Entry>, file: string, urls: seq<string>, submit: Submit, fetch: Fetch)
    requires !HasMessage(entries) && file != ""
    requires ParseLines(Lines(file)).1.Some?
    ensures var r := ControlStep(entries, file, urls, submit, fetch);
            r.Crash? && r.message == ParseLines(Lines(file)).1.value && r.file == file
  {
  }

  /** A message entry kept by the create branch makes the next step stop,
      whatever the control file then holds. */
  lemma MessageEntryStopsNextStep(entries: seq<Entry>, urls: seq<string>, submit: Submit, k: nat,
                                  file: string, urls': seq<string>, submit': Submit, fetch: Fetch)
    requires var r := CreateBranch(entries, urls, submit);
             |entries| + k < |r.entries| && r.entries[|entries| + k].Message?
    ensures var r := CreateBranch(entries, urls, submit);
            ControlStep(r.entries, file, urls', submit', fetch) == Exit(r.entries, file)
  {
    CreateBranchEntries(entries, urls, submit);
    var r := CreateBranch(entries, urls, submit);
    var rs := SubmitResults(Pairs(urls), submit);
    var e := r.entries[|entries| + k];
    assert e == rs[k].value.0;
    MessageItem(e);
    assert HasMessage(r.entries) by {
      assert IsMessageItem(r.entries[|entries| + k].Items()[1]);
    }
  }

  /** A text "message: ..." mentions "message:". */
  lemma MessageItem(e: Entry)
    requires e.Message? && exists m :: e.text == "message: " + m
    ensures IsMessageItem(e.Items()[1])
  {
    var m :| e.text == "message: " + m;
    assert "message: " + m == "message:" + (" " + m);
    StartsWithAppend("message:", " " + m);
  }

  // ---------------------------------------------------------------------
  // Reading back what was written
  // ---------------------------------------------------------------------

  /** Splitting at line breaks takes off a first line that holds none. */
  lemma SplitFirstLine(x: string, t: string)
    requires '\n' !in x
    ensures Split(x + "\n" + t, '\n') == [x] + Split(t, '\n')
  {
    var s := x + "\n" + t;
    FindCharJoined(x, '\n', t);
    assert s[..|x|] == x;
    assert s[|x| + 1..] == t;
  }

  /** Dropping the final empty piece does not reach a first piece that
      has others behind it. */
  lemma DropFinalEmptyCons(x: string, p: seq<string>)
    requires |p| >= 1
    ensures DropFinalEmpty([x] + p) == [x] + DropFinalEmpty(p)
  {
    assert Last([x] + p) == Last(p);
    if Last(p) == "" {
      assert ([x] + p)[..|p|] == [x] + p[..|p| - 1];
    }
  }

  /** A first line that holds no line break is the first of the lines. */
  lemma LinesCons(x: string, t: string)
    requires '\n' !in x
    ensures Lines(x + "\n" + t) == [x] + Lines(t)
  {
    SplitFirstLine(x, t);
    DropFinalEmptyCons(x, Split(t, '\n'));
  }

  /** The lines of a text written line by line are those lines. */
  lemma {:induction false} LinesOfText(ls: seq<string>)
    requires forall i :: 0 <= i < |ls| ==> '\n' !in ls[i]
    ensures Lines(Text(ls)) == ls
  {
    if ls == [] {
      assert Split("", '\n') == [""];
    } else {
      LinesOfText(ls[1..]);
      LinesOfTextStep(ls);
    }
  }

  lemma LinesOfTextStep(ls: seq<string>)
    requires |ls| > 0 && '\n' !in ls[0]
    requires Lines(Text(ls[1..])) == ls[1..]
    ensures Lines(Text(ls)) == ls
  {
    assert Text(ls) == ls[0] + "\n" + Text(ls[1..]);
    LinesCons(ls[0], Text(ls[1..]));
    assert ls == [ls[0]] + ls[1..];
  }

  predicate Clean(s: string) {
    ',' !in s && '\n' !in s
  }

  lemma JoinFour(a: string, b: string, c: string, d: string, sep: char)
    ensures Join([a, b, c, d], sep) == a + [sep] + b + [sep] + c + [sep] + d
  {
    assert [a, b, c, d][1..] == [b, c, d];
    assert [b, c, d][1..] == [c, d];
    assert [c, d][1..] == [d];
    assert Join([d], sep) == d;
    assert Join([c, d], sep) == c + [sep] + d;
    assert Join([b, c, d], sep) == b + [sep] + (c + [sep] + d);
    assert Join([a, b, c, d], sep) == a + [sep] + (b + [sep] + (c + [sep] + d));
  }

  /** `csv.reader` splits a job line back into its four fields, each but the
      first now starting with the blank written after the comma. */
  lemma JobLineFields(engine: string, url: string, id: Value, state: Value)
    requires Clean(engine) && Clean(url) && Clean(Str(id)) && Clean(Str(state))
    ensures ParseLine(JobLine(engine, url, id, state)) ==
              Success(ControlLine(engine, " " + url, " " + Str(id), Lower(Strip(" " + Str(state))) == "true"))
  {
    var b, c, d := " " + url, " " + Str(id), " " + Str(state);
    assert JobLine(engine, url, id, state) == engine + [','] + b + [','] + c + [','] + d;
    FieldsFour(engine, b, c, d);
  }

  /** Four comma-free fields joined with commas split back into themselves. */
  lemma FieldsFour(a: string, b: string, c: string, d: string)
    requires ',' !in a && ',' !in b && ',' !in c && ',' !in d
    ensures Fields(a + [','] + b + [','] + c + [','] + d) == [a, b, c, d]
  {
    JoinFour(a, b, c, d, ',');
    SplitJoin([a, b, c, d], ',');
  }

  /** The blank in front of a written boolean is stripped off again. */
  lemma StripBlankBool(b: bool)
    ensures Strip(" " + Str(VBool(b))) == Str(VBool(b))
  {
    var t := Str(VBool(b));
    assert " " + t == [' '] + t;
    StripLeadingBlank(t);
    StripUnpadded(t);
  }

  /** A boolean state written as `True`/`False` reads back as itself. */
  lemma BoolStateReadsBack(b: bool)
    ensures (Lower(Strip(" " + Str(VBool(b)))) == "true") == b
  {
    StripBlankBool(b);
    LowerOfBoolText(b);
  }

  /** A job line made of clean fields holds no line break. */
  lemma JobLineClean(engine: string, url: string, id: Value, state: Value)
    requires Clean(engine) && Clean(url) && Clean(Str(id)) && Clean(Str(state))
    ensures '\n' !in JobLine(engine, url, id, state)
  {
  }

  /** The line the create branch wrote for a job entry is that job's line. */
  lemma CreatedLine(entries: seq<Entry>, urls: seq<string>, submit: Submit, k: nat)
    requires var rs := SubmitResults(Pairs(urls), submit);
             k < Leading(rs) && rs[k].value.0.Job?
    ensures var rs := SubmitResults(Pairs(urls), submit);
            var e := rs[k].value.0;
            rs[k].value.1 == JobLine(e.engine, e.url, e.scanId, e.state)
  {
  }

  /** A job whose fields hold no comma or line break. */
  predicate CleanJob(e: Entry) {
    e.Job? && Clean(e.engine) && Clean(e.url) && Clean(Str(e.scanId)) && Clean(Str(e.state))
  }

  /** The control line a job's written line reads back as: the URL and the
      scan id keep the blank written after each comma. */
  function ReadBack(e: Entry): ControlLine
    requires e.Job?
  {
    ControlLine(e.engine, " " + e.url, " " + Str(e.scanId), Lower(Strip(" " + Str(e.state))) == "true")
  }

  function EntryLine(e: Entry): string
    requires e.Job?
  {
    JobLine(e.engine, e.url, e.scanId, e.state)
  }

  predicate AllJobs(es: seq<Entry>) {
    forall k :: 0 <= k < |es| ==> es[k].Job?
  }

  /** The lines written for a sequence of jobs. */
  function JobLines(es: seq<Entry>): (ls: seq<string>)
    requires AllJobs(es)
    ensures |ls| == |es| && forall k :: 0 <= k < |es| ==> ls[k] == EntryLine(es[k])
  {
    seq(|es|, k requires 0 <= k < |es| => EntryLine(es[k]))
  }

  /** The control lines a sequence of jobs reads back as. */
  function ReadBacks(es: seq<Entry>): (cs: seq<ControlLine>)
    requires AllJobs(es)
    ensures |cs| == |es| && forall k :: 0 <= k < |es| ==> cs[k] == ReadBack(es[k])
  {
    seq(|es|, k requires 0 <= k < |es| => ReadBack(es[k]))
  }

  /** The text of clean jobs' lines reads back into their control lines. */
  lemma JobsReadBack(es: seq<Entry>)
    requires AllJobs(es) && forall k :: 0 <= k < |es| ==> CleanJob(es[k])
    ensures ParseLines(Lines(Text(JobLines(es)))) == (ReadBacks(es), None)
  {
    var ls := JobLines(es);
    var cs := ReadBacks(es);
    forall k | 0 <= k < |es|
      ensures '\n' !in ls[k] && ParseLine(ls[k]) == Success(cs[k])
    {
      JobLineParses(es[k]);
    }
    ReadBackLines(ls, cs);
  }

  /** The create branch wrote, line by line, the lines of the jobs it
      recorded. */
  lemma CreatedText(entries: seq<Entry>, urls: seq<string>, submit: Submit)
    requires var r := CreateBranch(entries, urls, submit);
             forall k :: |entries| <= k < |r.entries| ==> r.entries[k].Job?
    ensures var r := CreateBranch(entries, urls, submit);
            AllJobs(r.entries[|entries|..]) && r.file == Text(JobLines(r.entries[|entries|..]))
  {
    CreatedJobs(entries, urls, submit);
    CreateBranchFile(entries, urls, submit);
    var r := CreateBranch(entries, urls, submit);
    var jobs := r.entries[|entries|..];
    LinesOfJobs(SubmitResults(Pairs(urls), submit), jobs);
  }

  /** Each job the create branch recorded came with its own line. */
  lemma CreatedJobs(entries: seq<Entry>, urls: seq<string>, submit: Submit)
    requires var r := CreateBranch(entries, urls, submit);
             forall k :: |entries| <= k < |r.entries| ==> r.entries[k].Job?
    ensures var r := CreateBranch(entries, urls, submit);
            var rs := SubmitResults(Pairs(urls), submit);
            var jobs := r.entries[|entries|..];
            && |jobs| == Leading(rs)
            && AllJobs(jobs)
            && forall k :: 0 <= k < |jobs| ==> rs[k].Success? && rs[k].value.1 == EntryLine(jobs[k])
  {
    CreateBranchEntries(entries, urls, submit);
    var r := CreateBranch(entries, urls, submit);
    var rs := SubmitResults(Pairs(urls), submit);
    var jobs := r.entries[|entries|..];
    forall k | 0 <= k < |jobs|
      ensures rs[k].Success? && rs[k].value.1 == EntryLine(jobs[k])
    {
      assert jobs[k] == r.entries[|entries| + k] == rs[k].value.0;
      CreatedLine(entries, urls, submit, k);
    }
  }

  /** The lines of steps that each recorded a job are those jobs' lines. */
  lemma LinesOfJobs(rs: seq<Result<(Entry, string), string>>, jobs: seq<Entry>)
    requires |jobs| <= |rs| && AllJobs(jobs)
    requires forall k :: 0 <= k < |jobs| ==> rs[k].Success? && rs[k].value.1 == EntryLine(jobs[k])
    ensures seq(|jobs|, k requires 0 <= k < |jobs| => rs[k].value.1) == JobLines(jobs)
  {
  }

  /** A control file the create branch wrote without any message reads
      back line by line into its jobs: engine and state as written (a
      boolean state as itself), the URL and the scan id each behind one
      more blank. */
  lemma WrittenJobsReadBack(entries: seq<Entry>, urls: seq<string>, submit: Submit)
    requires var r := CreateBranch(entries, urls, submit);
             forall k :: |entries| <= k < |r.entries| ==> CleanJob(r.entries[k])
    ensures var r := CreateBranch(entries, urls, submit);
            var parsed := ParseLines(Lines(r.file));
            && parsed.1 == None
            && |parsed.0| == |r.entries| - |entries|
            && forall k :: 0 <= k < |parsed.0| ==>
                 var e := r.entries[|entries| + k];
                 && parsed.0[k] == ControlLine(e.engine, " " + e.url, " " + Str(e.scanId), Lower(Strip(" " + Str(e.state))) == "true")
                 && (e.state.VBool? ==> parsed.0[k].state == e.state.b)
  {
    CreateBranchEntries(entries, urls, submit);
    var r := CreateBranch(entries, urls, submit);
    var jobs := r.entries[|entries|..];
    CreatedText(entries, urls, submit);
    JobsReadBack(jobs);
    forall k | 0 <= k < |jobs|
      ensures jobs[k].state.VBool? ==> ReadBack(jobs[k]).state == jobs[k].state.b
    {
      if jobs[k].state.VBool? {
        BoolStateReadsBack(jobs[k].state.b);
      }
    }
  }

  /** A job line made of clean fields holds no line break and reads back
      into its fields. */
  lemma JobLineParses(e: Entry)
    requires e.Job? && Clean(e.engine) && Clean(e.url) && Clean(Str(e.scanId)) && Clean(Str(e.state))
    ensures '\n' !in JobLine(e.engine, e.url, e.scanId, e.state)
    ensures ParseLine(JobLine(e.engine, e.url, e.scanId, e.state)) ==
              Success(ControlLine(e.engine, " " + e.url, " " + Str(e.scanId), Lower(Strip(" " + Str(e.state))) == "true"))
  {
    JobLineClean(e.engine, e.url, e.scanId, e.state);
    JobLineFields(e.engine, e.url, e.scanId, e.state);
  }

  /** Lines that each unpack, written as a text, read back into exactly
      their control lines, with no error. */
  lemma ReadBackLines(ls: seq<string>, cs: seq<ControlLine>)
    requires |ls| == |cs|
    requires forall k :: 0 <= k < |ls| ==> '\n' !in ls[k] && ParseLine(ls[k]) == Success(cs[k])
    ensures ParseLines(Lines(Text(ls))) == (cs, None)
  {
    LinesOfText(ls);
    ParseAll(ls, cs);
  }

  /** Lines that each unpack are read in full, with no error. */
  lemma ParseAll(ls: seq<string>, cs: seq<ControlLine>)
    requires |ls| == |cs|
    requires forall k :: 0 <= k < |ls| ==> ParseLine(ls[k]) == Success(cs[k])
    ensures ParseLines(ls) == (cs, None)
  {
    CollectAll(ParseResults(ls), cs);
  }

  /** Splitting at a separator gives one piece more than there are
      separators. */
  lemma {:induction false} SplitCount(s: string, sep: char)
    ensures |Split(s, sep)| == multiset(s)[sep] + 1
    decreases |s|
  {
    var i := FindChar(s, sep);
    if i >= 0 {
      assert s == s[..i] + [sep] + s[i + 1..];
      assert multiset(s) == multiset(s[..i]) + multiset([sep]) + multiset(s[i + 1..]);
      SplitCount(s[i + 1..], sep);
    }
  }

  /** A poll whose answer carries a message writes the message text and the
      job line as one line of five fields, so the next step's read of the
      file raises. */
  lemma MessageLineUnreadable(c: ControlLine, fetch: Fetch)
    requires RefreshLine(c, fetch).Success?
    requires var answer := Answer(fetch(ClientOf(c.engine), Strip(c.scanId))).value;
             var message := GetOr(answer, "message", VNone);
             && message != VNone
             && Clean(c.engine) && Clean(c.url) && Clean(Str(message))
             && Clean(Str(GetOr(answer, "id", VNone))) && Clean(Str(RefreshLine(c, fetch).value.0))
    ensures |Fields(RefreshLine(c, fetch).value.1)| == 5
    ensures ParseLine(RefreshLine(c, fetch).value.1).Failure?
  {
    var answer := Answer(fetch(ClientOf(c.engine), Strip(c.scanId))).value;
    var message := GetOr(answer, "message", VNone);
    var id := GetOr(answer, "id", VNone);
    var state := RefreshLine(c, fetch).value.0;
    var text := RefreshLine(c, fetch).value.1;
    assert text == MessageText(c.url, message) + JobLine(c.engine, c.url, id, state);
    MessageLineCommas(c.url, message, c.engine, id, state);
    FourCommas(text);
  }

  /** A line holding four commas has five fields and does not unpack. */
  lemma FourCommas(text: string)
    requires multiset(text)[','] == 4
    ensures |Fields(text)| == 5 && ParseLine(text).Failure?
  {
    assert text != "";
    SplitCount(text, ',');
  }

  /** Gluing two texts with ", " adds one comma to theirs. */
  lemma CommaGlue(a: string, b: string)
    ensures multiset(a + ", " + b)[','] == multiset(a)[','] + multiset(b)[','] + 1
  {
    assert multiset(", ")[','] == 1;
  }

  lemma NoComma(x: string)
    requires ',' !in x
    ensures multiset(x)[','] == 0
  {
  }

  lemma MessageCommas(url: string, m: string)
    requires Clean(url) && Clean(m)
    ensures multiset(url + ", message: " + m)[','] == 1
  {
    NoComma(m);
    NoComma(url);
    assert multiset(url + ", message: " + m) == multiset(url) + multiset(", message: ") + multiset(m);
    assert multiset(", message: ")[','] == 1;
  }

  lemma JobCommas(engine: string, url: string, id: string, st: string)
    requires Clean(engine) && Clean(url) && Clean(id) && Clean(st)
    ensures multiset(engine + ", " + url + ", " + id + ", " + st)[','] == 3
  {
    NoComma(url);
    NoComma(engine);
    NoComma(id);
    NoComma(st);
    CommaGlue(engine, url);
    CommaGlue(engine + ", " + url, id);
    CommaGlue(engine + ", " + url + ", " + id, st);
  }

  lemma MessageLineCommas(url: string, m: Value, engine: string, id: Value, st: Value)
    requires Clean(url) && Clean(Str(m)) && Clean(engine) && Clean(Str(id)) && Clean(Str(st))
    ensures multiset(MessageText(url, m) + JobLine(engine, url, id, st))[','] == 4
  {
    var a := MessageText(url, m);
    var b := JobLine(engine, url, id, st);
    MessageCommas(url, Str(m));
    JobCommas(engine, url, Str(id), Str(st));
    assert multiset(a + b) == multiset(a) + multiset(b);
  }
}
