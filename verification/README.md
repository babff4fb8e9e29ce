# URL scanner job ledger and report aggregation, in Dafny

This project models the core of a URL-scanning tool. The tool submits every
URL of an input file to two scan engines: RecordedFuture and
HybridAnalysis. It keeps a control file, the job ledger, with one line per
(engine, URL) job. It polls the engines until every job is complete. It then
fetches each finished scan once more and writes one report row per URL.

The core exists twice in the repository, and both versions are modelled:

- The refactored processor `src/utils/url_file_processor.py`.
  - `Ledger` covers creating, reading and refreshing the control file.
  - `Extraction` covers turning an engine answer into report columns.
  - `Report` covers the per-URL rows, the header and the written report.
  - `ReportContents` states what the gathered rows hold and works the header example through.
- The original single-file scanner `main.py`.
  - `LegacyLedger` covers `URLFileScanner.__generate_urls_file_control`.
  - `LegacyReport` covers `ResultsFileGenerator.generate`.
- The scan cache `src/utils/cache.py` is modelled in `Cache`.

Supporting modules:

- `Wrappers`: `Option` and `Result`.
- `Dicts`: a Python dict as an insertion-ordered association list. `Get` reads the last binding. `Set` replaces in place or appends.
- `Values`: decoded JSON values, Python truthiness and `str()`.
- `Strings`: `strip`, `lower`, `split` and `startswith`.
- `Sorting`: Python's string order and `sorted`.

External calls are parameters:

- `scan_url` and `retrieve_scan_results` are oracle functions. They return a decoded value or raise a message.
- Polling gets one fetch oracle per cycle, because an engine answers differently as time passes. The length of that sequence bounds how many cycles are modelled.
- The clock is an integer parameter. In `Cache` it is `now`; in `Report` it is a `Clock` giving the stamp of the n-th new row.
- Files are values: the refactored control file is a sequence of CSV rows, and the legacy control file is its text.

The model follows the code throughout, including these behaviours of it:

- **A resumed failed submission never ends polling.** A job whose submission raised is written with scan id `"error"` but is not kept in memory. The run that creates the control file therefore drops that row at its first refresh pass and can finish. A later run that resumes a control file still holding the row reads it back with state false. It is never fetched, and the stop test `all_completed` never counts it as finished, so that run polls forever (Finding 1).
- **The header comes from the first row.** It is built only from the first URL's row, as the `ha_` columns sorted and then the `rf_` columns sorted. Columns of other rows and of the existing report that the first row lacks are dropped (Finding 2).
- **Sentinels differ.** The refactored report writes "No results" for a missing cell; the legacy report writes "N/A".
- **Failed URLs get no row.** A URL with no completed, fetchable job has no row at all, not a row of sentinels.
- **Empty answers still add columns.** A RecordedFuture answer with no tasks adds six "No results" columns.
- **Repeated task ids collapse.** A task id given twice in a decoded answer keeps its last value at its first position, as a decoded JSON object does.
- **Writes are not atomic.** The code rewrites the file in place, so the legacy crash states keep whatever was written before the failing call.
- **Polling has no bound.** The code polls once a minute until every state is truthy; no maximum number of cycles forces the remaining jobs to fail.

## Model

| member | source | states |
|---|---|---|
| Ledger.Completion | src/utils/url_file_processor.py:63-64 | `completed` takes precedence over `finished`, which defaults to False; a non-dict answer fails |
| Ledger.SubmitPair | src/utils/url_file_processor.py:61-69 | a submission is accepted iff `scan_url` returns a dict; the record holds the answer's `id` and completion flag; a raise becomes a rejection with its message |
| Ledger.SubmissionRow | src/utils/url_file_processor.py:65-69 | a rejected submission writes `[engine, url, "error", message]`; every row starts with engine and URL |
| Ledger.SubmitAllAt | src/utils/url_file_processor.py:59-60 | submissions go URL by URL and, within a URL, engine by engine: pair (e, u) is the `u*|engines|+e`-th |
| Ledger.CreateControlFile | src/utils/url_file_processor.py:55-69 | one row per (URL, engine) pair at its slot; there is one in-memory record per accepted submission, and an accepted pair's record follows the records of the accepted pairs before it |
| Ledger.AcceptedRecordsAt | src/utils/url_file_processor.py:59-66 | the record of the j-th submission, when accepted, sits at the index given by how many submissions before it were accepted |
| Ledger.AcceptedPairAt | src/utils/url_file_processor.py:59-66 | the record of an accepted (URL, engine) pair sits after the records of the accepted pairs submitted before it |
| Ledger.CreatedRecordsDistinct | src/utils/url_file_processor.py:59-66 | with distinct URLs and engines, no two records share engine and URL |
| Ledger.ParseControl | src/utils/url_file_processor.py:71-81 | exactly the 4-field rows are read, in order, with the state true iff its text lower-cases to "true" |
| Ledger.ParseControlSkips | src/utils/url_file_processor.py:77-78 | a row without exactly four fields contributes nothing |
| Ledger.PlainRoundTrip | src/utils/url_file_processor.py:71-81 | records with string ids and boolean states survive a write and a read unchanged |
| Ledger.RecordRowsRoundTrip | src/utils/url_file_processor.py:71-81 | a written record reads back with its id as CSV text and its state as "is that text true" |
| Ledger.Initialize | src/utils/url_file_processor.py:49-53 | an empty control file gives exactly the ledger of a fresh creation, with one row per pair; any other is read back as it is |
| Ledger.ResumeDoesNotSubmit | src/utils/url_file_processor.py:49-53 | resuming from a non-empty control file never depends on `scan_url` |
| Ledger.CreatedFileReadsBack | src/utils/url_file_processor.py:55-81 | the created file reads back one record per pair at its slot: accepted ones as their reloaded records, rejected ones with scan id "error" and a state that is true only if the message text is "true" |
| Ledger.RefreshRecord | src/utils/url_file_processor.py:90-99 | only pending records are fetched; a raise sets the state to False; an answer sets its completion flag; identity fields never change |
| Ledger.RefreshPass | src/utils/url_file_processor.py:83-109 | every record is refreshed and rewritten in order; the pass is done iff every new state is truthy; a raising fetch never completes a record |
| Ledger.RefreshMonotonic | src/utils/url_file_processor.py:93-99 | a truthy state stays truthy; a raising fetch never makes a record complete |
| Ledger.DoneIsMonotonic | src/utils/url_file_processor.py:93-103 | a completed ledger is left unchanged by a refresh and stays completed |
| Ledger.RefreshedBy | src/utils/url_file_processor.py:83-105 | the records after one refresh pass per cycle keep their count and identities, and records that were not pending are unchanged |
| Ledger.Poll | src/utils/url_file_processor.py:43-47 | the records are those after the passes run, and the file is the initial one until a pass rewrites it; polling stops at the first pass that finds every record complete, and is done exactly then; finished records are untouched, and a false "error" row means it never stops |
| Ledger.ResumedErrorRowNeverCompletes | src/utils/url_file_processor.py:93-108 | as written, a resumed "error" row is never complete, even when the engines report every pending scan finished |
| Ledger.PollCorrected | src/utils/url_file_processor.py:83-109 | with the corrected stop test, polling stops at the first pass after which every record is complete or a failed submission, and one cycle answering every pending scan complete ends it after one pass |
| Ledger.FirstPassSettles | src/utils/url_file_processor.py:93-103 | one cycle that reports every pending scan complete settles every record |
| Extraction.HybridCell | src/utils/url_file_processor.py:140-144 | a dict scanner entry collapses to its `status` (default "No results"); any other entry is kept |
| Extraction.ExtractHybridAnalysis | src/utils/url_file_processor.py:138-146 | column `ha_<n>` exists iff scanner n does and holds its cell; every column is `ha_`; non-dict answers fail |
| Extraction.TaskWrites | src/utils/url_file_processor.py:118-129 | a non-dict task writes nothing; with a truthy scan id a task whose id lacks that prefix writes nothing, and a non-string scan id fails; otherwise status and score go under `rf_<engine>` with "No results" defaults |
| Extraction.NoTaskColumns | src/utils/url_file_processor.py:131-137 | an answer without tasks gives exactly the six fixed `rf_` columns, all "No results" |
| Extraction.ExtractRecordedFuture | src/utils/url_file_processor.py:115-137 | a non-dict answer gives no columns; the columns are the task writes, all `rf_`; a non-dict `tasks` fails |
| Extraction.KeptTaskHolds | src/utils/url_file_processor.py:118-129 | a kept task whose two columns no later task writes leaves its status and score ("No results" when missing) in the data |
| Extraction.TaskColumnsHeld | src/utils/url_file_processor.py:115-129 | the same for the tasks of a whole answer, each task id counted once |
| Extraction.LastTaskWins | src/utils/url_file_processor.py:118-129 | the last task listed, when kept (a dict, with an id that starts with a truthy scan id), leaves its status and score under its engine's two columns, over any earlier task of the same engine name |
| Report.Contribute | src/utils/url_file_processor.py:155-164 | an eligible, fetchable record adds its URL's row if new and writes its columns into it; old columns are kept |
| Report.EnginePass | src/utils/url_file_processor.py:153-166 | after one loop a URL has a row iff it had one or some record of it contributed |
| Report.Aggregate | src/utils/url_file_processor.py:148-183 | the rows are well formed, and a URL has a row iff some record of it contributed in either pass |
| Report.IneligibleIgnored | src/utils/url_file_processor.py:155 | a record that is not complete, or whose id is "error", never changes the rows |
| Report.Headers | src/utils/url_file_processor.py:188-194 | "url", "generated_at", the sorted `ha_` columns and the sorted `rf_` columns of the first row; no row fails |
| Report.Cells | src/utils/url_file_processor.py:215-217 | each header's cell is the row's value, or "No results" when the row lacks it |
| Report.WriteResults | src/utils/url_file_processor.py:198-217 | the old rows, then the new rows, all written under the new header |
| Report.ExistingRowPreserved | src/utils/url_file_processor.py:201-217 | an old row whose columns are the header's reads back unchanged after the rewrite |
| Report.MissingColumnPadded | src/utils/url_file_processor.py:216 | a header column a row lacks is written as "No results" |
| Report.GenerateResults | src/utils/url_file_processor.py:148-196 | the report fails iff no row was gathered; otherwise its header is that of the first gathered row, the old rows come first and then one per gathered URL, each as its cells under that header |
| ReportContents.AggregateRows | src/utils/url_file_processor.py:148-186 | one row per URL in the order URLs first contributed, RecordedFuture's loop first; the i-th new row carries the i-th clock reading; each engine column holds what the last contributing record of that URL wrote there |
| ReportContents.FirstRowHidesColumns | src/utils/url_file_processor.py:190-194 | as written, a second URL's HybridAnalysis verdict is in no cell of the report |
| Report.HeadersCorrected | src/utils/url_file_processor.py:188-194 | the corrected header holds every column of every row, each prefix group strictly sorted |
| Report.CorrectedHeaderKeepsColumns | src/utils/url_file_processor.py:188-217 | with the corrected header every value of every row appears in its row's cells |
| Report.GenerateResultsCorrected | src/utils/url_file_processor.py:148-196 | the corrected report's header covers every column of every gathered row |
| Sorting.Sort | src/utils/url_file_processor.py:190-191 | `sorted` returns the same strings in ascending order |
| Sorting.SortIgnoresOrder | src/utils/url_file_processor.py:190-191 | the sorted result depends only on which strings there are, not their order |
| Sorting.SortedUnique | src/utils/url_file_processor.py:190-191 | two ascending orderings of the same strings are equal |
| LegacyLedger.Answer | main.py:218-222 | a client call's answer is usable iff it returned a dict; otherwise `.get` raises |
| LegacyLedger.AnswerState | main.py:226-231 | RecordedFuture keeps `completed` as a boolean; HybridAnalysis keeps `finished` as it is |
| LegacyLedger.Submitted | main.py:217-231 | an answer with a message becomes a `[url, "message: ..."]` entry carrying that message's text; otherwise a job with the answer's id and state and its line |
| LegacyLedger.Pairs | main.py:215-216 | every URL for RecordedFuture first, then every URL for HybridAnalysis |
| LegacyLedger.CreateFromSpec | main.py:213-231 | creation keeps the entries and lines of the submissions before the first raise, stops there, and never marks done |
| LegacyLedger.CreateBranchEntries | main.py:213-231 | the create branch's entries are the old ones followed by one per submission before the first failure |
| LegacyLedger.CreateBranchFile | main.py:213-231 | the file holds exactly the lines of the submissions before the first failure |
| LegacyLedger.CreateBranchOrder | main.py:215-216 | entries follow URL order, RecordedFuture's first |
| LegacyLedger.ParseLine | main.py:237-239 | a line unpacks iff it has exactly four fields; engine, URL and id are its first three fields, and its state is true iff the stripped, lower-cased fourth is "true" |
| LegacyLedger.ParseLinesSpec | main.py:233-240 | reading stops at the first line that does not unpack and reports its error |
| LegacyLedger.UnreadableFileKept | main.py:232-240 | a control file that does not unpack stops the step and is left as it was |
| LegacyLedger.RefreshLine | main.py:246-259 | a job is polled with its stripped id; a message answer writes the message text straight before the job line |
| LegacyLedger.ResumeFromSpec | main.py:242-263 | the rewrite gives polled jobs their new state and keeps later jobs as read; it is done iff every state equals True |
| LegacyLedger.ResumeBranchEntries | main.py:242-263 | each job polled before the first failure takes its answer's state, whatever the file held |
| LegacyLedger.ResumeBranchKeepsUnpolled | main.py:233-259 | jobs after a failing poll keep the state read from the file |
| LegacyLedger.ResumeBranchFile | main.py:242-259 | the rewritten file holds exactly the texts of the polls before the first failure |
| LegacyLedger.ControlStep | main.py:205-263 | a recorded message exits; an empty file creates; otherwise the file is read and rewritten; done only after a full rewrite with all states True |
| LegacyLedger.MessageEntryStopsNextStep | main.py:206-208 | a message entry recorded at creation makes the next step exit |
| LegacyLedger.JobLineFields | main.py:228-239 | a written job line reads back into its four fields, the URL and id keeping a leading blank |
| LegacyLedger.BoolStateReadsBack | main.py:228-239 | a boolean state written as True/False reads back as itself |
| LegacyLedger.WrittenJobsReadBack | main.py:213-240 | a control file written without messages reads back line by line into its jobs |
| LegacyLedger.MessageLineUnreadable | main.py:251-259 | a message answer during rewrite produces a five-field line, which the next read cannot unpack |
| LegacyReport.Subscript | main.py:119 | `element['id']` succeeds iff the element is a dict with that key |
| LegacyReport.Elements | main.py:117 | iterating a list gives its items, a dict its keys, a string its characters; anything else raises |
| LegacyReport.TaskResults | main.py:116-119 | a task list gives `(id, status)` per element, and fails unless every element is a dict with both keys |
| LegacyReport.ScannerResults | main.py:120-127 | a scanner dict gives `(key, status)` for dict values and `(key, value)` otherwise |
| LegacyReport.ReadLine | main.py:104-127 | a line is unpacked, fetched with its engine's client and listed from `tasks` or `scanners_v2` |
| LegacyReport.ReadLines | main.py:101-127 | reading succeeds iff every line does; the results follow the lines |
| LegacyReport.Shown | main.py:152 | a shown status is never None, and any other value is shown as itself |
| Sorting.SortedSet | main.py:134-137 | `sorted(set(...))` lists each string of its input exactly once, in strictly ascending order |
| LegacyReport.DynamicHeaders | main.py:134-137 | the dynamic header is strictly sorted and holds exactly the columns some result produced |
| LegacyReport.FreshRow | main.py:147-148 | a new row holds "N/A" under every dynamic column and nothing else |
| LegacyReport.RowsKeys | main.py:139-148 | there is one row per URL, in order of first appearance |
| LegacyReport.RowsCells | main.py:141-152 | each cell of a URL's row is the last value stored for it, or "N/A" |
| LegacyReport.Generate | main.py:100-163 | the report is written iff every control line is read; it is the report of what was read |
| LegacyReport.ReportShape | main.py:134-161 | the header is "url", the sorted columns, "generated_at"; one row per URL opening with its URL and closing with its stamp |
| LegacyReport.ReportCell | main.py:141-161 | each report cell is the last value stored for its URL and column, or "N/A" |
| Cache.Empty | src/utils/cache.py:5-7 | a new cache holds no key |
| Cache.Add | src/utils/cache.py:9-13 | the key maps to the data stamped now, whatever it held; every other key is untouched |
| Cache.Get | src/utils/cache.py:15-25 | data is returned iff the key is present and not expired; a missing or live key changes nothing; an expired key alone is removed |
| Cache.DefaultLifetime | src/utils/cache.py:5-25 | with the default one-hour lifetime, data is served 3600 seconds after it was added and gone at 3601 |
| Cache.Clear | src/utils/cache.py:27-28 | no key remains |
| Cache.GetAfterAdd | src/utils/cache.py:9-25 | added data is served for exactly `ttl` seconds, the boundary included |
| Cache.AddOtherKey | src/utils/cache.py:9-25 | adding under one key does not change what a read of another key answers or does |
| Cache.GetSettles | src/utils/cache.py:15-25 | a second read at the same time answers the same and changes nothing more |
| Cache.ExpiryIsPermanent | src/utils/cache.py:21-23 | an expired entry is gone for every later read |
| Cache.GetAfterClear | src/utils/cache.py:15-28 | after `clear` every read gives None |

## Left out

- HTTP clients, credentials and URL validation are left out. `scan_url` and `retrieve_scan_results` are oracle parameters.
- `schedule`, `time.sleep` and the wait loop are left out. Polling is modelled as a bounded sequence of cycles, each with its own fetch oracle. `Ledger.Poll` therefore does not model waiting forever beyond the cycles given.
- Clock readings are integer parameters. This covers `time.time()` in the cache (a float in the source), the `America/Mexico_City` POSIX stamp and the legacy report's formatted date text.
- Floats are left out. JSON numbers are integers.
- CSV quoting is left out. No modelled field holds a quote, a comma inside a field, or `\r`. The legacy reader is `split(',')` on lines; the refactored control file is a sequence of rows.
- `str()` of a list or dict renders as a bracketed placeholder, not Python's full text.
- Logging, the factories, configuration and `_destroy_file_control` (src/utils/url_file_processor.py:224-233) are left out. They do I/O only.
- `_read_urls` (src/utils/url_file_processor.py:31-38) is left out. It strips every line of the input file and drops blank ones. The URLs are a parameter, and the model does not require them to be stripped or non-blank.
- The legacy `__read_urls_from_file` (main.py:196-203) is left out. It splits the file into lines without stripping them, and on an error prints a message and keeps no URLs. The URLs are a parameter here too.
- The refactored driver `process_file` (src/utils/url_file_processor.py:20-29) is left out with the wait loop. It reads the URLs, initialises and polls the control file, generates the report, deletes the control file, and logs and re-raises any exception. Its steps `Ledger.Initialize`, `Ledger.Poll` and `Report.GenerateResults` are modelled.
- The legacy driver `scan_file` (main.py:175-193) is left out with the wait loop. It runs one control step, repeats it once a minute until the ledger is done, then calls `generate()`. Its parts, `LegacyLedger.ControlStep` and `LegacyReport.Generate`, are modelled.
- Whether a file exists is folded into "the file is empty".
- Ledger.Poll: stated for at most `|cycles|` refresh passes, because the source's loop has no bound. When the cycles run out before every record completes, the model says nothing about later passes.
- Strings.Lower: lower-cases ASCII letters only, not the full Unicode mapping of Python's `lower()`. Compared with "true" it agrees with the source, since no non-ASCII character lower-cases to one of those four letters. In the legacy report's column prefix (main.py:135,145) it differs for an engine name outside the prefix map that starts with a non-ASCII capital: `"Écran"` gives `"Éc"` where Python gives `"éc"`. The two known engines are in the map.
- Cache.Get: `if not entry` is modelled as "key missing". A stored entry is a non-empty dict, so it is always truthy.
- LegacyReport.Generate: the report rows' timestamps are a parameter, one per row, not the formatted wall-clock text.

## Findings

| source | as written | input that shows it | evidently intended | confidence | as-written member | corrected member |
|---|---|---|---|---|---|---|
| src/utils/url_file_processor.py:93-108 | a resumed row with scan id "error" has state False, is never fetched, and keeps `all_completed` False on every pass | control file row `HybridAnalysis,http://a.test,error,boom`, with every other scan reported complete | polling stops once every record is complete or a failed submission | not executed | Ledger.ResumedErrorRowNeverCompletes | Ledger.PollCorrected |
| src/utils/url_file_processor.py:190-194 | the header is built from the first URL's row only, so columns only later rows have are not written | two completed records: RecordedFuture for URL a, whose answer has no tasks and so gives six "No results" `rf_` columns; HybridAnalysis for URL b, whose answer is `{scanners_v2: {crowdstrike: malicious}}` and gives `ha_crowdstrike: malicious` | the header holds the sorted columns of all rows | not executed | ReportContents.FirstRowHidesColumns | Report.GenerateResultsCorrected |
