/** `_extract_scan_data`: the flattening of one engine answer into report
    columns. A HybridAnalysis answer gives one `ha_` column per scanner; a
    RecordedFuture answer gives an `rf_` status and score column per task.

    Both loops of the source store into a fresh dict key by key, so the
    columns are `FromItems` of the writes the loop makes, in order; the
    writes are the reference each extraction is stated against. */
module Extraction {
  import opened Wrappers
  import opened Dicts
  import opened Values
  import opened Strings

  const NoResults: Value := VStr("No results")

  /** Prefix `p` put in front of every key of `d`, values unchanged. */
  function Prefixed(p: string, d: Dict<Value>): (r: Dict<Value>)
    ensures |r| == |d|
    ensures forall i :: 0 <= i < |d| ==> r[i] == (p + d[i].0, d[i].1)
  {
    seq(|d|, i requires 0 <= i < |d| => (p + d[i].0, d[i].1))
  }

  /** Prefixing keys does not change where a key is found. */
  lemma {:induction false} IndexOfPrefixed(p: string, d: Dict<Value>, k: string)
    ensures IndexOf(Prefixed(p, d), p + k) == IndexOf(d, k)
    decreases |d|
  {
    if |d| > 0 {
      var front := d[..|d| - 1];
      assert Prefixed(p, d)[..|d| - 1] == Prefixed(p, front);
      IndexOfPrefixed(p, front, k);
      assert (p + d[|d| - 1].0 == p + k) <==> d[|d| - 1].0 == k by {
        if p + d[|d| - 1].0 == p + k {
          assert d[|d| - 1].0 == (p + d[|d| - 1].0)[|p|..];
          assert k == (p + k)[|p|..];
        }
      }
    }
  }

  // ---------------------------------------------------------------------
  // HybridAnalysis
  // ---------------------------------------------------------------------

  /** The cell of one scanner: a dict collapses to its `status`. */
  function HybridCell(v: Value): (c: Value)
    ensures v.VDict? && HasKey(v.entries, "status") ==> c == Get(v.entries, "status").value
    ensures v.VDict? && !HasKey(v.entries, "status") ==> c == NoResults
    ensures !v.VDict? ==> c == v
  {
    if v.VDict? then GetOr(v.entries, "status", NoResults) else v
  }

  /** Every scanner's cell, in the answer's order. */
  function HybridCells(scanners: Dict<Value>): (r: Dict<Value>)
    ensures Keys(r) == Keys(scanners)
    ensures forall i :: 0 <= i < |scanners| ==> r[i].1 == HybridCell(scanners[i].1)
  {
    seq(|scanners|, i requires 0 <= i < |scanners| => (scanners[i].0, HybridCell(scanners[i].1)))
  }

  /** The writes of the HybridAnalysis loop: `ha_<scanner>` gets its cell. */
  function HybridWrites(scanners: Dict<Value>): Dict<Value> {
    Prefixed("ha_", HybridCells(scanners))
  }

  /** The HybridAnalysis branch. The answer must be a dict and its
      `scanners_v2` (absent: an empty dict) must be a dict too, or `.get` /
      `.items()` raises. Each scanner gives the column `ha_<scanner>`,
      holding its `status` (default "No results") when the scanner's entry is
      a dict and the entry itself otherwise; nothing else is produced. */
  function ExtractHybridAnalysis(result: Value): (r: Result<Dict<Value>, string>)
    ensures r.Success? <==> result.VDict? && GetOr(result.entries, "scanners_v2", VDict([])).VDict?
    ensures result.VDict? && !HasKey(result.entries, "scanners_v2") ==> r == Success([])
    ensures r.Success? ==> Wf(r.value)
    ensures r.Success? ==> forall k :: k in Keys(r.value) ==> StartsWith(k, "ha_")
    ensures r.Success? ==>
              var scanners := GetOr(result.entries, "scanners_v2", VDict([])).entries;
              forall n :: Get(r.value, "ha_" + n) ==
                            if HasKey(scanners, n) then Some(HybridCell(Get(scanners, n).value)) else None
  {
    var scanners :- GetAttr(result, "scanners_v2", VDict([]));
    if !scanners.VDict? then Failure(NoAttributeMessage(scanners, "items"))
    else
      var writes := HybridWrites(scanners.entries);
      var data := FromItems(writes);
      HybridWritesPrefixed(scanners.entries);
      forall n
        ensures Get(data, "ha_" + n) ==
                  if HasKey(scanners.entries, n) then Some(HybridCell(Get(scanners.entries, n).value)) else None
      {
        IndexOfPrefixed("ha_", HybridCells(scanners.entries), n);
        IndexOfSameKeys(HybridCells(scanners.entries), scanners.entries, n);
      }
      Success(data)
  }

  lemma HybridWritesPrefixed(scanners: Dict<Value>)
    ensures forall k :: k in Keys(FromItems(HybridWrites(scanners))) ==> StartsWith(k, "ha_")
  {
    var writes := HybridWrites(scanners);
    forall k | k in Keys(FromItems(writes))
      ensures StartsWith(k, "ha_")
    {
      var i :| 0 <= i < |writes| && writes[i].0 == k;
      StartsWithAppend("ha_", HybridCells(scanners)[i].0);
    }
  }

  // ---------------------------------------------------------------------
  // RecordedFuture
  // ---------------------------------------------------------------------

  /** The six columns written when an answer lists no task at all. */
  const EmptyTaskColumns: seq<string> :=
    ["rf_behavioral1", "rf_behavioral1_score", "rf_static1", "rf_static1_score", "rf_urlscan1", "rf_urlscan1_score"]

  /** The columns of an answer without tasks, all "No results". */
  function NoTaskColumns(): (d: Dict<Value>)
    ensures Wf(d)
    ensures Keys(d) == EmptyTaskColumns
    ensures forall k :: k in EmptyTaskColumns ==> Get(d, k) == Some(NoResults)
    ensures forall k :: k in Keys(d) ==> StartsWith(k, "rf_")
  {
    var items := seq(6, i requires 0 <= i < 6 => (EmptyTaskColumns[i], NoResults));
    NoTaskItems(items);
    FromItems(items)
  }

  lemma NoTaskPrefix()
    ensures forall k :: k in EmptyTaskColumns ==> StartsWith(k, "rf_")
  {
    forall i | 0 <= i < 6
      ensures StartsWith(EmptyTaskColumns[i], "rf_")
    {
      assert EmptyTaskColumns[i][..3] == "rf_";
    }
  }

  /** The six column names differ (already in length), so filling a dict
      with them keeps them all, in order. */
  lemma NoTaskItems(items: Dict<Value>)
    requires items == seq(6, i requires 0 <= i < 6 => (EmptyTaskColumns[i], NoResults))
    ensures FromItems(items) == items
    ensures Wf(items) && Keys(items) == EmptyTaskColumns
    ensures forall k :: k in EmptyTaskColumns ==> Get(items, k) == Some(NoResults)
    ensures forall k :: k in EmptyTaskColumns ==> StartsWith(k, "rf_")
  {
    NoTaskPrefix();
    NoTaskDistinct(items);
    assert [] + items == items;
    UpdateFresh([], items);
    forall k | k in EmptyTaskColumns
      ensures Get(items, k) == Some(NoResults)
    {
      var i :| 0 <= i < 6 && EmptyTaskColumns[i] == k;
      GetAt(items, i);
    }
  }

  lemma NoTaskDistinct(items: Dict<Value>)
    requires items == seq(6, i requires 0 <= i < 6 => (EmptyTaskColumns[i], NoResults))
    ensures Wf(items) && Keys(items) == EmptyTaskColumns
  {
    var lengths := [14, 20, 10, 16, 11, 17];
    assert forall i :: 0 <= i < 6 ==> |EmptyTaskColumns[i]| == lengths[i];
    assert Keys(items) == EmptyTaskColumns;
  }

  /** The engine name of a task: what follows the task id's last '-'. */
  function TaskEngine(taskId: string): string {
    Last(Split(taskId, '-'))
  }

  /** The writes one task makes: none for a task that is not a dict or,
      given a truthy scan id, whose id does not start with it; otherwise its
      status under `rf_<engine>` and then its score under `rf_<engine>_score`.
      A truthy scan id that is not a string makes `startswith` raise. */
  function TaskWrites(taskId: string, task: Value, scanId: Value): (r: Result<Dict<Value>, string>)
    ensures !task.VDict? ==> r == Success([])
    ensures task.VDict? && Truthy(scanId) && !scanId.VStr? ==> r.Failure?
    ensures task.VDict? && scanId.VStr? && Truthy(scanId) && !StartsWith(taskId, scanId.s) ==> r == Success([])
    ensures task.VDict? && (!Truthy(scanId) || (scanId.VStr? && StartsWith(taskId, scanId.s))) ==>
              r == Success([("rf_" + TaskEngine(taskId), GetOr(task.entries, "status", NoResults)),
                            ("rf_" + TaskEngine(taskId) + "_score", GetOr(task.entries, "score", NoResults))])
  {
    if !task.VDict? then Success([])
    else if Truthy(scanId) && !scanId.VStr? then
      Failure("startswith first arg must be str or a tuple of str, not " + TypeName(scanId))
    else if Truthy(scanId) && !StartsWith(taskId, scanId.s) then Success([])
    else
      var name := TaskEngine(taskId);
      Success([("rf_" + name, GetOr(task.entries, "status", NoResults)),
               ("rf_" + name + "_score", GetOr(task.entries, "score", NoResults))])
  }

  /** The writes of the whole task loop, task by task. */
  function TasksWrites(tasks: Dict<Value>, scanId: Value): (r: Result<Dict<Value>, string>)
    ensures r.Success? ==> forall k :: k in Keys(r.value) ==> StartsWith(k, "rf_")
    decreases |tasks|
  {
    if tasks == [] then Success([])
    else
      var front :- TasksWrites(tasks[..|tasks| - 1], scanId);
      var last :- TaskWrites(tasks[|tasks| - 1].0, tasks[|tasks| - 1].1, scanId);
      var name := TaskEngine(tasks[|tasks| - 1].0);
      StartsWithAppend("rf_", name);
      StartsWithAppend("rf_", name + "_score");
      assert "rf_" + name + "_score" == "rf_" + (name + "_score");
      Success(front + last)
  }

  /** The RecordedFuture branch. A non-dict answer gives no columns. The
      answer's `tasks` (absent: an empty dict) must be a dict, or `.items()`
      raises. No task at all gives the six fixed "No results" columns; tasks
      filtered out give none. The loop walks the tasks as Python's dict holds
      them: a task id repeated in the answer is seen once, at its first
      position, with its last value. */
  function ExtractRecordedFuture(result: Value, scanId: Value): (r: Result<Dict<Value>, string>)
    ensures !result.VDict? ==> r == Success([])
    ensures result.VDict? && !GetOr(result.entries, "tasks", VDict([])).VDict? ==> r.Failure?
    ensures r.Success? ==> Wf(r.value)
    ensures r.Success? ==> forall k :: k in Keys(r.value) ==> StartsWith(k, "rf_")
    ensures result.VDict? && GetOr(result.entries, "tasks", VDict([])) == VDict([]) ==>
              r.Success? && Keys(r.value) == EmptyTaskColumns &&
              forall k :: k in EmptyTaskColumns ==> Get(r.value, k) == Some(NoResults)
    ensures result.VDict? && GetOr(result.entries, "tasks", VDict([])).VDict? ==>
              var tasks := FromItems(GetOr(result.entries, "tasks", VDict([])).entries);
              && (r.Success? <==> TasksWrites(tasks, scanId).Success?)
              && (r.Success? && tasks != [] ==> forall k :: Get(r.value, k) == Get(TasksWrites(tasks, scanId).value, k))
  {
    if !result.VDict? then Success([])
    else
      var tasks := GetOr(result.entries, "tasks", VDict([]));
      if !tasks.VDict? then Failure(NoAttributeMessage(tasks, "items"))
      else
        var items := FromItems(tasks.entries);
        if items == [] then Success(NoTaskColumns())
        else
          match TasksWrites(items, scanId)
          case Failure(message) => Failure(message)
          case Success(writes) => Success(FromItems(writes))
  }

  /** The task loop keeps a task: a dict whose id, given a truthy scan id,
      starts with it. */
  predicate Kept(taskId: string, task: Value, scanId: Value) {
    task.VDict? && (!Truthy(scanId) || (scanId.VStr? && StartsWith(taskId, scanId.s)))
  }

  /** The task writes column `k`. */
  predicate WritesColumn(taskId: string, task: Value, scanId: Value, k: string) {
    TaskWrites(taskId, task, scanId).Success? && HasKey(TaskWrites(taskId, task, scanId).value, k)
  }

  /** A kept task whose two columns no later task writes leaves its status
      and its score behind. */
  lemma {:induction false} KeptTaskHolds(tasks: Dict<Value>, scanId: Value, i: int)
    requires TasksWrites(tasks, scanId).Success?
    requires 0 <= i < |tasks| && Kept(tasks[i].0, tasks[i].1, scanId)
    requires var c := "rf_" + TaskEngine(tasks[i].0);
             forall j :: i < j < |tasks| ==> !WritesColumn(tasks[j].0, tasks[j].1, scanId, c) &&
                                             !WritesColumn(tasks[j].0, tasks[j].1, scanId, c + "_score")
    ensures var c := "rf_" + TaskEngine(tasks[i].0);
            && Get(TasksWrites(tasks, scanId).value, c) == Some(GetOr(tasks[i].1.entries, "status", NoResults))
            && Get(TasksWrites(tasks, scanId).value, c + "_score") == Some(GetOr(tasks[i].1.entries, "score", NoResults))
    decreases |tasks|
  {
    var c := "rf_" + TaskEngine(tasks[i].0);
    var n := |tasks| - 1;
    var front := TasksWrites(tasks[..n], scanId).value;
    var last := TaskWrites(tasks[n].0, tasks[n].1, scanId).value;
    assert TasksWrites(tasks, scanId).value == front + last;
    if i == n {
      var status := GetOr(tasks[i].1.entries, "status", NoResults);
      var score := GetOr(tasks[i].1.entries, "score", NoResults);
      assert last == [(c, status), (c + "_score", score)];
      assert |c| != |c + "_score"|;
      assert IndexOf(last, c) == 0 && IndexOf(last, c + "_score") == 1;
      GetAppend(front, last, c);
      GetAppend(front, last, c + "_score");
    } else {
      assert !WritesColumn(tasks[n].0, tasks[n].1, scanId, c);
      assert !WritesColumn(tasks[n].0, tasks[n].1, scanId, c + "_score");
      forall j | i < j < |tasks[..n]|
        ensures !WritesColumn(tasks[..n][j].0, tasks[..n][j].1, scanId, c) &&
                !WritesColumn(tasks[..n][j].0, tasks[..n][j].1, scanId, c + "_score")
      {
        assert tasks[..n][j] == tasks[j];
      }
      assert tasks[..n][i] == tasks[i];
      KeptTaskHolds(tasks[..n], scanId, i);
      GetAppend(front, last, c);
      GetAppend(front, last, c + "_score");
    }
  }

  /** In the columns of a RecordedFuture answer, a kept task whose two
      columns no later task writes has its status under `rf_<engine>` and
      its score under `rf_<engine>_score`. */
  lemma TaskColumnsHeld(result: Value, scanId: Value, i: int)
    requires result.VDict? && GetOr(result.entries, "tasks", VDict([])).VDict?
    requires ExtractRecordedFuture(result, scanId).Success?
    requires var tasks := FromItems(GetOr(result.entries, "tasks", VDict([])).entries);
             && 0 <= i < |tasks| && Kept(tasks[i].0, tasks[i].1, scanId)
             && var c := "rf_" + TaskEngine(tasks[i].0);
                forall j :: i < j < |tasks| ==> !WritesColumn(tasks[j].0, tasks[j].1, scanId, c) &&
                                                !WritesColumn(tasks[j].0, tasks[j].1, scanId, c + "_score")
    ensures var tasks := FromItems(GetOr(result.entries, "tasks", VDict([])).entries);
            var data := ExtractRecordedFuture(result, scanId).value;
            var c := "rf_" + TaskEngine(tasks[i].0);
            && Get(data, c) == Some(GetOr(tasks[i].1.entries, "status", NoResults))
            && Get(data, c + "_score") == Some(GetOr(tasks[i].1.entries, "score", NoResults))
  {
    var tasks := FromItems(GetOr(result.entries, "tasks", VDict([])).entries);
    KeptTaskHolds(tasks, scanId, i);
  }

  /** The last task listed, when kept, leaves both of its columns behind. */
  lemma {:induction false} LastTaskWins(tasks: Dict<Value>, scanId: Value)
    requires tasks != [] && TasksWrites(tasks, scanId).Success?
    requires var t := tasks[|tasks| - 1]; Kept(t.0, t.1, scanId)
    ensures var t := tasks[|tasks| - 1];
            var data := FromItems(TasksWrites(tasks, scanId).value);
            && Get(data, "rf_" + TaskEngine(t.0)) == Some(GetOr(t.1.entries, "status", NoResults))
            && Get(data, "rf_" + TaskEngine(t.0) + "_score") == Some(GetOr(t.1.entries, "score", NoResults))
  {
    var t := tasks[|tasks| - 1];
    var front := TasksWrites(tasks[..|tasks| - 1], scanId).value;
    var name := TaskEngine(t.0);
    var last := [("rf_" + name, GetOr(t.1.entries, "status", NoResults)),
                 ("rf_" + name + "_score", GetOr(t.1.entries, "score", NoResults))];
    assert TasksWrites(tasks, scanId).value == front + last;
    assert front + last == (front + [last[0]]) + [last[1]];
    GetSnoc(front + [last[0]], last[1], "rf_" + name);
    GetSnoc(front, last[0], "rf_" + name);
    GetSnoc(front + [last[0]], last[1], "rf_" + name + "_score");
    assert |"rf_" + name| != |"rf_" + name + "_score"|;
  }

  /** `_extract_scan_data(engine, result, scan_id)`: the RecordedFuture
      branch for that engine name, the HybridAnalysis branch for any other. */
  function ExtractScanData(engine: string, result: Value, scanId: Value): Result<Dict<Value>, string> {
    if engine == "RecordedFuture" then ExtractRecordedFuture(result, scanId) else ExtractHybridAnalysis(result)
  }
}
