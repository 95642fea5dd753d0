/** The add-index reorganization around the backfill workers: batches of range tasks, their
    results in worker order, and the persisted handle from which a restart resumes. */
module ReorgResume {
  import opened Wrappers
  import opened Backfill

  // ---------- results of a batch ----------

  /** How many results precede the first error. */
  function OkPrefix(results: seq<BackfillResult>): (n: nat)
    ensures n <= |results|
  {
    if results == [] || results[0].err.Some? then 0 else 1 + OkPrefix(results[1..])
  }

  lemma {:induction false} OkPrefixMeaning(results: seq<BackfillResult>)
    ensures forall i :: 0 <= i < OkPrefix(results) ==> results[i].err.None?
    ensures OkPrefix(results) < |results| ==> results[OkPrefix(results)].err.Some?
  {
    if results != [] && results[0].err.None? {
      OkPrefixMeaning(results[1..]);
      assert forall i :: 0 < i < |results| ==> results[i] == results[1..][i - 1];
    }
  }

  /** Where a batch got to: past the last worker before the first that failed. */
  function NextHandle(startHandle: Int64, results: seq<BackfillResult>): Int64 {
    if OkPrefix(results) == 0 then startHandle else results[OkPrefix(results) - 1].nextHandle
  }

  /** Waits for every worker, but no result from the first failed one on counts. */
  method WaitTaskResults(results: seq<BackfillResult>, startHandle: Int64, totalAddedCount: int)
    returns (nextHandle: Int64, addedCount: int, total: int, firstErr: Option<BackfillError>)
    ensures nextHandle == NextHandle(startHandle, results)
    ensures firstErr == if OkPrefix(results) < |results| then results[OkPrefix(results)].err else None
    ensures addedCount == AddedRows(results[..OkPrefix(results)]) && total == totalAddedCount + addedCount
  {
    OkPrefixMeaning(results);
    ghost var n := OkPrefix(results);
    hide OkPrefix;
    addedCount, total, nextHandle, firstErr := 0, totalAddedCount, startHandle, None;
    for i := 0 to |results|
      invariant firstErr.Some? <==> n < i
      invariant firstErr.Some? ==> n < |results| && firstErr == results[n].err
      invariant var k := if i < n then i else n;
                addedCount == AddedRows(results[..k]) && nextHandle == if k == 0 then startHandle
                  else results[k - 1].nextHandle
      invariant total == totalAddedCount + addedCount
    {
      if firstErr.None? && results[i].err.Some? {
        firstErr := results[i].err;
      } else if firstErr.None? {
        assert results[..i + 1][..i] == results[..i];
        total := total + results[i].addedCount;
        addedCount := addedCount + results[i].addedCount;
        nextHandle := results[i].nextHandle;
      }
    }
  }

  function AddedRows(results: seq<BackfillResult>): int {
    if results == [] then 0 else AddedRows(results[..|results| - 1]) + results[|results| - 1].addedCount
  }

  // ---------- range tasks ----------

  /** A record key, or a longer key right after it, at which regions may be split. */
  datatype Boundary = Boundary(handle: Int64, past: bool)

  datatype KeyRange = KeyRange(start: Boundary, end: Boundary)

  function TaskOf(r: KeyRange): Task {
    Task(r.start.handle, r.end.handle, r.end.past)
  }

  /** The regions' ranges cover the handles from 'start' to 'end' without a gap. */
  ghost predicate Splits(ranges: seq<KeyRange>, start: Int64, end: Int64) {
    && ranges != [] && ranges[0].start == Boundary(start, false) && ranges[|ranges| - 1].end == Boundary(end, true)
    && forall i :: 0 < i < |ranges| ==> ranges[i].start == ranges[i - 1].end
  }

  /** The first ranges, one for each worker; the others are left for the next batch. */
  method BuildTasks(kvRanges: seq<KeyRange>, workers: nat) returns (batchTasks: seq<Task>, remains: seq<KeyRange>)
    requires workers >= 1
    ensures |batchTasks| == if |kvRanges| < workers then |kvRanges| else workers
    ensures forall i :: 0 <= i < |batchTasks| ==> batchTasks[i] == TaskOf(kvRanges[i])
    ensures remains == kvRanges[|batchTasks|..]
  {
    batchTasks := [];
    var i := 0;
    while i < |kvRanges| && |batchTasks| < workers
      invariant 0 <= i <= |kvRanges| && |batchTasks| == i <= workers
      invariant forall j :: 0 <= j < i ==> batchTasks[j] == TaskOf(kvRanges[j])
    {
      batchTasks := batchTasks + [TaskOf(kvRanges[i])];
      i := i + 1;
    }
    remains := kvRanges[|batchTasks|..];
  }

  // ---------- sessions ----------

  /** The backfilling goroutine of one owner. 'rest' is where the next batch starts. */
  datatype Phase =
    | Idle
    | Split(start: Int64)
    | Running(tasks: seq<Task>, results: seq<Option<BackfillResult>>, rest: Option<Int64>)
    | Ended(ok: bool)

  /** One owner's reorgCtx; 'quit' once its quitCh is closed. */
  datatype Session = Session(phase: Phase, doneHandle: Int64, quit: bool)

  /** The rows to index, those that have their entry, and the persisted range. */
  datatype System = System(rows: set<Int64>, processed: set<Int64>, startHandle: Int64, endHandle: Int64,
                           sessions: seq<Session>, completed: bool)

  datatype Action =
    | NewOwner
    | StartJob(i: nat)
    | SplitRanges(i: nat, ranges: seq<KeyRange>, workers: nat)
    | SplitFails(i: nat)
    | IndexRow(h: Int64)
    | TaskEnds(i: nat, w: nat, result: BackfillResult)
    | BatchEnds(i: nat, runnable: bool, persists: bool)
    | Timeout(i: nat)
    | Collect(i: nat)
    | Quit(i: nat)
    | Crash(i: nat)

  predicate Reported(results: seq<Option<BackfillResult>>) {
    forall k :: 0 <= k < |results| ==> results[k].Some?
  }

  function Values(results: seq<Option<BackfillResult>>): seq<BackfillResult>
    requires Reported(results)
  {
    seq(|results|, k requires 0 <= k < |results| => results[k].value)
  }

  /** What HandleBackfillTask promises of a result: without an error every row of the range
      has its entry and the next handle is the one after the range. */
  predicate TaskDone(y: System, task: Task, result: BackfillResult) {
    result.err.None? ==> result.nextHandle == DoneHandle(task) && forall h ::
      h in y.rows && InRange(task, h) ==> h in y.processed
  }

  ghost function Handles(rows: seq<TableRow>): set<Int64> {
    set r | r in rows :: r.handle
  }

  /** The handles of the rows that have their entry in the index. */
  ghost function Processed(index: Index, unique: bool, rows: seq<TableRow>): set<Int64> {
    set r | r in rows && HasEntry(index, unique, r) :: r.handle
  }

  /** A worker's task: it takes no entry away, and afterwards the result may be reported. */
  method RunTask(worker: AddIndexWorker, store: Store, rows: seq<TableRow>, task: Task, env: nat -> Round,
                 ghost y: System)
    returns (result: BackfillResult)
    requires Ascending(rows) && worker.batchCnt >= 1 && WellFormed(store.entries)
    requires y.rows == Handles(rows) && y.processed == Processed(store.entries, worker.unique, rows)
    modifies worker`idxRecords, worker`batchCheckKeys, worker`distinctCheckFlags, store
    ensures WellFormed(store.entries) && y.processed <= Processed(store.entries, worker.unique, rows)
    ensures TaskDone(y.(processed := Processed(store.entries, worker.unique, rows)), task, result)
  {
    ghost var was, scanned := store.entries, [];
    result, scanned := worker.HandleBackfillTask(store, rows, task, env);
    forall r | HasEntry(was, worker.unique, r) ensures HasEntry(store.entries, worker.unique, r) {
      var k :| k in was && OwnKey(k, worker.unique, r) && was[k] == r.handle;
      assert k in store.entries;
    }
    BackfillEndsTask(y.(processed := Processed(store.entries, worker.unique, rows)), rows, task, result, scanned);
  }

  /** Every row of a range without an error has its entry. */
  lemma BackfillEndsTask(y: System, rows: seq<TableRow>, task: Task, result: BackfillResult, scanned: seq<TableRow>)
    requires Ascending(rows) && y.rows == Handles(rows)
    requires forall r :: r in rows && r in scanned ==> r.handle in y.processed
    requires result.err.None? ==> scanned == RowsIn(rows, task) && result.nextHandle == DoneHandle(task)
    ensures TaskDone(y, task, result)
  {
    forall r | r in rows && InRange(task, r.handle) && result.err.None? ensures r.handle in y.processed {
      RowsInMeaning(rows, task, r);
    }
  }

  ghost predicate Enabled(y: System, a: Action) {
    match a
    case NewOwner => true
    case IndexRow(h) => h in y.rows
    case StartJob(i) => i < |y.sessions| && y.sessions[i].phase.Idle? && !y.sessions[i].quit
    case SplitRanges(i, ranges, workers) =>
      i < |y.sessions| && y.sessions[i].phase.Split? && workers >= 1 &&
      Splits(ranges, y.sessions[i].phase.start, y.endHandle)
    case SplitFails(i) => i < |y.sessions| && y.sessions[i].phase.Split?
    case TaskEnds(i, w, result) =>
      && i < |y.sessions| && y.sessions[i].phase.Running?
      && w < |y.sessions[i].phase.tasks| && w < |y.sessions[i].phase.results| && y.sessions[i].phase.results[w].None?
      && TaskDone(y, y.sessions[i].phase.tasks[w], result)
    case BatchEnds(i, _, _) => i < |y.sessions| && y.sessions[i].phase.Running? && y.sessions[i].phase.tasks != [] &&
                               Reported(y.sessions[i].phase.results)
    case Timeout(i) => i < |y.sessions| && !y.sessions[i].phase.Idle? && !y.sessions[i].quit
    case Collect(i) => i < |y.sessions| && y.sessions[i].phase.Ended? && !y.sessions[i].quit
    case Quit(i) => i < |y.sessions|
    case Crash(i) => i < |y.sessions|
  }

  function SetPhase(y: System, i: nat, p: Phase): System
    requires i < |y.sessions|
  {
    y.(sessions := y.sessions[i := y.sessions[i].(phase := p)])
  }

  function TasksOf(ranges: seq<KeyRange>, workers: nat): seq<Task> {
    var n := if |ranges| < workers then |ranges| else workers;
    seq(n, k requires 0 <= k < n => TaskOf(ranges[k]))
  }

  ghost function Do(y: System, a: Action): System
    requires Enabled(y, a)
  {
    match a
    case NewOwner => y.(sessions := y.sessions + [Session(Idle, 0, false)])
    case IndexRow(h) => y.(processed := y.processed + {h})
    case StartJob(i) => y.(sessions := y.sessions[i := Session(Split(y.startHandle), y.startHandle, false)])
    case SplitRanges(i, ranges, workers) =>
      var tasks := TasksOf(ranges, workers);
      SetPhase(y, i,
               Running(tasks, seq(|tasks|, _ => None), if |tasks| < |ranges| then Some(ranges[|tasks|].start.handle)
                         else None))
    case SplitFails(i) => SetPhase(y, i, Ended(false))
    case TaskEnds(i, w, result) =>
      var p := y.sessions[i].phase;
      SetPhase(y, i, p.(results := p.results[w := Some(result)]))
    case BatchEnds(i, runnable, persists) =>
      var p := y.sessions[i].phase;
      var results := Values(p.results);
      var next := NextHandle(p.tasks[0].startHandle, results);
      if OkPrefix(results) < |results| || !runnable then
        var y' := SetPhase(y, i, Ended(false));
        if persists then y'.(startHandle := next) else y'
      else
        var phase := if p.rest.Some? then Split(p.rest.value) else Ended(true);
        y.(sessions := y.sessions[i := y.sessions[i].(phase := phase, doneHandle := next)])
    case Timeout(i) => y.(startHandle := y.sessions[i].doneHandle)
    case Collect(i) =>
      y.(sessions := y.sessions[i := Session(Idle, 0, false)], completed := y.completed || y.sessions[i].phase.ok)
    case Quit(i) => y.(sessions := y.sessions[i := y.sessions[i].(doneHandle := 0, quit := true)])
    case Crash(i) => y.(sessions := y.sessions[i := Session(Idle, 0, true)])
  }

  // ---------- the invariant ----------

  /** No row below the handle is without its entry. */
  ghost predicate Covered(y: System, h: Int64) {
    forall r :: r in y.rows && r < h ==> r in y.processed
  }

  ghost predicate Contiguous(tasks: seq<Task>) {
    forall k :: 0 < k < |tasks| ==> tasks[k].startHandle == tasks[k - 1].endHandle
  }

  ghost predicate PhaseOK(y: System, p: Phase) {
    match p
    case Idle => true
    case Split(start) => Covered(y, start)
    case Running(tasks, results, rest) =>
      && tasks != [] && |results| == |tasks| && Contiguous(tasks) && Covered(y, tasks[0].startHandle)
      && (forall k :: 0 <= k < |tasks| && results[k].Some? ==> TaskDone(y, tasks[k], results[k].value))
      && (rest.Some? ==> rest.value == tasks[|tasks| - 1].endHandle)
      && (rest.None? ==> tasks[|tasks| - 1].endHandle == y.endHandle && tasks[|tasks| - 1].endIncluded)
    case Ended(ok) => ok ==> y.rows <= y.processed
  }

  ghost predicate SessionOK(y: System, s: Session) {
    PhaseOK(y, s.phase) && (!s.quit && !s.phase.Idle? ==> Covered(y, s.doneHandle))
  }

  ghost predicate Inv(y: System) {
    && (forall r :: r in y.rows ==> r <= y.endHandle)
    && Covered(y, y.startHandle) && (y.completed ==> y.rows <= y.processed)
    && forall i :: 0 <= i < |y.sessions| ==> SessionOK(y, y.sessions[i])
  }

  /** After the first 'n' tasks of a batch succeed every row up to the last one's end has its entry. */
  lemma {:induction false} CoveredAfter(y: System, tasks: seq<Task>, results: seq<BackfillResult>, n: nat)
    requires tasks != [] && Contiguous(tasks) && |results| == |tasks| && n <= |tasks| &&
             Covered(y, tasks[0].startHandle)
    requires forall k :: 0 <= k < n ==> results[k].err.None? && TaskDone(y, tasks[k], results[k])
    ensures n < |tasks| ==> Covered(y, tasks[n].startHandle)
    ensures n > 0 ==> Covered(y, results[n - 1].nextHandle) && Covered(y, tasks[n - 1].endHandle)
    ensures n > 0 && tasks[n - 1].endIncluded ==> forall r ::
        r in y.rows && r <= tasks[n - 1].endHandle ==> r in y.processed
  {
    if n > 0 {
      CoveredAfter(y, tasks, results, n - 1);
      var task := tasks[n - 1];
      assert TaskDone(y, task, results[n - 1]);
      forall r | r in y.rows && r < DoneHandle(task) ensures r in y.processed { DoneHandlePasses(task, r); }
      assert n < |tasks| ==> tasks[n].startHandle == task.endHandle;
    }
  }

  /** More processed rows, and the same rows and end, keep a session in order. */
  lemma SessionStaysOK(y: System, y': System, s: Session)
    requires SessionOK(y, s) && y'.rows == y.rows && y'.endHandle == y.endHandle && y.processed <= y'.processed
    ensures SessionOK(y', s)
  {
  }

  lemma OthersStayOK(y: System, y': System, i: nat)
    requires Inv(y) && i < |y.sessions| && |y'.sessions| == |y.sessions|
    requires y'.rows == y.rows && y'.endHandle == y.endHandle && y.processed <= y'.processed
    requires forall j :: 0 <= j < |y.sessions| && j != i ==> y'.sessions[j] == y.sessions[j]
    requires SessionOK(y', y'.sessions[i]) && Covered(y', y'.startHandle) && (y'.completed ==> y'.rows <= y'.processed)
    ensures Inv(y')
  {
    hide SessionOK;
    forall j | 0 <= j < |y.sessions| && j != i
      ensures SessionOK(y', y'.sessions[j])
    {
      SessionStaysOK(y, y', y.sessions[j]);
    }
  }

  lemma SplitKeepsOK(y: System, ranges: seq<KeyRange>, workers: nat, start: Int64)
    requires Covered(y, start) && workers >= 1 && Splits(ranges, start, y.endHandle)
    ensures var tasks := TasksOf(ranges, workers);
            PhaseOK(y,
                    Running(tasks, seq(|tasks|, _ => None), if |tasks| < |ranges|
                              then Some(ranges[|tasks|].start.handle) else None))
  {
  }

  lemma BatchKeepsOK(y: System, a: Action)
    requires Inv(y) && a.BatchEnds? && Enabled(y, a)
    ensures Inv(Do(y, a))
  {
    hide OkPrefix, DoneHandle, InRange;
    var s := y.sessions[a.i];
    var p := s.phase;
    assert SessionOK(y, s);
    var results := Values(p.results);
    var n := OkPrefix(results);
    OkPrefixMeaning(results);
    forall k | 0 <= k < n ensures TaskDone(y, p.tasks[k], results[k]) { assert p.results[k].Some?; }
    CoveredAfter(y, p.tasks, results, n);
    var y' := Do(y, a);
    assert Covered(y, NextHandle(p.tasks[0].startHandle, results));
    assert SessionOK(y', y'.sessions[a.i]);
    OthersStayOK(y, y', a.i);
  }

  lemma StepKeepsInv(y: System, a: Action)
    requires Inv(y) && Enabled(y, a)
    ensures Inv(Do(y, a))
  {
    var y' := Do(y, a);
    match a
    case NewOwner =>
    case IndexRow(h) =>
      forall i | 0 <= i < |y.sessions| ensures SessionOK(y', y.sessions[i]) { SessionStaysOK(y, y', y.sessions[i]); }
    case BatchEnds(i, _, _) => BatchKeepsOK(y, a);
    case SplitRanges(i, ranges, workers) =>
      assert SessionOK(y, y.sessions[i]);
      SplitKeepsOK(y, ranges, workers, y.sessions[i].phase.start);
      assert SessionOK(y', y'.sessions[i]) by { assert PhaseOK(y, y'.sessions[i].phase); }
      OthersStayOK(y, y', i);
    case Timeout(i) =>
      assert SessionOK(y, y.sessions[i]);
      OthersStayOK(y, y', i);
    case StartJob(i) => OneStaysOK(y, a, i);
    case SplitFails(i) => OneStaysOK(y, a, i);
    case TaskEnds(i, _, _) => OneStaysOK(y, a, i);
    case Collect(i) => OneStaysOK(y, a, i);
    case Quit(i) => OneStaysOK(y, a, i);
    case Crash(i) => OneStaysOK(y, a, i);
  }

  lemma OneStaysOK(y: System, a: Action, i: nat)
    requires Inv(y) && Enabled(y, a) && i < |y.sessions|
    requires a == StartJob(i) || a == SplitFails(i) || (a.TaskEnds? && a.i == i) || a == Collect(i) || a == Quit(i) ||
             a == Crash(i)
    ensures Inv(Do(y, a))
  {
    var y' := Do(y, a);
    assert SessionOK(y, y.sessions[i]);
    assert SessionOK(y', y'.sessions[i]);
    OthersStayOK(y, y', i);
  }

  // ---------- runs ----------

  /** The first run of the job persists the range from the smallest to the largest handle. */
  method GetTableRange(rows: seq<TableRow>) returns (startHandle: Int64, endHandle: Int64)
    requires Ascending(rows)
    ensures forall r :: r in rows ==> startHandle <= r.handle <= endHandle
    ensures rows != [] ==> startHandle == rows[0].handle && endHandle == rows[|rows| - 1].handle
  {
    startHandle, endHandle := MIN_INT64, MAX_INT64;
    if rows != [] {
      startHandle := rows[0].handle;
      endHandle := rows[|rows| - 1].handle;
    }
    if endHandle < startHandle || rows == [] {
      endHandle := startHandle;
    }
  }

  function Initial(rows: set<Int64>, startHandle: Int64, endHandle: Int64): System {
    System(rows, {}, startHandle, endHandle, [], false)
  }

  ghost function Run(y: System, actions: seq<Action>): Option<System>
    decreases |actions|
  {
    if actions == [] then Some(y)
    else if Enabled(y, actions[0]) then Run(Do(y, actions[0]), actions[1..])
    else None
  }

  lemma {:induction false} RunKeepsInv(y: System, actions: seq<Action>)
    requires Inv(y)
    ensures Run(y, actions).Some? ==> Inv(Run(y, actions).value) && Run(y, actions).value.rows == y.rows
    decreases |actions|
  {
    hide Inv;
    if actions != [] && Enabled(y, actions[0]) {
      StepKeepsInv(y, actions[0]);
      RunKeepsInv(Do(y, actions[0]), actions[1..]);
    }
  }

  lemma {:induction false} IndexAll(y: System, todo: set<Int64>) returns (actions: seq<Action>)
    requires todo <= y.rows
    ensures Run(y, actions) == Some(y.(processed := y.processed + todo))
    decreases todo
  {
    if todo == {} {
      actions := [];
      assert y.processed + todo == y.processed;
    } else {
      var h :| h in todo;
      var rest := IndexAll(Do(y, IndexRow(h)), todo - {h});
      actions := [IndexRow(h)] + rest;
      assert y.processed + {h} + (todo - {h}) == y.processed + todo;
    }
  }

  lemma {:induction false} RunSplits(y: System, a: seq<Action>, b: seq<Action>)
    requires Run(y, a).Some?
    ensures Run(y, a + b) == Run(Run(y, a).value, b)
    decreases |a|
  {
    hide Do, Enabled;
    if a == [] {
      assert a + b == b;
    } else {
      assert (a + b)[0] == a[0] && (a + b)[1..] == a[1..] + b;
      RunSplits(Do(y, a[0]), a[1..], b);
    }
  }

  /** From every state an owner that is idle, has failed, or has yet to split its range can start
      over, index all rows and complete the job. */
  lemma JobCanComplete(y: System, i: nat) returns (actions: seq<Action>)
    requires i < |y.sessions| && !y.sessions[i].phase.Running? && !y.sessions[i].quit
    ensures Run(y, actions).Some? && Run(y, actions).value.completed
    decreases if y.sessions[i].phase.Split? then 2 else if y.sessions[i].phase.Ended? then 1 else 0
  {
    if !y.sessions[i].phase.Idle? {
      var a := if y.sessions[i].phase.Split? then SplitFails(i) else Collect(i);
      var rest := JobCanComplete(Do(y, a), i);
      RunStep(y, a, rest);
      return [a] + rest;
    }
    var first := IndexAll(y, y.rows);
    var y1 := Run(y, first).value;
    var rest := OneBatch(y1, i);
    RunSplits(y, first, rest);
    actions := first + rest;
  }

  /** One batch of one task over the whole range completes a job whose rows are all indexed. */
  lemma OneBatch(y: System, i: nat) returns (actions: seq<Action>)
    requires i < |y.sessions| && y.sessions[i].phase.Idle? && !y.sessions[i].quit && y.rows <= y.processed
    ensures Run(y, actions).Some? && Run(y, actions).value.completed
  {
    hide Run;
    var range := KeyRange(Boundary(y.startHandle, false), Boundary(y.endHandle, true));
    var y2 := Do(Do(y, StartJob(i)), SplitRanges(i, [range], 1));
    var rest := OneTask(y2, i, range);
    RunStep(Do(y, StartJob(i)), SplitRanges(i, [range], 1), rest);
    RunStep(y, StartJob(i), [SplitRanges(i, [range], 1)] + rest);
    actions := [StartJob(i)] + ([SplitRanges(i, [range], 1)] + rest);
  }

  lemma OneTask(y: System, i: nat, range: KeyRange) returns (actions: seq<Action>)
    requires i < |y.sessions| && !y.sessions[i].quit && y.rows <= y.processed
    requires y.sessions[i].phase == Running(TasksOf([range], 1), seq(1, _ => None), None)
    ensures Run(y, actions).Some? && Run(y, actions).value.completed
  {
    hide Run;
    var task := TaskOf(range);
    assert TasksOf([range], 1) == [task];
    var result := BackfillResult(0, 0, DoneHandle(task), None);
    var c, d, e := TaskEnds(i, 0, result), BatchEnds(i, true, true), Collect(i);
    var y3 := Do(y, c);
    assert y3.sessions[i].phase.results == [Some(result)];
    assert Values(y3.sessions[i].phase.results) == [result];
    assert OkPrefix([result]) == 1 by { assert [result][1..] == []; }
    var y4 := Do(y3, d);
    assert y4.sessions[i].phase == Ended(true);
    RunStep(y4, e, []);
    RunStep(y3, d, [e] + []);
    RunStep(y, c, [d] + ([e] + []));
    actions := [c] + ([d] + ([e] + []));
    RunNothing(Do(y4, e));
  }

  lemma RunStep(y: System, a: Action, rest: seq<Action>)
    requires Enabled(y, a)
    ensures Run(y, [a] + rest) == Run(Do(y, a), rest)
  {
    hide Do, Enabled;
    assert ([a] + rest)[1..] == rest;
  }

  lemma RunNothing(y: System)
    ensures Run(y, []) == Some(y)
  {
  }

  /** Over any interleaving of owners, batches, failures, timeouts and restarts the persisted
      handle is never above a row without its entry, and a completed job has missed no row. */
  lemma ResumeMissesNoRow(rows: set<Int64>, startHandle: Int64, endHandle: Int64, actions: seq<Action>, r: Int64)
    requires forall h :: h in rows ==> startHandle <= h <= endHandle
    requires Run(Initial(rows, startHandle, endHandle), actions).Some? && r in rows
    ensures var y := Run(Initial(rows, startHandle, endHandle), actions).value;
            (r < y.startHandle || y.completed) ==> r in y.processed
  {
    assert Inv(Initial(rows, startHandle, endHandle));
    RunKeepsInv(Initial(rows, startHandle, endHandle), actions);
  }

  /** A batch without an error moves the handle to report past its last range: the next batch
      starts at that range's end, or the backfilling ends, and a timeout persists the handle. */
  lemma SuccessAdvances(y: System, a: Action)
    requires Inv(y) && a.BatchEnds? && a.runnable && Enabled(y, a)
    requires forall k :: 0 <= k < |y.sessions[a.i].phase.results| ==> y.sessions[a.i].phase.results[k].value.err.None?
    ensures var p := y.sessions[a.i].phase;
            var last, s' := p.tasks[|p.tasks| - 1], Do(y, a).sessions[a.i];
            && s'.doneHandle
               == (if last.endIncluded && last.endHandle < MAX_INT64 then last.endHandle + 1 else last.endHandle)
            && s'.phase == (if p.rest.Some? then Split(last.endHandle) else Ended(true))
            && (!s'.quit ==> Enabled(Do(y, a), Timeout(a.i)) && Do(Do(y, a), Timeout(a.i)).startHandle == s'.doneHandle)
  {
    var p := y.sessions[a.i].phase;
    assert SessionOK(y, y.sessions[a.i]);
    var results := Values(p.results);
    OkPrefixMeaning(results);
    hide OkPrefix;
    assert OkPrefix(results) == |results|;
    assert p.results[|results| - 1].Some? && TaskDone(y, p.tasks[|results| - 1], p.results[|results| - 1].value);
  }

  /** An error of worker 'i' leaves the persisted handle at the end of the ranges before it. */
  lemma ErrorStopsAdvancement(y: System, a: Action, i: nat)
    requires Inv(y) && a.BatchEnds? && a.persists && Enabled(y, a)
    requires var results := Values(y.sessions[a.i].phase.results);
             i < |results| && results[i].err.Some? && forall k :: 0 <= k < i ==> results[k].err.None?
    ensures var tasks := y.sessions[a.i].phase.tasks;
            Do(y, a).startHandle == if i == 0 then tasks[0].startHandle else DoneHandle(tasks[i - 1])
  {
    var p := y.sessions[a.i].phase;
    assert SessionOK(y, y.sessions[a.i]);
    OkPrefixMeaning(Values(p.results));
    hide OkPrefix;
    assert OkPrefix(Values(p.results)) == i;
    if i > 0 { assert p.results[i - 1].Some? && TaskDone(y, p.tasks[i - 1], p.results[i - 1].value); }
  }
}
