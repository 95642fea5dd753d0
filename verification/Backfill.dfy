/** One add-index worker: batched scans of a handle range, the uniqueness check of a batch
    against the index and against itself, and the writing of index entries. */
module Backfill {
  import opened Wrappers
  import opened Expressions

  const MIN_INT64 := -0x8000_0000_0000_0000
  const MAX_INT64 := 0x7fff_ffff_ffff_ffff

  type Int64 = x: int | MIN_INT64 <= x <= MAX_INT64

  /** The indexed column values of a row. A snapshot lists its rows by handle. */
  datatype TableRow = TableRow(handle: Int64, vals: seq<Value>)

  predicate Ascending(rows: seq<TableRow>) {
    forall i, j :: 0 <= i < j < |rows| ==> rows[i].handle < rows[j].handle
  }

  datatype Task = Task(startHandle: Int64, endHandle: Int64, endIncluded: bool)

  predicate InRange(task: Task, h: Int64) {
    task.startHandle <= h && (h < task.endHandle || (task.endIncluded && h == task.endHandle))
  }

  // ---------- rows of a range ----------

  /** How many rows have a handle below the bound. */
  function CountBelow(rows: seq<TableRow>, bound: int): (n: nat)
    ensures n <= |rows|
  {
    if rows == [] then 0 else (if rows[0].handle < bound then 1 else 0) + CountBelow(rows[1..], bound)
  }

  lemma {:induction false} BelowIsPrefix(rows: seq<TableRow>, bound: int)
    requires Ascending(rows)
    ensures forall i :: 0 <= i < |rows| ==> (rows[i].handle < bound <==> i < CountBelow(rows, bound))
  {
    if rows != [] {
      BelowIsPrefix(rows[1..], bound);
      forall i | 0 <= i < |rows| ensures rows[i].handle < bound <==> i < CountBelow(rows, bound) {
        if i > 0 {
          assert rows[1..][i - 1] == rows[i];
          assert rows[0].handle < rows[i].handle;
        } else if |rows| > 1 {
          assert rows[1..][0] == rows[1];
        }
      }
    }
  }

  /** The exclusive upper bound of a task, one past MaxInt64 for the whole key space. */
  function Upper(task: Task): int {
    if task.endIncluded then task.endHandle + 1 else task.endHandle
  }

  function RowsIn(rows: seq<TableRow>, task: Task): seq<TableRow> {
    var lo, hi := CountBelow(rows, task.startHandle), CountBelow(rows, Upper(task));
    if lo <= hi then rows[lo..hi] else []
  }

  /** A range holds exactly the rows in it, by handle. */
  lemma RowsInMeaning(rows: seq<TableRow>, task: Task, r: TableRow)
    requires Ascending(rows)
    ensures Ascending(RowsIn(rows, task))
    ensures r in RowsIn(rows, task) <==> r in rows && InRange(task, r.handle)
  {
    BelowIsPrefix(rows, task.startHandle);
    BelowIsPrefix(rows, Upper(task));
    if r in rows && InRange(task, r.handle) {
      var i :| 0 <= i < |rows| && rows[i] == r;
      var lo := CountBelow(rows, task.startHandle);
      assert RowsIn(rows, task)[i - lo] == r;
    }
  }

  // ---------- index entries ----------

  /** A key holds the handle unless the index is unique and no value is NULL. */
  datatype Key = Distinct(vals: seq<Value>) | WithHandle(vals: seq<Value>, handle: Int64)

  /** The handle each entry points at. */
  type Index = map<Key, Int64>

  function GenIndexKey(unique: bool, r: TableRow): Key {
    if unique && Null !in r.vals then Distinct(r.vals) else WithHandle(r.vals, r.handle)
  }

  /** An entry whose key holds the handle points at it. */
  predicate WellFormed(index: Index) {
    forall k :: k in index && k.WithHandle? ==> index[k] == k.handle
  }

  function Indexed(index: Index, unique: bool, rows: seq<TableRow>): Index
    decreases |rows|
  {
    if rows == [] then index
    else Indexed(index[GenIndexKey(unique, rows[0]) := rows[0].handle], unique, rows[1..])
  }

  /** How many entries that adds; only a unique index is asked first whether it has the key. */
  function Added(index: Index, unique: bool, rows: seq<TableRow>): nat
    decreases |rows|
  {
    if rows == [] then 0
    else
      var k := GenIndexKey(unique, rows[0]);
      (if unique && k in index then 0 else 1) + Added(index[k := rows[0].handle], unique, rows[1..])
  }

  /** The values of the row must be distinct, and their entry points at another row. */
  predicate Clash(index: Index, unique: bool, r: TableRow) {
    unique && Null !in r.vals && Distinct(r.vals) in index && index[Distinct(r.vals)] != r.handle
  }

  /** Indexing the rows in turn meets a clash. */
  predicate Conflict(index: Index, unique: bool, rows: seq<TableRow>)
    decreases |rows|
  {
    rows != [] && (Clash(index, unique, rows[0]) ||
                   Conflict(index[GenIndexKey(unique, rows[0]) := rows[0].handle], unique, rows[1..]))
  }

  lemma {:induction false} IndexedWellFormed(index: Index, unique: bool, rows: seq<TableRow>)
    requires WellFormed(index)
    ensures WellFormed(Indexed(index, unique, rows))
    decreases |rows|
  {
    if rows != [] { IndexedWellFormed(index[GenIndexKey(unique, rows[0]) := rows[0].handle], unique, rows[1..]); }
  }

  lemma {:induction false} IndexedSplits(index: Index, unique: bool, a: seq<TableRow>, b: seq<TableRow>)
    ensures Indexed(index, unique, a + b) == Indexed(Indexed(index, unique, a), unique, b)
    ensures Conflict(index, unique, a + b) <==>
        Conflict(index, unique, a) || Conflict(Indexed(index, unique, a), unique, b)
    ensures Added(index, unique, a + b) == Added(index, unique, a) + Added(Indexed(index, unique, a), unique, b)
    decreases |a|
  {
    if a == [] {
      assert a + b == b;
    } else {
      assert (a + b)[0] == a[0] && (a + b)[1..] == a[1..] + b;
      IndexedSplits(index[GenIndexKey(unique, a[0]) := a[0].handle], unique, a[1..], b);
    }
  }

  /** Only the rows' own keys change. */
  lemma {:induction false} IndexedFrame(index: Index, unique: bool, rows: seq<TableRow>, k: Key)
    requires forall i :: 0 <= i < |rows| ==> GenIndexKey(unique, rows[i]) != k
    ensures k in Indexed(index, unique, rows) <==> k in index
    ensures k in index ==> Indexed(index, unique, rows)[k] == index[k]
    decreases |rows|
  {
    if rows != [] { IndexedFrame(index[GenIndexKey(unique, rows[0]) := rows[0].handle], unique, rows[1..], k); }
  }

  /** Without a conflict every row ends up with an entry that points at it. */
  lemma {:induction false} IndexedHas(index: Index, unique: bool, rows: seq<TableRow>, i: nat)
    requires Ascending(rows) && !Conflict(index, unique, rows) && i < |rows|
    ensures GenIndexKey(unique, rows[i]) in Indexed(index, unique, rows)
    ensures Indexed(index, unique, rows)[GenIndexKey(unique, rows[i])] == rows[i].handle
    decreases |rows|
  {
    var k := GenIndexKey(unique, rows[0]);
    if i > 0 {
      IndexedHas(index[k := rows[0].handle], unique, rows[1..], i - 1);
    } else {
      forall j | 0 <= j < |rows[1..]| ensures GenIndexKey(unique, rows[1..][j]) != k {
        assert rows[1..][j] == rows[j + 1];
        NoLaterSameKey(index, unique, rows, 0, j + 1);
      }
      IndexedFrame(index[k := rows[0].handle], unique, rows[1..], k);
    }
  }

  /** Two rows with one distinct key are a conflict. */
  lemma {:induction false} NoLaterSameKey(index: Index, unique: bool, rows: seq<TableRow>, i: nat, j: nat)
    requires Ascending(rows) && !Conflict(index, unique, rows) && i < j < |rows|
    ensures GenIndexKey(unique, rows[i]) != GenIndexKey(unique, rows[j])
    decreases |rows|
  {
    var k := GenIndexKey(unique, rows[0]);
    var index' := index[k := rows[0].handle];
    if i > 0 {
      NoLaterSameKey(index', unique, rows[1..], i - 1, j - 1);
    } else if k.Distinct? {
      EntryClashes(index', unique, rows[1..], j - 1, k);
    }
  }

  /** Without a conflict no row disagrees with an entry that was there. */
  lemma {:induction false} EntryClashes(index: Index, unique: bool, rows: seq<TableRow>, j: nat, k: Key)
    requires !Conflict(index, unique, rows) && j < |rows| && k.Distinct? && k in index
    requires forall i :: 0 <= i < |rows| ==> rows[i].handle != index[k]
    ensures GenIndexKey(unique, rows[j]) != k
    decreases |rows|
  {
    var k0 := GenIndexKey(unique, rows[0]);
    assert k0 != k;
    if j > 0 { EntryClashes(index[k0 := rows[0].handle], unique, rows[1..], j - 1, k); }
  }

  /** Two different rows share values that must be distinct, one of them perhaps only through its entry. */
  ghost predicate Duplicate(index: Index, unique: bool, rows: seq<TableRow>) {
    || (exists i :: 0 <= i < |rows| && Clash(index, unique, rows[i]))
    || (exists i, j :: 0 <= i < j < |rows| && SameDistinctKey(unique, rows[i], rows[j]))
  }

  predicate SameDistinctKey(unique: bool, r: TableRow, t: TableRow) {
    unique && r.vals == t.vals && Null !in r.vals
  }

  /** A key of the row's values: without the handle only where values must be distinct, which
      those with a NULL need not be. */
  predicate OwnKey(k: Key, unique: bool, r: TableRow) {
    && k.vals == r.vals && (k.Distinct? <==> unique && Null !in r.vals)
    && (k.WithHandle? ==> k.handle == r.handle)
  }

  predicate HasEntry(index: Index, unique: bool, r: TableRow) {
    exists k :: k in index && OwnKey(k, unique, r) && index[k] == r.handle
  }

  /** The index has its old entries and those of the rows, and no others. */
  ghost predicate GrownBy(was: Index, index: Index, unique: bool, rows: seq<TableRow>) {
    && (forall r :: r in rows ==> HasEntry(index, unique, r))
    && (forall k :: k in was ==> k in index && index[k] == was[k])
    && (forall k :: k in index && k !in was ==> exists r :: r in rows && OwnKey(k, unique, r) && index[k] == r.handle)
  }

  lemma OwnKeyForm(unique: bool, r: TableRow)
    ensures forall k :: OwnKey(k, unique, r) <==> k == GenIndexKey(unique, r)
  {
  }

  lemma IndexGrows(was: Index, unique: bool, rows: seq<TableRow>)
    requires Ascending(rows) && WellFormed(was) && !Duplicate(was, unique, rows)
    ensures GrownBy(was, Indexed(was, unique, rows), unique, rows)
  {
    ConflictIsDuplicate(was, unique, rows);
    hide Indexed, Conflict, OwnKey;
    var index := Indexed(was, unique, rows);
    forall r | r in rows ensures HasEntry(index, unique, r) {
      var i :| 0 <= i < |rows| && rows[i] == r;
      IndexedHas(was, unique, rows, i);
      OwnKeyForm(unique, r);
    }
    forall k
      ensures k in was ==> k in index && index[k] == was[k]
      ensures k in index && k !in was ==> exists r :: r in rows && OwnKey(k, unique, r) && index[k] == r.handle
    {
      if i :| 0 <= i < |rows| && GenIndexKey(unique, rows[i]) == k {
        IndexedHas(was, unique, rows, i);
        OwnKeyForm(unique, rows[i]);
        assert rows[i] in rows && !Clash(was, unique, rows[i]);
      } else {
        IndexedFrame(was, unique, rows, k);
      }
    }
  }

  lemma ConflictIsDuplicate(index: Index, unique: bool, rows: seq<TableRow>)
    requires Ascending(rows)
    ensures Conflict(index, unique, rows) <==> Duplicate(index, unique, rows)
  {
    if Conflict(index, unique, rows) {
      ConflictShows(index, unique, rows);
    } else {
      forall i, j | 0 <= i < j < |rows|
        ensures !SameDistinctKey(unique, rows[i], rows[j])
      {
        NoLaterSameKey(index, unique, rows, i, j);
      }
      forall i | 0 <= i < |rows| ensures !Clash(index, unique, rows[i]) { NoClash(index, unique, rows, i); }
    }
  }

  lemma {:induction false} NoClash(index: Index, unique: bool, rows: seq<TableRow>, i: nat)
    requires Ascending(rows) && !Conflict(index, unique, rows) && i < |rows|
    ensures !Clash(index, unique, rows[i])
    decreases |rows|
  {
    if i > 0 {
      NoLaterSameKey(index, unique, rows, 0, i);
      NoClash(index[GenIndexKey(unique, rows[0]) := rows[0].handle], unique, rows[1..], i - 1);
    }
  }

  lemma {:induction false} ConflictShows(index: Index, unique: bool, rows: seq<TableRow>)
    requires Conflict(index, unique, rows)
    ensures Duplicate(index, unique, rows)
    decreases |rows|
  {
    if !Clash(index, unique, rows[0]) {
      var index' := index[GenIndexKey(unique, rows[0]) := rows[0].handle];
      ConflictShows(index', unique, rows[1..]);
      if i :| 0 <= i < |rows[1..]| && Clash(index', unique, rows[1..][i]) {
        assert rows[1..][i] == rows[i + 1];
        assert Clash(index, unique, rows[i + 1]) || SameDistinctKey(unique, rows[0], rows[i + 1]);
      } else {
        var i, j :| 0 <= i < j < |rows[1..]| && SameDistinctKey(unique, rows[1..][i], rows[1..][j]);
        assert SameDistinctKey(unique, rows[i + 1], rows[j + 1]);
      }
    }
  }

  lemma {:induction false} IndexedGrows(index: Index, unique: bool, rows: seq<TableRow>, k: Key)
    requires k in index
    ensures k in Indexed(index, unique, rows)
    decreases |rows|
  {
    if rows != [] { IndexedGrows(index[GenIndexKey(unique, rows[0]) := rows[0].handle], unique, rows[1..], k); }
  }

  // ---------- the worker ----------

  datatype IndexRecord = IndexRecord(handle: Int64, vals: seq<Value>, skip: bool)

  function RowOf(r: IndexRecord): TableRow {
    TableRow(r.handle, r.vals)
  }

  function RowsOf(records: seq<IndexRecord>): seq<TableRow> {
    seq(|records|, i requires 0 <= i < |records| => RowOf(records[i]))
  }

  /** Where the next task begins once this one is done, without stepping over MaxInt64. */
  function DoneHandle(task: Task): Int64 {
    if task.endHandle == MAX_INT64 || !task.endIncluded then task.endHandle else task.endHandle + 1
  }

  /** The rows a finished range leaves to a scan from its next handle are not its own, except
      that MaxInt64 cannot be stepped over. */
  lemma DoneHandlePasses(task: Task, h: Int64)
    ensures h < DoneHandle(task) && task.startHandle <= h ==> InRange(task, h)
    ensures InRange(task, h) ==> h < DoneHandle(task) || h == MAX_INT64 == DoneHandle(task)
  {
  }

  lemma RestOfRange(rows: seq<TableRow>, task: Task, n: nat)
    requires Ascending(rows) && 0 < n <= |RowsIn(rows, task)| && RowsIn(rows, task)[n - 1].handle < MAX_INT64
    ensures RowsIn(rows, task.(startHandle := RowsIn(rows, task)[n - 1].handle + 1)) == RowsIn(rows, task)[n..]
  {
    var last := RowsIn(rows, task)[n - 1].handle;
    var lo := CountBelow(rows, task.startHandle);
    assert rows[lo + n - 1].handle == last;
    BelowIsPrefix(rows, last + 1);
    assert lo + n < |rows| ==> rows[lo + n - 1].handle < rows[lo + n].handle;
    assert CountBelow(rows, last + 1) == lo + n;
  }

  /** The records are the rows from position 'lo' on. */
  ghost predicate Reading(rows: seq<TableRow>, lo: nat, records: seq<IndexRecord>) {
    lo + |records| <= |rows| && forall i ::
      0 <= i < |records| ==> records[i] == IndexRecord(rows[lo + i].handle, rows[lo + i].vals, false)
  }

  lemma EmptyReading(rows: seq<TableRow>, lo: nat)
    requires lo <= |rows|
    ensures Reading(rows, lo, [])
  {
  }

  lemma ReadOne(rows: seq<TableRow>, lo: nat, records: seq<IndexRecord>)
    requires Reading(rows, lo, records) && lo + |records| < |rows|
    ensures Reading(rows, lo, records + [IndexRecord(rows[lo + |records|].handle, rows[lo + |records|].vals, false)])
  {
  }

  lemma AscendingNext(rows: seq<TableRow>, i: nat)
    requires Ascending(rows) && i < |rows|
    ensures i + 1 < |rows| ==> rows[i].handle < rows[i + 1].handle
  {
  }

  lemma FetchedRows(rows: seq<TableRow>, task: Task, records: seq<IndexRecord>)
    requires Reading(rows, CountBelow(rows, task.startHandle), records)
    requires records == [] || CountBelow(rows, task.startHandle) + |records| <= CountBelow(rows, Upper(task))
    ensures |records| <= |RowsIn(rows, task)| && RowsOf(records) == RowsIn(rows, task)[..|records|]
    ensures forall i :: 0 <= i < |records| ==> !records[i].skip
    ensures records != [] ==>
        records[|records| - 1].handle == rows[CountBelow(rows, task.startHandle) + |records| - 1].handle
    ensures var lo, hi := CountBelow(rows, task.startHandle), CountBelow(rows, Upper(task));
            |RowsIn(rows, task)| == if lo <= hi then hi - lo else 0
  {
  }

  datatype BackfillError = NotRunnable | TxnFailed | KeyExists

  /** The environment's part in one round: the owner may have stopped the job, and locking the
      rows or committing may fail. */
  datatype Round = Proceed | StopJob | FailTxn

  datatype TaskContext = TaskContext(nextHandle: Int64, done: bool, addedCount: nat, scanCount: nat)

  datatype BackfillResult = BackfillResult(addedCount: nat, scanCount: nat, nextHandle: Int64,
                                           err: Option<BackfillError>)

  /** The committed index entries. */
  class Store {
    var entries: Index
  }

  class AddIndexWorker {
    const unique: bool
    var batchCnt: int
    var idxRecords: seq<IndexRecord>
    var batchCheckKeys: seq<Key>
    var distinctCheckFlags: seq<bool>

    method GetNextHandle(task: Task, taskDone: bool) returns (nextHandle: Int64)
      requires !taskDone ==> idxRecords != [] && idxRecords[|idxRecords| - 1].handle < MAX_INT64
      ensures nextHandle == if taskDone then DoneHandle(task) else idxRecords[|idxRecords| - 1].handle + 1
    {
      if !taskDone {
        return idxRecords[|idxRecords| - 1].handle + 1;
      }
      if task.endHandle == MAX_INT64 || !task.endIncluded {
        return task.endHandle;
      }
      return task.endHandle + 1;
    }

    /** Reads the next rows of the range into idxRecords: all of them, or a full batch. */
    method FetchRowColVals(rows: seq<TableRow>, task: Task) returns (nextHandle: Int64, taskDone: bool)
      requires Ascending(rows)
      modifies this`idxRecords
      ensures |idxRecords| == (if |RowsIn(rows, task)| < batchCnt then |RowsIn(rows, task)|
                               else if batchCnt < 0 then 0 else batchCnt)
      ensures RowsOf(idxRecords) == RowsIn(rows, task)[..|idxRecords|]
      ensures forall i :: 0 <= i < |idxRecords| ==> !idxRecords[i].skip
      ensures taskDone ==> nextHandle == DoneHandle(task) && (batchCnt >= 1 ==> |idxRecords| == |RowsIn(rows, task)|)
      ensures !taskDone ==> idxRecords != [] && idxRecords[|idxRecords| - 1].handle < MAX_INT64 &&
                            nextHandle == idxRecords[|idxRecords| - 1].handle + 1
    {
      hide CountBelow, RowsIn, Reading, Ascending, RowsOf, DoneHandle;
      var records: seq<IndexRecord> := [];
      taskDone := false;
      var upperBound := if task.endIncluded then task.endHandle + 1 else task.endHandle;
      var it := CountBelow(rows, task.startHandle);
      ghost var lo, hi := it, CountBelow(rows, upperBound);
      BelowIsPrefix(rows, upperBound);
      assert Reading(rows, lo, []) by { EmptyReading(rows, lo); }
      while it < |rows| && rows[it].handle < upperBound
        invariant lo <= it <= |rows| && !taskDone && |records| == it - lo && (it > lo ==> |records| <= batchCnt)
        invariant it == lo || (it <= hi && rows[it - 1].handle != task.endHandle && rows[it - 1].handle < upperBound)
        invariant Reading(rows, lo, records)
      {
        var handle := rows[it].handle;
        taskDone := if !task.endIncluded then handle >= task.endHandle else handle > task.endHandle;
        if taskDone || |records| >= batchCnt {
          break;
        }
        ReadOne(rows, lo, records);
        records := records + [IndexRecord(handle, rows[it].vals, false)];
        if handle == task.endHandle {
          taskDone := true;
          AscendingNext(rows, it);
          break;
        }
        it := it + 1;
      }
      FetchedRows(rows, task, records);
      idxRecords := records;
      if |idxRecords| == 0 {
        taskDone := true;
      }
      nextHandle := GetNextHandle(task, taskDone);
    }

    /** Rejects the batch exactly when it has a duplicate; otherwise marks the rows that already
        have their entry. */
    method CheckUniqueKey(entries: Index) returns (ok: bool)
      requires Ascending(RowsOf(idxRecords)) && forall i :: 0 <= i < |idxRecords| ==> !idxRecords[i].skip
      modifies this`idxRecords, this`batchCheckKeys, this`distinctCheckFlags
      ensures RowsOf(idxRecords) == old(RowsOf(idxRecords))
      ensures ok <==> !Conflict(entries, unique, RowsOf(idxRecords))
      ensures ok ==> forall i ::
          0 <= i < |idxRecords| ==>
            (idxRecords[i].skip <==> unique && GenIndexKey(unique, RowOf(idxRecords[i])) in entries)
    {
      ghost var rows := RowsOf(idxRecords);
      ConflictIsDuplicate(entries, unique, rows);
      hide Conflict;
      if !unique {
        return true;
      }
      batchCheckKeys, distinctCheckFlags := [], [];
      for i := 0 to |idxRecords|
        invariant idxRecords == old(idxRecords) && |batchCheckKeys| == |distinctCheckFlags| == i
        invariant forall j ::
            0 <= j < i ==>
              batchCheckKeys[j] == GenIndexKey(unique, rows[j]) && distinctCheckFlags[j] == batchCheckKeys[j].Distinct?
      {
        var key := GenIndexKey(unique, RowOf(idxRecords[i]));
        batchCheckKeys := batchCheckKeys + [key];
        distinctCheckFlags := distinctCheckFlags + [key.Distinct?];
      }
      ok, idxRecords := CheckKeys(entries, batchCheckKeys, distinctCheckFlags, idxRecords);
    }

    /** One batch in one transaction: nothing is written unless it commits. */
    method BackfillIndexInTxn(store: Store, rows: seq<TableRow>, task: Task, commits: bool)
      returns (ctx: TaskContext, err: Option<BackfillError>)
      requires Ascending(rows) && batchCnt >= 1 && WellFormed(store.entries)
      modifies this`idxRecords, this`batchCheckKeys, this`distinctCheckFlags, store
      ensures batchCnt == old(batchCnt)
      ensures err.Some? ==> store.entries == old(store.entries)
      ensures err == Some(KeyExists) <==>
          Conflict(old(store.entries), unique, RowsIn(rows, task)[..Batch(rows, task, batchCnt)])
      ensures err == Some(TxnFailed) ==> !commits
      ensures err != Some(NotRunnable)
      ensures err.None? ==>
                && commits && ctx.scanCount == Batch(rows, task, batchCnt)
                && store.entries == Indexed(old(store.entries), unique, RowsIn(rows, task)[..ctx.scanCount])
                && ctx.addedCount == Added(old(store.entries), unique, RowsIn(rows, task)[..ctx.scanCount])
                && (ctx.done ==> ctx.scanCount == |RowsIn(rows, task)| && ctx.nextHandle == DoneHandle(task))
                && (!ctx.done ==> ctx.scanCount > 0 && RowsIn(rows, task)[ctx.scanCount - 1].handle < MAX_INT64 &&
                                  ctx.nextHandle == RowsIn(rows, task)[ctx.scanCount - 1].handle + 1)
    {
      hide Conflict, Indexed, Added, RowsIn;
      var nextHandle, taskDone := FetchRowColVals(rows, task);
      ghost var batch := RowsIn(rows, task)[..|idxRecords|];
      assert !taskDone ==> RowsOf(idxRecords)[|idxRecords| - 1] == batch[|idxRecords| - 1];
      ctx := TaskContext(nextHandle, taskDone, 0, 0);
      PrefixAscending(rows, task, |idxRecords|);
      var ok := CheckUniqueKey(store.entries);
      if !ok {
        return ctx, Some(KeyExists);
      }
      var buffer, added := CreateEntries(store.entries, unique, idxRecords);
      if !commits {
        return ctx, Some(TxnFailed);
      }
      store.entries := buffer;
      ctx := ctx.(addedCount := added, scanCount := |idxRecords|);
      err := None;
    }

    /** One round of a task: the check that the job still runs, and one batch. */
    method BackfillRound(store: Store, rows: seq<TableRow>, range: Task, round: Round, ghost task: Task,
                         ghost was: Index, ghost scanned: seq<TableRow>)
      returns (ctx: TaskContext, err: Option<BackfillError>, ghost scanned': seq<TableRow>)
      requires Ascending(rows) && batchCnt >= 1
      requires Committed(was, store.entries, unique, RowsIn(rows, task), scanned) &&
               Unscanned(rows, task, range, scanned)
      modifies this`idxRecords, this`batchCheckKeys, this`distinctCheckFlags, store
      ensures err.Some? ==> store.entries == old(store.entries) && scanned' == scanned
      ensures err.Some? ==> if err.value == KeyExists then Conflict(was, unique, RowsIn(rows, task))
          else round != Proceed
      ensures err.None? ==>
          Committed(was, store.entries, unique, RowsIn(rows, task), scanned') && |scanned'| == |scanned| + ctx.scanCount
      ensures err.None? ==> Added(was, unique, scanned') == Added(was, unique, scanned) + ctx.addedCount
      ensures err.None? && ctx.done ==> scanned' == RowsIn(rows, task) && ctx.nextHandle == DoneHandle(task)
      ensures err.None? && !ctx.done ==>
          ctx.scanCount > 0 && Unscanned(rows, task, range.(startHandle := ctx.nextHandle), scanned')
    {
      hide Conflict, Indexed, Added, RowsIn, WellFormed, Ascending, Committed, Unscanned;
      scanned' := scanned;
      if round == StopJob {
        return TaskContext(range.startHandle, false, 0, 0), Some(NotRunnable), scanned;
      }
      CommittedParts(was, store.entries, unique, RowsIn(rows, task), scanned);
      UnscannedParts(rows, task, range, scanned);
      TaskGoesOn(rows, task, range, scanned, Batch(rows, range, batchCnt), was, store.entries, unique);
      ctx, err := BackfillIndexInTxn(store, rows, range, round != FailTxn);
      if err.None? {
        scanned' := scanned + RowsIn(rows, range)[..ctx.scanCount];
      }
    }

    /** Backfills the whole range batch by batch. What was committed is the index of the rows
        scanned so far, 'scanned', each once and by ascending handle. */
    method HandleBackfillTask(store: Store, rows: seq<TableRow>, task: Task, env: nat -> Round)
      returns (result: BackfillResult, ghost scanned: seq<TableRow>)
      requires Ascending(rows) && batchCnt >= 1 && WellFormed(store.entries)
      modifies this`idxRecords, this`batchCheckKeys, this`distinctCheckFlags, store
      ensures WellFormed(store.entries) && result.scanCount == |scanned| && scanned <= RowsIn(rows, task)
      ensures result.addedCount == Added(old(store.entries), unique, scanned)
      ensures store.entries == Indexed(old(store.entries), unique, scanned) &&
              !Duplicate(old(store.entries), unique, scanned)
      ensures GrownBy(old(store.entries), store.entries, unique, scanned)
      ensures result.addedCount == |NewRows(old(store.entries), unique, scanned)|
      ensures result.err.None? ==> scanned == RowsIn(rows, task) && result.nextHandle == DoneHandle(task)
      ensures result.err.Some? ==> result.nextHandle == HandleAfter(task, scanned)
      ensures result.err == Some(KeyExists) ==> Duplicate(old(store.entries), unique, RowsIn(rows, task))
      ensures result.err.Some? && result.err != Some(KeyExists) ==> exists n :: env(n) != Proceed
    {
      ghost var was, all := store.entries, RowsIn(rows, task);
      var range := task;
      result := BackfillResult(0, 0, task.startHandle, None);
      scanned := [];
      TaskBegins(rows, task, was, unique);
      NothingIndexed(was, unique);
      hide Conflict, Indexed, Added, RowsIn, Duplicate, WellFormed, Ascending, Committed, Unscanned, GrownBy,
        NewRows;
      var round := 0;
      var done := false;
      while !done
        invariant result.scanCount == |scanned| && Committed(was, store.entries, unique, all, scanned)
        invariant result.addedCount == Added(was, unique, scanned)
        invariant !done ==>
            Unscanned(rows, task, range, scanned) && result.nextHandle == range.startHandle && result.err.None?
        invariant done && result.err.None? ==> scanned == all && result.nextHandle == DoneHandle(task)
        invariant result.err.Some? ==> result.nextHandle == HandleAfter(task, scanned)
        invariant result.err.Some? ==> if result.err.value == KeyExists then Conflict(was, unique, all) else exists n ::
            env(n) != Proceed
        decreases !done, |all| - |scanned|
      {
        UnscannedParts(rows, task, range, scanned);
        var ctx, err;
        ctx, err, scanned := BackfillRound(store, rows, range, env(round), task, was, scanned);
        if err.Some? {
          result := result.(err := err);
          done := true;
        } else {
          CommittedParts(was, store.entries, unique, all, scanned);
          result := result.(nextHandle := ctx.nextHandle, addedCount := result.addedCount + ctx.addedCount,
                            scanCount := result.scanCount + ctx.scanCount);
          range := range.(startHandle := ctx.nextHandle);
          done := ctx.done;
        }
        round := round + 1;
      }
      CommittedParts(was, store.entries, unique, all, scanned);
      TaskEnds(rows, task, was, unique, scanned);
    }
  }

  /** A unique index that starts empty reports an existing key only for two rows of the range
      with different handles and the same values without a NULL. */
  method BackfillFromEmpty(worker: AddIndexWorker, store: Store, rows: seq<TableRow>, task: Task, env: nat -> Round)
    returns (result: BackfillResult)
    requires Ascending(rows) && worker.batchCnt >= 1 && store.entries == map[]
    modifies worker`idxRecords, worker`batchCheckKeys, worker`distinctCheckFlags, store
    ensures result.err == Some(KeyExists) ==> TwinRows(rows, task, worker.unique)
    ensures result.err.None? ==> !TwinRows(rows, task, worker.unique)
    ensures result.err.None? ==>
              forall r :: r in rows && InRange(task, r.handle) ==> HasEntry(store.entries, worker.unique, r)
  {
    ghost var scanned;
    result, scanned := worker.HandleBackfillTask(store, rows, task, env);
    TwinsAreDuplicates(rows, task, worker.unique);
    forall r | r in rows && InRange(task, r.handle) && result.err.None?
      ensures HasEntry(store.entries, worker.unique, r)
    {
      RowsInMeaning(rows, task, r);
    }
  }

  ghost predicate TwinRows(rows: seq<TableRow>, task: Task, unique: bool) {
    unique && exists r, t ::
      && r in rows && t in rows && InRange(task, r.handle) && InRange(task, t.handle)
      && r.handle != t.handle && r.vals == t.vals && Null !in r.vals
  }

  lemma TwinsAreDuplicates(rows: seq<TableRow>, task: Task, unique: bool)
    requires Ascending(rows)
    ensures Duplicate(map[], unique, RowsIn(rows, task)) <==> TwinRows(rows, task, unique)
  {
    hide RowsIn, InRange, CountBelow, Duplicate, TwinRows;
    var all := RowsIn(rows, task);
    forall r ensures r in all <==> r in rows && InRange(task, r.handle) { RowsInMeaning(rows, task, r); }
    RowsInMeaning(rows, task, TableRow(0, []));
    if Duplicate(map[], unique, all) { DuplicateShowsTwins(rows, task, all, unique); }
    if TwinRows(rows, task, unique) { TwinsShowDuplicate(rows, task, all, unique); }
  }

  lemma DuplicateShowsTwins(rows: seq<TableRow>, task: Task, all: seq<TableRow>, unique: bool)
    requires Ascending(all) && forall r :: r in all <==> r in rows && InRange(task, r.handle)
    requires Duplicate(map[], unique, all)
    ensures TwinRows(rows, task, unique)
  {
    hide InRange;
    var i, j :| 0 <= i < j < |all| && SameDistinctKey(unique, all[i], all[j]);
    var r, t := all[i], all[j];
    assert r in all && t in all && r.handle != t.handle;
  }

  lemma TwinsShowDuplicate(rows: seq<TableRow>, task: Task, all: seq<TableRow>, unique: bool)
    requires forall r :: r in all <==> r in rows && InRange(task, r.handle)
    requires TwinRows(rows, task, unique)
    ensures Duplicate(map[], unique, all)
  {
    hide InRange;
    var r, t :| r in rows && t in rows && InRange(task, r.handle) && InRange(task, t.handle)
      && r.handle != t.handle && r.vals == t.vals && Null !in r.vals;
    assert r in all && t in all;
    var i :| 0 <= i < |all| && all[i] == r;
    var j :| 0 <= j < |all| && all[j] == t;
    assert SameDistinctKey(unique, all[i], all[j]) && SameDistinctKey(unique, all[j], all[i]);
  }

  /** The index holds what it held and the entries of the scanned rows, which do not conflict. */
  ghost predicate Committed(was: Index, entries: Index, unique: bool, all: seq<TableRow>, scanned: seq<TableRow>) {
    WellFormed(entries) && scanned <= all && entries == Indexed(was, unique, scanned) && !Conflict(was, unique, scanned)
  }

  /** One past the last scanned row. */
  function HandleAfter(task: Task, scanned: seq<TableRow>): int {
    if scanned == [] then task.startHandle else scanned[|scanned| - 1].handle + 1
  }

  /** The range still to scan holds the rows that were not scanned. */
  ghost predicate Unscanned(rows: seq<TableRow>, task: Task, range: Task, scanned: seq<TableRow>) {
    && scanned <= RowsIn(rows, task) && RowsIn(rows, range) == RowsIn(rows, task)[|scanned|..]
    && range == task.(startHandle := range.startHandle) && range.startHandle == HandleAfter(task, scanned)
  }

  lemma CommittedParts(was: Index, entries: Index, unique: bool, all: seq<TableRow>, scanned: seq<TableRow>)
    requires Committed(was, entries, unique, all, scanned)
    ensures WellFormed(entries) && scanned <= all && entries == Indexed(was, unique, scanned) &&
            !Conflict(was, unique, scanned)
  {
  }

  lemma UnscannedParts(rows: seq<TableRow>, task: Task, range: Task, scanned: seq<TableRow>)
    requires Unscanned(rows, task, range, scanned)
    ensures |RowsIn(rows, range)| == |RowsIn(rows, task)| - |scanned| &&
            range.startHandle == HandleAfter(task, scanned) && DoneHandle(range) == DoneHandle(task)
  {
  }

  lemma TaskBegins(rows: seq<TableRow>, task: Task, was: Index, unique: bool)
    requires Ascending(rows) && WellFormed(was)
    ensures Committed(was, was, unique, RowsIn(rows, task), []) && Unscanned(rows, task, task, [])
  {
    assert RowsIn(rows, task)[0..] == RowsIn(rows, task);
  }

  lemma TaskGoesOn(rows: seq<TableRow>, task: Task, range: Task, scanned: seq<TableRow>, m: nat, was: Index,
                   entries: Index, unique: bool)
    requires Ascending(rows) && Committed(was, entries, unique, RowsIn(rows, task), scanned) &&
             Unscanned(rows, task, range, scanned)
    requires m <= |RowsIn(rows, range)|
    ensures var batch := RowsIn(rows, range)[..m];
            && (Conflict(entries, unique, batch) ==> Conflict(was, unique, RowsIn(rows, task)))
            && Added(was, unique, scanned + batch) == Added(was, unique, scanned) + Added(entries, unique, batch)
            && (!Conflict(entries, unique, batch) ==>
                  Committed(was, Indexed(entries, unique, batch), unique, RowsIn(rows, task), scanned + batch))
            && (m == |RowsIn(rows, range)| ==> scanned + batch == RowsIn(rows, task))
            && (0 < m && batch[m - 1].handle < MAX_INT64 ==>
                  Unscanned(rows, task, range.(startHandle := batch[m - 1].handle + 1), scanned + batch))
  {
    hide Conflict, Indexed, Added, WellFormed, Ascending, RowsIn;
    NextBatch(rows, range, RowsIn(rows, task), |scanned|, m, was, unique);
    assert RowsIn(rows, task)[..|scanned|] == scanned;
  }

  lemma TaskEnds(rows: seq<TableRow>, task: Task, was: Index, unique: bool, scanned: seq<TableRow>)
    requires Ascending(rows) && scanned <= RowsIn(rows, task) && WellFormed(was)
    ensures Conflict(was, unique, scanned) <==> Duplicate(was, unique, scanned)
    ensures Conflict(was, unique, RowsIn(rows, task)) <==> Duplicate(was, unique, RowsIn(rows, task))
    ensures !Conflict(was, unique, scanned) ==> GrownBy(was, Indexed(was, unique, scanned), unique, scanned)
    ensures !Conflict(was, unique, scanned) ==> Added(was, unique, scanned) == |NewRows(was, unique, scanned)|
  {
    hide GrownBy, Indexed, Added, NewRows;
    assert scanned == RowsIn(rows, task)[..|scanned|];
    PrefixAscending(rows, task, |scanned|);
    ConflictIsDuplicate(was, unique, scanned);
    ConflictIsDuplicate(was, unique, RowsIn(rows, task));
    if !Conflict(was, unique, scanned) {
      IndexGrows(was, unique, scanned);
      AddedCounts(was, unique, scanned, |scanned|);
      assert scanned[..|scanned|] == scanned;
    }
  }

  /** The size of the next batch of a range. */
  function Batch(rows: seq<TableRow>, task: Task, batchCnt: int): nat
    requires batchCnt >= 0
  {
    if |RowsIn(rows, task)| < batchCnt then |RowsIn(rows, task)| else batchCnt
  }

  lemma PrefixAscending(rows: seq<TableRow>, task: Task, n: nat)
    requires Ascending(rows) && n <= |RowsIn(rows, task)|
    ensures Ascending(RowsIn(rows, task)[..n]) && Ascending(RowsIn(rows, task))
  {
  }

  /** One more batch of a range: the rest of the range and of the index. */
  lemma NextBatch(rows: seq<TableRow>, task: Task, all: seq<TableRow>, n: nat, m: nat, was: Index, unique: bool)
    requires Ascending(rows) && n <= |all| && RowsIn(rows, task) == all[n..] && n + m <= |all|
    ensures all[..n] + RowsIn(rows, task)[..m] == all[..n + m]
    ensures Indexed(was, unique, all[..n + m])
            == Indexed(Indexed(was, unique, all[..n]), unique, RowsIn(rows, task)[..m])
    ensures Conflict(was, unique, all[..n + m]) <==>
              Conflict(was, unique, all[..n]) ||
              Conflict(Indexed(was, unique, all[..n]), unique, RowsIn(rows, task)[..m])
    ensures Conflict(was, unique, all[..n + m]) ==> Conflict(was, unique, all)
    ensures Added(was, unique, all[..n + m])
            == Added(was, unique, all[..n]) + Added(Indexed(was, unique, all[..n]), unique, RowsIn(rows, task)[..m])
    ensures WellFormed(Indexed(was, unique, all[..n])) ==> WellFormed(Indexed(was, unique, all[..n + m]))
    ensures 0 < m && all[n + m - 1].handle < MAX_INT64 ==>
              RowsIn(rows, task)[m - 1] == all[n + m - 1] &&
              RowsIn(rows, task.(startHandle := all[n + m - 1].handle + 1)) == all[n + m..]
  {
    hide Indexed, Added, Conflict, WellFormed, RowsIn;
    assert all[..n] + all[n..][..m] == all[..n + m];
    IndexedSplits(was, unique, all[..n], all[n..][..m]);
    assert all[..n + m] + all[n + m..] == all;
    IndexedSplits(was, unique, all[..n + m], all[n + m..]);
    if WellFormed(Indexed(was, unique, all[..n])) {
      IndexedWellFormed(Indexed(was, unique, all[..n]), unique, all[n..][..m]);
    }
    if 0 < m && all[n + m - 1].handle < MAX_INT64 {
      RestOfRange(rows, task, m);
      assert all[n..][m..] == all[n + m..];
    }
  }

  /** Writes an entry for every record that is not marked. */
  method CreateEntries(entries: Index, unique: bool, records: seq<IndexRecord>) returns (buffer: Index, added: nat)
    requires WellFormed(entries) && !Conflict(entries, unique, RowsOf(records)) && Ascending(RowsOf(records))
    requires forall i ::
        0 <= i < |records| ==> (records[i].skip <==> unique && GenIndexKey(unique, RowOf(records[i])) in entries)
    ensures buffer == Indexed(entries, unique, RowsOf(records)) && added == Added(entries, unique, RowsOf(records))
  {
    ghost var rows := RowsOf(records);
    buffer, added := entries, 0;
    hide Conflict, Indexed, Added, WellFormed, Ascending;
    assert buffer == Indexed(entries, unique, rows[..0]) && Added(entries, unique, rows[..0]) == 0 by {
      NothingIndexed(entries, unique);
    }
    for i := 0 to |records|
      invariant buffer == Indexed(entries, unique, rows[..i]) && added == Added(entries, unique, rows[..i])
    {
      IndexOne(entries, unique, rows, i);
      if !records[i].skip {
        buffer := buffer[GenIndexKey(unique, RowOf(records[i])) := records[i].handle];
        added := added + 1;
      }
    }
    assert rows[..|records|] == rows;
  }

  lemma NothingIndexed(entries: Index, unique: bool)
    ensures Indexed(entries, unique, []) == entries && Added(entries, unique, []) == 0
  {
  }

  /** The rows that get an entry: all of them, but for a unique index only those without one. */
  ghost function NewRows(was: Index, unique: bool, rows: seq<TableRow>): set<TableRow> {
    set r | r in rows && !(unique && HasEntry(was, unique, r))
  }

  /** The count of added entries is the number of those rows. */
  lemma {:induction false} AddedCounts(was: Index, unique: bool, rows: seq<TableRow>, i: nat)
    requires WellFormed(was) && !Conflict(was, unique, rows) && Ascending(rows) && i <= |rows|
    ensures Added(was, unique, rows[..i]) == |NewRows(was, unique, rows[..i])|
  {
    hide Added, Indexed, Conflict, HasEntry, Ascending, GenIndexKey, NewRows;
    if i == 0 {
      NoNewRows(was, unique, rows);
    } else {
      AddedCounts(was, unique, rows, i - 1);
      IndexOne(was, unique, rows, i - 1);
      EntryForm(was, unique, rows, i - 1);
      NewRowsStep(was, unique, rows, i - 1);
    }
  }

  lemma NoNewRows(was: Index, unique: bool, rows: seq<TableRow>)
    ensures Added(was, unique, rows[..0]) == 0 && NewRows(was, unique, rows[..0]) == {}
  {
  }

  lemma NewRowsStep(was: Index, unique: bool, rows: seq<TableRow>, i: nat)
    requires Ascending(rows) && i < |rows|
    ensures |NewRows(was, unique, rows[..i + 1])|
            == |NewRows(was, unique, rows[..i])| + if unique && HasEntry(was, unique, rows[i]) then 0 else 1
  {
    hide HasEntry;
    var r := rows[i];
    assert rows[..i + 1] == rows[..i] + [r];
    assert r !in rows[..i];
    assert NewRows(was, unique, rows[..i + 1])
        == NewRows(was, unique, rows[..i]) + if unique && HasEntry(was, unique, r) then {} else {r};
  }

  lemma EntryForm(was: Index, unique: bool, rows: seq<TableRow>, i: nat)
    requires WellFormed(was) && !Conflict(was, unique, rows) && Ascending(rows) && i < |rows|
    ensures GenIndexKey(unique, rows[i]) in was <==> HasEntry(was, unique, rows[i])
  {
    ConflictIsDuplicate(was, unique, rows);
    hide Conflict;
    OwnKeyForm(unique, rows[i]);
    assert !Clash(was, unique, rows[i]);
  }

  /** Writing one more entry changes nothing when the row has its entry already. */
  lemma IndexOne(entries: Index, unique: bool, rows: seq<TableRow>, i: nat)
    requires WellFormed(entries) && !Conflict(entries, unique, rows) && Ascending(rows) && i < |rows|
    ensures Added(entries, unique, rows[..i + 1])
            == Added(entries, unique, rows[..i]) + if unique && GenIndexKey(unique, rows[i]) in entries then 0 else 1
    ensures Indexed(entries, unique, rows[..i + 1])
            == Indexed(entries, unique, rows[..i])[GenIndexKey(unique, rows[i]) := rows[i].handle]
    ensures GenIndexKey(unique, rows[i]) in entries ==>
        Indexed(entries, unique, rows[..i + 1]) == Indexed(entries, unique, rows[..i])
  {
    var before := Indexed(entries, unique, rows[..i]);
    var k := GenIndexKey(unique, rows[i]);
    assert rows == rows[..i] + rows[i..] && rows[..i + 1] == rows[..i] + [rows[i]];
    IndexedSplits(entries, unique, rows[..i], rows[i..]);
    IndexedSplits(entries, unique, rows[..i], [rows[i]]);
    assert Indexed(before, unique, [rows[i]]) == before[k := rows[i].handle] &&
           Added(before, unique, [rows[i]]) == (if unique && k in before then 0 else 1) by {
      NothingIndexed(before[k := rows[i].handle], unique);
    }
    forall j | 0 <= j < |rows[..i]|
      ensures GenIndexKey(unique, rows[..i][j]) != k
    {
      NoLaterSameKey(entries, unique, rows, j, i);
    }
    IndexedFrame(entries, unique, rows[..i], k);
    if k in entries {
      IndexedGrows(entries, unique, rows[..i], k);
      IndexedWellFormed(entries, unique, rows[..i]);
      assert !Clash(before, unique, rows[i]);
      assert before[k] == rows[i].handle;
    }
  }

  method CheckKeys(entries: Index, keys: seq<Key>, flags: seq<bool>, batch: seq<IndexRecord>)
    returns (ok: bool, records: seq<IndexRecord>)
    requires |keys| == |flags| == |batch| && Ascending(RowsOf(batch)) && forall j :: 0 <= j < |batch| ==> !batch[j].skip
    requires forall j ::
        0 <= j < |batch| ==> keys[j] == GenIndexKey(true, RowOf(batch[j])) && flags[j] == keys[j].Distinct?
    ensures |records| == |batch| && RowsOf(records) == RowsOf(batch)
    ensures ok <==> !Duplicate(entries, true, RowsOf(batch))
    ensures ok ==> forall j :: 0 <= j < |records| ==> (records[j].skip <==> keys[j] in entries)
  {
    var vals: Index := BatchGet(entries, keys);
    ghost var rows := RowsOf(batch);
    records := batch;
    RowsOfRecords(batch);
    NothingChecked(entries, vals, keys, rows);
    hide Checked, Duplicate, Ascending, GenIndexKey, RowsOf;
    for i := 0 to |keys|
      invariant |records| == |keys| && RowsOf(records) == rows
      invariant Checked(entries, vals, keys, rows, i)
      invariant forall j :: 0 <= j < i ==> (records[j].skip <==> keys[j] in entries)
      invariant forall j :: i <= j < |records| ==> !records[j].skip
    {
      CheckStep(entries, vals, keys, rows, i);
      RowsOfRecords(records);
      if keys[i] in vals {
        if flags[i] {
          if vals[keys[i]] != records[i].handle {
            return false, records;
          }
        }
        MarkKeepsRows(records, i);
        records := records[i := records[i].(skip := true)];
      } else if flags[i] {
        vals := vals[keys[i] := records[i].handle];
      }
    }
    CheckedAll(entries, vals, keys, rows);
    ok := true;
  }

  lemma RowsOfRecords(records: seq<IndexRecord>)
    ensures |RowsOf(records)| == |records| && forall j :: 0 <= j < |records| ==> RowsOf(records)[j] == RowOf(records[j])
  {
  }

  lemma MarkKeepsRows(records: seq<IndexRecord>, i: nat)
    requires i < |records|
    ensures RowsOf(records[i := records[i].(skip := true)]) == RowsOf(records)
  {
  }

  lemma NothingChecked(entries: Index, vals: Index, keys: seq<Key>, rows: seq<TableRow>)
    requires |keys| == |rows| && forall j :: 0 <= j < |keys| ==> keys[j] == GenIndexKey(true, rows[j])
    requires forall k :: k in vals <==> k in entries && k in keys
    requires forall k :: k in vals ==> vals[k] == entries[k]
    ensures Checked(entries, vals, keys, rows, 0)
  {
    hide GenIndexKey;
  }

  /** The entries of the batch's keys. */
  method BatchGet(entries: Index, keys: seq<Key>) returns (vals: Index)
    ensures forall k :: k in vals <==> k in entries && k in keys
    ensures forall k :: k in vals ==> vals[k] == entries[k]
  {
    vals := map[];
    for i := 0 to |keys|
      invariant forall k :: k in vals <==> k in entries && k in keys[..i]
      invariant forall k :: k in vals ==> vals[k] == entries[k]
    {
      if keys[i] in entries {
        vals := vals[keys[i] := entries[keys[i]]];
      }
    }
  }

  /** The first 'n' rows of the batch agree with the index and with each other, and 'vals' has
      the batch's entries and those the first 'n' rows will add. */
  ghost predicate Checked(entries: Index, vals: Index, keys: seq<Key>, rows: seq<TableRow>, n: nat) {
    && |keys| == |rows| && n <= |keys| && (forall j :: 0 <= j < |keys| ==> keys[j] == GenIndexKey(true, rows[j]))
    && (forall j :: 0 <= j < |keys| && keys[j] in entries ==> keys[j] in vals && vals[keys[j]] == entries[keys[j]])
    && (forall k :: k in vals && k !in entries ==> exists j ::
          0 <= j < n && k == keys[j] && k.Distinct? && vals[k] == rows[j].handle)
    && (forall j :: 0 <= j < n && keys[j].Distinct? ==> keys[j] in vals)
    && (forall j :: 0 <= j < n ==> !Clash(entries, true, rows[j]))
    && (forall i, j :: 0 <= i < j < n ==> !SameDistinctKey(true, rows[i], rows[j]))
  }

  lemma CheckStep(entries: Index, vals: Index, keys: seq<Key>, rows: seq<TableRow>, i: nat)
    requires Checked(entries, vals, keys, rows, i) && i < |keys| && Ascending(rows)
    ensures keys[i] in vals && keys[i].Distinct? && vals[keys[i]] != rows[i].handle ==> Duplicate(entries, true, rows)
    ensures keys[i] in vals && (keys[i].Distinct? ==> vals[keys[i]] == rows[i].handle) ==>
              Checked(entries, vals, keys, rows, i + 1) && keys[i] in entries
    ensures keys[i] !in vals ==>
        keys[i] !in entries &&
        Checked(entries, if keys[i].Distinct? then vals[keys[i] := rows[i].handle] else vals, keys, rows, i + 1)
  {
    if keys[i] in vals { CheckFound(entries, vals, keys, rows, i); } else { CheckNew(entries, vals, keys, rows, i); }
    hide Checked, Duplicate, Ascending;
  }

  lemma CheckFound(entries: Index, vals: Index, keys: seq<Key>, rows: seq<TableRow>, i: nat)
    requires Checked(entries, vals, keys, rows, i) && i < |keys| && Ascending(rows) && keys[i] in vals
    ensures keys[i].Distinct? && vals[keys[i]] != rows[i].handle ==> Duplicate(entries, true, rows)
    ensures (keys[i].Distinct? ==> vals[keys[i]] == rows[i].handle) ==>
        Checked(entries, vals, keys, rows, i + 1) && keys[i] in entries
  {
    if keys[i].Distinct? && vals[keys[i]] != rows[i].handle {
      if keys[i] in entries {
        assert Clash(entries, true, rows[i]);
      } else {
        var j :| 0 <= j < i && keys[i] == keys[j] && vals[keys[i]] == rows[j].handle;
        assert SameDistinctKey(true, rows[j], rows[i]);
      }
    } else {
      forall j | 0 <= j < i ensures !SameDistinctKey(true, rows[j], rows[i]) {
        assert rows[j].handle < rows[i].handle && keys[j] == GenIndexKey(true, rows[j]) &&
               keys[i] == GenIndexKey(true, rows[i]);
        assert !Clash(entries, true, rows[j]);
      }
    }
  }

  lemma CheckNew(entries: Index, vals: Index, keys: seq<Key>, rows: seq<TableRow>, i: nat)
    requires Checked(entries, vals, keys, rows, i) && i < |keys| && keys[i] !in vals
    ensures keys[i] !in entries &&
            Checked(entries, if keys[i].Distinct? then vals[keys[i] := rows[i].handle] else vals, keys, rows, i + 1)
  {
  }

  lemma CheckedAll(entries: Index, vals: Index, keys: seq<Key>, rows: seq<TableRow>)
    requires Checked(entries, vals, keys, rows, |rows|)
    ensures !Duplicate(entries, true, rows)
  {
  }
}
