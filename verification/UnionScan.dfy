/** The union scan: rows a transaction has written, merged in order with the rows of a
    snapshot that the transaction has not touched. */
module UnionScan {
  import opened ChunkRows
  import opened Expressions
  import opened Wrappers

  // ---------- the dirty table ----------

  /** What the transaction wrote last to each handle it touched; None after a delete. */
  type Writes = map<int, Option<KeyedRow>>

  class DirtyTable {
    var addedRows: set<int>
    var deletedRows: set<int>
    ghost var writes: Writes

    ghost predicate Valid()
      reads this
    {
      && (forall h :: h in addedRows <==> h in writes && writes[h].Some?)
      && (forall h :: h in deletedRows ==> h in writes)
      && (forall h :: h in writes && writes[h].None? ==> h in deletedRows)
      && (forall h :: h in writes && writes[h].Some? ==> Handle(writes[h].value) == h)
    }

    constructor ()
      ensures Valid() && writes == map[]
    {
      addedRows, deletedRows, writes := {}, {}, map[];
    }

    /** A row that was deleted before keeps its mark among the deleted ones. */
    method AddRow(handle: int, ghost row: KeyedRow)
      requires Valid() && Handle(row) == handle
      modifies this
      ensures Valid() && writes == old(writes)[handle := Some(row)]
    {
      addedRows := addedRows + {handle};
      writes := writes[handle := Some(row)];
    }

    method DeleteRow(handle: int)
      requires Valid()
      modifies this
      ensures Valid() && writes == old(writes)[handle := None]
    {
      addedRows := addedRows - {handle};
      deletedRows := deletedRows + {handle};
      writes := writes[handle := None];
    }

    /** The handles that hide a snapshot row are those the transaction touched. */
    lemma MaskIsTouched(h: int)
      requires Valid()
      ensures h in deletedRows || h in addedRows <==> h in writes
    {
    }
  }

  // ---------- the order of a scan ----------

  /** The first columns of a row are those of the index the scan uses. */
  function Handle(r: KeyedRow): int {
    r.payload
  }

  function CompareScan(w: nat, a: KeyedRow, b: KeyedRow): int
    requires w <= |a.key| && w <= |b.key|
  {
    if Compare(a.key[..w], b.key[..w]) != 0 then Compare(a.key[..w], b.key[..w])
    else if Handle(a) == Handle(b) then 0
    else if Handle(a) > Handle(b) then 1 else -1
  }

  /** The same, column by column. */
  method CompareRows(w: nat, a: KeyedRow, b: KeyedRow) returns (cmp: int)
    requires w <= |a.key| && w <= |b.key|
    ensures cmp == CompareScan(w, a, b)
  {
    assert a.key[..w][0..] == a.key[..w] && b.key[..w][0..] == b.key[..w];
    for i := 0 to w
      invariant Compare(a.key[..w], b.key[..w]) == Compare(a.key[..w][i..], b.key[..w][i..])
    {
      var c := CompareValue(a.key[i], b.key[i]);
      assert a.key[..w][i..][0] == a.key[i] && b.key[..w][i..][0] == b.key[i];
      assert a.key[..w][i..][1..] == a.key[..w][i + 1..] && b.key[..w][i..][1..] == b.key[..w][i + 1..];
      if c != 0 {
        return c;
      }
    }
    return if Handle(a) == Handle(b) then 0 else if Handle(a) > Handle(b) then 1 else -1;
  }

  predicate Precedes(w: nat, desc: bool, a: KeyedRow, b: KeyedRow)
    requires w <= |a.key| && w <= |b.key|
  {
    if desc then CompareScan(w, a, b) > 0 else CompareScan(w, a, b) < 0
  }

  /** The scan delivers 'a' before 'b': the first index column in which they differ decides, NULL
      being smallest, and then the handle; a descending scan goes the other way. */
  ghost predicate ScannedBefore(w: nat, desc: bool, a: KeyedRow, b: KeyedRow)
    requires w <= |a.key| && w <= |b.key|
  {
    var x, y := if desc then b else a, if desc then a else b;
    || SmallerKey(w, x.key, y.key)
    || (x.key[..w] == y.key[..w] && Handle(x) < Handle(y))
  }

  ghost predicate SmallerKey(w: nat, a: seq<Value>, b: seq<Value>)
    requires w <= |a| && w <= |b|
  {
    exists i :: 0 <= i < w && a[..i] == b[..i] && Smaller(a[i], b[i])
  }

  lemma SmallerKeyMeaning(w: nat, a: seq<Value>, b: seq<Value>)
    requires w <= |a| && w <= |b|
    ensures Compare(a[..w], b[..w]) < 0 <==> SmallerKey(w, a, b)
  {
    hide Compare;
    var p, q := a[..w], b[..w];
    CompareMeaning(p, q);
    if i :| 0 <= i < |p| && p[..i] == q[..i] && Smaller(p[i], q[i]) {
      assert a[..i] == p[..i] && b[..i] == q[..i] && Smaller(a[i], b[i]);
    }
    if i :| 0 <= i < w && a[..i] == b[..i] && Smaller(a[i], b[i]) {
      assert p[..i] == a[..i] && q[..i] == b[..i] && Smaller(p[i], q[i]);
    }
  }

  lemma ScanMeaning(w: nat, desc: bool, a: KeyedRow, b: KeyedRow)
    requires w <= |a.key| && w <= |b.key|
    ensures Precedes(w, desc, a, b) <==> ScannedBefore(w, desc, a, b)
  {
    hide Compare, SmallerKey;
    var x, y := if desc then b else a, if desc then a else b;
    CompareOrder(x.key[..w], y.key[..w]);
    CompareOrder(y.key[..w], x.key[..w]);
    SmallerKeyMeaning(w, x.key, y.key);
  }

  ghost predicate ScanOrdered(w: nat, desc: bool, rows: seq<KeyedRow>)
    requires Wide(w, rows)
  {
    forall i, j :: 0 <= i < j < |rows| ==> ScannedBefore(w, desc, rows[i], rows[j])
  }

  lemma OrderMeaning(w: nat, desc: bool, rows: seq<KeyedRow>)
    requires Wide(w, rows)
    ensures InOrder(w, desc, rows) <==> ScanOrdered(w, desc, rows)
  {
    hide Precedes, ScannedBefore;
    forall i, j | 0 <= i < j < |rows|
      ensures Precedes(w, desc, rows[i], rows[j]) <==> ScannedBefore(w, desc, rows[i], rows[j])
    {
      ScanMeaning(w, desc, rows[i], rows[j]);
    }
  }

  /** Rows with different handles are never equal, and their order is a strict total one. */
  lemma ScanOrder(w: nat, desc: bool, a: KeyedRow, b: KeyedRow)
    requires w <= |a.key| && w <= |b.key|
    ensures Handle(a) != Handle(b) ==>
        CompareScan(w, a, b) != 0 && (Precedes(w, desc, a, b) <==> !Precedes(w, desc, b, a))
    ensures Handle(a) == Handle(b) && a.key == b.key ==> !Precedes(w, desc, a, b)
  {
    CompareOrder(a.key[..w], b.key[..w]);
    CompareOrder(b.key[..w], a.key[..w]);
  }

  lemma ScanTransitive(w: nat, desc: bool, a: KeyedRow, b: KeyedRow, c: KeyedRow)
    requires w <= |a.key| && w <= |b.key| && w <= |c.key| && Precedes(w, desc, a, b) && Precedes(w, desc, b, c)
    ensures Precedes(w, desc, a, c)
  {
    var x, y, z := a.key[..w], b.key[..w], c.key[..w];
    CompareOrder(x, y);
    CompareOrder(y, z);
    CompareOrder(x, z);
    CompareOrder(z, x);
    if desc {
      CompareOrder(z, y);
      CompareOrder(y, x);
      CompareTransitive(z, y, x);
    } else {
      CompareTransitive(x, y, z);
    }
  }

  ghost predicate Wide(w: nat, rows: seq<KeyedRow>) {
    forall i :: 0 <= i < |rows| ==> w <= |rows[i].key|
  }

  ghost predicate InOrder(w: nat, desc: bool, rows: seq<KeyedRow>)
    requires Wide(w, rows)
  {
    forall i, j :: 0 <= i < j < |rows| ==> Precedes(w, desc, rows[i], rows[j])
  }

  ghost predicate Apart(a: seq<KeyedRow>, b: seq<KeyedRow>) {
    forall i, j :: 0 <= i < |a| && 0 <= j < |b| ==> Handle(a[i]) != Handle(b[j])
  }

  ghost predicate UniqueHandles(rows: seq<KeyedRow>) {
    forall i, j :: 0 <= i < j < |rows| ==> Handle(rows[i]) != Handle(rows[j])
  }

  // ---------- the merge ----------

  ghost function Merge(w: nat, desc: bool, snapshot: seq<KeyedRow>, added: seq<KeyedRow>): seq<KeyedRow>
    requires Wide(w, snapshot) && Wide(w, added)
    decreases |snapshot| + |added|
  {
    if added == [] then snapshot
    else if snapshot == [] then added
    else if Precedes(w, desc, snapshot[0], added[0]) then [snapshot[0]] + Merge(w, desc, snapshot[1..], added)
    else [added[0]] + Merge(w, desc, snapshot, added[1..])
  }

  /** The merge holds the rows of both lists, each once, in order. */
  lemma {:induction false} MergeIsOverlay(w: nat, desc: bool, snapshot: seq<KeyedRow>, added: seq<KeyedRow>)
    requires Wide(w, snapshot) && Wide(w, added) && InOrder(w, desc, snapshot) && InOrder(w, desc, added) &&
             Apart(snapshot, added)
    ensures Wide(w, Merge(w, desc, snapshot, added)) && InOrder(w, desc, Merge(w, desc, snapshot, added))
    ensures multiset(Merge(w, desc, snapshot, added)) == multiset(snapshot) + multiset(added)
    decreases |snapshot| + |added|
  {
    if added == [] || snapshot == [] {
    } else if Precedes(w, desc, snapshot[0], added[0]) {
      MergeIsOverlay(w, desc, snapshot[1..], added);
      MergeHead(w, desc, snapshot, added, Merge(w, desc, snapshot[1..], added));
    } else {
      ScanOrder(w, desc, snapshot[0], added[0]);
      MergeIsOverlay(w, desc, snapshot, added[1..]);
      MergeHead(w, desc, added, snapshot, Merge(w, desc, snapshot, added[1..]));
    }
  }

  lemma MergeHead(w: nat, desc: bool, a: seq<KeyedRow>, b: seq<KeyedRow>, rest: seq<KeyedRow>)
    requires Wide(w, a) && Wide(w, b) && InOrder(w, desc, a) && InOrder(w, desc, b) && a != [] && b != [] &&
             Precedes(w, desc, a[0], b[0])
    requires Wide(w, rest) && InOrder(w, desc, rest) && multiset(rest) == multiset(a[1..]) + multiset(b)
    ensures Wide(w, [a[0]] + rest) && InOrder(w, desc, [a[0]] + rest) &&
            multiset([a[0]] + rest) == multiset(a) + multiset(b)
  {
    hide CompareScan;
    assert a == [a[0]] + a[1..];
    forall i | 0 <= i < |rest| ensures Precedes(w, desc, a[0], rest[i]) {
      assert rest[i] in multiset(rest);
      if rest[i] in multiset(b) {
        var j :| 0 <= j < |b| && b[j] == rest[i];
        if j > 0 { ScanTransitive(w, desc, a[0], b[0], b[j]); }
      } else {
        assert rest[i] in multiset(a[1..]);
        var j :| 0 <= j < |a[1..]| && a[1..][j] == rest[i];
        assert a[j + 1] == rest[i];
      }
    }
  }

  lemma {:induction false} MergeUnique(w: nat, desc: bool, snapshot: seq<KeyedRow>, added: seq<KeyedRow>)
    requires Wide(w, snapshot) && Wide(w, added) && UniqueHandles(snapshot) && UniqueHandles(added) &&
             Apart(snapshot, added)
    ensures UniqueHandles(Merge(w, desc, snapshot, added))
    ensures forall r :: r in Merge(w, desc, snapshot, added) <==> r in snapshot || r in added
    decreases |snapshot| + |added|
  {
    hide Precedes;
    if added == [] || snapshot == [] {
    } else if Precedes(w, desc, snapshot[0], added[0]) {
      MergeUnique(w, desc, snapshot[1..], added);
      UniqueHead(snapshot, added, Merge(w, desc, snapshot[1..], added));
    } else {
      MergeUnique(w, desc, snapshot, added[1..]);
      UniqueHead(added, snapshot, Merge(w, desc, snapshot, added[1..]));
    }
  }

  lemma UniqueHead(a: seq<KeyedRow>, b: seq<KeyedRow>, rest: seq<KeyedRow>)
    requires a != [] && UniqueHandles(a) && UniqueHandles(rest) && forall r :: r in rest <==> r in a[1..] || r in b
    requires Apart(a, b) || Apart(b, a)
    ensures UniqueHandles([a[0]] + rest) && forall r :: r in [a[0]] + rest <==> r in a || r in b
  {
    assert a == [a[0]] + a[1..];
    forall i | 0 <= i < |rest| ensures Handle(rest[i]) != Handle(a[0]) {
      assert rest[i] in rest;
      if rest[i] in b {
        var j :| 0 <= j < |b| && b[j] == rest[i];
      } else {
        var j :| 0 <= j < |a[1..]| && a[1..][j] == rest[i];
        assert a[j + 1] == rest[i];
      }
    }
  }

  // ---------- the executor ----------

  /** The rows whose handle is not touched. */
  function Visible(rows: seq<KeyedRow>, touched: set<int>): seq<KeyedRow> {
    if rows == [] then []
    else (if Handle(rows[0]) in touched then [] else [rows[0]]) + Visible(rows[1..], touched)
  }

  lemma {:induction false} VisibleAppend(a: seq<KeyedRow>, b: seq<KeyedRow>, touched: set<int>)
    ensures Visible(a + b, touched) == Visible(a, touched) + Visible(b, touched)
  {
    if a == [] {
      assert a + b == b;
    } else {
      assert (a + b)[0] == a[0] && (a + b)[1..] == a[1..] + b;
      VisibleAppend(a[1..], b, touched);
    }
  }

  lemma {:induction false} VisibleMember(rows: seq<KeyedRow>, touched: set<int>, r: KeyedRow)
    ensures r in Visible(rows, touched) <==> r in rows && Handle(r) !in touched
  {
    if rows != [] {
      VisibleMember(rows[1..], touched, r);
      assert rows == [rows[0]] + rows[1..];
    }
  }

  lemma {:induction false} VisibleKeeps(w: nat, desc: bool, rows: seq<KeyedRow>, touched: set<int>)
    requires Wide(w, rows) && InOrder(w, desc, rows) && UniqueHandles(rows)
    ensures Wide(w, Visible(rows, touched)) && InOrder(w, desc, Visible(rows, touched)) &&
            UniqueHandles(Visible(rows, touched))
  {
    hide Precedes;
    if rows != [] {
      VisibleKeeps(w, desc, rows[1..], touched);
      var rest := Visible(rows[1..], touched);
      forall i | 0 <= i < |rest|
        ensures w <= |rest[i].key| && Precedes(w, desc, rows[0], rest[i]) && Handle(rest[i]) != Handle(rows[0])
      {
        VisibleMember(rows[1..], touched, rest[i]);
        var j :| 0 <= j < |rows[1..]| && rows[1..][j] == rest[i];
        assert rows[j + 1] == rest[i];
      }
      PrependRow(w, desc, rows[0], rest);
      assert [] + rest == rest;
    }
  }

  lemma PrependRow(w: nat, desc: bool, row: KeyedRow, rest: seq<KeyedRow>)
    requires w <= |row.key| && Wide(w, rest) && InOrder(w, desc, rest) && UniqueHandles(rest)
    requires forall i :: 0 <= i < |rest| ==> Precedes(w, desc, row, rest[i]) && Handle(rest[i]) != Handle(row)
    ensures Wide(w, [row] + rest) && InOrder(w, desc, [row] + rest) && UniqueHandles([row] + rest)
  {
    hide Precedes;
  }

  class UnionScanExec {
    const w: nat
    const desc: bool
    const dirty: DirtyTable
    var child: seq<seq<KeyedRow>>         // what the snapshot scan will still deliver
    var addedRows: seq<KeyedRow>
    var cursor4AddRows: nat
    var snapshotRows: seq<KeyedRow>
    var cursor4SnapshotRows: nat

    ghost function Touched(): set<int>
      reads this, dirty
    {
      dirty.deletedRows + dirty.addedRows
    }

    /** The untouched snapshot rows still to come, and the written ones. */
    ghost function Snapshot(): seq<KeyedRow>
      reads this, dirty
    {
      (if cursor4SnapshotRows <= |snapshotRows| then snapshotRows[cursor4SnapshotRows..] else [])
      + Visible(Flatten(child), Touched())
    }

    ghost function Added(): seq<KeyedRow>
      reads this
    {
      if cursor4AddRows <= |addedRows| then addedRows[cursor4AddRows..] else []
    }

    ghost predicate Valid()
      reads this, dirty
    {
      && NonEmptyChunks(child) && cursor4SnapshotRows <= |snapshotRows| && cursor4AddRows <= |addedRows|
      && Wide(w, Snapshot()) && Wide(w, Added()) && Apart(Snapshot(), Added())
    }

    ghost function Rest(): seq<KeyedRow>
      reads this, dirty
      requires Valid()
    {
      Merge(w, desc, Snapshot(), Added())
    }

    constructor (w: nat, desc: bool, dirty: DirtyTable, child: seq<seq<KeyedRow>>, addedRows: seq<KeyedRow>)
      requires NonEmptyChunks(child) && Wide(w, Visible(Flatten(child), dirty.deletedRows + dirty.addedRows)) &&
               Wide(w, addedRows)
      requires Apart(Visible(Flatten(child), dirty.deletedRows + dirty.addedRows), addedRows)
      ensures Valid() && this.w == w && this.desc == desc && this.dirty == dirty
      ensures Rest() == Merge(w, desc, Visible(Flatten(child), dirty.deletedRows + dirty.addedRows), addedRows)
    {
      this.w, this.desc, this.dirty, this.child, this.addedRows := w, desc, dirty, child, addedRows;
      cursor4AddRows, snapshotRows, cursor4SnapshotRows := 0, [], 0;
      new;
      assert Snapshot() == Visible(Flatten(child), dirty.deletedRows + dirty.addedRows) && Added() == addedRows;
    }

    /** The next untouched snapshot row; reads chunks until one has such a row. */
    method GetSnapshotRow() returns (row: Option<KeyedRow>)
      requires Valid()
      modifies this`child, this`snapshotRows, this`cursor4SnapshotRows
      ensures Valid() && Snapshot() == old(Snapshot()) && Added() == old(Added())
      ensures row == if Snapshot() == [] then None else Some(Snapshot()[0])
      ensures row.Some? ==> cursor4SnapshotRows < |snapshotRows|
    {
      hide Flatten, Visible;
      if cursor4SnapshotRows < |snapshotRows| {
        return Some(snapshotRows[cursor4SnapshotRows]);
      }
      var rows: seq<KeyedRow> := [];
      while rows == []
        invariant NonEmptyChunks(child) && rows + Visible(Flatten(child), Touched()) == old(Snapshot())
        decreases |child|, rows == []
      {
        if child == [] {
          FlattenNone();
          cursor4SnapshotRows, snapshotRows := 0, [];
          return None;
        }
        ChunkVisible(child, Touched());
        rows := KeepUntouched(child[0], dirty.deletedRows, dirty.addedRows);
        assert forall k :: 0 <= k < |child[1..]| ==> child[1..][k] == child[k + 1];
        child := child[1..];
      }
      cursor4SnapshotRows, snapshotRows := 0, rows;
      return Some(snapshotRows[0]);
    }

    method GetOneRow() returns (row: Option<KeyedRow>)
      requires Valid()
      modifies this
      ensures Valid()
      ensures row.None? ==> old(Rest()) == [] && Rest() == []
      ensures row.Some? ==> old(Rest()) == [row.value] + Rest()
    {
      hide Flatten, Visible, Precedes, Merge, Wide, Apart;
      var snapshotRow := GetSnapshotRow();
      MergeTakes(w, desc, Snapshot(), Added());
      var addedRow := if cursor4AddRows < |addedRows| then Some(addedRows[cursor4AddRows]) else None;
      var isSnapshotRow := false;
      if addedRow.None? {
        row := snapshotRow;
        isSnapshotRow := true;
      } else if snapshotRow.None? {
        row := addedRow;
      } else {
        isSnapshotRow := ShouldPickFirstRow(w, desc, snapshotRow.value, addedRow.value);
        row := if isSnapshotRow then snapshotRow else addedRow;
      }
      if row.None? {
        return;
      }
      ghost var snapshot, added := Snapshot(), Added();
      if isSnapshotRow {
        cursor4SnapshotRows := cursor4SnapshotRows + 1;
        assert Snapshot() == snapshot[1..];
      } else {
        cursor4AddRows := cursor4AddRows + 1;
        assert Added() == added[1..];
      }
    }

    method Next(capacity: nat) returns (req: seq<KeyedRow>)
      requires Valid() && capacity >= 1
      modifies this
      ensures Valid() && |req| <= capacity && old(Rest()) == req + Rest()
      ensures req == [] ==> old(Rest()) == []
    {
      hide Flatten, Visible, Merge;
      req := [];
      var i := 0;
      while i < capacity
        invariant Valid() && |req| == i <= capacity && old(Rest()) == req + Rest()
      {
        var row := GetOneRow();
        if row.None? {
          return;
        }
        req := req + [row.value];
        i := i + 1;
      }
    }
  }

  /** The first row of a merge and what it leaves. */
  lemma MergeTakes(w: nat, desc: bool, s: seq<KeyedRow>, a: seq<KeyedRow>)
    requires Wide(w, s) && Wide(w, a) && Apart(s, a)
    ensures s != [] ==> w <= |s[0].key| && Wide(w, s[1..]) && Apart(s[1..], a)
    ensures a != [] ==> w <= |a[0].key| && Wide(w, a[1..]) && Apart(s, a[1..])
    ensures s == [] && a == [] ==> Merge(w, desc, s, a) == []
    ensures s != [] && (a == [] || Precedes(w, desc, s[0], a[0])) ==>
        Merge(w, desc, s, a) == [s[0]] + Merge(w, desc, s[1..], a)
    ensures a != [] && (s == [] || !Precedes(w, desc, s[0], a[0])) ==>
        Merge(w, desc, s, a) == [a[0]] + Merge(w, desc, s, a[1..])
  {
    hide Precedes;
  }

  method ShouldPickFirstRow(w: nat, desc: bool, a: KeyedRow, b: KeyedRow) returns (isFirstRow: bool)
    requires w <= |a.key| && w <= |b.key|
    ensures isFirstRow == Precedes(w, desc, a, b)
  {
    var cmp := CompareRows(w, a, b);
    isFirstRow := false;
    if desc {
      if cmp > 0 {
        isFirstRow := true;
      }
    } else {
      if cmp < 0 {
        isFirstRow := true;
      }
    }
  }

  method KeepUntouched(rows: seq<KeyedRow>, deleted: set<int>, added: set<int>) returns (kept: seq<KeyedRow>)
    ensures kept == Visible(rows, deleted + added)
  {
    kept := [];
    for i := 0 to |rows|
      invariant kept == Visible(rows[..i], deleted + added)
    {
      assert rows[..i + 1] == rows[..i] + [rows[i]];
      VisibleAppend(rows[..i], [rows[i]], deleted + added);
      if Handle(rows[i]) in deleted {
        continue;
      }
      if Handle(rows[i]) in added {
        continue;
      }
      kept := kept + [rows[i]];
    }
    assert rows[..|rows|] == rows;
  }

  lemma FlattenNone()
    ensures Flatten([]) == []
    ensures forall touched :: Visible([], touched) == []
  {
  }

  lemma ChunkVisible(chunks: seq<seq<KeyedRow>>, touched: set<int>)
    requires chunks != []
    ensures Visible(Flatten(chunks), touched) == Visible(chunks[0], touched) + Visible(Flatten(chunks[1..]), touched)
  {
    VisibleAppend(chunks[0], Flatten(chunks[1..]), touched);
  }

  /** The rows of a table as a transaction with these writes sees them. */
  ghost predicate Sees(base: set<KeyedRow>, writes: map<int, Option<KeyedRow>>, r: KeyedRow) {
    if Handle(r) in writes then writes[Handle(r)] == Some(r) else r in base
  }

  /** Both sides of the scan deliver what lies in its range and meets its conditions: one reads
      the stored table, the other the rows written by the transaction. */
  ghost predicate ReadsRange(base: set<KeyedRow>, writes: map<int, Option<KeyedRow>>, keep: KeyedRow -> bool,
                             snapshot: seq<KeyedRow>, addedRows: seq<KeyedRow>) {
    && (forall r :: r in snapshot <==> r in base && keep(r))
    && (forall r :: r in addedRows <==> keep(r) && Handle(r) in writes && writes[Handle(r)] == Some(r))
  }

  /** For any chunking of an ordered snapshot and any capacities the results are, in order and
      each handle once, the snapshot rows the transaction left alone and the rows it wrote. When
      both sides read one range of a table, these are the rows of the range that the transaction
      sees. */
  method Drain(w: nat, desc: bool, dirty: DirtyTable, child: seq<seq<KeyedRow>>, addedRows: seq<KeyedRow>,
               capacity: nat -> nat, ghost base: set<KeyedRow>, ghost keep: KeyedRow -> bool)
    returns (out: seq<KeyedRow>)
    requires dirty.Valid() && NonEmptyChunks(child) && forall n :: capacity(n) >= 1
    requires Wide(w, Flatten(child)) && ScanOrdered(w, desc, Flatten(child)) && UniqueHandles(Flatten(child))
    requires Wide(w, addedRows) && ScanOrdered(w, desc, addedRows) && UniqueHandles(addedRows)
    requires forall r :: r in addedRows ==> Handle(r) in dirty.writes && dirty.writes[Handle(r)] == Some(r)
    ensures Wide(w, out) && ScanOrdered(w, desc, out) && UniqueHandles(out)
    ensures forall r :: r in out <==> (r in Flatten(child) && Handle(r) !in dirty.writes) || r in addedRows
    ensures ReadsRange(base, dirty.writes, keep, Flatten(child), addedRows) ==>
              forall r :: r in out <==> keep(r) && Sees(base, dirty.writes, r)
  {
    hide ScanOrdered, Precedes;
    OrderMeaning(w, desc, Flatten(child));
    OrderMeaning(w, desc, addedRows);
    ghost var snapshot := Visible(Flatten(child), dirty.deletedRows + dirty.addedRows);
    VisibleKeeps(w, desc, Flatten(child), dirty.deletedRows + dirty.addedRows);
    forall r ensures r in snapshot <==> r in Flatten(child) && Handle(r) !in dirty.writes {
      VisibleMember(Flatten(child), dirty.deletedRows + dirty.addedRows, r);
      dirty.MaskIsTouched(Handle(r));
    }
    assert Apart(snapshot, addedRows) by {
      forall i, j | 0 <= i < |snapshot| && 0 <= j < |addedRows| ensures Handle(snapshot[i]) != Handle(addedRows[j]) {
        assert snapshot[i] in snapshot && addedRows[j] in addedRows;
      }
    }
    MergeIsOverlay(w, desc, snapshot, addedRows);
    MergeUnique(w, desc, snapshot, addedRows);
    OrderMeaning(w, desc, Merge(w, desc, snapshot, addedRows));
    ghost var all := Merge(w, desc, snapshot, addedRows);
    hide Flatten, Visible, Merge, Precedes, UniqueHandles, InOrder, Wide, Apart;
    out := RunScan(w, desc, dirty, child, addedRows, capacity);
  }

  method RunScan(w: nat, desc: bool, dirty: DirtyTable, child: seq<seq<KeyedRow>>, addedRows: seq<KeyedRow>,
                 capacity: nat -> nat)
    returns (out: seq<KeyedRow>)
    requires NonEmptyChunks(child) && Wide(w, Visible(Flatten(child), dirty.deletedRows + dirty.addedRows)) &&
             Wide(w, addedRows)
    requires Apart(Visible(Flatten(child), dirty.deletedRows + dirty.addedRows), addedRows)
    requires forall n :: capacity(n) >= 1
    ensures out == Merge(w, desc, Visible(Flatten(child), dirty.deletedRows + dirty.addedRows), addedRows)
  {
    hide Flatten, Visible, Merge, Precedes, Wide, Apart, NonEmptyChunks, UnionScanExec.Valid, UnionScanExec.Rest;
    ghost var all := Merge(w, desc, Visible(Flatten(child), dirty.deletedRows + dirty.addedRows), addedRows);
    var e := new UnionScanExec(w, desc, dirty, child, addedRows);
    out := [];
    var calls, more := 0, true;
    while more
      invariant fresh(e) && e.Valid() && e.dirty == dirty && all == out + e.Rest() && (!more ==> e.Rest() == [])
      decreases more, |all| - |out|
    {
      ghost var rest := e.Rest();
      var req := e.Next(capacity(calls));
      assert out + (req + e.Rest()) == (out + req) + e.Rest();
      assert |rest| == |req| + |e.Rest()|;
      out := out + req;
      calls := calls + 1;
      more := req != [];
    }
  }
}
