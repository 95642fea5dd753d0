/** REPLACE of one row: the rows that share its handle or one of its unique keys are removed,
    one at a time, and then the row is added. */
module Replace {
  import opened Wrappers
  import opened Expressions

  type TableRow = seq<Value>

  /** The column that is the handle, if there is one, and the columns of each unique index. */
  datatype TableInfo = TableInfo(pkOffset: Option<nat>, unique: seq<seq<nat>>)

  function Datum(row: TableRow, i: nat): Value {
    if i < |row| then row[i] else Null
  }

  /** The distinct key of a unique index; a row with a NULL in it has none. */
  function KeyOf(columns: seq<nat>, row: TableRow): Option<seq<Value>> {
    var vals := seq(|columns|, k requires 0 <= k < |columns| => Datum(row, columns[k]));
    if Null in vals then None else Some(vals)
  }

  type Rows = map<int, TableRow>
  type Indices = seq<map<seq<Value>, int>>

  ghost predicate IndexOK(columns: seq<nat>, rows: Rows, index: map<seq<Value>, int>) {
    && (forall k :: k in index ==> index[k] in rows && KeyOf(columns, rows[index[k]]) == Some(k))
    && (forall h ::
          h in rows && KeyOf(columns, rows[h]).Some? ==>
            KeyOf(columns, rows[h]).value in index && index[KeyOf(columns, rows[h]).value] == h)
  }

  /** The indices hold exactly the rows' distinct keys, so no two rows share one. */
  ghost predicate Consistent(info: TableInfo, rows: Rows, indices: Indices) {
    && |indices| == |info.unique|
    && (info.pkOffset.Some? ==> forall h :: h in rows ==> Datum(rows[h], info.pkOffset.value) == Int(h))
    && (forall i :: 0 <= i < |indices| ==> IndexOK(info.unique[i], rows, indices[i]))
  }

  /** The row at 'h' stands in the way of the new one. */
  predicate Conflicting(info: TableInfo, h: int, there: TableRow, row: TableRow) {
    || (info.pkOffset.Some? && Datum(row, info.pkOffset.value) == Int(h))
    || exists i :: 0 <= i < |info.unique| && SharesKey(info.unique[i], there, row)
  }

  /** The two rows have the same values in the columns, and none of them is NULL. */
  predicate SharesKey(columns: seq<nat>, there: TableRow, row: TableRow) {
    forall k ::
      0 <= k < |columns| ==> Datum(row, columns[k]) != Null && Datum(there, columns[k]) == Datum(row, columns[k])
  }

  lemma SharesKeyForm(columns: seq<nat>, there: TableRow, row: TableRow)
    ensures SharesKey(columns, there, row) <==>
        KeyOf(columns, row).Some? && KeyOf(columns, there) == KeyOf(columns, row)
  {
    var vals := seq(|columns|, k requires 0 <= k < |columns| => Datum(row, columns[k]));
    var other := seq(|columns|, k requires 0 <= k < |columns| => Datum(there, columns[k]));
    assert SharesKey(columns, there, row) ==> other == vals;
    if KeyOf(columns, row).Some? && KeyOf(columns, there) == KeyOf(columns, row) {
      forall k | 0 <= k < |columns|
        ensures Datum(row, columns[k]) != Null && Datum(there, columns[k]) == Datum(row, columns[k])
      {
        assert vals[k] == other[k] && vals[k] in vals;
      }
    }
  }

  function Conflicts(info: TableInfo, rows: Rows, row: TableRow): set<int> {
    set h | h in rows && Conflicting(info, h, rows[h], row)
  }

  // ---------- removing and adding a record ----------

  function WithoutKey(columns: seq<nat>, index: map<seq<Value>, int>, row: TableRow): map<seq<Value>, int> {
    var k := KeyOf(columns, row);
    if k.None? then index else index - {k.value}
  }

  function WithKey(columns: seq<nat>, index: map<seq<Value>, int>, row: TableRow, h: int): map<seq<Value>, int> {
    var k := KeyOf(columns, row);
    if k.None? then index else index[k.value := h]
  }

  lemma RemoveKeepsIndex(columns: seq<nat>, rows: Rows, index: map<seq<Value>, int>, h: int)
    requires h in rows && IndexOK(columns, rows, index)
    ensures IndexOK(columns, rows - {h}, WithoutKey(columns, index, rows[h]))
  {
    hide KeyOf;
  }

  lemma AddKeepsIndex(columns: seq<nat>, rows: Rows, index: map<seq<Value>, int>, h: int, row: TableRow)
    requires h !in rows && IndexOK(columns, rows, index)
    requires KeyOf(columns, row).Some? ==> KeyOf(columns, row).value !in index
    ensures IndexOK(columns, rows[h := row], WithKey(columns, index, row, h))
  {
    hide KeyOf;
  }

  /** When a row equal to the new one is in the table, it is the only one in the way. */
  lemma EqualRowIsOnlyConflict(info: TableInfo, rows: Rows, indices: Indices, row: TableRow, h: int)
    requires Consistent(info, rows, indices) && h in Conflicts(info, rows, row) && rows[h] == row
    ensures Conflicts(info, rows, row) == {h}
  {
    forall d | d in Conflicts(info, rows, row) ensures d == h {
      if i :| 0 <= i < |info.unique| && SharesKey(info.unique[i], rows[d], row) {
        SharesKeyForm(info.unique[i], rows[d], row);
        assert IndexOK(info.unique[i], rows, indices[i]);
      }
    }
  }

  /** Removing other rows leaves the remaining conflicts as they are. */
  lemma ConflictsLeft(info: TableInfo, rows: Rows, removed: set<int>, row: TableRow)
    ensures Conflicts(info, rows - removed, row) == Conflicts(info, rows, row) - removed
  {
  }

  class Table {
    const info: TableInfo
    var rows: Rows
    var indices: Indices
    var affectedRows: nat

    ghost predicate Valid()
      reads this
    {
      Consistent(info, rows, indices)
    }

    method RemoveRecord(h: int)
      requires Valid() && h in rows
      modifies this`rows, this`indices
      ensures Valid() && rows == old(rows) - {h}
    {
      hide IndexOK, KeyOf;
      var all, from := rows, indices;
      var left: Indices := [];
      for i := 0 to |from|
        invariant |left| == i && forall j :: 0 <= j < i ==> IndexOK(info.unique[j], all - {h}, left[j])
      {
        RemoveKeepsIndex(info.unique[i], all, from[i], h);
        left := left + [WithoutKey(info.unique[i], from[i], all[h])];
      }
      rows, indices := all - {h}, left;
    }

    /** Adds the row under its own handle, or under the one given when the table has no such column. */
    method AddRecord(row: TableRow, freshHandle: int) returns (h: int)
      requires Valid() && Conflicts(info, rows, row) == {} && freshHandle !in rows
      requires info.pkOffset.Some? ==> Datum(row, info.pkOffset.value).Int?
      modifies this
      ensures Valid() && h !in old(rows) && rows == old(rows)[h := row] && affectedRows == old(affectedRows) + 1
      ensures h == if info.pkOffset.Some? then Datum(row, info.pkOffset.value).v else freshHandle
    {
      h := if info.pkOffset.Some? then Datum(row, info.pkOffset.value).v else freshHandle;
      NoConflictMeans(info, rows, indices, row, h);
      hide IndexOK, KeyOf, Conflicts;
      var all, from, affected := rows, indices, affectedRows;
      var more: Indices := [];
      for i := 0 to |from|
        invariant |more| == i && forall j :: 0 <= j < i ==> IndexOK(info.unique[j], all[h := row], more[j])
      {
        AddKeepsIndex(info.unique[i], all, from[i], h, row);
        more := more + [WithKey(info.unique[i], from[i], row, h)];
      }
      rows, indices, affectedRows := all[h := row], more, affected + 1;
    }

    /** Removes the row in the way, unless it is the new row already. */
    method RemoveRow(h: int, newRow: TableRow) returns (rowUnchanged: bool)
      requires Valid() && h in rows
      modifies this
      ensures Valid() && rowUnchanged == (old(rows)[h] == newRow) && affectedRows == old(affectedRows) + 1
      ensures rows == if rowUnchanged then old(rows) else old(rows) - {h}
    {
      if rows[h] == newRow {
        affectedRows := affectedRows + 1;
        return true;
      }
      RemoveRecord(h);
      affectedRows := affectedRows + 1;
      return false;
    }

    /** Looks the new row's unique keys up in turn and deals with the first row found. */
    method RemoveIndexRow(newRow: TableRow) returns (rowUnchanged: bool, foundDupKey: bool, ghost h: int)
      requires Valid()
      modifies this
      ensures Valid() && (foundDupKey ==> h in old(rows) && h in Conflicts(info, old(rows), newRow))
      ensures rowUnchanged == (foundDupKey && old(rows)[h] == newRow)
      ensures rows == if foundDupKey && !rowUnchanged then old(rows) - {h} else old(rows)
      ensures affectedRows == old(affectedRows) + if foundDupKey then 1 else 0
      ensures !foundDupKey ==> forall i ::
          0 <= i < |info.unique| && KeyOf(info.unique[i], newRow).Some? ==>
            KeyOf(info.unique[i], newRow).value !in indices[i]
    {
      for i := 0 to |info.unique|
        invariant Valid() && rows == old(rows) && affectedRows == old(affectedRows)
        invariant forall j ::
            0 <= j < i && KeyOf(info.unique[j], newRow).Some? ==> KeyOf(info.unique[j], newRow).value !in indices[j]
      {
        var key := KeyOf(info.unique[i], newRow);
        if key.None? {
          continue;
        }
        if key.value !in indices[i] {
          continue;
        }
        var handle := indices[i][key.value];
        assert IndexOK(info.unique[i], rows, indices[i]);
        h := handle;
        assert KeyOf(info.unique[i], rows[h]) == key;
        SharesKeyForm(info.unique[i], rows[h], newRow);
        rowUnchanged := RemoveRow(handle, newRow);
        foundDupKey := true;
        return;
      }
      return false, false, 0;
    }

    /** Keeps on removing rows that share a unique key, until there is none or it is the new row. */
    method RemoveDuplicates(newRow: TableRow, ghost was: Rows, ghost removed0: set<int>)
      returns (same: bool, ghost d: int, ghost removed: set<int>)
      requires Valid() && Removed(info, was, newRow, rows, removed0)
      requires info.pkOffset.Some? ==> forall h :: h in rows ==> Datum(newRow, info.pkOffset.value) != Int(h)
      modifies this
      ensures Valid() && Removed(info, was, newRow, rows, removed) && removed0 <= removed
      ensures affectedRows == old(affectedRows) + |removed| - |removed0| + if same then 1 else 0
      ensures if same then d in Conflicts(info, was, newRow) && d !in removed && was[d] == newRow
          else Conflicts(info, rows, newRow) == {}
    {
      hide KeyOf, Conflicting, IndexOK, Conflicts, Consistent, Removed;
      removed := removed0;
      while true
        invariant Valid() && Removed(info, was, newRow, rows, removed) && removed0 <= removed
        invariant affectedRows == old(affectedRows) + |removed| - |removed0|
        invariant info.pkOffset.Some? ==> forall h :: h in rows ==> Datum(newRow, info.pkOffset.value) != Int(h)
        decreases |rows|
      {
        ghost var before := rows;
        var rowUnchanged, foundDupKey;
        rowUnchanged, foundDupKey, d := RemoveIndexRow(newRow);
        if foundDupKey {
          RemovedMore(info, was, newRow, before, removed, d);
        }
        if rowUnchanged {
          same := true;
          return;
        }
        if foundDupKey {
          removed := removed + {d};
          continue;
        }
        NothingLeft(info, rows, indices, newRow);
        same := false;
        return;
      }
    }

    /** The table afterwards is the old one without every row in the way, and with the new row. */
    method ReplaceRow(newRow: TableRow, freshHandle: int) returns (ghost h: int, same: bool)
      requires Valid() && freshHandle !in rows
      requires info.pkOffset.Some? ==> Datum(newRow, info.pkOffset.value).Int?
      modifies this
      ensures Valid() && NoSharedKey(info, rows)
      ensures rows == (old(rows) - Conflicts(info, old(rows), newRow))[h := newRow]
      ensures same <==> exists d :: d in Conflicts(info, old(rows), newRow) && old(rows)[d] == newRow
      ensures same ==> rows == old(rows) && affectedRows == old(affectedRows) + 1
      ensures !same ==>
          h !in old(rows) - Conflicts(info, old(rows), newRow) &&
          affectedRows == old(affectedRows) + |Conflicts(info, old(rows), newRow)| + 1
    {
      hide KeyOf, Conflicting, IndexOK, Conflicts, NoSharedKey;
      ghost var was, removed := rows, {};
      ghost var wasIndices := indices;
      NothingRemoved(info, rows, newRow);
      if info.pkOffset.Some? {
        var handle := Datum(newRow, info.pkOffset.value).v;
        HandleConflicts(info, rows, newRow, handle);
        if handle in rows {
          RemovedMore(info, was, newRow, rows, {}, handle);
          var rowUnchanged := RemoveRow(handle, newRow);
          if rowUnchanged {
            EqualRowIsOnlyConflict(info, was, wasIndices, newRow, handle);
            ConsistentShares(info, rows, indices);
            return handle, true;
          }
          removed := {handle};
        }
      }
      ghost var d;
      same, d, removed := RemoveDuplicates(newRow, was, removed);
      if same {
        EqualAfterRemoval(info, was, wasIndices, newRow, d, removed);
        ConsistentShares(info, rows, indices);
        return d, true;
      }
      AllRemoved(info, was, newRow, rows, removed);
      h := AddRecord(newRow, freshHandle);
      ConsistentShares(info, rows, indices);
    }
  }

  /** No two rows share the values of a unique index; rows with a NULL there may be alike. */
  ghost predicate NoSharedKey(info: TableInfo, rows: Rows) {
    forall i, h, g :: 0 <= i < |info.unique| && h in rows && g in rows && h != g
      ==> !SharesKey(info.unique[i], rows[h], rows[g])
  }

  lemma ConsistentShares(info: TableInfo, rows: Rows, indices: Indices)
    requires Consistent(info, rows, indices)
    ensures NoSharedKey(info, rows)
  {
    hide KeyOf, SharesKey;
    forall i, h, g | 0 <= i < |info.unique| && h in rows && g in rows && h != g
      ensures !SharesKey(info.unique[i], rows[h], rows[g])
    {
      SharesKeyForm(info.unique[i], rows[h], rows[g]);
      assert IndexOK(info.unique[i], rows, indices[i]);
    }
  }

  /** The rows that were removed stood in the way and differ from the new one. */
  ghost predicate Removed(info: TableInfo, was: Rows, row: TableRow, rows: Rows, removed: set<int>) {
    rows == was - removed && removed <= Conflicts(info, was, row) && forall d :: d in removed ==> was[d] != row
  }

  lemma NothingRemoved(info: TableInfo, was: Rows, row: TableRow)
    ensures Removed(info, was, row, was, {})
  {
  }

  lemma RemovedMore(info: TableInfo, was: Rows, row: TableRow, rows: Rows, removed: set<int>, d: int)
    requires Removed(info, was, row, rows, removed) && d in Conflicts(info, rows, row)
    ensures d in rows && d in was && d !in removed && d in Conflicts(info, was, row) && was[d] == rows[d]
    ensures rows[d] != row ==> Removed(info, was, row, rows - {d}, removed + {d})
    ensures |rows - {d}| < |rows| && |removed + {d}| == |removed| + 1
  {
    hide Conflicting;
    assert (rows - {d}).Keys == rows.Keys - {d};
  }

  lemma AllRemoved(info: TableInfo, was: Rows, row: TableRow, rows: Rows, removed: set<int>)
    requires Removed(info, was, row, rows, removed) && Conflicts(info, rows, row) == {}
    ensures removed == Conflicts(info, was, row) && forall d :: d in Conflicts(info, was, row) ==> was[d] != row
  {
    ConflictsLeft(info, was, removed, row);
    hide Conflicts;
    forall d | d in Conflicts(info, was, row) ensures d in removed { assert d !in Conflicts(info, was, row) - removed; }
  }

  lemma NoConflictMeans(info: TableInfo, rows: Rows, indices: Indices, row: TableRow, h: int)
    requires Consistent(info, rows, indices) && Conflicts(info, rows, row) == {}
    requires info.pkOffset.Some? ==> Datum(row, info.pkOffset.value) == Int(h)
    ensures info.pkOffset.Some? ==> h !in rows
    ensures forall i ::
        0 <= i < |indices| && KeyOf(info.unique[i], row).Some? ==> KeyOf(info.unique[i], row).value !in indices[i]
  {
    hide KeyOf;
    assert forall d :: d in rows ==> (Conflicting(info, d, rows[d], row) <==> d in Conflicts(info, rows, row));
    forall i | 0 <= i < |indices| && KeyOf(info.unique[i], row).Some?
      ensures KeyOf(info.unique[i], row).value !in indices[i]
    {
      assert IndexOK(info.unique[i], rows, indices[i]);
      forall d | d in rows ensures KeyOf(info.unique[i], rows[d]) != KeyOf(info.unique[i], row) {
        SharesKeyForm(info.unique[i], rows[d], row);
        assert !Conflicting(info, d, rows[d], row);
      }
    }
  }

  lemma HandleConflicts(info: TableInfo, rows: Rows, row: TableRow, h: int)
    requires info.pkOffset.Some? && Datum(row, info.pkOffset.value) == Int(h)
    ensures h in rows ==> h in Conflicts(info, rows, row)
  {
  }

  /** The new row itself cannot turn up once another row in its way was removed. */
  lemma EqualAfterRemoval(info: TableInfo, rows: Rows, indices: Indices, row: TableRow, h: int, removed: set<int>)
    requires Consistent(info, rows, indices) && h in Conflicts(info, rows, row) && rows[h] == row && h !in removed
    requires Removed(info, rows, row, rows - removed, removed)
    ensures removed == {} && Conflicts(info, rows, row) == {h} && rows - removed == rows &&
            (rows - {h})[h := row] == rows
  {
    EqualRowIsOnlyConflict(info, rows, indices, row, h);
  }

  lemma NothingLeft(info: TableInfo, rows: Rows, indices: Indices, row: TableRow)
    requires Consistent(info, rows, indices)
    requires info.pkOffset.Some? ==> forall h :: h in rows ==> Datum(row, info.pkOffset.value) != Int(h)
    requires forall i ::
        0 <= i < |info.unique| && KeyOf(info.unique[i], row).Some? ==> KeyOf(info.unique[i], row).value !in indices[i]
    ensures Conflicts(info, rows, row) == {}
  {
    hide KeyOf;
    forall i, h | 0 <= i < |info.unique| && h in rows ensures !SharesKey(info.unique[i], rows[h], row) {
      SharesKeyForm(info.unique[i], rows[h], row);
      assert IndexOK(info.unique[i], rows, indices[i]);
    }
  }
}
