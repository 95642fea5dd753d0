/** The inner side of the merge join: it reads the child chunk by chunk, skips rows
    with a NULL join key, and returns one group of equal keys at a time. Rows are
    pointers into chunks; chunks that no pointer needs any more are reused. */
module MergeJoinInner {
  import opened ChunkRows
  import opened Expressions
  import opened Wrappers

  ghost predicate Distinct(ids: seq<nat>) {
    forall i, j :: 0 <= i < j < |ids| ==> ids[i] != ids[j]
  }

  /** The two queues hold different chunks among the first 'n'. */
  ghost predicate Queues(result: seq<nat>, resource: seq<nat>, n: nat) {
    && result != [] && Distinct(result + resource)
    && (forall k :: 0 <= k < |result| ==> result[k] < n) && (forall k :: 0 <= k < |resource| ==> resource[k] < n)
  }

  class InnerTable {
    const keyWidth: nat
    var reader: seq<seq<KeyedRow>>       // what the child will still deliver
    var chunks: seq<seq<KeyedRow>>       // the contents of every chunk, by chunk number
    var sameKeyRows: seq<RowPtr>
    var firstRow4Key: Option<RowPtr>    // None is the end row
    var curRow: Option<RowPtr>
    var curResult: nat
    var curResultInUse: bool
    var resultQueue: seq<nat>
    var resourceQueue: seq<nat>

    ghost predicate Valid()
      reads this
    {
      && Queues(resultQueue, resourceQueue, |chunks|) && resultQueue[|resultQueue| - 1] == curResult < |chunks|
      && NonEmptyChunks(reader)
      && (curRow.Some? ==> curRow.value.chk == curResult && curRow.value.idx < |chunks[curResult]| && curResultInUse)
    }

    /** The chunk must neither be reset nor refilled. */
    ghost predicate Protected(c: nat)
      reads this
    {
      c in resultQueue && (c == curResult ==> curResultInUse)
    }

    ghost predicate Pointed(p: RowPtr)
      reads this
    {
      Protected(p.chk) && InRange(chunks, p)
    }

    ghost predicate AllPointed(ps: seq<RowPtr>)
      reads this
    {
      forall k :: 0 <= k < |ps| ==> Pointed(ps[k])
    }

    /** The rows that have not been handed out yet, in the child's order. */
    ghost function Unread(): seq<KeyedRow>
      reads this
      requires Valid()
    {
      (if curRow.Some? then chunks[curResult][curRow.value.idx..] else []) + Flatten(reader)
    }

    /** The rows that are still to be grouped: the remembered first row and what follows. */
    ghost function Pending(): seq<KeyedRow>
      reads this
      requires Valid() && (firstRow4Key.Some? ==> Pointed(firstRow4Key.value))
    {
      (if firstRow4Key.Some? then [RowAt(chunks, firstRow4Key.value)] else []) + WithoutNulls(Unread())
    }

    /** The remembered first row lies in the current chunk, which is in use. */
    ghost predicate Ready()
      reads this
    {
      && Valid()
      && (firstRow4Key.Some? ==> Pointed(firstRow4Key.value) && firstRow4Key.value.chk == curResult)
      && (firstRow4Key.None? ==> WithoutNulls(Unread()) == [])
    }

    constructor (keyWidth: nat, input: seq<seq<KeyedRow>>)
      requires NonEmptyChunks(input)
      ensures Valid() && this.keyWidth == keyWidth && Unread() == Flatten(input) && firstRow4Key.None?
    {
      this.keyWidth := keyWidth;
      reader := input;
      chunks := [[]];
      sameKeyRows, firstRow4Key, curRow := [], None, None;
      curResult, curResultInUse := 0, false;
      resultQueue, resourceQueue := [0], [];
      new;
      assert [] + Flatten(reader) == Flatten(reader);
    }

    /** Provides an empty current chunk without touching a protected one. */
    method ReallocReaderResult()
      requires Valid() && curRow.None?
      modifies this
      ensures Valid() && curRow.None? && !curResultInUse && chunks[curResult] == []
      ensures reader == old(reader) && firstRow4Key == old(firstRow4Key) && sameKeyRows == old(sameKeyRows)
      ensures |chunks| >= |old(chunks)|
      ensures forall c: nat :: old(Protected(c)) ==> Protected(c) && c < |old(chunks)| && chunks[c] == old(chunks)[c]
    {
      if !curResultInUse {
        chunks := chunks[curResult := []];
        return;
      }
      if |resourceQueue| == 0 {
        NewChunk(resultQueue, resourceQueue, |chunks|);
        chunks := chunks + [[]];
        resourceQueue := resourceQueue + [|chunks| - 1];
      }
      NextChunk(resultQueue, resourceQueue, |chunks|);
      curResult := resourceQueue[0];
      resourceQueue := resourceQueue[1..];
      resultQueue := resultQueue + [curResult];
      chunks := chunks[curResult := []];
      curResultInUse := false;
    }

    /** Hands out the next row, reading a new chunk when the current one is used up. */
    method TakeRow() returns (r: Option<RowPtr>)
      requires Valid()
      modifies this
      ensures Valid()
      ensures firstRow4Key == old(firstRow4Key) && sameKeyRows == old(sameKeyRows)
      ensures |chunks| >= |old(chunks)|
      ensures forall c: nat :: old(Protected(c)) ==> Protected(c) && c < |old(chunks)| && chunks[c] == old(chunks)[c]
      ensures r.None? ==> old(Unread()) == [] && Unread() == []
      ensures r.Some? ==>
          Pointed(r.value) && r.value.chk == curResult && old(Unread()) == [RowAt(chunks, r.value)] + Unread()
    {
      if curRow.None? {
        ReallocReaderResult();
        if |reader| == 0 {
          return None;
        }
        var rows := reader[0];
        chunks := chunks[curResult := rows];
        reader := reader[1..];
        curRow := Some(RowPtr(curResult, 0));
      }
      r, curResultInUse := curRow, true;
      var idx := r.value.idx;
      curRow := if idx + 1 < |chunks[curResult]| then Some(RowPtr(curResult, idx + 1)) else None;
    }

    /** Hands out the next row whose key has no NULL. */
    method NextRow() returns (r: Option<RowPtr>)
      requires Valid()
      modifies this
      ensures Valid()
      ensures firstRow4Key == old(firstRow4Key) && sameKeyRows == old(sameKeyRows)
      ensures |chunks| >= |old(chunks)|
      ensures forall c: nat :: old(Protected(c)) ==> Protected(c) && c < |old(chunks)| && chunks[c] == old(chunks)[c]
      ensures r.None? ==> old(WithoutNulls(Unread())) == [] && WithoutNulls(Unread()) == []
      ensures r.Some? ==> Pointed(r.value) && r.value.chk == curResult && !HasNull(RowAt(chunks, r.value).key)
                          && old(WithoutNulls(Unread())) == [RowAt(chunks, r.value)] + WithoutNulls(Unread())
    {
      hide Queues, Unread, HasNull;
      InQueues();
      while true
        invariant Valid() && firstRow4Key == old(firstRow4Key) && sameKeyRows == old(sameKeyRows)
        invariant |chunks| >= |old(chunks)|
        invariant forall c: nat ::
            old(Protected(c)) ==> Protected(c) && c < |old(chunks)| && chunks[c] == old(chunks)[c]
        invariant WithoutNulls(Unread()) == old(WithoutNulls(Unread()))
        decreases |Unread()|
      {
        ghost var before := Unread();
        r := TakeRow();
        if r.None? {
          return;
        }
        assert before[1..] == Unread();
        if !HasNull(RowAt(chunks, r.value).key) {
          return;
        }
      }
    }

    lemma InQueues()
      requires Valid()
      ensures forall c: nat :: Protected(c) ==> c < |chunks|
    {
    }

    /** Reads the first row. */
    method Init()
      requires Valid() && firstRow4Key.None?
      modifies this
      ensures Ready() && Pending() == old(WithoutNulls(Unread()))
    {
      firstRow4Key := NextRow();
      if firstRow4Key.None? {
        assert [] + WithoutNulls(Unread()) == WithoutNulls(Unread());
      }
    }

    /** Returns the next group: the longest run of pending rows with one key. */
    method RowsWithSameKey() returns (group: seq<RowPtr>)
      requires Ready() && Width(Pending(), keyWidth)
      modifies this
      ensures Ready() && AllPointed(group)
      ensures old(Pending()) == RowsAt(chunks, group) + Pending()
      ensures group == [] ==> old(Pending()) == []
      ensures OneKey(RowsAt(chunks, group))
      ensures group != [] && Pending() != [] ==> Pending()[0].key != RowAt(chunks, group[0]).key
    {
      hide WithoutNulls, Flatten, Compare, Distinct, NonEmptyChunks, Queues, HasNull;
      Rotated(resultQueue, resourceQueue, |chunks|);
      var lastResultIdx := |resultQueue| - 1;
      resourceQueue := resourceQueue + resultQueue[..lastResultIdx];
      resultQueue := resultQueue[lastResultIdx..];
      if firstRow4Key.None? {
        assert RowsAt(chunks, []) + Pending() == Pending();
        return [];
      }
      ghost var pending := Pending();
      var first := firstRow4Key.value;
      sameKeyRows := [first];
      assert RowsAt(chunks, sameKeyRows) == [RowAt(chunks, first)];
      while true
        invariant Valid() && AllPointed(sameKeyRows) && sameKeyRows != [] && sameKeyRows[0] == first
        invariant firstRow4Key == Some(first)
        invariant pending == RowsAt(chunks, sameKeyRows) + WithoutNulls(Unread())
        invariant OneKey(RowsAt(chunks, sameKeyRows))
        decreases |WithoutNulls(Unread())|
      {
        ghost var chunks0 := chunks;
        var selectedRow := NextRow();
        RowsKept(chunks0, chunks, sameKeyRows);
        if selectedRow.None? {
          firstRow4Key := None;
          assert RowsAt(chunks, sameKeyRows) + Pending() == pending;
          return sameKeyRows;
        }
        ghost var row := RowAt(chunks, selectedRow.value);
        assert RowAt(chunks, first) == RowsAt(chunks, sameKeyRows)[0] == pending[0];
        assert row == pending[|sameKeyRows|];
        CompareOrder(row.key, RowAt(chunks, first).key);
        if Compare(RowAt(chunks, selectedRow.value).key, RowAt(chunks, first).key) == 0 {
          assert RowsAt(chunks, sameKeyRows + [selectedRow.value]) == RowsAt(chunks, sameKeyRows) + [row];
          sameKeyRows := sameKeyRows + [selectedRow.value];
        } else {
          firstRow4Key := selectedRow;
          assert RowsAt(chunks, sameKeyRows) + Pending() == pending;
          return sameKeyRows;
        }
      }
    }
  }

  ghost predicate OneKey(rows: seq<KeyedRow>) {
    forall k :: 0 <= k < |rows| ==> rows[k].key == rows[0].key
  }

  lemma RowsKept(chunks0: seq<seq<KeyedRow>>, chunks1: seq<seq<KeyedRow>>, ps: seq<RowPtr>)
    requires AllInRange(chunks0, ps)
    requires forall k :: 0 <= k < |ps| ==> ps[k].chk < |chunks1| && chunks1[ps[k].chk] == chunks0[ps[k].chk]
    ensures AllInRange(chunks1, ps) && RowsAt(chunks1, ps) == RowsAt(chunks0, ps)
  {
  }

  lemma NewChunk(result: seq<nat>, resource: seq<nat>, n: nat)
    requires Queues(result, resource, n) && resource == []
    ensures Queues(result, resource + [n], n + 1)
  {
    assert result + [] == result;
    assert forall k :: 0 <= k < |result| ==> result[k] in result;
  }

  lemma NextChunk(result: seq<nat>, resource: seq<nat>, n: nat)
    requires Queues(result, resource, n) && resource != []
    ensures Queues(result + [resource[0]], resource[1..], n) && resource[0] !in result
  {
    var ids := result + resource;
    assert (result + [resource[0]]) + resource[1..] == ids;
    assert resource[0] == ids[|result|] && resource[0] in resource;
    assert forall k :: 0 <= k < |result| ==> result[k] == ids[k];
  }

  lemma Rotated(result: seq<nat>, resource: seq<nat>, n: nat)
    requires Queues(result, resource, n)
    ensures result != []
    ensures Queues(result[|result| - 1..], resource + result[..|result| - 1], n)
  {
    var l, m, ids := |result| - 1, |resource|, result + resource;
    var all := result[l..] + (resource + result[..l]);
    assert |all| == |ids|;
    assert forall k :: 0 <= k < |all| ==>
      all[k] == if k == 0 then ids[l] else if k <= m then ids[l + k] else ids[k - m - 1];
  }
}
