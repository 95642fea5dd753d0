/** Top-N: a max-heap of row pointers over a list of chunks keeps the smallest rows, with
    compaction of the chunks, and the kept rows are sorted at the end. */
module TopN {
  import opened ChunkRows
  import opened Expressions
  import opened Wrappers

  // ---------- the order of rows ----------

  function Column(key: seq<Value>, i: nat): Value {
    if i < |key| then key[i] else Null
  }

  /** Compares from sort item 'i' on; a descending item turns its comparison round. */
  function CompareFrom(desc: seq<bool>, a: seq<Value>, b: seq<Value>, i: nat): int
    requires i <= |desc|
    decreases |desc| - i
  {
    if i == |desc| then 0
    else
      var cmp := if desc[i] then -CompareValue(Column(a, i), Column(b, i))
        else CompareValue(Column(a, i), Column(b, i));
      if cmp != 0 then cmp else CompareFrom(desc, a, b, i + 1)
  }

  predicate Le(desc: seq<bool>, r: KeyedRow, t: KeyedRow) {
    CompareFrom(desc, r.key, t.key, 0) <= 0
  }

  lemma {:induction false} CompareFromOrder(desc: seq<bool>, a: seq<Value>, b: seq<Value>, i: nat)
    requires i <= |desc|
    ensures CompareFrom(desc, b, a, i) == -CompareFrom(desc, a, b, i)
    decreases |desc| - i
  {
    if i < |desc| { CompareFromOrder(desc, a, b, i + 1); }
  }

  lemma {:induction false} CompareFromTransitive(desc: seq<bool>, a: seq<Value>, b: seq<Value>, c: seq<Value>, i: nat)
    requires i <= |desc| && CompareFrom(desc, a, b, i) <= 0 && CompareFrom(desc, b, c, i) <= 0
    ensures CompareFrom(desc, a, c, i) <= 0
    decreases |desc| - i
  {
    if i < |desc| && CompareValue(Column(a, i), Column(b, i)) == 0 && CompareValue(Column(b, i), Column(c, i)) == 0 {
      CompareFromTransitive(desc, a, b, c, i + 1);
    }
  }

  lemma LeTotal(desc: seq<bool>, r: KeyedRow, t: KeyedRow)
    ensures Le(desc, r, t) || Le(desc, t, r)
    ensures CompareFrom(desc, r.key, t.key, 0) > 0 <==> !Le(desc, r, t)
    ensures CompareFrom(desc, r.key, t.key, 0) < 0 <==> !Le(desc, t, r)
  {
    CompareFromOrder(desc, r.key, t.key, 0);
  }

  lemma LeTransitive(desc: seq<bool>, r: KeyedRow, t: KeyedRow, u: KeyedRow)
    requires Le(desc, r, t) && Le(desc, t, u)
    ensures Le(desc, r, u)
  {
    CompareFromTransitive(desc, r.key, t.key, u.key, 0);
  }

  /** Some sort item decides for 'a': all items before it are equal, and there 'a' has the
      smaller value, or the larger one if the item is descending. */
  ghost predicate Before(desc: seq<bool>, a: seq<Value>, b: seq<Value>) {
    exists i :: 0 <= i < |desc| && Decides(desc, a, b, 0, i)
  }

  ghost predicate Decides(desc: seq<bool>, a: seq<Value>, b: seq<Value>, from: nat, i: nat)
    requires i < |desc|
  {
    && (forall k :: from <= k < i ==> Column(a, k) == Column(b, k))
    && (if desc[i] then Smaller(Column(b, i), Column(a, i)) else Smaller(Column(a, i), Column(b, i)))
  }

  lemma {:induction false} CompareDecides(desc: seq<bool>, a: seq<Value>, b: seq<Value>, from: nat)
    requires from <= |desc|
    ensures CompareFrom(desc, a, b, from) < 0 <==> exists i :: from <= i < |desc| && Decides(desc, a, b, from, i)
    decreases |desc| - from
  {
    if from < |desc| {
      CompareDecides(desc, a, b, from + 1);
      if CompareValue(Column(a, from), Column(b, from)) == 0 {
        assert Column(a, from) == Column(b, from);
        assert !Decides(desc, a, b, from, from);
        if i :| from <= i < |desc| && Decides(desc, a, b, from, i) {
          assert from + 1 <= i && Decides(desc, a, b, from + 1, i);
        }
        var next := from + 1;
        if i :| next <= i < |desc| && Decides(desc, a, b, next, i) { assert Decides(desc, a, b, from, i); }
      } else {
        assert forall i :: from < i < |desc| ==> !Decides(desc, a, b, from, i);
        assert CompareFrom(desc, a, b, from) < 0 <==> Decides(desc, a, b, from, from);
      }
    }
  }

  lemma LeMeaning(desc: seq<bool>, r: KeyedRow, t: KeyedRow)
    ensures Le(desc, r, t) <==> !Before(desc, t.key, r.key)
  {
    CompareDecides(desc, t.key, r.key, 0);
    CompareFromOrder(desc, r.key, t.key, 0);
  }

  /** No row comes before an earlier one. */
  ghost predicate Ordered(desc: seq<bool>, rows: seq<KeyedRow>) {
    forall i, j :: 0 <= i < j < |rows| ==> !Before(desc, rows[j].key, rows[i].key)
  }

  lemma OrderedMeaning(desc: seq<bool>, rows: seq<KeyedRow>)
    ensures SortedRows(desc, rows) <==> Ordered(desc, rows)
  {
    hide Le, Before;
    forall i, j | 0 <= i < j < |rows| ensures Le(desc, rows[i], rows[j]) <==> !Before(desc, rows[j].key, rows[i].key) {
      LeMeaning(desc, rows[i], rows[j]);
    }
  }

  method LessRow(desc: seq<bool>, r: KeyedRow, t: KeyedRow) returns (less: bool)
    ensures less <==> Before(desc, r.key, t.key)
    ensures less <==> !Le(desc, t, r)
  {
    LeMeaning(desc, t, r);
    hide Before;
    LeTotal(desc, r, t);
    for i := 0 to |desc|
      invariant CompareFrom(desc, r.key, t.key, 0) == CompareFrom(desc, r.key, t.key, i)
    {
      var cmp := CompareValue(Column(r.key, i), Column(t.key, i));
      if desc[i] {
        cmp := -cmp;
      }
      if cmp < 0 {
        return true;
      } else if cmp > 0 {
        return false;
      }
    }
    return false;
  }

  method GreaterRow(desc: seq<bool>, r: KeyedRow, t: KeyedRow) returns (greater: bool)
    ensures greater <==> Before(desc, t.key, r.key)
    ensures greater <==> !Le(desc, r, t)
  {
    LeMeaning(desc, r, t);
    hide Before;
    LeTotal(desc, r, t);
    for i := 0 to |desc|
      invariant CompareFrom(desc, r.key, t.key, 0) == CompareFrom(desc, r.key, t.key, i)
    {
      var cmp := CompareValue(Column(r.key, i), Column(t.key, i));
      if desc[i] {
        cmp := -cmp;
      }
      if cmp > 0 {
        return true;
      } else if cmp < 0 {
        return false;
      }
    }
    return false;
  }

  ghost predicate SortedRows(desc: seq<bool>, rows: seq<KeyedRow>) {
    forall i, j :: 0 <= i < j < |rows| ==> Le(desc, rows[i], rows[j])
  }

  // ---------- the heap, on rows ----------

  function Parent(k: int): int
    requires k > 0
  {
    (k - 1) / 2
  }

  /** Below position 'lo' nothing is known; from there on no row exceeds its parent's. */
  ghost predicate HeapFrom(desc: seq<bool>, rows: seq<KeyedRow>, lo: int, n: int)
    requires 0 <= lo && 0 <= n <= |rows|
  {
    forall k :: 0 < k < n && Parent(k) >= lo ==> Le(desc, rows[k], rows[Parent(k)])
  }

  /** A heap except that the row at 'i' may be smaller than its children. */
  ghost predicate HeapExcept(desc: seq<bool>, rows: seq<KeyedRow>, lo: int, n: int, i: int)
    requires 0 <= lo <= i && 0 <= n <= |rows|
  {
    && (forall k :: 0 < k < n && Parent(k) >= lo && Parent(k) != i ==> Le(desc, rows[k], rows[Parent(k)]))
    && (i > lo && Parent(i) >= lo && Parent(i) < n ==> forall k ::
          0 < k < n && Parent(k) == i ==> Le(desc, rows[k], rows[Parent(i)]))
  }

  function Swapped<T>(s: seq<T>, i: int, j: int): seq<T>
    requires 0 <= i < |s| && 0 <= j < |s|
  {
    s[i := s[j]][j := s[i]]
  }

  lemma SwapKeeps<T>(s: seq<T>, i: int, j: int)
    requires 0 <= i < |s| && 0 <= j < |s|
    ensures multiset(Swapped(s, i, j)) == multiset(s)
  {
  }

  /** Moving the larger child 'j' up leaves only its old place in question. */
  lemma SwapDown(desc: seq<bool>, rows: seq<KeyedRow>, lo: int, n: int, i: int, j: int)
    requires 0 <= lo <= i < n <= |rows| && HeapExcept(desc, rows, lo, n, i)
    requires i < j < n && Parent(j) == i && Le(desc, rows[i], rows[j])
    requires forall k :: 0 < k < n && Parent(k) == i ==> Le(desc, rows[k], rows[j])
    ensures HeapExcept(desc, Swapped(rows, i, j), lo, n, j)
  {
    hide Le;
  }

  lemma {:induction false} HeapMax(desc: seq<bool>, rows: seq<KeyedRow>, n: int, k: int)
    requires 0 <= k < n <= |rows| && HeapFrom(desc, rows, 0, n)
    ensures Le(desc, rows[k], rows[0])
    decreases k
  {
    if k == 0 {
      LeTotal(desc, rows[0], rows[0]);
    } else {
      HeapMax(desc, rows, n, Parent(k));
      LeTransitive(desc, rows[k], rows[Parent(k)], rows[0]);
    }
  }

  // ---------- the heap, on row pointers ----------

  lemma RowsAtSwap(chunks: seq<seq<KeyedRow>>, ptrs: seq<RowPtr>, i: int, j: int)
    requires AllInRange(chunks, ptrs) && 0 <= i < |ptrs| && 0 <= j < |ptrs|
    ensures AllInRange(chunks, Swapped(ptrs, i, j))
    ensures RowsAt(chunks, Swapped(ptrs, i, j)) == Swapped(RowsAt(chunks, ptrs), i, j)
  {
  }

  /** Sifts the row at 'i0' down within the first 'n'. */
  method Down(desc: seq<bool>, chunks: seq<seq<KeyedRow>>, ptrs: seq<RowPtr>, i0: int, n: int)
    returns (heap: seq<RowPtr>)
    requires AllInRange(chunks, ptrs) && 0 <= i0 < n <= |ptrs|
    requires HeapFrom(desc, RowsAt(chunks, ptrs), i0 + 1, n)
    ensures AllInRange(chunks, heap) && |heap| == |ptrs| && heap[n..] == ptrs[n..]
    ensures multiset(RowsAt(chunks, heap)) == multiset(RowsAt(chunks, ptrs))
    ensures HeapFrom(desc, RowsAt(chunks, heap), i0, n)
  {
    hide Le, HeapExcept, HeapFrom;
    heap := ptrs;
    var i := i0;
    BeginDown(desc, RowsAt(chunks, ptrs), i0, n);
    while true
      invariant i0 <= i < n <= |heap| && AllInRange(chunks, heap) && |heap| == |ptrs| && heap[n..] == ptrs[n..]
      invariant multiset(RowsAt(chunks, heap)) == multiset(RowsAt(chunks, ptrs))
      invariant HeapExcept(desc, RowsAt(chunks, heap), i0, n, i)
      decreases n - i
    {
      ghost var rows := RowsAt(chunks, heap);
      var j1 := 2 * i + 1;
      if j1 >= n {
        EndDown(desc, rows, i0, n, i);
        return;
      }
      var j := j1;
      var j2 := j1 + 1;
      if j2 < n {
        var greater := GreaterRow(desc, RowAt(chunks, heap[j2]), RowAt(chunks, heap[j1]));
        if greater {
          j := j2;
        }
      }
      LargerChild(desc, rows, n, i, j);
      var greater := GreaterRow(desc, RowAt(chunks, heap[j]), RowAt(chunks, heap[i]));
      if !greater {
        SettleDown(desc, rows, i0, n, i, j);
        return;
      }
      LeTotal(desc, rows[j], rows[i]);
      SwapDown(desc, rows, i0, n, i, j);
      SwapKeeps(rows, i, j);
      RowsAtSwap(chunks, heap, i, j);
      heap := Swapped(heap, i, j);
      i := j;
    }
  }

  lemma BeginDown(desc: seq<bool>, rows: seq<KeyedRow>, i: int, n: int)
    requires 0 <= i < n <= |rows| && HeapFrom(desc, rows, i + 1, n)
    ensures HeapExcept(desc, rows, i, n, i)
  {
  }

  lemma EndDown(desc: seq<bool>, rows: seq<KeyedRow>, lo: int, n: int, i: int)
    requires 0 <= lo <= i < n <= |rows| && HeapExcept(desc, rows, lo, n, i) && 2 * i + 1 >= n
    ensures HeapFrom(desc, rows, lo, n)
  {
  }

  lemma LargerChild(desc: seq<bool>, rows: seq<KeyedRow>, n: int, i: int, j: int)
    requires 0 <= i && 2 * i + 1 < n <= |rows|
    requires j == 2 * i + 1 || (j == 2 * i + 2 < n && !Le(desc, rows[j], rows[2 * i + 1]))
    requires j == 2 * i + 1 && 2 * i + 2 < n ==> Le(desc, rows[2 * i + 2], rows[j])
    ensures forall k :: 0 < k < n && Parent(k) == i ==> Le(desc, rows[k], rows[j])
  {
    LeTotal(desc, rows[j], rows[2 * i + 1]);
    LeTotal(desc, rows[j], rows[j]);
  }

  lemma SettleDown(desc: seq<bool>, rows: seq<KeyedRow>, lo: int, n: int, i: int, j: int)
    requires 0 <= lo <= i < n <= |rows| && HeapExcept(desc, rows, lo, n, i) && 0 < j < n && Le(desc, rows[j], rows[i])
    requires forall k :: 0 < k < n && Parent(k) == i ==> Le(desc, rows[k], rows[j])
    ensures HeapFrom(desc, rows, lo, n)
  {
    forall k | 0 < k < n && Parent(k) == i
      ensures Le(desc, rows[k], rows[i])
    {
      LeTransitive(desc, rows[k], rows[j], rows[i]);
    }
  }

  method HeapInit(desc: seq<bool>, chunks: seq<seq<KeyedRow>>, ptrs: seq<RowPtr>) returns (heap: seq<RowPtr>)
    requires AllInRange(chunks, ptrs)
    ensures AllInRange(chunks, heap) && |heap| == |ptrs|
    ensures multiset(RowsAt(chunks, heap)) == multiset(RowsAt(chunks, ptrs)) &&
            HeapFrom(desc, RowsAt(chunks, heap), 0, |heap|)
  {
    hide Le;
    heap := ptrs;
    var n := |heap|;
    var i := n / 2 - 1;
    while i >= 0
      invariant -1 <= i && (i < n || n == 0) && AllInRange(chunks, heap) && |heap| == n
      invariant multiset(RowsAt(chunks, heap)) == multiset(RowsAt(chunks, ptrs)) &&
                HeapFrom(desc, RowsAt(chunks, heap), i + 1, n)
    {
      heap := Down(desc, chunks, heap, i, n);
      i := i - 1;
    }
  }

  /** Removes the greatest row. */
  method HeapPop(desc: seq<bool>, chunks: seq<seq<KeyedRow>>, ptrs: seq<RowPtr>) returns (heap: seq<RowPtr>)
    requires AllInRange(chunks, ptrs) && ptrs != [] && HeapFrom(desc, RowsAt(chunks, ptrs), 0, |ptrs|)
    ensures AllInRange(chunks, heap) && |heap| == |ptrs| - 1 && HeapFrom(desc, RowsAt(chunks, heap), 0, |heap|)
    ensures multiset(RowsAt(chunks, heap)) + multiset{RowAt(chunks, ptrs[0])} == multiset(RowsAt(chunks, ptrs))
  {
    hide Le, HeapFrom, Swapped;
    var n := |ptrs| - 1;
    RowsAtSwap(chunks, ptrs, 0, n);
    SwapKeeps(RowsAt(chunks, ptrs), 0, n);
    SwapEnds(desc, RowsAt(chunks, ptrs));
    SwapLast(ptrs);
    heap := Swapped(ptrs, 0, n);
    if n > 0 {
      heap := Down(desc, chunks, heap, 0, n);
    }
    CutLast(desc, chunks, heap, ptrs[0]);
    heap := heap[..n];
  }

  lemma SwapEnds(desc: seq<bool>, rows: seq<KeyedRow>)
    requires rows != [] && HeapFrom(desc, rows, 0, |rows|)
    ensures HeapFrom(desc, Swapped(rows, 0, |rows| - 1), 1, |rows| - 1)
    ensures |rows| == 1 ==> HeapFrom(desc, Swapped(rows, 0, |rows| - 1), 0, 0)
  {
    hide Le;
  }

  lemma SwapLast(ptrs: seq<RowPtr>)
    requires ptrs != []
    ensures |Swapped(ptrs, 0, |ptrs| - 1)| == |ptrs| && Swapped(ptrs, 0, |ptrs| - 1)[|ptrs| - 1..] == [ptrs[0]]
  {
  }

  lemma CutLast(desc: seq<bool>, chunks: seq<seq<KeyedRow>>, heap: seq<RowPtr>, last: RowPtr)
    requires AllInRange(chunks, heap) && heap != [] && heap[|heap| - 1..] == [last]
    requires HeapFrom(desc, RowsAt(chunks, heap), 0, |heap| - 1)
    ensures AllInRange(chunks, heap[..|heap| - 1]) &&
            HeapFrom(desc, RowsAt(chunks, heap[..|heap| - 1]), 0, |heap| - 1) && InRange(chunks, last)
    ensures multiset(RowsAt(chunks, heap[..|heap| - 1])) + multiset{RowAt(chunks, last)}
            == multiset(RowsAt(chunks, heap))
  {
    hide Le;
    var n := |heap| - 1;
    assert heap[n] == heap[n..][0] == last;
    assert RowsAt(chunks, heap) == RowsAt(chunks, heap[..n]) + [RowAt(chunks, last)];
  }

  /** Puts another row in the place of the greatest. */
  method HeapFixTop(desc: seq<bool>, chunks: seq<seq<KeyedRow>>, ptrs: seq<RowPtr>) returns (heap: seq<RowPtr>)
    requires AllInRange(chunks, ptrs) && ptrs != [] && HeapFrom(desc, RowsAt(chunks, ptrs), 1, |ptrs|)
    ensures AllInRange(chunks, heap) && |heap| == |ptrs| && HeapFrom(desc, RowsAt(chunks, heap), 0, |heap|)
    ensures multiset(RowsAt(chunks, heap)) == multiset(RowsAt(chunks, ptrs))
  {
    heap := Down(desc, chunks, ptrs, 0, |ptrs|);
  }

  // ---------- the list of chunks ----------

  function Total(chunks: seq<seq<KeyedRow>>): nat {
    if chunks == [] then 0 else |chunks[0]| + Total(chunks[1..])
  }

  /** Adds the row to the last chunk, or to a fresh one when that is full or was handed in. */
  lemma {:induction false} TotalAppend(chunks: seq<seq<KeyedRow>>, chk: seq<KeyedRow>)
    ensures Total(chunks + [chk]) == Total(chunks) + |chk|
  {
    if chunks != [] {
      assert (chunks + [chk])[1..] == chunks[1..] + [chk];
      TotalAppend(chunks[1..], chk);
    } else {
      assert [chk][1..] == [];
    }
  }

  lemma {:induction false} TotalUpdate(chunks: seq<seq<KeyedRow>>, c: nat, chk: seq<KeyedRow>)
    requires c < |chunks|
    ensures Total(chunks[c := chk]) == Total(chunks) - |chunks[c]| + |chk|
  {
    if c > 0 {
      assert chunks[c := chk][1..] == chunks[1..][c - 1 := chk];
      TotalUpdate(chunks[1..], c - 1, chk);
    } else {
      assert chunks[c := chk][1..] == chunks[1..];
    }
  }

  method AppendRow(chunks: seq<seq<KeyedRow>>, row: KeyedRow, full: bool)
    returns (longer: seq<seq<KeyedRow>>, ptr: RowPtr)
    ensures InRange(longer, ptr) && RowAt(longer, ptr) == row
    ensures forall p :: InRange(chunks, p) ==> InRange(longer, p) && RowAt(longer, p) == RowAt(chunks, p)
    ensures Total(longer) == Total(chunks) + 1
  {
    hide Total;
    longer := chunks;
    if chunks == [] || full {
      longer := longer + [[]];
      TotalAppend(chunks, []);
    }
    var last := |longer| - 1;
    TotalUpdate(longer, last, longer[last] + [row]);
    longer := longer[last := longer[last] + [row]];
    ptr := RowPtr(last, |longer[last]| - 1);
  }

  /** A pointer to every row, in order. */
  method InitPointers(chunks: seq<seq<KeyedRow>>) returns (ptrs: seq<RowPtr>)
    ensures AllInRange(chunks, ptrs) && RowsAt(chunks, ptrs) == Flatten(chunks)
  {
    ptrs := [];
    assert chunks[..0] == [];
    for c := 0 to |chunks|
      invariant AllInRange(chunks, ptrs) && RowsAt(chunks, ptrs) == Flatten(chunks[..c])
    {
      ghost var before := RowsAt(chunks, ptrs);
      for r := 0 to |chunks[c]|
        invariant AllInRange(chunks, ptrs) && RowsAt(chunks, ptrs) == before + chunks[c][..r]
      {
        assert RowsAt(chunks, ptrs + [RowPtr(c, r)]) == RowsAt(chunks, ptrs) + [chunks[c][r]];
        ptrs := ptrs + [RowPtr(c, r)];
      }
      assert chunks[..c + 1] == chunks[..c] + [chunks[c]] && chunks[c][..|chunks[c]|] == chunks[c];
      FlattenAppend(chunks[..c], [chunks[c]]);
    }
    assert chunks[..|chunks|] == chunks;
  }

  /** Copies the pointed-to rows to new chunks, in the order of the pointers. */
  method DoCompaction(chunks: seq<seq<KeyedRow>>, ptrs: seq<RowPtr>, full: nat -> bool)
    returns (newChunks: seq<seq<KeyedRow>>, newPtrs: seq<RowPtr>)
    requires AllInRange(chunks, ptrs)
    ensures AllInRange(newChunks, newPtrs) && RowsAt(newChunks, newPtrs) == RowsAt(chunks, ptrs)
    ensures Total(newChunks) == |ptrs|
  {
    newChunks, newPtrs := [], [];
    for i := 0 to |ptrs|
      invariant Total(newChunks) == i
      invariant |newPtrs| == i && AllInRange(newChunks, newPtrs)
      invariant forall k :: 0 <= k < i ==> RowAt(newChunks, newPtrs[k]) == RowAt(chunks, ptrs[k])
    {
      var newPtr;
      newChunks, newPtr := AppendRow(newChunks, RowAt(chunks, ptrs[i]), full(i));
      newPtrs := newPtrs + [newPtr];
    }
  }

  // ---------- kept and dropped rows ----------

  /** No dropped row is smaller than a kept one. */
  ghost predicate Above(desc: seq<bool>, kept: seq<KeyedRow>, dropped: seq<KeyedRow>) {
    forall r, d :: r in kept && d in dropped ==> Le(desc, r, d)
  }

  /** The rows read so far are the kept ones and the dropped ones. */
  ghost predicate Partition(desc: seq<bool>, kept: seq<KeyedRow>, dropped: seq<KeyedRow>, rest: seq<KeyedRow>,
                            input: seq<KeyedRow>) {
    Above(desc, kept, dropped) && multiset(kept) + multiset(dropped) + multiset(rest) == multiset(input)
  }

  lemma PermuteKept(desc: seq<bool>, kept: seq<KeyedRow>, kept': seq<KeyedRow>, dropped: seq<KeyedRow>,
                    rest: seq<KeyedRow>, input: seq<KeyedRow>)
    requires Partition(desc, kept, dropped, rest, input) && multiset(kept') == multiset(kept)
    ensures Partition(desc, kept', dropped, rest, input)
  {
    forall r | r in kept' ensures r in kept { assert r in multiset(kept'); }
  }

  /** The greatest kept row may be dropped. */
  lemma DropGreatest(desc: seq<bool>, kept: seq<KeyedRow>, kept': seq<KeyedRow>, top: KeyedRow, dropped: seq<KeyedRow>,
                     rest: seq<KeyedRow>, input: seq<KeyedRow>)
    requires Partition(desc, kept, dropped, rest, input) && multiset(kept') + multiset{top} == multiset(kept)
    requires forall r :: r in kept ==> Le(desc, r, top)
    ensures Partition(desc, kept', dropped + [top], rest, input)
  {
    forall r | r in kept' ensures r in kept { assert r in multiset(kept') + multiset{top}; }
  }

  /** A row no smaller than the greatest kept one may be dropped unread. */
  lemma DropNext(desc: seq<bool>, kept: seq<KeyedRow>, top: KeyedRow, dropped: seq<KeyedRow>, rest: seq<KeyedRow>,
                 input: seq<KeyedRow>)
    requires rest != [] && Partition(desc, kept, dropped, rest, input) && Le(desc, top, rest[0])
    requires forall r :: r in kept ==> Le(desc, r, top)
    ensures Partition(desc, kept, dropped + [rest[0]], rest[1..], input)
  {
    forall r | r in kept ensures Le(desc, r, rest[0]) { LeTransitive(desc, r, top, rest[0]); }
    assert rest == [rest[0]] + rest[1..];
  }

  /** A smaller row takes the place of the greatest kept one. */
  lemma ReplaceGreatest(desc: seq<bool>, kept: seq<KeyedRow>, kept': seq<KeyedRow>, dropped: seq<KeyedRow>,
                        rest: seq<KeyedRow>, input: seq<KeyedRow>)
    requires kept != [] && rest != [] && Partition(desc, kept, dropped, rest, input) && Le(desc, rest[0], kept[0])
    requires (forall r :: r in kept ==> Le(desc, r, kept[0])) && kept' == kept[0 := rest[0]]
    ensures Partition(desc, kept', dropped + [kept[0]], rest[1..], input)
  {
    assert rest == [rest[0]] + rest[1..];
    assert kept[0] in kept;
    forall r, d | r in kept' && d in dropped + [kept[0]] ensures Le(desc, r, d) {
      if r !in kept && d in dropped { LeTransitive(desc, rest[0], kept[0], d); }
    }
  }

  // ---------- sorting ----------

  function InsertPtr(desc: seq<bool>, chunks: seq<seq<KeyedRow>>, ptrs: seq<RowPtr>, p: RowPtr): (r: seq<RowPtr>)
    requires InRange(chunks, p) && forall k :: 0 <= k < |ptrs| ==> InRange(chunks, ptrs[k])
    ensures AllInRange(chunks, r) && |r| == |ptrs| + 1
  {
    if ptrs == [] || Le(desc, RowAt(chunks, p), RowAt(chunks, ptrs[0])) then [p] + ptrs
    else [ptrs[0]] + InsertPtr(desc, chunks, ptrs[1..], p)
  }

  /** Stands for the library's sort, of which only the order of the result is used. */
  function SortSlice(desc: seq<bool>, chunks: seq<seq<KeyedRow>>, ptrs: seq<RowPtr>): (r: seq<RowPtr>)
    requires forall k :: 0 <= k < |ptrs| ==> InRange(chunks, ptrs[k])
    ensures AllInRange(chunks, r) && |r| == |ptrs|
  {
    if ptrs == [] then [] else InsertPtr(desc, chunks, SortSlice(desc, chunks, ptrs[1..]), ptrs[0])
  }

  lemma {:induction false} InsertSorts(desc: seq<bool>, chunks: seq<seq<KeyedRow>>, ptrs: seq<RowPtr>, p: RowPtr)
    requires AllInRange(chunks, ptrs) && InRange(chunks, p) && SortedRows(desc, RowsAt(chunks, ptrs))
    ensures SortedRows(desc, RowsAt(chunks, InsertPtr(desc, chunks, ptrs, p)))
    ensures multiset(RowsAt(chunks, InsertPtr(desc, chunks, ptrs, p)))
            == multiset(RowsAt(chunks, ptrs)) + multiset{RowAt(chunks, p)}
  {
    hide Le;
    var r := InsertPtr(desc, chunks, ptrs, p);
    var row := RowAt(chunks, p);
    if ptrs == [] || Le(desc, row, RowAt(chunks, ptrs[0])) {
      assert RowsAt(chunks, r) == [row] + RowsAt(chunks, ptrs);
      PrependSorted(desc, row, RowsAt(chunks, ptrs));
    } else {
      var head, rest := RowAt(chunks, ptrs[0]), ptrs[1..];
      assert RowsAt(chunks, ptrs) == [head] + RowsAt(chunks, rest);
      SortedTail(desc, head, RowsAt(chunks, rest));
      InsertSorts(desc, chunks, rest, p);
      var r' := RowsAt(chunks, InsertPtr(desc, chunks, rest, p));
      assert RowsAt(chunks, r) == [head] + r';
      LeTotal(desc, row, head);
      forall t | t in r' ensures Le(desc, head, t) { assert t in multiset(RowsAt(chunks, rest)) + multiset{row}; }
      PrependLeast(desc, head, r');
    }
  }

  lemma PrependSorted(desc: seq<bool>, row: KeyedRow, rows: seq<KeyedRow>)
    requires SortedRows(desc, rows) && (rows != [] ==> Le(desc, row, rows[0]))
    ensures SortedRows(desc, [row] + rows)
  {
    forall t | t in rows ensures Le(desc, row, t) {
      var k :| 0 <= k < |rows| && rows[k] == t;
      if k > 0 { LeTransitive(desc, row, rows[0], rows[k]); }
    }
    PrependLeast(desc, row, rows);
  }

  lemma PrependLeast(desc: seq<bool>, row: KeyedRow, rows: seq<KeyedRow>)
    requires SortedRows(desc, rows) && forall t :: t in rows ==> Le(desc, row, t)
    ensures SortedRows(desc, [row] + rows)
  {
    var all := [row] + rows;
    forall i, j | 0 <= i < j < |all| ensures Le(desc, all[i], all[j]) {
      assert all[j] == rows[j - 1];
      if i > 0 { assert all[i] == rows[i - 1]; }
    }
  }

  lemma SortedTail(desc: seq<bool>, head: KeyedRow, rest: seq<KeyedRow>)
    requires SortedRows(desc, [head] + rest)
    ensures SortedRows(desc, rest) && forall t :: t in rest ==> Le(desc, head, t)
  {
    var all := [head] + rest;
    assert forall k :: 0 <= k < |rest| ==> rest[k] == all[k + 1];
    assert all[0] == head;
  }

  lemma {:induction false} SortSliceSorts(desc: seq<bool>, chunks: seq<seq<KeyedRow>>, ptrs: seq<RowPtr>)
    requires AllInRange(chunks, ptrs)
    ensures SortedRows(desc, RowsAt(chunks, SortSlice(desc, chunks, ptrs)))
    ensures multiset(RowsAt(chunks, SortSlice(desc, chunks, ptrs))) == multiset(RowsAt(chunks, ptrs))
  {
    if ptrs != [] {
      SortSliceSorts(desc, chunks, ptrs[1..]);
      InsertSorts(desc, chunks, SortSlice(desc, chunks, ptrs[1..]), ptrs[0]);
      assert RowsAt(chunks, ptrs) == [RowAt(chunks, ptrs[0])] + RowsAt(chunks, ptrs[1..]);
    }
  }

  /** Kept rows that are sorted start a sort of the whole input. */
  lemma SortedPrefix(desc: seq<bool>, kept: seq<KeyedRow>, dropped: seq<KeyedRow>, input: seq<KeyedRow>)
    returns (sorted: seq<KeyedRow>)
    requires Partition(desc, kept, dropped, [], input) && SortedRows(desc, kept)
    ensures SortedRows(desc, sorted) && multiset(sorted) == multiset(input) && kept <= sorted &&
            |sorted| == |kept| + |dropped|
  {
    var ptrs := seq(|dropped|, k requires 0 <= k => RowPtr(0, k));
    var chunks := [dropped];
    assert RowsAt(chunks, ptrs) == dropped;
    SortSliceSorts(desc, chunks, ptrs);
    var rest := RowsAt(chunks, SortSlice(desc, chunks, ptrs));
    sorted := kept + rest;
    forall i, j | 0 <= i < j < |sorted| ensures Le(desc, sorted[i], sorted[j]) {
      if i < |kept| <= j {
        assert sorted[j] == rest[j - |kept|] && rest[j - |kept|] in multiset(rest);
        assert sorted[j] in dropped && sorted[i] in kept;
      } else if i >= |kept| {
        assert sorted[i] == rest[i - |kept|] && sorted[j] == rest[j - |kept|];
      }
    }
  }

  // ---------- the executor ----------

  const UINT64 := 0x1_0000_0000_0000_0000
  const INT64_LIMIT := 0x8000_0000_0000_0000
  const COMPACTION_FACTOR := 4

  /** The cursor starts at the offset converted to a signed integer. */
  function ToInt(u: nat): int {
    if u < INT64_LIMIT then u else u - UINT64
  }

  lemma {:induction false} TotalIsLength(chunks: seq<seq<KeyedRow>>)
    ensures Total(chunks) == |Flatten(chunks)|
  {
    if chunks != [] { TotalIsLength(chunks[1..]); }
  }

  /** The rows from 'offset' up to 'offset' + 'count' of some sort of the input. */
  ghost predicate IsSlice(desc: seq<bool>, input: seq<KeyedRow>, offset: nat, count: nat, out: seq<KeyedRow>) {
    exists sorted: seq<KeyedRow> ::
      Ordered(desc, sorted) && multiset(sorted) == multiset(input) && out == Slice(sorted, offset, count)
  }

  function Slice(sorted: seq<KeyedRow>, offset: nat, count: nat): seq<KeyedRow> {
    var hi := if offset + count < |sorted| then offset + count else |sorted|;
    if offset < hi then sorted[offset..hi] else []
  }

  /** How many rows are kept: the sum of offset and count, which wraps around. */
  function TotalLimit(offset: nat, count: nat): nat {
    (offset + count) % UINT64
  }

  /** The part of the limit that lies past the offset. */
  function Past(offset: nat, count: nat): nat {
    if TotalLimit(offset, count) >= offset then TotalLimit(offset, count) - offset else 0
  }

  function AtMost(limit: nat, n: nat): nat {
    if limit < n then limit else n
  }

  lemma LimitWraps(offset: nat, count: nat)
    requires offset < UINT64 && count < UINT64
    ensures offset + count < UINT64 ==> TotalLimit(offset, count) == offset + count && Past(offset, count) == count
    ensures offset + count >= UINT64 ==>
        TotalLimit(offset, count) == offset + count - UINT64 && Past(offset, count) == 0 < count
  {
  }

  class TopNExec {
    const desc: seq<bool>
    const offset: nat
    const count: nat
    var child: seq<seq<KeyedRow>>        // what the child will still deliver
    var rowChunks: seq<seq<KeyedRow>>
    var rowPtrs: seq<RowPtr>
    var totalLimit: nat
    var idx: int
    var fetched: bool

    ghost var input: seq<KeyedRow>
    ghost var dropped: seq<KeyedRow>
    ghost var sorted: seq<KeyedRow>

    ghost predicate Limits() {
      offset < UINT64 && count < UINT64
    }

    /** What holds of kept, dropped and unread rows from the first load to the final sort. */
    ghost predicate Working()
      reads this
    {
      && Limits() && totalLimit == TotalLimit(offset, count) && NonEmptyChunks(child) && AllInRange(rowChunks, rowPtrs)
      && Partition(desc, RowsAt(rowChunks, rowPtrs), dropped, Flatten(child), input)
      && (child == [] || |rowPtrs| >= totalLimit) && (dropped != [] ==> |rowPtrs| >= totalLimit)
    }

    ghost predicate HeapOK()
      reads this
      requires AllInRange(rowChunks, rowPtrs)
    {
      HeapFrom(desc, RowsAt(rowChunks, rowPtrs), 0, |rowPtrs|)
    }

    /** The kept rows begin a sort of the input, and the cursor has passed what was returned. */
    ghost predicate Done()
      reads this
    {
      && Limits() && offset < INT64_LIMIT
      && AllInRange(rowChunks, rowPtrs) && SortedRows(desc, sorted) && multiset(sorted) == multiset(input)
      && RowsAt(rowChunks, rowPtrs) == sorted[..AtMost(TotalLimit(offset, count), |sorted|)]
      && idx >= offset && (idx == offset || idx <= |rowPtrs|)
    }

    ghost predicate Valid()
      reads this
    {
      Limits() && NonEmptyChunks(child) && (if fetched then Done() else Flatten(child) == input)
    }

    /** The order in which rows are returned is a sort of the input. */
    lemma SortsInput()
      requires Valid() && fetched
      ensures SortedRows(desc, sorted) && multiset(sorted) == multiset(input)
    {
    }

    constructor (desc: seq<bool>, offset: nat, count: nat, child: seq<seq<KeyedRow>>)
      requires offset < UINT64 && count < UINT64 && NonEmptyChunks(child)
      ensures Valid() && !fetched && this.child == child && input == Flatten(child) && this.desc == desc &&
              this.offset == offset && this.count == count
    {
      this.desc, this.offset, this.count, this.child := desc, offset, count, child;
      rowChunks, rowPtrs, totalLimit, idx, fetched := [], [], 0, 0, false;
      input, dropped, sorted := Flatten(child), [], [];
    }

    method LoadChunksUntilTotalLimit()
      requires Limits() && NonEmptyChunks(child) && Flatten(child) == input && totalLimit == TotalLimit(offset, count)
      modifies this`child, this`rowChunks, this`rowPtrs, this`dropped
      ensures Working() && (totalLimit == 0 ==> child == old(child))
    {
      hide Flatten, Partition, NonEmptyChunks, TotalLimit;
      dropped := [];
      rowChunks, child := LoadChunks(child, totalLimit);
      rowPtrs := InitPointers(rowChunks);
      assert |RowsAt(rowChunks, rowPtrs)| == |rowPtrs|;
      NothingDropped(desc, RowsAt(rowChunks, rowPtrs), Flatten(child), input);
    }

    /** Evicts the greatest kept row if the next row is smaller. */
    method OfferRow(row: KeyedRow, full: bool, ghost rest: seq<KeyedRow>)
      requires AllInRange(rowChunks, rowPtrs) && HeapOK() && |rowPtrs| > 0
      requires Partition(desc, RowsAt(rowChunks, rowPtrs), dropped, [row] + rest, input)
      modifies this`rowChunks, this`rowPtrs, this`dropped
      ensures AllInRange(rowChunks, rowPtrs) && HeapOK() && |rowPtrs| == |old(rowPtrs)|
      ensures Partition(desc, RowsAt(rowChunks, rowPtrs), dropped, rest, input)
    {
      hide Partition, Le, HeapFrom;
      ghost var kept, all := RowsAt(rowChunks, rowPtrs), [row] + rest;
      KeptBelowTop(desc, kept);
      assert all[0] == row && all[1..] == rest;
      LeTotal(desc, kept[0], row);
      var greater := GreaterRow(desc, RowAt(rowChunks, rowPtrs[0]), row);
      if greater {
        var chunks, ptr := AppendRow(rowChunks, row, full);
        ReplaceTop(desc, rowChunks, chunks, rowPtrs, ptr, row);
        ReplaceGreatest(desc, kept, kept[0 := row], dropped, all, input);
        dropped := dropped + [kept[0]];
        ghost var placed := RowsAt(chunks, rowPtrs[0 := ptr]);
        rowChunks := chunks;
        rowPtrs := HeapFixTop(desc, chunks, rowPtrs[0 := ptr]);
        PermuteKept(desc, placed, RowsAt(rowChunks, rowPtrs), dropped, rest, input);
      } else {
        DropNext(desc, kept, kept[0], dropped, all, input);
        dropped := dropped + [row];
      }
    }

    /** Indexes the top of the heap for every row, which panics when the heap is empty. */
    method ProcessChildChk(chk: seq<KeyedRow>, full: nat -> bool) returns (panicked: bool)
      requires Limits() && AllInRange(rowChunks, rowPtrs) && HeapOK() && |rowPtrs| == totalLimit
      requires Partition(desc, RowsAt(rowChunks, rowPtrs), dropped, chk + Flatten(child), input)
      modifies this`rowChunks, this`rowPtrs, this`dropped
      ensures panicked <==> totalLimit == 0 && chk != []
      ensures !panicked ==> AllInRange(rowChunks, rowPtrs) && HeapOK() && |rowPtrs| == totalLimit
      ensures !panicked ==> Partition(desc, RowsAt(rowChunks, rowPtrs), dropped, Flatten(child), input)
    {
      hide Partition, Flatten, Le, HeapFrom;
      ghost var rest := Flatten(child);
      assert chk[0..] == chk;
      for i := 0 to |chk|
        invariant AllInRange(rowChunks, rowPtrs) && HeapOK() && |rowPtrs| == totalLimit
        invariant Partition(desc, RowsAt(rowChunks, rowPtrs), dropped, chk[i..] + rest, input)
        invariant i > 0 ==> totalLimit > 0
      {
        if |rowPtrs| == 0 { return true; }
        assert chk[i..] + rest == [chk[i]] + (chk[i + 1..] + rest);
        OfferRow(chk[i], full(i), chk[i + 1..] + rest);
      }
      assert chk[|chk|..] + rest == rest;
      panicked := false;
    }

    /** Pops the rows that the first load has in excess of the limit. */
    method PopExcess()
      requires Working() && HeapOK()
      modifies this`rowPtrs, this`dropped
      ensures Working() && HeapOK() && |rowPtrs| <= totalLimit
    {
      hide Partition, Flatten, Le, HeapFrom, NonEmptyChunks;
      while |rowPtrs| > totalLimit
        invariant Working() && HeapOK()
        decreases |rowPtrs|
      {
        ghost var kept := RowsAt(rowChunks, rowPtrs);
        KeptBelowTop(desc, kept);
        var heap := HeapPop(desc, rowChunks, rowPtrs);
        DropGreatest(desc, kept, RowsAt(rowChunks, heap), kept[0], dropped, Flatten(child), input);
        rowPtrs := heap;
        dropped := dropped + [kept[0]];
      }
    }

    /** Reads one more chunk, and compacts the chunks when most of their rows are dropped. */
    method ProcessNext(full: nat -> bool) returns (panicked: bool)
      requires Working() && HeapOK() && |rowPtrs| <= totalLimit && child != []
      modifies this`child, this`rowChunks, this`rowPtrs, this`dropped
      ensures panicked <==> totalLimit == 0
      ensures !panicked ==> Working() && HeapOK() && |rowPtrs| <= totalLimit && child == old(child)[1..]
      ensures !panicked ==> Total(rowChunks) <= 4 * |rowPtrs|
    {
      hide Partition, Le, HeapFrom, Flatten, Total, TotalLimit;
      var chk := child[0];
      FlattenHead(child);
      assert forall k :: 0 <= k < |child[1..]| ==> child[1..][k] == child[k + 1];
      child := child[1..];
      panicked := ProcessChildChk(chk, full);
      if panicked { return; }
      if Total(rowChunks) > |rowPtrs| * COMPACTION_FACTOR {
        var chunks, ptrs := DoCompaction(rowChunks, rowPtrs, full);
        assert |RowsAt(chunks, ptrs)| == |RowsAt(rowChunks, rowPtrs)|;
        rowChunks, rowPtrs := chunks, ptrs;
      }
    }

    method SortKept()
      requires Working() && |rowPtrs| <= totalLimit && child == []
      modifies this`rowPtrs, this`sorted
      ensures AllInRange(rowChunks, rowPtrs) && SortedRows(desc, sorted) && multiset(sorted) == multiset(input)
      ensures RowsAt(rowChunks, rowPtrs) == sorted[..AtMost(totalLimit, |sorted|)]
    {
      hide Partition, Le, SortedRows, SortSlice, TotalLimit;
      SortSliceSorts(desc, rowChunks, rowPtrs);
      var slice := SortSlice(desc, rowChunks, rowPtrs);
      PermuteKept(desc, RowsAt(rowChunks, rowPtrs), RowsAt(rowChunks, slice), dropped, Flatten(child), input);
      assert |RowsAt(rowChunks, slice)| == |slice|;
      rowPtrs := slice;
      sorted := SortedPrefix(desc, RowsAt(rowChunks, rowPtrs), dropped, input);
    }

    method ExecuteTopN(full: nat -> bool) returns (panicked: bool)
      requires Working()
      modifies this`child, this`rowChunks, this`rowPtrs, this`dropped, this`sorted
      ensures panicked <==> totalLimit == 0 && old(child) != []
      ensures !panicked ==>
          AllInRange(rowChunks, rowPtrs) && SortedRows(desc, sorted) && multiset(sorted) == multiset(input)
      ensures !panicked ==> RowsAt(rowChunks, rowPtrs) == sorted[..AtMost(totalLimit, |sorted|)]
      ensures !panicked ==> child == []
    {
      hide Partition, Le, HeapFrom, SortedRows, Flatten, TotalLimit;
      var heap := HeapInit(desc, rowChunks, rowPtrs);
      PermuteKept(desc, RowsAt(rowChunks, rowPtrs), RowsAt(rowChunks, heap), dropped, Flatten(child), input);
      rowPtrs := heap;
      PopExcess();
      while child != []
        invariant Working() && HeapOK() && |rowPtrs| <= totalLimit
        invariant child == old(child) || totalLimit > 0
        decreases |child|
      {
        panicked := ProcessNext(full);
        if panicked { return; }
      }
      SortKept();
      panicked := false;
    }

    /** The first call reads the whole child. */
    method Fetch(full: nat -> bool) returns (panicked: bool)
      requires Valid() && !fetched
      modifies this
      ensures Limits() && input == old(input) && idx == ToInt(offset)
      ensures panicked <==> TotalLimit(offset, count) == 0 && old(child) != []
      ensures !panicked ==> NonEmptyChunks(child) && AllInRange(rowChunks, rowPtrs)
      ensures !panicked ==> SortedRows(desc, sorted) && multiset(sorted) == multiset(input)
      ensures !panicked ==> RowsAt(rowChunks, rowPtrs) == sorted[..AtMost(TotalLimit(offset, count), |sorted|)]
    {
      hide SortedRows, Flatten;
      totalLimit := TotalLimit(offset, count);
      idx := ToInt(offset);
      LoadChunksUntilTotalLimit();
      panicked := ExecuteTopN(full);
    }

    /** Returns the next rows, at most as many as fit. A negative cursor is below the number of
        rows and indexes them out of range. */
    method Next(capacity: nat, full: nat -> bool) returns (panicked: bool, req: seq<KeyedRow>)
      requires Valid() && capacity >= 1
      modifies this
      ensures panicked <==>
          !old(fetched) && (offset >= INT64_LIMIT || (TotalLimit(offset, count) == 0 && old(child) != []))
      ensures !panicked ==> Valid() && fetched && input == old(input) && (old(fetched) ==> sorted == old(sorted))
      ensures !panicked ==> idx == (if old(fetched) then old(idx) else offset) + |req| && |req| <= capacity
      ensures !panicked ==> Slice(sorted, offset, idx - offset) == Slice(sorted, offset, idx - |req| - offset) + req
      ensures !panicked && req == [] ==>
          Slice(sorted, offset, Past(offset, count)) == Slice(sorted, offset, idx - offset)
      ensures !panicked ==> offset <= idx <= offset + Past(offset, count)
    {
      hide SortedRows, Flatten, NonEmptyChunks, Slice, RowsAt, AllInRange, TotalLimit;
      req := [];
      if !fetched {
        panicked := Fetch(full);
        if panicked { return; }
        fetched := true;
      }
      if idx >= |rowPtrs| {
        panicked := false;
      } else if idx < 0 {
        return true, [];
      } else {
        req := EmitRows(rowChunks, rowPtrs, idx, capacity);
        panicked := false;
      }
      ghost var from := idx;
      idx := idx + |req|;
      RowsAtLength(rowChunks, rowPtrs);
      Emitted(RowsAt(rowChunks, rowPtrs), sorted, AtMost(TotalLimit(offset, count), |sorted|), from, idx, req);
      SliceGrows(sorted, offset, Past(offset, count), from, idx);
    }
  }

  /** The rows from position 'i' on, up to the capacity. */
  method EmitRows(chunks: seq<seq<KeyedRow>>, ptrs: seq<RowPtr>, i: nat, capacity: nat) returns (req: seq<KeyedRow>)
    requires AllInRange(chunks, ptrs)
    ensures i >= |ptrs| ==> req == []
    ensures i < |ptrs| ==>
        |req| == (if |ptrs| - i < capacity then |ptrs| - i else capacity) && req == RowsAt(chunks, ptrs)[i..i + |req|]
  {
    req := [];
    var idx := i;
    while |req| < capacity && idx < |ptrs|
      invariant i <= idx && (idx == i || idx <= |ptrs|) && |req| == idx - i <= capacity
      invariant i < |ptrs| ==> req == RowsAt(chunks, ptrs)[i..idx]
    {
      assert RowAt(chunks, ptrs[idx]) == RowsAt(chunks, ptrs)[idx];
      req := req + [RowAt(chunks, ptrs[idx])];
      idx := idx + 1;
    }
  }

  lemma RowsAtLength(chunks: seq<seq<KeyedRow>>, ptrs: seq<RowPtr>)
    requires AllInRange(chunks, ptrs)
    ensures |RowsAt(chunks, ptrs)| == |ptrs|
  {
  }

  lemma Emitted(rows: seq<KeyedRow>, sorted: seq<KeyedRow>, limit: nat, from: nat, to: nat, req: seq<KeyedRow>)
    requires limit <= |sorted| && rows == sorted[..limit] && from <= to && |req| == to - from
    requires from >= limit ==> req == []
    requires from < limit ==> to <= limit && req == rows[from..to]
    ensures req == if from < to then sorted[from..to] else []
  {
    if from < to {
      assert sorted[..limit][from..to] == sorted[from..to];
    }
  }

  lemma SliceGrows(sorted: seq<KeyedRow>, offset: nat, count: nat, from: nat, to: nat)
    requires offset <= from <= to
    requires to == from || (to <= |sorted| && to <= offset + count)
    ensures Slice(sorted, offset, to - offset) == Slice(sorted, offset, from - offset) + if from < to
        then sorted[from..to] else []
    ensures to >= |sorted| || to >= offset + count ==>
              from == offset || (from <= |sorted| && from <= offset + count) ==>
                Slice(sorted, offset, count) == Slice(sorted, offset, to - offset)
  {
  }

  lemma NothingDropped(desc: seq<bool>, kept: seq<KeyedRow>, rest: seq<KeyedRow>, input: seq<KeyedRow>)
    requires kept + rest == input
    ensures Partition(desc, kept, [], rest, input)
  {
  }

  lemma FlattenHead(chunks: seq<seq<KeyedRow>>)
    requires chunks != []
    ensures Flatten(chunks) == chunks[0] + Flatten(chunks[1..])
  {
  }

  /** Takes chunks until they hold the limit or the child has no more. */
  method LoadChunks(child: seq<seq<KeyedRow>>, limit: nat)
    returns (chunks: seq<seq<KeyedRow>>, rest: seq<seq<KeyedRow>>)
    requires NonEmptyChunks(child)
    ensures NonEmptyChunks(rest) && Flatten(chunks) + Flatten(rest) == Flatten(child)
    ensures rest == [] || |Flatten(chunks)| >= limit
    ensures limit == 0 ==> rest == child
  {
    hide Flatten, Total;
    chunks, rest := [], child;
    FlattenNothing(child);
    while Total(chunks) < limit
      invariant NonEmptyChunks(rest) && Flatten(chunks) + Flatten(rest) == Flatten(child)
      invariant limit == 0 ==> rest == child
      decreases |rest|
    {
      if rest == [] {
        break;
      }
      LoadStep(chunks, rest);
      chunks, rest := chunks + [rest[0]], rest[1..];
    }
    TotalIsLength(chunks);
  }

  lemma FlattenNothing(child: seq<seq<KeyedRow>>)
    ensures Flatten([]) + Flatten(child) == Flatten(child)
  {
  }

  lemma LoadStep(chunks: seq<seq<KeyedRow>>, rest: seq<seq<KeyedRow>>)
    requires rest != [] && NonEmptyChunks(rest)
    ensures Flatten(chunks + [rest[0]]) + Flatten(rest[1..]) == Flatten(chunks) + Flatten(rest) &&
            NonEmptyChunks(rest[1..])
  {
    FlattenAppend(chunks, [rest[0]]);
    FlattenHead(rest);
    hide Flatten;
    var a, b, c := Flatten(chunks), rest[0], Flatten(rest[1..]);
    assert (a + b) + c == a + (b + c);
  }

  lemma KeptBelowTop(desc: seq<bool>, kept: seq<KeyedRow>)
    requires kept != [] && HeapFrom(desc, kept, 0, |kept|)
    ensures forall r :: r in kept ==> Le(desc, r, kept[0])
  {
    forall r | r in kept ensures Le(desc, r, kept[0]) {
      var k :| 0 <= k < |kept| && kept[k] == r;
      HeapMax(desc, kept, |kept|, k);
    }
  }

  lemma ReplaceTop(desc: seq<bool>, chunks: seq<seq<KeyedRow>>, longer: seq<seq<KeyedRow>>, ptrs: seq<RowPtr>,
                   ptr: RowPtr, row: KeyedRow)
    requires AllInRange(chunks, ptrs) && ptrs != [] && InRange(longer, ptr) && RowAt(longer, ptr) == row
    requires forall p :: InRange(chunks, p) ==> InRange(longer, p) && RowAt(longer, p) == RowAt(chunks, p)
    requires HeapFrom(desc, RowsAt(chunks, ptrs), 0, |ptrs|)
    ensures AllInRange(longer, ptrs[0 := ptr]) && RowsAt(longer, ptrs[0 := ptr]) == RowsAt(chunks, ptrs)[0 := row]
    ensures HeapFrom(desc, RowsAt(longer, ptrs[0 := ptr]), 1, |ptrs|)
  {
    hide Le;
    assert RowsAt(longer, ptrs[0 := ptr]) == RowsAt(chunks, ptrs)[0 := row];
  }

  /** When the wanted slice of so many rows is returned: the cursor is not negative, and the sum
      of offset and count neither is zero nor wraps around, unless there is nothing to return. */
  predicate Served(offset: nat, count: nat, rows: nat) {
    && offset < INT64_LIMIT
    && (|| 1 <= offset + count < UINT64
        || rows == 0
        || (offset + count > UINT64 && rows <= offset))
  }

  /** Only offsets below 2^63 and sums from 1 up to 2^64 - 1 serve every child. */
  lemma ServesEveryChild(offset: nat, count: nat)
    requires offset < UINT64 && count < UINT64
    ensures (forall child :: NonEmptyChunks(child) ==> Served(offset, count, |Flatten(child)|))
            <==> 1 <= offset + count < 0x1_0000_0000_0000_0000 && offset < 0x8000_0000_0000_0000
  {
    if forall child :: NonEmptyChunks(child) ==> Served(offset, count, |Flatten(child)|) {
      var chunk := seq(offset + 1, k => KeyedRow([], 0));
      assert NonEmptyChunks([chunk]);
      assert [chunk][1..] == [] && Flatten([chunk]) == chunk + Flatten([]);
    }
  }

  /** All rows returned until the first empty result, for any chunking of the child and any
      capacities, are the wanted slice of a sort of the child's rows, exactly when the offset
      and the count allow it; otherwise the executor panics or returns nothing. */
  method Drain(desc: seq<bool>, offset: nat, count: nat, child: seq<seq<KeyedRow>>, capacity: nat -> nat,
               full: nat -> bool)
    returns (out: Option<seq<KeyedRow>>)
    requires offset < UINT64 && count < UINT64 && NonEmptyChunks(child)
    requires forall n :: capacity(n) >= 1
    ensures out.Some? && IsSlice(desc, Flatten(child), offset, count, out.value) <==>
        Served(offset, count, |Flatten(child)|)
    ensures out.None? <==> offset >= INT64_LIMIT || (TotalLimit(offset, count) == 0 && child != [])
    ensures out.Some? && !Served(offset, count, |Flatten(child)|) ==> out.value == []
  {
    hide Flatten, SortedRows, NonEmptyChunks, Slice, TopNExec.Done, TotalLimit, IsSlice;
    var e := new TopNExec(desc, offset, count, child);
    var calls := 1;
    var panicked, req := e.Next(capacity(0), full);
    ChildEmpty(child);
    LimitWraps(offset, count);
    if panicked { return None; }
    var rows := req;
    EmptySlice(e.sorted, offset);
    while req != []
      invariant fresh(e) && e.Valid() && e.fetched && e.input == Flatten(child) && e.desc == desc &&
                e.offset == offset && e.count == count
      invariant offset <= e.idx <= offset + Past(offset, count)
      invariant rows == Slice(e.sorted, offset, e.idx - offset)
      invariant req == [] ==> rows == Slice(e.sorted, offset, Past(offset, count))
      decreases req != [], offset + Past(offset, count) - e.idx
    {
      panicked, req := e.Next(capacity(calls), full);
      rows := rows + req;
      calls := calls + 1;
    }
    e.SortsInput();
    SliceExactly(desc, Flatten(child), offset, count, e.sorted);
    out := Some(rows);
  }

  lemma ChildEmpty(child: seq<seq<KeyedRow>>)
    requires NonEmptyChunks(child)
    ensures |Flatten(child)| == 0 <==> child == []
  {
  }

  /** The rows past the offset that were kept are the wanted slice exactly when the sum does not
      wrap around or no row lies past the offset. */
  lemma SliceExactly(desc: seq<bool>, input: seq<KeyedRow>, offset: nat, count: nat, sorted: seq<KeyedRow>)
    requires offset < UINT64 && count < UINT64 && SortedRows(desc, sorted) && multiset(sorted) == multiset(input)
    ensures var rows := Slice(sorted, offset, Past(offset, count));
            && (IsSlice(desc, input, offset, count, rows) <==> offset + count < UINT64 || |input| <= offset)
            && (offset + count >= UINT64 ==> rows == [])
  {
    LimitWraps(offset, count);
    OrderedMeaning(desc, sorted);
    hide TotalLimit, SortedRows, Ordered;
    SameLength(sorted, input);
    if offset + count >= UINT64 && |input| > offset {
      forall other: seq<KeyedRow> | multiset(other) == multiset(input) ensures Slice(other, offset, count) != [] {
        SameLength(other, input);
      }
    }
  }

  lemma SameLength(a: seq<KeyedRow>, b: seq<KeyedRow>)
    requires multiset(a) == multiset(b)
    ensures |a| == |b|
  {
    assert |multiset(a)| == |a| && |multiset(b)| == |b|;
  }

  /** An offset of 2^63 panics even without rows. */
  method NegativeCursorPanics(capacity: nat -> nat, full: nat -> bool) returns (out: Option<seq<KeyedRow>>)
    requires forall n :: capacity(n) >= 1
    ensures out.None?
  {
    out := Drain([], INT64_LIMIT, 1, [], capacity, full);
  }

  /** A limit without rows panics on the first row. */
  method ZeroLimitPanics(row: KeyedRow, capacity: nat -> nat, full: nat -> bool) returns (out: Option<seq<KeyedRow>>)
    requires forall n :: capacity(n) >= 1
    ensures out.None?
  {
    out := Drain([], 0, 0, [[row]], capacity, full);
  }

  /** With offset 2 and count 2^64 - 1 the third of three rows is lost. */
  method WrappedLimitLosesRow(row: KeyedRow, capacity: nat -> nat, full: nat -> bool)
    returns (out: Option<seq<KeyedRow>>)
    requires forall n :: capacity(n) >= 1
    ensures out == Some([]) && !IsSlice([], [row, row, row], 2, UINT64 - 1, [])
  {
    var child := [[row, row, row]];
    assert child[1..] == [] && Flatten(child) == [row, row, row];
    out := Drain([], 2, UINT64 - 1, child, capacity, full);
  }

  lemma EmptySlice(sorted: seq<KeyedRow>, offset: nat)
    ensures Slice(sorted, offset, 0) == []
  {
  }
}
