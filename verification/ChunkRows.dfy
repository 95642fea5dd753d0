/** Rows with a sort or join key, kept in chunks and named by pointers into them. */
module ChunkRows {
  import opened Expressions

  datatype KeyedRow = KeyedRow(key: seq<Value>, payload: int)

  // ---------- join keys ----------

  function CompareValue(a: Value, b: Value): int {
    if a.Null? && b.Null? then 0
    else if a.Null? then -1
    else if b.Null? then 1
    else if a.v < b.v then -1 else if a.v > b.v then 1 else 0
  }

  /** Compares two keys column by column; NULL sorts first. */
  function Compare(a: seq<Value>, b: seq<Value>): int
    requires |a| == |b|
  {
    if a == [] then 0
    else if CompareValue(a[0], b[0]) != 0 then CompareValue(a[0], b[0])
    else Compare(a[1..], b[1..])
  }

  /** NULL is smaller than every number. */
  predicate Smaller(a: Value, b: Value) {
    b.Int? && (a.Null? || a.v < b.v)
  }

  /** The first column in which the keys differ decides. */
  lemma {:induction false} CompareMeaning(a: seq<Value>, b: seq<Value>)
    requires |a| == |b|
    ensures Compare(a, b) < 0 <==> exists i :: 0 <= i < |a| && a[..i] == b[..i] && Smaller(a[i], b[i])
  {
    if a != [] {
      CompareMeaning(a[1..], b[1..]);
      if Compare(a, b) < 0 && a[0] == b[0] {
        var i :| 0 <= i < |a[1..]| && a[1..][..i] == b[1..][..i] && Smaller(a[1..][i], b[1..][i]);
        assert a[..i + 1] == [a[0]] + a[1..][..i] && b[..i + 1] == [b[0]] + b[1..][..i];
        assert Smaller(a[i + 1], b[i + 1]);
      } else if Compare(a, b) < 0 {
        assert a[..0] == b[..0] && Smaller(a[0], b[0]);
      }
      if i :| 0 <= i < |a| && a[..i] == b[..i] && Smaller(a[i], b[i]) {
        if i > 0 {
          assert a[0] == a[..i][0] && b[0] == b[..i][0];
          assert a[1..][..i - 1] == a[..i][1..] && b[1..][..i - 1] == b[..i][1..];
          assert Smaller(a[1..][i - 1], b[1..][i - 1]);
        }
      }
    }
  }

  lemma {:induction false} CompareOrder(a: seq<Value>, b: seq<Value>)
    requires |a| == |b|
    ensures Compare(a, b) == 0 <==> a == b
    ensures Compare(a, b) < 0 <==> Compare(b, a) > 0
  {
    if a != [] {
      CompareOrder(a[1..], b[1..]);
      assert a == [a[0]] + a[1..] && b == [b[0]] + b[1..];
    }
  }

  lemma {:induction false} CompareTransitive(a: seq<Value>, b: seq<Value>, c: seq<Value>)
    requires |a| == |b| == |c| && Compare(a, b) <= 0 && Compare(b, c) <= 0
    ensures Compare(a, c) <= 0
    ensures Compare(a, b) < 0 || Compare(b, c) < 0 ==> Compare(a, c) < 0
  {
    if a != [] && CompareValue(a[0], b[0]) == 0 && CompareValue(b[0], c[0]) == 0 {
      CompareTransitive(a[1..], b[1..], c[1..]);
    }
  }

  predicate HasNull(key: seq<Value>) {
    Null in key
  }

  ghost predicate Width(rows: seq<KeyedRow>, w: nat) {
    forall k :: 0 <= k < |rows| ==> |rows[k].key| == w
  }

  ghost predicate Sorted(rows: seq<KeyedRow>, w: nat)
    requires Width(rows, w)
  {
    forall i, j :: 0 <= i < j < |rows| ==> Compare(rows[i].key, rows[j].key) <= 0
  }

  // ---------- rows of a sequence of chunks ----------

  function Flatten(chunks: seq<seq<KeyedRow>>): seq<KeyedRow> {
    if chunks == [] then [] else chunks[0] + Flatten(chunks[1..])
  }

  lemma {:induction false} FlattenAppend(a: seq<seq<KeyedRow>>, b: seq<seq<KeyedRow>>)
    ensures Flatten(a + b) == Flatten(a) + Flatten(b)
    ensures |b| == 1 ==> Flatten(b) == b[0]
  {
    if a == [] {
      assert a + b == b;
    } else {
      assert (a + b)[0] == a[0] && (a + b)[1..] == a[1..] + b;
      FlattenAppend(a[1..], b);
    }
  }

  function WithoutNulls(rows: seq<KeyedRow>): seq<KeyedRow> {
    if rows == [] then []
    else (if HasNull(rows[0].key) then [] else [rows[0]]) + WithoutNulls(rows[1..])
  }

  ghost predicate NonEmptyChunks(chunks: seq<seq<KeyedRow>>) {
    forall k :: 0 <= k < |chunks| ==> chunks[k] != []
  }

  datatype RowPtr = RowPtr(chk: nat, idx: nat)

  predicate InRange(chunks: seq<seq<KeyedRow>>, p: RowPtr) {
    p.chk < |chunks| && p.idx < |chunks[p.chk]|
  }

  function RowAt(chunks: seq<seq<KeyedRow>>, p: RowPtr): KeyedRow
    requires InRange(chunks, p)
  {
    chunks[p.chk][p.idx]
  }

  ghost predicate AllInRange(chunks: seq<seq<KeyedRow>>, ps: seq<RowPtr>) {
    forall k :: 0 <= k < |ps| ==> InRange(chunks, ps[k])
  }

  ghost function RowsAt(chunks: seq<seq<KeyedRow>>, ps: seq<RowPtr>): seq<KeyedRow>
    requires AllInRange(chunks, ps)
  {
    seq(|ps|, k requires 0 <= k < |ps| => RowAt(chunks, ps[k]))
  }
}
