/** Vectorized filters: AND, OR, NOT, IS NULL and integer IN evaluated column by column into
    buffers from a ring allocator, and the filter that narrows a selection vector in place. */
module VecEval {
  import opened Expressions

  // ---------- expressions, row by row ----------

  /** An integer expression. IN carries the unsigned flags of its operand and of its list. */
  datatype IntExpr =
    | Constant(v: Value)
    | ColumnRef(index: nat)
    | And(l: IntExpr, r: IntExpr)
    | Or(l: IntExpr, r: IntExpr)
    | Not(e: IntExpr)
    | IsNullOf(e: IntExpr)
    | InList(e: IntExpr, list: seq<IntExpr>, unsigned0: bool, unsigned: seq<bool>)

  /** What the argument checks of the builtins and the planner guarantee. */
  predicate WellFormed(e: IntExpr) {
    match e
    case Constant(_) => true
    case ColumnRef(_) => true
    case And(l, r) => WellFormed(l) && WellFormed(r)
    case Or(l, r) => WellFormed(l) && WellFormed(r)
    case Not(a) => WellFormed(a)
    case IsNullOf(a) => WellFormed(a)
    case InList(a, list, _, unsigned) =>
      WellFormed(a) && list != [] && |unsigned| == |list| && forall i :: 0 <= i < |list| ==> WellFormed(list[i])
  }

  type DataRow = seq<Value>

  function Cell(row: DataRow, i: nat): Value {
    if i < |row| then row[i] else Null
  }

  /** Equality of two integers of which a negative one is a large unsigned number or not. */
  predicate SameInteger(unsigned0: bool, unsigned: bool, a: int, b: int) {
    a == b && (unsigned0 == unsigned || a >= 0)
  }

  function EvalInt(e: IntExpr, row: DataRow): Value
    requires WellFormed(e)
  {
    match e
    case Constant(v) => v
    case ColumnRef(i) => Cell(row, i)
    case And(l, r) => AndValue(EvalInt(l, row), EvalInt(r, row))
    case Or(l, r) => OrValue(EvalInt(l, row), EvalInt(r, row))
    case Not(a) => NotValue(EvalInt(a, row))
    case IsNullOf(a) => IsNullValue(EvalInt(a, row))
    case InList(a, list, unsigned0, unsigned) =>
      InValue(EvalInt(a, row), seq(|list|, i requires 0 <= i < |list| => EvalInt(list[i], row)), unsigned0, unsigned)
  }

  /** The logical functions mean what they mean in conditions; no other builtin is used. */
  function Builtins(name: string, vals: seq<Value>): Value {
    Null
  }

  function AndValue(a: Value, b: Value): (r: Value)
    ensures r == if a == Int(0) || b == Int(0) then Int(0) else if a.Null? || b.Null? then Null else Int(1)
  {
    assert [a, b][0] == a && [a, b][1] == b;
    Apply(Builtins, LogicAnd, [a, b])
  }

  function OrValue(a: Value, b: Value): (r: Value)
    ensures r == if IsTrue(a) || IsTrue(b) then Int(1) else if a.Null? || b.Null? then Null else Int(0)
  {
    assert [a, b][0] == a && [a, b][1] == b;
    Apply(Builtins, LogicOr, [a, b])
  }

  function NotValue(a: Value): (r: Value)
    ensures r == if a.Null? then Null else if a == Int(0) then Int(1) else Int(0)
  {
    Apply(Builtins, UnaryNot, [a])
  }

  function IsNullValue(a: Value): (r: Value)
    ensures r == if a.Null? then Int(1) else Int(0)
  {
    Apply(Builtins, IsNull, [a])
  }

  /** A match wins over NULL items, and they over a miss. */
  function InValue(v: Value, items: seq<Value>, unsigned0: bool, unsigned: seq<bool>): Value
    requires |unsigned| == |items|
  {
    if v.Null? then Null
    else if exists i :: 0 <= i < |items| && MatchesItem(v.v, items[i], unsigned0, unsigned[i]) then Int(1)
    else if Null in items then Null
    else Int(0)
  }

  /** The number that 64 bits stand for, read with or without a sign. */
  function Number(unsigned: bool, v: int): int {
    if unsigned && v < 0 then v + 0x1_0000_0000_0000_0000 else v
  }

  predicate Is64Bit(v: int) {
    -0x8000_0000_0000_0000 <= v < 0x8000_0000_0000_0000
  }

  lemma SameIntegerMeaning(unsigned0: bool, unsigned: bool, a: int, b: int)
    requires Is64Bit(a) && Is64Bit(b)
    ensures SameInteger(unsigned0, unsigned, a, b) <==> Number(unsigned0, a) == Number(unsigned, b)
  {
  }

  /** IN is true when an item is the same number, NULL when the operand is or, without such an
      item, when some item is, and false otherwise. */
  lemma InMeaning(v: Value, items: seq<Value>, unsigned0: bool, unsigned: seq<bool>)
    requires |unsigned| == |items| && (v.Int? ==> Is64Bit(v.v))
    requires forall i :: 0 <= i < |items| && items[i].Int? ==> Is64Bit(items[i].v)
    ensures var found := v.Int? && exists i ::
              0 <= i < |items| && items[i].Int? && Number(unsigned[i], items[i].v) == Number(unsigned0, v.v);
            && (InValue(v, items, unsigned0, unsigned) == Int(1) <==> found)
            && (InValue(v, items, unsigned0, unsigned) == Null <==> v == Null || (!found && Null in items))
            && InValue(v, items, unsigned0, unsigned) in {Int(1), Int(0), Null}
  {
    if v.Int? {
      forall i | 0 <= i < |items| && items[i].Int?
        ensures MatchesItem(v.v, items[i], unsigned0, unsigned[i]) <==>
                  Number(unsigned[i], items[i].v) == Number(unsigned0, v.v)
      {
        SameIntegerMeaning(unsigned0, unsigned[i], v.v, items[i].v);
      }
    }
  }

  /** The row form of IN. */
  method EvalIn(v: Value, items: seq<Value>, unsigned0: bool, unsigned: seq<bool>) returns (r: Value)
    requires |unsigned| == |items|
    ensures r == InValue(v, items, unsigned0, unsigned)
  {
    if v.Null? {
      return Null;
    }
    var hasNull := false;
    for i := 0 to |items|
      invariant hasNull <==> Null in items[..i]
      invariant forall k :: 0 <= k < i ==> !MatchesItem(v.v, items[k], unsigned0, unsigned[k])
    {
      if items[i].Null? {
        hasNull := true;
        continue;
      }
      if SameInteger(unsigned0, unsigned[i], v.v, items[i].v) {
        assert MatchesItem(v.v, items[i], unsigned0, unsigned[i]);
        return Int(1);
      }
    }
    assert items[..|items|] == items;
    return if hasNull then Null else Int(0);
  }

  predicate MatchesItem(v: int, item: Value, unsigned0: bool, unsigned: bool) {
    item.Int? && SameInteger(unsigned0, unsigned, v, item.v)
  }

  /** True when no filter is NULL or zero. */
  method EvalBool(filters: seq<IntExpr>, row: DataRow) returns (pass: bool)
    requires forall k :: 0 <= k < |filters| ==> WellFormed(filters[k])
    ensures pass <==> Passes(filters, row)
  {
    for i := 0 to |filters|
      invariant forall k :: 0 <= k < i ==> IsTrue(EvalInt(filters[k], row))
    {
      var data := EvalInt(filters[i], row);
      if data.Null? {
        return false;
      }
      if data.v == 0 {
        return false;
      }
    }
    return true;
  }

  predicate Passes(filters: seq<IntExpr>, row: DataRow)
    requires forall k :: 0 <= k < |filters| ==> WellFormed(filters[k])
  {
    forall k :: 0 <= k < |filters| ==> IsTrue(EvalInt(filters[k], row))
  }

  // ---------- columns and their allocator ----------

  class Column {
    var i64s: seq<int>
    var nulls: seq<bool>

    constructor ()
      ensures i64s == [] && nulls == []
    {
      i64s, nulls := [], [];
    }

    function At(i: nat): Value
      reads this
      requires i < |i64s| && i < |nulls|
    {
      if nulls[i] then Null else Int(i64s[i])
    }
  }

  /** The slot 'i' places after 'head' in a ring. */
  function Slot(head: nat, i: nat, len: nat): nat
    requires head < len && i <= len
  {
    if head + i < len then head + i else head + i - len
  }

  ghost predicate Distinct(cols: seq<Column>) {
    forall i, j :: 0 <= i < j < |cols| ==> cols[i] != cols[j]
  }

  /** From 'head' on, round the end, the ring holds the free columns. */
  ghost predicate Ring(buffers: seq<Column?>, head: nat, free: seq<Column>)
    requires head < |buffers| && |free| <= |buffers|
  {
    forall i :: 0 <= i < |free| ==> buffers[Slot(head, i, |buffers|)] == free[i]
  }

  lemma RingPop(buffers: seq<Column?>, head: nat, free: seq<Column>)
    requires head < |buffers| && 0 < |free| <= |buffers| && Ring(buffers, head, free)
    ensures buffers[head] == free[0] && Ring(buffers, if head + 1 == |buffers| then 0 else head + 1, free[1..])
  {
    assert buffers[Slot(head, 0, |buffers|)] == free[0];
    var head' := if head + 1 == |buffers| then 0 else head + 1;
    forall i | 0 <= i < |free| - 1 ensures buffers[Slot(head', i, |buffers|)] == free[1..][i] {
      assert Slot(head', i, |buffers|) == Slot(head, i + 1, |buffers|);
    }
  }

  lemma RingPush(buffers: seq<Column?>, head: nat, free: seq<Column>, buf: Column)
    requires head < |buffers| && |free| < |buffers| && Ring(buffers, head, free)
    ensures Ring(buffers[Slot(head, |free|, |buffers|) := buf], head, free + [buf])
  {
  }

  lemma RingGrow(buffers: seq<Column?>, head: nat, free: seq<Column>, spare: seq<Column?>)
    requires head < |buffers| && |free| == |buffers| && Ring(buffers, head, free)
    ensures Ring(buffers[head..] + buffers[..head] + spare, 0, free)
  {
    var grown := buffers[head..] + buffers[..head] + spare;
    forall i | 0 <= i < |free| ensures grown[i] == free[i] {
      assert grown[i] == buffers[Slot(head, i, |buffers|)];
    }
  }

  class LocalSliceBuffer {
    var buffers: seq<Column?>
    var head: nat
    var tail: nat
    var size: nat
    /** The released buffers, in the order they will be handed out again. */
    ghost var free: seq<Column>
    ghost var freed: set<Column>

    ghost predicate Valid()
      reads this
    {
      && size <= |buffers| && head < |buffers| && tail == Slot(head, size, |buffers|)
      && |free| == size && Distinct(free) && Ring(buffers, head, free) && freed == (set c | c in free)
    }

    constructor (initCap: nat)
      requires initCap >= 1
      ensures Valid() && free == [] && freed == {}
    {
      buffers, head, tail, size, free, freed := seq(initCap, _ => null), 0, 0, 0, [], {};
    }

    method Get() returns (buf: Column)
      requires Valid()
      modifies this
      ensures Valid() && buf !in free && buf !in freed
      ensures if old(free) == [] then fresh(buf) && free == [] else buf == old(free)[0] && free == old(free)[1..]
      ensures (buf in old(freed) || fresh(buf)) && freed == old(freed) - {buf}
    {
      hide Ring;
      if size > 0 {
        RingPop(buffers, head, free);
        buf := buffers[head];
        head := head + 1;
        if head == |buffers| {
          head := 0;
        }
        size := size - 1;
        freed := freed - {buf};
        free := free[1..];
        return;
      }
      buf := new Column();
    }

    method Put(buf: Column)
      requires Valid() && buf !in freed
      modifies this
      ensures Valid() && free == old(free) + [buf]
      ensures freed == old(freed) + {buf}
    {
      hide Ring;
      if size == |buffers| {
        var spare := seq(|buffers|, _ => null);
        RingGrow(buffers, head, free, spare);
        tail, buffers := |buffers|, buffers[head..] + buffers[..tail] + spare;
        head := 0;
      }
      RingPush(buffers, head, free, buf);
      buffers := buffers[tail := buf];
      free, freed := free + [buf], freed + {buf};
      tail := tail + 1;
      if tail == |buffers| {
        tail := 0;
      }
      size := size + 1;
    }
  }

  // ---------- element-wise loops ----------

  ghost predicate Sized(c: Column, n: nat)
    reads c
  {
    |c.i64s| == n && |c.nulls| == n
  }

  method AndInto(result: Column, buf: Column)
    requires result != buf && Sized(result, |result.i64s|) && Sized(buf, |result.i64s|)
    modifies result
    ensures Sized(result, old(|result.i64s|))
    ensures forall i :: 0 <= i < |result.i64s| ==> result.At(i) == AndValue(old(result.At(i)), buf.At(i))
  {
    var i64s, nulls, n := result.i64s, result.nulls, |result.i64s|;
    for i := 0 to n
      invariant |i64s| == n && |nulls| == n
      invariant forall k ::
          0 <= k < i ==> (if nulls[k] then Null else Int(i64s[k])) == AndValue(old(result.At(k)), buf.At(k))
      invariant forall k :: i <= k < n ==> nulls[k] == old(result.nulls[k]) && i64s[k] == old(result.i64s[k])
    {
      var isNull0 := nulls[i];
      if !isNull0 && i64s[i] == 0 {
        nulls := nulls[i := false];
        continue;
      }
      var isNull1 := buf.nulls[i];
      if !isNull1 && buf.i64s[i] == 0 {
        i64s, nulls := i64s[i := 0], nulls[i := false];
        continue;
      }
      if isNull0 || isNull1 {
        nulls := nulls[i := true];
        continue;
      }
      i64s := i64s[i := 1];
    }
    result.i64s, result.nulls := i64s, nulls;
  }

  method OrInto(result: Column, buf: Column)
    requires result != buf && Sized(result, |result.i64s|) && Sized(buf, |result.i64s|)
    modifies result
    ensures Sized(result, old(|result.i64s|))
    ensures forall i :: 0 <= i < |result.i64s| ==> result.At(i) == OrValue(old(result.At(i)), buf.At(i))
  {
    var i64s, nulls, n := result.i64s, result.nulls, |result.i64s|;
    for i := 0 to n
      invariant |i64s| == n && |nulls| == n
      invariant forall k ::
          0 <= k < i ==> (if nulls[k] then Null else Int(i64s[k])) == OrValue(old(result.At(k)), buf.At(k))
      invariant forall k :: i <= k < n ==> nulls[k] == old(result.nulls[k]) && i64s[k] == old(result.i64s[k])
    {
      var isNull0, isNull1 := nulls[i], buf.nulls[i];
      var isNull := false;
      if (!isNull0 && i64s[i] != 0) || (!isNull1 && buf.i64s[i] != 0) {
        i64s := i64s[i := 1];
      } else if isNull0 || isNull1 {
        isNull := true;
      } else {
        i64s := i64s[i := 0];
      }
      if isNull != isNull0 {
        nulls := nulls[i := isNull];
      }
    }
    result.i64s, result.nulls := i64s, nulls;
  }

  method NotInto(result: Column)
    requires Sized(result, |result.i64s|)
    modifies result
    ensures Sized(result, old(|result.i64s|))
    ensures forall i :: 0 <= i < |result.i64s| ==> result.At(i) == NotValue(old(result.At(i)))
  {
    var i64s, nulls, n := result.i64s, result.nulls, |result.i64s|;
    for i := 0 to n
      invariant |i64s| == n
      invariant forall k :: 0 <= k < i ==> (if nulls[k] then Null else Int(i64s[k])) == NotValue(old(result.At(k)))
      invariant forall k :: i <= k < n ==> i64s[k] == old(result.i64s[k])
    {
      if nulls[i] {
        continue;
      }
      i64s := i64s[i := if i64s[i] == 0 then 1 else 0];
    }
    result.i64s := i64s;
  }

  method IsNullInto(result: Column)
    requires Sized(result, |result.i64s|)
    modifies result
    ensures Sized(result, old(|result.i64s|))
    ensures forall i :: 0 <= i < |result.i64s| ==> result.At(i) == IsNullValue(old(result.At(i)))
  {
    var i64s, nulls, n := result.i64s, result.nulls, |result.i64s|;
    for i := 0 to n
      invariant |i64s| == n && |nulls| == n
      invariant forall k :: 0 <= k < i ==> (if nulls[k] then Null else Int(i64s[k])) == IsNullValue(old(result.At(k)))
      invariant forall k :: i <= k < n ==> nulls[k] == old(result.nulls[k])
    {
      if nulls[i] {
        i64s, nulls := i64s[i := 1], nulls[i := false];
      } else {
        i64s := i64s[i := 0];
      }
    }
    result.i64s, result.nulls := i64s, nulls;
  }

  // ---------- expressions, column by column ----------

  ghost predicate Selects(rows: seq<DataRow>, sel: seq<nat>) {
    forall i :: 0 <= i < |sel| ==> sel[i] < |rows|
  }

  /** The column holds the expression's value for each selected row. */
  ghost predicate Holds(c: Column, e: IntExpr, rows: seq<DataRow>, sel: seq<nat>)
    requires WellFormed(e) && Selects(rows, sel)
    reads c
  {
    Sized(c, |sel|) && forall i :: 0 <= i < |sel| ==> c.At(i) == EvalInt(e, rows[sel[i]])
  }

  method FillConstant(result: Column, v: Value, n: nat)
    modifies result
    ensures Sized(result, n) && forall i :: 0 <= i < n ==> result.At(i) == v
  {
    result.nulls := seq(n, _ => v.Null?);
    result.i64s := seq(n, _ => if v.Null? then 0 else v.v);
  }

  method CopySelected(result: Column, index: nat, rows: seq<DataRow>, sel: seq<nat>)
    requires Selects(rows, sel)
    modifies result
    ensures Sized(result, |sel|) && forall i :: 0 <= i < |sel| ==> result.At(i) == Cell(rows[sel[i]], index)
  {
    var i64s: seq<int>, nulls: seq<bool> := [], [];
    for i := 0 to |sel|
      invariant |i64s| == |nulls| == i
      invariant forall k :: 0 <= k < i ==> (if nulls[k] then Null else Int(i64s[k])) == Cell(rows[sel[k]], index)
    {
      var v := Cell(rows[sel[i]], index);
      nulls := nulls + [v.Null?];
      i64s := i64s + [if v.Null? then 0 else v.v];
    }
    result.i64s, result.nulls := i64s, nulls;
  }

  /** Whether one of the first 'j' items matches, and whether one of them or the operand is NULL. */
  ghost predicate InProgress(v: Value, items: seq<Value>, unsigned0: bool, unsigned: seq<bool>, matched: bool,
                             hasNull: bool) {
    && |unsigned| >= |items|
    && (matched <==> v.Int? && exists k :: 0 <= k < |items| && MatchesItem(v.v, items[k], unsigned0, unsigned[k]))
    && (hasNull <==> items != [] && (v.Null? || Null in items))
  }

  lemma InProgressStep(v: Value, items: seq<Value>, unsigned0: bool, unsigned: seq<bool>, matched: bool, hasNull: bool,
                       item: Value)
    requires InProgress(v, items, unsigned0, unsigned, matched, hasNull) && |items| < |unsigned|
    ensures var nullHere := v.Null? || item.Null?;
            InProgress(v, items + [item], unsigned0, unsigned,
                       matched || (!nullHere && SameInteger(unsigned0, unsigned[|items|], v.v, item.v)), hasNull ||
                       nullHere)
  {
    var more := items + [item];
    if matched {
      var k :| 0 <= k < |items| && MatchesItem(v.v, items[k], unsigned0, unsigned[k]);
      assert MatchesItem(v.v, more[k], unsigned0, unsigned[k]);
    }
    assert more[|items|] == item;
    assert Null in more <==> Null in items || item.Null?;
  }

  lemma InProgressEnds(v: Value, items: seq<Value>, unsigned0: bool, unsigned: seq<bool>, matched: bool, hasNull: bool)
    requires InProgress(v, items, unsigned0, unsigned, matched, hasNull) && items != [] && |unsigned| == |items|
    ensures InValue(v, items, unsigned0, unsigned) == if matched then Int(1) else if hasNull then Null else Int(0)
  {
  }

  /** The values of the first 'j' items of a list for a row. */
  ghost function Items(list: seq<IntExpr>, j: nat, row: DataRow): seq<Value>
    requires j <= |list| && forall k :: 0 <= k < |list| ==> WellFormed(list[k])
  {
    seq(j, k requires 0 <= k < j => EvalInt(list[k], row))
  }

  ghost predicate InColumns(e: IntExpr, rows: seq<DataRow>, sel: seq<nat>, j: nat, matched: seq<bool>,
                            hasNull: seq<bool>)
    requires WellFormed(e) && e.InList? && Selects(rows, sel) && j <= |e.list|
  {
    && |matched| == |hasNull| == |sel|
    && forall i :: 0 <= i < |sel| ==>
         InProgress(EvalInt(e.e, rows[sel[i]]), Items(e.list, j, rows[sel[i]]), e.unsigned0, e.unsigned, matched[i],
                    hasNull[i])
  }

  /** One item of the list against the operand, row by row. */
  method InItem(e: IntExpr, rows: seq<DataRow>, sel: seq<nat>, j: nat, buf0: Column, buf1: Column, matched0: seq<bool>,
                hasNull0: seq<bool>)
    returns (matched: seq<bool>, hasNull: seq<bool>)
    requires WellFormed(e) && e.InList? && Selects(rows, sel) && j < |e.list| && buf0 != buf1
    requires Holds(buf0, e.e, rows, sel) && Holds(buf1, e.list[j], rows, sel) &&
             InColumns(e, rows, sel, j, matched0, hasNull0)
    modifies buf1
    ensures Holds(buf0, e.e, rows, sel) && InColumns(e, rows, sel, j + 1, matched, hasNull)
  {
    hide InProgress, Items, EvalInt;
    matched, hasNull := matched0, hasNull0;
    var args0, args1 := buf0.i64s, buf1.i64s;
    ghost var nulls0, nulls1 := buf0.nulls, buf1.nulls;
    MergeNulls(buf1, buf0);
    var nulls := buf1.nulls;
    assert forall i :: 0 <= i < |sel| ==> (if nulls0[i] then Null else Int(args0[i])) == EvalInt(e.e, rows[sel[i]]);
    assert forall i ::
        0 <= i < |sel| ==> (if nulls1[i] then Null else Int(args1[i])) == EvalInt(e.list[j], rows[sel[i]]);
    for i := 0 to |sel|
      invariant |matched| == |hasNull| == |sel|
      invariant forall k :: 0 <= k < i ==>
        InProgress(EvalInt(e.e, rows[sel[k]]), Items(e.list, j + 1, rows[sel[k]]), e.unsigned0, e.unsigned, matched[k],
                   hasNull[k])
      invariant forall k :: i <= k < |sel| ==> matched[k] == matched0[k] && hasNull[k] == hasNull0[k]
    {
      InListStep(e, j, rows[sel[i]], matched[i], hasNull[i]);
      if nulls[i] {
        hasNull := hasNull[i := true];
        continue;
      }
      if SameInteger(e.unsigned0, e.unsigned[j], args0[i], args1[i]) {
        matched := matched[i := true];
      }
    }
  }

  lemma InListStep(e: IntExpr, j: nat, row: DataRow, matched: bool, hasNull: bool)
    requires WellFormed(e) && e.InList? && j < |e.list|
    requires InProgress(EvalInt(e.e, row), Items(e.list, j, row), e.unsigned0, e.unsigned, matched, hasNull)
    ensures var v, item := EvalInt(e.e, row), EvalInt(e.list[j], row);
            var nullHere := v.Null? || item.Null?;
            InProgress(v, Items(e.list, j + 1, row), e.unsigned0, e.unsigned,
                       matched || (!nullHere && SameInteger(e.unsigned0, e.unsigned[j], v.v, item.v)), hasNull ||
                       nullHere)
  {
    InProgressStep(EvalInt(e.e, row), Items(e.list, j, row), e.unsigned0, e.unsigned, matched, hasNull,
                   EvalInt(e.list[j], row));
    assert Items(e.list, j + 1, row) == Items(e.list, j, row) + [EvalInt(e.list[j], row)];
  }

  method MergeNulls(c: Column, other: Column)
    requires c != other && Sized(c, |c.i64s|) && Sized(other, |c.i64s|)
    modifies c`nulls
    ensures |c.nulls| == old(|c.nulls|) && forall i ::
        0 <= i < |c.nulls| ==> c.nulls[i] == (old(c.nulls[i]) || other.nulls[i])
  {
    var nulls, n := c.nulls, |c.nulls|;
    for i := 0 to n
      invariant |nulls| == n
      invariant forall k :: 0 <= k < n ==> nulls[k] == (old(c.nulls[k]) || (k < i && other.nulls[k]))
    {
      nulls := nulls[i := nulls[i] || other.nulls[i]];
    }
    c.nulls := nulls;
  }

  method InFinish(e: IntExpr, rows: seq<DataRow>, sel: seq<nat>, result: Column, matched: seq<bool>, hasNull: seq<bool>)
    requires WellFormed(e) && e.InList? && Selects(rows, sel) && InColumns(e, rows, sel, |e.list|, matched, hasNull)
    modifies result
    ensures Holds(result, e, rows, sel)
  {
    var i64s: seq<int>, nulls: seq<bool> := [], [];
    for i := 0 to |sel|
      invariant |i64s| == |nulls| == i
      invariant forall k :: 0 <= k < i ==> (if nulls[k] then Null else Int(i64s[k])) == EvalInt(e, rows[sel[k]])
    {
      InListEnds(e, rows[sel[i]], matched[i], hasNull[i]);
      i64s := i64s + [if matched[i] then 1 else 0];
      nulls := nulls + [!matched[i] && hasNull[i]];
    }
    result.i64s, result.nulls := i64s, nulls;
  }

  lemma InListEnds(e: IntExpr, row: DataRow, matched: bool, hasNull: bool)
    requires WellFormed(e) && e.InList?
    requires InProgress(EvalInt(e.e, row), Items(e.list, |e.list|, row), e.unsigned0, e.unsigned, matched, hasNull)
    ensures EvalInt(e, row) == if matched then Int(1) else if hasNull then Null else Int(0)
  {
    InProgressEnds(EvalInt(e.e, row), Items(e.list, |e.list|, row), e.unsigned0, e.unsigned, matched, hasNull);
    assert EvalInt(e, row) == InValue(EvalInt(e.e, row), Items(e.list, |e.list|, row), e.unsigned0, e.unsigned);
  }

  /** Evaluates the expression for the selected rows into 'result'. Further buffers come from
      the allocator and go back to it; one in use, here or in a caller, is never handed out. */
  method VecEvalInt(e: IntExpr, rows: seq<DataRow>, sel: seq<nat>, result: Column, alloc: LocalSliceBuffer)
    requires WellFormed(e) && Selects(rows, sel) && alloc.Valid() && result !in alloc.freed
    modifies result, alloc, alloc.freed
    ensures alloc.Valid() && result !in alloc.freed
    ensures fresh(alloc.freed - old(alloc.freed))
    ensures Holds(result, e, rows, sel)
    decreases e, 1
  {
    match e
    case Constant(v) => FillConstant(result, v, |sel|);
    case ColumnRef(index) => CopySelected(result, index, rows, sel);
    case Not(a) =>
      VecEvalInt(a, rows, sel, result, alloc);
      NotInto(result);
    case IsNullOf(a) =>
      VecEvalInt(a, rows, sel, result, alloc);
      IsNullInto(result);
    case And(l, r) =>
      var buf := VecOperands(e, rows, sel, result, alloc);
      AndInto(result, buf);
      alloc.Put(buf);
    case Or(l, r) =>
      var buf := VecOperands(e, rows, sel, result, alloc);
      OrInto(result, buf);
      alloc.Put(buf);
    case InList(_, _, _, _) => VecIn(e, rows, sel, result, alloc);
  }

  /** The left operand in 'result' and the right one in a buffer that is in use. */
  method VecOperands(e: IntExpr, rows: seq<DataRow>, sel: seq<nat>, result: Column, alloc: LocalSliceBuffer)
    returns (buf: Column)
    requires WellFormed(e) && (e.And? || e.Or?) && Selects(rows, sel) && alloc.Valid() && result !in alloc.freed
    modifies result, alloc, alloc.freed
    ensures alloc.Valid() && result !in alloc.freed && buf !in alloc.freed && buf != result
    ensures (buf in old(alloc.freed) || fresh(buf)) && fresh(alloc.freed - old(alloc.freed))
    ensures Holds(result, e.l, rows, sel) && Holds(buf, e.r, rows, sel)
    decreases e, 0
  {
    hide LocalSliceBuffer.Valid, EvalInt;
    VecEvalInt(e.l, rows, sel, result, alloc);
    buf := alloc.Get();
    VecEvalInt(e.r, rows, sel, buf, alloc);
  }

  method VecIn(e: IntExpr, rows: seq<DataRow>, sel: seq<nat>, result: Column, alloc: LocalSliceBuffer)
    requires WellFormed(e) && e.InList? && Selects(rows, sel) && alloc.Valid() && result !in alloc.freed
    modifies result, alloc, alloc.freed
    ensures alloc.Valid() && result !in alloc.freed
    ensures fresh(alloc.freed - old(alloc.freed))
    ensures Holds(result, e, rows, sel)
    decreases e, 0
  {
    hide LocalSliceBuffer.Valid, EvalInt;
    var buf0 := alloc.Get();
    VecEvalInt(e.e, rows, sel, buf0, alloc);
    var buf1 := alloc.Get();
    var matched, hasNull := seq(|sel|, _ => false), seq(|sel|, _ => false);
    assert InColumns(e, rows, sel, 0, matched, hasNull);
    hide InColumns;
    for j := 0 to |e.list|
      invariant alloc.Valid() && result !in alloc.freed && buf0 !in alloc.freed && buf1 !in alloc.freed && buf0 != buf1
      invariant fresh(alloc.freed - old(alloc.freed))
      invariant Holds(buf0, e.e, rows, sel) && InColumns(e, rows, sel, j, matched, hasNull)
    {
      VecEvalInt(e.list[j], rows, sel, buf1, alloc);
      matched, hasNull := InItem(e, rows, sel, j, buf0, buf1, matched, hasNull);
    }
    InFinish(e, rows, sel, result, matched, hasNull);
    alloc.Put(buf1);
    alloc.Put(buf0);
  }

  // ---------- the filter ----------

  /** -1 for NULL, 0 for zero and 1 for any other value; entries past the selection are stale. */
  method ToBool(buf: Column, n: nat, isZero: seq<int>) returns (r: seq<int>)
    requires Sized(buf, n) && n <= |isZero|
    ensures |r| == |isZero| && forall i :: 0 <= i < n ==> r[i] == Sign(buf.At(i))
  {
    r := isZero;
    for i := 0 to n
      invariant |r| == |isZero| && forall k :: 0 <= k < i ==> r[k] == Sign(buf.At(k))
    {
      if buf.nulls[i] {
        r := r[i := -1];
      } else {
        r := r[i := if buf.i64s[i] == 0 then 0 else 1];
      }
    }
  }

  function Sign(v: Value): int {
    if v.Null? then -1 else if v.v == 0 then 0 else 1
  }

  predicate Ascending(sel: seq<nat>) {
    forall i, j :: 0 <= i < j < |sel| ==> sel[i] < sel[j]
  }

  /** The selected rows whose entry is not zero. */
  function Filtered(sel: seq<nat>, isZero: seq<int>): seq<nat>
    requires |sel| <= |isZero|
  {
    if sel == [] then []
    else
      var n := |sel| - 1;
      Filtered(sel[..n], isZero) + if isZero[n] != 0 then [sel[n]] else []
  }

  lemma {:induction false} FilteredMeaning(sel: seq<nat>, isZero: seq<int>, r: nat)
    requires |sel| <= |isZero|
    ensures r in Filtered(sel, isZero) <==> exists i :: 0 <= i < |sel| && sel[i] == r && isZero[i] != 0
  {
    if sel != [] {
      var n := |sel| - 1;
      FilteredMeaning(sel[..n], isZero, r);
      if r in Filtered(sel[..n], isZero) {
        var i :| 0 <= i < n && sel[..n][i] == r && isZero[i] != 0;
        assert sel[i] == r;
      }
      if i :| 0 <= i < |sel| && sel[i] == r && isZero[i] != 0 {
        assert i == n || sel[..n][i] == r;
      }
    }
  }

  ghost predicate AllBelow(sel: seq<nat>, bound: nat) {
    forall i :: 0 <= i < |sel| ==> sel[i] < bound
  }

  lemma {:induction false} FilteredAscends(sel: seq<nat>, isZero: seq<int>, bound: nat)
    requires |sel| <= |isZero| && Ascending(sel) && AllBelow(sel, bound)
    ensures Ascending(Filtered(sel, isZero)) && AllBelow(Filtered(sel, isZero), bound)
  {
    if sel != [] {
      var n := |sel| - 1;
      assert AllBelow(sel[..n], sel[n]);
      FilteredAscends(sel[..n], isZero, sel[n]);
      var rest := Filtered(sel[..n], isZero);
      hide Filtered;
      assert Ascending(rest + [sel[n]]) && AllBelow(rest, bound);
    }
  }

  /** Keeps, in place, the selected rows that are not zero, and marks the NULL ones. */
  method Narrow(sel: seq<nat>, isZero: seq<int>, nulls: seq<bool>) returns (kept: seq<nat>, marked: seq<bool>)
    requires |sel| <= |isZero| && forall i :: 0 <= i < |sel| ==> sel[i] < |nulls|
    ensures kept == Filtered(sel, isZero) && |marked| == |nulls|
    ensures forall r ::
        0 <= r < |nulls| ==> (marked[r] <==> nulls[r] || exists i :: 0 <= i < |sel| && sel[i] == r && isZero[i] == -1)
  {
    var s := sel;
    marked := nulls;
    var j := 0;
    for i := 0 to |sel|
      invariant 0 <= j <= i && |s| == |sel| && s[i..] == sel[i..] && |marked| == |nulls|
      invariant s[..j] == Filtered(sel[..i], isZero)
      invariant forall r ::
          0 <= r < |nulls| ==> (marked[r] <==> nulls[r] || exists m :: 0 <= m < i && sel[m] == r && isZero[m] == -1)
    {
      assert s[i] == sel[i..][0] == sel[i];
      assert sel[..i + 1][..i] == sel[..i];
      ghost var before := s[..j];
      if isZero[i] == -1 {
        marked := marked[sel[i] := true];
        s := s[j := s[i]];
        j := j + 1;
        assert s[..j] == before + [sel[i]];
        continue;
      }
      if isZero[i] == 0 {
        continue;
      }
      s := s[j := s[i]];
      j := j + 1;
      assert s[..j] == before + [sel[i]];
    }
    assert sel[..|sel|] == sel;
    kept := s[..j];
  }

  // ---------- what the narrowing means ----------

  ghost predicate AllWellFormed(filters: seq<IntExpr>) {
    forall k :: 0 <= k < |filters| ==> WellFormed(filters[k])
  }

  /** None of the first 'n' filters is zero for the row. */
  ghost predicate Alive(filters: seq<IntExpr>, n: nat, row: DataRow)
    requires AllWellFormed(filters) && n <= |filters|
  {
    forall k :: 0 <= k < n ==> EvalInt(filters[k], row) != Int(0)
  }

  /** One of the first 'n' filters is NULL for the row, and none before it is zero. */
  ghost predicate NullSeen(filters: seq<IntExpr>, n: nat, row: DataRow)
    requires AllWellFormed(filters) && n <= |filters|
  {
    exists k :: 0 <= k < n && EvalInt(filters[k], row).Null? && Alive(filters, k, row)
  }

  ghost predicate Narrowed(filters: seq<IntExpr>, n: nat, rows: seq<DataRow>, sel: seq<nat>, nulls: seq<bool>)
    requires AllWellFormed(filters) && n <= |filters|
  {
    && |nulls| == |rows| && Ascending(sel) && Selects(rows, sel)
    && (forall r :: 0 <= r < |rows| ==> (r in sel <==> Alive(filters, n, rows[r])))
    && (forall r :: 0 <= r < |rows| ==> (nulls[r] <==> NullSeen(filters, n, rows[r])))
  }

  lemma NarrowStep(filters: seq<IntExpr>, n: nat, rows: seq<DataRow>, sel: seq<nat>, nulls: seq<bool>, isZero: seq<int>,
                   marked: seq<bool>)
    requires AllWellFormed(filters) && n < |filters| && Narrowed(filters, n, rows, sel, nulls) && |sel| <= |isZero|
    requires forall i :: 0 <= i < |sel| ==> isZero[i] == Sign(EvalInt(filters[n], rows[sel[i]]))
    requires |marked| == |nulls|
    requires forall r ::
        0 <= r < |nulls| ==> (marked[r] <==> nulls[r] || exists i :: 0 <= i < |sel| && sel[i] == r && isZero[i] == -1)
    ensures Narrowed(filters, n + 1, rows, Filtered(sel, isZero), marked)
  {
    hide EvalInt, WellFormed;
    FilteredAscends(sel, isZero, |rows|);
    forall r | 0 <= r < |rows|
      ensures r in Filtered(sel, isZero) <==> Alive(filters, n + 1, rows[r])
      ensures marked[r] <==> NullSeen(filters, n + 1, rows[r])
    {
      FilteredMeaning(sel, isZero, r);
      AliveStep(filters, n, rows[r]);
      hide Alive, NullSeen;
      var v := EvalInt(filters[n], rows[r]);
      if r in sel {
        var i :| 0 <= i < |sel| && sel[i] == r;
        assert isZero[i] == Sign(v);
        assert forall m :: 0 <= m < |sel| && sel[m] == r ==> isZero[m] == Sign(v);
      }
    }
  }

  lemma AliveStep(filters: seq<IntExpr>, n: nat, row: DataRow)
    requires AllWellFormed(filters) && n < |filters|
    ensures Alive(filters, n + 1, row) <==> Alive(filters, n, row) && Sign(EvalInt(filters[n], row)) != 0
    ensures NullSeen(filters, n + 1, row) <==>
        NullSeen(filters, n, row) || (Alive(filters, n, row) && Sign(EvalInt(filters[n], row)) == -1)
  {
    hide EvalInt, WellFormed;
  }

  lemma AlivePasses(filters: seq<IntExpr>, row: DataRow)
    requires AllWellFormed(filters)
    ensures Passes(filters, row) <==> Alive(filters, |filters|, row) && !NullSeen(filters, |filters|, row)
  {
    hide EvalInt, WellFormed;
    if Alive(filters, |filters|, row) && !NullSeen(filters, |filters|, row) {
      forall k | 0 <= k < |filters| ensures IsTrue(EvalInt(filters[k], row)) {
        assert Alive(filters, k, row);
      }
    }
  }

  /** Selects exactly the rows that pass every filter; 'nulls' marks those that met a NULL
      before any zero. 'isZero' comes from a pool with whatever it last held. */
  method VecEvalBool(filters: seq<IntExpr>, rows: seq<DataRow>, alloc: LocalSliceBuffer, isZero0: seq<int>)
    returns (selected: seq<bool>, nulls: seq<bool>)
    requires AllWellFormed(filters) && alloc.Valid() && |isZero0| >= |rows|
    modifies alloc, alloc.freed
    ensures alloc.Valid() && fresh(alloc.freed - old(alloc.freed))
    ensures |selected| == |rows| && forall r :: 0 <= r < |rows| ==> (selected[r] <==> Passes(filters, rows[r]))
    ensures |nulls| == |rows| && forall r :: 0 <= r < |rows| ==> (nulls[r] <==> NullSeen(filters, |filters|, rows[r]))
  {
    hide EvalInt, WellFormed, LocalSliceBuffer.Valid;
    selected, nulls := seq(|rows|, _ => false), seq(|rows|, _ => false);
    var sel: seq<nat> := seq(|rows|, i => i);
    assert Narrowed(filters, 0, rows, sel, nulls) by {
      forall r | 0 <= r < |rows| ensures r in sel { assert sel[r] == r; }
    }
    var isZero := isZero0;
    hide Narrowed;
    for n := 0 to |filters|
      invariant alloc.Valid() && fresh(alloc.freed - old(alloc.freed))
      invariant Narrowed(filters, n, rows, sel, nulls) && |isZero| == |isZero0|
    {
      sel, nulls, isZero := ApplyFilter(filters, n, rows, sel, nulls, isZero, alloc);
    }
    NarrowedParts(filters, |filters|, rows, sel, nulls);
    selected := SelectRest(selected, sel, nulls);
    forall r | 0 <= r < |rows|
      ensures Passes(filters, rows[r]) <==> Alive(filters, |filters|, rows[r]) && !NullSeen(filters, |filters|, rows[r])
    {
      AlivePasses(filters, rows[r]);
    }
  }

  /** One filter: evaluates it for the rows still selected, and narrows the selection. */
  method ApplyFilter(filters: seq<IntExpr>, n: nat, rows: seq<DataRow>, sel0: seq<nat>, nulls0: seq<bool>,
                     isZero0: seq<int>, alloc: LocalSliceBuffer)
    returns (sel: seq<nat>, nulls: seq<bool>, isZero: seq<int>)
    requires AllWellFormed(filters) && n < |filters| && alloc.Valid() && |isZero0| >= |rows| &&
             Narrowed(filters, n, rows, sel0, nulls0)
    modifies alloc, alloc.freed
    ensures alloc.Valid() && fresh(alloc.freed - old(alloc.freed))
    ensures Narrowed(filters, n + 1, rows, sel, nulls) && |isZero| == |isZero0|
  {
    hide EvalInt, WellFormed, LocalSliceBuffer.Valid, Narrowed, Alive, NullSeen, Filtered;
    NarrowedParts(filters, n, rows, sel0, nulls0);
    AscendingLength(sel0, |rows|);
    var buf := alloc.Get();
    VecEvalInt(filters[n], rows, sel0, buf, alloc);
    isZero := ToBool(buf, |sel0|, isZero0);
    sel, nulls := Narrow(sel0, isZero, nulls0);
    NarrowStep(filters, n, rows, sel0, nulls0, isZero, nulls);
    alloc.Put(buf);
  }

  lemma NarrowedParts(filters: seq<IntExpr>, n: nat, rows: seq<DataRow>, sel: seq<nat>, nulls: seq<bool>)
    requires AllWellFormed(filters) && n <= |filters| && Narrowed(filters, n, rows, sel, nulls)
    ensures |nulls| == |rows| && Ascending(sel) && Selects(rows, sel)
    ensures forall r ::
        0 <= r < |rows| ==> (r in sel <==> Alive(filters, n, rows[r])) && (nulls[r] <==> NullSeen(filters, n, rows[r]))
  {
  }

  lemma {:induction false} AscendingLength(sel: seq<nat>, n: nat)
    requires Ascending(sel) && forall i :: 0 <= i < |sel| ==> sel[i] < n
    ensures |sel| <= n
  {
    if sel != [] {
      AscendingLength(sel[..|sel| - 1], sel[|sel| - 1]);
    }
  }

  method SelectRest(none: seq<bool>, sel: seq<nat>, nulls: seq<bool>) returns (selected: seq<bool>)
    requires |nulls| == |none| && (forall r :: 0 <= r < |none| ==> !none[r]) && forall i ::
        0 <= i < |sel| ==> sel[i] < |none|
    ensures |selected| == |none| && forall r :: 0 <= r < |none| ==> (selected[r] <==> r in sel && !nulls[r])
  {
    selected := none;
    for i := 0 to |sel|
      invariant |selected| == |none| && forall r :: 0 <= r < |none| ==> (selected[r] <==> r in sel[..i] && !nulls[r])
    {
      if !nulls[sel[i]] {
        selected := selected[sel[i] := true];
      }
    }
    assert sel[..|sel|] == sel;
  }
}
