/** The constant-propagation solver for conditions that hold together: it substitutes
    'column = constant' conditions into the others until nothing changes, derives new
    conditions from columns linked by 'column = column', and solves the items of every
    OR condition in the same way. */
module ConstantPropagation {
  import opened Expressions
  import opened Wrappers
  import DisjointSet

  const MAX_PROPAGATE_COLS: nat := 100

  function ColumnEquality(cond: Expr): Option<(int, int)> {
    if cond.Func? && cond.op.EQ? && |cond.args| == 2 && cond.args[0].Column? && cond.args[1].Column?
    then Some((cond.args[0].id, cond.args[1].id))
    else None
  }

  lemma EqualityForms(e: Expr)
    ensures forall a, b :: ColumnEquality(e) == Some((a, b)) <==> e == Func(EQ, [Column(a), Column(b)])
  {
    if e.Func? && |e.args| == 2 { assert e.args == [e.args[0], e.args[1]]; }
  }

  lemma ColumnEqualityHolds(I: Interp, cond: Expr, row: Row)
    requires ColumnEquality(cond).Some? && Holds(I, cond, row)
    ensures Lookup(row, ColumnEquality(cond).value.0) == Lookup(row, ColumnEquality(cond).value.1) != Null
  {
    var vals := seq(2, i requires 0 <= i < 2 => Eval(I, cond.args[i], row));
    assert vals == [Eval(I, cond.args[0], row), Eval(I, cond.args[1], row)];
    assert Eval(I, cond, row) == Apply(I, EQ, vals);
  }

  lemma ColumnEqualityColumns(cond: Expr)
    requires ColumnEquality(cond).Some?
    ensures Columns(cond) == {ColumnEquality(cond).value.0, ColumnEquality(cond).value.1}
  {
    assert cond.args == [cond.args[0], cond.args[1]];
    assert Columns(cond) == Columns(cond.args[0]) + Columns(cond.args[1]);
  }

  function ExtractColumns(e: Expr): (cols: seq<int>)
    ensures forall c :: c in cols <==> c in Columns(e)
    decreases e, 0
  {
    match e
    case Const(_) => []
    case Column(id) => [id]
    case Func(op, args) =>
      assert forall c :: c in ExtractAll(args) <==> c in ColumnsOf(args);
      assert ColumnsOf(args) == Columns(e);
      ExtractAll(args)
  }

  function ExtractAll(es: seq<Expr>): (cols: seq<int>)
    ensures forall c :: c in cols <==> c in ColumnsOf(es)
    decreases es, 1
  {
    if es == [] then []
    else
      assert es == [es[0]] + es[1..];
      assert ColumnsOf(es) == Columns(es[0]) + ColumnsOf(es[1..]);
      ExtractColumns(es[0]) + ExtractAll(es[1..])
  }

  function ColumnsOf(conds: seq<Expr>): set<int> {
    set e, c | e in conds && c in Columns(e) :: c
  }

  lemma ColumnsOfPrefix(conds: seq<Expr>, i: nat)
    requires i < |conds|
    ensures ColumnsOf(conds[..i + 1]) == ColumnsOf(conds[..i]) + Columns(conds[i])
  {
    assert conds[..i + 1] == conds[..i] + [conds[i]];
  }

  lemma NoConditions(I: Interp)
    ensures ColumnsOf([]) == {} && Equivalent(I, [], [])
    ensures forall cols, d: nat :: Within([], cols, d)
  {
  }

  /** No condition reads another column than 'cols' or is deeper than 'd'. */
  ghost predicate Within(conds: seq<Expr>, cols: set<int>, d: nat) {
    forall k :: 0 <= k < |conds| ==> Columns(conds[k]) <= cols && Depth(conds[k]) <= d
  }

  /** A column that some condition equates with a constant is mentioned by no other
      condition, except by one that states the same equation. */
  ghost predicate ConstantsPropagated(conds: seq<Expr>) {
    forall i, j :: 0 <= i < |conds| && 0 <= j < |conds| && ValidEqualCond(conds[i]).Some?
      && ValidEqualCond(conds[i]).value.col in Columns(conds[j])
      ==> ValidEqualCond(conds[j]) == ValidEqualCond(conds[i])
  }

  /** The same, on the syntax of the equations. */
  ghost predicate Propagated(conds: seq<Expr>) {
    forall i, j, c, v :: 0 <= i < |conds| && 0 <= j < |conds| && IsEquation(conds[i], c, v) && c in Columns(conds[j])
      ==> IsEquation(conds[j], c, v)
  }

  lemma PropagatedForms(conds: seq<Expr>)
    requires ConstantsPropagated(conds)
    ensures Propagated(conds)
  {
    hide Columns, IsEquation;
    forall i, j, c, v | 0 <= i < |conds| && 0 <= j < |conds| && IsEquation(conds[i], c, v) && c in Columns(conds[j])
      ensures IsEquation(conds[j], c, v)
    {
      EquationForms(conds[i]);
      EquationForms(conds[j]);
    }
  }

  /** Every leaf of the conditions' AND trees that equates a column with a constant is there. */
  ghost predicate EquationsKept(conds: seq<Expr>, out: seq<Expr>) {
    forall e, leaf, c, v :: e in conds && LeafOf(e, LogicAnd, leaf) && IsEquation(leaf, c, v) ==> leaf in out
  }

  ghost predicate NoTrees(conds: seq<Expr>) {
    forall k :: 0 <= k < |conds| ==> !IsTree(conds[k], LogicAnd)
  }

  /** All AND trees are split; no other condition mentions a column that a leaf of the given
      conditions equates with a constant, unless the conditions cannot hold together. */
  ghost predicate Solution(conds: seq<Expr>, out: seq<Expr>) {
    NoTrees(out) && (out == [FALSE] || (EquationsKept(conds, out) && Propagated(out)))
  }

  // ---------- the constant phase, on values ----------

  /** The visited conditions are exactly the equations recorded in 'pins'. */
  ghost predicate PinsRecorded(conds: seq<Expr>, visited: seq<bool>, pins: map<int, Value>) {
    && |conds| == |visited|
    && (forall k :: 0 <= k < |conds| && visited[k] ==>
          && ValidEqualCond(conds[k]).Some?
          && var p := ValidEqualCond(conds[k]).value;
             p.col in pins && pins[p.col] == p.con && !p.con.Null?)
    && (forall c :: c in pins ==>
          exists k :: 0 <= k < |conds| && visited[k] && ValidEqualCond(conds[k]) == Some(Pin(c, pins[c])))
  }

  ghost predicate RestUnpinned(conds: seq<Expr>, visited: seq<bool>, pins: map<int, Value>)
    requires |conds| == |visited|
  {
    forall k :: 0 <= k < |conds| && !visited[k] ==> Columns(conds[k]) !! pins.Keys
  }

  lemma PinsAgree(I: Interp, conds: seq<Expr>, visited: seq<bool>, pins: map<int, Value>, row: Row)
    requires PinsRecorded(conds, visited, pins)
    requires forall k :: 0 <= k < |conds| && visited[k] ==> Holds(I, conds[k], row)
    ensures Agrees(row, pins)
  {
    forall c | c in pins ensures Lookup(row, c) == pins[c] {
      var k :| 0 <= k < |conds| && visited[k] && ValidEqualCond(conds[k]) == Some(Pin(c, pins[c]));
      ValidEqualCondHolds(I, conds[k], row);
    }
  }

  function SubstituteRest(I: Interp, conds: seq<Expr>, visited: seq<bool>, m: map<int, Value>): seq<Expr>
    requires |conds| == |visited|
  {
    seq(|conds|, k requires 0 <= k < |conds| => if visited[k] then conds[k] else Substitute(I, conds[k], m).1)
  }

  lemma SubstituteRestEquivalent(I: Interp, conds: seq<Expr>, visited: seq<bool>, pins: map<int, Value>,
                                 m: map<int, Value>)
    requires PinsRecorded(conds, visited, pins)
    requires forall c :: c in m ==> c in pins && pins[c] == m[c]
    ensures Equivalent(I, conds, SubstituteRest(I, conds, visited, m))
  {
    var conds' := SubstituteRest(I, conds, visited, m);
    forall row: Row ensures AllHold(I, conds, row) <==> AllHold(I, conds', row) {
      if AllHold(I, conds, row) || AllHold(I, conds', row) {
        assert forall k :: 0 <= k < |conds| && visited[k] ==> conds'[k] == conds[k];
        PinsAgree(I, conds, visited, pins, row);
        forall k | 0 <= k < |conds| ensures Holds(I, conds'[k], row) <==> Holds(I, conds[k], row) {
          SubstituteSound(I, conds[k], m, row);
        }
      }
    }
  }

  lemma SubstituteRestShape(I: Interp, conds: seq<Expr>, visited: seq<bool>, m: map<int, Value>, cols: set<int>, d: nat)
    requires |conds| == |visited| && Within(conds, cols, d)
    ensures Within(SubstituteRest(I, conds, visited, m), cols, d)
    ensures forall k :: 0 <= k < |conds| && !visited[k] ==>
              Columns(SubstituteRest(I, conds, visited, m)[k]) == Columns(conds[k]) - m.Keys
  {
    forall k | 0 <= k < |conds|
      ensures Columns(SubstituteRest(I, conds, visited, m)[k]) <= Columns(conds[k])
      ensures Depth(SubstituteRest(I, conds, visited, m)[k]) <= Depth(conds[k])
      ensures !visited[k] ==> Columns(SubstituteRest(I, conds, visited, m)[k]) == Columns(conds[k]) - m.Keys
    {
      SubstituteShape(I, conds[k], m);
    }
  }

  lemma NeverHold(I: Interp, conds: seq<Expr>)
    requires forall row: Row :: !AllHold(I, conds, row)
    ensures Equivalent(I, conds, [FALSE])
  {
    forall row: Row ensures AllHold(I, conds, row) <==> AllHold(I, [FALSE], row) {
      assert !Holds(I, [FALSE][0], row);
    }
  }

  lemma NotTrueConstant(I: Interp, conds: seq<Expr>, i: nat)
    requires i < |conds| && conds[i].Const? && !IsTrue(conds[i].value)
    ensures Equivalent(I, conds, [FALSE])
  {
    forall row: Row ensures !AllHold(I, conds, row) {
      assert !Holds(I, conds[i], row);
    }
    NeverHold(I, conds);
  }

  lemma FalseWithin(cols: set<int>, d: nat)
    ensures Within([FALSE], cols, d)
  {
  }

  /** Two equations that disagree on the constant, or one with NULL, are never true. */
  lemma ContradictoryEquation(I: Interp, conds: seq<Expr>, visited: seq<bool>, pins: map<int, Value>, i: nat)
    requires PinsRecorded(conds, visited, pins) && i < |conds| && ValidEqualCond(conds[i]).Some?
    requires var p := ValidEqualCond(conds[i]).value; p.con.Null? || (p.col in pins && pins[p.col] != p.con)
    ensures Equivalent(I, conds, [FALSE])
  {
    forall row: Row ensures !AllHold(I, conds, row) {
      if AllHold(I, conds, row) {
        PinsAgree(I, conds, visited, pins, row);
        assert Holds(I, conds[i], row);
        ValidEqualCondHolds(I, conds[i], row);
        assert false;
      }
    }
    NeverHold(I, conds);
  }

  lemma SettledConstants(I: Interp, conds: seq<Expr>, visited: seq<bool>, pins: map<int, Value>)
    requires PinsRecorded(conds, visited, pins) && RestUnpinned(conds, visited, pins)
    requires forall k :: 0 <= k < |conds| && !visited[k] ==> ValidEqualCond(conds[k]).None?
    ensures ConstantsPropagated(conds)
  {
    forall i, j | 0 <= i < |conds| && 0 <= j < |conds| && ValidEqualCond(conds[i]).Some?
      && ValidEqualCond(conds[i]).value.col in Columns(conds[j])
      ensures ValidEqualCond(conds[j]) == ValidEqualCond(conds[i])
    {
      assert visited[i];
      if visited[j] {
        ValidEqualCondHolds(I, conds[j], map[]);
      }
    }
  }

  lemma NothingPinned(conds: seq<Expr>, visited: seq<bool>)
    requires |visited| == |conds| && forall k :: 0 <= k < |visited| ==> !visited[k]
    ensures PinsRecorded(conds, visited, map[]) && RestUnpinned(conds, visited, map[])
  {
  }

  lemma PickedParts(conds: seq<Expr>, visited: seq<bool>, pins0: map<int, Value>, pins: map<int, Value>)
    requires Picked(conds, visited, |conds|, pins0, pins)
    ensures |conds| == |visited| && PinsRecorded(conds, visited, pins) && RestUnpinned(conds, visited, pins0)
  {
  }

  lemma PickedSettles(I: Interp, conds: seq<Expr>, visited: seq<bool>, pins: map<int, Value>)
    requires Picked(conds, visited, |conds|, pins, pins)
    ensures ConstantsPropagated(conds)
  {
    SettledConstants(I, conds, visited, pins);
  }

  ghost predicate PinsStay(conds: seq<Expr>, conds': seq<Expr>) {
    |conds'| == |conds| && forall k :: 0 <= k < |conds| && ValidEqualCond(conds[k]).Some? ==> conds'[k] == conds[k]
  }

  lemma PinsStayAll(conds: seq<Expr>)
    ensures PinsStay(conds, conds)
  {
  }

  lemma FalseIsNoTree()
    ensures NoTrees([FALSE])
  {
  }

  /** Substituting into the conditions that are no equation keeps the equations and splits nothing back. */
  lemma SubstitutionKeepsPins(I: Interp, conds0: seq<Expr>, conds: seq<Expr>, visited: seq<bool>, m: map<int, Value>,
                              pins0: map<int, Value>, pins: map<int, Value>)
    requires PinsStay(conds0, conds) && Picked(conds, visited, |conds|, pins0, pins)
    ensures PinsStay(conds0, SubstituteRest(I, conds, visited, m))
    ensures NoTrees(conds) ==> NoTrees(SubstituteRest(I, conds, visited, m))
  {
    hide Substitute, PinsRecorded, RestUnpinned;
    if NoTrees(conds) {
      forall k | 0 <= k < |conds| ensures !IsTree(SubstituteRest(I, conds, visited, m)[k], LogicAnd) {
        SubstituteKeepsRoot(I, conds[k], m, LogicAnd);
      }
    }
  }

  lemma SubstituteKeepsRoot(I: Interp, e: Expr, m: map<int, Value>, op: Op)
    ensures IsTree(Substitute(I, e, m).1, op) ==> IsTree(e, op)
  {
  }

  lemma RenamedKeepsRoot(e: Expr, a: int, b: int, op: Op)
    ensures IsTree(Renamed(e, a, b), op) <==> IsTree(e, op)
  {
  }

  lemma DerivationKeepsNoTrees(I: Interp, source: seq<Expr>, conds: seq<Expr>)
    requires NoTrees(source) && Extends(I, source, conds)
    ensures NoTrees(conds)
  {
    hide TryToReplace, Renamed, Replaceable, Equivalent;
    forall k | 0 <= k < |conds| ensures !IsTree(conds[k], LogicAnd) {
      if k >= |source| {
        var l, a, b :| 0 <= l < |source| && TryToReplace(I, a, b, source[l]).replaced
          && conds[k] == TryToReplace(I, a, b, source[l]).expr && a != b && Linked(source, a) && Linked(source, b);
        ReplacesExactly(I, a, b, source[l]);
        RenamedKeepsRoot(source[l], a, b, LogicAnd);
      } else {
        assert conds[k] == source[k];
      }
    }
  }

  /** The columns seen so far, their numbers, and the constants known for them. */
  class ColumnTable {
    var colMapper: map<int, nat>
    var columns: seq<int>
    var eqList: seq<Option<Value>>

    ghost predicate Valid()
      reads this
    {
      && |colMapper| == |columns|
      && (forall c :: c in colMapper ==> colMapper[c] < |columns| && columns[colMapper[c]] == c)
      && (forall i :: 0 <= i < |columns| ==> columns[i] in colMapper && colMapper[columns[i]] == i)
    }

    ghost function Pins(): map<int, Value>
      reads this
      requires Valid() && |eqList| == |columns|
    {
      map c | c in colMapper && eqList[colMapper[c]].Some? :: eqList[colMapper[c]].value
    }

    lemma Numbered(col: int)
      requires Valid() && col in colMapper
      ensures colMapper[col] < |columns| && columns[colMapper[col]] == col
    {
    }

    constructor ()
      ensures Valid() && colMapper == map[]
    {
      colMapper, columns, eqList := map[], [], [];
    }

    method InsertCol(col: int)
      requires Valid()
      modifies this
      ensures Valid() && colMapper.Keys == old(colMapper.Keys) + {col}
      ensures old(columns) <= columns
    {
      if col !in colMapper {
        colMapper := colMapper[col := |colMapper|];
        columns := columns + [col];
      }
    }

    method InsertAll(cols: seq<int>)
      requires Valid()
      modifies this
      ensures Valid() && colMapper.Keys == old(colMapper.Keys) + set c | c in cols
    {
      for k := 0 to |cols|
        invariant Valid() && colMapper.Keys == old(colMapper.Keys) + set c | c in cols[..k]
      {
        assert cols[..k + 1] == cols[..k] + [cols[k]];
        InsertCol(cols[k]);
      }
      assert cols[..|cols|] == cols;
    }

    method ResetEQList()
      requires Valid()
      modifies this`eqList
      ensures |eqList| == |columns| && Pins() == map[]
    {
      eqList := seq(|columns|, i => None);
      assert forall c :: c in colMapper ==> eqList[colMapper[c]].None?;
      assert Pins() == map[];
    }

    method TryToUpdateEQList(col: int, con: Value) returns (updated: bool, foreverFalse: bool)
      requires Valid() && |eqList| == |columns| && col in colMapper
      modifies this`eqList
      ensures |eqList| == |columns|
      ensures foreverFalse <==> con.Null? || (col in old(Pins()) && old(Pins())[col] != con)
      ensures updated <==> !con.Null? && col !in old(Pins())
      ensures Pins() == if updated then old(Pins())[col := con] else old(Pins())
    {
      if con.Null? { return false, true; }
      var id := colMapper[col];
      if eqList[id].Some? { return false, eqList[id].value != con; }
      ghost var pins := Pins();
      eqList := eqList[id := Some(con)];
      assert forall c :: c in colMapper && c != col ==> colMapper[c] != id;
      assert forall c :: c in Pins() <==> c in pins[col := con];
      assert forall c :: c in Pins() && c != col ==> Pins()[c] == pins[c];
      assert Pins() == pins[col := con];
      return true, false;
    }
  }

  // ---------- the column phase, on values ----------

  /** The conditions that the linked pair (a, b) lets us derive from the first 'n'
      conditions are all present. */
  ghost predicate PairDerived(I: Interp, source: seq<Expr>, n: nat, a: int, b: int, conds: seq<Expr>) {
    forall k :: 0 <= k < |source| && k < n && ColumnEquality(source[k]).None? ==>
      && (TryToReplace(I, a, b, source[k]).replaced ==> TryToReplace(I, a, b, source[k]).expr in conds)
      && (TryToReplace(I, b, a, source[k]).replaced ==> TryToReplace(I, b, a, source[k]).expr in conds)
  }

  lemma PairDerivedMonotone(I: Interp, source: seq<Expr>, n: nat, a: int, b: int, conds: seq<Expr>, conds': seq<Expr>)
    requires PairDerived(I, source, n, a, b, conds) && conds <= conds'
    ensures PairDerived(I, source, n, a, b, conds')
  {
    hide TryToReplace;
  }

  ghost predicate RowDerived(I: Interp, source: seq<Expr>, columns: seq<int>, root: seq<nat>, i: nat, j: nat,
                             conds: seq<Expr>)
    requires |root| == |columns| && i < |columns|
  {
    forall y :: i < y < j && y < |columns| && root[i] == root[y] ==>
      PairDerived(I, source, |source|, columns[i], columns[y], conds)
  }

  ghost predicate RowsDerived(I: Interp, source: seq<Expr>, columns: seq<int>, root: seq<nat>, n: nat, conds: seq<Expr>)
    requires |root| == |columns|
  {
    forall x :: 0 <= x < n && x < |columns| ==> RowDerived(I, source, columns, root, x, |columns|, conds)
  }

  lemma RowDerivedMonotone(I: Interp, source: seq<Expr>, columns: seq<int>, root: seq<nat>, i: nat, j: nat,
                           conds: seq<Expr>, conds': seq<Expr>)
    requires |root| == |columns| && i < j < |columns| && conds <= conds'
    requires RowsDerived(I, source, columns, root, i, conds) && RowDerived(I, source, columns, root, i, j, conds)
    requires root[i] == root[j] ==> PairDerived(I, source, |source|, columns[i], columns[j], conds')
    ensures RowsDerived(I, source, columns, root, i, conds') && RowDerived(I, source, columns, root, i, j + 1, conds')
  {
    hide PairDerived;
    forall x | 0 <= x < i ensures RowDerived(I, source, columns, root, x, |columns|, conds') {
      assert RowDerived(I, source, columns, root, x, |columns|, conds);
      forall y | x < y < |columns| && root[x] == root[y]
        ensures PairDerived(I, source, |source|, columns[x], columns[y], conds')
      {
        PairDerivedMonotone(I, source, |source|, columns[x], columns[y], conds, conds');
      }
    }
    forall y | i < y < j + 1 && root[i] == root[y]
      ensures PairDerived(I, source, |source|, columns[i], columns[y], conds')
    {
      if y < j { PairDerivedMonotone(I, source, |source|, columns[i], columns[y], conds, conds'); }
    }
  }

  lemma ChainDerived(I: Interp, source: seq<Expr>, columns: seq<int>, root: seq<nat>, x: nat, y: nat, conds: seq<Expr>)
    requires |root| == |columns| && x < |columns| && y < |columns| && x != y && root[x] == root[y]
    requires RowsDerived(I, source, columns, root, |columns|, conds)
    ensures PairDerived(I, source, |source|, columns[x], columns[y], conds)
  {
    var a, b := if x < y then x else y, if x < y then y else x;
    hide TryToReplace;
    assert RowDerived(I, source, columns, root, a, |columns|, conds);
    assert PairDerived(I, source, |source|, columns[a], columns[b], conds);
  }

  /** 'conds' extends 'source' by derived conditions and means the same. */
  ghost predicate Extends(I: Interp, source: seq<Expr>, conds: seq<Expr>) {
    && source <= conds && Equivalent(I, source, conds)
    && forall k :: |source| <= k < |conds| ==> DerivedFrom(I, source, conds[k])
  }

  /** Two different linked columns that are equal on every row the conditions accept. */
  ghost predicate Interchangeable(I: Interp, source: seq<Expr>, a: int, b: int) {
    && a != b && Linked(source, a) && Linked(source, b)
    && forall row: Row :: AllHold(I, source, row) ==> Lookup(row, a) == Lookup(row, b)
  }

  lemma InterchangeableBothWays(I: Interp, source: seq<Expr>, a: int, b: int)
    requires Interchangeable(I, source, a, b)
    ensures Interchangeable(I, source, b, a)
  {
  }

  lemma LinkedInterchangeable(I: Interp, source: seq<Expr>, columns: seq<int>, root: seq<nat>, i: nat, j: nat,
                              index: map<int, nat>)
    requires SetsSound(I, source, columns, root) && i < |root| && j < |root| && i != j && root[i] == root[j]
    requires forall x :: 0 <= x < |columns| ==> columns[x] in index && index[columns[x]] == x
    ensures Interchangeable(I, source, columns[i], columns[j])
  {
  }

  ghost predicate Equated(conds: seq<Expr>, a: int, b: int) {
    Func(EQ, [Column(a), Column(b)]) in conds || Func(EQ, [Column(b), Column(a)]) in conds
  }

  /** A chain of columns in which neighbours are equated by a condition. */
  ghost predicate EqualityChain(conds: seq<Expr>, chain: seq<int>) {
    |chain| >= 2 && forall i :: 0 <= i < |chain| - 1 ==> Equated(conds, chain[i], chain[i + 1])
  }

  /** A condition obtained by replacing a column by a linked one. */
  ghost predicate DerivedFrom(I: Interp, source: seq<Expr>, e: Expr) {
    exists k, a, b :: 0 <= k < |source| && TryToReplace(I, a, b, source[k]).replaced
      && e == TryToReplace(I, a, b, source[k]).expr && a != b && Linked(source, a) && Linked(source, b)
  }

  ghost predicate Linked(conds: seq<Expr>, c: int) {
    exists k :: 0 <= k < |conds| && ColumnEquality(conds[k]).Some?
      && (ColumnEquality(conds[k]).value.0 == c || ColumnEquality(conds[k]).value.1 == c)
  }

  /** Under the conditions, columns of one set are equal; only linked columns share a set. */
  ghost predicate SetsSound(I: Interp, conds: seq<Expr>, columns: seq<int>, root: seq<nat>) {
    && |columns| == |root|
    && (forall x, y, row: Row :: 0 <= x < |root| && 0 <= y < |root| && root[x] == root[y] && AllHold(I, conds, row)
          ==> Lookup(row, columns[x]) == Lookup(row, columns[y]))
    && (forall x, y :: 0 <= x < |root| && 0 <= y < |root| && root[x] == root[y] && x != y
          ==> Linked(conds, columns[x]) && Linked(conds, columns[y]))
  }

  lemma MergeKeepsSetsSound(I: Interp, conds: seq<Expr>, columns: seq<int>, root: seq<nat>, k: nat, l: nat, r: nat)
    requires SetsSound(I, conds, columns, root) && k < |conds| && l < |root| && r < |root|
    requires l < |columns| && r < |columns|
    requires ColumnEquality(conds[k]) == Some((columns[l], columns[r])) ||
             ColumnEquality(conds[k]) == Some((columns[r], columns[l]))
    ensures SetsSound(I, conds, columns, DisjointSet.Merged(root, l, r))
  {
    var root' := DisjointSet.Merged(root, l, r);
    forall x, y, row: Row | 0 <= x < |root| && 0 <= y < |root| && root'[x] == root'[y] && AllHold(I, conds, row)
      ensures Lookup(row, columns[x]) == Lookup(row, columns[y])
    {
      assert Holds(I, conds[k], row);
      ColumnEqualityHolds(I, conds[k], row);
      assert root[x] == root[l] ==> Lookup(row, columns[x]) == Lookup(row, columns[l]);
      assert root[y] == root[l] ==> Lookup(row, columns[y]) == Lookup(row, columns[l]);
      assert root[x] == root[r] ==> Lookup(row, columns[x]) == Lookup(row, columns[r]);
      assert root[y] == root[r] ==> Lookup(row, columns[y]) == Lookup(row, columns[r]);
    }
    assert Linked(conds, columns[l]) && Linked(conds, columns[r]);
    forall x, y | 0 <= x < |root| && 0 <= y < |root| && root'[x] == root'[y] && x != y
      ensures Linked(conds, columns[x]) && Linked(conds, columns[y])
    {
      assert root[x] == root[l] ==> Linked(conds, columns[x]);
      assert root[y] == root[l] ==> Linked(conds, columns[y]);
      assert root[x] == root[r] ==> Linked(conds, columns[x]);
      assert root[y] == root[r] ==> Linked(conds, columns[y]);
    }
  }

  lemma MergeKeepsComplete(conds: seq<Expr>, i: nat, index: map<int, nat>, root: seq<nat>, l: nat, r: nat)
    requires SetsComplete(conds, i, index, root) && l < |root| && r < |root| && i < |conds|
    requires ColumnEquality(conds[i]).Some?
    requires var eq := ColumnEquality(conds[i]).value;
             eq.0 in index && index[eq.0] == l && eq.1 in index && index[eq.1] == r
    ensures SetsComplete(conds, i + 1, index, DisjointSet.Merged(root, l, r))
  {
    var root' := DisjointSet.Merged(root, l, r);
    forall k | 0 <= k < |conds| && k < i + 1 && ColumnEquality(conds[k]).Some?
      ensures SameSet(index, root', ColumnEquality(conds[k]).value.0, ColumnEquality(conds[k]).value.1)
    {
      if k < i {
        assert SameSet(index, root, ColumnEquality(conds[k]).value.0, ColumnEquality(conds[k]).value.1);
      }
    }
  }

  ghost predicate SameSet(index: map<int, nat>, root: seq<nat>, a: int, b: int) {
    && a in index && b in index && index[a] < |root| && index[b] < |root|
    && root[index[a]] == root[index[b]]
  }

  /** Both sides of every equality among the first 'n' conditions are in one set. */
  ghost predicate SetsComplete(conds: seq<Expr>, n: nat, index: map<int, nat>, root: seq<nat>) {
    forall k :: 0 <= k < |conds| && k < n && ColumnEquality(conds[k]).Some? ==>
      SameSet(index, root, ColumnEquality(conds[k]).value.0, ColumnEquality(conds[k]).value.1)
  }

  /** A chain of equations leads from 'a' to 'b'. */
  ghost predicate Chained(conds: seq<Expr>, a: int, b: int) {
    exists chain :: EqualityChain(conds, chain) && chain[0] == a && chain[|chain| - 1] == b
  }

  /** Columns share a set only when a chain of equations links them. */
  ghost predicate SetsChained(conds: seq<Expr>, columns: seq<int>, root: seq<nat>) {
    |columns| == |root| && forall x, y ::
      0 <= x < |root| && 0 <= y < |root| && x != y && root[x] == root[y] ==> Chained(conds, columns[x], columns[y])
  }

  lemma ChainedEquation(conds: seq<Expr>, a: int, b: int)
    requires Equated(conds, a, b)
    ensures Chained(conds, a, b)
  {
    assert EqualityChain(conds, [a, b]);
  }

  lemma ChainedOn(conds: seq<Expr>, a: int, b: int, c: int)
    requires Chained(conds, a, b) && Chained(conds, b, c)
    ensures Chained(conds, a, c)
  {
    var s :| EqualityChain(conds, s) && s[0] == a && s[|s| - 1] == b;
    var t :| EqualityChain(conds, t) && t[0] == b && t[|t| - 1] == c;
    var chain := s + t[1..];
    forall i | 0 <= i < |chain| - 1 ensures Equated(conds, chain[i], chain[i + 1]) {
      if i < |s| - 1 {
        assert Equated(conds, s[i], s[i + 1]);
      } else {
        assert Equated(conds, t[i - |s| + 1], t[i - |s| + 1 + 1]);
      }
    }
    assert EqualityChain(conds, chain) && chain[|chain| - 1] == c;
  }

  lemma ChainedMore(conds: seq<Expr>, e: Expr, a: int, b: int)
    requires Chained(conds, a, b)
    ensures Chained(conds + [e], a, b)
  {
    var chain :| EqualityChain(conds, chain) && chain[0] == a && chain[|chain| - 1] == b;
    forall i | 0 <= i < |chain| - 1 ensures Equated(conds + [e], chain[i], chain[i + 1]) {
      assert Equated(conds, chain[i], chain[i + 1]);
    }
    assert EqualityChain(conds + [e], chain);
  }

  /** Merging the sets of two equated columns keeps them chained. */
  lemma MergeKeepsChained(conds: seq<Expr>, e: Expr, columns: seq<int>, root: seq<nat>, l: nat, r: nat)
    requires SetsChained(conds, columns, root) && l < |root| && r < |root|
    requires ColumnEquality(e) == Some((columns[l], columns[r])) || ColumnEquality(e) == Some((columns[r], columns[l]))
    ensures SetsChained(conds + [e], columns, DisjointSet.Merged(root, l, r))
  {
    hide EqualityChain, Equated;
    var more, root' := conds + [e], DisjointSet.Merged(root, l, r);
    assert Chained(more, columns[l], columns[r]) && Chained(more, columns[r], columns[l]) by {
      NewEquation(conds, e, columns[l], columns[r]);
    }
    forall x, y | 0 <= x < |root| && 0 <= y < |root| && x != y && root'[x] == root'[y]
      ensures Chained(more, columns[x], columns[y])
    {
      if root[x] == root[y] {
        ChainedMore(conds, e, columns[x], columns[y]);
      } else if root[x] == root[l] && root[y] == root[r] {
        ChainThrough(conds, e, columns, root, x, l, r, y);
      } else {
        assert root[x] == root[r] && root[y] == root[l];
        ChainThrough(conds, e, columns, root, x, r, l, y);
      }
    }
  }

  lemma NothingChained(columns: seq<int>, root: seq<nat>)
    requires |columns| == |root| && forall x :: 0 <= x < |root| ==> root[x] == x
    ensures SetsChained([], columns, root)
  {
  }

  lemma SetsChainedMore(conds: seq<Expr>, e: Expr, columns: seq<int>, root: seq<nat>)
    requires SetsChained(conds, columns, root)
    ensures SetsChained(conds + [e], columns, root)
  {
    forall x, y | 0 <= x < |root| && 0 <= y < |root| && x != y && root[x] == root[y]
      ensures Chained(conds + [e], columns[x], columns[y])
    {
      ChainedMore(conds, e, columns[x], columns[y]);
    }
  }

  lemma NewEquation(conds: seq<Expr>, e: Expr, a: int, b: int)
    requires ColumnEquality(e) == Some((a, b)) || ColumnEquality(e) == Some((b, a))
    ensures Chained(conds + [e], a, b) && Chained(conds + [e], b, a)
  {
    EqualityForms(e);
    assert (conds + [e])[|conds|] == e;
    assert Equated(conds + [e], a, b) && Equated(conds + [e], b, a);
    ChainedEquation(conds + [e], a, b);
    ChainedEquation(conds + [e], b, a);
  }

  lemma ChainThrough(conds: seq<Expr>, e: Expr, columns: seq<int>, root: seq<nat>, x: nat, l: nat, r: nat, y: nat)
    requires SetsChained(conds, columns, root) && x < |root| && l < |root| && r < |root| && y < |root|
    requires root[x] == root[l] && root[r] == root[y] && Chained(conds + [e], columns[l], columns[r])
    ensures Chained(conds + [e], columns[x], columns[y])
  {
    hide Chained;
    if x != l {
      ChainedMore(conds, e, columns[x], columns[l]);
      ChainedOn(conds + [e], columns[x], columns[l], columns[r]);
    }
    if r != y {
      ChainedMore(conds, e, columns[r], columns[y]);
      ChainedOn(conds + [e], columns[x], columns[r], columns[y]);
    }
  }

  lemma {:induction false} ChainInOneSet(conds: seq<Expr>, index: map<int, nat>, root: seq<nat>, chain: seq<int>)
    requires SetsComplete(conds, |conds|, index, root) && EqualityChain(conds, chain)
    ensures SameSet(index, root, chain[0], chain[|chain| - 1])
  {
    var n := |chain|;
    assert Equated(conds, chain[n - 2], chain[n - 2 + 1]);
    assert SameSet(index, root, chain[n - 2], chain[n - 1]);
    if n > 2 {
      var rest := chain[..n - 1];
      forall i | 0 <= i < |rest| - 1 ensures Equated(conds, rest[i], rest[i + 1]) {
        assert rest[i] == chain[i] && rest[i + 1] == chain[i + 1];
      }
      ChainInOneSet(conds, index, root, rest);
    }
  }

  lemma {:induction false} ReplacedMentionsTarget(I: Interp, a: int, b: int, e: Expr)
    requires TryToReplace(I, a, b, e).replaced
    ensures b in Columns(TryToReplace(I, a, b, e).expr) && a in Columns(e)
  {
    var args := e.args;
    var args' := seq(|args|, i requires 0 <= i < |args| =>
      if args[i] == Column(a) then Column(b) else TryToReplace(I, a, b, args[i]).expr);
    var i :| 0 <= i < |args| && (args[i] == Column(a) || TryToReplace(I, a, b, args[i]).replaced);
    if args[i] != Column(a) { ReplacedMentionsTarget(I, a, b, args[i]); }
    ArgumentColumns(e.op, args, i, a);
    ArgumentColumns(e.op, args', i, b);
    NewFunctionSound(I, e.op, args', map[]);
  }

  lemma ArgumentColumns(op: Op, args: seq<Expr>, i: nat, c: int)
    requires i < |args| && c in Columns(args[i])
    ensures c in Columns(Func(op, args))
  {
    assert args[i] in args;
  }

  /** Replacing a column never produces a new 'column = constant'. */
  lemma ReplacementPinsNothing(I: Interp, a: int, b: int, e: Expr)
    requires TryToReplace(I, a, b, e).replaced && ValidEqualCond(TryToReplace(I, a, b, e).expr).Some?
    ensures ValidEqualCond(e).Some?
  {
    var args := e.args;
    var args' := seq(|args|, i requires 0 <= i < |args| =>
      if args[i] == Column(a) then Column(b) else TryToReplace(I, a, b, args[i]).expr);
    assert TryToReplace(I, a, b, e).expr == Func(e.op, args');
    forall i | 0 <= i < |args| && args'[i].Const? ensures args[i].Const? {
      if TryToReplace(I, a, b, args[i]).replaced { ReplacedMentionsTarget(I, a, b, args[i]); }
    }
    forall i | 0 <= i < |args| && args'[i].Column? ensures args[i].Column? {
      if TryToReplace(I, a, b, args[i]).replaced { FunctionsStayFunctions(I, a, b, args[i]); }
    }
  }

  lemma FunctionsStayFunctions(I: Interp, a: int, b: int, e: Expr)
    requires TryToReplace(I, a, b, e).replaced
    ensures TryToReplace(I, a, b, e).expr.Func?
  {
    ReplacedMentionsTarget(I, a, b, e);
  }

  lemma DerivationKeepsPropagated(I: Interp, source: seq<Expr>, added: seq<Expr>)
    requires ConstantsPropagated(source)
    requires forall k :: 0 <= k < |added| ==> DerivedFrom(I, source, added[k])
    ensures ConstantsPropagated(source + added)
  {
    var all := source + added;
    forall k | 0 <= k < |added|
      ensures ValidEqualCond(added[k]).None?
      ensures forall i :: 0 <= i < |source| && ValidEqualCond(source[i]).Some?
                ==> ValidEqualCond(source[i]).value.col !in Columns(added[k])
    {
      DerivedUnpinned(I, source, added[k]);
    }
    assert forall i :: |source| <= i < |all| ==> all[i] == added[i - |source|];
  }

  lemma DerivedUnpinned(I: Interp, source: seq<Expr>, e: Expr)
    requires ConstantsPropagated(source) && DerivedFrom(I, source, e)
    ensures ValidEqualCond(e).None?
    ensures forall i :: 0 <= i < |source| && ValidEqualCond(source[i]).Some?
              ==> ValidEqualCond(source[i]).value.col !in Columns(e)
  {
    hide TryToReplace, Columns;
    var k, a, b :| 0 <= k < |source| && TryToReplace(I, a, b, source[k]).replaced
      && e == TryToReplace(I, a, b, source[k]).expr && a != b && Linked(source, a) && Linked(source, b);
    ReplacedMentionsTarget(I, a, b, source[k]);
    TryToReplaceShape(I, a, b, source[k]);
    LinkedUnpinned(source, a);
    LinkedUnpinned(source, b);
    assert ValidEqualCond(source[k]).None? by {
      if ValidEqualCond(source[k]).Some? { ValidEqualCondHolds(I, source[k], map[]); }
    }
    assert ValidEqualCond(e).None? by {
      if ValidEqualCond(e).Some? { ReplacementPinsNothing(I, a, b, source[k]); }
    }
    forall i | 0 <= i < |source| && ValidEqualCond(source[i]).Some?
      ensures ValidEqualCond(source[i]).value.col !in Columns(source[k])
    {
    }
  }

  lemma LinkedUnpinned(source: seq<Expr>, c: int)
    requires ConstantsPropagated(source) && Linked(source, c)
    ensures forall i ::
        0 <= i < |source| && ValidEqualCond(source[i]).Some? ==> ValidEqualCond(source[i]).value.col != c
  {
    var k :| 0 <= k < |source| && ColumnEquality(source[k]).Some?
      && (ColumnEquality(source[k]).value.0 == c || ColumnEquality(source[k]).value.1 == c);
    ColumnEqualityColumns(source[k]);
  }

  class PropConstSolver {
    const I: Interp
    const table: ColumnTable
    var conditions: seq<Expr>

    ghost predicate Valid(d: nat)
      reads this, table
    {
      table.Valid() && Within(conditions, table.colMapper.Keys, d)
    }

    constructor (I: Interp)
      ensures this.I == I && fresh(table) && table.Valid() && table.colMapper == map[] && conditions == []
    {
      this.I := I;
      this.table := new ColumnTable();
      conditions := [];
    }

    /** Records the new 'column = constant' conditions, or finds that the conditions
        cannot hold together. */
    method PickNewEQConds(visited: seq<bool>, ghost d: nat) returns (mapper: map<int, Value>, visited': seq<bool>)
      requires Valid(d) && |table.eqList| == |table.columns| && |visited| == |conditions|
      requires PinsRecorded(conditions, visited, table.Pins()) && RestUnpinned(conditions, visited, table.Pins())
      modifies this`conditions, table`eqList
      ensures Valid(d) && |table.eqList| == |table.columns|
      ensures Equivalent(I, old(conditions), conditions)
      ensures || (conditions == [FALSE] && mapper == map[])
              || (&& conditions == old(conditions)
                  && mapper.Keys !! old(table.Pins()).Keys && table.Pins() == old(table.Pins()) + mapper
                  && Picked(conditions, visited', |conditions|, old(table.Pins()), table.Pins()))
    {
      hide Eval, Columns, Depth, PinsRecorded;
      FalseWithin(table.colMapper.Keys, d);
      mapper := map[];
      visited' := visited;
      ghost var pins0 := table.Pins();
      assert pins0 + mapper == pins0;
      for i := 0 to |conditions|
        invariant |table.eqList| == |table.columns| && conditions == old(conditions)
        invariant mapper.Keys !! pins0.Keys && table.Pins() == pins0 + mapper
        invariant Picked(conditions, visited', i, pins0, table.Pins())
      {
        var cond := conditions[i];
        if !visited'[i] {
          var pin := ValidEqualCond(cond);
          if pin.None? {
            if cond.Const? && !IsTrue(cond.value) {
              NotTrueConstant(I, conditions, i);
              conditions := [FALSE];
              return map[], visited';
            }
          } else {
            ValidEqualCondHolds(I, cond, map[]);
            ghost var visited0, pins1, mapper1 := visited', table.Pins(), mapper;
            visited' := visited'[i := true];
            var col, con := pin.value.col, pin.value.con;
            var updated, foreverFalse := table.TryToUpdateEQList(col, con);
            if foreverFalse {
              ContradictoryEquation(I, conditions, visited0, pins1, i);
              conditions := [FALSE];
              return map[], visited';
            }
            if updated {
              mapper := mapper[col := con];
              assert pins0 + mapper == (pins0 + mapper1)[col := con];
            } else {
              assert pins1[col := con] == pins1;
            }
            VisitKeepsPicked(conditions, visited0, i, pins0, pins1);
          }
        }
      }
    }

    /** One round: records new constants and substitutes them into the other conditions. */
    method SubstituteRound(visited: seq<bool>, ghost conds0: seq<Expr>, ghost d: nat)
      returns (done: bool, visited': seq<bool>)
      requires Valid(d) && |table.eqList| == |table.columns| && |visited| == |conditions| &&
               PinsStay(conds0, conditions)
      requires PinsRecorded(conditions, visited, table.Pins()) && RestUnpinned(conditions, visited, table.Pins())
      modifies this`conditions, table`eqList
      ensures Valid(d) && |table.eqList| == |table.columns| && Equivalent(I, old(conditions), conditions)
      ensures NoTrees(old(conditions)) ==> NoTrees(conditions)
      ensures conditions == [FALSE] || (|conditions| == |old(conditions)| && PinsStay(conds0, conditions))
      ensures done ==> conditions == [FALSE] || ConstantsPropagated(conditions)
      ensures !done ==> |conditions| == |old(conditions)| && PinsStay(conds0, conditions)
      ensures !done ==> |visited'| == |conditions| && PinsRecorded(conditions, visited', table.Pins())
      ensures !done ==> RestUnpinned(conditions, visited', table.Pins())
      ensures !done ==> |table.Pins().Keys| > |old(table.Pins()).Keys|
    {
      hide PinsStay, NoTrees, ConstantsPropagated, Eval, Holds, Columns, Depth, SubstituteRest, PinsRecorded,
        RestUnpinned,
        Picked, Within;
      ghost var pins0 := table.Pins();
      var mapper;
      mapper, visited' := PickNewEQConds(visited, d);
      FalseIsNoTree();
      if |mapper| == 0 {
        if conditions != [FALSE] {
          assert table.Pins() == pins0;
          PickedSettles(I, conditions, visited', pins0);
        }
        return true, visited';
      }
      MorePins(pins0, mapper);
      ghost var conds := conditions;
      PickedParts(conds, visited', pins0, table.Pins());
      SubstituteRestEquivalent(I, conds, visited', table.Pins(), mapper);
      SubstitutionKeepsPins(I, conds0, conds, visited', mapper, pins0, table.Pins());
      SubstituteUnvisited(visited', mapper, d);
      SubstitutionKeepsRecorded(I, conds, visited', pins0, mapper);
      done := false;
    }

    /** Substitutes known constants until no condition mentions a known column. The cap
        on the rounds is never what stops it. */
    method PropagateConstantEQ(ghost d: nat)
      requires Valid(d) && |table.columns| <= MAX_PROPAGATE_COLS
      modifies this`conditions, table`eqList
      ensures Valid(d) && Equivalent(I, old(conditions), conditions)
      ensures conditions == [FALSE] || ConstantsPropagated(conditions)
      ensures old(conditions) != [] ==> conditions != []
      ensures conditions == [FALSE] || PinsStay(old(conditions), conditions)
      ensures NoTrees(old(conditions)) ==> NoTrees(conditions)
    {
      hide PinsStay, NoTrees, ConstantsPropagated, Eval, Holds, Columns, Depth, PinsRecorded, RestUnpinned, Within;
      PinsStayAll(conditions);
      table.ResetEQList();
      var visited := seq(|conditions|, k => false);
      NothingPinned(conditions, visited);
      for i := 0 to MAX_PROPAGATE_COLS
        invariant Valid(d) && |table.eqList| == |table.columns|
        invariant Equivalent(I, old(conditions), conditions) && |conditions| == |old(conditions)|
        invariant |visited| == |conditions| && PinsRecorded(conditions, visited, table.Pins())
        invariant RestUnpinned(conditions, visited, table.Pins())
        invariant |table.Pins().Keys| >= i
        invariant PinsStay(old(conditions), conditions) && (NoTrees(old(conditions)) ==> NoTrees(conditions))
      {
        var done;
        done, visited := SubstituteRound(visited, old(conditions), d);
        if done { return; }
      }
      AllPinned(table.colMapper, table.Pins());
      NoColumnsLeft(I, conditions, visited, table.Pins(), d);
      SettledConstants(I, conditions, visited, table.Pins());
    }

    method SubstituteUnvisited(visited: seq<bool>, mapper: map<int, Value>, ghost d: nat)
      requires Valid(d) && |visited| == |conditions|
      modifies this`conditions
      ensures Valid(d) && conditions == SubstituteRest(I, old(conditions), visited, mapper)
    {
      for k := 0 to |conditions|
        invariant |conditions| == |old(conditions)|
        invariant forall l :: 0 <= l < k ==> conditions[l] == SubstituteRest(I, old(conditions), visited, mapper)[l]
        invariant forall l :: k <= l < |conditions| ==> conditions[l] == old(conditions)[l]
      {
        if !visited[k] {
          conditions := conditions[k := Substitute(I, conditions[k], mapper).1];
        }
      }
      assert conditions == SubstituteRest(I, old(conditions), visited, mapper);
      SubstituteRestShape(I, old(conditions), visited, mapper, table.colMapper.Keys, d);
    }

    /** Derives the conditions that one linked pair of columns allows. */
    method DerivePair(ghost source: seq<Expr>, condsLen: nat, visited: seq<bool>, coli: int, colj: int, ghost d: nat)
      requires Valid(d) && condsLen == |visited| == |source|
      requires forall k :: 0 <= k < |source| ==> (visited[k] <==> ColumnEquality(source[k]).Some?)
      requires coli in table.colMapper && colj in table.colMapper && Interchangeable(I, source, coli, colj)
      requires Extends(I, source, conditions)
      modifies this`conditions
      ensures Valid(d) && Extends(I, source, conditions) && old(conditions) <= conditions
      ensures PairDerived(I, source, |source|, coli, colj, conditions)
    {
      hide TryToReplace, Columns, Depth, Equivalent, DerivedFrom, Interchangeable, Within;
      for k := 0 to condsLen
        invariant Valid(d) && Extends(I, source, conditions) && old(conditions) <= conditions
        invariant PairDerived(I, source, k, coli, colj, conditions)
      {
        ghost var conds := conditions;
        if !visited[k] {
          var cond := conditions[k];
          var r := TryToReplace(I, coli, colj, cond);
          if r.replaced {
            DerivationExtends(I, source, conditions, k, coli, colj, table.colMapper.Keys, d);
            conditions := conditions + [r.expr];
          }
          r := TryToReplace(I, colj, coli, cond);
          if r.replaced {
            InterchangeableBothWays(I, source, coli, colj);
            DerivationExtends(I, source, conditions, k, colj, coli, table.colMapper.Keys, d);
            conditions := conditions + [r.expr];
          }
        }
        PairDerivedMonotone(I, source, k, coli, colj, conds, conditions);
      }
    }

    /** Builds the sets of columns that the conditions equate. */
    method LinkColumns(ghost d: nat) returns (unionSet: DisjointSet.IntSet, visited: seq<bool>)
      requires Valid(d)
      ensures fresh(unionSet) && unionSet.Valid() && |visited| == |conditions|
      ensures forall k :: 0 <= k < |conditions| ==> (visited[k] <==> ColumnEquality(conditions[k]).Some?)
      ensures SetsSound(I, conditions, table.columns, unionSet.root)
      ensures SetsComplete(conditions, |conditions|, table.colMapper, unionSet.root)
      ensures SetsChained(conditions, table.columns, unionSet.root)
    {
      hide SetsChained, Eval, Columns, Depth;
      visited := seq(|conditions|, k => false);
      unionSet := new DisjointSet.IntSet(|table.columns|);
      NothingChained(table.columns, unionSet.root);
      for i := 0 to |conditions|
        invariant unionSet.Valid() && |visited| == |conditions|
        invariant forall k :: 0 <= k < |conditions| ==> (visited[k] <==> k < i && ColumnEquality(conditions[k]).Some?)
        invariant SetsSound(I, conditions, table.columns, unionSet.root)
        invariant SetsComplete(conditions, i, table.colMapper, unionSet.root)
        invariant SetsChained(conditions[..i], table.columns, unionSet.root)
      {
        assert conditions[..i + 1] == conditions[..i] + [conditions[i]];
        SetsChainedMore(conditions[..i], conditions[i], table.columns, unionSet.root);
        var eq := ColumnEquality(conditions[i]);
        if eq.Some? {
          ColumnEqualityColumns(conditions[i]);
          assert Columns(conditions[i]) <= table.colMapper.Keys;
          var lID, rID := table.colMapper[eq.value.0], table.colMapper[eq.value.1];
          MergeKeepsSetsSound(I, conditions, table.columns, unionSet.root, i, lID, rID);
          MergeKeepsComplete(conditions, i, table.colMapper, unionSet.root, lID, rID);
          MergeKeepsChained(conditions[..i], conditions[i], table.columns, unionSet.root, lID, rID);
          unionSet.Union(lID, rID);
          visited := visited[i := true];
        }
      }
      assert conditions[..|conditions|] == conditions;
    }

    /** Adds, for every chain of equal columns, the conditions that follow by replacing one
        end of the chain by the other. */
    method PropagateColumnEQ(ghost d: nat)
      requires Valid(d)
      modifies this`conditions
      ensures Valid(d) && old(conditions) <= conditions && Equivalent(I, old(conditions), conditions)
      ensures ConstantsPropagated(old(conditions)) ==> ConstantsPropagated(conditions)
      ensures old(conditions) == [FALSE] ==> conditions == [FALSE]
      ensures NoTrees(old(conditions)) ==> NoTrees(conditions)
      ensures forall chain :: EqualityChain(old(conditions), chain) && chain[0] != chain[|chain| - 1] ==>
                PairDerived(I, old(conditions), |old(conditions)|, chain[0], chain[|chain| - 1], conditions)
    {
      hide TryToReplace, Columns, Depth, Eval, PairDerived, DerivedFrom, Interchangeable, ConstantsPropagated;
      hide SetsSound, SetsComplete, Within, NoTrees;
      ghost var source := conditions;
      var unionSet, visited := LinkColumns(d);
      var condsLen := |conditions|;
      var columns := table.columns;
      ghost var root := unionSet.root;
      for i := 0 to |columns|
        invariant Valid(d) && Extends(I, source, conditions)
        invariant unionSet.Valid() && unionSet.root == root
        invariant RowsDerived(I, source, columns, root, i, conditions)
      {
        for j := i + 1 to |columns|
          invariant Valid(d) && Extends(I, source, conditions)
          invariant unionSet.Valid() && unionSet.root == root
          invariant RowsDerived(I, source, columns, root, i, conditions)
          invariant RowDerived(I, source, columns, root, i, j, conditions)
        {
          ghost var conds := conditions;
          var ri := unionSet.FindRoot(i);
          var rj := unionSet.FindRoot(j);
          if ri == rj {
            LinkedInterchangeable(I, source, columns, root, i, j, table.colMapper);
            DerivePair(source, condsLen, visited, columns[i], columns[j], d);
          }
          RowDerivedMonotone(I, source, columns, root, i, j, conds, conditions);
        }
      }
      if ConstantsPropagated(source) { DerivationKeepsPropagated(I, source, conditions[|source|..]); }
      assert conditions == source + conditions[|source|..];
      if NoTrees(source) { DerivationKeepsNoTrees(I, source, conditions); }
      if source == [FALSE] { NothingFromFalse(I, conditions[|source|..]); }
      forall chain | EqualityChain(source, chain) && chain[0] != chain[|chain| - 1]
        ensures PairDerived(I, source, |source|, chain[0], chain[|chain| - 1], conditions)
      {
        ChainInOneSet(source, table.colMapper, root, chain);
        ChainDerived(I, source, columns, root, table.colMapper[chain[0]], table.colMapper[chain[|chain| - 1]],
                     conditions);
      }
    }

    /** Splits the conditions into items and numbers their columns. */
    method Collect(conds: seq<Expr>)
      requires table.Valid() && table.colMapper == map[] && conditions == []
      modifies this, table
      ensures Valid(MaxDepth(conds)) && table.colMapper.Keys == ColumnsOf(conds)
      ensures Equivalent(I, conds, conditions) && (conds != [] ==> conditions != [])
      ensures AllLeaves(conds, conditions) && NoTrees(conditions)
    {
      hide AllLeaves, NoTrees;
      hide Columns, Depth, MaxDepth, SplitItems, ExtractColumns, ColumnsOf, Within, Equivalent;
      NoConditions(I);
      NoLeaves();
      ghost var d := MaxDepth(conds);
      for i := 0 to |conds|
        invariant Valid(d) && table.colMapper.Keys == ColumnsOf(conds[..i])
        invariant Equivalent(I, conds[..i], conditions)
        invariant i > 0 ==> conditions != []
        invariant AllLeaves(conds[..i], conditions) && NoTrees(conditions)
      {
        SplitKeepsMeaning(I, conds, i, conditions);
        SplitAddsLeaves(conds, i, conditions);
        SplitWithin(conds[i], d);
        ghost var keys0, conditions0 := table.colMapper.Keys, conditions;
        var items := SplitItems(conds[i], LogicAnd);
        conditions := conditions + items;
        var cols := ExtractColumns(conds[i]);
        table.InsertAll(cols);
        assert table.colMapper.Keys == keys0 + Columns(conds[i]);
        WithinAppend(conditions0, items, keys0, Columns(conds[i]), d);
        ColumnsOfPrefix(conds, i);
      }
      assert conds[..|conds|] == conds;
    }

    /** Solves a list of conditions that hold together. */
    method Solve(conds: seq<Expr>) returns (out: seq<Expr>)
      requires table.Valid() && table.colMapper == map[] && conditions == []
      modifies this, table
      ensures Equivalent(I, conds, out)
      ensures conds != [] ==> out != []
      ensures forall k :: 0 <= k < |out| ==> Columns(out[k]) <= ColumnsOf(conds)
      ensures |ColumnsOf(conds)| <= 100 ==> Solution(conds, out)
      ensures |ColumnsOf(conds)| <= 100 ==> exists constants, linked :: Phases(I, conds, constants, linked, out)
      ensures |ColumnsOf(conds)| > 100 ==> out == conds
      decreases MaxDepth(conds), 2
    {
      hide Eval, Columns, Depth, MaxDepth, ColumnsOf, TryToReplace, PairDerived, OrItemsSolved, RewriteOf,
        ConstantsPropagated, Within, Equivalent, Solution, PinsStay, NoTrees, AllLeaves, ColumnsLinked, EqualityChain;
      Collect(conds);
      ghost var d := MaxDepth(conds);
      assert |table.columns| == |table.colMapper.Keys|;
      if |table.columns| > MAX_PROPAGATE_COLS {
        NothingSolved(I, conds);
        out := conds;
        return;
      }
      ghost var conds0 := conditions;
      PropagateConstantEQ(d);
      ghost var conds1 := conditions;
      PropagateColumnEQ(d);
      ghost var conds2 := conditions;
      WithinDepth(conds2, table.colMapper.Keys, d);
      conditions := PropagateConstantDNF(I, conditions);
      out := conditions;
      PhasesEquivalent(I, conds, conds0, conds1, conds2, out);
      LinkedForms(I, conds1, conds2);
      SolvedShape(conds2, out, table.colMapper.Keys, d);
      SolutionFound(conds, conds0, conds1, conds2, out);
      if conds1 != [FALSE] { PropagatedForms(conds1); }
      assert Phases(I, conds, conds1, conds2, out);
    }
  }

  // ---------- what the phases leave ----------

  /** Every chain of equal columns has its conditions derived. */
  ghost predicate ColumnsLinked(I: Interp, conds: seq<Expr>, linked: seq<Expr>) {
    conds <= linked && forall chain :: EqualityChain(conds, chain) && chain[0] != chain[|chain| - 1] ==>
      Derives(conds, chain[0], chain[|chain| - 1], linked)
  }

  predicate EquatesColumns(e: Expr) {
    e.Func? && e.op == EQ && |e.args| == 2 && e.args[0].Column? && e.args[1].Column?
  }

  /** Each of the two columns is renamed to the other wherever it may be. */
  ghost predicate Derives(conds: seq<Expr>, a: int, b: int, linked: seq<Expr>) {
    forall e :: e in conds && !EquatesColumns(e) ==>
      && (Replaceable(e, a) ==> Renamed(e, a, b) in linked)
      && (Replaceable(e, b) ==> Renamed(e, b, a) in linked)
  }

  lemma DerivesForms(I: Interp, conds: seq<Expr>, a: int, b: int, linked: seq<Expr>)
    requires PairDerived(I, conds, |conds|, a, b, linked)
    ensures Derives(conds, a, b, linked)
  {
    hide TryToReplace, Replaceable, Renamed;
    forall e | e in conds && !EquatesColumns(e)
      ensures Replaceable(e, a) ==> Renamed(e, a, b) in linked
      ensures Replaceable(e, b) ==> Renamed(e, b, a) in linked
    {
      var k :| 0 <= k < |conds| && conds[k] == e;
      assert ColumnEquality(conds[k]).None?;
      ReplacesExactly(I, a, b, e);
      ReplacesExactly(I, b, a, e);
    }
  }

  lemma LinkedForms(I: Interp, conds: seq<Expr>, linked: seq<Expr>)
    requires conds <= linked
    requires forall chain :: EqualityChain(conds, chain) && chain[0] != chain[|chain| - 1] ==>
               PairDerived(I, conds, |conds|, chain[0], chain[|chain| - 1], linked)
    ensures ColumnsLinked(I, conds, linked)
  {
    hide PairDerived, Derives, Equated;
    forall chain | EqualityChain(conds, chain) && chain[0] != chain[|chain| - 1]
      ensures Derives(conds, chain[0], chain[|chain| - 1], linked)
    {
      DerivesForms(I, conds, chain[0], chain[|chain| - 1], linked);
    }
  }

  /** The equations among the leaves are never rewritten, so they are in the result. */
  lemma SolutionFound(conds: seq<Expr>, items: seq<Expr>, constants: seq<Expr>, linked: seq<Expr>, out: seq<Expr>)
    requires AllLeaves(conds, items) && NoTrees(linked) && constants <= linked && |out| == |linked|
    requires constants == [FALSE] || PinsStay(items, constants)
    requires constants == [FALSE] ==> out == [FALSE]
    requires constants != [FALSE] ==> ConstantsPropagated(out)
    requires forall k :: 0 <= k < |linked| ==> RewriteOf(linked[k], out[k])
    ensures Solution(conds, out)
  {
    hide Columns, LeafOf, ConstantsPropagated, ValidEqualCond, IsEquation;
    if out != [FALSE] {
      forall e, leaf, c, v | e in conds && LeafOf(e, LogicAnd, leaf) && IsEquation(leaf, c, v)
        ensures leaf in out
      {
        assert LeafAmong(conds, leaf) && leaf in items;
        var i :| 0 <= i < |items| && items[i] == leaf;
        EquationForms(leaf);
        assert linked[i] == constants[i] == leaf;
        assert RewriteOf(linked[i], out[i]);
      }
      PropagatedForms(out);
    }
    forall k | 0 <= k < |out| ensures !IsTree(out[k], LogicAnd) { assert RewriteOf(linked[k], out[k]); }
  }

  /** An item of an OR condition is solved by itself, through all three phases. */
  ghost predicate ItemSolved(I: Interp, item: Expr, item': Expr)
    decreases Depth(item), 4
  {
    exists solved: seq<Expr> ::
      && solved != [] && item' == Compose(I, solved, LogicAnd) && Equivalent(I, [item], solved)
      && ItemPhases(I, item, solved)
  }

  ghost predicate ItemPhases(I: Interp, item: Expr, solved: seq<Expr>)
    decreases Depth(item), 3
  {
    if |Columns(item)| > 100 then solved == [item]
    else
      && Solution([item], solved)
      && (DepthOfOne(item); exists constants, linked :: Phases(I, [item], constants, linked, solved))
  }

  /** An OR condition is composed of its solved items; any other condition stays. */
  ghost predicate ConditionSolved(I: Interp, e: Expr, e': Expr)
    decreases Depth(e), 0
  {
    if e.Func? && e.op.LogicOr? && |e.args| >= 2 then
      var items := SplitItems(e, LogicOr);
      SplitShape(e, LogicOr);
      exists items': seq<Expr> ::
        && |items'| == |items| && e' == Compose(I, items', LogicOr)
        && forall j :: 0 <= j < |items| ==> ItemSolved(I, items[j], items'[j])
    else e' == e
  }

  ghost predicate OrItemsSolved(I: Interp, conds: seq<Expr>, out: seq<Expr>)
    decreases MaxDepth(conds), 1
  {
    |out| == |conds| && forall k :: 0 <= k < |conds| ==> ConditionSolved(I, conds[k], out[k])
  }

  /** The three phases: constants substituted, equal columns linked, OR items solved. */
  ghost predicate Phases(I: Interp, conds: seq<Expr>, constants: seq<Expr>, linked: seq<Expr>, out: seq<Expr>)
    decreases MaxDepth(conds), 2
  {
    && Equivalent(I, conds, constants) && (constants == [FALSE] || Propagated(constants))
    && ColumnsLinked(I, constants, linked) && MaxDepth(linked) <= MaxDepth(conds) && OrItemsSolved(I, linked, out)
  }

  lemma DepthOfOne(e: Expr)
    ensures MaxDepth([e]) == Depth(e)
  {
  }

  /** Solves the items of every OR condition; the other conditions stay as they are. */
  method PropagateConstantDNF(I: Interp, conds: seq<Expr>) returns (out: seq<Expr>)
    ensures |out| == |conds| && Equivalent(I, conds, out)
    ensures OrItemsSolved(I, conds, out)
    ensures forall k, row: Row :: 0 <= k < |conds| ==> (Holds(I, out[k], row) <==> Holds(I, conds[k], row))
    ensures forall k :: 0 <= k < |conds| ==> RewriteOf(conds[k], out[k])
    decreases MaxDepth(conds), 1
  {
    hide Eval, Columns, Depth, SplitItems, RewriteOf, ConditionSolved;
    out := conds;
    for i := 0 to |conds|
      invariant |out| == |conds| && out[i..] == conds[i..]
      invariant forall k, row: Row :: 0 <= k < i ==> (Holds(I, out[k], row) <==> Holds(I, conds[k], row))
      invariant forall k :: 0 <= k < i ==> RewriteOf(conds[k], out[k]) && ConditionSolved(I, conds[k], out[k])
    {
      var cond := out[i];
      assert cond == out[i..][0] == conds[i];
      if cond.Func? && cond.op.LogicOr? && |cond.args| >= 2 {
        assert Depth(cond) <= MaxDepth(conds);
        var cond' := SolveOr(I, cond);
        out := out[i := cond'];
      } else {
        StaysSolved(I, cond);
      }
    }
    forall row: Row ensures AllHold(I, conds, row) <==> AllHold(I, out, row) {
    }
  }

  /** Solves each item of an OR condition by itself. */
  method SolveOr(I: Interp, cond: Expr) returns (cond': Expr)
    requires cond.Func? && cond.op.LogicOr? && |cond.args| >= 2
    ensures forall row: Row :: Holds(I, cond', row) <==> Holds(I, cond, row)
    ensures RewriteOf(cond, cond') && ConditionSolved(I, cond, cond')
    decreases Depth(cond), 0
  {
    hide Eval, Holds, Columns, Depth, SplitItems, ItemSolved, Compose, NewFunction;
    var items := SplitItems(cond, LogicOr);
    SplitShape(cond, LogicOr);
    var items' := items;
    for j := 0 to |items|
      invariant |items'| == |items|
      invariant forall k, row: Row :: 0 <= k < j ==> (Holds(I, items'[k], row) <==> Holds(I, items[k], row))
      invariant forall k :: 0 <= k < j ==> Columns(items'[k]) <= Columns(cond)
      invariant forall k :: 0 <= k < j ==> ItemSolved(I, items[k], items'[k])
    {
      var item' := SolveItem(I, items[j]);
      items' := items'[j := item'];
    }
    SplitOrHasTwoItems(cond);
    SolvedItems(I, cond, items, items');
    ComposeIsNoEquation(I, items');
    cond' := Compose(I, items', LogicOr);
    OrIsNoEquation(cond);
  }

  method SolveItem(I: Interp, item: Expr) returns (item': Expr)
    ensures forall row: Row :: Holds(I, item', row) <==> Holds(I, item, row)
    ensures Columns(item') <= Columns(item) && ItemSolved(I, item, item')
    decreases Depth(item), 4
  {
    hide Eval, Columns, Depth, MaxDepth, ColumnsOf, ItemSolved, Compose, Phases, Solution;
    DepthOfOne(item);
    var solved := PropagateConstant(I, [item]);
    ColumnsOfOne(item);
    SolvedItem(I, item, solved);
    SolvedByComposing(I, item, solved);
    item' := Compose(I, solved, LogicAnd);
  }

  method PropagateConstant(I: Interp, conds: seq<Expr>) returns (out: seq<Expr>)
    ensures Equivalent(I, conds, out)
    ensures conds != [] ==> out != []
    ensures forall k :: 0 <= k < |out| ==> Columns(out[k]) <= ColumnsOf(conds)
    ensures |ColumnsOf(conds)| <= 100 ==> Solution(conds, out)
    ensures |ColumnsOf(conds)| <= 100 ==> exists constants, linked :: Phases(I, conds, constants, linked, out)
    ensures |ColumnsOf(conds)| > 100 ==> out == conds
    decreases MaxDepth(conds), 3
  {
    var solver := new PropConstSolver(I);
    out := solver.Solve(conds);
  }

  // ---------- steps of the proofs above ----------

  /** A rewritten condition reads no new column and neither becomes nor stops being an equation. */
  ghost predicate RewriteOf(e: Expr, e': Expr) {
    && Columns(e') <= Columns(e)
    && (ValidEqualCond(e').Some? || ValidEqualCond(e).Some? || !e.Func? ==> e' == e)
    && (IsTree(e', LogicAnd) ==> IsTree(e, LogicAnd))
  }

  lemma NothingSolved(I: Interp, conds: seq<Expr>)
    ensures Equivalent(I, conds, conds) && forall k :: 0 <= k < |conds| ==> Columns(conds[k]) <= ColumnsOf(conds)
  {
    assert forall k :: 0 <= k < |conds| ==> conds[k] in conds;
  }

  lemma WithinDepth(conds: seq<Expr>, cols: set<int>, d: nat)
    requires Within(conds, cols, d)
    ensures MaxDepth(conds) <= d
  {
  }

  lemma PhasesEquivalent(I: Interp, conds: seq<Expr>, conds0: seq<Expr>, conds1: seq<Expr>, conds2: seq<Expr>,
                         out: seq<Expr>)
    requires Equivalent(I, conds, conds0) && Equivalent(I, conds0, conds1) && Equivalent(I, conds1, conds2) &&
             Equivalent(I, conds2, out)
    ensures Equivalent(I, conds, conds1) && Equivalent(I, conds, out)
  {
    hide Eval;
  }

  lemma SolvedShape(conds: seq<Expr>, out: seq<Expr>, cols: set<int>, d: nat)
    requires Within(conds, cols, d) && |out| == |conds| && forall k :: 0 <= k < |conds| ==> RewriteOf(conds[k], out[k])
    ensures forall k :: 0 <= k < |out| ==> Columns(out[k]) <= cols
    ensures ConstantsPropagated(conds) ==> ConstantsPropagated(out)
    ensures conds == [FALSE] ==> out == [FALSE]
  {
    forall k | 0 <= k < |out| ensures Columns(out[k]) <= cols { assert RewriteOf(conds[k], out[k]); }
    if ConstantsPropagated(conds) { RewriteKeepsPropagated(conds, out); }
    if conds == [FALSE] { assert RewriteOf(conds[0], out[0]); }
  }

  lemma ColumnsOfOne(e: Expr)
    ensures ColumnsOf([e]) == Columns(e)
  {
    assert e in [e];
  }

  lemma StaysSolved(I: Interp, e: Expr)
    requires !(e.Func? && e.op.LogicOr? && |e.args| >= 2)
    ensures RewriteOf(e, e) && ConditionSolved(I, e, e)
  {
  }

  lemma SolvedByComposing(I: Interp, item: Expr, solved: seq<Expr>)
    requires solved != [] && Equivalent(I, [item], solved) && ItemPhases(I, item, solved)
    ensures ItemSolved(I, item, Compose(I, solved, LogicAnd))
  {
    hide ItemPhases, Compose;
  }

  lemma OrIsNoEquation(e: Expr)
    requires e.Func? && e.op.LogicOr?
    ensures ValidEqualCond(e).None?
  {
  }

  lemma RewriteKeepsPropagated(conds: seq<Expr>, out: seq<Expr>)
    requires ConstantsPropagated(conds) && |out| == |conds|
    requires forall k :: 0 <= k < |conds| ==> RewriteOf(conds[k], out[k])
    ensures ConstantsPropagated(out)
  {
    forall i, j | 0 <= i < |out| && 0 <= j < |out| && ValidEqualCond(out[i]).Some?
      && ValidEqualCond(out[i]).value.col in Columns(out[j])
      ensures ValidEqualCond(out[j]) == ValidEqualCond(out[i])
    {
      assert RewriteOf(conds[i], out[i]) && RewriteOf(conds[j], out[j]);
    }
  }

  /** The scan has recorded every equation among the first 'n' conditions and has met
      no constant that is not true. */
  ghost predicate Picked(conds: seq<Expr>, visited: seq<bool>, n: nat, pins0: map<int, Value>, pins: map<int, Value>) {
    && |conds| == |visited| && PinsRecorded(conds, visited, pins) && RestUnpinned(conds, visited, pins0)
    && forall k :: 0 <= k < |conds| && k < n && !visited[k] ==>
         ValidEqualCond(conds[k]).None? && (conds[k].Const? ==> IsTrue(conds[k].value))
  }

  lemma VisitKeepsPicked(conds: seq<Expr>, visited: seq<bool>, i: nat, pins0: map<int, Value>, pins: map<int, Value>)
    requires Picked(conds, visited, i, pins0, pins) && i < |conds| && ValidEqualCond(conds[i]).Some?
    requires var p := ValidEqualCond(conds[i]).value; !p.con.Null? && (p.col !in pins || pins[p.col] == p.con)
    ensures var p := ValidEqualCond(conds[i]).value;
            Picked(conds, visited[i := true], i + 1, pins0, pins[p.col := p.con])
  {
    var p := ValidEqualCond(conds[i]).value;
    var visited', pins' := visited[i := true], pins[p.col := p.con];
    forall c | c in pins'
      ensures exists k :: 0 <= k < |conds| && visited'[k] && ValidEqualCond(conds[k]) == Some(Pin(c, pins'[c]))
    {
      if c == p.col {
        assert visited'[i] && ValidEqualCond(conds[i]) == Some(Pin(c, pins'[c]));
      } else {
        var k :| 0 <= k < |conds| && visited[k] && ValidEqualCond(conds[k]) == Some(Pin(c, pins[c]));
        assert visited'[k];
      }
    }
  }

  lemma SubstitutionKeepsRecorded(I: Interp, conds: seq<Expr>, visited: seq<bool>, pins0: map<int, Value>,
                                  m: map<int, Value>)
    requires PinsRecorded(conds, visited, pins0 + m) && RestUnpinned(conds, visited, pins0)
    ensures PinsRecorded(SubstituteRest(I, conds, visited, m), visited, pins0 + m)
    ensures RestUnpinned(SubstituteRest(I, conds, visited, m), visited, pins0 + m)
  {
    var pins := pins0 + m;
    var conds' := SubstituteRest(I, conds, visited, m);
    assert forall k :: 0 <= k < |conds| && visited[k] ==> conds'[k] == conds[k];
    forall c | c in pins
      ensures exists k :: 0 <= k < |conds'| && visited[k] && ValidEqualCond(conds'[k]) == Some(Pin(c, pins[c]))
    {
      var k :| 0 <= k < |conds| && visited[k] && ValidEqualCond(conds[k]) == Some(Pin(c, pins[c]));
      assert conds'[k] == conds[k];
    }
    forall k | 0 <= k < |conds'| && !visited[k] ensures Columns(conds'[k]) !! pins.Keys {
      SubstituteShape(I, conds[k], m);
    }
  }

  lemma NoColumnsLeft(I: Interp, conds: seq<Expr>, visited: seq<bool>, pins: map<int, Value>, d: nat)
    requires |conds| == |visited| && RestUnpinned(conds, visited, pins) && Within(conds, pins.Keys, d)
    ensures forall k :: 0 <= k < |conds| && !visited[k] ==> ValidEqualCond(conds[k]).None?
  {
    forall k | 0 <= k < |conds| && !visited[k] ensures ValidEqualCond(conds[k]).None? {
      assert Columns(conds[k]) <= pins.Keys && Columns(conds[k]) !! pins.Keys;
      assert Columns(conds[k]) == {};
      if ValidEqualCond(conds[k]).Some? { ValidEqualCondHolds(I, conds[k], map[]); }
    }
  }

  lemma SplitWithin(e: Expr, d: nat)
    requires Depth(e) <= d
    ensures Within(SplitItems(e, LogicAnd), Columns(e), d)
  {
    SplitShape(e, LogicAnd);
  }

  lemma WithinAppend(a: seq<Expr>, b: seq<Expr>, cols: set<int>, more: set<int>, d: nat)
    requires Within(a, cols, d) && Within(b, more, d)
    ensures Within(a + b, cols + more, d)
  {
  }

  lemma MorePins(pins: map<int, Value>, m: map<int, Value>)
    requires m != map[] && m.Keys !! pins.Keys
    ensures |(pins + m).Keys| > |pins.Keys|
  {
    assert (pins + m).Keys == pins.Keys + m.Keys;
    assert m.Keys != {};
  }

  lemma SubsetSize(a: set<int>, b: set<int>)
    requires a <= b
    ensures |a| <= |b|
    ensures |a| == |b| ==> a == b
  {
    assert b == a + (b - a);
    assert |b| == |a| + |b - a|;
  }

  lemma AllPinned(index: map<int, nat>, pins: map<int, Value>)
    requires pins.Keys <= index.Keys && |index| <= |pins.Keys|
    ensures pins.Keys == index.Keys
  {
    assert |index| == |index.Keys|;
    SubsetSize(pins.Keys, index.Keys);
  }

  lemma DerivationExtends(I: Interp, source: seq<Expr>, conds: seq<Expr>, k: nat, a: int, b: int, cols: set<int>,
                          d: nat)
    requires k < |source| && Extends(I, source, conds) && Interchangeable(I, source, a, b)
    requires TryToReplace(I, a, b, source[k]).replaced && Within(conds, cols, d) && b in cols
    ensures Extends(I, source, conds + [TryToReplace(I, a, b, source[k]).expr])
    ensures Within(conds + [TryToReplace(I, a, b, source[k]).expr], cols, d)
  {
    hide TryToReplace, Columns, Depth, Eval, Linked;
    var e := TryToReplace(I, a, b, source[k]).expr;
    TryToReplaceShape(I, a, b, source[k]);
    assert source[k] == conds[k];
    assert DerivedFrom(I, source, e);
    forall row: Row ensures AllHold(I, source, row) <==> AllHold(I, conds + [e], row) {
      AllHoldAppend(I, conds, [e], row);
      assert AllHold(I, source, row) <==> AllHold(I, conds, row);
      if AllHold(I, source, row) {
        TryToReplaceSound(I, a, b, source[k], row);
        assert Holds(I, source[k], row);
      }
    }
  }

  lemma NothingFromFalse(I: Interp, added: seq<Expr>)
    requires forall k :: 0 <= k < |added| ==> DerivedFrom(I, [FALSE], added[k])
    ensures added == []
  {
    if added != [] { NotDerivedFromFalse(I, added[0]); }
  }

  lemma NotDerivedFromFalse(I: Interp, e: Expr)
    ensures !DerivedFrom(I, [FALSE], e)
  {
  }

  /** The conditions are the leaves of the given AND trees. */
  ghost predicate AllLeaves(conds: seq<Expr>, items: seq<Expr>) {
    forall leaf :: leaf in items <==> LeafAmong(conds, leaf)
  }

  ghost predicate LeafAmong(conds: seq<Expr>, leaf: Expr) {
    exists e :: e in conds && LeafOf(e, LogicAnd, leaf)
  }

  lemma LeafAppend(conds: seq<Expr>, e: Expr, leaf: Expr)
    ensures LeafAmong(conds + [e], leaf) <==> LeafAmong(conds, leaf) || LeafOf(e, LogicAnd, leaf)
  {
    hide LeafOf;
    if d :| d in conds && LeafOf(d, LogicAnd, leaf) { assert d in conds + [e]; }
    if LeafOf(e, LogicAnd, leaf) { assert e in conds + [e]; }
  }

  lemma NoLeaves()
    ensures AllLeaves([], []) && NoTrees([])
  {
  }

  lemma SplitAddsLeaves(conds: seq<Expr>, i: nat, items: seq<Expr>)
    requires i < |conds| && AllLeaves(conds[..i], items) && NoTrees(items)
    ensures AllLeaves(conds[..i + 1], items + SplitItems(conds[i], LogicAnd))
    ensures NoTrees(items + SplitItems(conds[i], LogicAnd))
  {
    hide LeafOf, SplitItems;
    var more := SplitItems(conds[i], LogicAnd);
    assert conds[..i + 1] == conds[..i] + [conds[i]];
    forall leaf ensures leaf in items + more <==> LeafAmong(conds[..i + 1], leaf) {
      SplitLeaves(conds[i], LogicAnd, leaf);
      LeafAppend(conds[..i], conds[i], leaf);
    }
    forall k | 0 <= k < |more| ensures !IsTree(more[k], LogicAnd) {
      SplitLeaves(conds[i], LogicAnd, more[k]);
      LeafIsNoTree(conds[i], LogicAnd, more[k]);
    }
  }

  lemma SplitKeepsMeaning(I: Interp, conds: seq<Expr>, i: nat, conditions: seq<Expr>)
    requires i < |conds| && Equivalent(I, conds[..i], conditions)
    ensures Equivalent(I, conds[..i + 1], conditions + SplitItems(conds[i], LogicAnd))
  {
    var items := SplitItems(conds[i], LogicAnd);
    assert conds[..i + 1] == conds[..i] + [conds[i]];
    forall row: Row ensures AllHold(I, conds[..i + 1], row) <==> AllHold(I, conditions + items, row) {
      AllHoldAppend(I, conds[..i], [conds[i]], row);
      AllHoldAppend(I, conditions, items, row);
      SplitAndHolds(I, conds[i], row);
      assert AllHold(I, [conds[i]], row) <==> Holds(I, [conds[i]][0], row);
      assert AllHold(I, conds[..i], row) <==> AllHold(I, conditions, row);
    }
  }

  lemma SolvedItem(I: Interp, item: Expr, solved: seq<Expr>)
    requires solved != [] && Equivalent(I, [item], solved)
    requires forall k :: 0 <= k < |solved| ==> Columns(solved[k]) <= Columns(item)
    ensures forall row: Row :: Holds(I, Compose(I, solved, LogicAnd), row) <==> Holds(I, item, row)
    ensures Columns(Compose(I, solved, LogicAnd)) <= Columns(item)
  {
    forall row: Row ensures Holds(I, Compose(I, solved, LogicAnd), row) <==> Holds(I, item, row) {
      ComposeHolds(I, solved, row);
      assert AllHold(I, [item], row) <==> Holds(I, [item][0], row);
      assert AllHold(I, [item], row) <==> AllHold(I, solved, row);
    }
    ComposeColumns(I, solved, LogicAnd, Columns(item));
  }

  lemma {:induction false} ComposeColumns(I: Interp, conds: seq<Expr>, op: Op, cols: set<int>)
    requires conds != [] && forall k :: 0 <= k < |conds| ==> Columns(conds[k]) <= cols
    ensures Columns(Compose(I, conds, op)) <= cols
    decreases |conds|
  {
    if |conds| > 1 {
      var a, b := conds[..|conds| / 2], conds[|conds| / 2..];
      ComposeColumns(I, a, op, cols);
      ComposeColumns(I, b, op, cols);
      NewFunctionSound(I, op, [Compose(I, a, op), Compose(I, b, op)], map[]);
    }
  }

  lemma SolvedItems(I: Interp, cond: Expr, items: seq<Expr>, items': seq<Expr>)
    requires items == SplitItems(cond, LogicOr) && |items'| == |items|
    requires forall k, row: Row :: 0 <= k < |items| ==> (Holds(I, items'[k], row) <==> Holds(I, items[k], row))
    requires forall k :: 0 <= k < |items| ==> Columns(items'[k]) <= Columns(cond)
    ensures forall row: Row :: Holds(I, Compose(I, items', LogicOr), row) <==> Holds(I, cond, row)
    ensures Columns(Compose(I, items', LogicOr)) <= Columns(cond)
  {
    forall row: Row ensures Holds(I, Compose(I, items', LogicOr), row) <==> Holds(I, cond, row) {
      ComposeHolds(I, items', row);
      SplitOrHolds(I, cond, row);
      assert AnyHolds(I, items', row) <==> AnyHolds(I, items, row);
    }
    ComposeColumns(I, items', LogicOr, Columns(cond));
  }

  lemma SplitOrHasTwoItems(e: Expr)
    requires e.Func? && e.op.LogicOr? && |e.args| >= 2
    ensures |SplitItems(e, LogicOr)| >= 2
  {
    assert SplitAll(e.args, LogicOr) == SplitItems(e.args[0], LogicOr) + SplitAll(e.args[1..], LogicOr);
    assert e.args[1..] != [];
  }

  lemma ComposeIsNoEquation(I: Interp, conds: seq<Expr>)
    requires |conds| >= 2
    ensures ValidEqualCond(Compose(I, conds, LogicOr)).None? && !IsTree(Compose(I, conds, LogicOr), LogicAnd)
  {
  }
}
