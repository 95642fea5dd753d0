/** The fixpoint condition solver: it picks two live conditions, substitutes a
    'column = constant' condition into the other one, appends the result unless it
    is already known, and tombstones what it rewrote. */
module ConstraintPropagation {
  import opened Expressions
  import opened Wrappers

  /** The live conditions, in order. */
  function Live(data: seq<Expr>, tomb: seq<bool>): seq<Expr>
    requires |data| == |tomb|
  {
    if data == [] then []
    else Live(data[..|data| - 1], tomb[..|data| - 1]) + (if tomb[|data| - 1] then [] else [data[|data| - 1]])
  }

  lemma {:induction false} LiveMembers(data: seq<Expr>, tomb: seq<bool>)
    requires |data| == |tomb|
    ensures forall e :: e in Live(data, tomb) <==> exists i :: 0 <= i < |data| && !tomb[i] && data[i] == e
  {
    if data != [] {
      var n := |data| - 1;
      LiveMembers(data[..n], tomb[..n]);
      forall e ensures e in Live(data, tomb) <==> exists i :: 0 <= i < |data| && !tomb[i] && data[i] == e {
        if i :| 0 <= i < |data| && !tomb[i] && data[i] == e {
          if i < n { assert data[..n][i] == e && !tomb[..n][i]; }
        }
      }
    }
  }

  /** Columns mentioned by live conditions, counted once per condition. Every rewrite
      makes this smaller, even one that appends a condition. */
  function LiveColumns(data: seq<Expr>, tomb: seq<bool>): nat
    requires |data| == |tomb|
  {
    if data == [] then 0
    else LiveColumns(data[..|data| - 1], tomb[..|data| - 1])
         + (if tomb[|data| - 1] then 0 else |Columns(data[|data| - 1])|)
  }

  lemma {:induction false} TombstoneShrinks(data: seq<Expr>, tomb: seq<bool>, j: nat)
    requires |data| == |tomb| && j < |data| && !tomb[j]
    ensures LiveColumns(data, tomb[j := true]) + |Columns(data[j])| == LiveColumns(data, tomb)
  {
    var n := |data| - 1;
    if j < n {
      assert tomb[j := true][..n] == tomb[..n][j := true];
      TombstoneShrinks(data[..n], tomb[..n], j);
    } else {
      assert tomb[j := true][..n] == tomb[..n];
    }
  }

  lemma AppendGrows(data: seq<Expr>, tomb: seq<bool>, e: Expr)
    requires |data| == |tomb|
    ensures LiveColumns(data + [e], tomb + [false]) == LiveColumns(data, tomb) + |Columns(e)|
  {
    assert (data + [e])[..|data|] == data && (tomb + [false])[..|data|] == tomb;
  }

  lemma FewerColumns(a: set<int>, b: set<int>)
    requires a < b
    ensures |a| < |b|
  {
    assert b == a + (b - a) && b - a != {};
    assert |b| == |a| + |b - a|;
  }

  // ---------- what a tombstoned condition may rely on ----------

  /** The live conditions that may stand in for condition 'd': every live
      'column = constant', and every live condition with fewer columns. */
  ghost predicate Supported(I: Interp, data: seq<Expr>, tomb: seq<bool>, d: Expr, row: Row)
    requires |data| == |tomb|
  {
    forall l :: 0 <= l < |data| && !tomb[l] && (ValidEqualCond(data[l]).Some? || |Columns(data[l])| < |Columns(d)|)
      ==> Holds(I, data[l], row)
  }

  /** Every tombstoned condition follows from its support. */
  ghost predicate Justified(I: Interp, data: seq<Expr>, tomb: seq<bool>)
    requires |data| == |tomb|
  {
    forall d, row: Row :: 0 <= d < |data| && tomb[d] && Supported(I, data, tomb, data[d], row)
      ==> Holds(I, data[d], row)
  }

  ghost predicate TombstonesHaveColumns(data: seq<Expr>, tomb: seq<bool>)
    requires |data| == |tomb|
  {
    forall d :: 0 <= d < |data| && tomb[d] ==> Columns(data[d]) != {}
  }

  function Substituted(I: Interp, data: seq<Expr>, i: nat, j: nat): Expr
    requires i < |data| && j < |data| && ValidEqualCond(data[i]).Some?
  {
    var p := ValidEqualCond(data[i]).value;
    Substitute(I, data[j], map[p.col := p.con]).1
  }

  /** Under a 'column = constant' condition, a condition and its substituted form
      are true together; the form has fewer columns whenever it differs. */
  lemma SubstitutedMeaning(I: Interp, data: seq<Expr>, i: nat, j: nat)
    requires i < |data| && j < |data| && ValidEqualCond(data[i]).Some?
    ensures var e := Substituted(I, data, i, j);
            && (forall row: Row :: Holds(I, data[i], row) ==> (Holds(I, e, row) <==> Holds(I, data[j], row)))
            && (e != data[j] ==> |Columns(e)| < |Columns(data[j])|)
            && (e == data[j] ==> ValidEqualCond(data[i]).value.col !in Columns(data[j]))
  {
    var p := ValidEqualCond(data[i]).value;
    var m := map[p.col := p.con];
    var e := Substituted(I, data, i, j);
    forall row: Row | Holds(I, data[i], row) ensures Holds(I, e, row) <==> Holds(I, data[j], row) {
      ValidEqualCondHolds(I, data[i], row);
      SubstituteSound(I, data[j], m, row);
    }
    SubstituteShape(I, data[j], m);
    assert m.Keys == {p.col};
    if e != data[j] {
      FewerColumns(Columns(e), Columns(data[j]));
    }
  }

  /** Tombstoning condition 'j' keeps every tombstoned condition justified, whether its
      substituted form is new, live, or itself tombstoned. */
  lemma RewriteKeepsJustified(I: Interp, data: seq<Expr>, tomb: seq<bool>, i: nat, j: nat)
    requires |data| == |tomb| && i < |data| && j < |data| && i != j && !tomb[i] && !tomb[j]
    requires ValidEqualCond(data[i]).Some?
    requires Substituted(I, data, i, j) != data[j] && Substituted(I, data, i, j) in data
    requires Justified(I, data, tomb) && TombstonesHaveColumns(data, tomb)
    ensures Justified(I, data, tomb[j := true]) && TombstonesHaveColumns(data, tomb[j := true])
  {
    var e := Substituted(I, data, i, j);
    var tomb' := tomb[j := true];
    SubstitutedMeaning(I, data, i, j);
    assert Columns(data[j]) != {};
    // first, 'j' itself follows from its new support
    forall row: Row | Supported(I, data, tomb', data[j], row) ensures Holds(I, data[j], row) {
      JustifyRewritten(I, data, tomb, i, j, row);
    }
    // then so does whatever 'j' supported
    forall d, row: Row | 0 <= d < |data| && tomb'[d] && Supported(I, data, tomb', data[d], row)
      ensures Holds(I, data[d], row)
    {
      if d != j {
        if ValidEqualCond(data[j]).Some? || |Columns(data[j])| < |Columns(data[d])| {
          ValidEqualHasOneColumn(I, data[j]);
          assert |Columns(data[j])| <= |Columns(data[d])|;
          assert Supported(I, data, tomb', data[j], row);
          assert Holds(I, data[j], row);
        }
        assert Supported(I, data, tomb, data[d], row);
      }
    }
  }

  lemma ValidEqualHasOneColumn(I: Interp, e: Expr)
    ensures ValidEqualCond(e).Some? ==> |Columns(e)| == 1
  {
    if ValidEqualCond(e).Some? { ValidEqualCondHolds(I, e, map[]); }
  }

  lemma JustifyRewritten(I: Interp, data: seq<Expr>, tomb: seq<bool>, i: nat, j: nat, row: Row)
    requires |data| == |tomb| && i < |data| && j < |data| && i != j && !tomb[i] && !tomb[j]
    requires ValidEqualCond(data[i]).Some?
    requires Substituted(I, data, i, j) != data[j] && Substituted(I, data, i, j) in data
    requires Justified(I, data, tomb) && TombstonesHaveColumns(data, tomb)
    requires Supported(I, data, tomb[j := true], data[j], row)
    ensures Holds(I, data[j], row)
  {
    var e := Substituted(I, data, i, j);
    SubstitutedMeaning(I, data, i, j);
    assert Holds(I, data[i], row);
    var m :| 0 <= m < |data| && data[m] == e;
    if tomb[m] {
      // the form was rewritten earlier; 'j' has more columns, so it is not in its support
      if ValidEqualCond(data[j]).Some? { ValidEqualHasOneColumn(I, data[j]); }
      assert Supported(I, data, tomb, data[m], row);
    }
  }

  lemma AppendKeepsJustified(I: Interp, data: seq<Expr>, tomb: seq<bool>, e: Expr)
    requires |data| == |tomb|
    requires Justified(I, data, tomb) && TombstonesHaveColumns(data, tomb)
    ensures Justified(I, data + [e], tomb + [false]) && TombstonesHaveColumns(data + [e], tomb + [false])
  {
    var data', tomb' := data + [e], tomb + [false];
    forall d, row: Row | 0 <= d < |data'| && tomb'[d] && Supported(I, data', tomb', data'[d], row)
      ensures Holds(I, data'[d], row)
    {
      assert data'[d] == data[d];
      forall l | 0 <= l < |data| && !tomb[l] &&
        (ValidEqualCond(data[l]).Some? || |Columns(data[l])| < |Columns(data[d])|)
        ensures Holds(I, data[l], row)
      {
        assert data'[l] == data[l] && !tomb'[l];
      }
      assert Supported(I, data, tomb, data[d], row);
    }
  }

  /** The live conditions entail every condition ever appended. */
  lemma LiveEntailsAll(I: Interp, data: seq<Expr>, tomb: seq<bool>, row: Row)
    requires |data| == |tomb| && Justified(I, data, tomb)
    ensures AllHold(I, Live(data, tomb), row) <==> AllHold(I, data, row)
  {
    LiveMembers(data, tomb);
    var live := Live(data, tomb);
    if AllHold(I, live, row) {
      forall d | 0 <= d < |data| ensures Holds(I, data[d], row) {
        if !tomb[d] {
          assert data[d] in live;
        } else {
          forall l | 0 <= l < |data| && !tomb[l] ensures Holds(I, data[l], row) {
            assert data[l] in live;
          }
          assert Supported(I, data, tomb, data[d], row);
        }
      }
    }
    if AllHold(I, data, row) {
      forall k | 0 <= k < |live| ensures Holds(I, live[k], row) {
        assert live[k] in live;
      }
    }
  }

  /** The live pair (i, j) has nothing left to propagate. */
  ghost predicate Settled(data: seq<Expr>, tomb: seq<bool>, constFalse: bool, i: int, j: int)
    requires |data| == |tomb| && 0 <= i < |data| && 0 <= j < |data|
  {
    !tomb[i] && !tomb[j] && i != j ==>
      && (data[i] == FALSE ==> constFalse)
      && (ValidEqualCond(data[i]).Some? ==> ValidEqualCond(data[i]).value.col !in Columns(data[j]))
  }

  ghost predicate AllSettled(data: seq<Expr>, tomb: seq<bool>, constFalse: bool)
    requires |data| == |tomb|
  {
    forall i, j :: 0 <= i < |data| && 0 <= j < |data| ==> Settled(data, tomb, constFalse, i, j)
  }

  class ExprSet {
    const I: Interp
    var data: seq<Expr>
    var tombstone: seq<bool>
    var known: set<Expr>
    var constFalse: bool

    /** The set is well formed and still means what 'conditions' means. */
    ghost predicate Valid(conditions: seq<Expr>)
      reads this
    {
      && |data| == |tombstone|
      && (forall e :: e in known <==> e in data)
      && Equivalent(I, conditions, data)
      && Justified(I, data, tombstone)
      && TombstonesHaveColumns(data, tombstone)
      && (constFalse ==> FALSE in data)
    }

    method Append(e: Expr) returns (added: bool)
      modifies this
      requires |data| == |tombstone|
      requires forall x :: x in known <==> x in data
      ensures added <==> e !in old(known)
      ensures data == (if added then old(data) + [e] else old(data))
      ensures tombstone == (if added then old(tombstone) + [false] else old(tombstone))
      ensures forall x :: x in known <==> x in data
      ensures constFalse == old(constFalse)
    {
      if e in known { return false; }
      data := data + [e];
      tombstone := tombstone + [false];
      known := known + {e};
      added := true;
    }

    constructor (I: Interp, conditions: seq<Expr>)
      ensures this.I == I && Valid(conditions) && !constFalse
      ensures forall e :: e in data <==> e in conditions
    {
      this.I := I;
      data, tombstone, known, constFalse := [], [], {}, false;
      new;
      for k := 0 to |conditions|
        invariant |data| == |tombstone|
        invariant forall e :: e in known <==> e in data
        invariant forall e :: e in data <==> e in conditions[..k]
        invariant forall d :: 0 <= d < |data| ==> !tombstone[d]
        invariant !constFalse
      {
        assert conditions[..k + 1] == conditions[..k] + [conditions[k]];
        var _ := Append(conditions[k]);
      }
      assert conditions[..|conditions|] == conditions;
      SameMembersEquivalent(I, conditions, data);
    }

    method RuleConstantFalse(i: nat, j: nat, ghost conditions: seq<Expr>)
      requires Valid(conditions) && i < |data| && j < |data|
      modifies this`constFalse
      ensures Valid(conditions)
      ensures constFalse <==> old(constFalse) || data[i] == FALSE
    {
      var cond := data[i];
      if cond.Const? && !cond.value.Null? && cond.value.v == 0 {
        constFalse := true;
      }
    }

    method RuleColumnEQConst(i: nat, j: nat, ghost conditions: seq<Expr>)
      requires Valid(conditions) && i < |data| && j < |data| && i != j && !tombstone[i] && !tombstone[j]
      modifies this
      ensures Valid(conditions) && constFalse == old(constFalse)
      ensures data == old(data) || exists e :: data == old(data) + [e]
      ensures forall d :: 0 <= d < |old(data)| && d != j ==> tombstone[d] == old(tombstone)[d]
      ensures LiveColumns(data, tombstone) < LiveColumns(old(data), old(tombstone))
              || (data == old(data) && tombstone == old(tombstone))
      ensures ValidEqualCond(data[i]).Some? && !tombstone[j] ==>
                ValidEqualCond(data[i]).value.col !in Columns(data[j])
    {
      if ValidEqualCond(data[i]).Some? {
        var expr := Substituted(I, data, i, j);
        SubstitutedMeaning(I, data, i, j);
        if expr != data[j] {
          var data0, tomb0 := data, tombstone;
          assert Columns(data[j]) != {};
          var added := Append(expr);
          if added {
            AppendKeepsJustified(I, data0, tomb0, expr);
            AppendGrows(data0, tomb0, expr);
            AppendEquivalent(I, conditions, data0, i, j, expr);
          }
          assert Substituted(I, data, i, j) == expr;
          assert expr in data;
          TombstoneShrinks(data, tombstone, j);
          RewriteKeepsJustified(I, data, tombstone, i, j);
          tombstone := tombstone[j := true];
        }
      }
    }

    method Solve(i: nat, j: nat, ghost conditions: seq<Expr>)
      requires Valid(conditions) && i < |data| && j < |data| && i != j && !tombstone[i] && !tombstone[j]
      modifies this
      ensures Valid(conditions) && (old(constFalse) ==> constFalse)
      ensures data == old(data) || exists e :: data == old(data) + [e]
      ensures forall d :: 0 <= d < |old(data)| && d != j ==> tombstone[d] == old(tombstone)[d]
      ensures LiveColumns(data, tombstone) < LiveColumns(old(data), old(tombstone))
              || (data == old(data) && tombstone == old(tombstone))
      ensures Settled(data, tombstone, constFalse, i, j)
    {
      RuleConstantFalse(i, j, conditions);
      RuleColumnEQConst(i, j, conditions);
    }

    method IterOnce(ghost conditions: seq<Expr>)
      requires Valid(conditions)
      modifies this
      ensures Valid(conditions)
      ensures |data| > |old(data)| ==> LiveColumns(data, tombstone) < LiveColumns(old(data), old(tombstone))
      ensures |data| >= |old(data)|
      ensures |data| == |old(data)| ==> AllSettled(data, tombstone, constFalse)
    {
      var i := 0;
      ghost var len0 := |data|;
      ghost var cols0 := LiveColumns(data, tombstone);
      while i < |data|
        invariant 0 <= i <= |data| && len0 <= |data|
        invariant Valid(conditions)
        invariant LiveColumns(data, tombstone) <= cols0
        invariant |data| > len0 ==> LiveColumns(data, tombstone) < cols0
        invariant |data| == len0 ==>
          forall i', j' :: 0 <= i' < i && 0 <= j' < |data| ==> Settled(data, tombstone, constFalse, i', j')
        decreases LiveColumns(data, tombstone), |data| - i
      {
        ghost var cols1, data1, tomb1 := LiveColumns(data, tombstone), data, tombstone;
        if !tombstone[i] {
          var j := 0;
          while j < |data|
            invariant 0 <= i < |data1| <= |data| && 0 <= j <= |data| && len0 <= |data|
            invariant Valid(conditions) && !tombstone[i]
            invariant LiveColumns(data, tombstone) <= cols1 <= cols0
            invariant |data| > len0 ==> LiveColumns(data, tombstone) < cols0
            invariant |data| > |data1| ==> LiveColumns(data, tombstone) < cols1
            invariant |data| == len0 ==>
              && (forall i', j' :: 0 <= i' < i && 0 <= j' < |data| ==> Settled(data, tombstone, constFalse, i', j'))
              && (forall j' :: 0 <= j' < j ==> Settled(data, tombstone, constFalse, i, j'))
            decreases LiveColumns(data, tombstone), |data| - j
          {
            if !tombstone[j] && i != j {
              ghost var data2, tomb2, flag2 := data, tombstone, constFalse;
              Solve(i, j, conditions);
              if |data| == len0 {
                SettledStays(data2, tomb2, flag2, data, tombstone, constFalse);
              }
            }
            j := j + 1;
          }
        }
        i := i + 1;
      }
    }

    method FixPoint(ghost conditions: seq<Expr>)
      requires Valid(conditions)
      modifies this
      ensures Valid(conditions) && AllSettled(data, tombstone, constFalse)
    {
      while true
        invariant Valid(conditions)
        decreases LiveColumns(data, tombstone)
      {
        var saveLen := |data|;
        IterOnce(conditions);
        if saveLen == |data| { break; }
      }
    }

    /** Compacts the live conditions to the front of 'data' and returns them. */
    method Slice() returns (out: seq<Expr>)
      requires |data| == |tombstone|
      modifies this`data
      ensures constFalse ==> out == [FALSE]
      ensures !constFalse ==> out == Live(old(data), tombstone)
    {
      if constFalse { return [FALSE]; }
      var idx, i := 0, 0;
      while i < |data|
        invariant 0 <= idx <= i <= |data| == |old(data)|
        invariant data[i..] == old(data)[i..]
        invariant data[..idx] == Live(old(data)[..i], tombstone[..i])
      {
        assert old(data)[..i + 1][..i] == old(data)[..i] && tombstone[..i + 1][..i] == tombstone[..i];
        assert data[i] == data[i..][0] == old(data)[i];
        if !tombstone[i] {
          ghost var before := data;
          data := data[idx := data[i]];
          assert data[..idx + 1] == before[..idx] + [before[i]];
          idx := idx + 1;
        }
        i := i + 1;
      }
      assert old(data)[..i] == old(data) && tombstone[..i] == tombstone;
      out := data[..idx];
    }
  }

  lemma SettledStays(data0: seq<Expr>, tomb0: seq<bool>, flag0: bool, data1: seq<Expr>, tomb1: seq<bool>, flag1: bool)
    requires |data0| == |tomb0| && |data1| == |tomb1| && data0 == data1 && (flag0 ==> flag1)
    requires forall d :: 0 <= d < |data0| && tomb0[d] ==> tomb1[d]
    ensures forall i, j :: 0 <= i < |data0| && 0 <= j < |data0| && Settled(data0, tomb0, flag0, i, j)
              ==> Settled(data1, tomb1, flag1, i, j)
  {
  }

  lemma SameMembersEquivalent(I: Interp, a: seq<Expr>, b: seq<Expr>)
    requires forall e :: e in a <==> e in b
    ensures Equivalent(I, a, b)
  {
    forall row: Row ensures AllHold(I, a, row) <==> AllHold(I, b, row) {
      assert forall k :: 0 <= k < |a| ==> a[k] in b;
      assert forall k :: 0 <= k < |b| ==> b[k] in a;
    }
  }

  lemma AppendEquivalent(I: Interp, conditions: seq<Expr>, data: seq<Expr>, i: nat, j: nat, e: Expr)
    requires i < |data| && j < |data| && ValidEqualCond(data[i]).Some? && e == Substituted(I, data, i, j)
    requires Equivalent(I, conditions, data)
    ensures Equivalent(I, conditions, data + [e])
  {
    SubstitutedMeaning(I, data, i, j);
    forall row: Row ensures AllHold(I, conditions, row) <==> AllHold(I, data + [e], row) {
      assert AllHold(I, conditions, row) <==> AllHold(I, data, row);
      AllHoldAppend(I, data, [e], row);
      if AllHold(I, data, row) {
        assert Holds(I, data[i], row) && Holds(I, data[j], row);
      }
    }
  }

  /** Solves a condition list: the result is true on exactly the rows of the input, and
      no condition of it mentions a column that another one equates with a constant. */
  method PropagateConstant(I: Interp, conditions: seq<Expr>) returns (out: seq<Expr>)
    ensures Equivalent(I, conditions, out)
    ensures |out| > 1 ==> FALSE !in out
    ensures forall i, j, c, v :: 0 <= i < |out| && 0 <= j < |out| && i != j && IsEquation(out[i], c, v)
              ==> c !in Columns(out[j])
  {
    hide IsEquation;
    var exprs := new ExprSet(I, conditions);
    exprs.FixPoint(conditions);
    ghost var data, tomb := exprs.data, exprs.tombstone;
    out := exprs.Slice();
    if exprs.constFalse {
      forall row: Row ensures AllHold(I, conditions, row) <==> AllHold(I, out, row) {
        assert AllHold(I, conditions, row) <==> AllHold(I, data, row);
        var k :| 0 <= k < |data| && data[k] == FALSE;
        assert !Holds(I, data[k], row) && !Holds(I, out[0], row);
      }
    } else {
      forall row: Row ensures AllHold(I, conditions, row) <==> AllHold(I, out, row) {
        LiveEntailsAll(I, data, tomb, row);
      }
      LiveSettled(data, tomb);
    }
    forall i, j, c, v | 0 <= i < |out| && 0 <= j < |out| && i != j && IsEquation(out[i], c, v)
      ensures c !in Columns(out[j])
    {
      EquationForms(out[i]);
    }
  }

  /** Distinct positions of the live list come from distinct live positions. */
  lemma {:induction false} LivePositions(data: seq<Expr>, tomb: seq<bool>) returns (pos: seq<nat>)
    requires |data| == |tomb|
    ensures |pos| == |Live(data, tomb)|
    ensures forall k :: 0 <= k < |pos| ==> pos[k] < |data| && !tomb[pos[k]] && data[pos[k]] == Live(data, tomb)[k]
    ensures forall k, l :: 0 <= k < l < |pos| ==> pos[k] < pos[l]
  {
    if data == [] {
      pos := [];
    } else {
      var n := |data| - 1;
      var before := LivePositions(data[..n], tomb[..n]);
      pos := if tomb[n] then before else before + [n];
      forall k | 0 <= k < |before|
        ensures before[k] < n && !tomb[before[k]] && data[before[k]] == Live(data, tomb)[k]
      {
        assert data[..n][before[k]] == Live(data[..n], tomb[..n])[k];
      }
    }
  }

  lemma LiveSettled(data: seq<Expr>, tomb: seq<bool>)
    requires |data| == |tomb| && AllSettled(data, tomb, false)
    ensures var out := Live(data, tomb);
            && (|out| > 1 ==> FALSE !in out)
            && forall i, j :: 0 <= i < |out| && 0 <= j < |out| && i != j && ValidEqualCond(out[i]).Some?
                 ==> ValidEqualCond(out[i]).value.col !in Columns(out[j])
  {
    var out := Live(data, tomb);
    var pos := LivePositions(data, tomb);
    forall i, j | 0 <= i < |out| && 0 <= j < |out| && i != j
      ensures ValidEqualCond(out[i]).Some? ==> ValidEqualCond(out[i]).value.col !in Columns(out[j])
    {
      assert pos[i] != pos[j];
      assert Settled(data, tomb, false, pos[i], pos[j]);
    }
    if |out| > 1 {
      forall i | 0 <= i < |out| ensures out[i] != FALSE {
        var j := if i == 0 then 1 else 0;
        assert pos[i] != pos[j];
        assert Settled(data, tomb, false, pos[i], pos[j]);
      }
    }
  }
}
