/** Scalar expressions, their three-valued meaning, and the rewriting primitives
    that the condition solvers share: constant folding, substitution of constants
    for columns, replacement of one column by another, and splitting and composing
    AND and OR trees. */
module Expressions {

  import opened Wrappers

  datatype Value = Null | Int(v: int)

  datatype Op =
    | LogicAnd
    | LogicOr
    | UnaryNot
    | IsNull
    | EQ
    | Builtin(name: string)
    | Unfoldable(name: string)

  datatype Expr =
    | Const(value: Value)
    | Column(id: int)
    | Func(op: Op, args: seq<Expr>)

  /** A row gives columns their values; a column it does not hold is NULL. */
  type Row = map<int, Value>

  /** The meaning of the functions this module does not interpret. Every result
      below holds for all of them. */
  type Interp = (string, seq<Value>) -> Value

  const FALSE: Expr := Const(Int(0))

  predicate IsTrue(v: Value) {
    v.Int? && v.v != 0
  }

  function Lookup(row: Row, col: int): Value {
    if col in row then row[col] else Null
  }

  // A function applied to a number of arguments it does not accept is NULL; such
  // applications cannot be built.
  function Apply(I: Interp, op: Op, vals: seq<Value>): Value {
    match op
    case LogicAnd =>
      if Int(0) in vals then Int(0) else if Null in vals then Null else Int(1)
    case LogicOr =>
      if exists v :: v in vals && IsTrue(v) then Int(1) else if Null in vals then Null else Int(0)
    case UnaryNot =>
      if |vals| != 1 || vals[0].Null? then Null else if vals[0] == Int(0) then Int(1) else Int(0)
    case IsNull =>
      if |vals| != 1 then Null else if vals[0].Null? then Int(1) else Int(0)
    case EQ =>
      if |vals| != 2 || Null in vals then Null else if vals[0] == vals[1] then Int(1) else Int(0)
    case Builtin(name) => I(name, vals)
    case Unfoldable(name) => I(name, vals)
  }

  function Eval(I: Interp, e: Expr, row: Row): Value
    decreases e
  {
    match e
    case Const(v) => v
    case Column(id) => Lookup(row, id)
    case Func(op, args) => Apply(I, op, seq(|args|, i requires 0 <= i < |args| => Eval(I, args[i], row)))
  }

  predicate Holds(I: Interp, e: Expr, row: Row) {
    IsTrue(Eval(I, e, row))
  }

  predicate AllHold(I: Interp, conds: seq<Expr>, row: Row) {
    forall i :: 0 <= i < |conds| ==> Holds(I, conds[i], row)
  }

  /** The two condition lists are true on exactly the same rows. */
  ghost predicate Equivalent(I: Interp, a: seq<Expr>, b: seq<Expr>) {
    forall row: Row :: AllHold(I, a, row) <==> AllHold(I, b, row)
  }

  function Columns(e: Expr): set<int> {
    match e
    case Const(_) => {}
    case Column(id) => {id}
    case Func(_, args) => set a, c | a in args && c in Columns(a) :: c
  }

  function Depth(e: Expr): nat
    decreases e, 0
  {
    match e
    case Const(_) => 0
    case Column(_) => 0
    case Func(_, args) => 1 + MaxDepth(args)
  }

  function MaxDepth(es: seq<Expr>): (d: nat)
    ensures forall i :: 0 <= i < |es| ==> Depth(es[i]) <= d
    ensures es != [] ==> exists i :: 0 <= i < |es| && Depth(es[i]) == d
    decreases es, 1
  {
    if es == [] then 0
    else
      var d := MaxDepth(es[1..]);
      assert forall i :: 1 <= i < |es| ==> es[i] == es[1..][i - 1];
      assert es[1..] != [] ==> exists i :: 1 <= i < |es| && Depth(es[i]) == d by {
        if es[1..] != [] {
          var i :| 0 <= i < |es[1..]| && Depth(es[1..][i]) == d;
          assert es[1..][i] == es[i + 1];
        }
      }
      if Depth(es[0]) > d then Depth(es[0]) else d
  }

  /** Evaluation only reads the columns an expression mentions. */
  lemma {:induction false} EvalReadsColumns(I: Interp, e: Expr, r: Row, s: Row)
    requires forall c :: c in Columns(e) ==> Lookup(r, c) == Lookup(s, c)
    ensures Eval(I, e, r) == Eval(I, e, s)
  {
    match e
    case Const(_) =>
    case Column(_) =>
    case Func(op, args) =>
      forall i | 0 <= i < |args| ensures Eval(I, args[i], r) == Eval(I, args[i], s) {
        assert args[i] in args;
        EvalReadsColumns(I, args[i], r, s);
      }
      assert seq(|args|, i requires 0 <= i < |args| => Eval(I, args[i], r))
          == seq(|args|, i requires 0 <= i < |args| => Eval(I, args[i], s));
  }

  // ---------- building functions ----------

  /** Builds a function and folds it when all arguments are constants. */
  function NewFunction(I: Interp, op: Op, args: seq<Expr>): Expr {
    if !op.Unfoldable? && forall a :: a in args ==> a.Const?
    then Const(Eval(I, Func(op, args), map[]))
    else Func(op, args)
  }

  lemma NewFunctionSound(I: Interp, op: Op, args: seq<Expr>, row: Row)
    ensures Eval(I, NewFunction(I, op, args), row) == Eval(I, Func(op, args), row)
    ensures Columns(NewFunction(I, op, args)) == Columns(Func(op, args))
    ensures Depth(NewFunction(I, op, args)) <= Depth(Func(op, args))
  {
    if !op.Unfoldable? && forall a :: a in args ==> a.Const? {
      assert Columns(Func(op, args)) == {};
      EvalReadsColumns(I, Func(op, args), row, map[]);
    }
  }

  // ---------- substituting constants for columns ----------

  /** Replaces the columns in 'm' by constants and rebuilds only the functions that
      changed. The first component says whether anything was substituted. */
  function Substitute(I: Interp, e: Expr, m: map<int, Value>): (bool, Expr)
    decreases e
  {
    match e
    case Const(_) => (false, e)
    case Column(id) => if id in m then (true, Const(m[id])) else (false, e)
    case Func(op, args) =>
      if exists i :: 0 <= i < |args| && Substitute(I, args[i], m).0
      then (true, NewFunction(I, op, seq(|args|, i requires 0 <= i < |args| => Substitute(I, args[i], m).1)))
      else (false, e)
  }

  ghost predicate Agrees(row: Row, m: map<int, Value>) {
    forall c :: c in m ==> Lookup(row, c) == m[c]
  }

  lemma {:induction false} SubstituteSound(I: Interp, e: Expr, m: map<int, Value>, row: Row)
    requires Agrees(row, m)
    ensures Eval(I, Substitute(I, e, m).1, row) == Eval(I, e, row)
  {
    if e.Func? && Substitute(I, e, m).0 {
      var args := e.args;
      var args' := seq(|args|, i requires 0 <= i < |args| => Substitute(I, args[i], m).1);
      forall i | 0 <= i < |args| ensures Eval(I, args'[i], row) == Eval(I, args[i], row) {
        SubstituteSound(I, args[i], m, row);
      }
      assert seq(|args'|, i requires 0 <= i < |args'| => Eval(I, args'[i], row))
          == seq(|args|, i requires 0 <= i < |args| => Eval(I, args[i], row));
      NewFunctionSound(I, e.op, args', row);
    }
  }

  /** Substitution removes exactly the substituted columns, changes an expression
      exactly when it mentions one of them, and never deepens it. */
  lemma {:induction false} SubstituteShape(I: Interp, e: Expr, m: map<int, Value>)
    ensures Substitutes(e, m, Substitute(I, e, m))
    ensures Columns(Substitute(I, e, m).1) == Columns(e) - m.Keys
    ensures Substitute(I, e, m).0 <==> Columns(e) * m.Keys != {}
    ensures !Substitute(I, e, m).0 ==> Substitute(I, e, m).1 == e
    ensures Depth(Substitute(I, e, m).1) <= Depth(e)
  {
    match e
    case Const(_) =>
    case Column(id) =>
      if id in m { assert id in Columns(e) * m.Keys; }
    case Func(op, args) =>
      forall i | 0 <= i < |args| ensures Substitutes(args[i], m, Substitute(I, args[i], m)) {
        SubstituteShape(I, args[i], m);
      }
      hide Substitutes;
      SubstituteArgs(I, op, args, m);
  }

  ghost predicate Substitutes(e: Expr, m: map<int, Value>, r: (bool, Expr)) {
    && Columns(r.1) == Columns(e) - m.Keys && (r.0 <==> Columns(e) * m.Keys != {})
    && (!r.0 ==> r.1 == e) && Depth(r.1) <= Depth(e)
  }

  lemma SubstituteArgs(I: Interp, op: Op, args: seq<Expr>, m: map<int, Value>)
    requires forall i :: 0 <= i < |args| ==> Substitutes(args[i], m, Substitute(I, args[i], m))
    ensures Substitutes(Func(op, args), m, Substitute(I, Func(op, args), m))
    ensures var e, r := Func(op, args), Substitute(I, Func(op, args), m);
            && Columns(r.1) == Columns(e) - m.Keys && (r.0 <==> Columns(e) * m.Keys != {})
            && (!r.0 ==> r.1 == e) && Depth(r.1) <= Depth(e)
  {
    hide Columns, Depth, NewFunction;
    var args' := seq(|args|, i requires 0 <= i < |args| => Substitute(I, args[i], m).1);
    UnionOfColumns(args, args', m.Keys);
    NewFunctionSound(I, op, args', map[]);
    ArgsNoDeeper(op, args, args');
    ArgsMention(op, args, m.Keys);
    if forall i :: 0 <= i < |args| ==> !Substitute(I, args[i], m).0 { assert args' == args; }
  }

  lemma ArgsNoDeeper(op: Op, args: seq<Expr>, args': seq<Expr>)
    requires |args'| == |args| && forall i :: 0 <= i < |args| ==> Depth(args'[i]) <= Depth(args[i])
    ensures Depth(Func(op, args')) <= Depth(Func(op, args))
  {
    assert MaxDepth(args') <= MaxDepth(args);
  }

  lemma ArgsMention(op: Op, args: seq<Expr>, cols: set<int>)
    ensures Columns(Func(op, args)) * cols != {} <==> exists i :: 0 <= i < |args| && Columns(args[i]) * cols != {}
  {
    if c :| c in Columns(Func(op, args)) * cols {
      var a :| a in args && c in Columns(a);
      var i :| 0 <= i < |args| && args[i] == a;
      assert c in Columns(args[i]) * cols;
    }
    if i :| 0 <= i < |args| && Columns(args[i]) * cols != {} {
      var c :| c in Columns(args[i]) * cols;
      assert args[i] in args && c in Columns(Func(op, args)) * cols;
    }
  }

  lemma UnionOfColumns(args: seq<Expr>, args': seq<Expr>, gone: set<int>)
    requires |args| == |args'|
    requires forall i :: 0 <= i < |args| ==> Columns(args'[i]) == Columns(args[i]) - gone
    ensures forall op :: Columns(Func(op, args')) == Columns(Func(op, args)) - gone
  {
    forall op: Op ensures Columns(Func(op, args')) == Columns(Func(op, args)) - gone {
      forall c | c in Columns(Func(op, args')) ensures c in Columns(Func(op, args)) - gone {
        var a :| a in args' && c in Columns(a);
        var i :| 0 <= i < |args'| && args'[i] == a;
        assert args[i] in args && c in Columns(args[i]);
      }
      forall c | c in Columns(Func(op, args)) - gone ensures c in Columns(Func(op, args')) {
        var a :| a in args && c in Columns(a);
        var i :| 0 <= i < |args| && args[i] == a;
        assert args'[i] in args' && c in Columns(args'[i]);
      }
    }
  }

  // ---------- replacing a column by a column ----------

  datatype Replacement = Replacement(replaced: bool, nonDeterministic: bool, expr: Expr)

  /** Replaces every occurrence of 'src' by 'tgt', unless the condition holds a
      function whose value may not be carried over to an equal column. */
  function TryToReplace(I: Interp, src: int, tgt: int, cond: Expr): Replacement
    decreases cond
  {
    if !cond.Func? then Replacement(false, false, cond)
    else if cond.op.Unfoldable? || cond.op.IsNull? then Replacement(false, true, cond)
    else
      var args := cond.args;
      if exists i :: 0 <= i < |args| && args[i] != Column(src) && TryToReplace(I, src, tgt, args[i]).nonDeterministic
      then Replacement(false, true, cond)
      else if exists i :: 0 <= i < |args| && (args[i] == Column(src) || TryToReplace(I, src, tgt, args[i]).replaced)
      then
        Replacement(true, false, NewFunction(I, cond.op, seq(|args|, i requires 0 <= i < |args| =>
          if args[i] == Column(src) then Column(tgt) else TryToReplace(I, src, tgt, args[i]).expr)))
      else Replacement(false, false, cond)
  }

  lemma {:induction false} TryToReplaceSound(I: Interp, src: int, tgt: int, cond: Expr, row: Row)
    requires Lookup(row, src) == Lookup(row, tgt)
    ensures Eval(I, TryToReplace(I, src, tgt, cond).expr, row) == Eval(I, cond, row)
  {
    if TryToReplace(I, src, tgt, cond).replaced {
      var args := cond.args;
      var args' := seq(|args|, i requires 0 <= i < |args| =>
        if args[i] == Column(src) then Column(tgt) else TryToReplace(I, src, tgt, args[i]).expr);
      forall i | 0 <= i < |args| ensures Eval(I, args'[i], row) == Eval(I, args[i], row) {
        TryToReplaceSound(I, src, tgt, args[i], row);
      }
      assert seq(|args'|, i requires 0 <= i < |args'| => Eval(I, args'[i], row))
          == seq(|args|, i requires 0 <= i < |args| => Eval(I, args[i], row));
      NewFunctionSound(I, cond.op, args', row);
    }
  }

  /** A replacement brings in no column but 'tgt' and does not deepen the condition. */
  lemma {:induction false} TryToReplaceShape(I: Interp, src: int, tgt: int, cond: Expr)
    ensures Columns(TryToReplace(I, src, tgt, cond).expr) <= Columns(cond) + {tgt}
    ensures Depth(TryToReplace(I, src, tgt, cond).expr) <= Depth(cond)
  {
    if TryToReplace(I, src, tgt, cond).replaced {
      var args := cond.args;
      var args' := seq(|args|, i requires 0 <= i < |args| =>
        if args[i] == Column(src) then Column(tgt) else TryToReplace(I, src, tgt, args[i]).expr);
      forall i | 0 <= i < |args|
        ensures Columns(args'[i]) <= Columns(args[i]) + {tgt} && Depth(args'[i]) <= Depth(args[i])
      {
        TryToReplaceShape(I, src, tgt, args[i]);
      }
      NewFunctionSound(I, cond.op, args', map[]);
      forall c | c in Columns(Func(cond.op, args')) ensures c in Columns(cond) + {tgt} {
        var a :| a in args' && c in Columns(a);
        var i :| 0 <= i < |args'| && args'[i] == a;
        assert args[i] in args;
      }
      assert MaxDepth(args') <= MaxDepth(args);
    }
  }

  /** A replacement leaves no occurrence of 'src', and a function without one of the
      excluded functions is left alone only when it does not mention 'src'. */
  lemma {:induction false} TryToReplaceComplete(I: Interp, src: int, tgt: int, cond: Expr)
    requires src != tgt && cond != Column(src)
    ensures var r := TryToReplace(I, src, tgt, cond);
            !r.nonDeterministic ==> src !in Columns(r.expr) && (r.replaced <==> src in Columns(cond))
  {
    if cond.Func? && !TryToReplace(I, src, tgt, cond).nonDeterministic {
      var args := cond.args;
      var args' := seq(|args|, i requires 0 <= i < |args| =>
        if args[i] == Column(src) then Column(tgt) else TryToReplace(I, src, tgt, args[i]).expr);
      forall i | 0 <= i < |args|
        ensures src !in Columns(args'[i])
        ensures args[i] == Column(src) || TryToReplace(I, src, tgt, args[i]).replaced <==> src in Columns(args[i])
      {
        if args[i] != Column(src) { TryToReplaceComplete(I, src, tgt, args[i]); }
      }
      assert forall a :: a in args' ==> src !in Columns(a);
      assert src !in Columns(Func(cond.op, args'));
      NewFunctionSound(I, cond.op, args', map[]);
      if src in Columns(cond) {
        var a :| a in args && src in Columns(a);
        var i :| 0 <= i < |args| && args[i] == a;
      } else {
        assert forall a :: a in args ==> src !in Columns(a);
      }
    }
  }

  /** The condition holds a function whose value may differ on an equal column, or IS NULL. */
  predicate Excluded(e: Expr) {
    e.Func? && (e.op.Unfoldable? || e.op.IsNull? || exists a :: a in e.args && Excluded(a))
  }

  function Renamed(e: Expr, src: int, tgt: int): Expr {
    match e
    case Const(_) => e
    case Column(id) => if id == src then Column(tgt) else e
    case Func(op, args) => Func(op, seq(|args|, i requires 0 <= i < |args| => Renamed(args[i], src, tgt)))
  }

  /** A condition in which a column may be replaced. */
  predicate Replaceable(e: Expr, col: int) {
    e.Func? && !Excluded(e) && col in Columns(e)
  }

  lemma {:induction false} RenamedElsewhere(e: Expr, src: int, tgt: int)
    requires src !in Columns(e)
    ensures Renamed(e, src, tgt) == e
  {
    if e.Func? {
      forall i | 0 <= i < |e.args| ensures Renamed(e.args[i], src, tgt) == e.args[i] {
        assert e.args[i] in e.args;
        RenamedElsewhere(e.args[i], src, tgt);
      }
      assert Renamed(e, src, tgt).args == e.args;
    }
  }

  lemma ExcludedBy(e: Expr, i: nat)
    requires e.Func? && i < |e.args| && !Excluded(e)
    ensures !Excluded(e.args[i])
  {
    assert e.args[i] in e.args;
  }

  /** A replacement happens exactly where it may, and renames the column everywhere. */
  lemma {:induction false} ReplacesExactly(I: Interp, src: int, tgt: int, cond: Expr)
    ensures TryToReplace(I, src, tgt, cond).nonDeterministic <==> Excluded(cond)
    ensures TryToReplace(I, src, tgt, cond).replaced <==> Replaceable(cond, src)
    ensures TryToReplace(I, src, tgt, cond).expr
            == if TryToReplace(I, src, tgt, cond).replaced then Renamed(cond, src, tgt) else cond
  {
    if cond.Func? && !cond.op.Unfoldable? && !cond.op.IsNull? {
      var args := cond.args;
      forall i | 0 <= i < |args| { ReplacesExactly(I, src, tgt, args[i]); }
      ExcludedArgs(I, src, tgt, cond);
      if !Excluded(cond) {
        forall i | 0 <= i < |args| ensures !Excluded(args[i]) { ExcludedBy(cond, i); }
        ReplacedArgs(I, src, tgt, cond);
      }
    }
  }

  lemma ExcludedArgs(I: Interp, src: int, tgt: int, cond: Expr)
    requires cond.Func? && !cond.op.Unfoldable? && !cond.op.IsNull?
    requires forall i :: 0 <= i < |cond.args| ==>
               (TryToReplace(I, src, tgt, cond.args[i]).nonDeterministic <==> Excluded(cond.args[i]))
    ensures TryToReplace(I, src, tgt, cond).nonDeterministic <==> Excluded(cond)
  {
    if Excluded(cond) {
      var a :| a in cond.args && Excluded(a);
      var i :| 0 <= i < |cond.args| && cond.args[i] == a;
      assert TryToReplace(I, src, tgt, cond.args[i]).nonDeterministic;
    } else {
      forall i | 0 <= i < |cond.args| ensures !Excluded(cond.args[i]) { ExcludedBy(cond, i); }
    }
  }

  lemma ReplacedArgs(I: Interp, src: int, tgt: int, cond: Expr)
    requires cond.Func? && !TryToReplace(I, src, tgt, cond).nonDeterministic && !Excluded(cond)
    requires forall i :: 0 <= i < |cond.args| ==>
               && (TryToReplace(I, src, tgt, cond.args[i]).replaced <==> Replaceable(cond.args[i], src))
               && !Excluded(cond.args[i])
               && (TryToReplace(I, src, tgt, cond.args[i]).expr
                   == if Replaceable(cond.args[i], src) then Renamed(cond.args[i], src, tgt) else cond.args[i])
    ensures TryToReplace(I, src, tgt, cond).replaced <==> src in Columns(cond)
    ensures src in Columns(cond) ==> TryToReplace(I, src, tgt, cond).expr == Renamed(cond, src, tgt)
  {
    var args := cond.args;
    var args' := seq(|args|, i requires 0 <= i < |args| =>
      if args[i] == Column(src) then Column(tgt) else TryToReplace(I, src, tgt, args[i]).expr);
    forall i | 0 <= i < |args|
      ensures args'[i] == Renamed(args[i], src, tgt)
      ensures args[i] == Column(src) || TryToReplace(I, src, tgt, args[i]).replaced <==> src in Columns(args[i])
    {
      if src !in Columns(args[i]) { RenamedElsewhere(args[i], src, tgt); }
    }
    if src in Columns(cond) {
      var a :| a in args && src in Columns(a);
      var i :| 0 <= i < |args| && args[i] == a;
      assert args'[i] in args' && !args'[i].Const?;
      assert args' == Renamed(cond, src, tgt).args;
    } else {
      assert forall i :: 0 <= i < |args| ==> args[i] in args;
    }
  }

  /** No function that could be folded is left. */
  predicate Folded(e: Expr) {
    e.Func? ==> (e.op.Unfoldable? || exists a :: a in e.args && !a.Const?) && forall a :: a in e.args ==> Folded(a)
  }

  lemma NewFunctionFolds(I: Interp, op: Op, args: seq<Expr>)
    requires forall i :: 0 <= i < |args| ==> Folded(args[i])
    ensures Folded(NewFunction(I, op, args))
  {
  }

  /** Substitution folds every function whose arguments it made constant. */
  lemma {:induction false} SubstituteFolds(I: Interp, e: Expr, m: map<int, Value>)
    requires Folded(e)
    ensures Folded(Substitute(I, e, m).1)
  {
    if e.Func? && Substitute(I, e, m).0 {
      var args' := seq(|e.args|, i requires 0 <= i < |e.args| => Substitute(I, e.args[i], m).1);
      forall i | 0 <= i < |args'| ensures Folded(args'[i]) {
        assert e.args[i] in e.args;
        SubstituteFolds(I, e.args[i], m);
      }
      NewFunctionFolds(I, e.op, args');
    }
  }

  // ---------- AND and OR trees ----------

  /** 'leaf' hangs below the root of 'e' by 'op' nodes only, and is none itself. */
  predicate LeafOf(e: Expr, op: Op, leaf: Expr) {
    if IsTree(e, op) then exists a :: a in e.args && LeafOf(a, op, leaf) else leaf == e
  }

  predicate IsTree(e: Expr, op: Op) {
    e.Func? && e.op == op && |e.args| >= 2
  }

  /** The leaves of the tree of 'op' nodes at the root of 'e'. */
  function SplitItems(e: Expr, op: Op): (items: seq<Expr>)
    ensures items != []
    decreases e, 0
  {
    if e.Func? && e.op == op && |e.args| >= 2 then SplitAll(e.args, op) else [e]
  }

  function SplitAll(es: seq<Expr>, op: Op): (items: seq<Expr>)
    ensures es != [] ==> items != []
    decreases es, 1
  {
    if es == [] then [] else SplitItems(es[0], op) + SplitAll(es[1..], op)
  }

  /** Splitting yields exactly the leaves. */
  lemma {:induction false} SplitLeaves(e: Expr, op: Op, leaf: Expr)
    ensures leaf in SplitItems(e, op) <==> LeafOf(e, op, leaf)
    decreases e, 0
  {
    if IsTree(e, op) { SplitAllLeaves(e.args, op, leaf); }
  }

  lemma {:induction false} SplitAllLeaves(es: seq<Expr>, op: Op, leaf: Expr)
    ensures leaf in SplitAll(es, op) <==> exists e :: e in es && LeafOf(e, op, leaf)
    decreases es, 1
  {
    if es != [] {
      SplitLeaves(es[0], op, leaf);
      SplitAllLeaves(es[1..], op, leaf);
      assert forall e :: e in es <==> e == es[0] || e in es[1..];
    }
  }

  lemma {:induction false} LeafIsNoTree(e: Expr, op: Op, leaf: Expr)
    requires LeafOf(e, op, leaf)
    ensures !IsTree(leaf, op)
  {
    if IsTree(e, op) {
      var a :| a in e.args && LeafOf(a, op, leaf);
      LeafIsNoTree(a, op, leaf);
    }
  }

  ghost predicate AnyHolds(I: Interp, conds: seq<Expr>, row: Row) {
    exists i :: 0 <= i < |conds| && Holds(I, conds[i], row)
  }

  lemma AndHolds(I: Interp, args: seq<Expr>, row: Row)
    ensures Holds(I, Func(LogicAnd, args), row) <==> AllHold(I, args, row)
  {
    var vals := seq(|args|, i requires 0 <= i < |args| => Eval(I, args[i], row));
    if AllHold(I, args, row) {
      assert forall i :: 0 <= i < |args| ==> IsTrue(vals[i]);
    } else {
      var i :| 0 <= i < |args| && !Holds(I, args[i], row);
      assert vals[i] in vals && (vals[i] == Int(0) || vals[i] == Null);
    }
  }

  lemma OrHolds(I: Interp, args: seq<Expr>, row: Row)
    ensures Holds(I, Func(LogicOr, args), row) <==> AnyHolds(I, args, row)
  {
    var vals := seq(|args|, i requires 0 <= i < |args| => Eval(I, args[i], row));
    if AnyHolds(I, args, row) {
      var i :| 0 <= i < |args| && Holds(I, args[i], row);
      assert vals[i] in vals;
    } else {
      assert forall i :: 0 <= i < |args| ==> !IsTrue(vals[i]);
    }
  }

  lemma {:induction false} SplitAndHolds(I: Interp, e: Expr, row: Row)
    ensures AllHold(I, SplitItems(e, LogicAnd), row) <==> Holds(I, e, row)
    decreases e, 0
  {
    if e.Func? && e.op.LogicAnd? && |e.args| >= 2 {
      SplitAllAndHolds(I, e.args, row);
      AndHolds(I, e.args, row);
    } else {
      assert SplitItems(e, LogicAnd)[0] == e;
    }
  }

  lemma {:induction false} SplitAllAndHolds(I: Interp, es: seq<Expr>, row: Row)
    ensures AllHold(I, SplitAll(es, LogicAnd), row) <==> AllHold(I, es, row)
    decreases es, 1
  {
    if es != [] {
      SplitAndHolds(I, es[0], row);
      SplitAllAndHolds(I, es[1..], row);
      AllHoldAppend(I, SplitItems(es[0], LogicAnd), SplitAll(es[1..], LogicAnd), row);
      AllHoldAppend(I, [es[0]], es[1..], row);
      assert es == [es[0]] + es[1..];
    }
  }

  lemma AllHoldAppend(I: Interp, a: seq<Expr>, b: seq<Expr>, row: Row)
    ensures AllHold(I, a + b, row) <==> AllHold(I, a, row) && AllHold(I, b, row)
  {
    assert forall i :: 0 <= i < |a| ==> (a + b)[i] == a[i];
    assert forall i :: 0 <= i < |b| ==> (a + b)[|a| + i] == b[i];
  }

  lemma AnyHoldsAppend(I: Interp, a: seq<Expr>, b: seq<Expr>, row: Row)
    ensures AnyHolds(I, a + b, row) <==> AnyHolds(I, a, row) || AnyHolds(I, b, row)
  {
    assert forall i :: 0 <= i < |a| ==> (a + b)[i] == a[i];
    assert forall i :: 0 <= i < |b| ==> (a + b)[|a| + i] == b[i];
  }

  lemma {:induction false} SplitOrHolds(I: Interp, e: Expr, row: Row)
    ensures AnyHolds(I, SplitItems(e, LogicOr), row) <==> Holds(I, e, row)
    decreases e, 0
  {
    if e.Func? && e.op.LogicOr? && |e.args| >= 2 {
      SplitAllOrHolds(I, e.args, row);
      OrHolds(I, e.args, row);
    } else {
      assert SplitItems(e, LogicOr)[0] == e;
    }
  }

  lemma {:induction false} SplitAllOrHolds(I: Interp, es: seq<Expr>, row: Row)
    ensures AnyHolds(I, SplitAll(es, LogicOr), row) <==> AnyHolds(I, es, row)
    decreases es, 1
  {
    if es != [] {
      SplitOrHolds(I, es[0], row);
      SplitAllOrHolds(I, es[1..], row);
      AnyHoldsAppend(I, SplitItems(es[0], LogicOr), SplitAll(es[1..], LogicOr), row);
      AnyHoldsAppend(I, [es[0]], es[1..], row);
      assert es == [es[0]] + es[1..];
      assert AnyHolds(I, [es[0]], row) <==> Holds(I, es[0], row) by {
        if Holds(I, es[0], row) { assert Holds(I, [es[0]][0], row); }
      }
    }
  }

  /** Items are no deeper than the expression, mention no other column, and are
      strictly shallower when the root is split. */
  lemma {:induction false} SplitShape(e: Expr, op: Op)
    ensures forall i :: 0 <= i < |SplitItems(e, op)| ==>
              Depth(SplitItems(e, op)[i]) <= Depth(e) && Columns(SplitItems(e, op)[i]) <= Columns(e)
    ensures e.Func? && e.op == op && |e.args| >= 2 ==>
              forall i :: 0 <= i < |SplitItems(e, op)| ==> Depth(SplitItems(e, op)[i]) < Depth(e)
    decreases e, 0
  {
    if e.Func? && e.op == op && |e.args| >= 2 {
      SplitAllShape(e.args, op);
    }
  }

  lemma {:induction false} SplitAllShape(es: seq<Expr>, op: Op)
    ensures forall i :: 0 <= i < |SplitAll(es, op)| ==>
              && Depth(SplitAll(es, op)[i]) <= MaxDepth(es)
              && forall o :: Columns(SplitAll(es, op)[i]) <= Columns(Func(o, es))
    decreases es, 1
  {
    if es != [] {
      SplitShape(es[0], op);
      SplitAllShape(es[1..], op);
      forall i | 0 <= i < |SplitAll(es, op)|
        ensures Depth(SplitAll(es, op)[i]) <= MaxDepth(es)
        ensures forall o :: Columns(SplitAll(es, op)[i]) <= Columns(Func(o, es))
      {
        var n := |SplitItems(es[0], op)|;
        if i < n {
          assert SplitAll(es, op)[i] == SplitItems(es[0], op)[i];
        } else {
          assert SplitAll(es, op)[i] == SplitAll(es[1..], op)[i - n];
          assert forall o :: Columns(Func(o, es[1..])) <= Columns(Func(o, es));
        }
      }
    }
  }

  /** Composes conditions into a balanced tree of 'op' nodes. */
  function Compose(I: Interp, conds: seq<Expr>, op: Op): Expr
    requires conds != []
    decreases |conds|
  {
    if |conds| == 1 then conds[0]
    else NewFunction(I, op, [Compose(I, conds[..|conds| / 2], op), Compose(I, conds[|conds| / 2..], op)])
  }

  lemma BinaryHolds(I: Interp, a: Expr, b: Expr, row: Row)
    ensures Holds(I, NewFunction(I, LogicAnd, [a, b]), row) <==> Holds(I, a, row) && Holds(I, b, row)
    ensures Holds(I, NewFunction(I, LogicOr, [a, b]), row) <==> Holds(I, a, row) || Holds(I, b, row)
  {
    var args := [a, b];
    NewFunctionSound(I, LogicAnd, args, row);
    NewFunctionSound(I, LogicOr, args, row);
    AndHolds(I, args, row);
    OrHolds(I, args, row);
    assert AllHold(I, args, row) <==> Holds(I, args[0], row) && Holds(I, args[1], row);
    assert AnyHolds(I, args, row) <==> Holds(I, args[0], row) || Holds(I, args[1], row);
  }

  lemma ComposeOne(I: Interp, conds: seq<Expr>)
    requires |conds| == 1
    ensures forall op :: Compose(I, conds, op) == conds[0]
  {
  }

  lemma ComposeHalves(I: Interp, conds: seq<Expr>, n: nat)
    requires |conds| > 1 && n == |conds| / 2
    ensures forall op ::
        Compose(I, conds, op) == NewFunction(I, op, [Compose(I, conds[..n], op), Compose(I, conds[n..], op)])
  {
    hide NewFunction;
  }

  lemma {:induction false} ComposeHolds(I: Interp, conds: seq<Expr>, row: Row)
    requires conds != []
    ensures Holds(I, Compose(I, conds, LogicAnd), row) <==> AllHold(I, conds, row)
    ensures Holds(I, Compose(I, conds, LogicOr), row) <==> AnyHolds(I, conds, row)
    decreases |conds|
  {
    hide NewFunction, Holds, Compose;
    if |conds| == 1 {
      ComposeOne(I, conds);
      assert AnyHolds(I, conds, row) <==> Holds(I, conds[0], row);
    } else {
      var n := |conds| / 2;
      var a, b := conds[..n], conds[n..];
      ComposeHalves(I, conds, n);
      ComposeHolds(I, a, row);
      ComposeHolds(I, b, row);
      BinaryHolds(I, Compose(I, a, LogicAnd), Compose(I, b, LogicAnd), row);
      BinaryHolds(I, Compose(I, a, LogicOr), Compose(I, b, LogicOr), row);
      AllHoldAppend(I, a, b, row);
      AnyHoldsAppend(I, a, b, row);
      assert conds == a + b;
    }
  }

  function Power2(k: nat): nat {
    if k == 0 then 1 else 2 * Power2(k - 1)
  }

  lemma PairDepth(I: Interp, op: Op, a: Expr, b: Expr, d: nat)
    requires Depth(a) <= d && Depth(b) <= d
    ensures Depth(NewFunction(I, op, [a, b])) <= 1 + d
  {
    NewFunctionSound(I, op, [a, b], map[]);
    assert forall i :: 0 <= i < 2 ==> Depth([a, b][i]) <= d;
  }

  /** The composed tree is balanced: up to 2^k conditions add k levels. */
  lemma {:induction false} ComposeBalanced(I: Interp, conds: seq<Expr>, op: Op, k: nat, d: nat)
    requires 1 <= |conds| <= Power2(k) && forall i :: 0 <= i < |conds| ==> Depth(conds[i]) <= d
    ensures Depth(Compose(I, conds, op)) <= d + k
    decreases k
  {
    hide NewFunction, Compose, Depth;
    if |conds| == 1 {
      ComposeOne(I, conds);
    } else {
      var n := |conds| / 2;
      ComposeHalves(I, conds, n);
      ComposeBalanced(I, conds[..n], op, k - 1, d);
      ComposeBalanced(I, conds[n..], op, k - 1, d);
      PairDepth(I, op, Compose(I, conds[..n], op), Compose(I, conds[n..], op), d + k - 1);
    }
  }

  /** The composed condition; there is none for an empty list. */
  function ComposeCondition(I: Interp, conds: seq<Expr>, op: Op): Option<Expr> {
    if conds == [] then None else Some(Compose(I, conds, op))
  }

  lemma ComposeConditionHolds(I: Interp, conds: seq<Expr>, row: Row)
    ensures forall op :: ComposeCondition(I, conds, op).None? <==> conds == []
    ensures conds != [] ==> (Holds(I, ComposeCondition(I, conds, LogicAnd).value, row) <==> AllHold(I, conds, row))
    ensures conds != [] ==> (Holds(I, ComposeCondition(I, conds, LogicOr).value, row) <==> AnyHolds(I, conds, row))
  {
    hide Compose;
    if conds != [] { ComposeHolds(I, conds, row); }
  }

  // ---------- recognising 'column = constant' ----------

  datatype Pin = Pin(col: int, con: Value)

  /** Recognises 'column = constant' with the two sides in either order. */
  function ValidEqualCond(cond: Expr): Option<Pin> {
    if cond.Func? && cond.op.EQ? && |cond.args| == 2 then
      if cond.args[0].Column? && cond.args[1].Const? then Some(Pin(cond.args[0].id, cond.args[1].value))
      else if cond.args[1].Column? && cond.args[0].Const? then Some(Pin(cond.args[1].id, cond.args[0].value))
      else None
    else None
  }

  /** An equation of a column and a constant, either way round. */
  predicate IsEquation(e: Expr, c: int, v: Value) {
    e == Func(EQ, [Column(c), Const(v)]) || e == Func(EQ, [Const(v), Column(c)])
  }

  lemma EquationForms(e: Expr)
    ensures forall c, v :: ValidEqualCond(e) == Some(Pin(c, v)) <==> IsEquation(e, c, v)
  {
    if e.Func? && |e.args| == 2 { assert e.args == [e.args[0], e.args[1]]; }
  }

  lemma ValidEqualCondHolds(I: Interp, cond: Expr, row: Row)
    requires ValidEqualCond(cond).Some?
    ensures var p := ValidEqualCond(cond).value;
            Columns(cond) == {p.col} && (Holds(I, cond, row) <==> !p.con.Null? && Lookup(row, p.col) == p.con)
  {
    var a, b := cond.args[0], cond.args[1];
    assert cond.args == [a, b];
    assert Columns(cond) == Columns(a) + Columns(b);
    var vals := seq(2, i requires 0 <= i < 2 => Eval(I, cond.args[i], row));
    assert vals == [Eval(I, a, row), Eval(I, b, row)];
    assert Eval(I, cond, row) == Apply(I, EQ, vals);
  }
}
