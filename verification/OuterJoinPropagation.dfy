/** Constant propagation over a left outer join: constants known for outer columns are
    substituted into the join conditions, and conditions on an outer column are carried
    over to the inner column that the join equates with it. Filter conditions are only
    read; whatever is derived becomes a join condition. */
module OuterJoinPropagation {
  import opened Expressions
  import opened Wrappers
  import opened ConstantPropagation
  import DisjointSet

  // ---------- the query ----------

  function NullRow(inner: set<int>): Row {
    map c | c in inner :: Null
  }

  function Matches(I: Interp, o: Row, inners: seq<Row>, join: seq<Expr>): seq<Row> {
    if inners == [] then []
    else (if AllHold(I, join, o + inners[0]) then [o + inners[0]] else []) + Matches(I, o, inners[1..], join)
  }

  function JoinOne(I: Interp, o: Row, inners: seq<Row>, join: seq<Expr>, inner: set<int>): seq<Row> {
    if Matches(I, o, inners, join) == [] then [o + NullRow(inner)] else Matches(I, o, inners, join)
  }

  function LeftOuterJoin(I: Interp, outers: seq<Row>, inners: seq<Row>, join: seq<Expr>, inner: set<int>): seq<Row> {
    if outers == [] then []
    else JoinOne(I, outers[0], inners, join, inner) + LeftOuterJoin(I, outers[1..], inners, join, inner)
  }

  function Where(I: Interp, rows: seq<Row>, filter: seq<Expr>): seq<Row> {
    if rows == [] then []
    else (if AllHold(I, filter, rows[0]) then [rows[0]] else []) + Where(I, rows[1..], filter)
  }

  function Query(I: Interp, outers: seq<Row>, inners: seq<Row>, join: seq<Expr>, filter: seq<Expr>,
                 inner: set<int>): seq<Row> {
    Where(I, LeftOuterJoin(I, outers, inners, join, inner), filter)
  }

  ghost predicate RowOf(row: Row, schema: set<int>) {
    row.Keys <= schema
  }

  ghost predicate RowsOf(rows: seq<Row>, schema: set<int>) {
    forall k :: 0 <= k < |rows| ==> RowOf(rows[k], schema)
  }

  /** The two queries return the same rows in the same order over all relations. */
  ghost predicate SameQuery(I: Interp, outer: set<int>, inner: set<int>,
                            join: seq<Expr>, filter: seq<Expr>, join': seq<Expr>, filter': seq<Expr>) {
    forall outers, inners :: RowsOf(outers, outer) && RowsOf(inners, inner) ==>
      Query(I, outers, inners, join, filter, inner) == Query(I, outers, inners, join', filter', inner)
  }

  // ---------- when rewritten join conditions keep the query ----------

  /** The filter conditions that read only outer columns hold. */
  ghost predicate OuterFiltersHold(I: Interp, filter: seq<Expr>, outer: set<int>, row: Row) {
    forall k :: 0 <= k < |filter| && Columns(filter[k]) <= outer ==> Holds(I, filter[k], row)
  }

  /** The rewritten join conditions differ from the original ones by the filter conditions
      'carried' into them, wherever the outer filter conditions hold. */
  ghost predicate JoinRewrite(I: Interp, outer: set<int>, filter: seq<Expr>, join: seq<Expr>, join': seq<Expr>,
                              carried: seq<Expr>) {
    && (forall k :: 0 <= k < |carried| ==> carried[k] in filter)
    && forall row: Row :: OuterFiltersHold(I, filter, outer, row) ==>
         (AllHold(I, join', row) <==> AllHold(I, join, row) && AllHold(I, carried, row))
  }

  /** No outer row passes the filter when it is extended by NULLs while one of its matches
      fails a carried filter condition. */
  ghost predicate NullExtensionSafe(I: Interp, outer: set<int>, inner: set<int>, join: seq<Expr>, filter: seq<Expr>,
                                    carried: seq<Expr>) {
    forall o: Row, i: Row ::
      RowOf(o, outer) && RowOf(i, inner) && AllHold(I, join, o + i) && AllHold(I, filter, o + NullRow(inner))
      ==> AllHold(I, carried, o + i)
  }

  lemma {:induction false} WhereAppend(I: Interp, a: seq<Row>, b: seq<Row>, filter: seq<Expr>)
    ensures Where(I, a + b, filter) == Where(I, a, filter) + Where(I, b, filter)
  {
    hide AllHold;
    if a == [] {
      assert a + b == b;
    } else {
      var all, rest := a + b, a[1..];
      assert all[0] == a[0] && all[1..] == rest + b;
      var head := if AllHold(I, filter, a[0]) then [a[0]] else [];
      assert Where(I, all, filter) == head + Where(I, rest + b, filter);
      WhereAppend(I, rest, b, filter);
      assert head + (Where(I, rest, filter) + Where(I, b, filter))
             == (head + Where(I, rest, filter)) + Where(I, b, filter);
    }
  }

  lemma {:induction false} WhereEquivalent(I: Interp, rows: seq<Row>, filter: seq<Expr>, filter': seq<Expr>)
    requires Equivalent(I, filter, filter')
    ensures Where(I, rows, filter) == Where(I, rows, filter')
  {
    if rows != [] {
      WhereEquivalent(I, rows[1..], filter, filter');
      assert AllHold(I, filter, rows[0]) <==> AllHold(I, filter', rows[0]);
    }
  }

  lemma {:induction false} WhereNone(I: Interp, rows: seq<Row>, filter: seq<Expr>)
    requires forall k :: 0 <= k < |rows| ==> !AllHold(I, filter, rows[k])
    ensures Where(I, rows, filter) == []
  {
    if rows != [] { WhereNone(I, rows[1..], filter); }
  }

  lemma OuterFiltersReadOuter(I: Interp, outer: set<int>, inner: set<int>, filter: seq<Expr>, o: Row, i: Row)
    requires RowOf(o, outer) && RowOf(i, inner) && outer !! inner
    ensures OuterFiltersHold(I, filter, outer, o + i) <==> OuterFiltersHold(I, filter, outer, o + NullRow(inner))
  {
    forall k | 0 <= k < |filter| && Columns(filter[k]) <= outer
      ensures Holds(I, filter[k], o + i) <==> Holds(I, filter[k], o + NullRow(inner))
    {
      EvalReadsColumns(I, filter[k], o + i, o + NullRow(inner));
    }
  }

  /** The matches the rewriting keeps pass the filter exactly when the dropped ones are ignored. */
  lemma {:induction false} MatchesKept(I: Interp, outer: set<int>, inner: set<int>, o: Row, inners: seq<Row>,
                                       filter: seq<Expr>, join: seq<Expr>, join': seq<Expr>, carried: seq<Expr>)
    requires outer !! inner && RowOf(o, outer) && RowsOf(inners, inner)
    requires JoinRewrite(I, outer, filter, join, join', carried)
    requires OuterFiltersHold(I, filter, outer, o + NullRow(inner))
    ensures Where(I, Matches(I, o, inners, join), filter) == Where(I, Matches(I, o, inners, join'), filter)
    ensures Matches(I, o, inners, join) == [] ==> Matches(I, o, inners, join') == []
    ensures Matches(I, o, inners, join) != [] && Matches(I, o, inners, join') == [] ==>
              exists i :: RowOf(i, inner) && AllHold(I, join, o + i) && !AllHold(I, carried, o + i)
  {
    if inners != [] {
      var row := o + inners[0];
      assert RowOf(inners[0], inner);
      OuterFiltersReadOuter(I, outer, inner, filter, o, inners[0]);
      MatchesKept(I, outer, inner, o, inners[1..], filter, join, join', carried);
      assert AllHold(I, join', row) <==> AllHold(I, join, row) && AllHold(I, carried, row);
      CarriedAreFilters(I, filter, carried, row);
      var a, b := if AllHold(I, join, row) then [row] else [], if AllHold(I, join', row) then [row] else [];
      WhereAppend(I, a, Matches(I, o, inners[1..], join), filter);
      WhereAppend(I, b, Matches(I, o, inners[1..], join'), filter);
      assert Where(I, [row], filter) == (if AllHold(I, filter, row) then [row] else []) + Where(I, [row][1..], filter);
      assert Where(I, a, filter) == Where(I, b, filter);
    }
  }

  lemma CarriedAreFilters(I: Interp, filter: seq<Expr>, carried: seq<Expr>, row: Row)
    requires forall k :: 0 <= k < |carried| ==> carried[k] in filter
    ensures AllHold(I, filter, row) ==> AllHold(I, carried, row)
  {
  }

  lemma NoMatchWithoutOuterFilters(I: Interp, outer: set<int>, inner: set<int>, o: Row, inners: seq<Row>,
                                   filter: seq<Expr>, join: seq<Expr>)
    requires outer !! inner && RowOf(o, outer) && RowsOf(inners, inner)
    requires !OuterFiltersHold(I, filter, outer, o + NullRow(inner))
    ensures Where(I, JoinOne(I, o, inners, join, inner), filter) == []
  {
    var rows := JoinOne(I, o, inners, join, inner);
    forall k | 0 <= k < |rows| ensures !AllHold(I, filter, rows[k]) {
      if Matches(I, o, inners, join) != [] {
        var i := MatchOrigin(I, o, inners, join, k);
        assert RowOf(inners[i], inner);
        OuterFiltersReadOuter(I, outer, inner, filter, o, inners[i]);
      }
    }
    WhereNone(I, rows, filter);
  }

  lemma {:induction false} MatchOrigin(I: Interp, o: Row, inners: seq<Row>, join: seq<Expr>, k: nat) returns (i: nat)
    requires k < |Matches(I, o, inners, join)|
    ensures i < |inners| && Matches(I, o, inners, join)[k] == o + inners[i]
  {
    if AllHold(I, join, o + inners[0]) {
      if k == 0 {
        i := 0;
      } else {
        i := MatchOrigin(I, o, inners[1..], join, k - 1);
        i := i + 1;
      }
    } else {
      i := MatchOrigin(I, o, inners[1..], join, k);
      i := i + 1;
    }
  }

  lemma JoinOneKept(I: Interp, outer: set<int>, inner: set<int>, o: Row, inners: seq<Row>,
                    filter: seq<Expr>, join: seq<Expr>, join': seq<Expr>, carried: seq<Expr>)
    requires outer !! inner && RowOf(o, outer) && RowsOf(inners, inner)
    requires JoinRewrite(I, outer, filter, join, join', carried)
    requires NullExtensionSafe(I, outer, inner, join, filter, carried)
    ensures Where(I, JoinOne(I, o, inners, join, inner), filter)
            == Where(I, JoinOne(I, o, inners, join', inner), filter)
  {
    if !OuterFiltersHold(I, filter, outer, o + NullRow(inner)) {
      NoMatchWithoutOuterFilters(I, outer, inner, o, inners, filter, join);
      NoMatchWithoutOuterFilters(I, outer, inner, o, inners, filter, join');
    } else {
      MatchesKept(I, outer, inner, o, inners, filter, join, join', carried);
      if Matches(I, o, inners, join) != [] && Matches(I, o, inners, join') == [] {
        assert !AllHold(I, filter, o + NullRow(inner));
        WhereNone(I, [o + NullRow(inner)], filter);
        assert Where(I, [], filter) == [];
      }
    }
  }

  lemma {:induction false} JoinKept(I: Interp, outer: set<int>, inner: set<int>, outers: seq<Row>, inners: seq<Row>,
                                    filter: seq<Expr>, join: seq<Expr>, join': seq<Expr>, carried: seq<Expr>)
    requires outer !! inner && RowsOf(outers, outer) && RowsOf(inners, inner)
    requires JoinRewrite(I, outer, filter, join, join', carried)
    requires NullExtensionSafe(I, outer, inner, join, filter, carried)
    ensures Query(I, outers, inners, join, filter, inner) == Query(I, outers, inners, join', filter, inner)
  {
    if outers != [] {
      var o, rest := outers[0], outers[1..];
      assert RowOf(o, outer) && RowsOf(rest, outer);
      JoinOneKept(I, outer, inner, o, inners, filter, join, join', carried);
      JoinKept(I, outer, inner, rest, inners, filter, join, join', carried);
      WhereAppend(I, JoinOne(I, o, inners, join, inner), LeftOuterJoin(I, rest, inners, join, inner), filter);
      WhereAppend(I, JoinOne(I, o, inners, join', inner), LeftOuterJoin(I, rest, inners, join', inner), filter);
    }
  }

  /** A match that fails a carried filter condition while the outer row passes the filter
      when extended by NULLs makes the rewriting add a row to the query. */
  lemma ExtraRow(I: Interp, outer: set<int>, inner: set<int>, o: Row, i: Row,
                 filter: seq<Expr>, join: seq<Expr>, join': seq<Expr>, carried: seq<Expr>)
    requires outer !! inner && RowOf(o, outer) && RowOf(i, inner)
    requires JoinRewrite(I, outer, filter, join, join', carried)
    requires AllHold(I, join, o + i) && AllHold(I, filter, o + NullRow(inner)) && !AllHold(I, carried, o + i)
    ensures Query(I, [o], [i], join, filter, inner) == []
    ensures Query(I, [o], [i], join', filter, inner) == [o + NullRow(inner)]
  {
    OuterFiltersReadOuter(I, outer, inner, filter, o, i);
    CarriedAreFilters(I, filter, carried, o + i);
    MatchesOne(I, o, i, join);
    MatchesOne(I, o, i, join');
    WhereOne(I, o + i, filter);
    WhereOne(I, o + NullRow(inner), filter);
    JoinOfOne(I, o, i, join, inner);
    JoinOfOne(I, o, i, join', inner);
  }

  lemma MatchesOne(I: Interp, o: Row, i: Row, join: seq<Expr>)
    ensures Matches(I, o, [i], join) == if AllHold(I, join, o + i) then [o + i] else []
  {
    assert [i][1..] == [];
    assert Matches(I, o, [], join) == [];
  }

  lemma WhereOne(I: Interp, row: Row, filter: seq<Expr>)
    ensures Where(I, [row], filter) == if AllHold(I, filter, row) then [row] else []
  {
    assert [row][1..] == [];
    assert Where(I, [], filter) == [];
  }

  lemma JoinOfOne(I: Interp, o: Row, i: Row, join: seq<Expr>, inner: set<int>)
    ensures LeftOuterJoin(I, [o], [i], join, inner) == JoinOne(I, o, [i], join, inner)
  {
    assert [o][1..] == [];
    assert LeftOuterJoin(I, [], [i], join, inner) == [];
  }

  /** The exact condition under which the rewriting keeps the query over all relations. */
  lemma RewriteKeepsQueryExactly(I: Interp, outer: set<int>, inner: set<int>, filter: seq<Expr>, items: seq<Expr>,
                                 filter': seq<Expr>, join: seq<Expr>, join': seq<Expr>, carried: seq<Expr>)
    requires outer !! inner && Equivalent(I, filter, items) && Equivalent(I, filter, filter')
    requires JoinRewrite(I, outer, items, join, join', carried)
    ensures SameQuery(I, outer, inner, join, filter, join', filter')
            <==> NullExtensionSafe(I, outer, inner, join, filter, carried)
  {
    assert NullExtensionSafe(I, outer, inner, join, filter, carried) <==>
        NullExtensionSafe(I, outer, inner, join, items, carried);
    if NullExtensionSafe(I, outer, inner, join, filter, carried) {
      forall outers, inners | RowsOf(outers, outer) && RowsOf(inners, inner)
        ensures Query(I, outers, inners, join, filter, inner) == Query(I, outers, inners, join', filter', inner)
      {
        JoinKept(I, outer, inner, outers, inners, items, join, join', carried);
        WhereEquivalent(I, LeftOuterJoin(I, outers, inners, join, inner), filter, items);
        WhereEquivalent(I, LeftOuterJoin(I, outers, inners, join', inner), items, filter');
      }
    } else {
      var o: Row, i: Row :| RowOf(o, outer) && RowOf(i, inner) && AllHold(I, join, o + i)
        && AllHold(I, filter, o + NullRow(inner)) && !AllHold(I, carried, o + i);
      ExtraRow(I, outer, inner, o, i, items, join, join', carried);
      WhereEquivalent(I, LeftOuterJoin(I, [o], [i], join, inner), filter, items);
      WhereEquivalent(I, LeftOuterJoin(I, [o], [i], join', inner), items, filter');
      assert RowsOf([o], outer) && RowsOf([i], inner);
      assert Query(I, [o], [i], join, filter, inner) != Query(I, [o], [i], join', filter', inner);
    }
  }

  /** Filter conditions that read only outer columns are always safe to carry. */
  lemma OuterFiltersSafe(I: Interp, outer: set<int>, inner: set<int>, join: seq<Expr>, filter: seq<Expr>,
                         carried: seq<Expr>)
    requires outer !! inner
    requires forall k :: 0 <= k < |carried| ==> carried[k] in filter && Columns(carried[k]) <= outer
    ensures NullExtensionSafe(I, outer, inner, join, filter, carried)
  {
    forall o: Row, i: Row | RowOf(o, outer) && RowOf(i, inner) && AllHold(I, join, o + i) &&
      AllHold(I, filter, o + NullRow(inner))
      ensures AllHold(I, carried, o + i)
    {
      forall k | 0 <= k < |carried| ensures Holds(I, carried[k], o + i) {
        EvalReadsColumns(I, carried[k], o + i, o + NullRow(inner));
      }
    }
  }

  // ---------- the constant phase, on values ----------

  predicate OuterPin(cond: Expr, outer: set<int>) {
    ValidEqualCond(cond).Some? && ValidEqualCond(cond).value.col in outer
  }

  /** The conditions from 'lo' up to 'hi' have been searched for constants of outer columns. */
  ghost predicate Scanned(conds: seq<Expr>, visited: seq<bool>, outer: set<int>, lo: nat, hi: nat)
    requires |conds| == |visited|
  {
    forall k :: lo <= k < hi && k < |conds| ==> visited[k] || NothingToPick(conds[k], outer)
  }

  ghost predicate NothingToPick(cond: Expr, outer: set<int>) {
    !OuterPin(cond, outer) && (cond.Const? ==> IsTrue(cond.value))
  }

  /** The visited conditions, filters first, are the recorded constants of outer columns. */
  ghost predicate OuterRecorded(filter: seq<Expr>, join: seq<Expr>, visited: seq<bool>, pins: map<int, Value>,
                                outer: set<int>) {
    |visited| == |filter| + |join| && PinsRecorded(filter + join, visited, pins) && pins.Keys <= outer
  }

  ghost predicate JoinUnpinned(filter: seq<Expr>, join: seq<Expr>, visited: seq<bool>, pins: map<int, Value>) {
    |visited| == |filter| + |join| && RestUnpinned(join, visited[|filter|..], pins)
  }

  /** A constant of an outer column is mentioned by no join condition other than its own equation. */
  ghost predicate OuterConstantsPropagated(filter: seq<Expr>, join: seq<Expr>, outer: set<int>) {
    forall i, j :: 0 <= i < |filter + join| && 0 <= j < |join| && OuterPin((filter + join)[i], outer)
      && ValidEqualCond((filter + join)[i]).value.col in Columns(join[j])
      ==> ValidEqualCond(join[j]) == ValidEqualCond((filter + join)[i])
  }

  lemma RecordedAgree(I: Interp, filter: seq<Expr>, join: seq<Expr>, visited: seq<bool>, pins: map<int, Value>,
                      outer: set<int>, row: Row)
    requires OuterRecorded(filter, join, visited, pins, outer) && OuterFiltersHold(I, filter, outer, row)
    requires forall k :: 0 <= k < |join| && visited[|filter| + k] ==> Holds(I, join[k], row)
    ensures Agrees(row, pins)
  {
    var all := filter + join;
    forall k | 0 <= k < |all| && visited[k] ensures Holds(I, all[k], row) {
      ValidEqualCondHolds(I, all[k], row);
      if k < |filter| {
        assert all[k] == filter[k];
      } else {
        assert visited[|filter| + (k - |filter|)] && all[k] == join[k - |filter|];
      }
    }
    PinsAgree(I, all, visited, pins, row);
  }

  ghost predicate Disagrees(cond: Expr, pins: map<int, Value>) {
    || (cond.Const? && !IsTrue(cond.value))
    || (&& ValidEqualCond(cond).Some?
        && var p := ValidEqualCond(cond).value;
           p.con.Null? || (p.col in pins && pins[p.col] != p.con))
  }

  lemma DisagreeingFails(I: Interp, cond: Expr, pins: map<int, Value>, row: Row)
    requires Disagrees(cond, pins) && Agrees(row, pins)
    ensures !Holds(I, cond, row)
    ensures ValidEqualCond(cond).None? ==> Columns(cond) == {}
    ensures ValidEqualCond(cond).Some? ==> Columns(cond) == {ValidEqualCond(cond).value.col}
  {
    if ValidEqualCond(cond).Some? { ValidEqualCondHolds(I, cond, row); }
  }

  /** A contradiction among filter conditions on outer columns: the outer filters never hold. */
  lemma FilterContradiction(I: Interp, filter: seq<Expr>, join: seq<Expr>, visited: seq<bool>, pins: map<int, Value>,
                            outer: set<int>, i: nat)
    requires OuterRecorded(filter, join, visited, pins, outer) && i < |filter|
    requires forall k :: |filter| <= k < |visited| ==> !visited[k]
    requires Disagrees(filter[i], pins) && (ValidEqualCond(filter[i]).Some? ==> OuterPin(filter[i], outer))
    ensures forall row: Row :: !OuterFiltersHold(I, filter, outer, row)
    ensures Equivalent(I, filter, [FALSE])
  {
    forall row: Row ensures !OuterFiltersHold(I, filter, outer, row) {
      if OuterFiltersHold(I, filter, outer, row) {
        RecordedAgree(I, filter, join, visited, pins, outer, row);
        DisagreeingFails(I, filter[i], pins, row);
        assert false;
      }
    }
    forall row: Row ensures !AllHold(I, filter, row) {
      assert !OuterFiltersHold(I, filter, outer, row);
    }
    NeverHold(I, filter);
  }

  /** A contradiction among join conditions: they never hold where the outer filters do. */
  lemma JoinContradiction(I: Interp, filter: seq<Expr>, join: seq<Expr>, visited: seq<bool>, pins: map<int, Value>,
                          outer: set<int>, i: nat)
    requires OuterRecorded(filter, join, visited, pins, outer) && i < |join|
    requires Disagrees(join[i], pins)
    ensures JoinRewrite(I, outer, filter, join, [FALSE], [])
  {
    forall row: Row | OuterFiltersHold(I, filter, outer, row)
      ensures AllHold(I, [FALSE], row) <==> AllHold(I, join, row) && AllHold(I, [], row)
    {
      assert !Holds(I, [FALSE][0], row);
      if AllHold(I, join, row) {
        RecordedAgree(I, filter, join, visited, pins, outer, row);
        DisagreeingFails(I, join[i], pins, row);
        assert false;
      }
    }
  }

  lemma OuterSubstitution(I: Interp, filter: seq<Expr>, join: seq<Expr>, visited: seq<bool>, pins: map<int, Value>,
                          outer: set<int>, m: map<int, Value>)
    requires OuterRecorded(filter, join, visited, pins, outer)
    requires forall c :: c in m ==> c in pins && pins[c] == m[c]
    ensures JoinRewrite(I, outer, filter, join, SubstituteRest(I, join, visited[|filter|..], m), [])
  {
    var join' := SubstituteRest(I, join, visited[|filter|..], m);
    forall row: Row | OuterFiltersHold(I, filter, outer, row)
      ensures AllHold(I, join', row) <==> AllHold(I, join, row) && AllHold(I, [], row)
    {
      if AllHold(I, join, row) || AllHold(I, join', row) {
        forall k | 0 <= k < |join| && visited[|filter| + k] ensures Holds(I, join[k], row) {
          assert visited[|filter|..][k] && join'[k] == join[k];
          if AllHold(I, join', row) { assert Holds(I, join'[k], row); }
        }
        RecordedAgree(I, filter, join, visited, pins, outer, row);
        forall k | 0 <= k < |join| ensures Holds(I, join'[k], row) <==> Holds(I, join[k], row) {
          SubstituteSound(I, join[k], m, row);
        }
      }
    }
  }

  lemma OuterSubstitutionRecorded(I: Interp, filter: seq<Expr>, join: seq<Expr>, visited: seq<bool>,
                                  pins0: map<int, Value>, m: map<int, Value>, outer: set<int>)
    requires OuterRecorded(filter, join, visited, pins0 + m, outer) && JoinUnpinned(filter, join, visited, pins0)
    ensures var join' := SubstituteRest(I, join, visited[|filter|..], m);
            OuterRecorded(filter, join', visited, pins0 + m, outer) && JoinUnpinned(filter, join', visited, pins0 + m)
  {
    var join' := SubstituteRest(I, join, visited[|filter|..], m);
    var pins, all, all' := pins0 + m, filter + join, filter + join';
    forall k | 0 <= k < |all| && visited[k] ensures all'[k] == all[k] {
      if k >= |filter| { assert visited[|filter|..][k - |filter|]; }
    }
    forall c | c in pins
      ensures exists k :: 0 <= k < |all'| && visited[k] && ValidEqualCond(all'[k]) == Some(Pin(c, pins[c]))
    {
      var k :| 0 <= k < |all| && visited[k] && ValidEqualCond(all[k]) == Some(Pin(c, pins[c]));
      assert all'[k] == all[k];
    }
    forall k | 0 <= k < |join'| && !visited[|filter|..][k] ensures Columns(join'[k]) !! pins.Keys {
      SubstituteShape(I, join[k], m);
    }
  }

  lemma OuterSettled(I: Interp, filter: seq<Expr>, join: seq<Expr>, visited: seq<bool>, pins: map<int, Value>,
                     outer: set<int>)
    requires OuterRecorded(filter, join, visited, pins, outer) && JoinUnpinned(filter, join, visited, pins)
    requires forall k :: 0 <= k < |filter + join| && !visited[k] ==> !OuterPin((filter + join)[k], outer)
    ensures OuterConstantsPropagated(filter, join, outer)
  {
    var all := filter + join;
    forall i, j | 0 <= i < |all| && 0 <= j < |join| && OuterPin(all[i], outer)
      && ValidEqualCond(all[i]).value.col in Columns(join[j])
      ensures ValidEqualCond(join[j]) == ValidEqualCond(all[i])
    {
      assert visited[i];
      assert all[|filter| + j] == join[j] && visited[|filter|..][j] == visited[|filter| + j];
      if visited[|filter| + j] { ValidEqualCondHolds(I, join[j], map[]); }
    }
  }

  lemma VisitKeepsOuter(filter: seq<Expr>, join: seq<Expr>, visited: seq<bool>, pins0: map<int, Value>,
                        pins: map<int, Value>, outer: set<int>, k: nat)
    requires OuterRecorded(filter, join, visited, pins, outer) && JoinUnpinned(filter, join, visited, pins0)
    requires k < |visited| && OuterPin((filter + join)[k], outer)
    requires var p := ValidEqualCond((filter + join)[k]).value; !p.con.Null? && (p.col !in pins || pins[p.col] == p.con)
    ensures var p := ValidEqualCond((filter + join)[k]).value;
            OuterRecorded(filter, join, visited[k := true], pins[p.col := p.con], outer)
    ensures JoinUnpinned(filter, join, visited[k := true], pins0)
  {
    var all := filter + join;
    var p := ValidEqualCond(all[k]).value;
    var visited', pins' := visited[k := true], pins[p.col := p.con];
    forall c | c in pins'
      ensures exists l :: 0 <= l < |all| && visited'[l] && ValidEqualCond(all[l]) == Some(Pin(c, pins'[c]))
    {
      if c == p.col {
        assert visited'[k] && ValidEqualCond(all[k]) == Some(Pin(c, pins'[c]));
      } else {
        var l :| 0 <= l < |all| && visited[l] && ValidEqualCond(all[l]) == Some(Pin(c, pins[c]));
        assert visited'[l];
      }
    }
  }

  /** Rewriting steps compose, as long as they carry over filter conditions of the same list. */
  lemma JoinRewriteTrans(I: Interp, outer: set<int>, filter: seq<Expr>, a: seq<Expr>, b: seq<Expr>, c: seq<Expr>,
                         ab: seq<Expr>, bc: seq<Expr>)
    requires JoinRewrite(I, outer, filter, a, b, ab) && JoinRewrite(I, outer, filter, b, c, bc)
    ensures JoinRewrite(I, outer, filter, a, c, ab + bc)
  {
    forall row: Row | OuterFiltersHold(I, filter, outer, row)
      ensures AllHold(I, c, row) <==> AllHold(I, a, row) && AllHold(I, ab + bc, row)
    {
      AllHoldAppend(I, ab, bc, row);
      assert AllHold(I, b, row) <==> AllHold(I, a, row) && AllHold(I, ab, row);
    }
  }

  // ---------- the constant phase as a function ----------

  /** A search for constants of outer columns: what is known, what of it is new, and the
      conditions it was taken from; or the position of a condition that cannot hold. */
  datatype Search = Search(pins: map<int, Value>, mapper: map<int, Value>, visited: seq<bool>) | Clash(at: nat)

  function PickStep(cond: Expr, k: nat, s: Search, outer: set<int>): (r: Search)
    requires s.Search? ==> k < |s.visited|
    ensures s.Search? && r.Search? ==> |r.visited| == |s.visited|
    ensures s.Search? && r.Clash? ==> r.at == k
  {
    if s.Clash? || s.visited[k] then s
    else
      match ValidEqualCond(cond)
      case None => if cond.Const? && !IsTrue(cond.value) then Clash(k) else s
      case Some(p) =>
        if p.col !in outer then s
        else if p.con.Null? || (p.col in s.pins && s.pins[p.col] != p.con) then Clash(k)
        else if p.col in s.pins then s.(visited := s.visited[k := true])
        else Search(s.pins[p.col := p.con], s.mapper[p.col := p.con], s.visited[k := true])
  }

  /** Searches the conditions from 'k' on. */
  function PickFrom(all: seq<Expr>, k: nat, s: Search, outer: set<int>): (r: Search)
    requires k <= |all| && (s.Search? ==> |s.visited| == |all|)
    ensures r.Search? ==> |r.visited| == |all|
    decreases |all| - k
  {
    if s.Clash? then s
    else if k == |all| then s
    else PickFrom(all, k + 1, PickStep(all[k], k, s, outer), outer)
  }

  /** What up to 'rounds' rounds make of the filter and the join conditions. */
  function ConstantRounds(I: Interp, filter: seq<Expr>, join: seq<Expr>, visited: seq<bool>, pins: map<int, Value>,
                          outer: set<int>, rounds: nat): (seq<Expr>, seq<Expr>)
    requires |visited| == |filter + join|
    decreases rounds
  {
    if rounds == 0 then (filter, join)
    else
      match PickFrom(filter + join, 0, Search(pins, map[], visited), outer)
      case Clash(at) => (if at < |filter| then [FALSE] else filter, [FALSE])
      case Search(pins', mapper, visited') =>
        if mapper == map[] then (filter, join)
        else
          var join' := SubstituteRest(I, join, visited'[|filter|..], mapper);
          ConstantRounds(I, filter, join', visited', pins', outer, rounds - 1)
  }

  function Unvisited(n: nat): (r: seq<bool>)
    ensures |r| == n
  {
    seq(n, k => false)
  }

  /** The split filter and join conditions after the constant phase. */
  function ConstantPhase(I: Interp, filter: seq<Expr>, join: seq<Expr>, outer: set<int>): (seq<Expr>, seq<Expr>) {
    var items, joins := SplitAll(filter, LogicAnd), SplitAll(join, LogicAnd);
    ConstantRounds(I, items, joins, Unvisited(|items + joins|), map[], outer, MAX_PROPAGATE_COLS)
  }

  /** The filter conditions that are carried into the join conditions: all those in which a
      chain of join equations lets an inner column replace an outer one. */
  ghost function CarriedFilters(I: Interp, filter: seq<Expr>, join: seq<Expr>, outer: set<int>,
                                inner: set<int>): set<Expr> {
    var (filter1, join1) := ConstantPhase(I, filter, join, outer);
    if |ColumnsOf(join) + ColumnsOf(filter)| > 100 then {}
    else set e | e in filter1 && Carries(join1, e, outer, inner)
  }

  /** Some filter that is carried fails on a match of an outer row that passes all filters when
      it is extended by NULLs. */
  ghost predicate CarriesTooMuch(I: Interp, filter: seq<Expr>, join: seq<Expr>, outer: set<int>, inner: set<int>) {
    exists o: Row, i: Row, e ::
      && RowOf(o, outer) && RowOf(i, inner) && AllHold(I, join, o + i) && AllHold(I, filter, o + NullRow(inner))
      && e in CarriedFilters(I, filter, join, outer, inner) && !Holds(I, e, o + i)
  }

  lemma PickUnfold(all: seq<Expr>, k: nat, s: Search, outer: set<int>)
    requires k < |all| && s.Search? && |s.visited| == |all|
    ensures var r := PickStep(all[k], k, s, outer);
            PickFrom(all, k, s, outer) == if r.Clash? then r else PickFrom(all, k + 1, r, outer)
  {
  }

  lemma PickEnd(all: seq<Expr>, s: Search, outer: set<int>)
    requires s.Search? && |s.visited| == |all|
    ensures PickFrom(all, |all|, s, outer) == s
  {
  }

  lemma NoRoundsLeft(I: Interp, filter: seq<Expr>, join: seq<Expr>, visited: seq<bool>, pins: map<int, Value>,
                     outer: set<int>)
    requires |visited| == |filter + join|
    ensures ConstantRounds(I, filter, join, visited, pins, outer, 0) == (filter, join)
  {
  }

  lemma RoundClash(I: Interp, filter: seq<Expr>, join: seq<Expr>, visited: seq<bool>, pins: map<int, Value>,
                   outer: set<int>, rounds: nat)
    requires |visited| == |filter + join| && rounds > 0
    requires PickFrom(filter + join, 0, Search(pins, map[], visited), outer).Clash?
    ensures ConstantRounds(I, filter, join, visited, pins, outer, rounds)
            == (if PickFrom(filter + join, 0, Search(pins, map[], visited), outer).at < |filter| then [FALSE]
                  else filter, [FALSE])
  {
    hide PickFrom;
  }

  lemma RoundGoesOn(I: Interp, filter: seq<Expr>, join: seq<Expr>, visited: seq<bool>, pins: map<int, Value>,
                    visited': seq<bool>, pins': map<int, Value>, mapper: map<int, Value>, outer: set<int>, rounds: nat)
    requires |visited| == |filter + join| && rounds > 0
    requires PickFrom(filter + join, 0, Search(pins, map[], visited), outer) == Search(pins', mapper, visited')
    ensures |visited'| == |filter + join|
    ensures ConstantRounds(I, filter, join, visited, pins, outer, rounds)
            == if mapper == map[] then (filter, join)
               else ConstantRounds(I, filter, SubstituteRest(I, join, visited'[|filter|..], mapper), visited', pins',
                                   outer, rounds - 1)
  {
    hide PickFrom;
  }

  /** Without a constant of an outer column and without a false condition the phase changes nothing. */
  lemma NothingSubstituted(I: Interp, filter: seq<Expr>, join: seq<Expr>, outer: set<int>, rounds: nat)
    requires forall k :: 0 <= k < |filter + join| ==> NothingToPick((filter + join)[k], outer)
    ensures ConstantRounds(I, filter, join, Unvisited(|filter + join|), map[], outer, rounds) == (filter, join)
  {
    hide PickFrom, NothingToPick;
    var s := Search(map[], map[], Unvisited(|filter + join|));
    NothingPicked(filter + join, 0, s, outer);
  }

  lemma {:induction false} NothingPicked(all: seq<Expr>, k: nat, s: Search, outer: set<int>)
    requires k <= |all| && s.Search? && |s.visited| == |all|
    requires forall l :: 0 <= l < |all| ==> NothingToPick(all[l], outer)
    ensures PickFrom(all, k, s, outer) == s
    decreases |all| - k
  {
    if k < |all| {
      assert PickStep(all[k], k, s, outer) == s;
      NothingPicked(all, k + 1, s, outer);
    }
  }

  class OuterJoinSolver {
    const I: Interp
    const outer: set<int>
    const inner: set<int>
    const notNull: set<int>
    const table: ColumnTable
    var joinConds: seq<Expr>
    var filterConds: seq<Expr>

    ghost predicate Valid(d: nat)
      reads this, table
    {
      && table.Valid() && outer !! inner
      && Within(joinConds, table.colMapper.Keys, d) && Within(filterConds, table.colMapper.Keys, d)
    }

    constructor (I: Interp, outer: set<int>, inner: set<int>, notNull: set<int>)
      ensures this.I == I && this.outer == outer && this.inner == inner && this.notNull == notNull
      ensures fresh(table) && table.Valid() && table.colMapper == map[] && joinConds == [] && filterConds == []
    {
      this.I, this.outer, this.inner, this.notNull := I, outer, inner, notNull;
      this.table := new ColumnTable();
      joinConds, filterConds := [], [];
    }

    method SetConds2ConstFalse(filters: bool)
      modifies this`joinConds, this`filterConds
      ensures joinConds == [FALSE]
      ensures filterConds == if filters then [FALSE] else old(filterConds)
    {
      joinConds := [FALSE];
      if filters { filterConds := [FALSE]; }
    }

    /** Looks at one condition; 'ok' is false when it contradicts what is known. */
    method PickOne(i: nat, mapper: map<int, Value>, visited: seq<bool>, filters: bool, ghost pins0: map<int, Value>,
                   ghost d: nat)
      returns (ok: bool, mapper': map<int, Value>, visited': seq<bool>)
      requires Valid(d) && |table.eqList| == |table.columns|
      requires Picking(filterConds, joinConds, visited, pins0, table.Pins(), mapper, outer)
      requires i < if filters then |filterConds| else |joinConds|
      requires |visited| == |filterConds + joinConds|
      requires filters ==> visited[i] || NothingToPick(filterConds[i], outer) || NoJoinVisited(filterConds, visited)
      modifies this`joinConds, this`filterConds, table`eqList
      ensures Valid(d) && |table.eqList| == |table.columns|
      ensures ok ==>
        && joinConds == old(joinConds) && filterConds == old(filterConds)
        && Picking(filterConds, joinConds, visited', pins0, table.Pins(), mapper', outer)
        && var k := if filters then i else |filterConds| + i;
           (visited' == visited[k := true] ||
            (visited' == visited && (visited[k] || NothingToPick((filterConds + joinConds)[k], outer))))
      ensures !ok ==> joinConds == [FALSE] && filterConds == (if filters then [FALSE] else old(filterConds))
      ensures !ok && filters ==> FiltersNeverHold(I, old(filterConds), outer)
      ensures !ok && !filters ==> JoinRewrite(I, outer, filterConds, old(joinConds), joinConds, [])
      ensures var k := if filters then i else |old(filterConds)| + i;
              PickStep(old(filterConds + joinConds)[k], k, Search(old(table.Pins()), mapper, visited), outer)
              == if ok then Search(table.Pins(), mapper', visited') else Clash(k)
    {
      hide Columns, Depth, JoinRewrite, FiltersNeverHold, Within, Picking;
      FalseWithin(table.colMapper.Keys, d);
      ok, mapper', visited' := true, mapper, visited;
      var conds := if filters then filterConds else joinConds;
      var offset := if filters then 0 else |filterConds|;
      var cond := conds[i];
      assert cond == (filterConds + joinConds)[offset + i];
      if !visited[offset + i] {
        var pin := ValidEqualCond(cond);
        if pin.None? {
          if cond.Const? && !IsTrue(cond.value) {
            Contradiction(I, filterConds, joinConds, visited, pins0, table.Pins(), mapper, outer, filters, i);
            SetConds2ConstFalse(filters);
            ok := false;
          }
        } else if pin.value.col in outer {
          visited' := visited[offset + i := true];
          var col, con := pin.value.col, pin.value.con;
          KnownColumn(I, conds, i, table.colMapper.Keys, d);
          ghost var pins := table.Pins();
          var updated, foreverFalse := table.TryToUpdateEQList(col, con);
          if foreverFalse {
            Contradiction(I, filterConds, joinConds, visited, pins0, pins, mapper, outer, filters, i);
            SetConds2ConstFalse(filters);
            ok := false;
          } else {
            VisitKeepsPicking(filterConds, joinConds, visited, pins0, pins, mapper, outer, offset + i);
            if updated { mapper' := mapper[col := con]; }
          }
        }
      }
    }

    /** Picks the constants of outer columns from the filter conditions or from the join
        conditions. A contradiction among filters empties the query; one among join
        conditions only makes the join conditions false. */
    method PickEQCondsOnOuterCol(mapper: map<int, Value>, visited: seq<bool>, filters: bool,
                                 ghost pins0: map<int, Value>, ghost d: nat)
      returns (ok: bool, mapper': map<int, Value>, visited': seq<bool>)
      requires Valid(d) && |table.eqList| == |table.columns|
      requires Picking(filterConds, joinConds, visited, pins0, table.Pins(), mapper, outer)
      requires |visited| == |filterConds + joinConds|
      requires filters ==> || Scanned(filterConds + joinConds, visited, outer, 0, |filterConds|)
                           || NoJoinVisited(filterConds, visited)
      modifies this`joinConds, this`filterConds, table`eqList
      ensures Valid(d) && |table.eqList| == |table.columns|
      ensures ok ==>
        && joinConds == old(joinConds) && filterConds == old(filterConds) && |visited'| == |visited|
        && Picking(filterConds, joinConds, visited', pins0, table.Pins(), mapper', outer)
        && (forall k :: 0 <= k < |visited| && visited[k] ==> visited'[k])
        && Scanned(filterConds + joinConds, visited', outer, if filters then 0 else |filterConds|,
                   if filters then |filterConds| else |visited'|)
      ensures !ok ==> joinConds == [FALSE] && filterConds == (if filters then [FALSE] else old(filterConds))
      ensures !ok && filters ==> FiltersNeverHold(I, old(filterConds), outer)
      ensures !ok && !filters ==> JoinRewrite(I, outer, filterConds, old(joinConds), joinConds, [])
      ensures var all, n := old(filterConds + joinConds), |old(filterConds)|;
              var found := PickFrom(all, if filters then 0 else n, Search(old(table.Pins()), mapper, visited), outer);
              if ok
              then found == PickFrom(all, if filters then n else |all|, Search(table.Pins(), mapper', visited'), outer)
              else found.Clash? && (found.at < n <==> filters)
    {
      hide PickStep, PickFrom;
      hide Columns, Depth, JoinRewrite, FiltersNeverHold, Within, Picking, NothingToPick;
      ok, mapper', visited' := true, mapper, visited;
      var n := if filters then |filterConds| else |joinConds|;
      var offset := if filters then 0 else |filterConds|;
      ghost var all := filterConds + joinConds;
      ghost var found := PickFrom(all, offset, Search(table.Pins(), mapper, visited), outer);
      for i := 0 to n
        invariant Valid(d) && |table.eqList| == |table.columns| && joinConds == old(joinConds) &&
                  filterConds == old(filterConds)
        invariant |visited'| == |visited|
        invariant Picking(filterConds, joinConds, visited', pins0, table.Pins(), mapper', outer)
        invariant forall k :: 0 <= k < |visited| && visited[k] ==> visited'[k]
        invariant filters && NoJoinVisited(filterConds, visited) ==> NoJoinVisited(filterConds, visited')
        invariant Scanned(all, visited', outer, offset, offset + i)
        invariant found == PickFrom(all, offset + i, Search(table.Pins(), mapper', visited'), outer)
      {
        PickUnfold(all, offset + i, Search(table.Pins(), mapper', visited'), outer);
        assert filters ==> all[i] == filterConds[i];
        ok, mapper', visited' := PickOne(i, mapper', visited', filters, pins0, d);
        if !ok { return; }
      }
    }

    /** Picks constants from the filter conditions first, then from the join conditions. */
    method PickNewEQConds(visited: seq<bool>, ghost d: nat)
      returns (ok: bool, mapper: map<int, Value>, visited': seq<bool>)
      requires Valid(d) && |table.eqList| == |table.columns| && |visited| == |filterConds + joinConds|
      requires OuterRecorded(filterConds, joinConds, visited, table.Pins(), outer)
      requires JoinUnpinned(filterConds, joinConds, visited, table.Pins())
      requires Scanned(filterConds + joinConds, visited, outer, 0, |filterConds|) || NoJoinVisited(filterConds, visited)
      modifies this`joinConds, this`filterConds, table`eqList
      ensures Valid(d) && |table.eqList| == |table.columns|
      ensures ok ==>
        && joinConds == old(joinConds) && filterConds == old(filterConds) && |visited'| == |visited|
        && Picking(filterConds, joinConds, visited', old(table.Pins()), table.Pins(), mapper, outer)
        && Scanned(filterConds + joinConds, visited', outer, 0, |visited'|)
      ensures !ok ==> Emptied(I, old(filterConds), old(joinConds), filterConds, joinConds, outer)
      ensures var found := PickFrom(old(filterConds + joinConds), 0, Search(old(table.Pins()), map[], visited), outer);
              if ok then found == Search(table.Pins(), mapper, visited')
              else found.Clash? && filterConds == (if found.at < |old(filterConds)| then [FALSE] else old(filterConds))
    {
      hide PickFrom;
      hide JoinRewrite, FiltersNeverHold, NothingToPick, OuterRecorded, JoinUnpinned;
      ghost var pins0 := table.Pins();
      assert pins0 + map[] == pins0;
      ok, mapper, visited' := PickEQCondsOnOuterCol(map[], visited, true, pins0, d);
      if ok {
        ghost var visited1 := visited';
        ok, mapper, visited' := PickEQCondsOnOuterCol(mapper, visited', false, pins0, d);
        assert ok ==> Scanned(filterConds + joinConds, visited', outer, 0, |filterConds|);
        if ok { PickEnd(filterConds + joinConds, Search(table.Pins(), mapper, visited'), outer); }
      }
    }

    /** One round: picks new constants and substitutes them into the join conditions. */
    method SubstituteRound(visited: seq<bool>, ghost join0: seq<Expr>, ghost rounds: nat, ghost d: nat)
      returns (done: bool, visited': seq<bool>)
      requires Valid(d) && |table.eqList| == |table.columns| && rounds > 0
      requires RoundState(I, filterConds, join0, joinConds, visited, table.Pins(), outer)
      modifies this`joinConds, this`filterConds, table`eqList
      ensures Valid(d) && |table.eqList| == |table.columns|
      ensures done ==> OuterConstantsPropagated(filterConds, joinConds, outer)
      ensures done ==> Rewritten(I, old(filterConds), join0, filterConds, joinConds, outer)
      ensures !done ==>
          filterConds == old(filterConds) && RoundState(I, filterConds, join0, joinConds, visited', table.Pins(), outer)
      ensures !done ==> FiltersScanned(filterConds, joinConds, visited', outer)
      ensures !done ==> |table.Pins().Keys| > |old(table.Pins()).Keys|
      ensures !done ==> |visited'| == |filterConds + joinConds|
      ensures |visited| == |old(filterConds + joinConds)|
      ensures ConstantRounds(I, old(filterConds), old(joinConds), visited, old(table.Pins()), outer, rounds)
              == if done then (filterConds, joinConds)
                 else ConstantRounds(I, filterConds, joinConds, visited', table.Pins(), outer, rounds - 1)
    {
      hide ConstantRounds, PickFrom;
      hide Columns, Depth, Equivalent, PinsRecorded, RestUnpinned, Picking, OuterConstantsPropagated, JoinRewrite,
        Emptied, SubstituteRest;
      hide OuterRecorded, JoinUnpinned, Scanned, NoJoinVisited, FiltersNeverHold, Within;
      ghost var pins0, join1 := table.Pins(), joinConds;
      var ok, mapper;
      ok, mapper, visited' := PickNewEQConds(visited, d);
      if !ok {
        EmptiedRewritten(I, old(filterConds), join0, join1, filterConds, joinConds, outer);
        RoundClash(I, old(filterConds), join1, visited, pins0, outer, rounds);
        EmptiedJoin(I, old(filterConds), join1, filterConds, joinConds, outer);
        return true, visited';
      }
      PickingMeans(filterConds, joinConds, visited', pins0, table.Pins(), mapper, outer);
      RoundGoesOn(I, filterConds, joinConds, visited, pins0, visited', table.Pins(), mapper, outer, rounds);
      if |mapper| == 0 {
        assert pins0 + map[] == pins0;
        ScannedSettled(I, filterConds, joinConds, visited', pins0, outer);
        return true, visited';
      }
      MorePins(pins0, mapper);
      RoundStep(I, filterConds, join0, joinConds, visited', pins0, mapper, outer);
      SubstituteUnvisited(visited', mapper, d);
      done := false;
    }

    /** Substitutes the constants of outer columns into the join conditions until none of
        them mentions such a column. The cap on the rounds is never what stops it. */
    method PropagateConstantEQ(ghost d: nat)
      requires Valid(d) && |table.columns| <= MAX_PROPAGATE_COLS
      modifies this`joinConds, this`filterConds, table`eqList
      ensures Valid(d) && OuterConstantsPropagated(filterConds, joinConds, outer)
      ensures Rewritten(I, old(filterConds), old(joinConds), filterConds, joinConds, outer)
      ensures (filterConds, joinConds)
              == ConstantRounds(I, old(filterConds), old(joinConds), Unvisited(|old(filterConds + joinConds)|), map[],
                                outer, MAX_PROPAGATE_COLS)
    {
      hide ConstantRounds;
      hide RoundState, OuterConstantsPropagated, FiltersScanned, Within;
      table.ResetEQList();
      var visited := Unvisited(|filterConds + joinConds|);
      ghost var result := ConstantRounds(I, filterConds, joinConds, visited, map[], outer, MAX_PROPAGATE_COLS);
      NothingRecorded(I, filterConds, joinConds, visited, outer);
      for i := 0 to MAX_PROPAGATE_COLS
        invariant Valid(d) && |table.eqList| == |table.columns| && filterConds == old(filterConds)
        invariant RoundState(I, filterConds, old(joinConds), joinConds, visited, table.Pins(), outer)
        invariant i > 0 ==> FiltersScanned(filterConds, joinConds, visited, outer)
        invariant |table.Pins().Keys| >= i
        invariant |visited| == |filterConds + joinConds|
        invariant result == ConstantRounds(I, filterConds, joinConds, visited, table.Pins(), outer,
                                           MAX_PROPAGATE_COLS - i)
      {
        var done;
        done, visited := SubstituteRound(visited, old(joinConds), MAX_PROPAGATE_COLS - i, d);
        if done { return; }
      }
      AllPinned(table.colMapper, table.Pins());
      NoRoundsLeft(I, filterConds, joinConds, visited, table.Pins(), outer);
      CapSettled(I, filterConds, old(joinConds), joinConds, visited, table.Pins(), outer, d);
    }

    method SubstituteUnvisited(visited: seq<bool>, mapper: map<int, Value>, ghost d: nat)
      requires Valid(d) && |visited| == |filterConds| + |joinConds|
      modifies this`joinConds
      ensures Valid(d) && joinConds == SubstituteRest(I, old(joinConds), visited[|filterConds|..], mapper)
    {
      hide Substitute, Columns, Depth, Within;
      var lenFilters := |filterConds|;
      ghost var rest := visited[lenFilters..];
      for k := 0 to |joinConds|
        invariant |joinConds| == |old(joinConds)|
        invariant forall l :: 0 <= l < k ==> joinConds[l] == SubstituteRest(I, old(joinConds), rest, mapper)[l]
        invariant forall l :: k <= l < |joinConds| ==> joinConds[l] == old(joinConds)[l]
      {
        if !visited[k + lenFilters] {
          joinConds := joinConds[k := Substitute(I, joinConds[k], mapper).1];
        }
      }
      assert joinConds == SubstituteRest(I, old(joinConds), rest, mapper);
      SubstituteRestShape(I, old(joinConds), rest, mapper, table.colMapper.Keys, d);
    }

    /** Builds the sets of columns that the join equates across its two sides, and adds
        that their inner columns are not NULL. */
    method LinkColumns(ghost d: nat) returns (unionSet: DisjointSet.IntSet, visited: seq<bool>)
      requires Valid(d) && d >= 2
      modifies this`joinConds
      ensures fresh(unionSet) && unionSet.Valid() && Valid(d)
      ensures old(joinConds) <= joinConds && |joinConds| <= 2 * |old(joinConds)|
      ensures Equivalent(I, old(joinConds), joinConds)
      ensures forall k :: 0 <= k < |old(joinConds)| && LinkOf(joinConds[k], outer, inner).Some? ==>
                NotNullKept(I, LinkOf(joinConds[k], outer, inner).value.1, notNull, joinConds)
      ensures |visited| == 2 * |old(joinConds)| + |filterConds|
      ensures forall k :: 0 <= k < |visited| ==>
                (visited[k] <==> k < |old(joinConds)| && LinkOf(joinConds[k], outer, inner).Some?)
      ensures |unionSet.root| == |table.columns| && SetsSound(I, old(joinConds), table.columns, unionSet.root)
      ensures var links := Links(old(joinConds), outer, inner);
              SetsComplete(links, |links|, table.colMapper, unionSet.root)
      ensures SetsChained(Links(old(joinConds), outer, inner), table.columns, unionSet.root)
    {
      hide SetsChained;
      hide Columns, Depth, Eval, SetsSound, SetsComplete, Within, NewFunction, NotNullExpr, LinkOf, DisjointSet.Merged,
        Links, Holds;
      ghost var join0 := joinConds;
      var n := |joinConds|;
      visited := seq(2 * n + |filterConds|, k => false);
      unionSet := new DisjointSet.IntSet(|table.columns|);
      NothingLinked(I, join0, table.columns, table.colMapper);
      LinksOfNone(outer, inner);
      NothingChained(table.columns, unionSet.root);
      for i := 0 to n
        invariant Valid(d) && unionSet.Valid() && fresh(unionSet) && |unionSet.root| == |table.columns|
        invariant join0 <= joinConds && |joinConds| <= n + i && Equivalent(I, join0, joinConds)
        invariant |visited| == 2 * n + |filterConds|
        invariant forall k :: 0 <= k < |visited| ==> (visited[k] <==> k < i && LinkOf(join0[k], outer, inner).Some?)
        invariant forall k :: 0 <= k < i && LinkOf(join0[k], outer, inner).Some? ==>
                    NotNullKept(I, LinkOf(join0[k], outer, inner).value.1, notNull, joinConds)
        invariant SetsSound(I, join0, table.columns, unionSet.root)
        invariant var links := Links(join0[..i], outer, inner);
                  SetsComplete(links, |links|, table.colMapper, unionSet.root)
        invariant SetsChained(Links(join0[..i], outer, inner), table.columns, unionSet.root)
      {
        assert joinConds[i] == join0[i];
        LinksStep(join0, i, outer, inner);
        var link := LinkOf(joinConds[i], outer, inner);
        if link.Some? {
          LinkColumnsKnown(join0, i, outer, inner, joinConds, table.colMapper.Keys, d);
          var outerID, innerID := table.colMapper[link.value.0], table.colMapper[link.value.1];
          table.Numbered(link.value.0);
          table.Numbered(link.value.1);
          LinkStep(I, join0, i, table.columns, table.colMapper, unionSet.root, outer, inner);
          unionSet.Union(outerID, innerID);
          visited := visited[i := true];
          if link.value.1 !in notNull {
            NotNullFollows(I, join0, joinConds, i, outer, inner, table.colMapper.Keys, d);
            joinConds := joinConds + [NotNullExpr(I, link.value.1)];
          }
        }
      }
      assert join0[..n] == join0;
    }

    /** Carries the conditions of one list from an outer column to the inner column that
        the join equates with it. */
    method DeriveConds(outerCol: int, innerCol: int, schema: set<int>, fCondsOffset: nat, visited: seq<bool>,
                       filters: bool, ghost join1: seq<Expr>, ghost carried: seq<Expr>, ghost d: nat)
      returns (visited': seq<bool>, ghost carried': seq<Expr>)
      requires Valid(d) && fCondsOffset == |join1| && innerCol in table.colMapper
      requires CarryState(I, outer, filterConds, join1, joinConds, carried) && EqualUnder(I, join1, outerCol, innerCol)
      requires Skipped(filterConds, join1, visited, schema, outer, inner)
      modifies this`joinConds
      ensures Valid(d) && CarryState(I, outer, filterConds, join1, joinConds, carried') && old(joinConds) <= joinConds
      ensures Skipped(filterConds, join1, visited', schema, outer, inner)
      ensures var conds := if filters then filterConds else join1;
              CarryDone(I, conds, |conds|, outerCol, innerCol, schema, outer, inner, !filters, joinConds)
      ensures CarriedMore(I, if filters then filterConds else [], outerCol, innerCol, schema, carried, carried')
    {
      hide CarriedMore;
      hide TryToReplace, Columns, Depth, Within, CarryState, EqualUnder, Eval, LinkOf;
      visited', carried' := visited, carried;
      CarryPrefix(I, outer, filterConds, join1, joinConds, carried);
      ghost var source := if filters then filterConds else join1;
      CarriedNothing(I, outerCol, innerCol, schema, carried);
      var offset := if filters then fCondsOffset else 0;
      var condsLen := if filters then |filterConds| else fCondsOffset;
      for k := 0 to condsLen
        invariant Valid(d) && CarryState(I, outer, filterConds, join1, joinConds, carried')
        invariant join1 <= joinConds && old(joinConds) <= joinConds && filterConds == old(filterConds)
        invariant Skipped(filterConds, join1, visited', schema, outer, inner)
        invariant CarryDone(I, source, k, outerCol, innerCol, schema, outer, inner, !filters, joinConds)
        invariant CarriedMore(I, if filters then filterConds[..k]
                                else [], outerCol, innerCol, schema, carried, carried')
      {
        ghost var joinConds0 := joinConds;
        if filters { CarriedStep(I, filterConds, k, outerCol, innerCol, schema, carried, carried'); }
        if !visited'[k + offset] {
          var cond := if filters then filterConds[k] else joinConds[k];
          assert cond == source[k];
          if !(Columns(cond) <= schema) {
            visited' := visited'[k + offset := true];
          } else {
            var r := TryToReplace(I, outerCol, innerCol, cond);
            if r.replaced {
              CarryStep(I, outer, filterConds, join1, joinConds, carried', filters, k, outerCol, innerCol,
                        table.colMapper.Keys, d);
              joinConds := joinConds + [r.expr];
              if filters { carried' := carried' + [cond]; }
            }
          }
        }
        CarryDoneMonotone(I, source, k, outerCol, innerCol, schema, outer, inner, !filters, joinConds0, joinConds);
      }
      assert filterConds[..|filterConds|] == filterConds;
    }

    /** Carries conditions across every pair of an outer and an inner column that a chain of
        join conditions equates. */
    method PropagateColumnEQ(ghost d: nat) returns (ghost carried: seq<Expr>)
      requires Valid(d) && d >= 2
      modifies this`joinConds
      ensures Valid(d) && old(joinConds) <= joinConds
      ensures CarryState(I, outer, filterConds, old(joinConds), joinConds, carried)
      ensures forall k :: 0 <= k < |old(joinConds)| && LinkOf(joinConds[k], outer, inner).Some? ==>
                NotNullKept(I, LinkOf(joinConds[k], outer, inner).value.1, notNull, joinConds)
      ensures forall chain ::
          EqualityChain(Links(old(joinConds), outer, inner), chain) && chain[0] in outer &&
          chain[|chain| - 1] in inner ==>
                BothCarried(I, filterConds, old(joinConds), chain[0], chain[|chain| - 1], outer, inner, joinConds)
      ensures CarriedExactly(I, filterConds, old(joinConds), outer, inner, carried)
    {
      hide CarriedFrom, CarriedExactly, SetsChained, CarriedMore;
      hide TryToReplace, Columns, Depth, Eval, CarryState, CarryDone, SetsSound, SetsComplete, Within, LinkOf, Links,
        NotNullExpr, Skipped;
      ghost var join0 := joinConds;
      var unionSet, visited := LinkColumns(d);
      ghost var join1, root := joinConds, unionSet.root;
      var lenJoinConds := |joinConds|;
      var schema, columns := outer + inner, table.columns;
      carried := [];
      CarryNothing(I, outer, filterConds, join0, join1, visited, schema, inner);
      CarriedFromNone(I, filterConds, columns, root, outer, inner);
      for i := 0 to |columns|
        invariant Valid(d) && CarryState(I, outer, filterConds, join1, joinConds, carried) && join1 <= joinConds
        invariant unionSet.Valid() && unionSet.root == root &&
                  Skipped(filterConds, join1, visited, schema, outer, inner)
        invariant PairsCarried(I, filterConds, join1, columns, root, i, i + 1, outer, inner, joinConds)
        invariant CarriedFrom(I, filterConds, columns, root, i, i + 1, outer, inner, carried)
      {
        for j := i + 1 to |columns|
          invariant Valid(d) && CarryState(I, outer, filterConds, join1, joinConds, carried) && join1 <= joinConds
          invariant unionSet.Valid() && unionSet.root == root &&
                    Skipped(filterConds, join1, visited, schema, outer, inner)
          invariant PairsCarried(I, filterConds, join1, columns, root, i, j, outer, inner, joinConds)
          invariant CarriedFrom(I, filterConds, columns, root, i, j, outer, inner, carried)
        {
          ghost var joinConds0, carried0 := joinConds, carried;
          var ri := unionSet.FindRoot(i);
          var rj := unionSet.FindRoot(j);
          var pair := OuterAndInner(columns[i], columns[j], outer, inner);
          if ri == rj && pair.Some? {
            var (outerCol, innerCol) := pair.value;
            EqualInSet(I, join0, join1, columns, root, i, j);
            visited, carried := DeriveConds(outerCol, innerCol, schema, lenJoinConds, visited, false, join1, carried,
                                            d);
            ghost var joinConds1, carried1 := joinConds, carried;
            visited, carried := DeriveConds(outerCol, innerCol, schema, lenJoinConds, visited, true, join1, carried, d);
            CarryDoneMonotone(I, join1, |join1|, outerCol, innerCol, schema, outer, inner, true, joinConds1, joinConds);
            CarriedByPair(I, filterConds, outerCol, innerCol, schema, carried0, carried1, carried);
          }
          CarriedFromStep(I, filterConds, columns, root, i, j, outer, inner, carried0, carried);
          PairsStep(I, filterConds, join1, columns, root, i, j, outer, inner, joinConds0, joinConds);
        }
        RowFinished(I, filterConds, join1, columns, root, i, outer, inner, joinConds);
        CarriedRow(I, filterConds, columns, root, i, outer, inner, carried);
      }
      CarryFromStart(I, outer, filterConds, join0, join1, joinConds, carried);
      forall c | c in table.colMapper
        ensures table.colMapper[c] < |columns| && columns[table.colMapper[c]] == c
      {
        table.Numbered(c);
      }
      CarriedOverChains(I, filterConds, join0, columns, table.colMapper, root, outer, inner, carried);
      forall chain | EqualityChain(Links(join0, outer, inner), chain) && chain[0] in outer &&
        chain[|chain| - 1] in inner
        ensures BothCarried(I, filterConds, join0, chain[0], chain[|chain| - 1], outer, inner, joinConds)
      {
        ChainInOneSet(Links(join0, outer, inner), table.colMapper, root, chain);
        table.Numbered(chain[0]);
        table.Numbered(chain[|chain| - 1]);
        ChainCarried(I, filterConds, join0, join1, columns, root, table.colMapper[chain[0]],
                     table.colMapper[chain[|chain| - 1]],
                     outer, inner, joinConds);
      }
    }

    /** Rewrites the join and the filter conditions of a left outer join. */
    method Solve(join: seq<Expr>, filter: seq<Expr>)
      returns (join': seq<Expr>, filter': seq<Expr>, ghost carried: seq<Expr>)
      requires outer !! inner && table.Valid() && table.colMapper == map[]
      modifies this, table
      ensures Equivalent(I, filter, filter')
      ensures JoinRewrite(I, outer, SplitAll(filter, LogicAnd), join, join', carried)
      ensures |ColumnsOf(join) + ColumnsOf(filter)| <= 100 ==>
                exists join2 :: OuterPhases(I, outer, inner, notNull, join, filter, join2, join', filter', carried)
      ensures |ColumnsOf(join) + ColumnsOf(filter)| > 100 ==>
          join' == join && filter' == filter && carried == []
    {
      hide ConstantRounds;
      hide Eval, Columns, Depth, MaxDepth, ColumnsOf, SplitAll, Within, CarryState, Rewritten, ExtractAll, JoinRewrite,
        Equivalent, OuterConstantsPropagated,
        BothCarried, NotNullKept, LinkOf, Links, OrItemsSolved, CarriedExactly, ItemsKept, OuterPropagated, JoinLinked,
        EqualityChain;
      ghost var d := 2 + MaxDepth(join + filter);
      Collect(join, filter);
      ghost var filter0, join0 := filterConds, joinConds;
      if |table.columns| > MAX_PROPAGATE_COLS {
        join', filter', carried := join, filter, [];
        NoRewrite(I, outer, filter0, join, filter);
        return;
      }
      PropagateConstantEQ(d);
      ghost var join1, filter1 := joinConds, filterConds;
      carried := PropagateColumnEQ(d);
      ghost var join2 := joinConds;
      joinConds := PropagateConstantDNF(I, joinConds);
      filterConds := PropagateConstantDNF(I, filterConds);
      join', filter' := joinConds, filterConds;
      PhasesCompose(I, outer, join, filter, filter0, filter1, filter', join0, join1, join2, join', carried);
      assert (filter1, join1) == ConstantPhase(I, filter, join, outer);
      ConstantPhaseKeeps(I, filter, join, outer);
      OuterForms(filter1, join1, outer);
      JoinForms(I, outer, inner, notNull, filter1, join1, join2, carried);
      assert OuterPhases(I, outer, inner, notNull, join, filter, join2, join', filter', carried);
    }

    /** Splits both lists into items and numbers their columns. */
    method Collect(join: seq<Expr>, filter: seq<Expr>)
      requires outer !! inner && table.Valid() && table.colMapper == map[]
      modifies this, table
      ensures joinConds == SplitAll(join, LogicAnd) && filterConds == SplitAll(filter, LogicAnd)
      ensures Valid(2 + MaxDepth(join + filter)) && |table.columns| == |ColumnsOf(join) + ColumnsOf(filter)|
      ensures Equivalent(I, join, joinConds) && Equivalent(I, filter, filterConds)
    {
      hide Eval, Columns, Depth, MaxDepth, ColumnsOf, SplitAll, Within, ExtractAll, Equivalent;
      joinConds, filterConds := SplitAll(join, LogicAnd), SplitAll(filter, LogicAnd);
      table.InsertAll(ExtractAll(join));
      table.InsertAll(ExtractAll(filter));
      ExtractedColumns(join);
      ExtractedColumns(filter);
      KeyCount(table.colMapper);
      SplitAllWithin(join, filter, table.colMapper.Keys);
      SplitAllEquivalent(I, join);
      SplitAllEquivalent(I, filter);
    }
  }

  // ---------- what the phases leave, on the syntax of the conditions ----------

  /** The two columns are on different sides of the join. */
  predicate AcrossSides(a: int, b: int, outer: set<int>, inner: set<int>) {
    (a in outer && b in inner) || (b in outer && a in inner)
  }

  /** The condition equates an outer and an inner column, either way round. */
  predicate EquatesSides(e: Expr, outer: set<int>, inner: set<int>) {
    EquatesColumns(e) && AcrossSides(e.args[0].id, e.args[1].id, outer, inner)
  }

  /** A chain of columns whose neighbours a join condition equates across the two sides. */
  ghost predicate JoinChain(join: seq<Expr>, chain: seq<int>, outer: set<int>, inner: set<int>) {
    |chain| >= 2 && forall i :: 0 <= i < |chain| - 1 ==>
      Equated(join, chain[i], chain[i + 1]) && AcrossSides(chain[i], chain[i + 1], outer, inner)
  }

  ghost predicate JoinChained(join: seq<Expr>, a: int, b: int, outer: set<int>, inner: set<int>) {
    exists chain :: JoinChain(join, chain, outer, inner) && chain[0] == a && chain[|chain| - 1] == b
  }

  /** Some chain of join equations equates an outer column with an inner one that may replace it in 'e'. */
  ghost predicate Carries(join: seq<Expr>, e: Expr, outer: set<int>, inner: set<int>) {
    && Columns(e) <= outer + inner
    && exists a, b :: a in outer && b in inner && JoinChained(join, a, b, outer, inner) && Replaceable(e, a)
  }

  /** The conditions on 'a' in the two schemas are stated of 'b' as well. */
  ghost predicate StatedOf(filter: seq<Expr>, join: seq<Expr>, a: int, b: int, outer: set<int>, inner: set<int>,
                           linked: seq<Expr>) {
    forall e | e in filter || (e in join && !EquatesSides(e, outer, inner)) ::
      Columns(e) <= outer + inner && Replaceable(e, a) ==> Renamed(e, a, b) in linked
  }

  /** Every inner column that the join equates with an outer one is known not to be NULL; every
      chain of such equations from an outer to an inner column has the conditions of the first
      stated of the second; and the filters carried over are exactly those that can be. */
  ghost predicate JoinLinked(outer: set<int>, inner: set<int>, notNull: set<int>, filter: seq<Expr>,
                             join: seq<Expr>, linked: seq<Expr>, carried: seq<Expr>) {
    && join <= linked
    && (forall o, i :: Equated(join, o, i) && o in outer && i in inner ==>
          i in notNull || Func(UnaryNot, [Func(IsNull, [Column(i)])]) in linked)
    && (forall chain :: JoinChain(join, chain, outer, inner) && chain[0] in outer && chain[|chain| - 1] in inner ==>
          StatedOf(filter, join, chain[0], chain[|chain| - 1], outer, inner, linked))
    && (forall e :: e in carried <==> e in filter && Carries(join, e, outer, inner))
  }

  /** A constant of an outer column is mentioned by no join condition other than its own equation. */
  ghost predicate OuterPropagated(filter: seq<Expr>, join: seq<Expr>, outer: set<int>) {
    forall e, f, c, v :: (e in filter || e in join) && f in join && c in outer && IsEquation(e, c, v) && c in Columns(f)
      ==> IsEquation(f, c, v)
  }

  /** The split conditions keep every filter, and every equation of an outer column with a
      constant, unless they became false. */
  ghost predicate ItemsKept(filter: seq<Expr>, join: seq<Expr>, filter1: seq<Expr>, join1: seq<Expr>, outer: set<int>) {
    && NoTrees(filter1) && NoTrees(join1)
    && (filter1 == [FALSE] || AllLeaves(filter, filter1))
    && (join1 == [FALSE] || forall leaf, c, v ::
          LeafAmong(join, leaf) && IsEquation(leaf, c, v) && c in outer ==> leaf in join1)
  }

  /** The phases on the split conditions: constants of outer columns substituted into the join
      conditions, conditions carried over, OR items solved. */
  ghost predicate OuterPhases(I: Interp, outer: set<int>, inner: set<int>, notNull: set<int>, join: seq<Expr>,
                              filter: seq<Expr>, join2: seq<Expr>, join': seq<Expr>, filter': seq<Expr>,
                              carried: seq<Expr>) {
    var (filter1, join1) := ConstantPhase(I, filter, join, outer);
    && Rewritten(I, SplitAll(filter, LogicAnd), SplitAll(join, LogicAnd), filter1, join1, outer)
    && ItemsKept(filter, join, filter1, join1, outer) && OuterPropagated(filter1, join1, outer)
    && JoinLinked(outer, inner, notNull, filter1, join1, join2, carried)
    && OrItemsSolved(I, join2, join') && OrItemsSolved(I, filter1, filter')
  }

  /** The state of a search: what it has recorded beyond 'pins0' is in 'mapper'. */
  ghost predicate Picking(filter: seq<Expr>, join: seq<Expr>, visited: seq<bool>, pins0: map<int, Value>,
                          pins: map<int, Value>, mapper: map<int, Value>, outer: set<int>) {
    && OuterRecorded(filter, join, visited, pins, outer) && JoinUnpinned(filter, join, visited, pins0)
    && mapper.Keys !! pins0.Keys && pins == pins0 + mapper
  }

  ghost predicate NoJoinVisited(filter: seq<Expr>, visited: seq<bool>) {
    forall k :: |filter| <= k < |visited| ==> !visited[k]
  }

  ghost predicate FiltersNeverHold(I: Interp, filter: seq<Expr>, outer: set<int>) {
    Equivalent(I, filter, [FALSE]) && forall row: Row :: !OuterFiltersHold(I, filter, outer, row)
  }

  lemma KnownColumn(I: Interp, conds: seq<Expr>, i: nat, cols: set<int>, d: nat)
    requires Within(conds, cols, d) && i < |conds| && ValidEqualCond(conds[i]).Some?
    ensures ValidEqualCond(conds[i]).value.col in cols
  {
    ValidEqualCondHolds(I, conds[i], map[]);
  }

  lemma VisitKeepsPicking(filter: seq<Expr>, join: seq<Expr>, visited: seq<bool>, pins0: map<int, Value>,
                          pins: map<int, Value>, mapper: map<int, Value>, outer: set<int>, k: nat)
    requires Picking(filter, join, visited, pins0, pins, mapper, outer)
    requires k < |visited| && |visited| == |filter + join| && !visited[k] && OuterPin((filter + join)[k], outer)
    requires var p := ValidEqualCond((filter + join)[k]).value; !p.con.Null? && (p.col !in pins || pins[p.col] == p.con)
    ensures var p := ValidEqualCond((filter + join)[k]).value;
            if p.col in pins then Picking(filter, join, visited[k := true], pins0, pins, mapper, outer)
            else Picking(filter, join, visited[k := true], pins0, pins[p.col := p.con], mapper[p.col := p.con], outer)
  {
    VisitKeepsOuter(filter, join, visited, pins0, pins, outer, k);
    var p := ValidEqualCond((filter + join)[k]).value;
    if p.col in pins {
      assert pins[p.col := p.con] == pins;
    } else {
      assert pins0 + mapper[p.col := p.con] == (pins0 + mapper)[p.col := p.con];
    }
  }

  lemma Contradiction(I: Interp, filter: seq<Expr>, join: seq<Expr>, visited: seq<bool>, pins0: map<int, Value>,
                      pins: map<int, Value>, mapper: map<int, Value>, outer: set<int>, filters: bool, i: nat)
    requires Picking(filter, join, visited, pins0, pins, mapper, outer)
    requires var conds := if filters then filter else join;
             i < |conds| && Disagrees(conds[i], pins) && (ValidEqualCond(conds[i]).Some? ==> OuterPin(conds[i], outer))
    requires filters ==> NoJoinVisited(filter, visited)
    ensures filters ==> FiltersNeverHold(I, filter, outer)
    ensures !filters ==> JoinRewrite(I, outer, filter, join, [FALSE], [])
  {
    if filters {
      FilterContradiction(I, filter, join, visited, pins, outer, i);
    } else {
      JoinContradiction(I, filter, join, visited, pins, outer, i);
    }
  }

  /** Nothing is left of the query, or nothing of its join conditions. */
  ghost predicate Emptied(I: Interp, filter0: seq<Expr>, join0: seq<Expr>, filter: seq<Expr>, join: seq<Expr>,
                          outer: set<int>) {
    && join == [FALSE]
    && (|| (filter == [FALSE] && FiltersNeverHold(I, filter0, outer))
        || (filter == filter0 && JoinRewrite(I, outer, filter0, join0, join, [])))
  }

  /** The filters are unchanged, or never hold; the join conditions are rewritten without
      carrying anything over. */
  ghost predicate Rewritten(I: Interp, filter0: seq<Expr>, join0: seq<Expr>, filter: seq<Expr>, join: seq<Expr>,
                            outer: set<int>) {
    && JoinRewrite(I, outer, filter0, join0, join, [])
    && (filter == filter0 || (filter == [FALSE] && FiltersNeverHold(I, filter0, outer)))
  }

  lemma EmptiedJoin(I: Interp, filter0: seq<Expr>, join0: seq<Expr>, filter: seq<Expr>, join: seq<Expr>,
                    outer: set<int>)
    requires Emptied(I, filter0, join0, filter, join, outer)
    ensures join == [FALSE]
  {
  }

  lemma EmptiedRewritten(I: Interp, filter0: seq<Expr>, join0: seq<Expr>, join1: seq<Expr>, filter: seq<Expr>,
                         join: seq<Expr>, outer: set<int>)
    requires JoinRewrite(I, outer, filter0, join0, join1, []) && Emptied(I, filter0, join1, filter, join, outer)
    ensures Rewritten(I, filter0, join0, filter, join, outer) && OuterConstantsPropagated(filter, join, outer)
  {
    if JoinRewrite(I, outer, filter0, join1, join, []) {
      JoinRewriteTrans(I, outer, filter0, join0, join1, join, [], []);
    }
  }

  ghost predicate FiltersScanned(filter: seq<Expr>, join: seq<Expr>, visited: seq<bool>, outer: set<int>) {
    |visited| == |filter + join| && Scanned(filter + join, visited, outer, 0, |filter|)
  }

  /** What holds between rounds. */
  ghost predicate RoundState(I: Interp, filter: seq<Expr>, join0: seq<Expr>, join: seq<Expr>, visited: seq<bool>,
                             pins: map<int, Value>, outer: set<int>) {
    && |visited| == |filter + join|
    && OuterRecorded(filter, join, visited, pins, outer) && JoinUnpinned(filter, join, visited, pins)
    && (Scanned(filter + join, visited, outer, 0, |filter|) || NoJoinVisited(filter, visited))
    && JoinRewrite(I, outer, filter, join0, join, [])
  }

  lemma NothingRecorded(I: Interp, filter: seq<Expr>, join: seq<Expr>, visited: seq<bool>, outer: set<int>)
    requires |visited| == |filter + join| && forall k :: 0 <= k < |visited| ==> !visited[k]
    ensures RoundState(I, filter, join, join, visited, map[], outer)
  {
  }

  lemma RoundStep(I: Interp, filter: seq<Expr>, join0: seq<Expr>, join: seq<Expr>, visited: seq<bool>,
                  pins0: map<int, Value>, m: map<int, Value>, outer: set<int>)
    requires OuterRecorded(filter, join, visited, pins0 + m, outer) && JoinUnpinned(filter, join, visited, pins0)
    requires |visited| == |filter + join| && Scanned(filter + join, visited, outer, 0, |visited|)
    requires JoinRewrite(I, outer, filter, join0, join, [])
    ensures |visited| == |filter| + |join|
    ensures var join' := SubstituteRest(I, join, visited[|filter|..], m);
            RoundState(I, filter, join0, join', visited, pins0 + m, outer) &&
            FiltersScanned(filter, join', visited, outer)
  {
    hide JoinRewrite, OuterRecorded, JoinUnpinned, Scanned, SubstituteRest;
    OuterSubstitution(I, filter, join, visited, pins0 + m, outer, m);
    OuterSubstitutionRecorded(I, filter, join, visited, pins0, m, outer);
    SubstitutionScanned(I, filter, join, visited, m, outer);
    var none: seq<Expr> := [];
    assert none + none == none;
    JoinRewriteTrans(I, outer, filter, join0, join, SubstituteRest(I, join, visited[|filter|..], m), none, none);
  }

  lemma PickingMeans(filter: seq<Expr>, join: seq<Expr>, visited: seq<bool>, pins0: map<int, Value>,
                     pins: map<int, Value>, mapper: map<int, Value>, outer: set<int>)
    requires Picking(filter, join, visited, pins0, pins, mapper, outer)
    ensures OuterRecorded(filter, join, visited, pins, outer) && JoinUnpinned(filter, join, visited, pins0)
    ensures mapper.Keys !! pins0.Keys && pins == pins0 + mapper
    ensures forall c :: c in mapper ==> c in pins && pins[c] == mapper[c]
  {
  }

  lemma ScannedSettled(I: Interp, filter: seq<Expr>, join: seq<Expr>, visited: seq<bool>, pins: map<int, Value>,
                       outer: set<int>)
    requires OuterRecorded(filter, join, visited, pins, outer) && JoinUnpinned(filter, join, visited, pins)
    requires |visited| == |filter + join| && Scanned(filter + join, visited, outer, 0, |visited|)
    ensures OuterConstantsPropagated(filter, join, outer)
  {
    OuterSettled(I, filter, join, visited, pins, outer);
  }

  lemma SubstitutionScanned(I: Interp, filter: seq<Expr>, join: seq<Expr>, visited: seq<bool>, m: map<int, Value>,
                            outer: set<int>)
    requires |visited| == |filter + join| && Scanned(filter + join, visited, outer, 0, |visited|)
    ensures var join' := SubstituteRest(I, join, visited[|filter|..], m);
            |visited| == |filter + join'| && Scanned(filter + join', visited, outer, 0, |filter|)
  {
    var join' := SubstituteRest(I, join, visited[|filter|..], m);
    forall k | 0 <= k < |filter| ensures visited[k] || NothingToPick((filter + join')[k], outer) {
      assert (filter + join')[k] == filter[k] == (filter + join)[k];
    }
  }

  /** When as many constants are known as there are columns, nothing can be left. */
  lemma CapSettled(I: Interp, filter: seq<Expr>, join0: seq<Expr>, join: seq<Expr>, visited: seq<bool>,
                   pins: map<int, Value>, outer: set<int>, d: nat)
    requires RoundState(I, filter, join0, join, visited, pins, outer)
    requires FiltersScanned(filter, join, visited, outer) && Within(join, pins.Keys, d)
    ensures OuterConstantsPropagated(filter, join, outer) && Rewritten(I, filter, join0, filter, join, outer)
  {
    NoColumnsLeft(I, join, visited[|filter|..], pins, d);
    forall k | 0 <= k < |filter + join| && !visited[k] ensures !OuterPin((filter + join)[k], outer) {
      if k >= |filter| {
        assert !visited[|filter|..][k - |filter|];
        assert (filter + join)[k] == join[k - |filter|];
      }
    }
    OuterSettled(I, filter, join, visited, pins, outer);
  }

  // ---------- the column phase, on values ----------

  function OuterAndInner(c1: int, c2: int, outer: set<int>, inner: set<int>): Option<(int, int)> {
    if c1 in outer && c2 in inner then Some((c1, c2))
    else if c2 in outer && c1 in inner then Some((c2, c1))
    else None
  }

  /** The outer and the inner column of a join condition that equates the two. */
  function LinkOf(cond: Expr, outer: set<int>, inner: set<int>): Option<(int, int)> {
    var eq := ColumnEquality(cond);
    if eq.Some? then OuterAndInner(eq.value.0, eq.value.1, outer, inner) else None
  }

  function Links(conds: seq<Expr>, outer: set<int>, inner: set<int>): seq<Expr> {
    if conds == [] then []
    else
      var n := |conds| - 1;
      Links(conds[..n], outer, inner) + if LinkOf(conds[n], outer, inner).Some? then [conds[n]] else []
  }

  function NotNullExpr(I: Interp, col: int): Expr {
    NewFunction(I, UnaryNot, [NewFunction(I, IsNull, [Column(col)])])
  }

  predicate NotNullKept(I: Interp, col: int, notNull: set<int>, conds: seq<Expr>) {
    col in notNull || NotNullExpr(I, col) in conds
  }

  lemma LinkForms(e: Expr, outer: set<int>, inner: set<int>)
    ensures LinkOf(e, outer, inner).Some? <==> EquatesSides(e, outer, inner)
    ensures LinkOf(e, outer, inner).Some? ==>
              var (o, i) := LinkOf(e, outer, inner).value; o in outer && i in inner && Equated([e], o, i)
  {
    EqualityForms(e);
    if e.Func? && |e.args| == 2 { assert e.args == [e.args[0], e.args[1]]; }
  }

  lemma {:induction false} LinksMembers(join: seq<Expr>, outer: set<int>, inner: set<int>, e: Expr)
    ensures e in Links(join, outer, inner) <==> e in join && LinkOf(e, outer, inner).Some?
  {
    hide LinkOf;
    if join != [] {
      var n := |join| - 1;
      LinksMembers(join[..n], outer, inner, e);
      assert join == join[..n] + [join[n]];
    }
  }

  lemma LinksEquate(join: seq<Expr>, outer: set<int>, inner: set<int>, a: int, b: int)
    ensures Equated(Links(join, outer, inner), a, b) <==> Equated(join, a, b) && AcrossSides(a, b, outer, inner)
  {
    hide Links;
    var e, f := Func(EQ, [Column(a), Column(b)]), Func(EQ, [Column(b), Column(a)]);
    LinksMembers(join, outer, inner, e);
    LinksMembers(join, outer, inner, f);
    LinkForms(e, outer, inner);
    LinkForms(f, outer, inner);
    hide LinkOf;
  }

  lemma ChainForms(join: seq<Expr>, outer: set<int>, inner: set<int>, chain: seq<int>)
    ensures EqualityChain(Links(join, outer, inner), chain) <==> JoinChain(join, chain, outer, inner)
  {
    hide Links, Equated, AcrossSides;
    forall i | 0 <= i < |chain| - 1
      ensures Equated(Links(join, outer, inner), chain[i], chain[i + 1]) <==>
                Equated(join, chain[i], chain[i + 1]) && AcrossSides(chain[i], chain[i + 1], outer, inner)
    {
      LinksEquate(join, outer, inner, chain[i], chain[i + 1]);
    }
  }

  lemma CarriableForms(I: Interp, join: seq<Expr>, e: Expr, outer: set<int>, inner: set<int>)
    ensures Carriable(I, e, Links(join, outer, inner), outer, inner) <==> Carries(join, e, outer, inner)
  {
    hide Links, EqualityChain, JoinChain, Columns, TryToReplace, Replaceable;
    forall a, b
      ensures Chained(Links(join, outer, inner), a, b) <==> JoinChained(join, a, b, outer, inner)
      ensures TryToReplace(I, a, b, e).replaced <==> Replaceable(e, a)
    {
      ChainedForms(join, a, b, outer, inner);
      ReplacesExactly(I, a, b, e);
    }
    hide Chained, JoinChained;
  }

  lemma ChainedForms(join: seq<Expr>, a: int, b: int, outer: set<int>, inner: set<int>)
    ensures Chained(Links(join, outer, inner), a, b) <==> JoinChained(join, a, b, outer, inner)
  {
    hide Links, Equated, AcrossSides;
    forall chain ensures EqualityChain(Links(join, outer, inner), chain) <==> JoinChain(join, chain, outer, inner) {
      ChainForms(join, outer, inner, chain);
    }
    if Chained(Links(join, outer, inner), a, b) {
      var chain :| EqualityChain(Links(join, outer, inner), chain) && chain[0] == a && chain[|chain| - 1] == b;
      assert JoinChain(join, chain, outer, inner);
    }
    if JoinChained(join, a, b, outer, inner) {
      var chain :| JoinChain(join, chain, outer, inner) && chain[0] == a && chain[|chain| - 1] == b;
      assert EqualityChain(Links(join, outer, inner), chain);
    }
  }

  lemma StatedForms(I: Interp, filter: seq<Expr>, join: seq<Expr>, a: int, b: int, outer: set<int>, inner: set<int>,
                    linked: seq<Expr>)
    requires BothCarried(I, filter, join, a, b, outer, inner, linked)
    ensures StatedOf(filter, join, a, b, outer, inner, linked)
  {
    hide TryToReplace, Replaceable, Renamed, Columns, LinkOf, EquatesSides;
    forall e | (e in filter || (e in join && !EquatesSides(e, outer, inner))) && Columns(e) <= outer + inner
      && Replaceable(e, a)
      ensures Renamed(e, a, b) in linked
    {
      ReplacesExactly(I, a, b, e);
      LinkForms(e, outer, inner);
      if e in filter {
        var k :| 0 <= k < |filter| && filter[k] == e;
      } else {
        var k :| 0 <= k < |join| && join[k] == e;
      }
    }
  }

  lemma NotNullForms(I: Interp, col: int)
    ensures NotNullExpr(I, col) == Func(UnaryNot, [Func(IsNull, [Column(col)])])
  {
    NotNullMeaning(I, col, map[]);
    var isNull := Func(IsNull, [Column(col)]);
    assert Column(col) in [Column(col)] && isNull in [isNull];
  }

  lemma NotNullStated(I: Interp, outer: set<int>, inner: set<int>, notNull: set<int>, join: seq<Expr>,
                      linked: seq<Expr>, o: int, i: int)
    requires outer !! inner && Equated(join, o, i) && o in outer && i in inner
    requires forall k :: 0 <= k < |join| && LinkOf(join[k], outer, inner).Some? ==>
               NotNullKept(I, LinkOf(join[k], outer, inner).value.1, notNull, linked)
    ensures i in notNull || Func(UnaryNot, [Func(IsNull, [Column(i)])]) in linked
  {
    NotNullForms(I, i);
    var e := if Func(EQ, [Column(o), Column(i)]) in join then Func(EQ, [Column(o), Column(i)])
      else Func(EQ, [Column(i), Column(o)]);
    var k :| 0 <= k < |join| && join[k] == e;
    LinkForms(e, outer, inner);
    assert LinkOf(e, outer, inner) == Some((o, i));
  }

  /** What the column phase leaves, said without its own recognition of join equations. */
  lemma JoinForms(I: Interp, outer: set<int>, inner: set<int>, notNull: set<int>, filter: seq<Expr>, join: seq<Expr>,
                  linked: seq<Expr>, carried: seq<Expr>)
    requires outer !! inner && join <= linked && CarriedExactly(I, filter, join, outer, inner, carried)
    requires forall k :: 0 <= k < |join| && LinkOf(join[k], outer, inner).Some? ==>
               NotNullKept(I, LinkOf(join[k], outer, inner).value.1, notNull, linked)
    requires forall chain ::
               EqualityChain(Links(join, outer, inner), chain) && chain[0] in outer && chain[|chain| - 1] in inner ==>
                 BothCarried(I, filter, join, chain[0], chain[|chain| - 1], outer, inner, linked)
    ensures JoinLinked(outer, inner, notNull, filter, join, linked, carried)
  {
    hide Links, Equated, Carriable, Carries, BothCarried, StatedOf, NotNullKept, LinkOf;
    forall o, i | Equated(join, o, i) && o in outer && i in inner
      ensures i in notNull || Func(UnaryNot, [Func(IsNull, [Column(i)])]) in linked
    {
      NotNullStated(I, outer, inner, notNull, join, linked, o, i);
    }
    forall chain | JoinChain(join, chain, outer, inner) && chain[0] in outer && chain[|chain| - 1] in inner
      ensures StatedOf(filter, join, chain[0], chain[|chain| - 1], outer, inner, linked)
    {
      ChainForms(join, outer, inner, chain);
      StatedForms(I, filter, join, chain[0], chain[|chain| - 1], outer, inner, linked);
    }
    forall e ensures e in carried <==> e in filter && Carries(join, e, outer, inner) {
      CarriableForms(I, join, e, outer, inner);
    }
  }

  lemma OuterForms(filter: seq<Expr>, join: seq<Expr>, outer: set<int>)
    requires OuterConstantsPropagated(filter, join, outer)
    ensures OuterPropagated(filter, join, outer)
  {
    hide Columns, IsEquation;
    forall e, f, c, v |
      (e in filter || e in join) && f in join && c in outer && IsEquation(e, c, v) && c in Columns(f)
      ensures IsEquation(f, c, v)
    {
      assert e in filter + join;
      var i :| 0 <= i < |filter + join| && (filter + join)[i] == e;
      var j :| 0 <= j < |join| && join[j] == f;
      EquationForms(e);
      EquationForms(f);
    }
  }

  lemma {:induction false} PickVisits(all: seq<Expr>, k: nat, s: Search, outer: set<int>, l: nat)
    requires k <= |all| && l < |all| && s.Search? && |s.visited| == |all|
    requires s.visited[l] || (k <= l && OuterPin(all[l], outer))
    ensures PickFrom(all, k, s, outer).Search? ==> PickFrom(all, k, s, outer).visited[l]
    decreases |all| - k
  {
    if k < |all| {
      PickUnfold(all, k, s, outer);
      var r := PickStep(all[k], k, s, outer);
      if r.Search? { PickVisits(all, k + 1, r, outer, l); }
    }
  }

  /** The rounds keep the filters, and the equations of outer columns among the join conditions. */
  lemma {:induction false} RoundsKeep(I: Interp, filter: seq<Expr>, join: seq<Expr>, visited: seq<bool>,
                                      pins: map<int, Value>, outer: set<int>, rounds: nat)
    requires |visited| == |filter + join| && NoTrees(join)
    ensures var (filter1, join1) := ConstantRounds(I, filter, join, visited, pins, outer, rounds);
            && (filter1 == filter || filter1 == [FALSE]) && NoTrees(join1)
            && (join1 == [FALSE] ||
                (|join1| == |join| && forall k :: 0 <= k < |join| && OuterPin(join[k], outer) ==> join1[k] == join[k]))
    decreases rounds
  {
    hide PickFrom, OuterPin;
    FalseIsNoTree();
    if rounds > 0 {
      var all := filter + join;
      var found := PickFrom(all, 0, Search(pins, map[], visited), outer);
      if found.Search? && found.mapper != map[] {
        var rest := found.visited[|filter|..];
        var join' := SubstituteRest(I, join, rest, found.mapper);
        forall k | 0 <= k < |join| && OuterPin(join[k], outer) ensures join'[k] == join[k] {
          assert all[|filter| + k] == join[k];
          PickVisits(all, 0, Search(pins, map[], visited), outer, |filter| + k);
          assert rest[k];
        }
        forall k | 0 <= k < |join'| ensures !IsTree(join'[k], LogicAnd) {
          SubstituteKeepsRoot(I, join[k], found.mapper, LogicAnd);
        }
        RoundsKeep(I, filter, join', found.visited, found.pins, outer, rounds - 1);
      }
    }
  }

  lemma SplitItemsAreLeaves(conds: seq<Expr>)
    ensures AllLeaves(conds, SplitAll(conds, LogicAnd)) && NoTrees(SplitAll(conds, LogicAnd))
  {
    hide LeafOf, SplitAll;
    var items := SplitAll(conds, LogicAnd);
    forall leaf ensures leaf in items <==> LeafAmong(conds, leaf) { SplitAllLeaves(conds, LogicAnd, leaf); }
    forall k | 0 <= k < |items| ensures !IsTree(items[k], LogicAnd) {
      assert items[k] in items;
      var e :| e in conds && LeafOf(e, LogicAnd, items[k]);
      LeafIsNoTree(e, LogicAnd, items[k]);
    }
  }

  lemma ConstantPhaseKeeps(I: Interp, filter: seq<Expr>, join: seq<Expr>, outer: set<int>)
    ensures var (filter1, join1) := ConstantPhase(I, filter, join, outer);
            ItemsKept(filter, join, filter1, join1, outer)
  {
    hide ConstantRounds, LeafOf, SplitAll;
    var items, joins := SplitAll(filter, LogicAnd), SplitAll(join, LogicAnd);
    SplitItemsAreLeaves(filter);
    SplitItemsAreLeaves(join);
    FalseIsNoTree();
    RoundsKeep(I, items, joins, Unvisited(|items + joins|), map[], outer, MAX_PROPAGATE_COLS);
    var (filter1, join1) := ConstantPhase(I, filter, join, outer);
    if join1 != [FALSE] {
      forall leaf, c, v | LeafAmong(join, leaf) && IsEquation(leaf, c, v) && c in outer ensures leaf in join1 {
        assert leaf in joins;
        var k :| 0 <= k < |joins| && joins[k] == leaf;
        EquationForms(leaf);
        assert OuterPin(joins[k], outer);
        assert join1[k] == leaf;
      }
    }
  }

  lemma OneArgument(op: Op, a: Expr)
    ensures Columns(Func(op, [a])) == Columns(a) && Depth(Func(op, [a])) == 1 + Depth(a)
  {
    assert a in [a];
    assert forall c :: c in Columns(Func(op, [a])) <==> c in Columns(a);
    assert MaxDepth([a]) == Depth(a) by { assert [a][0] == a; }
  }

  lemma NotNullMeaning(I: Interp, col: int, row: Row)
    ensures Holds(I, NotNullExpr(I, col), row) <==> Lookup(row, col) != Null
    ensures Columns(NotNullExpr(I, col)) == {col} && Depth(NotNullExpr(I, col)) == 2
  {
    var isNull := Func(IsNull, [Column(col)]);
    OneArgument(IsNull, Column(col));
    OneArgument(UnaryNot, isNull);
    assert Column(col) in [Column(col)];
    assert NewFunction(I, IsNull, [Column(col)]) == isNull;
    assert isNull in [isNull];
    assert NotNullExpr(I, col) == Func(UnaryNot, [isNull]);
    assert seq(1, i requires 0 <= i < 1 => Eval(I, [Column(col)][i], row)) == [Lookup(row, col)];
    assert seq(1, i requires 0 <= i < 1 => Eval(I, [isNull][i], row)) == [Eval(I, isNull, row)];
  }

  lemma NotNullFollows(I: Interp, join0: seq<Expr>, join: seq<Expr>, i: nat, outer: set<int>, inner: set<int>,
                       cols: set<int>, d: nat)
    requires join0 <= join && Equivalent(I, join0, join) && i < |join0| && LinkOf(join0[i], outer, inner).Some?
    requires Within(join, cols, d) && LinkOf(join0[i], outer, inner).value.1 in cols && d >= 2
    ensures var e := NotNullExpr(I, LinkOf(join0[i], outer, inner).value.1);
            Equivalent(I, join0, join + [e]) && Within(join + [e], cols, d)
  {
    var col := LinkOf(join0[i], outer, inner).value.1;
    var e := NotNullExpr(I, col);
    NotNullMeaning(I, col, map[]);
    forall row: Row ensures AllHold(I, join0, row) <==> AllHold(I, join + [e], row) {
      AllHoldAppend(I, join, [e], row);
      NotNullMeaning(I, col, row);
      assert AllHold(I, join0, row) <==> AllHold(I, join, row);
      if AllHold(I, join0, row) {
        assert Holds(I, join0[i], row);
        ColumnEqualityHolds(I, join0[i], row);
      }
    }
  }

  lemma NothingLinked(I: Interp, conds: seq<Expr>, columns: seq<int>, index: map<int, nat>)
    ensures SetsSound(I, conds, columns, seq(|columns|, x => x))
    ensures SetsComplete([], 0, index, seq(|columns|, x => x))
  {
  }

  lemma LinkColumnsKnown(join0: seq<Expr>, i: nat, outer: set<int>, inner: set<int>, join: seq<Expr>, cols: set<int>,
                         d: nat)
    requires join0 <= join && i < |join0| && Within(join, cols, d) && LinkOf(join0[i], outer, inner).Some?
    ensures LinkOf(join0[i], outer, inner).value.0 in cols && LinkOf(join0[i], outer, inner).value.1 in cols
  {
    ColumnEqualityColumns(join0[i]);
    assert Columns(join[i]) <= cols;
  }

  lemma LinksOfNone(outer: set<int>, inner: set<int>)
    ensures Links([], outer, inner) == []
  {
  }

  lemma LinksStep(conds: seq<Expr>, i: nat, outer: set<int>, inner: set<int>)
    requires i < |conds|
    ensures LinkOf(conds[i], outer, inner).Some? ==>
        Links(conds[..i + 1], outer, inner) == Links(conds[..i], outer, inner) + [conds[i]]
    ensures LinkOf(conds[i], outer, inner).None? ==>
        Links(conds[..i + 1], outer, inner) == Links(conds[..i], outer, inner)
  {
    assert conds[..i + 1][..i] == conds[..i];
  }

  lemma LinkStep(I: Interp, conds: seq<Expr>, i: nat, columns: seq<int>, index: map<int, nat>, root: seq<nat>,
                 outer: set<int>, inner: set<int>)
    requires i < |conds| && LinkOf(conds[i], outer, inner).Some? && |root| == |columns| &&
             SetsSound(I, conds, columns, root)
    requires var links := Links(conds[..i], outer, inner);
             SetsComplete(links, |links|, index, root) && SetsChained(links, columns, root)
    requires var l := LinkOf(conds[i], outer, inner).value;
             && l.0 in index && index[l.0] < |columns| && columns[index[l.0]] == l.0
             && l.1 in index && index[l.1] < |columns| && columns[index[l.1]] == l.1
    ensures var l := LinkOf(conds[i], outer, inner).value;
            var root' := DisjointSet.Merged(root, index[l.0], index[l.1]);
            var links := Links(conds[..i + 1], outer, inner);
            |root'| == |root| && SetsSound(I, conds, columns, root') && SetsComplete(links, |links|, index, root') &&
            SetsChained(links, columns, root')
  {
    hide SetsSound, SetsComplete, SetsChained;
    MergeKeepsChained(Links(conds[..i], outer, inner), conds[i], columns, root,
                      index[LinkOf(conds[i], outer, inner).value.0], index[LinkOf(conds[i], outer, inner).value.1]);
    var l := LinkOf(conds[i], outer, inner).value;
    MergeKeepsSetsSound(I, conds, columns, root, i, index[l.0], index[l.1]);
    LinkKeepsComplete(Links(conds[..i], outer, inner), conds[i], index, root, outer, inner);
    LinksStep(conds, i, outer, inner);
  }

  lemma LinkKeepsComplete(links: seq<Expr>, e: Expr, index: map<int, nat>, root: seq<nat>, outer: set<int>,
                          inner: set<int>)
    requires SetsComplete(links, |links|, index, root) && LinkOf(e, outer, inner).Some?
    requires var (o, i) := LinkOf(e, outer, inner).value;
             o in index && i in index && index[o] < |root| && index[i] < |root|
    ensures var (o, i) := LinkOf(e, outer, inner).value;
            SetsComplete(links + [e], |links| + 1, index, DisjointSet.Merged(root, index[o], index[i]))
  {
    var (o, i) := LinkOf(e, outer, inner).value;
    var root' := DisjointSet.Merged(root, index[o], index[i]);
    forall k | 0 <= k < |links + [e]| && ColumnEquality((links + [e])[k]).Some?
      ensures SameSet(index, root', ColumnEquality((links + [e])[k]).value.0, ColumnEquality((links + [e])[k]).value.1)
    {
      if k < |links| {
        assert SameSet(index, root, ColumnEquality(links[k]).value.0, ColumnEquality(links[k]).value.1);
      }
    }
  }

  // ---------- carrying conditions over ----------

  ghost predicate EqualUnder(I: Interp, conds: seq<Expr>, a: int, b: int) {
    forall row: Row :: AllHold(I, conds, row) ==> Lookup(row, a) == Lookup(row, b)
  }

  /** 'join' extends 'join1' by derived conditions; they add exactly the carried filters. */
  ghost predicate CarryState(I: Interp, outer: set<int>, filter: seq<Expr>, join1: seq<Expr>, join: seq<Expr>,
                             carried: seq<Expr>) {
    && join1 <= join && JoinRewrite(I, outer, filter, join1, join, carried)
    && (filter == [FALSE] ==> carried == [])
  }

  /** Only equalities across the join and conditions with foreign columns are skipped. */
  ghost predicate Skipped(filter: seq<Expr>, join1: seq<Expr>, visited: seq<bool>, schema: set<int>, outer: set<int>,
                          inner: set<int>) {
    && |visited| >= |join1| + |filter|
    && (forall k ::
          0 <= k < |join1| && visited[k] ==> LinkOf(join1[k], outer, inner).Some? || !(Columns(join1[k]) <= schema))
    && (forall k :: 0 <= k < |filter| && visited[k + |join1|] ==> !(Columns(filter[k]) <= schema))
  }

  /** Every replacement of 'a' by 'b' in the first 'n' conditions is in 'out'. */
  ghost predicate CarryDone(I: Interp, conds: seq<Expr>, n: nat, a: int, b: int, schema: set<int>, outer: set<int>,
                            inner: set<int>, skipLinks: bool, out: seq<Expr>) {
    forall k ::
      0 <= k < |conds| && k < n && Columns(conds[k]) <= schema &&
      (skipLinks ==> LinkOf(conds[k], outer, inner).None?) ==>
      TryToReplace(I, a, b, conds[k]).replaced ==> TryToReplace(I, a, b, conds[k]).expr in out
  }

  ghost predicate BothCarried(I: Interp, filter: seq<Expr>, join: seq<Expr>, a: int, b: int, outer: set<int>,
                              inner: set<int>, out: seq<Expr>) {
    && CarryDone(I, join, |join|, a, b, outer + inner, outer, inner, true, out)
    && CarryDone(I, filter, |filter|, a, b, outer + inner, outer, inner, false, out)
  }

  ghost predicate PairsCarried(I: Interp, filter: seq<Expr>, join: seq<Expr>, columns: seq<int>, root: seq<nat>, i: nat,
                               j: nat, outer: set<int>, inner: set<int>, out: seq<Expr>) {
    forall x, y :: 0 <= x < y < |columns| && |columns| <= |root| && root[x] == root[y] && (x < i || (x == i && y < j))
      ==> PairCarried(I, filter, join, columns[x], columns[y], outer, inner, out)
  }

  ghost predicate PairCarried(I: Interp, filter: seq<Expr>, join: seq<Expr>, c1: int, c2: int, outer: set<int>,
                              inner: set<int>, out: seq<Expr>) {
    var pair := OuterAndInner(c1, c2, outer, inner);
    pair.Some? ==> BothCarried(I, filter, join, pair.value.0, pair.value.1, outer, inner, out)
  }

  /** Beyond 'carried', exactly the given filters that a replacement of 'a' by 'b' applies to. */
  ghost predicate CarriedMore(I: Interp, filter: seq<Expr>, a: int, b: int, schema: set<int>, carried: seq<Expr>,
                              carried': seq<Expr>) {
    forall e ::
      e in carried' <==> e in carried || (e in filter && Columns(e) <= schema && TryToReplace(I, a, b, e).replaced)
  }

  /** A replacement of the pair's outer column by its inner column applies to 'e'. */
  ghost predicate PairCarries(I: Interp, e: Expr, c1: int, c2: int, outer: set<int>, inner: set<int>) {
    var pair := OuterAndInner(c1, c2, outer, inner);
    pair.Some? && Columns(e) <= outer + inner && TryToReplace(I, pair.value.0, pair.value.1, e).replaced
  }

  /** One of the pairs visited before '(i, j)' carries 'e'. */
  ghost predicate SomePairCarries(I: Interp, e: Expr, columns: seq<int>, root: seq<nat>, i: nat, j: nat,
                                  outer: set<int>, inner: set<int>) {
    exists x, y :: 0 <= x < y < |columns| && |columns| <= |root| && root[x] == root[y] && (x < i || (x == i && y < j))
      && PairCarries(I, e, columns[x], columns[y], outer, inner)
  }

  ghost predicate CarriedFrom(I: Interp, filter: seq<Expr>, columns: seq<int>, root: seq<nat>, i: nat, j: nat,
                              outer: set<int>, inner: set<int>, carried: seq<Expr>) {
    forall e :: e in carried <==> e in filter && SomePairCarries(I, e, columns, root, i, j, outer, inner)
  }

  /** Some chain of join equations equates an outer column with an inner one that can replace it in 'e'. */
  ghost predicate Carriable(I: Interp, e: Expr, links: seq<Expr>, outer: set<int>, inner: set<int>) {
    Columns(e) <= outer + inner && exists a, b ::
      a in outer && b in inner && Chained(links, a, b) && TryToReplace(I, a, b, e).replaced
  }

  /** The filters carried over are exactly those that can be. */
  ghost predicate CarriedExactly(I: Interp, filter: seq<Expr>, join: seq<Expr>, outer: set<int>, inner: set<int>,
                                 carried: seq<Expr>) {
    forall e :: e in carried <==> e in filter && Carriable(I, e, Links(join, outer, inner), outer, inner)
  }

  lemma CarriedFromNone(I: Interp, filter: seq<Expr>, columns: seq<int>, root: seq<nat>, outer: set<int>,
                        inner: set<int>)
    ensures CarriedFrom(I, filter, columns, root, 0, 1, outer, inner, [])
  {
    hide PairCarries;
  }

  lemma CarriedByPair(I: Interp, filter: seq<Expr>, a: int, b: int, schema: set<int>, carried0: seq<Expr>,
                      carried1: seq<Expr>, carried: seq<Expr>)
    requires CarriedMore(I, [], a, b, schema, carried0, carried1) &&
             CarriedMore(I, filter, a, b, schema, carried1, carried)
    ensures CarriedMore(I, filter, a, b, schema, carried0, carried)
  {
    hide Columns, TryToReplace;
  }

  lemma CarriedFromStep(I: Interp, filter: seq<Expr>, columns: seq<int>, root: seq<nat>, i: nat, j: nat,
                        outer: set<int>, inner: set<int>, carried: seq<Expr>, carried': seq<Expr>)
    requires |columns| == |root| && i < j < |columns| &&
             CarriedFrom(I, filter, columns, root, i, j, outer, inner, carried)
    requires var pair := OuterAndInner(columns[i], columns[j], outer, inner);
             if root[i] == root[j] && pair.Some?
               then CarriedMore(I, filter, pair.value.0, pair.value.1, outer + inner, carried, carried')
                 else carried' == carried
    ensures CarriedFrom(I, filter, columns, root, i, j + 1, outer, inner, carried')
  {
    hide Columns, TryToReplace, OuterAndInner;
    forall e ensures e in carried' <==> e in filter && SomePairCarries(I, e, columns, root, i, j + 1, outer, inner) {
      SomePairStep(I, e, columns, root, i, j, outer, inner);
    }
  }

  lemma SomePairStep(I: Interp, e: Expr, columns: seq<int>, root: seq<nat>, i: nat, j: nat, outer: set<int>,
                     inner: set<int>)
    requires |columns| == |root| && i < j < |columns|
    ensures SomePairCarries(I, e, columns, root, i, j + 1, outer, inner) <==>
              SomePairCarries(I, e, columns, root, i, j, outer, inner)
              || (root[i] == root[j] && PairCarries(I, e, columns[i], columns[j], outer, inner))
  {
    hide PairCarries;
  }

  lemma CarriedRow(I: Interp, filter: seq<Expr>, columns: seq<int>, root: seq<nat>, i: nat, outer: set<int>,
                   inner: set<int>, carried: seq<Expr>)
    requires CarriedFrom(I, filter, columns, root, i, |columns|, outer, inner, carried)
    ensures CarriedFrom(I, filter, columns, root, i + 1, i + 2, outer, inner, carried)
  {
    hide PairCarries;
    forall e ensures SomePairCarries(I, e, columns, root, i + 1, i + 2, outer, inner) <==>
                       SomePairCarries(I, e, columns, root, i, |columns|, outer, inner) {
    }
  }

  lemma CarriedOverChains(I: Interp, filter: seq<Expr>, join: seq<Expr>, columns: seq<int>, index: map<int, nat>,
                          root: seq<nat>, outer: set<int>, inner: set<int>, carried: seq<Expr>)
    requires outer !! inner && |columns| == |root| && SetsChained(Links(join, outer, inner), columns, root)
    requires var links := Links(join, outer, inner); SetsComplete(links, |links|, index, root)
    requires forall c :: c in index ==> index[c] < |columns| && columns[index[c]] == c
    requires CarriedFrom(I, filter, columns, root, |columns|, |columns| + 1, outer, inner, carried)
    ensures CarriedExactly(I, filter, join, outer, inner, carried)
  {
    hide PairCarries, Links, SetsChained, SetsComplete, Carriable, SomePairCarries;
    forall e ensures SomePairCarries(I, e, columns, root, |columns|, |columns| + 1, outer, inner) <==>
                       Carriable(I, e, Links(join, outer, inner), outer, inner) {
      PairsFollowChains(I, e, Links(join, outer, inner), columns, index, root, outer, inner);
    }
  }

  lemma PairsFollowChains(I: Interp, e: Expr, links: seq<Expr>, columns: seq<int>, index: map<int, nat>, root: seq<nat>,
                          outer: set<int>, inner: set<int>)
    requires outer !! inner && |columns| == |root| && SetsChained(links, columns, root) &&
             SetsComplete(links, |links|, index, root)
    requires forall c :: c in index ==> index[c] < |columns| && columns[index[c]] == c
    ensures SomePairCarries(I, e, columns, root, |columns|, |columns| + 1, outer, inner) <==>
        Carriable(I, e, links, outer, inner)
  {
    hide Columns, TryToReplace, SetsComplete;
    if SomePairCarries(I, e, columns, root, |columns|, |columns| + 1, outer, inner) {
      var x, y :| 0 <= x < y < |columns| && root[x] == root[y] &&
        PairCarries(I, e, columns[x], columns[y], outer, inner);
      assert Chained(links, columns[x], columns[y]) && Chained(links, columns[y], columns[x]);
    }
    if Carriable(I, e, links, outer, inner) {
      var a, b :| a in outer && b in inner && Chained(links, a, b) && TryToReplace(I, a, b, e).replaced;
      var chain :| EqualityChain(links, chain) && chain[0] == a && chain[|chain| - 1] == b;
      ChainInOneSet(links, index, root, chain);
      var x, y := index[a], index[b];
      assert if x < y then PairCarries(I, e, columns[x], columns[y], outer, inner)
          else PairCarries(I, e, columns[y], columns[x], outer, inner);
    }
  }

  lemma CarriedNothing(I: Interp, a: int, b: int, schema: set<int>, carried: seq<Expr>)
    ensures CarriedMore(I, [], a, b, schema, carried, carried)
  {
  }

  lemma CarriedStep(I: Interp, filter: seq<Expr>, k: nat, a: int, b: int, schema: set<int>, carried: seq<Expr>,
                    carried': seq<Expr>)
    requires k < |filter| && CarriedMore(I, filter[..k], a, b, schema, carried, carried')
    ensures Columns(filter[k]) <= schema && TryToReplace(I, a, b, filter[k]).replaced ==>
              CarriedMore(I, filter[..k + 1], a, b, schema, carried, carried' + [filter[k]])
    ensures !(Columns(filter[k]) <= schema && TryToReplace(I, a, b, filter[k]).replaced) ==>
              CarriedMore(I, filter[..k + 1], a, b, schema, carried, carried')
  {
    hide Columns, TryToReplace;
    assert filter[..k + 1] == filter[..k] + [filter[k]];
  }

  lemma CarryPrefix(I: Interp, outer: set<int>, filter: seq<Expr>, join1: seq<Expr>, join: seq<Expr>,
                    carried: seq<Expr>)
    requires CarryState(I, outer, filter, join1, join, carried)
    ensures join1 <= join
  {
  }

  lemma CarryDoneMonotone(I: Interp, conds: seq<Expr>, n: nat, a: int, b: int, schema: set<int>, outer: set<int>,
                          inner: set<int>, skipLinks: bool, out: seq<Expr>, out': seq<Expr>)
    requires CarryDone(I, conds, n, a, b, schema, outer, inner, skipLinks, out) && out <= out'
    ensures CarryDone(I, conds, n, a, b, schema, outer, inner, skipLinks, out')
  {
    hide TryToReplace, Columns;
  }

  lemma CarryStep(I: Interp, outer: set<int>, filter: seq<Expr>, join1: seq<Expr>, join: seq<Expr>, carried: seq<Expr>,
                  filters: bool, k: nat, a: int, b: int, cols: set<int>, d: nat)
    requires CarryState(I, outer, filter, join1, join, carried) && EqualUnder(I, join1, a, b)
    requires k < |if filters then filter else join1|
    requires TryToReplace(I, a, b, (if filters then filter else join1)[k]).replaced
    requires Within(join, cols, d) && Within(filter, cols, d) && b in cols
    ensures var cond := (if filters then filter else join1)[k];
            var e := TryToReplace(I, a, b, cond).expr;
            && CarryState(I, outer, filter, join1, join + [e], if filters then carried + [cond] else carried)
            && Within(join + [e], cols, d)
  {
    hide TryToReplace, Columns, Depth, Holds, OuterFiltersHold;
    var cond := (if filters then filter else join1)[k];
    var e := TryToReplace(I, a, b, cond).expr;
    var carried' := if filters then carried + [cond] else carried;
    TryToReplaceShape(I, a, b, cond);
    ReplacedIsFunction(I, a, b, cond);
    assert !filters ==> join1[k] == join[k];
    forall row: Row | OuterFiltersHold(I, filter, outer, row)
      ensures AllHold(I, join + [e], row) <==> AllHold(I, join1, row) && AllHold(I, carried', row)
    {
      assert AllHold(I, join, row) <==> AllHold(I, join1, row) && AllHold(I, carried, row);
      CarryRow(I, join1, join, carried, filters, cond, e, a, b, row);
    }
  }

  lemma ReplacedIsFunction(I: Interp, a: int, b: int, e: Expr)
    ensures TryToReplace(I, a, b, e).replaced ==> e.Func?
  {
  }

  lemma CarryRow(I: Interp, join1: seq<Expr>, join: seq<Expr>, carried: seq<Expr>, filters: bool, cond: Expr, e: Expr,
                 a: int, b: int, row: Row)
    requires AllHold(I, join, row) <==> AllHold(I, join1, row) && AllHold(I, carried, row)
    requires EqualUnder(I, join1, a, b) && e == TryToReplace(I, a, b, cond).expr && (!filters ==> cond in join1)
    ensures AllHold(I, join + [e], row) <==>
        AllHold(I, join1, row) && AllHold(I, if filters then carried + [cond] else carried, row)
  {
    hide TryToReplace, Eval;
    AllHoldAppend(I, join, [e], row);
    AllHoldAppend(I, carried, [cond], row);
    assert AllHold(I, [e], row) <==> Holds(I, [e][0], row);
    assert AllHold(I, [cond], row) <==> Holds(I, [cond][0], row);
    if AllHold(I, join1, row) { TryToReplaceSound(I, a, b, cond, row); }
  }

  lemma CarryNothing(I: Interp, outer: set<int>, filter: seq<Expr>, join0: seq<Expr>, join1: seq<Expr>,
                     visited: seq<bool>, schema: set<int>, inner: set<int>)
    requires join0 <= join1 && |join1| <= 2 * |join0| && |visited| == 2 * |join0| + |filter|
    requires forall k :: 0 <= k < |visited| ==> (visited[k] <==> k < |join0| && LinkOf(join1[k], outer, inner).Some?)
    ensures CarryState(I, outer, filter, join1, join1, []) && Skipped(filter, join1, visited, schema, outer, inner)
  {
  }

  lemma EqualInSet(I: Interp, join0: seq<Expr>, join1: seq<Expr>, columns: seq<int>, root: seq<nat>, i: nat, j: nat)
    requires SetsSound(I, join0, columns, root) && join0 <= join1 && i < |root| && j < |root| && root[i] == root[j]
    ensures EqualUnder(I, join1, columns[i], columns[j]) && EqualUnder(I, join1, columns[j], columns[i])
  {
    forall row: Row | AllHold(I, join1, row) ensures Lookup(row, columns[i]) == Lookup(row, columns[j]) {
      assert forall k :: 0 <= k < |join0| ==> join0[k] == join1[k];
      assert AllHold(I, join0, row);
    }
  }

  lemma PairsStep(I: Interp, filter: seq<Expr>, join: seq<Expr>, columns: seq<int>, root: seq<nat>, i: nat, j: nat,
                  outer: set<int>, inner: set<int>, out: seq<Expr>, out': seq<Expr>)
    requires |columns| == |root| && i < j < |columns| && out <= out'
    requires PairsCarried(I, filter, join, columns, root, i, j, outer, inner, out)
    requires root[i] == root[j] ==> PairCarried(I, filter, join, columns[i], columns[j], outer, inner, out')
    ensures PairsCarried(I, filter, join, columns, root, i, j + 1, outer, inner, out')
  {
    hide CarryDone;
    forall x, y | 0 <= x < y < |columns| && root[x] == root[y] && (x < i || (x == i && y < j + 1))
      ensures PairCarried(I, filter, join, columns[x], columns[y], outer, inner, out')
    {
      if (x, y) != (i, j) {
        var pair := OuterAndInner(columns[x], columns[y], outer, inner);
        assert PairCarried(I, filter, join, columns[x], columns[y], outer, inner, out);
        if pair.Some? {
          CarryDoneMonotone(I, join, |join|, pair.value.0, pair.value.1, outer + inner, outer, inner, true, out, out');
          CarryDoneMonotone(I, filter, |filter|, pair.value.0, pair.value.1, outer + inner, outer, inner, false, out,
                            out');
        }
      }
    }
  }

  lemma RowFinished(I: Interp, filter: seq<Expr>, join: seq<Expr>, columns: seq<int>, root: seq<nat>, i: nat,
                    outer: set<int>, inner: set<int>, out: seq<Expr>)
    requires PairsCarried(I, filter, join, columns, root, i, |columns|, outer, inner, out)
    ensures PairsCarried(I, filter, join, columns, root, i + 1, i + 2, outer, inner, out)
  {
    hide PairCarried;
  }

  lemma ChainCarried(I: Interp, filter: seq<Expr>, join0: seq<Expr>, join1: seq<Expr>, columns: seq<int>,
                     root: seq<nat>, x: nat, y: nat, outer: set<int>, inner: set<int>, out: seq<Expr>)
    requires |columns| == |root| && x < |columns| && y < |columns| && root[x] == root[y] && outer !! inner
    requires columns[x] in outer && columns[y] in inner && join0 <= join1
    requires PairsCarried(I, filter, join1, columns, root, |columns|, |columns| + 1, outer, inner, out)
    ensures BothCarried(I, filter, join0, columns[x], columns[y], outer, inner, out)
  {
    hide TryToReplace, Columns;
    var a, b := if x < y then x else y, if x < y then y else x;
    assert PairCarried(I, filter, join1, columns[a], columns[b], outer, inner, out);
    assert BothCarried(I, filter, join1, columns[x], columns[y], outer, inner, out);
    assert forall k :: 0 <= k < |join0| ==> join0[k] == join1[k];
  }

  lemma CarryFromStart(I: Interp, outer: set<int>, filter: seq<Expr>, join0: seq<Expr>, join1: seq<Expr>,
                       join: seq<Expr>, carried: seq<Expr>)
    requires join0 <= join1 && Equivalent(I, join0, join1) && CarryState(I, outer, filter, join1, join, carried)
    ensures CarryState(I, outer, filter, join0, join, carried)
  {
    forall row: Row | OuterFiltersHold(I, filter, outer, row)
      ensures AllHold(I, join, row) <==> AllHold(I, join0, row) && AllHold(I, carried, row)
    {
      assert AllHold(I, join0, row) <==> AllHold(I, join1, row);
    }
  }

  lemma ExtractedColumns(conds: seq<Expr>)
    ensures (set c | c in ExtractAll(conds)) == ColumnsOf(conds)
  {
    hide ColumnsOf;
  }

  lemma KeyCount(index: map<int, nat>)
    ensures |index| == |index.Keys|
  {
  }

  lemma FuncColumns(args: seq<Expr>)
    ensures Columns(Func(LogicAnd, args)) == ColumnsOf(args)
  {
    forall c | c in Columns(Func(LogicAnd, args)) ensures c in ColumnsOf(args) {
      var a :| a in args && c in Columns(a);
    }
    forall c | c in ColumnsOf(args) ensures c in Columns(Func(LogicAnd, args)) {
      var a :| a in args && c in Columns(a);
      assert a in Func(LogicAnd, args).args;
    }
  }

  lemma SplitAllWithin(join: seq<Expr>, filter: seq<Expr>, cols: set<int>)
    requires ColumnsOf(join) + ColumnsOf(filter) <= cols
    ensures Within(SplitAll(join, LogicAnd), cols, 2 + MaxDepth(join + filter))
    ensures Within(SplitAll(filter, LogicAnd), cols, 2 + MaxDepth(join + filter))
  {
    SplitAllShape(join, LogicAnd);
    SplitAllShape(filter, LogicAnd);
    FuncColumns(join);
    FuncColumns(filter);
    assert forall k :: 0 <= k < |join| ==> (join + filter)[k] == join[k];
    assert forall k :: 0 <= k < |filter| ==> (join + filter)[|join| + k] == filter[k];
    assert MaxDepth(join) <= MaxDepth(join + filter) && MaxDepth(filter) <= MaxDepth(join + filter);
  }

  lemma SplitAllEquivalent(I: Interp, conds: seq<Expr>)
    ensures Equivalent(I, conds, SplitAll(conds, LogicAnd))
  {
    forall row: Row ensures AllHold(I, conds, row) <==> AllHold(I, SplitAll(conds, LogicAnd), row) {
      SplitAllAndHolds(I, conds, row);
    }
  }

  lemma NoRewrite(I: Interp, outer: set<int>, items: seq<Expr>, join: seq<Expr>, filter: seq<Expr>)
    ensures JoinRewrite(I, outer, items, join, join, []) && Equivalent(I, filter, filter)
  {
  }

  lemma PhasesCompose(I: Interp, outer: set<int>, join: seq<Expr>, filter: seq<Expr>, filter0: seq<Expr>,
                      filter1: seq<Expr>, filter': seq<Expr>, join0: seq<Expr>, join1: seq<Expr>, join2: seq<Expr>,
                      join': seq<Expr>, carried: seq<Expr>)
    requires Equivalent(I, join, join0) && Equivalent(I, filter, filter0)
    requires Rewritten(I, filter0, join0, filter1, join1, outer) && CarryState(I, outer, filter1, join1, join2, carried)
    requires Equivalent(I, join2, join') && Equivalent(I, filter1, filter')
    ensures Equivalent(I, filter, filter') && JoinRewrite(I, outer, filter0, join, join', carried)
  {
    hide Eval;
    forall row: Row ensures AllHold(I, filter, row) <==> AllHold(I, filter', row) {
      assert AllHold(I, filter, row) <==> AllHold(I, filter0, row);
      assert AllHold(I, filter1, row) <==> AllHold(I, filter', row);
      if filter1 != filter0 { assert AllHold(I, filter0, row) <==> AllHold(I, [FALSE], row); }
    }
    forall row: Row | OuterFiltersHold(I, filter0, outer, row)
      ensures AllHold(I, join', row) <==> AllHold(I, join, row) && AllHold(I, carried, row)
    {
      assert filter1 == filter0;
      assert AllHold(I, join2, row) <==> AllHold(I, join', row);
      assert AllHold(I, join, row) <==> AllHold(I, join0, row);
      assert AllHold(I, join1, row) <==> AllHold(I, join0, row) && AllHold(I, [], row);
    }
  }

  lemma PhasesCarry(I: Interp, outer: set<int>, inner: set<int>, notNull: set<int>, join: seq<Expr>, filter: seq<Expr>,
                    join2: seq<Expr>, join': seq<Expr>, filter': seq<Expr>, carried: seq<Expr>)
    requires OuterPhases(I, outer, inner, notNull, join, filter, join2, join', filter', carried)
    requires |ColumnsOf(join) + ColumnsOf(filter)| <= 100
    ensures (set e | e in carried) == CarriedFilters(I, filter, join, outer, inner)
  {
    hide ConstantPhase, Rewritten, ItemsKept, OuterPropagated, OrItemsSolved, Carries, JoinChain, Equated, StatedOf;
    var (filter1, join1) := ConstantPhase(I, filter, join, outer);
    assert JoinLinked(outer, inner, notNull, filter1, join1, join2, carried);
  }

  lemma CarriedMeans(I: Interp, outer: set<int>, inner: set<int>, join: seq<Expr>, filter: seq<Expr>,
                     carried: seq<Expr>)
    requires (set e | e in carried) == CarriedFilters(I, filter, join, outer, inner)
    ensures NullExtensionSafe(I, outer, inner, join, filter, carried) <==>
        !CarriesTooMuch(I, filter, join, outer, inner)
  {
    hide CarriedFilters, Holds, RowOf;
    assert forall e :: e in carried <==> e in CarriedFilters(I, filter, join, outer, inner);
    if CarriesTooMuch(I, filter, join, outer, inner) {
      var o: Row, i: Row, e :| RowOf(o, outer) && RowOf(i, inner) && AllHold(I, join, o + i) &&
        AllHold(I, filter, o + NullRow(inner))
        && e in CarriedFilters(I, filter, join, outer, inner) && !Holds(I, e, o + i);
      var k :| 0 <= k < |carried| && carried[k] == e;
      assert !AllHold(I, carried, o + i);
    } else {
      forall o: Row, i: Row | RowOf(o, outer) && RowOf(i, inner) && AllHold(I, join, o + i) &&
        AllHold(I, filter, o + NullRow(inner))
        ensures AllHold(I, carried, o + i)
      {
        forall k | 0 <= k < |carried| ensures Holds(I, carried[k], o + i) {
          assert carried[k] in carried;
        }
      }
    }
  }

  /** Propagates constants over a left outer join. The rewritten query returns the same rows
      over all relations exactly when no filter that the inputs let it carry fails on a match
      of an outer row that passes the filters extended by NULLs. Filters on outer columns
      never do. */
  method PropConstOverOuterJoin(I: Interp, join: seq<Expr>, filter: seq<Expr>, outer: set<int>, inner: set<int>,
                                notNull: set<int>)
    returns (join': seq<Expr>, filter': seq<Expr>, ghost carried: seq<Expr>)
    requires outer !! inner
    ensures Equivalent(I, filter, filter')
    ensures JoinRewrite(I, outer, SplitAll(filter, LogicAnd), join, join', carried)
    ensures (set e | e in carried) == CarriedFilters(I, filter, join, outer, inner)
    ensures SameQuery(I, outer, inner, join, filter, join', filter') <==> !CarriesTooMuch(I, filter, join, outer, inner)
    ensures (forall e :: e in CarriedFilters(I, filter, join, outer, inner) ==> Columns(e) <= outer)
            ==> SameQuery(I, outer, inner, join, filter, join', filter')
    ensures |ColumnsOf(join) + ColumnsOf(filter)| <= 100 ==>
              exists join2 :: OuterPhases(I, outer, inner, notNull, join, filter, join2, join', filter', carried)
  {
    hide OuterPhases, CarriedFilters, CarriesTooMuch, ColumnsOf, SplitAll, Columns, JoinRewrite;
    var solver := new OuterJoinSolver(I, outer, inner, notNull);
    join', filter', carried := solver.Solve(join, filter);
    if |ColumnsOf(join) + ColumnsOf(filter)| <= 100 {
      ghost var join2 :| OuterPhases(I, outer, inner, notNull, join, filter, join2, join', filter', carried);
      PhasesCarry(I, outer, inner, notNull, join, filter, join2, join', filter', carried);
    } else {
      NothingCarried(I, outer, inner, join, filter);
    }
    ghost var items := SplitAll(filter, LogicAnd);
    SplitAllEquivalent(I, filter);
    RewriteKeepsQueryExactly(I, outer, inner, filter, items, filter', join, join', carried);
    CarriedMeans(I, outer, inner, join, filter, carried);
    if forall e :: e in CarriedFilters(I, filter, join, outer, inner) ==> Columns(e) <= outer {
      OuterItemsSafe(I, outer, inner, join, filter, items, join', carried);
    }
  }

  lemma NothingCarried(I: Interp, outer: set<int>, inner: set<int>, join: seq<Expr>, filter: seq<Expr>)
    requires |ColumnsOf(join) + ColumnsOf(filter)| > 100
    ensures CarriedFilters(I, filter, join, outer, inner) == {}
  {
    hide ConstantPhase;
  }

  lemma OuterItemsSafe(I: Interp, outer: set<int>, inner: set<int>, join: seq<Expr>, filter: seq<Expr>,
                       items: seq<Expr>, join': seq<Expr>, carried: seq<Expr>)
    requires outer !! inner && Equivalent(I, filter, items) && JoinRewrite(I, outer, items, join, join', carried)
    requires forall e :: e in carried ==> Columns(e) <= outer
    ensures NullExtensionSafe(I, outer, inner, join, filter, carried)
  {
    OuterFiltersSafe(I, outer, inner, join, items, carried);
  }

  function AcceptsNull(name: string, vals: seq<Value>): Value {
    if |vals| == 2 && vals[1].Null? then Int(1) else Int(0)
  }

  const MIXED := Func(Builtin("f"), [Column(1), Column(2)])
  const LINK := Func(EQ, [Column(1), Column(2)])

  /** A filter over both sides that accepts a NULL inner column is carried over, and the
      rewriting then returns a row that the query does not. */
  method MixedFilterAddsRow() returns (join': seq<Expr>, filter': seq<Expr>)
    ensures !SameQuery(AcceptsNull, {1}, {2}, [LINK], [MIXED], join', filter')
    ensures Query(AcceptsNull, [map[1 := Int(5)]], [map[2 := Int(5)]], [LINK], [MIXED], {2}) == []
    ensures Query(AcceptsNull, [map[1 := Int(5)]], [map[2 := Int(5)]], join', filter', {2})
            == [map[1 := Int(5), 2 := Null]]
  {
    hide Eval, CarriedFilters, CarriesTooMuch, SameQuery, Query, LeftOuterJoin, Where, OuterPhases, JoinRewrite,
      SplitAll, ColumnsOf;
    ghost var carried;
    join', filter', carried := PropConstOverOuterJoin(AcceptsNull, [LINK], [MIXED], {1}, {2}, {});
    MixedFilterCarried();
    MixedFilterSplit();
    assert MIXED in (set e | e in carried);
    MixedFilterRow(join', filter', carried);
  }

  lemma MixedFilterSplit()
    ensures SplitAll([MIXED], LogicAnd) == [MIXED] && SplitAll([LINK], LogicAnd) == [LINK]
  {
    assert SplitItems(MIXED, LogicAnd) == [MIXED] && SplitItems(LINK, LogicAnd) == [LINK];
    assert [MIXED][1..] == [] && [LINK][1..] == [];
  }

  lemma MixedFilterCarried()
    ensures CarriedFilters(AcceptsNull, [MIXED], [LINK], {1}, {2}) == {MIXED}
  {
    hide Eval, Columns, ColumnsOf, ConstantPhase, Carries;
    MixedFilterColumns();
    MixedFilterUnchanged();
    MixedFilterCarries();
  }

  lemma MixedFilterUnchanged()
    ensures ConstantPhase(AcceptsNull, [MIXED], [LINK], {1}) == ([MIXED], [LINK])
  {
    hide ConstantRounds;
    MixedFilterSplit();
    assert NothingToPick(MIXED, {1}) && NothingToPick(LINK, {1});
    hide NothingToPick, SplitAll;
    NothingSubstituted(AcceptsNull, [MIXED], [LINK], {1}, MAX_PROPAGATE_COLS);
  }

  lemma MixedFilterCarries()
    ensures Carries([LINK], MIXED, {1}, {2})
  {
    MixedFilterFacts();
    MixedFilterColumns();
    ReplacesExactly(AcceptsNull, 1, 2, MIXED);
    hide Eval, Columns, TryToReplace, Replaceable;
    assert LINK in [LINK] && JoinChain([LINK], [1, 2], {1}, {2});
    assert JoinChained([LINK], 1, 2, {1}, {2});
  }

  lemma MixedFilterColumns()
    ensures Columns(MIXED) == {1, 2} && |ColumnsOf([LINK]) + ColumnsOf([MIXED])| == 2
  {
    ColumnsOfPair(EQ);
    ColumnsOfPair(Builtin("f"));
    assert ColumnsOf([LINK]) + ColumnsOf([MIXED]) == {1, 2};
  }

  lemma ColumnsOfPair(op: Op)
    ensures Columns(Func(op, [Column(1), Column(2)])) == {1, 2} == ColumnsOf([Func(op, [Column(1), Column(2)])])
  {
    var e := Func(op, [Column(1), Column(2)]);
    assert e.args[0] == Column(1) && e.args[1] == Column(2);
    assert Columns(e.args[0]) == {1} && Columns(e.args[1]) == {2};
    assert e in [e];
    assert forall c :: c in ColumnsOf([e]) <==> c in Columns(e);
  }

  lemma MixedFilterRow(join': seq<Expr>, filter': seq<Expr>, carried: seq<Expr>)
    requires JoinRewrite(AcceptsNull, {1}, [MIXED], [LINK], join', carried) && MIXED in carried
    requires Equivalent(AcceptsNull, [MIXED], filter')
    ensures Query(AcceptsNull, [map[1 := Int(5)]], [map[2 := Int(5)]], [LINK], [MIXED], {2}) == []
    ensures Query(AcceptsNull, [map[1 := Int(5)]], [map[2 := Int(5)]], join', filter', {2})
            == [map[1 := Int(5), 2 := Null]]
    ensures !SameQuery(AcceptsNull, {1}, {2}, [LINK], [MIXED], join', filter')
  {
    var o: Row, i: Row := map[1 := Int(5)], map[2 := Int(5)];
    MixedFilterFacts();
    hide Eval;
    var k :| 0 <= k < |carried| && carried[k] == MIXED;
    assert !Holds(AcceptsNull, [MIXED][0], o + i);
    ExtraRow(AcceptsNull, {1}, {2}, o, i, [MIXED], [LINK], join', carried);
    WhereEquivalent(AcceptsNull, LeftOuterJoin(AcceptsNull, [o], [i], join', {2}), [MIXED], filter');
    assert o + NullRow({2}) == map[1 := Int(5), 2 := Null];
    assert RowsOf([o], {1}) && RowsOf([i], {2});
  }

  lemma MixedFilterFacts()
    ensures var f, eq := Func(Builtin("f"), [Column(1), Column(2)]), Func(EQ, [Column(1), Column(2)]);
            var o: Row, i: Row := map[1 := Int(5)], map[2 := Int(5)];
            && TryToReplace(AcceptsNull, 1, 2, f).replaced && AllHold(AcceptsNull, [eq], o + i)
            && AllHold(AcceptsNull, [f], o + NullRow({2})) && !AllHold(AcceptsNull, [f], o + i)
  {
    var f := Func(Builtin("f"), [Column(1), Column(2)]);
    var o: Row, i: Row := map[1 := Int(5)], map[2 := Int(5)];
    TwoArguments(AcceptsNull, Builtin("f"), o + i);
    TwoArguments(AcceptsNull, Builtin("f"), o + NullRow({2}));
    TwoArguments(AcceptsNull, EQ, o + i);
    assert !Holds(AcceptsNull, [f][0], o + i);
    assert f.args[0] == Column(1);
    assert !TryToReplace(AcceptsNull, 1, 2, f.args[1]).nonDeterministic;
  }

  lemma TwoArguments(I: Interp, op: Op, row: Row)
    ensures Eval(I, Func(op, [Column(1), Column(2)]), row) == Apply(I, op, [Lookup(row, 1), Lookup(row, 2)])
  {
    var args := [Column(1), Column(2)];
    assert seq(2, i requires 0 <= i < 2 => Eval(I, args[i], row)) == [Lookup(row, 1), Lookup(row, 2)];
  }
}
