/** The merge join executor: it joins two children that are sorted by the join key,
    stops whenever the output chunk is full, and resumes in the middle of a group of
    inner rows. Its specification is the nested-loop join. */
module MergeJoin {
  import opened ChunkRows
  import opened Expressions
  import opened Wrappers
  import opened MergeJoinInner

  datatype JoinType = LeftOuterJoin | RightOuterJoin | InnerJoin

  datatype Cell = FromRow(row: KeyedRow) | Defaults

  datatype OutRow = OutRow(left: Cell, right: Cell)

  /** How rows are joined. The filter on outer rows and the other join conditions are
      functions of the rows; no condition at all is None. */
  datatype Joiner = Joiner(kind: JoinType, outerIsRight: bool, outerFilter: KeyedRow -> bool,
                           conditions: Option<OutRow -> bool>)
  {
    function Joined(o: KeyedRow, i: KeyedRow): OutRow {
      if kind.LeftOuterJoin? || (kind.InnerJoin? && !outerIsRight) then OutRow(FromRow(o), FromRow(i))
      else OutRow(FromRow(i), FromRow(o))
    }

    function OnMissMatch(o: KeyedRow): seq<OutRow> {
      match kind
      case LeftOuterJoin => [OutRow(FromRow(o), Defaults)]
      case RightOuterJoin => [OutRow(Defaults, FromRow(o))]
      case InnerJoin => []
    }

    predicate Passes(r: OutRow) {
      conditions.None? || conditions.value(r)
    }

    /** The joined rows of 'o' and each of 'inners' that pass the conditions. */
    function Pairs(o: KeyedRow, inners: seq<KeyedRow>): seq<OutRow> {
      if inners == [] then []
      else (if Passes(Joined(o, inners[0])) then [Joined(o, inners[0])] else []) + Pairs(o, inners[1..])
    }

    // ---------- the nested-loop join ----------

    function Matches(o: KeyedRow, inners: seq<KeyedRow>): seq<OutRow> {
      if inners == [] then []
      else (if !HasNull(inners[0].key) && o.key == inners[0].key && Passes(Joined(o, inners[0]))
              then [Joined(o, inners[0])] else [])
           + Matches(o, inners[1..])
    }

    function Output(o: KeyedRow, inners: seq<KeyedRow>): seq<OutRow> {
      if outerFilter(o) && Matches(o, inners) != [] then Matches(o, inners) else OnMissMatch(o)
    }

    function NestedLoop(outers: seq<KeyedRow>, inners: seq<KeyedRow>): seq<OutRow> {
      if outers == [] then [] else Output(outers[0], inners) + NestedLoop(outers[1..], inners)
    }
  }

  // ---------- what each kind of join returns ----------

  /** The two rows have the same key, without NULL, and their joined row meets the conditions. */
  ghost predicate Meet(o: KeyedRow, i: KeyedRow, conditions: Option<OutRow -> bool>, r: OutRow) {
    o.key == i.key && Null !in o.key && (conditions.Some? ==> conditions.value(r))
  }

  ghost predicate IsInnerJoin(j: Joiner, outers: seq<KeyedRow>, inners: seq<KeyedRow>, out: seq<OutRow>) {
    forall r :: r in out <==>
      exists o, i :: o in outers && i in inners && j.outerFilter(o) && Meet(o, i, j.conditions, r)
        && r == if j.outerIsRight then OutRow(FromRow(i), FromRow(o)) else OutRow(FromRow(o), FromRow(i))
  }

  /** Every outer row is on the left, beside each inner row it meets or else beside defaults. */
  ghost predicate IsLeftOuterJoin(j: Joiner, outers: seq<KeyedRow>, inners: seq<KeyedRow>, out: seq<OutRow>) {
    forall r :: r in out <==>
      && r.left.FromRow? && r.left.row in outers
      && var o := r.left.row;
         match r.right
         case FromRow(i) => i in inners && j.outerFilter(o) && Meet(o, i, j.conditions, r)
         case Defaults =>
           j.outerFilter(o) ==> forall i :: i in inners ==> !Meet(o, i, j.conditions, OutRow(FromRow(o), FromRow(i)))
  }

  ghost predicate IsRightOuterJoin(j: Joiner, outers: seq<KeyedRow>, inners: seq<KeyedRow>, out: seq<OutRow>) {
    forall r :: r in out <==>
      && r.right.FromRow? && r.right.row in outers
      && var o := r.right.row;
         match r.left
         case FromRow(i) => i in inners && j.outerFilter(o) && Meet(o, i, j.conditions, r)
         case Defaults =>
           j.outerFilter(o) ==> forall i :: i in inners ==> !Meet(o, i, j.conditions, OutRow(FromRow(i), FromRow(o)))
  }

  ghost predicate IsJoin(j: Joiner, outers: seq<KeyedRow>, inners: seq<KeyedRow>, out: seq<OutRow>) {
    match j.kind
    case InnerJoin => IsInnerJoin(j, outers, inners, out)
    case LeftOuterJoin => IsLeftOuterJoin(j, outers, inners, out)
    case RightOuterJoin => IsRightOuterJoin(j, outers, inners, out)
  }

  lemma {:induction false} MatchesMembers(j: Joiner, o: KeyedRow, inners: seq<KeyedRow>, r: OutRow)
    ensures r in j.Matches(o, inners) <==>
              exists i :: i in inners && Meet(o, i, j.conditions, r) && r == j.Joined(o, i)
  {
    hide Joiner.Joined;
    if inners != [] {
      MatchesMembers(j, o, inners[1..], r);
      assert forall i :: i in inners <==> i == inners[0] || i in inners[1..];
    }
  }

  lemma {:induction false} NestedLoopMembers(j: Joiner, outers: seq<KeyedRow>, inners: seq<KeyedRow>, r: OutRow)
    ensures r in j.NestedLoop(outers, inners) <==> exists o :: o in outers && r in j.Output(o, inners)
  {
    hide Joiner.Output;
    if outers != [] {
      NestedLoopMembers(j, outers[1..], inners, r);
      assert forall o :: o in outers <==> o == outers[0] || o in outers[1..];
    }
  }

  /** The nested loop is the join of its kind. */
  lemma NestedLoopIsJoin(j: Joiner, outers: seq<KeyedRow>, inners: seq<KeyedRow>)
    ensures IsJoin(j, outers, inners, j.NestedLoop(outers, inners))
  {
    hide Joiner.NestedLoop, Joiner.Matches, Meet;
    var out := j.NestedLoop(outers, inners);
    forall r ensures r in out <==> exists o :: o in outers && OutputsOf(j, o, inners, r) {
      NestedLoopMembers(j, outers, inners, r);
      forall o ensures r in j.Output(o, inners) <==> OutputsOf(j, o, inners, r) { OutputMembers(j, o, inners, r); }
    }
  }

  /** What one outer row contributes. */
  ghost predicate OutputsOf(j: Joiner, o: KeyedRow, inners: seq<KeyedRow>, r: OutRow) {
    || (j.outerFilter(o) && exists i :: i in inners && Meet(o, i, j.conditions, r) && r == j.Joined(o, i))
    || (r in j.OnMissMatch(o) &&
        (j.outerFilter(o) ==> forall i :: i in inners ==> !Meet(o, i, j.conditions, j.Joined(o, i))))
  }

  lemma OutputMembers(j: Joiner, o: KeyedRow, inners: seq<KeyedRow>, r: OutRow)
    ensures r in j.Output(o, inners) <==> OutputsOf(j, o, inners, r)
  {
    hide Joiner.Matches, Meet, Joiner.Joined, Joiner.OnMissMatch;
    forall q ensures q in j.Matches(o, inners) <==>
                       exists i :: i in inners && Meet(o, i, j.conditions, q) && q == j.Joined(o, i) {
      MatchesMembers(j, o, inners, q);
    }
    forall i | i in inners && Meet(o, i, j.conditions, j.Joined(o, i)) ensures j.Joined(o, i) in j.Matches(o, inners) {
      MatchesMembers(j, o, inners, j.Joined(o, i));
    }
    if j.Matches(o, inners) != [] {
      var q := j.Matches(o, inners)[0];
      assert q in j.Matches(o, inners);
    }
  }

  lemma {:induction false} MatchesSkipNulls(j: Joiner, o: KeyedRow, inners: seq<KeyedRow>)
    ensures j.Matches(o, inners) == j.Matches(o, WithoutNulls(inners))
  {
    if inners != [] {
      MatchesSkipNulls(j, o, inners[1..]);
      if !HasNull(inners[0].key) {
        assert WithoutNulls(inners)[1..] == WithoutNulls(inners[1..]);
      } else {
        assert WithoutNulls(inners) == WithoutNulls(inners[1..]);
      }
    }
  }

  lemma {:induction false} NestedLoopSkipsNulls(j: Joiner, outers: seq<KeyedRow>, inners: seq<KeyedRow>)
    ensures j.NestedLoop(outers, inners) == j.NestedLoop(outers, WithoutNulls(inners))
  {
    if outers != [] {
      MatchesSkipNulls(j, outers[0], inners);
      NestedLoopSkipsNulls(j, outers[1..], inners);
    }
  }

  lemma {:induction false} MatchesAppend(j: Joiner, o: KeyedRow, a: seq<KeyedRow>, b: seq<KeyedRow>)
    ensures j.Matches(o, a + b) == j.Matches(o, a) + j.Matches(o, b)
  {
    if a == [] {
      assert a + b == b;
    } else {
      assert (a + b)[0] == a[0] && (a + b)[1..] == a[1..] + b;
      MatchesAppend(j, o, a[1..], b);
    }
  }

  lemma {:induction false} PairsAppend(j: Joiner, o: KeyedRow, a: seq<KeyedRow>, b: seq<KeyedRow>)
    ensures j.Pairs(o, a + b) == j.Pairs(o, a) + j.Pairs(o, b)
  {
    if a == [] {
      assert a + b == b;
    } else {
      assert (a + b)[0] == a[0] && (a + b)[1..] == a[1..] + b;
      PairsAppend(j, o, a[1..], b);
    }
  }

  lemma {:induction false} NoMatches(j: Joiner, o: KeyedRow, inners: seq<KeyedRow>)
    requires forall k :: 0 <= k < |inners| ==> inners[k].key != o.key
    ensures j.Matches(o, inners) == []
  {
    if inners != [] { NoMatches(j, o, inners[1..]); }
  }

  lemma {:induction false} GroupMatches(j: Joiner, o: KeyedRow, group: seq<KeyedRow>)
    requires forall k :: 0 <= k < |group| ==> group[k].key == o.key && !HasNull(group[k].key)
    ensures j.Matches(o, group) == j.Pairs(o, group)
  {
    if group != [] { GroupMatches(j, o, group[1..]); }
  }

  lemma OutputDrops(j: Joiner, o: KeyedRow, group: seq<KeyedRow>, rest: seq<KeyedRow>)
    requires forall l :: 0 <= l < |group| ==> group[l].key != o.key
    ensures j.Output(o, group + rest) == j.Output(o, rest)
  {
    hide Joiner.Matches;
    MatchesAppend(j, o, group, rest);
    NoMatches(j, o, group);
  }

  lemma {:induction false} DropUnmatched(j: Joiner, outers: seq<KeyedRow>, group: seq<KeyedRow>, rest: seq<KeyedRow>)
    requires forall k, l :: 0 <= k < |outers| && 0 <= l < |group| ==> group[l].key != outers[k].key
    ensures j.NestedLoop(outers, group + rest) == j.NestedLoop(outers, rest)
  {
    hide Joiner.Matches, Joiner.Output;
    if outers != [] {
      OutputDrops(j, outers[0], group, rest);
      DropUnmatched(j, outers[1..], group, rest);
    }
  }

  // ---------- the state between two steps, on values ----------

  /** The outer rows to come, the current inner group and the inner rows after it, how many
      rows of the group are consumed for the first outer row, and whether one matched. */
  datatype State = State(outers: seq<KeyedRow>, group: seq<KeyedRow>, pending: seq<KeyedRow>, cursor: nat,
                         hasMatch: bool)

  ghost predicate NoNulls(rows: seq<KeyedRow>) {
    forall k :: 0 <= k < |rows| ==> !HasNull(rows[k].key)
  }

  ghost predicate Grouped(w: nat, group: seq<KeyedRow>, pending: seq<KeyedRow>) {
    && Width(group, w) && Width(pending, w) && Width(group + pending, w) && Sorted(group + pending, w)
    && NoNulls(group) && NoNulls(pending) && OneKey(group)
    && (group == [] ==> pending == [])
    && (group != [] && pending != [] ==> pending[0].key != group[0].key)
  }

  ghost predicate StateOK(j: Joiner, w: nat, s: State) {
    && Width(s.outers, w) && Sorted(s.outers, w) && Grouped(w, s.group, s.pending)
    && s.cursor <= |s.group|
    && (s.cursor > 0 ==>
          s.cursor < |s.group| && s.outers != [] && j.outerFilter(s.outers[0]) && s.outers[0].key == s.group[0].key)
    && (s.hasMatch ==> s.cursor > 0)
  }

  ghost predicate MustSkip(s: State) {
    s.outers != [] && s.group != [] && |s.outers[0].key| == |s.group[0].key| &&
    Compare(s.outers[0].key, s.group[0].key) > 0
  }

  ghost predicate MustMiss(j: Joiner, s: State) {
    && s.outers != []
    && (|| !j.outerFilter(s.outers[0]) || s.group == []
        || (|s.outers[0].key| == |s.group[0].key| && Compare(s.outers[0].key, s.group[0].key) < 0))
  }

  ghost predicate MustMatch(j: Joiner, s: State) {
    s.outers != [] && s.group != [] && j.outerFilter(s.outers[0]) && s.outers[0].key == s.group[0].key
  }

  /** What the consumed part of a group leaves to be emitted for its outer row. */
  function Partial(j: Joiner, o: KeyedRow, rest: seq<KeyedRow>, hasMatch: bool): seq<OutRow> {
    if j.Pairs(o, rest) == [] && !hasMatch then j.OnMissMatch(o) else j.Pairs(o, rest)
  }

  /** Everything still to be emitted. */
  function Remaining(j: Joiner, s: State): seq<OutRow> {
    if s.outers == [] then []
    else if s.cursor == 0 || |s.group| < s.cursor then j.NestedLoop(s.outers, s.group + s.pending)
    else Partial(j, s.outers[0], s.group[s.cursor..], s.hasMatch) + j.NestedLoop(s.outers[1..], s.group + s.pending)
  }

  /** Rows after a group have greater keys. */
  lemma PendingGreater(w: nat, group: seq<KeyedRow>, pending: seq<KeyedRow>)
    requires Grouped(w, group, pending) && group != []
    ensures forall k :: 0 <= k < |pending| ==> Compare(group[0].key, pending[k].key) < 0
  {
    var all := group + pending;
    forall k | 0 <= k < |pending| ensures Compare(group[0].key, pending[k].key) < 0 {
      assert all[0] == group[0] && all[|group|] == pending[0] && all[|group| + k] == pending[k];
      CompareOrder(group[0].key, pending[0].key);
      if k > 0 { CompareTransitive(group[0].key, pending[0].key, pending[k].key); }
    }
  }

  lemma SortedTail(w: nat, rows: seq<KeyedRow>)
    requires Width(rows, w) && Sorted(rows, w) && rows != []
    ensures Width(rows[1..], w) && Sorted(rows[1..], w)
  {
    forall i, k | 0 <= i < k < |rows[1..]| ensures Compare(rows[1..][i].key, rows[1..][k].key) <= 0 {
      assert rows[1..][i] == rows[i + 1] && rows[1..][k] == rows[k + 1];
    }
  }

  /** An outer row behind the group lets the group go. */
  lemma DropGroup(j: Joiner, w: nat, s: State, group': seq<KeyedRow>, pending': seq<KeyedRow>)
    requires StateOK(j, w, s) && MustSkip(s)
    requires s.pending == group' + pending' && OneKey(group') && (group' == [] ==> pending' == [])
    requires group' != [] && pending' != [] ==> pending'[0].key != group'[0].key
    ensures s.cursor == 0 && StateOK(j, w, State(s.outers, group', pending', 0, false))
    ensures Remaining(j, s) == Remaining(j, State(s.outers, group', pending', 0, false))
  {
    hide HasNull, Compare;
    CompareOrder(s.outers[0].key, s.group[0].key);
    forall k, l | 0 <= k < |s.outers| && 0 <= l < |s.group| ensures s.group[l].key != s.outers[k].key {
      CompareOrder(s.group[0].key, s.outers[0].key);
      if k > 0 { CompareTransitive(s.group[0].key, s.outers[0].key, s.outers[k].key); }
      CompareOrder(s.group[0].key, s.outers[k].key);
    }
    DropUnmatched(j, s.outers, s.group, s.pending);
    NextGroup(w, s.group, s.pending, group', pending');
  }

  lemma NextGroup(w: nat, group: seq<KeyedRow>, pending: seq<KeyedRow>, group': seq<KeyedRow>, pending': seq<KeyedRow>)
    requires Width(group + pending, w) && Sorted(group + pending, w) && NoNulls(pending)
    requires pending == group' + pending' && OneKey(group') && (group' == [] ==> pending' == [])
    requires group' != [] && pending' != [] ==> pending'[0].key != group'[0].key
    ensures Grouped(w, group', pending')
  {
    hide HasNull, Compare;
    var all := group + pending;
    assert forall k :: 0 <= k < |pending| ==> pending[k] == all[|group| + k];
    assert forall k :: 0 <= k < |group'| ==> group'[k] == pending[k];
    assert forall k :: 0 <= k < |pending'| ==> pending'[k] == pending[|group'| + k];
    forall i, k | 0 <= i < k < |pending| ensures Compare(pending[i].key, pending[k].key) <= 0 {
      assert Compare(all[|group| + i].key, all[|group| + k].key) <= 0;
    }
  }

  /** An outer row that is filtered out, precedes the group, or has no group left. */
  lemma MissOuter(j: Joiner, w: nat, s: State)
    requires StateOK(j, w, s) && MustMiss(j, s)
    ensures s.cursor == 0 && StateOK(j, w, s.(outers := s.outers[1..]))
    ensures Remaining(j, s) == j.OnMissMatch(s.outers[0]) + Remaining(j, s.(outers := s.outers[1..]))
  {
    hide HasNull, Compare;
    var o := s.outers[0];
    SortedTail(w, s.outers);
    if s.group != [] { CompareOrder(o.key, s.group[0].key); }
    if j.outerFilter(o) && s.group != [] {
      PendingGreater(w, s.group, s.pending);
      forall k | 0 <= k < |s.group + s.pending| ensures (s.group + s.pending)[k].key != o.key {
        if k >= |s.group| {
          CompareTransitive(o.key, s.group[0].key, s.pending[k - |s.group|].key);
          CompareOrder(o.key, s.pending[k - |s.group|].key);
        }
      }
      NoMatches(j, o, s.group + s.pending);
    }
    if s.group == [] { NoMatches(j, o, s.group + s.pending); }
  }

  lemma GroupOutput(j: Joiner, w: nat, s: State)
    requires StateOK(j, w, s) && MustMatch(j, s)
    ensures Remaining(j, s)
            == Partial(j, s.outers[0], s.group[s.cursor..], s.hasMatch)
            + j.NestedLoop(s.outers[1..], s.group + s.pending)
  {
    hide HasNull, Compare, Joiner.Matches, Joiner.Pairs, Joiner.Output;
    if s.cursor == 0 {
      GroupFirstOutput(j, w, s.outers[0], s.group, s.pending);
      assert s.group[0..] == s.group;
    }
  }

  /** The output of an outer row that has the group's key. */
  lemma GroupFirstOutput(j: Joiner, w: nat, o: KeyedRow, group: seq<KeyedRow>, pending: seq<KeyedRow>)
    requires Grouped(w, group, pending) && group != [] && j.outerFilter(o) && o.key == group[0].key
    ensures j.Output(o, group + pending) == Partial(j, o, group, false)
  {
    hide HasNull, Compare, Joiner.Matches, Joiner.Pairs, Sorted;
    PendingGreater(w, group, pending);
    forall k | 0 <= k < |pending| ensures pending[k].key != o.key {
      CompareOrder(group[0].key, pending[k].key);
    }
    MatchesAppend(j, o, group, pending);
    NoMatches(j, o, pending);
    GroupMatches(j, o, group);
  }

  /** Part of the group is joined with the first outer row. */
  lemma MatchPart(j: Joiner, w: nat, s: State, n: nat, hasMatch': bool)
    requires StateOK(j, w, s) && MustMatch(j, s)
    requires s.cursor < n < |s.group|
    requires hasMatch' <==> s.hasMatch || j.Pairs(s.outers[0], s.group[s.cursor..n]) != []
    ensures StateOK(j, w, s.(cursor := n, hasMatch := hasMatch'))
    ensures Remaining(j, s)
            == j.Pairs(s.outers[0], s.group[s.cursor..n]) + Remaining(j, s.(cursor := n, hasMatch := hasMatch'))
  {
    hide Sorted, Grouped, Joiner.Pairs, Joiner.NestedLoop;
    var o := s.outers[0];
    GroupOutput(j, w, s);
    assert s.group[s.cursor..] == s.group[s.cursor..n] + s.group[n..];
    PairsAppend(j, o, s.group[s.cursor..n], s.group[n..]);
  }

  /** The rest of the group is joined with the first outer row. */
  lemma MatchRest(j: Joiner, w: nat, s: State, hasMatch': bool)
    requires StateOK(j, w, s) && MustMatch(j, s)
    requires hasMatch' <==> s.hasMatch || j.Pairs(s.outers[0], s.group[s.cursor..]) != []
    ensures var s' := s.(outers := s.outers[1..], cursor := 0, hasMatch := false);
            && StateOK(j, w, s')
            && Remaining(j, s)
               == j.Pairs(s.outers[0], s.group[s.cursor..]) + (if hasMatch' then [] else j.OnMissMatch(s.outers[0]))
               + Remaining(j, s')
  {
    hide Grouped, Joiner.Matches, Joiner.Pairs, Joiner.Output;
    GroupOutput(j, w, s);
    SortedTail(w, s.outers);
    hide Sorted, Width;
  }

  class MergeJoinExec {
    const joiner: Joiner
    const keyWidth: nat
    const innerTable: InnerTable

    var prepared: bool
    var outerReader: seq<seq<KeyedRow>>
    var outerChk: seq<KeyedRow>
    var selected: seq<bool>
    var row: nat                    // index into outerChk; its length is the end row
    var hasMatch: bool
    var innerRows: seq<RowPtr>
    var cursor: nat                 // position of the iterator over innerRows

    // What the children hold in all, and what has been returned so far.
    ghost var outers: seq<KeyedRow>
    ghost var inners: seq<KeyedRow>
    ghost var emitted: seq<OutRow>

    ghost predicate Shape()
      reads this, innerTable
    {
      && innerTable.Ready() && innerTable.keyWidth == keyWidth && innerTable.AllPointed(innerRows)
      && NonEmptyChunks(outerReader) && row <= |outerChk| && cursor <= |innerRows|
      && |selected| == |outerChk| && forall k :: 0 <= k < |outerChk| ==> selected[k] == joiner.outerFilter(outerChk[k])
    }

    ghost function Current(): State
      reads this, innerTable
      requires Shape()
    {
      State(outerChk[row..] + Flatten(outerReader), RowsAt(innerTable.chunks, innerRows), innerTable.Pending(), cursor,
            hasMatch)
    }

    /** What was returned and what remains make up the nested-loop join. */
    ghost predicate Valid()
      reads this, innerTable
    {
      && Width(outers, keyWidth) && Sorted(outers, keyWidth) && Width(inners, keyWidth) && Sorted(inners, keyWidth)
      && if prepared then
           && Shape() && StateOK(joiner, keyWidth, Current())
           && joiner.NestedLoop(outers, inners) == emitted + Remaining(joiner, Current())
         else
           && innerTable.Valid() && innerTable.keyWidth == keyWidth && innerTable.firstRow4Key.None?
           && innerTable.Unread() == inners && NonEmptyChunks(outerReader) && Flatten(outerReader) == outers &&
              emitted == []
    }

    constructor (joiner: Joiner, keyWidth: nat, outerInput: seq<seq<KeyedRow>>, innerInput: seq<seq<KeyedRow>>)
      requires NonEmptyChunks(outerInput) && NonEmptyChunks(innerInput)
      requires Width(Flatten(outerInput), keyWidth) && Sorted(Flatten(outerInput), keyWidth)
      requires Width(Flatten(innerInput), keyWidth) && Sorted(Flatten(innerInput), keyWidth)
      ensures Valid() && fresh(innerTable) && this.joiner == joiner
      ensures outers == Flatten(outerInput) && inners == Flatten(innerInput) && emitted == []
    {
      this.joiner, this.keyWidth := joiner, keyWidth;
      innerTable := new InnerTable(keyWidth, innerInput);
      prepared, outerReader, outerChk, selected, row, hasMatch := false, outerInput, [], [], 0, false;
      innerRows, cursor := [], 0;
      outers, inners, emitted := Flatten(outerInput), Flatten(innerInput), [];
    }

    /** Fetches the next group of inner rows. */
    method FetchNextInnerRows()
      requires innerTable.Ready() && innerTable.keyWidth == keyWidth && Width(innerTable.Pending(), keyWidth)
      modifies this`innerRows, this`cursor, innerTable
      ensures innerTable.Ready() && innerTable.AllPointed(innerRows) && cursor == 0
      ensures old(innerTable.Pending()) == RowsAt(innerTable.chunks, innerRows) + innerTable.Pending()
      ensures innerRows == [] ==> old(innerTable.Pending()) == []
      ensures OneKey(RowsAt(innerTable.chunks, innerRows))
      ensures innerRows != [] && innerTable.Pending() != [] ==>
                innerTable.Pending()[0].key != RowAt(innerTable.chunks, innerRows[0]).key
    {
      innerRows := innerTable.RowsWithSameKey();
      cursor := 0;
    }

    /** Fetches the next chunk of outer rows and applies the filter on them. */
    method FetchNextOuterRows()
      requires NonEmptyChunks(outerReader) && row == |outerChk|
      modifies this`outerReader, this`outerChk, this`selected, this`row
      ensures NonEmptyChunks(outerReader) && row == 0 && |selected| == |outerChk|
      ensures forall k :: 0 <= k < |outerChk| ==> selected[k] == joiner.outerFilter(outerChk[k])
      ensures outerChk + Flatten(outerReader) == old(Flatten(outerReader))
      ensures outerChk == [] ==> Flatten(outerReader) == []
    {
      if outerReader == [] {
        outerChk := [];
      } else {
        outerChk := outerReader[0];
        outerReader := outerReader[1..];
      }
      var flags := [];
      for k := 0 to |outerChk|
        invariant |flags| == k && forall l :: 0 <= l < k ==> flags[l] == joiner.outerFilter(outerChk[l])
      {
        flags := flags + [joiner.outerFilter(outerChk[k])];
      }
      selected, row := flags, 0;
    }

    /** Joins the outer row with the next inner rows of the group, as many as fit. */
    method TryToMatchInners(o: KeyedRow, out: seq<OutRow>, required: nat) returns (out': seq<OutRow>, matched: bool)
      requires AllInRange(innerTable.chunks, innerRows) && cursor < |innerRows| && |out| < required
      modifies this`cursor
      ensures old(cursor) < cursor <= |innerRows| && |out'| <= required
      ensures out' == out + joiner.Pairs(o, RowsAt(innerTable.chunks, innerRows)[old(cursor)..cursor])
      ensures matched <==> joiner.Pairs(o, RowsAt(innerTable.chunks, innerRows)[old(cursor)..cursor]) != []
    {
      ghost var rows, c := RowsAt(innerTable.chunks, innerRows), cursor;
      var numToAppend := required - |out|;
      var joined := [];
      while cursor < |innerRows| && numToAppend > 0
        invariant c <= cursor <= |innerRows| && |joined| == cursor - c && numToAppend == required - |out| - |joined|
        invariant numToAppend >= 0 && (cursor == c ==> numToAppend > 0)
        invariant forall k :: 0 <= k < |joined| ==> joined[k] == joiner.Joined(o, rows[c + k])
        decreases numToAppend
      {
        joined := joined + [joiner.Joined(o, RowAt(innerTable.chunks, innerRows[cursor]))];
        cursor := cursor + 1;
        numToAppend := numToAppend - 1;
      }
      if joiner.conditions.None? {
        AllPass(joiner, o, rows[c..cursor], joined);
        return out + joined, true;
      }
      var kept := Filter(joined, o, rows[c..cursor]);
      return out + kept, kept != [];
    }

    /** Keeps the joined rows that pass the conditions. */
    method Filter(joined: seq<OutRow>, ghost o: KeyedRow, ghost rows: seq<KeyedRow>) returns (kept: seq<OutRow>)
      requires |joined| == |rows| && forall k :: 0 <= k < |rows| ==> joined[k] == joiner.Joined(o, rows[k])
      ensures kept == joiner.Pairs(o, rows) && |kept| <= |joined|
    {
      kept := [];
      for k := 0 to |joined|
        invariant kept == joiner.Pairs(o, rows[..k]) && |kept| <= k
      {
        assert rows[..k + 1] == rows[..k] + [rows[k]];
        PairsAppend(joiner, o, rows[..k], [rows[k]]);
        assert joiner.Pairs(o, [rows[k]])
               == (if joiner.Passes(joined[k]) then [joined[k]] else []) + joiner.Pairs(o, [rows[k]][1..]);
        if joiner.Passes(joined[k]) {
          kept := kept + [joined[k]];
        }
      }
      assert rows[..|rows|] == rows;
    }

    /** The executor can continue: its state is in order and the group has a current row. */
    ghost predicate Running()
      reads this, innerTable
    {
      prepared && Shape() && StateOK(joiner, keyWidth, Current()) && (innerRows != [] ==> cursor < |innerRows|)
    }

    lemma RunningShape()
      requires Running()
      ensures Shape() && cursor == Current().cursor <= |Current().group|
    {
    }

    /** Moves on to the next outer chunk when the current one is used up. */
    method EnsureOuterRow() returns (more: bool)
      requires Running()
      modifies this`outerReader, this`outerChk, this`selected, this`row
      ensures Running() && Current() == old(Current())
      ensures more ==> row < |outerChk|
      ensures !more ==> Remaining(joiner, Current()) == []
    {
      hide StateOK, Flatten, Joiner.NestedLoop;
      ghost var s := Current();
      if row == |outerChk| {
        FetchNextOuterRows();
        assert Current() == s;
      }
      more := row < |outerChk|;
    }

    /** Compares the outer row with the group; a filtered outer row, or one without a group,
        counts as smaller. */
    method CompareRows() returns (cmpResult: int)
      requires Running() && row < |outerChk|
      ensures cmpResult > 0 ==> MustSkip(Current())
      ensures cmpResult < 0 ==> MustMiss(joiner, Current())
      ensures cmpResult == 0 ==> MustMatch(joiner, Current())
    {
      hide Compare;
      ghost var s := Current();
      assert s.outers[0] == outerChk[row];
      cmpResult := -1;
      if selected[row] && |innerRows| > 0 {
        CompareGroup(joiner, keyWidth, s, innerTable.chunks, innerRows, cursor);
        cmpResult := Compare(outerChk[row].key, RowAt(innerTable.chunks, innerRows[cursor]).key);
      }
    }

    /** The group precedes the outer row: fetches the next one. */
    method SkipGroup()
      requires Running() && MustSkip(Current())
      modifies this`innerRows, this`cursor, innerTable
      ensures Running() && Remaining(joiner, Current()) == old(Remaining(joiner, Current()))
      ensures Current().outers == old(Current()).outers
      ensures |Current().group| + |Current().pending| < |old(Current()).group| + |old(Current()).pending|
    {
      hide Joiner.NestedLoop, Flatten, WithoutNulls, Compare, Sorted, OneKey, Width, Remaining, Grouped;
      ghost var s := Current();
      GroupedPending(joiner, keyWidth, s);
      FetchNextInnerRows();
      DropGroup(joiner, keyWidth, s, RowsAt(innerTable.chunks, innerRows), innerTable.Pending());
      assert Current() == State(s.outers, RowsAt(innerTable.chunks, innerRows), innerTable.Pending(), 0, false);
    }

    /** The outer row has no match: emits it with defaults, or drops it. */
    method EmitMiss(out: seq<OutRow>) returns (out': seq<OutRow>)
      requires Running() && row < |outerChk| && MustMiss(joiner, Current())
      modifies this`row, this`hasMatch
      ensures Running() && |Current().outers| < |old(Current()).outers| &&
              out' == out + joiner.OnMissMatch(old(outerChk[row]))
      ensures out + old(Remaining(joiner, Current())) == out' + Remaining(joiner, Current())
    {
      hide Joiner.NestedLoop, Joiner.OnMissMatch, Flatten, WithoutNulls, Compare, Sorted, OneKey, Width, Remaining,
        Grouped;
      ghost var s := Current();
      MissOuter(joiner, keyWidth, s);
      out' := out + joiner.OnMissMatch(outerChk[row]);
      AdvanceOuter();
    }

    /** The keys are equal: joins the outer row with as much of the group as fits. */
    method EmitMatches(out: seq<OutRow>, required: nat) returns (out': seq<OutRow>)
      requires Running() && row < |outerChk| && MustMatch(joiner, Current()) && |out| < required
      modifies this`row, this`hasMatch, this`cursor
      ensures Running() && |out'| <= required && out <= out'
      ensures || |Current().outers| < |old(Current()).outers|
              || (Current() == old(Current()).(cursor := cursor, hasMatch := hasMatch) && cursor > old(cursor))
      ensures out + old(Remaining(joiner, Current())) == out' + Remaining(joiner, Current())
    {
      hide Joiner.NestedLoop, Joiner.Pairs, Joiner.OnMissMatch, Flatten, WithoutNulls, StateOK, Remaining, MustMatch;
      ghost var s := Current();
      MatchState(joiner, keyWidth, s);
      var o := outerChk[row];
      assert s.outers[0] == o;
      var matched;
      out', matched := TryToMatchInners(o, out, required);
      hasMatch := hasMatch || matched;
      assert Shape() && Current() == s.(cursor := cursor, hasMatch := hasMatch);
      if cursor < |innerRows| {
        MatchPart(joiner, keyWidth, s, cursor, hasMatch);
      } else {
        assert s.group[s.cursor..] == s.group[s.cursor..cursor];
        MatchRest(joiner, keyWidth, s, hasMatch);
        out' := FinishOuter(out', o);
      }
    }

    /** The group is used up for the outer row: emits the row if nothing matched, and moves on. */
    method FinishOuter(out: seq<OutRow>, o: KeyedRow) returns (out': seq<OutRow>)
      requires Shape() && row < |outerChk|
      modifies this`row, this`hasMatch, this`cursor
      ensures Shape() && cursor == 0
      ensures Current() == old(Current()).(outers := old(Current()).outers[1..], cursor := 0, hasMatch := false)
      ensures out' == out + if old(hasMatch) then [] else joiner.OnMissMatch(o)
      ensures |out'| <= |out| + if old(hasMatch) then 0 else 1
    {
      hide Joiner.OnMissMatch, Flatten;
      out' := out;
      if !hasMatch {
        MissFits(joiner, o);
        out' := out' + joiner.OnMissMatch(o);
      }
      AdvanceOuter();
      cursor := 0;
    }

    /** Appends joined rows until the chunk is full or the outer rows are exhausted. */
    method JoinToChunk(out: seq<OutRow>, required: nat) returns (out': seq<OutRow>, hasMore: bool)
      requires Running() && |out| < required
      modifies this, innerTable
      ensures Running() && out <= out' && |out'| <= required
      ensures out + old(Remaining(joiner, Current())) == out' + Remaining(joiner, Current())
      ensures hasMore ==> |out'| == required
      ensures !hasMore ==> Remaining(joiner, Current()) == []
      ensures outers == old(outers) && inners == old(inners) && emitted == old(emitted)
    {
      hide Joiner.NestedLoop, Joiner.Pairs, Flatten, WithoutNulls, Compare, StateOK, MustSkip, MustMiss, MustMatch,
        Remaining, Shape;
      RunningShape();
      out' := out;
      ghost var total := out + Remaining(joiner, Current());
      while true
        invariant Running() && |out'| < required && out <= out'
        invariant total == out' + Remaining(joiner, Current())
        invariant outers == old(outers) && inners == old(inners) && emitted == old(emitted)
        decreases |Current().outers|, |Current().group| + |Current().pending|, |Current().group| - cursor
      {
        RunningShape();
        var more := EnsureOuterRow();
        if !more {
          return out', false;
        }
        var cmpResult := CompareRows();
        if cmpResult > 0 {
          SkipGroup();
        } else if cmpResult < 0 {
          MissFits(joiner, outerChk[row]);
          out' := EmitMiss(out');
          if |out'| >= required {
            return out', true;
          }
        } else {
          out' := EmitMatches(out', required);
          if |out'| >= required {
            return out', true;
          }
        }
      }
    }

    method AdvanceOuter()
      requires Shape() && row < |outerChk|
      modifies this`row, this`hasMatch
      ensures Shape() && Current() == old(Current()).(outers := old(Current()).outers[1..], hasMatch := false)
    {
      assert (outerChk[row..] + Flatten(outerReader))[1..] == outerChk[row + 1..] + Flatten(outerReader);
      row := row + 1;
      hasMatch := false;
    }

    method Prepare()
      requires Valid() && !prepared
      modifies this, innerTable
      ensures Valid() && Running()
      ensures outers == old(outers) && inners == old(inners) && emitted == old(emitted)
    {
      hide Joiner.NestedLoop, Flatten, WithoutNulls, Compare, Sorted, OneKey, StateOK, Remaining;
      innerTable.Init();
      NullFreeSorted(keyWidth, inners);
      FetchNextInnerRows();
      row, outerChk, hasMatch := 0, [], false;
      FetchNextOuterRows();
      prepared := true;
      ghost var s := Current();
      assert s.outers == outers;
      FirstState(joiner, keyWidth, outers, inners, s);
    }

    /** Returns the next chunk of at most 'required' joined rows; an empty chunk means that the
        whole join has been returned. */
    method Next(required: nat) returns (out: seq<OutRow>)
      requires Valid() && (prepared ==> Running()) && required >= 1
      modifies this, innerTable
      ensures Valid() && Running()
      ensures outers == old(outers) && inners == old(inners)
      ensures emitted == old(emitted) + out && |out| <= required
      ensures emitted <= joiner.NestedLoop(outers, inners)
      ensures |out| < required ==> emitted == joiner.NestedLoop(outers, inners)
    {
      hide Joiner.NestedLoop, Flatten, WithoutNulls, Compare, Sorted, OneKey, StateOK, Remaining, Width;
      out := [];
      if !prepared { Prepare(); }
      ghost var before := Remaining(joiner, Current());
      while |out| < required
        invariant Running() && |out| <= required
        invariant before == out + Remaining(joiner, Current())
        invariant outers == old(outers) && inners == old(inners) && emitted == old(emitted)
        decreases required - |out|
      {
        var hasMore;
        out, hasMore := JoinToChunk(out, required);
        if !hasMore { break; }
      }
      emitted := emitted + out;
    }
  }

  /** Runs the executor until it returns an empty chunk, with any sequence of capacities. */
  method Drain(exec: MergeJoinExec, capacity: nat -> nat) returns (out: seq<OutRow>)
    requires exec.Valid() && exec.emitted == [] && !exec.prepared && forall n: nat :: capacity(n) >= 1
    modifies exec, exec.innerTable
    ensures out == exec.joiner.NestedLoop(old(exec.outers), old(exec.inners))
    ensures IsJoin(exec.joiner, old(exec.outers), old(exec.inners), out)
  {
    hide IsJoin;
    NestedLoopIsJoin(exec.joiner, exec.outers, exec.inners);
    out := [];
    var n := 0;
    while true
      invariant exec.Valid() && exec.emitted == out && exec.outers == old(exec.outers) &&
                exec.inners == old(exec.inners)
      invariant exec.prepared ==> exec.Running()
      invariant out <= exec.joiner.NestedLoop(exec.outers, exec.inners)
      decreases |exec.joiner.NestedLoop(exec.outers, exec.inners)| - |out|
    {
      var chk := exec.Next(capacity(n));
      out := out + chk;
      if chk == [] { return; }
      n := n + 1;
    }
  }

  lemma CompareGroup(j: Joiner, w: nat, s: State, chunks: seq<seq<KeyedRow>>, ptrs: seq<RowPtr>, cursor: nat)
    requires StateOK(j, w, s) && s.outers != [] && AllInRange(chunks, ptrs) && s.group == RowsAt(chunks, ptrs) &&
             cursor < |ptrs|
    ensures RowAt(chunks, ptrs[cursor]).key == s.group[0].key && |s.outers[0].key| == |s.group[0].key|
    ensures Compare(s.outers[0].key, s.group[0].key) == 0 <==> s.outers[0].key == s.group[0].key
  {
    assert s.group[cursor] == RowAt(chunks, ptrs[cursor]);
    CompareOrder(s.outers[0].key, s.group[0].key);
  }

  lemma MissFits(j: Joiner, o: KeyedRow)
    ensures |j.OnMissMatch(o)| <= 1
  {
  }

  lemma MatchState(j: Joiner, w: nat, s: State)
    requires StateOK(j, w, s) && MustMatch(j, s)
    ensures s.outers != [] && s.group != []
  {
  }

  lemma GroupedPending(j: Joiner, w: nat, s: State)
    requires StateOK(j, w, s)
    ensures Width(s.pending, w)
  {
  }

  lemma {:induction false} WithoutNullsMembers(rows: seq<KeyedRow>)
    ensures forall k ::
        0 <= k < |WithoutNulls(rows)| ==> WithoutNulls(rows)[k] in rows && !HasNull(WithoutNulls(rows)[k].key)
  {
    if rows != [] {
      hide HasNull;
      WithoutNullsMembers(rows[1..]);
      var rest := WithoutNulls(rows[1..]);
      assert forall k :: 0 <= k < |rest| ==> rest[k] in rows;
    }
  }

  lemma {:induction false} NullFreeSorted(w: nat, rows: seq<KeyedRow>)
    requires Width(rows, w) && Sorted(rows, w)
    ensures Width(WithoutNulls(rows), w) && Sorted(WithoutNulls(rows), w) && NoNulls(WithoutNulls(rows))
  {
    hide HasNull, Compare;
    WithoutNullsMembers(rows);
    if rows != [] {
      SortedTail(w, rows);
      NullFreeSorted(w, rows[1..]);
      WithoutNullsMembers(rows[1..]);
      var rest := WithoutNulls(rows[1..]);
      forall k | 0 <= k < |rest| ensures |rest[k].key| == w && Compare(rows[0].key, rest[k].key) <= 0 {
        var l :| 0 <= l < |rows[1..]| && rows[1..][l] == rest[k];
        assert rows[l + 1] == rest[k];
      }
    }
  }

  lemma FirstState(j: Joiner, w: nat, outers: seq<KeyedRow>, inners: seq<KeyedRow>, s: State)
    requires Width(outers, w) && Sorted(outers, w) && Width(inners, w) && Sorted(inners, w)
    requires s.outers == outers && s.group + s.pending == WithoutNulls(inners) && s.cursor == 0 && !s.hasMatch
    requires OneKey(s.group) && (s.group == [] ==> s.pending == [])
    requires s.group != [] && s.pending != [] ==> s.pending[0].key != s.group[0].key
    ensures StateOK(j, w, s) && Remaining(j, s) == j.NestedLoop(outers, inners)
  {
    NullFreeSorted(w, inners);
    NestedLoopSkipsNulls(j, outers, inners);
    var none: seq<KeyedRow> := [];
    assert none + WithoutNulls(inners) == WithoutNulls(inners);
    NextGroup(w, none, WithoutNulls(inners), s.group, s.pending);
  }

  lemma {:induction false} AllPass(j: Joiner, o: KeyedRow, rows: seq<KeyedRow>, joined: seq<OutRow>)
    requires j.conditions.None? && |joined| == |rows|
    requires forall k :: 0 <= k < |rows| ==> joined[k] == j.Joined(o, rows[k])
    ensures j.Pairs(o, rows) == joined
  {
    if rows != [] { AllPass(j, o, rows[1..], joined[1..]); }
  }
}
