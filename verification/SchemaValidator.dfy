/** The schema validator: a bounded queue of schema changes that merges and drops entries,
    against the whole history of changes it stands for. */
module SchemaValidator {

  /** A schema version and the tables changed by the step that led to it. */
  datatype Delta = Delta(schemaVersion: int, relatedTableIDs: seq<int>)

  predicate Shares(a: seq<int>, b: seq<int>) {
    exists t :: t in a && t in b
  }

  lemma SharesBy(a: seq<int>, b: seq<int>, t: int)
    requires t in a && t in b
    ensures Shares(a, b)
  {
  }

  /** No step to a version after 'ver' changed one of the tables. */
  predicate Untouched(history: seq<Delta>, ver: int, tables: seq<int>) {
    forall i :: 0 <= i < |history| && history[i].schemaVersion > ver ==> !Shares(history[i].relatedTableIDs, tables)
  }

  predicate Ascending(q: seq<Delta>) {
    forall i, j :: 0 <= i < j < |q| ==> q[i].schemaVersion < q[j].schemaVersion
  }

  // ---------- the queue ----------

  /** Inclusion as the code tests it: a longer list is not looked at. */
  predicate ContainedIn(a: seq<int>, b: seq<int>) {
    |a| <= |b| && forall t :: t in a ==> t in b
  }

  lemma NotContained(a: seq<int>, b: seq<int>, t: int)
    requires t in a && t !in b
    ensures !ContainedIn(a, b)
  {
  }

  function Enqueue(q: seq<Delta>, maxCnt: int, d: Delta): seq<Delta> {
    if maxCnt <= 0 then q
    else if q == [] then [d]
    else
      var last := |q| - 1;
      var longer := if last != 0 && ContainedIn(q[last].relatedTableIDs, d.relatedTableIDs) then q[last := d]
        else q + [d];
      if |longer| > maxCnt then longer[1..] else longer
  }

  /** How many entries at the end of the queue are newer than 'ver'. */
  function Newer(q: seq<Delta>, ver: int): (n: nat)
    ensures n <= |q|
  {
    if q == [] || q[|q| - 1].schemaVersion <= ver then 0 else 1 + Newer(q[..|q| - 1], ver)
  }

  predicate RelatedTablesChanged(q: seq<Delta>, ver: int, tables: seq<int>) {
    Newer(q, ver) == |q| || exists i :: |q| - Newer(q, ver) <= i < |q| && Shares(q[i].relatedTableIDs, tables)
  }

  lemma {:induction false} NewerIsSuffix(q: seq<Delta>, ver: int)
    requires Ascending(q)
    ensures forall i :: 0 <= i < |q| ==> (q[i].schemaVersion > ver <==> i >= |q| - Newer(q, ver))
  {
    if q != [] && q[|q| - 1].schemaVersion > ver {
      NewerIsSuffix(q[..|q| - 1], ver);
      assert forall i :: 0 <= i < |q| - 1 ==> q[..|q| - 1][i] == q[i];
    }
  }

  // ---------- the queue stands for the history ----------

  ghost predicate SameTables(a: seq<int>, b: seq<int>) {
    forall t :: t in a <==> t in b
  }

  /** Entry 'j' of the queue is a step of the history, and it names every table that the steps
      merged into it changed. */
  ghost predicate Represents(q: seq<Delta>, j: int, history: seq<Delta>)
    requires 0 < j < |q|
  {
    && (exists i ::
          0 <= i < |history| && history[i].schemaVersion == q[j].schemaVersion &&
          SameTables(history[i].relatedTableIDs, q[j].relatedTableIDs))
    && (forall i, t ::
          0 <= i < |history| && q[j - 1].schemaVersion < history[i].schemaVersion <= q[j].schemaVersion &&
          t in history[i].relatedTableIDs ==>
          t in q[j].relatedTableIDs)
  }

  ghost predicate Keeps(q: seq<Delta>, history: seq<Delta>) {
    && Ascending(history) && Ascending(q)
    && (q != [] ==> history != [] && q[|q| - 1].schemaVersion == history[|history| - 1].schemaVersion)
    && (forall j :: 0 < j < |q| ==> Represents(q, j, history))
  }

  /** For every version and tables the queue answers as the history does, except that a
      version older than the oldest kept entry counts as changed. */
  lemma AnswersAsHistory(q: seq<Delta>, history: seq<Delta>, ver: int, tables: seq<int>)
    requires Keeps(q, history)
    ensures !RelatedTablesChanged(q, ver, tables) <==>
        q != [] && q[0].schemaVersion <= ver && Untouched(history, ver, tables)
  {
    NewerIsSuffix(q, ver);
    var n := Newer(q, ver);
    hide Newer;
    if q != [] && q[0].schemaVersion <= ver {
      assert n < |q|;
      if Untouched(history, ver, tables) {
        forall j | |q| - n <= j < |q| ensures !Shares(q[j].relatedTableIDs, tables) {
          assert Represents(q, j, history);
          var i :| 0 <= i < |history| && history[i].schemaVersion == q[j].schemaVersion &&
            SameTables(history[i].relatedTableIDs, q[j].relatedTableIDs);
          assert !Shares(history[i].relatedTableIDs, tables);
        }
      } else {
        var i :| 0 <= i < |history| && history[i].schemaVersion > ver && Shares(history[i].relatedTableIDs, tables);
        assert history[i].schemaVersion <= q[|q| - 1].schemaVersion;
        var j := Covering(q, history[i].schemaVersion);
        assert Represents(q, j, history);
        assert Shares(q[j].relatedTableIDs, tables);
        assert j >= |q| - n;
      }
    }
  }

  /** The entry whose span holds a version after the first entry's. */
  lemma {:induction false} Covering(q: seq<Delta>, ver: int) returns (j: int)
    requires q != [] && q[0].schemaVersion < ver <= q[|q| - 1].schemaVersion
    ensures 0 < j < |q| && q[j - 1].schemaVersion < ver <= q[j].schemaVersion
  {
    if |q| > 1 && q[|q| - 2].schemaVersion >= ver {
      j := Covering(q[..|q| - 1], ver);
    } else {
      j := |q| - 1;
    }
  }

  /** Merging and dropping keep the queue true to the history, with room for one entry. 'step'
      is the actual change; a full load, after which the queue is empty, does not name it. */
  lemma EnqueueKeeps(q: seq<Delta>, history: seq<Delta>, maxCnt: int, d: Delta, step: Delta)
    requires Keeps(q, history) && maxCnt >= 1 && step.schemaVersion == d.schemaVersion
    requires history != [] ==> history[|history| - 1].schemaVersion < d.schemaVersion
    requires q != [] ==> SameTables(step.relatedTableIDs, d.relatedTableIDs)
    ensures Keeps(Enqueue(q, maxCnt, d), history + [step]) && Enqueue(q, maxCnt, d) != []
  {
    var h := history + [step];
    if q != [] {
      var last := |q| - 1;
      assert Ascending(h);
      var merge := last != 0 && ContainedIn(q[last].relatedTableIDs, d.relatedTableIDs);
      var longer := if merge then q[last := d] else q + [d];
      if merge { MergeKeeps(q, history, d, step); } else { AppendKeeps(q, history, d, step); }
      hide Represents;
      if |longer| > maxCnt { DropKeeps(longer, h); }
    }
  }

  lemma HistoryGrows(q: seq<Delta>, q': seq<Delta>, j: int, history: seq<Delta>, step: Delta)
    requires 0 < j < |q| && j < |q'| && q'[j - 1].schemaVersion == q[j - 1].schemaVersion && q'[j] == q[j]
    requires Represents(q, j, history) && q[j].schemaVersion < step.schemaVersion
    ensures Represents(q', j, history + [step])
  {
    var i :| 0 <= i < |history| && history[i].schemaVersion == q[j].schemaVersion &&
      SameTables(history[i].relatedTableIDs, q[j].relatedTableIDs);
    assert (history + [step])[i] == history[i];
  }

  lemma AppendKeeps(q: seq<Delta>, history: seq<Delta>, d: Delta, step: Delta)
    requires Keeps(q, history) && q != [] && step.schemaVersion == d.schemaVersion
    requires history[|history| - 1].schemaVersion < d.schemaVersion &&
             SameTables(step.relatedTableIDs, d.relatedTableIDs)
    ensures Keeps(q + [d], history + [step])
  {
    var q', h := q + [d], history + [step];
    forall j | 0 < j < |q'| ensures Represents(q', j, h) {
      if j < |q| {
        assert Represents(q, j, history);
        HistoryGrows(q, q', j, history, step);
      } else {
        assert h[|history|] == step;
      }
    }
  }

  lemma MergeKeeps(q: seq<Delta>, history: seq<Delta>, d: Delta, step: Delta)
    requires Keeps(q, history) && |q| > 1 && step.schemaVersion == d.schemaVersion
    requires history[|history| - 1].schemaVersion < d.schemaVersion &&
             SameTables(step.relatedTableIDs, d.relatedTableIDs)
    requires ContainedIn(q[|q| - 1].relatedTableIDs, d.relatedTableIDs)
    ensures Keeps(q[|q| - 1 := d], history + [step])
  {
    var q', h := q[|q| - 1 := d], history + [step];
    forall j | 0 < j < |q'| ensures Represents(q', j, h) {
      assert Represents(q, j, history);
      if j < |q| - 1 {
        HistoryGrows(q, q', j, history, step);
      } else {
        assert h[|history|] == step;
        forall i, t | 0 <= i < |h| && q'[j - 1].schemaVersion < h[i].schemaVersion <= q'[j].schemaVersion &&
          t in h[i].relatedTableIDs
          ensures t in q'[j].relatedTableIDs
        {
          if i < |history| { assert history[i].schemaVersion <= q[j].schemaVersion; }
        }
      }
    }
  }

  lemma DropKeeps(q: seq<Delta>, history: seq<Delta>)
    requires Keeps(q, history) && |q| > 1
    ensures Keeps(q[1..], history)
  {
    forall j | 0 < j < |q[1..]| ensures Represents(q[1..], j, history) {
      assert Represents(q, j + 1, history);
    }
  }

  /** The oldest entry is given up only when the queue is full, and no other is. */
  lemma EnqueueForgetsLittle(q: seq<Delta>, maxCnt: int, d: Delta)
    requires q != [] && maxCnt >= 1
    ensures |q| < maxCnt ==> Enqueue(q, maxCnt, d)[0] == q[0]
    ensures |q| > 1 && Enqueue(q, maxCnt, d)[0] != q[0] ==>
        Enqueue(q, maxCnt, d)[0] == q[1] || (|q| == 2 && Enqueue(q, maxCnt, d) == [d])
    ensures |q| <= maxCnt ==> |Enqueue(q, maxCnt, d)| <= maxCnt
  {
  }

  /** A full queue never grows, and a queue with room grows unless the new change names every
      table of its last entry, which is not its first, and no fewer tables. */
  lemma EnqueueGrows(q: seq<Delta>, maxCnt: int, d: Delta)
    ensures |Enqueue(q, maxCnt, d)| > |q| <==>
              && |q| < maxCnt
              && (|q| <= 1 || |q[|q| - 1].relatedTableIDs| > |d.relatedTableIDs| ||
                  exists t :: t in q[|q| - 1].relatedTableIDs && t !in d.relatedTableIDs)
    ensures maxCnt >= 1 ==>
              Enqueue(q, maxCnt, d) != [] && Enqueue(q, maxCnt, d)[|Enqueue(q, maxCnt, d)| - 1] == d
  {
  }

  // ---------- what a delta count of zero costs ----------

  /** No table changed later is reported unchanged. */
  ghost predicate Sound(q: seq<Delta>, history: seq<Delta>) {
    forall ver, tables :: !RelatedTablesChanged(q, ver, tables) ==> Untouched(history, ver, tables)
  }

  lemma KeepsIsSound(q: seq<Delta>, history: seq<Delta>)
    requires Keeps(q, history)
    ensures Sound(q, history)
  {
    forall ver, tables | !RelatedTablesChanged(q, ver, tables) ensures Untouched(history, ver, tables) {
      AnswersAsHistory(q, history, ver, tables);
    }
  }

  /** A change is lost exactly when the queue may hold nothing, holds something, and the change
      names a table. */
  lemma EnqueueIsSoundExactly(q: seq<Delta>, history: seq<Delta>, maxCnt: int, d: Delta)
    requires Keeps(q, history)
    requires history != [] ==> history[|history| - 1].schemaVersion < d.schemaVersion
    ensures Sound(Enqueue(q, maxCnt, d), history + [d]) <==> maxCnt >= 1 || q == [] || d.relatedTableIDs == []
  {
    var h := history + [d];
    if maxCnt >= 1 {
      EnqueueKeeps(q, history, maxCnt, d, d);
      KeepsIsSound(Enqueue(q, maxCnt, d), h);
    } else if d.relatedTableIDs == [] {
      KeepsIsSound(q, history);
      forall ver, tables | Untouched(history, ver, tables) ensures Untouched(h, ver, tables) {
      }
    } else if q != [] {
      var ver := q[|q| - 1].schemaVersion;
      var tables := d.relatedTableIDs;
      NewerIsSuffix(q, ver);
      assert !RelatedTablesChanged(q, ver, tables);
      SharesBy(d.relatedTableIDs, tables, tables[0]);
      assert h[|history|] == d && !Untouched(h, ver, tables);
    }
  }

  // ---------- the validator ----------

  datatype CheckResult = ResultSucc | ResultFail | ResultUnknown

  method HasRelatedTableID(relatedTableIDs: seq<int>, updateTableIDs: seq<int>) returns (has: bool)
    ensures has <==> Shares(relatedTableIDs, updateTableIDs)
  {
    for i := 0 to |updateTableIDs|
      invariant forall k :: 0 <= k < i ==> updateTableIDs[k] !in relatedTableIDs
    {
      for j := 0 to |relatedTableIDs|
        invariant updateTableIDs[i] !in relatedTableIDs[..j]
      {
        if updateTableIDs[i] == relatedTableIDs[j] {
          SharesBy(relatedTableIDs, updateTableIDs, updateTableIDs[i]);
          return true;
        }
      }
      assert relatedTableIDs[..|relatedTableIDs|] == relatedTableIDs;
    }
    return false;
  }

  method ContainIn(a: seq<int>, b: seq<int>) returns (contained: bool)
    ensures contained <==> ContainedIn(a, b)
  {
    if |a| > |b| {
      return false;
    }
    for i := 0 to |a|
      invariant forall k :: 0 <= k < i ==> a[k] in b
    {
      var isEqual := false;
      for j := 0 to |b|
        invariant !isEqual && a[i] !in b[..j]
      {
        if a[i] == b[j] {
          isEqual := true;
          break;
        }
      }
      if !isEqual {
        assert b[..|b|] == b;
        NotContained(a, b, a[i]);
        return false;
      }
    }
    return true;
  }

  class Validator {
    var isStarted: bool
    const lease: int
    var latestSchemaVer: int
    var latestSchemaExpire: int
    var deltaSchemaInfos: seq<Delta>
    /** Every schema change there has been, seen or not. */
    ghost var history: seq<Delta>

    ghost predicate Valid()
      reads this
    {
      && Keeps(deltaSchemaInfos, history)
      && (deltaSchemaInfos != [] ==>
            isStarted && latestSchemaVer == deltaSchemaInfos[|deltaSchemaInfos| - 1].schemaVersion)
    }

    constructor (lease: int)
      ensures Valid() && isStarted && history == [] && this.lease == lease
    {
      isStarted, this.lease, latestSchemaVer, latestSchemaExpire := true, lease, 0, 0;
      deltaSchemaInfos, history := [], [];
    }

    method Stop()
      requires Valid()
      modifies this
      ensures Valid() && history == old(history) && !isStarted && deltaSchemaInfos == []
    {
      isStarted, latestSchemaVer, deltaSchemaInfos := false, 0, [];
    }

    method Restart()
      requires Valid()
      modifies this
      ensures Valid() && history == old(history) && isStarted && deltaSchemaInfos == old(deltaSchemaInfos)
      ensures latestSchemaVer == old(latestSchemaVer) && latestSchemaExpire == old(latestSchemaExpire)
    {
      isStarted := true;
    }

    method Reset()
      requires Valid()
      modifies this
      ensures Valid() && history == old(history) && isStarted && deltaSchemaInfos == []
    {
      isStarted, latestSchemaVer, deltaSchemaInfos := true, 0, [];
    }

    /** The domain moves from 'oldVer' to 'currVer'; 'step' is what that changed. Only after a
        full load, which empties the queue first, may the given tables differ from it. A maximum
        below one leaves a queue that holds something behind the history. */
    method Update(leaseGrantTime: int, oldVer: int, currVer: int, changedTableIDs: seq<int>, maxCnt: int,
                  ghost step: Delta)
      requires Valid()
      requires currVer != oldVer ==>
          step.schemaVersion == currVer && (history != [] ==> history[|history| - 1].schemaVersion < currVer)
      requires currVer != oldVer && deltaSchemaInfos != [] ==> SameTables(step.relatedTableIDs, changedTableIDs)
      requires currVer == oldVer && deltaSchemaInfos != [] ==> currVer == latestSchemaVer
      modifies this
      ensures maxCnt >= 1 || old(deltaSchemaInfos) == [] || currVer == oldVer ==> Valid()
      ensures isStarted == old(isStarted)
      ensures history == if currVer != oldVer then old(history) + [step] else old(history)
      ensures isStarted ==> latestSchemaVer == currVer && latestSchemaExpire == leaseGrantTime + lease - 1
      ensures isStarted && currVer != oldVer ==>
          deltaSchemaInfos == Enqueue(old(deltaSchemaInfos), maxCnt, Delta(currVer, changedTableIDs))
      ensures currVer == oldVer || !isStarted ==> deltaSchemaInfos == old(deltaSchemaInfos)
    {
      if currVer != oldVer {
        if maxCnt >= 1 { EnqueueKeeps(deltaSchemaInfos, history, maxCnt, Delta(currVer, changedTableIDs), step); }
        history := history + [step];
      }
      if !isStarted {
        return;
      }
      latestSchemaVer := currVer;
      latestSchemaExpire := leaseGrantTime + lease - 1;
      if currVer != oldVer {
        EnqueueDelta(currVer, changedTableIDs, maxCnt);
      }
    }

    method EnqueueDelta(schemaVersion: int, relatedTableIDs: seq<int>, maxCnt: int)
      modifies this`deltaSchemaInfos
      ensures deltaSchemaInfos == Enqueue(old(deltaSchemaInfos), maxCnt, Delta(schemaVersion, relatedTableIDs))
    {
      if maxCnt <= 0 {
        return;
      }
      var delta := Delta(schemaVersion, relatedTableIDs);
      if |deltaSchemaInfos| == 0 {
        deltaSchemaInfos := deltaSchemaInfos + [delta];
        return;
      }
      var lastOffset := |deltaSchemaInfos| - 1;
      var contained := ContainIn(deltaSchemaInfos[lastOffset].relatedTableIDs, delta.relatedTableIDs);
      if lastOffset != 0 && contained {
        deltaSchemaInfos := deltaSchemaInfos[lastOffset := delta];
      } else {
        deltaSchemaInfos := deltaSchemaInfos + [delta];
      }
      if |deltaSchemaInfos| > maxCnt {
        deltaSchemaInfos := deltaSchemaInfos[1..];
      }
    }

    method FindNewerDeltas(currVer: int) returns (newer: seq<Delta>)
      ensures newer == deltaSchemaInfos[|deltaSchemaInfos| - Newer(deltaSchemaInfos, currVer)..]
    {
      var q := deltaSchemaInfos;
      var pos := |q|;
      var i := |q| - 1;
      assert q[..|q|] == q;
      while i >= 0 && q[i].schemaVersion > currVer
        invariant -1 <= i < |q| && pos == i + 1
        invariant Newer(q, currVer) == |q| - pos + Newer(q[..pos], currVer)
      {
        assert q[..pos][..i] == q[..i];
        pos := i;
        i := i - 1;
      }
      newer := q[pos..];
    }

    method IsRelatedTablesChanged(currVer: int, tableIDs: seq<int>) returns (changed: bool)
      ensures changed <==> RelatedTablesChanged(deltaSchemaInfos, currVer, tableIDs)
    {
      if |deltaSchemaInfos| == 0 {
        return true;
      }
      var newerDeltas := FindNewerDeltas(currVer);
      if |newerDeltas| == |deltaSchemaInfos| {
        return true;
      }
      ghost var from := |deltaSchemaInfos| - |newerDeltas|;
      for i := 0 to |newerDeltas|
        invariant forall k :: from <= k < from + i ==> !Shares(deltaSchemaInfos[k].relatedTableIDs, tableIDs)
      {
        var has := HasRelatedTableID(newerDeltas[i].relatedTableIDs, tableIDs);
        if has {
          assert Shares(deltaSchemaInfos[from + i].relatedTableIDs, tableIDs);
          return true;
        }
      }
      return false;
    }

    /** A transaction on an older schema passes exactly when its version is not older than the
        oldest kept change and none of its tables was changed since. */
    method Check(txnTime: int, schemaVer: int, relatedTableIDs: seq<int>) returns (result: CheckResult)
      requires Valid()
      ensures !isStarted ==> result == ResultUnknown
      ensures isStarted && lease == 0 ==> result == ResultSucc
      ensures isStarted && lease != 0 && schemaVer < latestSchemaVer ==>
                result == if relatedTableIDs != [] && deltaSchemaInfos != [] &&
                             deltaSchemaInfos[0].schemaVersion <= schemaVer &&
                             Untouched(history, schemaVer, relatedTableIDs)
                          then ResultSucc else ResultFail
      ensures isStarted && lease != 0 && schemaVer >= latestSchemaVer ==>
                result == if txnTime > latestSchemaExpire then ResultUnknown else ResultSucc
    {
      if !isStarted {
        return ResultUnknown;
      }
      if lease == 0 {
        return ResultSucc;
      }
      if schemaVer < latestSchemaVer {
        if |relatedTableIDs| == 0 {
          return ResultFail;
        }
        AnswersAsHistory(deltaSchemaInfos, history, schemaVer, relatedTableIDs);
        var changed := IsRelatedTablesChanged(schemaVer, relatedTableIDs);
        if changed {
          return ResultFail;
        }
        return ResultSucc;
      }
      if txnTime > latestSchemaExpire {
        return ResultUnknown;
      }
      return ResultSucc;
    }
  }
}
