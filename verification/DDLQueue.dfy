/** The two DDL job queues: submission with one stored dependency ID, and the workers that
    run queue heads. Interleavings of whole transactions are runs of a transition system. */
module DDLQueue {
  import opened Wrappers

  datatype ActionType = AddIndex | AddPrimaryKey | DropSchema | CreateSchema | RenameTable | OtherAction(code: int)

  datatype JobState = Queueing | Running | Rollingback | RollbackDone | Done | Cancelled | Synced | Cancelling

  /** 'oldSchema' is the argument of a rename, None when it does not decode. */
  datatype Job = Job(id: int, tp: ActionType, schemaID: int, tableID: int, oldSchema: Option<int>, dependencyID: int,
                     state: JobState)

  const NONE_DEPENDENCY_JOB := 0

  // ---------- dependence between jobs ----------

  /** None is a failure to decode the rename's arguments. */
  function HasDependentSchema(job: Job, other: Job): Option<bool> {
    if other.tp != DropSchema && other.tp != CreateSchema then Some(false)
    else if other.schemaID == job.schemaID then Some(true)
    else if job.tp != RenameTable then Some(false)
    else if job.oldSchema.None? then None
    else Some(other.schemaID == job.oldSchema.value)
  }

  function IsDependentOn(job: Job, other: Job): Option<bool> {
    var d := HasDependentSchema(job, other);
    if d != Some(false) then d
    else
      var e := HasDependentSchema(other, job);
      if e != Some(false) then e else Some(other.tableID == job.tableID)
  }

  predicate SchemaJob(job: Job) {
    job.tp == DropSchema || job.tp == CreateSchema
  }

  /** Two jobs depend on each other when they handle one table, or one database that either of
      them creates or drops; a rename also handles the database it moves the table from. */
  lemma DependenceRule(job: Job, other: Job)
    requires IsDependentOn(job, other).Some?
    ensures IsDependentOn(job, other).value <==>
              || job.tableID == other.tableID
              || ((SchemaJob(job) || SchemaJob(other)) && job.schemaID == other.schemaID)
              || (SchemaJob(other) && job.tp == RenameTable && job.oldSchema == Some(other.schemaID))
              || (SchemaJob(job) && other.tp == RenameTable && other.oldSchema == Some(job.schemaID))
  {
  }

  /** The arguments of the rename matter and do not decode. */
  predicate Undecodable(rename: Job, schema: Job) {
    rename.tp == RenameTable && rename.oldSchema.None? && SchemaJob(schema) && schema.schemaID != rename.schemaID
  }

  /** The dependence is undecided exactly when such arguments are needed to decide it. */
  lemma DependenceFails(job: Job, other: Job)
    ensures IsDependentOn(job, other).None? <==> Undecodable(job, other) || Undecodable(other, job)
  {
  }

  // ---------- the store ----------

  datatype Queue = DefaultQueue | AddIndexQueue

  function QueueOf(tp: ActionType): Queue {
    if tp == AddIndex || tp == AddPrimaryKey then AddIndexQueue else DefaultQueue
  }

  function Opposite(q: Queue): Queue {
    if q == DefaultQueue then AddIndexQueue else DefaultQueue
  }

  datatype Store = Store(globalID: int, defaultJobs: seq<Job>, addIndexJobs: seq<Job>, history: map<int, Job>) {
    function Jobs(q: Queue): seq<Job> {
      if q == DefaultQueue then defaultJobs else addIndexJobs
    }

    function WithJobs(q: Queue, jobs: seq<Job>): Store {
      if q == DefaultQueue then this.(defaultJobs := jobs) else this.(addIndexJobs := jobs)
    }
  }

  /** The largest pending job the current one depends on, looking from the newest down. The
      scan stops there, so an older job that fails to decode goes unnoticed. */
  function Dependency(jobs: seq<Job>, cur: Job): Option<int> {
    if jobs == [] then Some(NONE_DEPENDENCY_JOB)
    else
      var last := jobs[|jobs| - 1];
      if cur.id < last.id then Dependency(jobs[..|jobs| - 1], cur)
      else
        var d := IsDependentOn(cur, last);
        if d.None? then None
        else if d.value then Some(last.id)
        else Dependency(jobs[..|jobs| - 1], cur)
  }

  /** The pending jobs the current one depends on. */
  ghost function Needed(s: Store, cur: Job): set<int> {
    set q, k | q in {DefaultQueue, AddIndexQueue} && 0 <= k < |s.Jobs(q)| &&
    IsDependentOn(cur, s.Jobs(q)[k]) == Some(true) :: s.Jobs(q)[k].id
  }

  predicate Ascending(jobs: seq<Job>) {
    forall i, j :: 0 <= i < j < |jobs| ==> jobs[i].id < jobs[j].id
  }

  lemma {:induction false} DependencyIsLargest(jobs: seq<Job>, cur: Job)
    requires Ascending(jobs)
    requires forall k :: 0 <= k < |jobs| ==> 0 < jobs[k].id < cur.id
    requires Dependency(jobs, cur).Some?
    ensures Dependency(jobs, cur).value != NONE_DEPENDENCY_JOB ==>
              exists k ::
                0 <= k < |jobs| && jobs[k].id == Dependency(jobs, cur).value &&
                IsDependentOn(cur, jobs[k]) == Some(true)
    ensures forall k :: 0 <= k < |jobs| && IsDependentOn(cur, jobs[k]) == Some(true) ==>
              NONE_DEPENDENCY_JOB < jobs[k].id <= Dependency(jobs, cur).value
  {
    if jobs != [] && IsDependentOn(cur, jobs[|jobs| - 1]) == Some(false) {
      DependencyIsLargest(jobs[..|jobs| - 1], cur);
    }
  }

  // ---------- the transactions ----------

  function AddJob(s: Store, job: Job): Store {
    var cur := job.(id := s.globalID + 1, dependencyID := NONE_DEPENDENCY_JOB);
    var q := QueueOf(job.tp);
    match Dependency(s.Jobs(Opposite(q)), cur)
    case None => s
    case Some(d) => s.(globalID := s.globalID + 1).WithJobs(q, s.Jobs(q) + [cur.(dependencyID := d)])
  }

  predicate DependencyDone(s: Store, job: Job) {
    job.dependencyID == NONE_DEPENDENCY_JOB || job.dependencyID in s.history
  }

  function Finish(s: Store, q: Queue, job: Job): Store
    requires s.Jobs(q) != []
  {
    s.WithJobs(q, s.Jobs(q)[1..]).(history := s.history[job.id := job])
  }

  /** What the environment decides about running a job: the state it reaches and whether
      writing it back succeeds, fails for its size, or fails otherwise. */
  datatype Outcome = Outcome(state: JobState, write: Write)

  datatype Write = Written | TooLarge | Failed

  /** The head of the queue gets past the dependency and first-round checks. */
  predicate Admitted(s: Store, q: Queue, owner: bool, once: bool) {
    owner && s.Jobs(q) != [] && DependencyDone(s, s.Jobs(q)[0]) && !once
  }

  predicate IsFinished(st: JobState) {
    st == Done || st == RollbackDone || st == Cancelled
  }

  /** One transaction of the worker of queue 'q'. */
  function Handle(s: Store, q: Queue, owner: bool, once: bool, out: Outcome): Store {
    if !Admitted(s, q, owner, once) then s
    else
      var job := s.Jobs(q)[0].(dependencyID := NONE_DEPENDENCY_JOB);
      if job.state == Done || job.state == RollbackDone then
        Finish(s, q, if job.state == Done then job.(state := Synced) else job)
      else
        var ran := if IsFinished(job.state) then job else job.(state := out.state);
        if ran.state == Cancelled then Finish(s, q, ran)
        else match out.write
          case Written => s.WithJobs(q, s.Jobs(q)[0 := ran])
          case TooLarge => Finish(s, q, ran.(state := Cancelled))
          case Failed => s
  }

  /** A client asks for the k-th job of a queue to be cancelled. */
  function Cancel(s: Store, q: Queue, k: nat): Store {
    if k < |s.Jobs(q)| && s.Jobs(q)[k].state in {Queueing, Running, Cancelling}
    then s.WithJobs(q, s.Jobs(q)[k := s.Jobs(q)[k].(state := Cancelling)])
    else s
  }

  // ---------- runs ----------

  datatype Action =
    | Submit(job: Job)
    | Work(q: Queue, owner: bool, once: bool, out: Outcome)
    | CancelJob(cq: Queue, k: nat)
    | TakeIDs(n: nat)

  /** The store with history variables: for each submitted job the pending jobs it depended on
      when it was submitted, the jobs that a worker has started, the jobs as they were
      submitted, and the state in which each job that left its queue was last pending. */
  datatype System = System(store: Store, needs: map<int, set<int>>, started: set<int>, submitted: map<int, Job>,
                           left: map<int, JobState>)

  ghost function Do(y: System, a: Action): System {
    var s := y.store;
    match a
    case Submit(job) =>
      var cur := job.(id := s.globalID + 1, dependencyID := NONE_DEPENDENCY_JOB);
      if Dependency(s.Jobs(Opposite(QueueOf(job.tp))), cur).None? then y
      else
        y.(store := AddJob(s, job), needs := y.needs[cur.id := Needed(s, cur)], submitted := y.submitted[cur.id := cur])
    case Work(q, owner, once, out) =>
      var s' := Handle(s, q, owner, once, out);
      y.(store := s',
         started := if Admitted(s, q, owner, once) then y.started + {s.Jobs(q)[0].id} else y.started,
         left := if |s'.Jobs(q)| < |s.Jobs(q)| then y.left[s.Jobs(q)[0].id := s.Jobs(q)[0].state] else y.left)
    case CancelJob(q, k) => y.(store := Cancel(s, q, k))
    case TakeIDs(n) => y.(store := s.(globalID := s.globalID + n))
  }

  ghost function Run(y: System, actions: seq<Action>): System
    decreases |actions|
  {
    if actions == [] then y else Run(Do(y, actions[0]), actions[1..])
  }

  const EMPTY := System(Store(0, [], [], map[]), map[], {}, map[], map[])

  // ---------- the invariant ----------

  ghost predicate InQueue(jobs: seq<Job>, d: int) {
    exists k :: 0 <= k < |jobs| && jobs[k].id == d
  }

  /** Job 'd' was submitted to queue 'q'. */
  ghost predicate BelongsTo(s: Store, q: Queue, d: int) {
    (d in s.history && QueueOf(s.history[d].tp) == q) || InQueue(s.Jobs(q), d)
  }

  ghost predicate JobOK(s: Store, q: Queue, job: Job) {
    && QueueOf(job.tp) == q && 0 < job.id <= s.globalID && job.id !in s.history
    && (job.dependencyID != NONE_DEPENDENCY_JOB ==>
          0 < job.dependencyID < job.id && BelongsTo(s, Opposite(q), job.dependencyID))
    && (forall h :: h in s.history && QueueOf(s.history[h].tp) == q ==> h < job.id)
  }

  ghost predicate QueueOK(s: Store, q: Queue) {
    Ascending(s.Jobs(q)) && forall k :: 0 <= k < |s.Jobs(q)| ==> JobOK(s, q, s.Jobs(q)[k])
  }

  ghost predicate QueuesApart(s: Store) {
    forall d :: !(InQueue(s.defaultJobs, d) && InQueue(s.addIndexJobs, d))
  }

  ghost predicate HistoryOK(s: Store) {
    0 <= s.globalID && forall h :: h in s.history ==> 0 < h <= s.globalID && s.history[h].id == h
  }

  /** Each job a pending one needs is finished, ahead of it, or no later than its dependency. */
  ghost predicate NeedOK(s: Store, q: Queue, job: Job, d: int) {
    d in s.history || (InQueue(s.Jobs(q), d) && d < job.id) ||
    (InQueue(s.Jobs(Opposite(q)), d) && d <= job.dependencyID)
  }

  ghost predicate NeedsOK(y: System, q: Queue) {
    forall k :: 0 <= k < |y.store.Jobs(q)| ==>
      var job := y.store.Jobs(q)[k];
      job.id in y.needs && forall d :: d in y.needs[job.id] ==> NeedOK(y.store, q, job, d)
  }

  /** No job is lost: what was submitted is pending or in the history. */
  ghost predicate Conserved(y: System) {
    forall d ::
      d in y.needs <==> d in y.store.history || InQueue(y.store.defaultJobs, d) || InQueue(y.store.addIndexJobs, d)
  }

  ghost predicate StartedOK(y: System) {
    forall r :: r in y.started ==> r in y.needs && forall d :: d in y.needs[r] ==> d in y.store.history
  }

  ghost predicate Inv(y: System) {
    && HistoryOK(y.store) && QueueOK(y.store, DefaultQueue) && QueueOK(y.store, AddIndexQueue)
    && QueuesApart(y.store) && NeedsOK(y, DefaultQueue) && NeedsOK(y, AddIndexQueue) && Conserved(y) && StartedOK(y)
  }

  // ---------- safety ----------

  /** What every job the admitted head needs is: finished. Only the largest of its dependencies
      in the other queue is stored; the others are ahead of that one there. */
  lemma HeadNeedsDone(y: System, q: Queue, d: int)
    requires Inv(y) && y.store.Jobs(q) != [] && DependencyDone(y.store, y.store.Jobs(q)[0])
    requires d in y.needs[y.store.Jobs(q)[0].id]
    ensures d in y.store.history
  {
    var s := y.store;
    var job := s.Jobs(q)[0];
    assert QueueOK(s, Opposite(q)) && QueueOK(s, q);
    assert JobOK(s, q, job) && NeedOK(s, q, job, d);
  }

  /** Whichever queue is not empty, one of the two heads can go on. */
  lemma SomeHeadIsReady(y: System)
    requires Inv(y) && (y.store.defaultJobs != [] || y.store.addIndexJobs != [])
    ensures exists q :: y.store.Jobs(q) != [] && DependencyDone(y.store, y.store.Jobs(q)[0])
  {
    var s := y.store;
    var a, b := s.Jobs(DefaultQueue), s.Jobs(AddIndexQueue);
    var q := if b == [] || (a != [] && a[0].id < b[0].id) then DefaultQueue else AddIndexQueue;
    var job := s.Jobs(q)[0];
    assert JobOK(s, q, job);
    assert DependencyDone(s, job);
  }

  // ---------- every transaction keeps the invariant ----------

  /** Nothing leaves the history, and what leaves a queue enters it. */
  ghost predicate Evolves(s: Store, s': Store) {
    && s.globalID <= s'.globalID
    && (forall h :: h in s.history ==> h in s'.history && s'.history[h] == s.history[h])
    && (forall q, d ::
          InQueue(s.Jobs(q), d) ==> InQueue(s'.Jobs(q), d) || (d in s'.history && QueueOf(s'.history[d].tp) == q))
  }

  lemma JobStaysOK(s: Store, s': Store, q: Queue, job: Job)
    requires Evolves(s, s') && JobOK(s, q, job) && job.id !in s'.history
    requires forall h :: h in s'.history && h !in s.history && QueueOf(s'.history[h].tp) == q ==> h < job.id
    ensures JobOK(s', q, job)
  {
  }

  lemma NeedStaysOK(s: Store, s': Store, q: Queue, job: Job, d: int)
    requires Evolves(s, s') && NeedOK(s, q, job, d)
    ensures NeedOK(s', q, job, d)
  {
  }

  lemma InQueueAppend(jobs: seq<Job>, job: Job, d: int)
    ensures InQueue(jobs + [job], d) <==> InQueue(jobs, d) || d == job.id
  {
    if InQueue(jobs, d) {
      var k :| 0 <= k < |jobs| && jobs[k].id == d;
      assert (jobs + [job])[k].id == d;
    }
    assert (jobs + [job])[|jobs|] == job;
  }

  lemma InQueueReplace(jobs: seq<Job>, k: nat, job: Job, d: int)
    requires k < |jobs| && job.id == jobs[k].id
    ensures InQueue(jobs[k := job], d) <==> InQueue(jobs, d)
  {
    if InQueue(jobs, d) {
      var i :| 0 <= i < |jobs| && jobs[i].id == d;
      assert jobs[k := job][i].id == d;
    }
  }

  lemma InQueueTail(jobs: seq<Job>, d: int)
    requires jobs != []
    ensures InQueue(jobs, d) <==> d == jobs[0].id || InQueue(jobs[1..], d)
  {
    if InQueue(jobs, d) && d != jobs[0].id {
      var k :| 0 <= k < |jobs| && jobs[k].id == d;
      assert jobs[1..][k - 1].id == d;
    }
    if InQueue(jobs[1..], d) {
      var k :| 0 <= k < |jobs[1..]| && jobs[1..][k].id == d;
      assert jobs[k + 1].id == d;
    }
  }

  // submission

  lemma AppendEvolves(s: Store, q: Queue, job: Job, s': Store)
    requires s' == s.(globalID := s.globalID + 1).WithJobs(q, s.Jobs(q) + [job])
    ensures Evolves(s, s')
    ensures s'.Jobs(q) == s.Jobs(q) + [job] && s'.Jobs(Opposite(q)) == s.Jobs(Opposite(q))
  {
    forall p, d | InQueue(s.Jobs(p), d) ensures InQueue(s'.Jobs(p), d) { InQueueAppend(s.Jobs(q), job, d); }
  }

  lemma OthersStayOK(s: Store, s': Store, q: Queue)
    requires Evolves(s, s') && QueueOK(s, q) && s'.Jobs(q) == s.Jobs(q)
    requires forall h :: h in s'.history && h !in s.history ==> QueueOf(s'.history[h].tp) != q && !InQueue(s.Jobs(q), h)
    ensures QueueOK(s', q)
  {
    forall k | 0 <= k < |s.Jobs(q)| ensures JobOK(s', q, s.Jobs(q)[k]) {
      assert InQueue(s.Jobs(q), s.Jobs(q)[k].id);
      JobStaysOK(s, s', q, s.Jobs(q)[k]);
    }
  }

  lemma OtherNeedsStayOK(y: System, y': System, q: Queue)
    requires Evolves(y.store, y'.store) && NeedsOK(y, q) && y'.store.Jobs(q) == y.store.Jobs(q)
    requires forall k :: 0 <= k < |y.store.Jobs(q)| ==> var id := y.store.Jobs(q)[k].id;
             id in y'.needs && (id in y.needs ==> y'.needs[id] == y.needs[id])
    ensures NeedsOK(y', q)
  {
    hide Evolves;
    forall k, d | 0 <= k < |y.store.Jobs(q)| && d in y.needs[y.store.Jobs(q)[k].id]
      ensures NeedOK(y'.store, q, y.store.Jobs(q)[k], d)
    {
      NeedStaysOK(y.store, y'.store, q, y.store.Jobs(q)[k], d);
    }
  }

  /** The jobs of 'q' in 's'' are those of 's' and one more that is in order. */
  lemma AppendedQueueOK(s: Store, s': Store, q: Queue, job: Job)
    requires Evolves(s, s') && QueueOK(s, q) && s'.Jobs(q) == s.Jobs(q) + [job] && s'.history == s.history
    requires JobOK(s', q, job) && forall k :: 0 <= k < |s.Jobs(q)| ==> s.Jobs(q)[k].id < job.id
    ensures QueueOK(s', q)
  {
    forall k | 0 <= k < |s.Jobs(q)| ensures JobOK(s', q, s.Jobs(q)[k]) { JobStaysOK(s, s', q, s.Jobs(q)[k]); }
  }

  /** Submitted IDs are no larger than the last one handed out. */
  lemma SubmittedBound(y: System, d: int)
    requires Inv(y) && d in y.needs
    ensures 0 < d <= y.store.globalID
  {
  }

  /** A new job's dependency is in the other queue, and it covers all it needs from there. */
  lemma NewJobOK(s: Store, job: Job, cur: Job, d: int)
    requires HistoryOK(s) && QueueOK(s, DefaultQueue) && QueueOK(s, AddIndexQueue)
    requires cur == job.(id := s.globalID + 1, dependencyID := NONE_DEPENDENCY_JOB)
    requires Dependency(s.Jobs(Opposite(QueueOf(job.tp))), cur) == Some(d)
    ensures d != NONE_DEPENDENCY_JOB ==> 0 < d < cur.id && InQueue(s.Jobs(Opposite(QueueOf(job.tp))), d)
    ensures forall n :: n in Needed(s, cur) ==>
              n < cur.id &&
              (InQueue(s.Jobs(QueueOf(job.tp)), n) || (InQueue(s.Jobs(Opposite(QueueOf(job.tp))), n) && n <= d))
  {
    var q := QueueOf(job.tp);
    assert forall k :: 0 <= k < |s.Jobs(q)| ==> JobOK(s, q, s.Jobs(q)[k]);
    assert forall k :: 0 <= k < |s.Jobs(Opposite(q))| ==> JobOK(s, Opposite(q), s.Jobs(Opposite(q))[k]);
    DependencyIsLargest(s.Jobs(Opposite(q)), cur);
    hide Dependency, IsDependentOn, JobOK;
  }

  lemma SubmitKeepsInv(y: System, job: Job)
    requires Inv(y)
    ensures Inv(Do(y, Submit(job)))
  {
    hide QueueOK, NeedsOK, Conserved, StartedOK, QueuesApart, Evolves, InQueue, Needed, Dependency, HistoryOK;
    var s, q, y' := y.store, QueueOf(job.tp), Do(y, Submit(job));
    var cur := job.(id := s.globalID + 1, dependencyID := NONE_DEPENDENCY_JOB);
    if Dependency(s.Jobs(Opposite(q)), cur).Some? {
      var d := Dependency(s.Jobs(Opposite(q)), cur).value;
      NewJobOK(s, job, cur, d);
      var added := cur.(dependencyID := d);
      AppendEvolves(s, q, added, y'.store);
      assert y'.store.history == s.history && y'.store.globalID == added.id;
      AppendKeepsInv(y, y', q, added);
    }
  }

  lemma AppendKeepsInv(y: System, y': System, q: Queue, job: Job)
    requires Inv(y) && Evolves(y.store, y'.store) && QueueOf(job.tp) == q &&
             job.id == y.store.globalID + 1 == y'.store.globalID
    requires y'.store.Jobs(q) == y.store.Jobs(q) + [job] && y'.store.Jobs(Opposite(q)) == y.store.Jobs(Opposite(q))
    requires y'.store.history == y.store.history && y'.started == y.started
    requires job.id in y'.needs && y'.needs == y.needs[job.id := y'.needs[job.id]]
    requires job.dependencyID != NONE_DEPENDENCY_JOB ==>
        0 < job.dependencyID < job.id && InQueue(y.store.Jobs(Opposite(q)), job.dependencyID)
    requires forall n :: n in y'.needs[job.id] ==>
               n < job.id &&
               (InQueue(y.store.Jobs(q), n) || (InQueue(y.store.Jobs(Opposite(q)), n) && n <= job.dependencyID))
    ensures Inv(y')
  {
    var s, s' := y.store, y'.store;
    assert forall d :: d in y.needs ==> d != job.id by {
      forall d | d in y.needs ensures d != job.id { SubmittedBound(y, d); }
    }
    assert QueueOK(s, q) && QueueOK(s, Opposite(q)) && NeedsOK(y, q) && NeedsOK(y, Opposite(q));
    AppendedQueueOK(s, s', q, job);
    OthersStayOK(s, s', Opposite(q));
    OtherNeedsStayOK(y, y', Opposite(q));
    AppendedNeedsOK(y, y', q, job);
    AppendConserves(y, y', q, job);
    AppendKeepsApart(y, s', q, job);
    hide QueueOK, NeedsOK, InQueue, Evolves;
  }

  lemma AppendKeepsApart(y: System, s': Store, q: Queue, job: Job)
    requires Inv(y) && job.id > y.store.globalID
    requires s'.Jobs(q) == y.store.Jobs(q) + [job] && s'.Jobs(Opposite(q)) == y.store.Jobs(Opposite(q))
    ensures QueuesApart(s')
  {
    forall d ensures !(InQueue(s'.defaultJobs, d) && InQueue(s'.addIndexJobs, d)) {
      InQueueAppend(y.store.Jobs(q), job, d);
      if d in y.needs { SubmittedBound(y, d); }
      assert y.store.Jobs(DefaultQueue) == y.store.defaultJobs && y.store.Jobs(AddIndexQueue) == y.store.addIndexJobs;
    }
  }

  lemma AppendConserves(y: System, y': System, q: Queue, job: Job)
    requires Conserved(y) && y'.needs.Keys == y.needs.Keys + {job.id} && y'.store.history == y.store.history
    requires y'.store.Jobs(q) == y.store.Jobs(q) + [job] && y'.store.Jobs(Opposite(q)) == y.store.Jobs(Opposite(q))
    ensures Conserved(y')
  {
    forall d
      ensures InQueue(y'.store.Jobs(q), d) <==> InQueue(y.store.Jobs(q), d) || d == job.id
    {
      InQueueAppend(y.store.Jobs(q), job, d);
    }
    hide InQueue;
  }

  lemma AppendedNeedsOK(y: System, y': System, q: Queue, job: Job)
    requires Evolves(y.store, y'.store) && NeedsOK(y, q) && y'.store.Jobs(q) == y.store.Jobs(q) + [job]
    requires y'.store.Jobs(Opposite(q)) == y.store.Jobs(Opposite(q))
    requires job.id in y'.needs && y'.needs == y.needs[job.id := y'.needs[job.id]] && job.id !in y.needs
    requires forall n :: n in y'.needs[job.id] ==>
               n < job.id &&
               (InQueue(y.store.Jobs(q), n) || (InQueue(y.store.Jobs(Opposite(q)), n) && n <= job.dependencyID))
    ensures NeedsOK(y', q)
  {
    forall k, d | 0 <= k < |y.store.Jobs(q)| && d in y.needs[y.store.Jobs(q)[k].id]
      ensures NeedOK(y'.store, q, y.store.Jobs(q)[k], d)
    {
      NeedStaysOK(y.store, y'.store, q, y.store.Jobs(q)[k], d);
    }
    forall n | n in y'.needs[job.id] ensures NeedOK(y'.store, q, job, n) { InQueueAppend(y.store.Jobs(q), job, n); }
    hide Evolves, NeedOK;
  }

  // running and cancelling

  /** One job of 'q' is replaced by one with the same ID and type that needs nothing more. */
  lemma ReplaceKeepsInv(y: System, y': System, q: Queue, k: nat, job: Job)
    requires Inv(y) && k < |y.store.Jobs(q)| && y'.store == y.store.WithJobs(q, y.store.Jobs(q)[k := job]) &&
             y'.needs == y.needs
    requires job.id == y.store.Jobs(q)[k].id && QueueOf(job.tp) == q
    requires job.dependencyID == y.store.Jobs(q)[k].dependencyID ||
             (job.dependencyID == NONE_DEPENDENCY_JOB && forall d :: d in y.needs[job.id] ==> d in y.store.history)
    requires StartedOK(y')
    ensures Inv(y')
  {
    var s, s' := y.store, y'.store;
    assert s'.Jobs(q) == s.Jobs(q)[k := job] && s'.Jobs(Opposite(q)) == s.Jobs(Opposite(q));
    forall p, d ensures InQueue(s'.Jobs(p), d) <==> InQueue(s.Jobs(p), d) { InQueueReplace(s.Jobs(q), k, job, d); }
    SameQueuesApart(s, s');
    assert Evolves(s, s');
    assert QueueOK(s, q) && QueueOK(s, Opposite(q)) && NeedsOK(y, q) && NeedsOK(y, Opposite(q));
    OthersStayOK(s, s', Opposite(q));
    OtherNeedsStayOK(y, y', Opposite(q));
    ReplacedQueueOK(s, s', q, k, job);
    ReplacedNeedsOK(y, y', q, k, job);
    hide QueueOK, NeedsOK, InQueue, Evolves;
  }

  lemma SameQueuesApart(s: Store, s': Store)
    requires forall q, d :: InQueue(s'.Jobs(q), d) <==> InQueue(s.Jobs(q), d)
    ensures QueuesApart(s) ==> QueuesApart(s')
    ensures forall d ::
        InQueue(s'.defaultJobs, d) == InQueue(s.defaultJobs, d) &&
        InQueue(s'.addIndexJobs, d) == InQueue(s.addIndexJobs, d)
  {
    hide InQueue;
    assert s.Jobs(DefaultQueue) == s.defaultJobs && s.Jobs(AddIndexQueue) == s.addIndexJobs;
    assert s'.Jobs(DefaultQueue) == s'.defaultJobs && s'.Jobs(AddIndexQueue) == s'.addIndexJobs;
  }

  lemma ReplacedQueueOK(s: Store, s': Store, q: Queue, k: nat, job: Job)
    requires Evolves(s, s') && QueueOK(s, q) && k < |s.Jobs(q)| && s'.Jobs(q) == s.Jobs(q)[k := job] &&
             s'.history == s.history
    requires job.id == s.Jobs(q)[k].id && QueueOf(job.tp) == q
    requires job.dependencyID == s.Jobs(q)[k].dependencyID || job.dependencyID == NONE_DEPENDENCY_JOB
    ensures QueueOK(s', q)
  {
    forall i | 0 <= i < |s.Jobs(q)| ensures JobOK(s', q, s'.Jobs(q)[i]) {
      JobStaysOK(s, s', q, s.Jobs(q)[i]);
      hide Evolves, InQueue;
    }
  }

  lemma ReplacedNeedsOK(y: System, y': System, q: Queue, k: nat, job: Job)
    requires Evolves(y.store, y'.store) && NeedsOK(y, q) && y'.needs == y.needs
    requires k < |y.store.Jobs(q)| && y'.store.Jobs(q) == y.store.Jobs(q)[k := job] && job.id == y.store.Jobs(q)[k].id
    requires job.dependencyID == y.store.Jobs(q)[k].dependencyID || forall d ::
        d in y.needs[job.id] ==> d in y.store.history
    ensures NeedsOK(y', q)
  {
    forall i, d | 0 <= i < |y.store.Jobs(q)| && d in y.needs[y.store.Jobs(q)[i].id]
      ensures NeedOK(y'.store, q, y'.store.Jobs(q)[i], d)
    {
      NeedStaysOK(y.store, y'.store, q, y.store.Jobs(q)[i], d);
    }
  }

  /** The head of 'q' moves to the history. */
  lemma FinishKeepsInv(y: System, y': System, q: Queue, job: Job)
    requires Inv(y) && y.store.Jobs(q) != [] && y'.store == Finish(y.store, q, job) && y'.needs == y.needs
    requires job.id == y.store.Jobs(q)[0].id && QueueOf(job.tp) == q
    requires StartedOK(y')
    ensures Inv(y')
  {
    var s, s' := y.store, y'.store;
    assert s'.Jobs(q) == s.Jobs(q)[1..] && s'.Jobs(Opposite(q)) == s.Jobs(Opposite(q));
    forall d ensures InQueue(s.Jobs(q), d) <==> d == job.id || InQueue(s'.Jobs(q), d) { InQueueTail(s.Jobs(q), d); }
    FinishApart(s, s', q, job);
    FinishConserves(y, y', q, job);
    assert Evolves(s, s');
    assert QueueOK(s, q) && QueueOK(s, Opposite(q)) && NeedsOK(y, q) && NeedsOK(y, Opposite(q));
    OthersStayOK(s, s', Opposite(q));
    OtherNeedsStayOK(y, y', Opposite(q));
    FinishedQueueOK(s, s', q, job);
    FinishedNeedsOK(y, y', q);
    hide QueueOK, NeedsOK, InQueue, Evolves;
    assert JobOK(s, q, s.Jobs(q)[0]);
  }

  lemma FinishApart(s: Store, s': Store, q: Queue, job: Job)
    requires QueuesApart(s) && (forall d :: InQueue(s.Jobs(q), d) <==> d == job.id || InQueue(s'.Jobs(q), d))
    requires s'.Jobs(Opposite(q)) == s.Jobs(Opposite(q))
    ensures QueuesApart(s') && !InQueue(s.Jobs(Opposite(q)), job.id)
  {
    hide InQueue;
    assert s.Jobs(DefaultQueue) == s.defaultJobs && s.Jobs(AddIndexQueue) == s.addIndexJobs;
    assert s'.Jobs(DefaultQueue) == s'.defaultJobs && s'.Jobs(AddIndexQueue) == s'.addIndexJobs;
  }

  lemma FinishConserves(y: System, y': System, q: Queue, job: Job)
    requires Conserved(y) && y'.needs == y.needs && y'.store.history.Keys == y.store.history.Keys + {job.id}
    requires forall d :: InQueue(y.store.Jobs(q), d) <==> d == job.id || InQueue(y'.store.Jobs(q), d)
    requires y'.store.Jobs(Opposite(q)) == y.store.Jobs(Opposite(q))
    ensures Conserved(y')
  {
    hide InQueue;
    assert y.store.Jobs(DefaultQueue) == y.store.defaultJobs && y.store.Jobs(AddIndexQueue) == y.store.addIndexJobs;
    assert y'.store.Jobs(DefaultQueue) == y'.store.defaultJobs && y'.store.Jobs(AddIndexQueue) == y'.store.addIndexJobs;
  }

  lemma FinishedQueueOK(s: Store, s': Store, q: Queue, job: Job)
    requires Evolves(s, s') && QueueOK(s, q) && s.Jobs(q) != [] && s'.Jobs(q) == s.Jobs(q)[1..]
    requires job.id == s.Jobs(q)[0].id && s'.history == s.history[job.id := job]
    ensures QueueOK(s', q)
  {
    forall i | 0 <= i < |s'.Jobs(q)| ensures JobOK(s', q, s'.Jobs(q)[i]) {
      assert s'.Jobs(q)[i] == s.Jobs(q)[i + 1];
      JobStaysOK(s, s', q, s.Jobs(q)[i + 1]);
    }
  }

  lemma FinishedNeedsOK(y: System, y': System, q: Queue)
    requires Evolves(y.store, y'.store) && NeedsOK(y, q) && y'.needs == y.needs
    requires y.store.Jobs(q) != [] && y'.store.Jobs(q) == y.store.Jobs(q)[1..]
    ensures NeedsOK(y', q)
  {
    forall i, d | 0 <= i < |y'.store.Jobs(q)| && d in y.needs[y.store.Jobs(q)[i + 1].id]
      ensures NeedOK(y'.store, q, y'.store.Jobs(q)[i], d)
    {
      NeedStaysOK(y.store, y'.store, q, y.store.Jobs(q)[i + 1], d);
    }
  }

  lemma WorkKeepsInv(y: System, a: Action)
    requires Inv(y) && a.Work?
    ensures Inv(Do(y, a))
  {
    var s, q, y' := y.store, a.q, Do(y, a);
    WorkStarts(y, a);
    var e := HandleEffect(s, q, a.owner, a.once, a.out);
    if !e.Nothing? { assert JobOK(s, q, s.Jobs(q)[0]) by { assert QueueOK(s, q); } }
    hide Inv, StartedOK, Handle, Admitted;
    match e
    case Nothing => StartedKeepsInv(y, y');
    case Rewritten(ran) => ReplaceKeepsInv(y, y', q, 0, ran);
    case Moved(job) => FinishKeepsInv(y, y', q, job);
  }

  /** A worker starts the head only when all it needs is finished. */
  lemma WorkStarts(y: System, a: Action)
    requires Inv(y) && a.Work?
    ensures StartedOK(Do(y, a))
  {
    var s, q, y' := y.store, a.q, Do(y, a);
    var e := HandleEffect(s, q, a.owner, a.once, a.out);
    hide Handle;
    assert forall h :: h in s.history ==> h in y'.store.history;
    if Admitted(s, q, a.owner, a.once) {
      var head := s.Jobs(q)[0];
      assert NeedsOK(y, q) && head.id in y.needs;
      forall d | d in y.needs[head.id] ensures d in s.history { HeadNeedsDone(y, q, d); }
    }
  }

  lemma StartedKeepsInv(y: System, y': System)
    requires Inv(y) && y'.store == y.store && y'.needs == y.needs && StartedOK(y')
    ensures Inv(y')
  {
    hide QueueOK, StartedOK, InQueue, HistoryOK, QueuesApart;
  }

  lemma StepKeepsInv(y: System, a: Action)
    requires Inv(y)
    ensures Inv(Do(y, a))
  {
    match a
    case Submit(job) => SubmitKeepsInv(y, job);
    case Work(_, _, _, _) => WorkKeepsInv(y, a);
    case CancelJob(q, k) => CancelKeepsInv(y, q, k);
    case TakeIDs(n) => TakeIDsKeepsInv(y, n);
  }

  lemma CancelKeepsInv(y: System, q: Queue, k: nat)
    requires Inv(y)
    ensures Inv(Do(y, CancelJob(q, k)))
  {
    var s' := Cancel(y.store, q, k);
    if s' != y.store {
      assert JobOK(y.store, q, y.store.Jobs(q)[k]);
      assert StartedOK(Do(y, CancelJob(q, k)));
      hide Inv, StartedOK;
      ReplaceKeepsInv(y, Do(y, CancelJob(q, k)), q, k, y.store.Jobs(q)[k].(state := Cancelling));
    }
  }

  lemma TakeIDsKeepsInv(y: System, n: nat)
    requires Inv(y)
    ensures Inv(Do(y, TakeIDs(n)))
  {
    var s, s' := y.store, Do(y, TakeIDs(n)).store;
    assert s'.Jobs(DefaultQueue) == s.Jobs(DefaultQueue) && s'.Jobs(AddIndexQueue) == s.Jobs(AddIndexQueue);
    assert Evolves(s, s') by { hide InQueue; }
    OthersStayOK(s, s', DefaultQueue);
    OthersStayOK(s, s', AddIndexQueue);
    OtherNeedsStayOK(y, Do(y, TakeIDs(n)), DefaultQueue);
    OtherNeedsStayOK(y, Do(y, TakeIDs(n)), AddIndexQueue);
    hide QueueOK, NeedsOK, Evolves, InQueue;
  }

  lemma {:induction false} RunKeepsInv(y: System, actions: seq<Action>)
    requires Inv(y)
    ensures Inv(Run(y, actions))
    decreases |actions|
  {
    hide Inv, Do;
    if actions != [] {
      StepKeepsInv(y, actions[0]);
      RunKeepsInv(Do(y, actions[0]), actions[1..]);
    }
  }

  // ---------- what the history records ----------

  predicate SameJob(job: Job, other: Job) {
    && job.id == other.id && job.tp == other.tp && job.schemaID == other.schemaID && job.tableID == other.tableID
    && job.oldSchema == other.oldSchema
  }

  ghost predicate PendingRecorded(y: System, q: Queue) {
    forall k :: 0 <= k < |y.store.Jobs(q)| ==>
      var job := y.store.Jobs(q)[k]; job.id in y.submitted && SameJob(job, y.submitted[job.id])
  }

  /** A job in the history is the one submitted, and its state says how it was last pending. */
  ghost predicate Recorded(y: System, id: int) {
    && id in y.store.history && id in y.submitted && id in y.left
    && SameJob(y.store.history[id], y.submitted[id])
    && (y.store.history[id].state == Synced <==> y.left[id] == Done)
    && (y.store.history[id].state == RollbackDone <==> y.left[id] == RollbackDone)
    && (y.store.history[id].state == Cancelled <==> y.left[id] != Done && y.left[id] != RollbackDone)
  }

  ghost predicate RecordsOK(y: System) {
    && PendingRecorded(y, DefaultQueue) && PendingRecorded(y, AddIndexQueue)
    && forall id :: id in y.store.history ==> Recorded(y, id)
  }

  lemma SubmitKeepsRecords(y: System, job: Job)
    requires Inv(y) && RecordsOK(y)
    ensures RecordsOK(Do(y, Submit(job)))
  {
    var s, y', q := y.store, Do(y, Submit(job)), QueueOf(job.tp);
    if y' != y {
      var id := s.globalID + 1;
      assert y'.store.Jobs(q) == s.Jobs(q) + [y'.store.Jobs(q)[|s.Jobs(q)|]];
      OldIDs(s);
      hide Inv, AddJob, Dependency, Needed, QueueOf;
      AppendKeepsRecords(y, y', q, y'.store.Jobs(q)[|s.Jobs(q)|], id);
    }
  }

  lemma OldIDs(s: Store)
    requires HistoryOK(s) && QueueOK(s, DefaultQueue) && QueueOK(s, AddIndexQueue)
    ensures s.globalID + 1 !in s.history
    ensures forall q, k :: 0 <= k < |s.Jobs(q)| ==> s.Jobs(q)[k].id != s.globalID + 1
  {
    forall q, k | 0 <= k < |s.Jobs(q)| ensures s.Jobs(q)[k].id != s.globalID + 1 { assert JobOK(s, q, s.Jobs(q)[k]); }
  }

  lemma AppendKeepsRecords(y: System, y': System, q: Queue, job: Job, id: int)
    requires RecordsOK(y) && id !in y.store.history && job.id == id
    requires forall p, k :: 0 <= k < |y.store.Jobs(p)| ==> y.store.Jobs(p)[k].id != id
    requires y'.store.Jobs(q) == y.store.Jobs(q) + [job] && y'.store.Jobs(Opposite(q)) == y.store.Jobs(Opposite(q))
    requires y'.store.history == y.store.history && y'.left == y.left
    requires id in y'.submitted && SameJob(job, y'.submitted[id]) && y'.submitted == y.submitted[id := y'.submitted[id]]
    ensures RecordsOK(y')
  {
    assert PendingRecorded(y, q) && PendingRecorded(y, Opposite(q));
    assert PendingRecorded(y', Opposite(q));
    assert PendingRecorded(y', q);
    forall h | h in y'.store.history ensures Recorded(y', h) { assert Recorded(y, h); }
  }

  /** A transaction changes nothing, rewrites the head's state, or moves the head to the history. */
  datatype Effect = Nothing | Rewritten(ran: Job) | Moved(recorded: Job)

  ghost predicate HasEffect(s: Store, q: Queue, s': Store, e: Effect) {
    match e
    case Nothing => s' == s
    case Rewritten(ran) =>
      s.Jobs(q) != [] && SameJob(ran, s.Jobs(q)[0]) && s' == s.WithJobs(q, s.Jobs(q)[0 := ran])
    case Moved(job) =>
      && s.Jobs(q) != [] && SameJob(job, s.Jobs(q)[0])
      && s' == s.WithJobs(q, s.Jobs(q)[1..]).(history := s.history[job.id := job])
      && var was := s.Jobs(q)[0].state;
         job.state == if was == Done then Synced else if was == RollbackDone then RollbackDone else Cancelled
  }

  /** Which of these happens. A head that has not come to its end first reaches the state that
      running it yields. */
  lemma HandleEffect(s: Store, q: Queue, owner: bool, once: bool, out: Outcome) returns (e: Effect)
    ensures HasEffect(s, q, Handle(s, q, owner, once, out), e)
    ensures Held(s, q, owner, once) ==> e.Nothing?
    ensures !Held(s, q, owner, once) ==>
              var was := s.Jobs(q)[0].state;
              && (was == Done || was == RollbackDone ==> e.Moved?)
              && (was != Done && was != RollbackDone ==>
                    if was == Cancelled || out.state == Cancelled || out.write == TooLarge then e.Moved?
                    else if out.write == Failed then e.Nothing?
                    else (e.Nothing? && s.Jobs(q)[0] == s.Jobs(q)[0].(state := out.state, dependencyID := 0)) ||
                         (e.Rewritten? && e.ran == s.Jobs(q)[0].(state := out.state, dependencyID := 0)))
  {
    var s' := Handle(s, q, owner, once, out);
    if s' == s {
      e := Nothing;
    } else if |s'.Jobs(q)| < |s.Jobs(q)| {
      e := Moved(s'.history[s.Jobs(q)[0].id]);
    } else {
      e := Rewritten(s'.Jobs(q)[0]);
    }
  }

  /** The worker leaves the queue alone. */
  predicate Held(s: Store, q: Queue, owner: bool, once: bool) {
    !owner || once || s.Jobs(q) == [] || (s.Jobs(q)[0].dependencyID != 0 && s.Jobs(q)[0].dependencyID !in s.history)
  }

  lemma WorkKeepsRecords(y: System, a: Action)
    requires Inv(y) && RecordsOK(y) && a.Work?
    ensures RecordsOK(Do(y, a))
  {
    var s, q, y' := y.store, a.q, Do(y, a);
    var e := HandleEffect(s, q, a.owner, a.once, a.out);
    hide Handle, Admitted;
    if e.Nothing? {
      forall h | h in s.history ensures Recorded(y', h) { assert Recorded(y, h); }
    } else {
      assert QueueOK(s, q) && JobOK(s, q, s.Jobs(q)[0]);
      hide Inv;
      if e.Moved? { MovedKeepsRecords(y, y', q, e); } else { RewrittenKeepsRecords(y, y', q, 0, e.ran); }
    }
  }

  lemma MovedKeepsRecords(y: System, y': System, q: Queue, e: Effect)
    requires RecordsOK(y) && e.Moved? && HasEffect(y.store, q, y'.store, e) && y.store.Jobs(q)[0].id !in y.store.history
    requires y'.submitted == y.submitted && y'.left == y.left[y.store.Jobs(q)[0].id := y.store.Jobs(q)[0].state]
    ensures RecordsOK(y')
  {
    assert PendingRecorded(y, q) && PendingRecorded(y, Opposite(q));
    assert y'.store.Jobs(Opposite(q)) == y.store.Jobs(Opposite(q));
    assert y'.store.Jobs(q) == y.store.Jobs(q)[1..];
    forall k | 0 <= k < |y'.store.Jobs(q)|
      ensures var j := y'.store.Jobs(q)[k]; j.id in y'.submitted && SameJob(j, y'.submitted[j.id])
    {
      assert y'.store.Jobs(q)[k] == y.store.Jobs(q)[k + 1];
    }
    assert PendingRecorded(y', q) && PendingRecorded(y', Opposite(q));
    forall h | h in y'.store.history ensures Recorded(y', h) {
      if h != e.recorded.id { assert Recorded(y, h); }
    }
  }

  lemma RewrittenKeepsRecords(y: System, y': System, q: Queue, k: nat, ran: Job)
    requires RecordsOK(y) && k < |y.store.Jobs(q)| && SameJob(ran, y.store.Jobs(q)[k])
    requires y'.store == y.store.WithJobs(q, y.store.Jobs(q)[k := ran])
    requires y'.submitted == y.submitted && y'.left == y.left
    ensures RecordsOK(y')
  {
    assert PendingRecorded(y, q) && PendingRecorded(y, Opposite(q));
    assert y'.store.Jobs(Opposite(q)) == y.store.Jobs(Opposite(q));
    assert y'.store.Jobs(q) == y.store.Jobs(q)[k := ran];
    assert PendingRecorded(y', q) && PendingRecorded(y', Opposite(q));
    forall h | h in y'.store.history ensures Recorded(y', h) { assert Recorded(y, h); }
  }

  lemma CancelKeepsRecords(y: System, q: Queue, k: nat)
    requires RecordsOK(y)
    ensures RecordsOK(Do(y, CancelJob(q, k)))
  {
    var y' := Do(y, CancelJob(q, k));
    if y'.store != y.store {
      hide RecordsOK;
      RewrittenKeepsRecords(y, y', q, k, y.store.Jobs(q)[k].(state := Cancelling));
    }
  }

  lemma StepKeepsRecords(y: System, a: Action)
    requires Inv(y) && RecordsOK(y)
    ensures RecordsOK(Do(y, a))
  {
    match a
    case Submit(job) => SubmitKeepsRecords(y, job);
    case Work(_, _, _, _) => WorkKeepsRecords(y, a);
    case CancelJob(q, k) => CancelKeepsRecords(y, q, k);
    case TakeIDs(n) =>
      var y' := Do(y, a);
      forall h | h in y'.store.history ensures Recorded(y', h) { assert Recorded(y, h); }
  }

  lemma {:induction false} RunKeepsRecords(y: System, actions: seq<Action>)
    requires Inv(y) && RecordsOK(y)
    ensures RecordsOK(Run(y, actions))
    decreases |actions|
  {
    hide Inv, Do, RecordsOK;
    if actions != [] {
      StepKeepsInv(y, actions[0]);
      StepKeepsRecords(y, actions[0]);
      RunKeepsRecords(Do(y, actions[0]), actions[1..]);
    }
  }

  /** A job that is done stays so until the history has it as synced. */
  ghost predicate EndsAs(s: Store, id: int, pending: JobState, recorded: JobState) {
    || (id in s.history && s.history[id].state == recorded)
    || exists q, k :: 0 <= k < |s.Jobs(q)| && s.Jobs(q)[k].id == id && s.Jobs(q)[k].state == pending
  }

  lemma StepKeepsEnd(y: System, a: Action, id: int, pending: JobState)
    requires Inv(y) && pending in {Done, RollbackDone}
    requires EndsAs(y.store, id, pending, if pending == Done then Synced else RollbackDone)
    ensures EndsAs(Do(y, a).store, id, pending, if pending == Done then Synced else RollbackDone)
  {
    if a.Work? {
      if id in y.store.history {
        WorkKeepsHistory(y, a, id);
      } else {
        hide Inv, Handle;
        var q, k :| 0 <= k < |y.store.Jobs(q)| && y.store.Jobs(q)[k].id == id && y.store.Jobs(q)[k].state == pending;
        WorkKeepsEnd(y.store, a, q, k);
      }
    } else {
      hide Inv;
      OthersKeepEnd(y, a, id, pending);
    }
  }

  lemma OthersKeepEnd(y: System, a: Action, id: int, pending: JobState)
    requires !a.Work? && pending in {Done, RollbackDone}
    requires EndsAs(y.store, id, pending, if pending == Done then Synced else RollbackDone)
    ensures EndsAs(Do(y, a).store, id, pending, if pending == Done then Synced else RollbackDone)
  {
    var s, s' := y.store, Do(y, a).store;
    OthersKeepHistory(y, a);
    if !(id in s.history && s.history[id].state == if pending == Done then Synced else RollbackDone) {
      var q, k :| 0 <= k < |s.Jobs(q)| && s.Jobs(q)[k].id == id && s.Jobs(q)[k].state == pending;
      OthersKeepJob(y, a, q, k);
      hide Do;
      assert s'.Jobs(q)[k].id == id && s'.Jobs(q)[k].state == pending;
    }
  }

  lemma OthersKeepHistory(y: System, a: Action)
    requires !a.Work?
    ensures Do(y, a).store.history == y.store.history
  {
    hide Dependency, Needed;
  }

  lemma OthersKeepJob(y: System, a: Action, q: Queue, k: nat)
    requires !a.Work? && k < |y.store.Jobs(q)| && y.store.Jobs(q)[k].state in {Done, RollbackDone}
    ensures k < |Do(y, a).store.Jobs(q)| && Do(y, a).store.Jobs(q)[k] == y.store.Jobs(q)[k]
  {
    hide Dependency, Needed;
  }

  lemma WorkKeepsHistory(y: System, a: Action, id: int)
    requires Inv(y) && a.Work? && id in y.store.history
    ensures id in Do(y, a).store.history && Do(y, a).store.history[id] == y.store.history[id]
  {
    var s := y.store;
    var e := HandleEffect(s, a.q, a.owner, a.once, a.out);
    if e.Moved? { assert JobOK(s, a.q, s.Jobs(a.q)[0]) by { assert QueueOK(s, a.q); } }
  }

  lemma WorkKeepsEnd(s: Store, a: Action, q: Queue, k: nat)
    requires a.Work? && k < |s.Jobs(q)| && s.Jobs(q)[k].state in {Done, RollbackDone}
    ensures var st := s.Jobs(q)[k].state;
            EndsAs(Handle(s, a.q, a.owner, a.once, a.out), s.Jobs(q)[k].id, st, if st == Done then Synced
                     else RollbackDone)
  {
    var s' := Handle(s, a.q, a.owner, a.once, a.out);
    var e := HandleEffect(s, a.q, a.owner, a.once, a.out);
    hide Handle;
    if e.Moved? && a.q == q {
      if k > 0 { assert s'.Jobs(q)[k - 1] == s.Jobs(q)[k]; }
    } else if e.Rewritten? && a.q == q {
      assert k > 0 && s'.Jobs(q)[k] == s.Jobs(q)[k];
    } else {
      assert s'.Jobs(q)[k] == s.Jobs(q)[k];
    }
  }

  // ---------- theorems over all runs ----------

  /** In every run a job pending as done is recorded as synced and as nothing else, whatever is
      cancelled or fails in between; and likewise a job that was rolled back. */
  lemma {:induction false} EndIsFinal(y: System, actions: seq<Action>, id: int, pending: JobState)
    requires Inv(y) && pending in {Done, RollbackDone}
    requires EndsAs(y.store, id, pending, if pending == Done then Synced else RollbackDone)
    ensures EndsAs(Run(y, actions).store, id, pending, if pending == Done then Synced else RollbackDone)
    decreases |actions|
  {
    hide Inv, Do, EndsAs;
    if actions != [] {
      StepKeepsInv(y, actions[0]);
      StepKeepsEnd(y, actions[0], id, pending);
      EndIsFinal(Do(y, actions[0]), actions[1..], id, pending);
    }
  }

  /** In every run the history has each job as it was submitted: synced exactly when it was done
      when it left its queue, rolled back exactly when it was rolled back then, and cancelled
      otherwise. Index jobs wait in one queue and all others in the other. */
  lemma HistoryTellsOutcome(actions: seq<Action>, id: int)
    ensures var y := Run(EMPTY, actions); id in y.store.history ==> Recorded(y, id)
    ensures forall k :: 0 <= k < |Run(EMPTY, actions).store.addIndexJobs| ==>
              Run(EMPTY, actions).store.addIndexJobs[k].tp in {AddIndex, AddPrimaryKey}
    ensures forall k :: 0 <= k < |Run(EMPTY, actions).store.defaultJobs| ==>
              Run(EMPTY, actions).store.defaultJobs[k].tp !in {AddIndex, AddPrimaryKey}
  {
    EmptyInv();
    RunKeepsInv(EMPTY, actions);
    assert RecordsOK(EMPTY);
    RunKeepsRecords(EMPTY, actions);
    var s := Run(EMPTY, actions).store;
    hide Run;
    forall k | 0 <= k < |s.addIndexJobs| ensures s.addIndexJobs[k].tp in {AddIndex, AddPrimaryKey} {
      assert JobOK(s, AddIndexQueue, s.Jobs(AddIndexQueue)[k]);
    }
    forall k | 0 <= k < |s.defaultJobs| ensures s.defaultJobs[k].tp !in {AddIndex, AddPrimaryKey} {
      assert JobOK(s, DefaultQueue, s.Jobs(DefaultQueue)[k]);
    }
  }

  lemma EmptyInv()
    ensures Inv(EMPTY)
  {
  }

  /** What a job needs is fixed when it is submitted. */
  lemma StepKeepsNeeds(y: System, a: Action, id: int)
    requires Inv(y) && id in y.needs
    ensures id in Do(y, a).needs && Do(y, a).needs[id] == y.needs[id]
  {
    SubmittedBound(y, id);
  }

  lemma {:induction false} RunKeepsNeeds(y: System, actions: seq<Action>, id: int)
    requires Inv(y) && id in y.needs
    ensures id in Run(y, actions).needs && Run(y, actions).needs[id] == y.needs[id]
    decreases |actions|
  {
    hide Inv, Do;
    if actions != [] {
      StepKeepsNeeds(y, actions[0], id);
      StepKeepsInv(y, actions[0]);
      RunKeepsNeeds(Do(y, actions[0]), actions[1..], id);
    }
  }

  /** In every run: if a submitted job depends on the k-th pending job of a queue, that job is
      in the history whenever a worker is about to run the submitted one. */
  lemma DependencyFinishesFirst(before: seq<Action>, job: Job, p: Queue, k: nat, after: seq<Action>, q: Queue,
                                owner: bool, once: bool)
    requires k < |Run(EMPTY, before).store.Jobs(p)|
    requires var s := Run(EMPTY, before).store;
             var cur := job.(id := s.globalID + 1, dependencyID := NONE_DEPENDENCY_JOB);
             && IsDependentOn(cur, s.Jobs(p)[k]) == Some(true)
             && Dependency(s.Jobs(Opposite(QueueOf(job.tp))), cur).Some?
    requires var s := Run(Do(Run(EMPTY, before), Submit(job)), after).store;
             Admitted(s, q, owner, once) && s.Jobs(q)[0].id == Run(EMPTY, before).store.globalID + 1
    ensures Run(EMPTY, before).store.Jobs(p)[k].id in Run(Do(Run(EMPTY, before), Submit(job)), after).store.history
  {
    hide Run, Inv, Dependency, IsDependentOn, AddJob, DependencyDone;
    var y := Run(EMPTY, before);
    var y1 := Do(y, Submit(job));
    var y2 := Run(y1, after);
    EmptyInv();
    RunKeepsInv(EMPTY, before);
    StepKeepsInv(y, Submit(job));
    RunKeepsInv(y1, after);
    var cur := job.(id := y.store.globalID + 1, dependencyID := NONE_DEPENDENCY_JOB);
    assert y.store.Jobs(p)[k].id in Needed(y.store, cur);
    assert y1.needs[cur.id] == Needed(y.store, cur);
    RunKeepsNeeds(y1, after, cur.id);
    HeadNeedsDone(y2, q, y.store.Jobs(p)[k].id);
  }

  /** In every reachable state with a pending job some head is not held up. */
  lemma NoDeadlock(actions: seq<Action>)
    requires var s := Run(EMPTY, actions).store; s.defaultJobs != [] || s.addIndexJobs != []
    ensures exists q ::
        Run(EMPTY, actions).store.Jobs(q) != [] &&
        DependencyDone(Run(EMPTY, actions).store, Run(EMPTY, actions).store.Jobs(q)[0])
  {
    EmptyInv();
    RunKeepsInv(EMPTY, actions);
    SomeHeadIsReady(Run(EMPTY, actions));
  }

  lemma {:induction false} RunSplits(y: System, a: seq<Action>, b: seq<Action>)
    ensures Run(y, a + b) == Run(Run(y, a), b)
    decreases |a|
  {
    if a == [] {
      assert a + b == b;
    } else {
      assert (a + b)[0] == a[0] && (a + b)[1..] == a[1..] + b;
      RunSplits(Do(y, a[0]), a[1..], b);
    }
  }

  function Pending(s: Store): nat {
    |s.defaultJobs| + |s.addIndexJobs|
  }

  /** A ready head whose run succeeds is finished after at most two transactions. */
  lemma HeadFinishes(y: System, q: Queue) returns (actions: seq<Action>)
    requires y.store.Jobs(q) != [] && DependencyDone(y.store, y.store.Jobs(q)[0])
    ensures Pending(Run(y, actions).store) == Pending(y.store) - 1
  {
    var a := Work(q, true, false, Outcome(Done, Written));
    if IsFinished(y.store.Jobs(q)[0].state) {
      actions := [a];
      assert Run(y, actions) == Do(y, a);
    } else {
      actions := [a, a];
      var y1 := Do(y, a);
      assert y1.store.Jobs(q)[0].state == Done && y1.store.Jobs(q)[0].dependencyID == NONE_DEPENDENCY_JOB;
      assert actions[1..] == [a] && Run(y, actions) == Run(y1, [a]) == Do(y1, a);
    }
  }

  /** From every reachable state the workers can finish all pending jobs. */
  lemma {:induction false} AllJobsCanFinish(y: System) returns (actions: seq<Action>)
    requires Inv(y)
    ensures Pending(Run(y, actions).store) == 0
    decreases Pending(y.store)
  {
    actions := [];
    if Pending(y.store) != 0 {
      SomeHeadIsReady(y);
      var q :| y.store.Jobs(q) != [] && DependencyDone(y.store, y.store.Jobs(q)[0]);
      var first := HeadFinishes(y, q);
      RunKeepsInv(y, first);
      hide Inv;
      var rest := AllJobsCanFinish(Run(y, first));
      RunSplits(y, first, rest);
      actions := first + rest;
    }
  }

  // ---------- the transactions as code ----------

  /** The meta store the DDL workers share. */
  class Meta {
    var globalID: int
    var defaultJobs: seq<Job>
    var addIndexJobs: seq<Job>
    var history: map<int, Job>

    function State(): Store
      reads this
    {
      Store(globalID, defaultJobs, addIndexJobs, history)
    }

    constructor ()
      ensures State() == EMPTY.store
    {
      globalID, defaultJobs, addIndexJobs, history := 0, [], [], map[];
    }

    /** All elements from right to left: the newest job first. */
    method GetAllDDLJobsInQueue(q: Queue) returns (jobs: seq<Job>)
      ensures |jobs| == |State().Jobs(q)| && forall i :: 0 <= i < |jobs| ==> jobs[i] == State().Jobs(q)[|jobs| - 1 - i]
    {
      var list := State().Jobs(q);
      jobs := [];
      var index := |list|;
      while index > 0
        invariant 0 <= index <= |list| && |jobs| == |list| - index
        invariant forall i :: 0 <= i < |jobs| ==> jobs[i] == list[|list| - 1 - i]
      {
        index := index - 1;
        jobs := jobs + [list[index]];
      }
    }

    method BuildJobDependence(cur: Job) returns (dependencyID: Option<int>)
      requires cur.dependencyID == NONE_DEPENDENCY_JOB
      ensures dependencyID == Dependency(State().Jobs(Opposite(QueueOf(cur.tp))), cur)
    {
      ghost var list := State().Jobs(Opposite(QueueOf(cur.tp)));
      var jobs := GetAllDDLJobsInQueue(Opposite(QueueOf(cur.tp)));
      assert list[..|jobs|] == list;
      for i := 0 to |jobs|
        invariant Dependency(list, cur) == Dependency(list[..|jobs| - i], cur)
      {
        assert list[..|jobs| - i][..|jobs| - i - 1] == list[..|jobs| - i - 1];
        if cur.id >= jobs[i].id {
          var isDependent := IsDependentOn(cur, jobs[i]);
          if isDependent.None? {
            return None;
          }
          if isDependent.value {
            return Some(jobs[i].id);
          }
        }
      }
      return Some(cur.dependencyID);
    }

    method EnQueueDDLJob(q: Queue, job: Job)
      modifies this
      ensures State() == old(State()).WithJobs(q, old(State().Jobs(q)) + [job])
    {
      if q == DefaultQueue {
        defaultJobs := defaultJobs + [job];
      } else {
        addIndexJobs := addIndexJobs + [job];
      }
    }

    /** The transaction is abandoned when the dependencies cannot be decided. */
    method AddDDLJob(job: Job)
      modifies this
      ensures State() == AddJob(old(State()), job)
    {
      var cur := job.(id := globalID + 1, dependencyID := NONE_DEPENDENCY_JOB);
      var d := BuildJobDependence(cur);
      if d.Some? {
        globalID := globalID + 1;
        EnQueueDDLJob(QueueOf(job.tp), cur.(dependencyID := d.value));
      }
    }

    /** 'cleared' is the job with the dependency reset when it is done. */
    method IsDependencyJobDone(job: Job) returns (done: bool, cleared: Job)
      ensures done == DependencyDone(State(), job)
      ensures cleared == if done then job.(dependencyID := NONE_DEPENDENCY_JOB) else job
    {
      cleared := job;
      if job.dependencyID == NONE_DEPENDENCY_JOB {
        return true, job;
      }
      if job.dependencyID !in history {
        return false, job;
      }
      cleared := job.(dependencyID := NONE_DEPENDENCY_JOB);
      done := true;
    }

    method FinishDDLJob(q: Queue, job: Job)
      requires State().Jobs(q) != []
      modifies this
      ensures State() == Finish(old(State()), q, job)
    {
      if q == DefaultQueue {
        defaultJobs := defaultJobs[1..];
      } else {
        addIndexJobs := addIndexJobs[1..];
      }
      history := history[job.id := job];
    }

    method UpdateFirstDDLJob(q: Queue, job: Job)
      requires State().Jobs(q) != []
      modifies this
      ensures State() == old(State()).WithJobs(q, old(State().Jobs(q))[0 := job])
    {
      if q == DefaultQueue {
        defaultJobs := defaultJobs[0 := job];
      } else {
        addIndexJobs := addIndexJobs[0 := job];
      }
    }

    /** One transaction of the worker's loop. It leaves the head alone unless this is the owner,
        past its first round, and the head's dependency is in the history; a done or rolled-back
        head is then moved to the history. */
    method HandleDDLJob(q: Queue, owner: bool, once: bool, out: Outcome)
      modifies this
      ensures State() == Handle(old(State()), q, owner, once, out)
      ensures exists e :: HasEffect(old(State()), q, State(), e)
      ensures Held(old(State()), q, owner, once) ==> State() == old(State())
      ensures !Held(old(State()), q, owner, once) && old(State()).Jobs(q)[0].state in {Done, RollbackDone} ==>
                State().Jobs(q) == old(State()).Jobs(q)[1..] && old(State()).Jobs(q)[0].id in history
    {
      ghost var e := HandleEffect(State(), q, owner, once, out);
      if !owner || State().Jobs(q) == [] {
        return;
      }
      var isDone, job := IsDependencyJobDone(State().Jobs(q)[0]);
      if !isDone || once {
        return;
      }
      if job.state == Done || job.state == RollbackDone {
        if job.state != RollbackDone {
          job := job.(state := Synced);
        }
        FinishDDLJob(q, job);
        return;
      }
      if !IsFinished(job.state) {
        job := job.(state := out.state);
      }
      if job.state == Cancelled {
        FinishDDLJob(q, job);
        return;
      }
      match out.write
      case Written => UpdateFirstDDLJob(q, job);
      case TooLarge => FinishDDLJob(q, job.(state := Cancelled));
      case Failed =>
    }
  }
}
