/** The parallel projection: a fetcher, n workers and the consumer pass n input and n
    output buffers over bounded channels. The protocol is a transition system whose
    actions are the single statements of the three loops. */
module Projection {

  import opened Wrappers

  /** The statement each goroutine executes next, with the buffers it holds. */
  datatype Fetcher =
    | ReadInput
    | ReadOutput(w: nat)
    | SendGlobal(w: nat, o: nat)
    | FetchChild(w: nat, o: nat)
    | SendWorkerInput(w: nat, o: nat)
    | SendWorkerOutput(w: nat, o: nat)
    | SendDone(o: nat)
    | CloseGlobal
    | FetcherExited

  datatype Worker = TakeInput | TakeOutput | Run(o: nat) | SendResult(o: nat) | GiveBack | WorkerExited

  datatype Consumer = Receive | AwaitDone(o: nat) | Swap(o: nat) | ReturnOutput(o: nat)

  /** Where a buffer is. Kept beside the channels so that one buffer is in one place. */
  datatype InputPlace = InInputCh | InFetcher | InWorkerCh | InWorker

  datatype OutputPlace = OutFree | OutFetcher | OutWorkerCh(w: nat) | OutWorker(w: nat) | OutDone | OutConsumer

  /** A chunk's contents are a number; an empty chunk is None. */
  datatype State = State(
    n: nat,
    child: seq<int>,
    fetcher: Fetcher,
    worker: seq<Worker>,
    consumer: Consumer,
    inputCh: seq<nat>,
    outputCh: seq<nat>,
    globalCh: seq<nat>,
    globalClosed: bool,
    workerIn: seq<bool>,
    workerOut: seq<Option<nat>>,
    done: seq<bool>,
    inChk: seq<Option<int>>,
    outChk: seq<Option<int>>,
    finished: bool,
    returned: seq<Option<int>>,
    fetched: nat,
    sent: nat,
    outNo: seq<nat>,
    inPlace: seq<InputPlace>,
    outPlace: seq<OutputPlace>)

  function Initial(n: nat, child: seq<int>): State {
    State(n, child, ReadInput, seq(n, i => TakeInput), Receive,
          seq(n, i => i), seq(n, i => i), [], false,
          seq(n, i => false), seq(n, i => None), seq(n, i => false),
          seq(n, i => None), seq(n, i => None), false, [], 0, 0, seq(n, i => 0),
          seq(n, i => InInputCh), seq(n, i => OutFree))
  }

  datatype Action =
    | FetcherStep
    | FetcherQuit
    | WorkerStep(i: nat)
    | WorkerQuit(i: nat)
    | ConsumerStep
    | ReceiveClosed
    | Finish

  predicate Sized(s: State) {
    && |s.worker| == |s.workerIn| == |s.workerOut| == |s.done| == |s.inChk| == |s.outChk| == s.n
    && |s.outNo| == |s.inPlace| == |s.outPlace| == s.n
  }

  // ---------- enabled actions ----------

  /** The channel the fetcher sends to has room; it sends nothing in its other states. */
  predicate FetcherSendFits(s: State)
    requires Sized(s)
  {
    match s.fetcher
    case SendGlobal(w, o) => |s.globalCh| < s.n
    case SendWorkerInput(w, o) => w < s.n && !s.workerIn[w]
    case SendWorkerOutput(w, o) => w < s.n && s.workerOut[w].None?
    case SendDone(o) => o < s.n && !s.done[o]
    case _ => true
  }

  predicate WorkerSendFits(s: State, i: nat)
    requires Sized(s) && i < s.n
  {
    match s.worker[i]
    case SendResult(o) => o < s.n && !s.done[o]
    case GiveBack => |s.inputCh| < s.n
    case _ => true
  }

  predicate ConsumerSendFits(s: State) {
    s.consumer.ReturnOutput? ==> |s.outputCh| < s.n
  }

  predicate Enabled(s: State, a: Action)
    requires Sized(s)
  {
    match a
    case FetcherStep =>
      && !s.fetcher.FetcherExited? && FetcherSendFits(s)
      && (s.fetcher.ReadInput? ==> s.inputCh != [] && s.inputCh[0] < s.n)
      && (s.fetcher.ReadOutput? ==> s.outputCh != [] && s.outputCh[0] < s.n)
      && (s.fetcher.SendGlobal? ==> s.fetcher.o < s.n)
      && (s.fetcher.FetchChild? ==> s.fetcher.w < s.n && s.fetcher.o < s.n)
      && (s.fetcher.SendWorkerOutput? ==> s.fetcher.o < s.n)
    case FetcherQuit => s.finished && (s.fetcher.ReadInput? || s.fetcher.ReadOutput?)
    case WorkerStep(i) =>
      && i < s.n && !s.worker[i].WorkerExited? && WorkerSendFits(s, i)
      && (s.worker[i].TakeInput? ==> s.workerIn[i])
      && (s.worker[i].TakeOutput? ==> s.workerOut[i].Some? && s.workerOut[i].value < s.n)
      && (s.worker[i].Run? ==> s.worker[i].o < s.n)
    case WorkerQuit(i) => s.finished && i < s.n && (s.worker[i].TakeInput? || s.worker[i].TakeOutput?)
    case ConsumerStep =>
      && !s.finished && ConsumerSendFits(s)
      && (s.consumer.Receive? ==> s.globalCh != [])
      && (!s.consumer.Receive? ==> s.consumer.o < s.n)
      && (s.consumer.AwaitDone? ==> s.done[s.consumer.o])
    case ReceiveClosed => !s.finished && s.consumer.Receive? && s.globalCh == [] && s.globalClosed
    case Finish => !s.finished && s.consumer.Receive?
  }

  // ---------- effects ----------

  function StepFetcher(s: State): State
    requires Sized(s) && Enabled(s, FetcherStep)
  {
    match s.fetcher
    case ReadInput =>
      s.(fetcher := ReadOutput(s.inputCh[0]), inputCh := s.inputCh[1..],
         inPlace := s.inPlace[s.inputCh[0] := InFetcher])
    case ReadOutput(w) =>
      s.(fetcher := SendGlobal(w, s.outputCh[0]), outputCh := s.outputCh[1..],
         outPlace := s.outPlace[s.outputCh[0] := OutFetcher])
    case SendGlobal(w, o) =>
      s.(fetcher := FetchChild(w, o), globalCh := s.globalCh + [o], outNo := s.outNo[o := s.sent], sent := s.sent + 1)
    case FetchChild(w, o) =>
      if s.fetched < |s.child|
      then s.(fetcher := SendWorkerInput(w, o), inChk := s.inChk[w := Some(s.child[s.fetched])],
              fetched := s.fetched + 1)
      else s.(fetcher := SendDone(o), inChk := s.inChk[w := None], fetched := s.fetched + 1)
    case SendWorkerInput(w, o) =>
      s.(fetcher := SendWorkerOutput(w, o), workerIn := s.workerIn[w := true], inPlace := if w < s.n
           then s.inPlace[w := InWorkerCh] else s.inPlace)
    case SendWorkerOutput(w, o) =>
      s.(fetcher := ReadInput, workerOut := s.workerOut[w := Some(o)], outPlace := s.outPlace[o := OutWorkerCh(w)])
    case SendDone(o) => s.(fetcher := CloseGlobal, done := s.done[o := true], outPlace := s.outPlace[o := OutDone])
    case CloseGlobal => s.(fetcher := FetcherExited, globalClosed := true)
  }

  function StepWorker(s: State, proj: int -> int, i: nat): State
    requires Sized(s) && Enabled(s, WorkerStep(i))
  {
    match s.worker[i]
    case TakeInput =>
      s.(worker := s.worker[i := TakeOutput], workerIn := s.workerIn[i := false], inPlace := s.inPlace[i := InWorker])
    case TakeOutput =>
      var o := s.workerOut[i].value;
      s.(worker := s.worker[i := Run(o)], workerOut := s.workerOut[i := None],
         outPlace := s.outPlace[o := OutWorker(i)])
    case Run(o) =>
      s.(worker := s.worker[i := SendResult(o)],
         outChk := s.outChk[o := if s.inChk[i].Some? then Some(proj(s.inChk[i].value)) else None],
         inChk := s.inChk[i := None])
    case SendResult(o) =>
      s.(worker := s.worker[i := GiveBack], done := s.done[o := true], outPlace := s.outPlace[o := OutDone])
    case GiveBack =>
      s.(worker := s.worker[i := TakeInput], inputCh := s.inputCh + [i], inPlace := s.inPlace[i := InInputCh])
  }

  function StepConsumer(s: State): State
    requires Sized(s) && Enabled(s, ConsumerStep)
  {
    match s.consumer
    case Receive => s.(consumer := AwaitDone(s.globalCh[0]), globalCh := s.globalCh[1..])
    case AwaitDone(o) => s.(consumer := Swap(o), done := s.done[o := false], outPlace := s.outPlace[o := OutConsumer])
    case Swap(o) => s.(consumer := ReturnOutput(o), returned := s.returned + [s.outChk[o]],
                       outChk := s.outChk[o := None])
    case ReturnOutput(o) => s.(consumer := Receive, outputCh := s.outputCh + [o], outPlace := s.outPlace[o := OutFree])
  }

  function Do(s: State, proj: int -> int, a: Action): State
    requires Sized(s) && Enabled(s, a)
  {
    match a
    case FetcherStep => StepFetcher(s)
    case FetcherQuit => s.(fetcher := CloseGlobal)
    case WorkerStep(i) => StepWorker(s, proj, i)
    case WorkerQuit(i) => s.(worker := s.worker[i := WorkerExited])
    case ConsumerStep => StepConsumer(s)
    case ReceiveClosed => s
    case Finish => s.(finished := true)
  }

  // ---------- the invariant ----------

  ghost predicate Tokens(ch: seq<nat>, n: nat) {
    (forall i :: 0 <= i < |ch| ==> ch[i] < n) && (forall i, j :: 0 <= i < j < |ch| ==> ch[i] != ch[j])
  }

  function Result(s: State, proj: int -> int, k: nat): Option<int> {
    if k < |s.child| then Some(proj(s.child[k])) else None
  }

  /** Outputs the consumer still has to collect, in the order it will. */
  function Awaited(s: State): seq<nat> {
    if s.consumer.AwaitDone? then [s.consumer.o] + s.globalCh else s.globalCh
  }

  /** How many chunks the consumer has taken out of the awaited ones. */
  function Collected(s: State): nat {
    |s.returned| + if s.consumer.Swap? then 1 else 0
  }

  /** Number the awaited outputs; they are the projections to come, in the child's order. */
  ghost predicate Numbered(s: State)
    requires Sized(s)
  {
    && Collected(s) + |Awaited(s)| == s.sent
    && NumberedFrom(Awaited(s), s.outNo, Collected(s))
    && FetchedOK(s)
  }

  ghost predicate NumberedFrom(a: seq<nat>, outNo: seq<nat>, c: nat) {
    forall i :: 0 <= i < |a| && a[i] < |outNo| ==> outNo[a[i]] == c + i
  }

  lemma NumberedTail(a: seq<nat>, outNo: seq<nat>, c: nat)
    requires NumberedFrom(a, outNo, c) && a != []
    ensures NumberedFrom(a[1..], outNo, c + 1)
  {
    forall i | 0 <= i < |a[1..]| && a[1..][i] < |outNo|
      ensures outNo[a[1..][i]] == c + 1 + i
    {
      assert a[1..][i] == a[i + 1];
    }
  }

  ghost predicate FetcherOK(s: State)
    requires Sized(s)
  {
    match s.fetcher
    case ReadInput => true
    case ReadOutput(w) => w < s.n && s.inPlace[w] == InFetcher
    case SendGlobal(w, o) => w < s.n && o < s.n && s.inPlace[w] == InFetcher && s.outPlace[o] == OutFetcher &&
                             o !in Awaited(s)
    case FetchChild(w, o) => w < s.n && o < s.n && s.inPlace[w] == InFetcher && s.outPlace[o] == OutFetcher &&
                             o in Awaited(s) && s.outNo[o] == s.fetched
    case SendWorkerInput(w, o) =>
      && w < s.n && o < s.n && s.inPlace[w] == InFetcher && s.outPlace[o] == OutFetcher && o in Awaited(s)
      && s.outNo[o] < |s.child| && s.inChk[w] == Some(s.child[s.outNo[o]])
    case SendWorkerOutput(w, o) =>
      && w < s.n && o < s.n && s.outPlace[o] == OutFetcher && o in Awaited(s) && s.workerOut[w].None?
      && (s.inPlace[w] == InWorkerCh || s.worker[w].TakeOutput? || s.worker[w].WorkerExited?)
      && (s.inPlace[w] == InWorkerCh || s.inPlace[w] == InWorker)
      && s.outNo[o] < |s.child| && s.inChk[w] == Some(s.child[s.outNo[o]])
    case SendDone(o) => o < s.n && s.outPlace[o] == OutFetcher && o in Awaited(s) && s.outNo[o] == |s.child|
    case CloseGlobal => true
    case FetcherExited => s.globalClosed
  }

  /** Input buffer 'i' and worker 'i', to which alone that buffer is ever given. */
  ghost predicate WorkerOK(s: State, i: nat)
    requires Sized(s) && i < s.n
  {
    && (i in s.inputCh <==> s.inPlace[i] == InInputCh)
    && (s.workerIn[i] <==> s.inPlace[i] == InWorkerCh)
    && (s.inPlace[i] == InWorkerCh ==> s.workerOut[i].Some? || (s.fetcher.SendWorkerOutput? && s.fetcher.w == i))
    && (s.inPlace[i] == InFetcher ==> FetcherHoldsInput(s.fetcher, i) || FetcherLeaving(s.fetcher))
    && (match s.worker[i]
        case TakeInput => s.inPlace[i] != InWorker
        case TakeOutput => s.inPlace[i] == InWorker &&
                           (s.workerOut[i].Some? || (s.fetcher.SendWorkerOutput? && s.fetcher.w == i))
        case Run(o) => s.inPlace[i] == InWorker && o < s.n && s.outPlace[o] == OutWorker(i) && o in Awaited(s)
          && s.workerOut[i].None? && s.outNo[o] < |s.child| && s.inChk[i] == Some(s.child[s.outNo[o]])
        case SendResult(o) => s.inPlace[i] == InWorker && o < s.n && s.outPlace[o] == OutWorker(i) && o in Awaited(s)
          && s.workerOut[i].None?
        case GiveBack => s.inPlace[i] == InWorker && s.workerOut[i].None?
        case WorkerExited => s.finished)
    && (s.workerOut[i].Some? ==>
          && (s.inPlace[i] == InWorkerCh || s.inPlace[i] == InWorker)
          && s.workerOut[i].value < s.n && s.outPlace[s.workerOut[i].value] == OutWorkerCh(i)
          && s.workerOut[i].value in Awaited(s) && s.outNo[s.workerOut[i].value] < |s.child|
          && s.inChk[i] == Some(s.child[s.outNo[s.workerOut[i].value]]))
  }

  /** Output buffer 'o'. */
  ghost predicate OutputOK(s: State, proj: int -> int, o: nat)
    requires Sized(s) && o < s.n
  {
    && (o in s.outputCh <==> s.outPlace[o] == OutFree)
    && (s.done[o] <==> s.outPlace[o] == OutDone)
    && (o in Awaited(s) ==> s.outPlace[o] != OutFree && s.outPlace[o] != OutConsumer)
    && match s.outPlace[o]
       case OutFree => s.outChk[o].None?
       case OutFetcher => s.outChk[o].None? && FetcherHolds(s.fetcher, o)
       case OutWorkerCh(w) => s.outChk[o].None? && w < s.n && s.workerOut[w] == Some(o)
       case OutWorker(w) => w < s.n &&
                            (s.worker[w] == Run(o) ||
                             (s.worker[w] == SendResult(o) && s.outChk[o] == Result(s, proj, s.outNo[o])))
       case OutDone => o in Awaited(s) && s.outChk[o] == Result(s, proj, s.outNo[o])
       case OutConsumer => s.consumer == Swap(o) || s.consumer == ReturnOutput(o)
  }

  predicate FetcherHoldsInput(f: Fetcher, w: nat) {
    match f
    case ReadOutput(w') => w' == w
    case SendGlobal(w', _) => w' == w
    case FetchChild(w', _) => w' == w
    case SendWorkerInput(w', _) => w' == w
    case _ => false
  }

  predicate FetcherLeaving(f: Fetcher) {
    f.SendDone? || f.CloseGlobal? || f.FetcherExited?
  }

  predicate FetcherHolds(f: Fetcher, o: nat) {
    match f
    case SendGlobal(_, o') => o' == o
    case FetchChild(_, o') => o' == o
    case SendWorkerInput(_, o') => o' == o
    case SendWorkerOutput(_, o') => o' == o
    case SendDone(o') => o' == o
    case _ => false
  }

  ghost predicate ConsumerOK(s: State, proj: int -> int)
    requires Sized(s)
  {
    && (match s.consumer
        case Receive => true
        case AwaitDone(o) => o < s.n
        case Swap(o) => o < s.n && s.outPlace[o] == OutConsumer && s.outChk[o] == Result(s, proj, |s.returned|)
        case ReturnOutput(o) => o < s.n && s.outPlace[o] == OutConsumer && s.outChk[o].None?)
    && (s.finished ==> s.consumer.Receive?)
    && (forall k :: 0 <= k < |s.returned| ==> s.returned[k] == Result(s, proj, k))
  }

  ghost predicate Channels(s: State) {
    Tokens(s.inputCh, s.n) && Tokens(s.outputCh, s.n) && Tokens(Awaited(s), s.n)
  }

  ghost predicate Inv(s: State, proj: int -> int) {
    && Sized(s) && s.n >= 1 && Channels(s) && Numbered(s) && FetcherOK(s) && ConsumerOK(s, proj)
    && (forall i :: 0 <= i < s.n ==> WorkerOK(s, i))
    && (forall o :: 0 <= o < s.n ==> OutputOK(s, proj, o))
  }

  lemma InitialInv(n: nat, child: seq<int>, proj: int -> int)
    requires n >= 1
    ensures Inv(Initial(n, child), proj)
  {
    var s := Initial(n, child);
    forall w | 0 <= w < n ensures w in s.inputCh && w in s.outputCh {
      assert s.inputCh[w] == w && s.outputCh[w] == w;
    }
  }

  /** Worker 'i' and output 'o' are in order. */
  ghost predicate At(s: State, proj: int -> int, i: nat, o: nat) {
    Sized(s) && i < s.n && o < s.n && WorkerOK(s, i) && OutputOK(s, proj, o)
  }

  ghost predicate TailDrops(ch: seq<nat>) {
    ch != [] ==> forall t :: t in ch[1..] <==> t in ch && t != ch[0]
  }

  // ---------- steps of the fetcher ----------

  lemma FetcherAwaited(s: State)
    requires Sized(s) && Enabled(s, FetcherStep)
    ensures Awaited(StepFetcher(s)) == Awaited(s) + if s.fetcher.SendGlobal? then [s.fetcher.o] else []
  {
  }

  lemma FetcherTakesInput(s: State, proj: int -> int, i: nat, o: nat)
    requires At(s, proj, i, o) && FetcherOK(s) && Enabled(s, FetcherStep) && s.fetcher.ReadInput?
    requires TailDrops(s.inputCh)
    ensures Sized(StepFetcher(s)) && WorkerOK(StepFetcher(s), i) && OutputOK(StepFetcher(s), proj, o)
  {
  }

  lemma FetcherTakesOutput(s: State, proj: int -> int, i: nat, o: nat)
    requires At(s, proj, i, o) && FetcherOK(s) && Enabled(s, FetcherStep) && s.fetcher.ReadOutput?
    requires TailDrops(s.outputCh) && s.outPlace[s.outputCh[0]] == OutFree
    ensures Sized(StepFetcher(s)) && WorkerOK(StepFetcher(s), i) && OutputOK(StepFetcher(s), proj, o)
  {
  }

  lemma FetcherAnnounces(s: State, proj: int -> int, i: nat, o: nat)
    requires At(s, proj, i, o) && FetcherOK(s) && Enabled(s, FetcherStep) && s.fetcher.SendGlobal?
    ensures Sized(StepFetcher(s)) && WorkerOK(StepFetcher(s), i) && OutputOK(StepFetcher(s), proj, o)
  {
    FetcherAwaited(s);
  }

  lemma FetcherFetches(s: State, i: nat)
    requires Sized(s) && i < s.n && FetcherOK(s) && WorkerOK(s, i) && Enabled(s, FetcherStep) && s.fetcher.FetchChild?
    ensures Sized(StepFetcher(s)) && WorkerOK(StepFetcher(s), i)
  {
    var s' := StepFetcher(s);
    assert Awaited(s') == Awaited(s);
    assert s'.worker[i] == s.worker[i] && s'.workerOut[i] == s.workerOut[i] && s'.inPlace == s.inPlace;
    assert s'.inChk[i] == s.inChk[i] || i == s.fetcher.w;
    hide Awaited;
  }

  lemma FetcherFetchesOutput(s: State, proj: int -> int, o: nat)
    requires Sized(s) && o < s.n && FetcherOK(s) && OutputOK(s, proj, o) && Enabled(s, FetcherStep) &&
             s.fetcher.FetchChild?
    ensures Sized(StepFetcher(s)) && OutputOK(StepFetcher(s), proj, o)
  {
  }

  lemma FetcherSendsInput(s: State, proj: int -> int, i: nat, o: nat)
    requires At(s, proj, i, o) && FetcherOK(s) && Enabled(s, FetcherStep) && s.fetcher.SendWorkerInput?
    ensures Sized(StepFetcher(s)) && WorkerOK(StepFetcher(s), i) && OutputOK(StepFetcher(s), proj, o)
  {
  }

  lemma FetcherSendsOutput(s: State, proj: int -> int, i: nat, o: nat)
    requires At(s, proj, i, o) && FetcherOK(s) && Enabled(s, FetcherStep) && s.fetcher.SendWorkerOutput?
    ensures Sized(StepFetcher(s)) && WorkerOK(StepFetcher(s), i) && OutputOK(StepFetcher(s), proj, o)
  {
  }

  lemma FetcherSendsDone(s: State, proj: int -> int, i: nat, o: nat)
    requires At(s, proj, i, o) && FetcherOK(s) && Enabled(s, FetcherStep) && s.fetcher.SendDone?
    ensures Sized(StepFetcher(s)) && WorkerOK(StepFetcher(s), i) && OutputOK(StepFetcher(s), proj, o)
  {
  }

  lemma FetcherCloses(s: State, proj: int -> int, i: nat, o: nat)
    requires At(s, proj, i, o) && FetcherOK(s) && Enabled(s, FetcherStep) && s.fetcher.CloseGlobal?
    ensures Sized(StepFetcher(s)) && WorkerOK(StepFetcher(s), i) && OutputOK(StepFetcher(s), proj, o)
  {
  }

  lemma FetcherNumbers(s: State)
    requires Sized(s) && Enabled(s, FetcherStep) && Tokens(Awaited(s), s.n) && Numbered(s) && FetcherOK(s)
    ensures Sized(StepFetcher(s)) && Tokens(Awaited(StepFetcher(s)), s.n) && Numbered(StepFetcher(s))
  {
    if s.fetcher.SendGlobal? {
      FetcherAnnouncesNumber(s);
    } else {
      FetcherAwaited(s);
      FetcherFrame(s);
      FetcherFetched(s);
      hide Awaited, Collected, Tokens, StepFetcher, FetcherOK, Enabled;
    }
  }

  ghost predicate SameFrame(s: State, s': State) {
    s'.outNo == s.outNo && Collected(s') == Collected(s) && s'.sent == s.sent && s'.child == s.child && s'.n == s.n &&
    s'.finished == s.finished
  }

  ghost predicate FetchedOK(s: State) {
    && s.sent == s.fetched + (if s.fetcher.FetchChild? then 1 else 0) && s.fetched <= |s.child| + 1
    && (s.fetched == |s.child| + 1 ==> FetcherLeaving(s.fetcher))
    && (FetcherLeaving(s.fetcher) && !s.finished ==> s.fetched == |s.child| + 1)
    && (s.globalClosed ==> s.fetcher.FetcherExited?)
  }

  lemma FetcherFrame(s: State)
    requires Sized(s) && Enabled(s, FetcherStep) && !s.fetcher.SendGlobal?
    ensures Sized(StepFetcher(s)) && SameFrame(s, StepFetcher(s))
  {
  }

  lemma FetcherFetched(s: State)
    requires Sized(s) && Enabled(s, FetcherStep) && FetchedOK(s) && !s.fetcher.SendGlobal?
    ensures Sized(StepFetcher(s)) && FetchedOK(StepFetcher(s))
  {
  }

  lemma FetcherAnnouncesNumber(s: State)
    requires Sized(s) && Enabled(s, FetcherStep) && Tokens(Awaited(s), s.n) && Numbered(s) && FetcherOK(s) &&
             s.fetcher.SendGlobal?
    ensures Sized(StepFetcher(s)) && Tokens(Awaited(StepFetcher(s)), s.n) && Numbered(StepFetcher(s))
  {
    FetcherAwaited(s);
    TokensAppend(Awaited(s), s.fetcher.o, s.n);
    NumberedAppend(Awaited(s), s.fetcher.o, s.outNo, Collected(s), s.sent);
    hide Tokens, Awaited, NumberedFrom;
  }

  lemma NumberedAppend(a: seq<nat>, o: nat, outNo: seq<nat>, c: nat, sent: nat)
    requires NumberedFrom(a, outNo, c) && c + |a| == sent && o !in a && o < |outNo|
    ensures NumberedFrom(a + [o], outNo[o := sent], c)
  {
  }

  lemma FetcherKeepsFetcher(s: State)
    requires Sized(s) && Enabled(s, FetcherStep) && Numbered(s) && FetcherOK(s)
    requires s.fetcher.ReadOutput? ==> s.outputCh[0] !in Awaited(s)
    requires s.fetcher.SendWorkerInput? ==> WorkerOK(s, s.fetcher.w)
    ensures Sized(StepFetcher(s)) && FetcherOK(StepFetcher(s))
  {
    FetcherAwaited(s);
  }

  lemma FetcherKeepsConsumer(s: State, proj: int -> int)
    requires Sized(s) && Enabled(s, FetcherStep) && FetcherOK(s) && ConsumerOK(s, proj)
    requires s.fetcher.ReadOutput? ==> s.outPlace[s.outputCh[0]] == OutFree
    ensures Sized(StepFetcher(s)) && ConsumerOK(StepFetcher(s), proj)
  {
  }

  lemma FetcherKeepsAt(s: State, proj: int -> int, i: nat, o: nat)
    requires Inv(s, proj) && Enabled(s, FetcherStep) && i < s.n && o < s.n
    ensures Sized(StepFetcher(s)) && WorkerOK(StepFetcher(s), i) && OutputOK(StepFetcher(s), proj, o)
  {
    assert At(s, proj, i, o);
    if s.inputCh != [] { TokensTail(s.inputCh, s.n); }
    if s.outputCh != [] { TokensTail(s.outputCh, s.n); }
    assert s.outputCh != [] ==> s.outputCh[0] < s.n && OutputOK(s, proj, s.outputCh[0]) && s.outputCh[0] in s.outputCh;
    hide Inv, Tokens, StepFetcher, WorkerOK;
    match s.fetcher
    case ReadInput => FetcherTakesInput(s, proj, i, o);
    case ReadOutput(_) => FetcherTakesOutput(s, proj, i, o);
    case SendGlobal(_, _) => FetcherAnnounces(s, proj, i, o);
    case FetchChild(_, _) => FetcherFetches(s, i); FetcherFetchesOutput(s, proj, o);
    case SendWorkerInput(_, _) => FetcherSendsInput(s, proj, i, o);
    case SendWorkerOutput(_, _) => FetcherSendsOutput(s, proj, i, o);
    case SendDone(_) => FetcherSendsDone(s, proj, i, o);
    case CloseGlobal => FetcherCloses(s, proj, i, o);
  }

  lemma FetcherKeepsChannels(s: State)
    requires Sized(s) && Enabled(s, FetcherStep) && Channels(s)
    ensures StepFetcher(s).n == s.n && Tokens(StepFetcher(s).inputCh, s.n) && Tokens(StepFetcher(s).outputCh, s.n)
  {
    if s.inputCh != [] { TokensTail(s.inputCh, s.n); }
    if s.outputCh != [] { TokensTail(s.outputCh, s.n); }
    hide Tokens;
  }

  lemma FetcherKeepsInv(s: State, proj: int -> int)
    requires Inv(s, proj) && Enabled(s, FetcherStep)
    ensures Inv(StepFetcher(s), proj)
  {
    var s' := StepFetcher(s);
    assert s.outputCh != [] ==> s.outputCh[0] < s.n && OutputOK(s, proj, s.outputCh[0]) && s.outputCh[0] in s.outputCh;
    assert s.fetcher.SendWorkerInput? ==> WorkerOK(s, s.fetcher.w);
    hide WorkerOK, FetcherOK, ConsumerOK, Numbered, Awaited, Tokens, StepFetcher;
    FetcherKeepsChannels(s);
    FetcherNumbers(s);
    FetcherKeepsFetcher(s);
    FetcherKeepsConsumer(s, proj);
    forall i | 0 <= i < s.n ensures WorkerOK(s', i) { FetcherKeepsAt(s, proj, i, 0); }
    forall o | 0 <= o < s.n ensures OutputOK(s', proj, o) { FetcherKeepsAt(s, proj, 0, o); }
  }

  // ---------- steps of a worker ----------

  lemma WorkerTakesInput(s: State, proj: int -> int, i: nat, k: nat, o: nat)
    requires At(s, proj, k, o) && Enabled(s, WorkerStep(i)) && WorkerOK(s, i) && s.worker[i].TakeInput?
    ensures Sized(StepWorker(s, proj, i)) && WorkerOK(StepWorker(s, proj, i), k) &&
            OutputOK(StepWorker(s, proj, i), proj, o)
  {
  }

  lemma TakingKeepsWorker(s: State, proj: int -> int, i: nat, k: nat)
    requires Sized(s) && Enabled(s, WorkerStep(i)) && WorkerOK(s, i) && s.worker[i].TakeOutput?
    requires k < s.n && WorkerOK(s, k)
    ensures Sized(StepWorker(s, proj, i)) && WorkerOK(StepWorker(s, proj, i), k)
  {
  }

  lemma TakingKeepsOutput(s: State, proj: int -> int, i: nat, o: nat)
    requires Sized(s) && Enabled(s, WorkerStep(i)) && WorkerOK(s, i) && s.worker[i].TakeOutput?
    requires o < s.n && OutputOK(s, proj, o)
    ensures Sized(StepWorker(s, proj, i)) && OutputOK(StepWorker(s, proj, i), proj, o)
  {
  }

  lemma WorkerTakesOutput(s: State, proj: int -> int, i: nat, k: nat, o: nat)
    requires At(s, proj, k, o) && Enabled(s, WorkerStep(i)) && WorkerOK(s, i) && s.worker[i].TakeOutput?
    ensures Sized(StepWorker(s, proj, i)) && WorkerOK(StepWorker(s, proj, i), k) &&
            OutputOK(StepWorker(s, proj, i), proj, o)
  {
    hide WorkerOK, OutputOK, StepWorker, Enabled;
    TakingKeepsWorker(s, proj, i, k);
    TakingKeepsOutput(s, proj, i, o);
  }

  lemma WorkerRuns(s: State, proj: int -> int, i: nat, k: nat, o: nat)
    requires At(s, proj, k, o) && Enabled(s, WorkerStep(i)) && WorkerOK(s, i) && s.worker[i].Run?
    ensures Sized(StepWorker(s, proj, i)) && WorkerOK(StepWorker(s, proj, i), k) &&
            OutputOK(StepWorker(s, proj, i), proj, o)
  {
  }

  lemma WorkerSendsResult(s: State, proj: int -> int, i: nat, k: nat, o: nat)
    requires At(s, proj, k, o) && Enabled(s, WorkerStep(i)) && WorkerOK(s, i) && s.worker[i].SendResult?
    ensures Sized(StepWorker(s, proj, i)) && WorkerOK(StepWorker(s, proj, i), k) &&
            OutputOK(StepWorker(s, proj, i), proj, o)
  {
  }

  lemma WorkerGivesBack(s: State, proj: int -> int, i: nat, k: nat, o: nat)
    requires At(s, proj, k, o) && Enabled(s, WorkerStep(i)) && WorkerOK(s, i) && s.worker[i].GiveBack?
    ensures Sized(StepWorker(s, proj, i)) && WorkerOK(StepWorker(s, proj, i), k) &&
            OutputOK(StepWorker(s, proj, i), proj, o)
  {
  }

  lemma WorkerKeepsFetcher(s: State, proj: int -> int, i: nat)
    requires Sized(s) && Enabled(s, WorkerStep(i)) && FetcherOK(s) && WorkerOK(s, i)
    ensures Sized(StepWorker(s, proj, i)) && FetcherOK(StepWorker(s, proj, i))
  {
    if s.fetcher.SendWorkerOutput? {
      WorkerKeepsHandover(s, proj, i);
    } else {
      WorkerLeavesFetcher(s, proj, i);
      hide Awaited, StepWorker, WorkerOK;
    }
  }

  /** A worker does not touch what the fetcher holds. */
  lemma WorkerLeavesFetcher(s: State, proj: int -> int, i: nat)
    requires Sized(s) && Enabled(s, WorkerStep(i)) && WorkerOK(s, i)
    ensures Sized(StepWorker(s, proj, i)) && FetcherSame(s, StepWorker(s, proj, i))
  {
  }

  ghost predicate FetcherSame(s: State, s': State)
    requires Sized(s) && Sized(s')
  {
    && Awaited(s') == Awaited(s) && s'.outNo == s.outNo && s'.fetcher == s.fetcher && s'.fetched == s.fetched
    && s'.child == s.child && s'.globalClosed == s.globalClosed && s'.n == s.n
    && (forall o :: 0 <= o < s.n && s.outPlace[o] == OutFetcher ==> s'.outPlace[o] == OutFetcher)
    && (forall k ::
          0 <= k < s.n && s.inPlace[k] == InFetcher ==> s'.inPlace[k] == InFetcher && s'.inChk[k] == s.inChk[k])
  }

  lemma WorkerKeepsHandover(s: State, proj: int -> int, i: nat)
    requires Sized(s) && Enabled(s, WorkerStep(i)) && FetcherOK(s) && WorkerOK(s, i) && s.fetcher.SendWorkerOutput?
    ensures Sized(StepWorker(s, proj, i)) && FetcherOK(StepWorker(s, proj, i))
  {
  }

  lemma WorkerKeepsConsumer(s: State, proj: int -> int, i: nat)
    requires Sized(s) && Enabled(s, WorkerStep(i)) && WorkerOK(s, i) && ConsumerOK(s, proj)
    ensures Sized(StepWorker(s, proj, i)) && ConsumerOK(StepWorker(s, proj, i), proj)
  {
  }

  lemma WorkerKeepsNumbers(s: State, proj: int -> int, i: nat)
    requires Sized(s) && Enabled(s, WorkerStep(i)) && Numbered(s)
    ensures Sized(StepWorker(s, proj, i)) && Numbered(StepWorker(s, proj, i))
  {
    WorkerFrame(s, proj, i);
    hide Awaited, Collected, StepWorker, Enabled;
  }

  lemma WorkerFrame(s: State, proj: int -> int, i: nat)
    requires Sized(s) && Enabled(s, WorkerStep(i))
    ensures Sized(StepWorker(s, proj, i)) && SameFrame(s, StepWorker(s, proj, i)) &&
            Awaited(StepWorker(s, proj, i)) == Awaited(s)
    ensures StepWorker(s, proj, i).fetched == s.fetched && StepWorker(s, proj, i).fetcher == s.fetcher
  {
  }

  lemma WorkerKeepsChannels(s: State, proj: int -> int, i: nat)
    requires Sized(s) && Enabled(s, WorkerStep(i)) && WorkerOK(s, i) && Channels(s)
    ensures StepWorker(s, proj, i).n == s.n && Channels(StepWorker(s, proj, i))
  {
    if i !in s.inputCh { TokensAppend(s.inputCh, i, s.n); }
    hide Tokens;
  }

  lemma WorkerKeepsAt(s: State, proj: int -> int, i: nat, k: nat, o: nat)
    requires At(s, proj, k, o) && Enabled(s, WorkerStep(i)) && WorkerOK(s, i)
    ensures Sized(StepWorker(s, proj, i)) && WorkerOK(StepWorker(s, proj, i), k) &&
            OutputOK(StepWorker(s, proj, i), proj, o)
  {
    hide WorkerOK, OutputOK, StepWorker;
    match s.worker[i]
    case TakeInput => WorkerTakesInput(s, proj, i, k, o);
    case TakeOutput => WorkerTakesOutput(s, proj, i, k, o);
    case Run(_) => WorkerRuns(s, proj, i, k, o);
    case SendResult(_) => WorkerSendsResult(s, proj, i, k, o);
    case GiveBack => WorkerGivesBack(s, proj, i, k, o);
  }

  lemma WorkerKeepsInv(s: State, proj: int -> int, i: nat)
    requires Inv(s, proj) && Enabled(s, WorkerStep(i))
    ensures Inv(StepWorker(s, proj, i), proj)
  {
    hide WorkerOK, OutputOK, FetcherOK, ConsumerOK, Numbered, Awaited, Tokens, StepWorker;
    var s' := StepWorker(s, proj, i);
    WorkerKeepsFetcher(s, proj, i);
    WorkerKeepsConsumer(s, proj, i);
    WorkerKeepsNumbers(s, proj, i);
    WorkerKeepsChannels(s, proj, i);
    forall k | 0 <= k < s.n ensures WorkerOK(s', k) { WorkerKeepsAt(s, proj, i, k, 0); }
    forall o | 0 <= o < s.n ensures OutputOK(s', proj, o) { WorkerKeepsAt(s, proj, i, 0, o); }
  }

  // ---------- steps of the consumer ----------

  /** The awaited outputs change only when the consumer takes the first one. */
  lemma ConsumerAwaited(s: State)
    requires Sized(s) && Enabled(s, ConsumerStep) && Tokens(Awaited(s), s.n)
    ensures s.consumer.AwaitDone? ==> Awaited(s) != [] && Awaited(s)[0] == s.consumer.o
    ensures Awaited(StepConsumer(s)) == if s.consumer.AwaitDone? then Awaited(s)[1..] else Awaited(s)
    ensures Tokens(Awaited(StepConsumer(s)), s.n)
    ensures s.consumer.AwaitDone? ==> forall t ::
        t in Awaited(StepConsumer(s)) <==> t in Awaited(s) && t != s.consumer.o
  {
    if s.consumer.AwaitDone? { TokensTail(Awaited(s), s.n); }
  }

  lemma ConsumerReceives(s: State, proj: int -> int, i: nat, o: nat)
    requires At(s, proj, i, o) && Enabled(s, ConsumerStep) && Tokens(Awaited(s), s.n) && s.consumer.Receive?
    ensures Sized(StepConsumer(s)) && WorkerOK(StepConsumer(s), i) && OutputOK(StepConsumer(s), proj, o)
  {
    hide Tokens, Awaited;
    ConsumerAwaited(s);
  }

  lemma CollectingKeepsWorker(s: State, proj: int -> int, i: nat)
    requires Sized(s) && Enabled(s, ConsumerStep) && Tokens(Awaited(s), s.n) && s.consumer.AwaitDone?
    requires OutputOK(s, proj, s.consumer.o) && i < s.n && WorkerOK(s, i)
    ensures Sized(StepConsumer(s)) && WorkerOK(StepConsumer(s), i)
  {
    hide Tokens, Awaited;
    ConsumerAwaited(s);
  }

  lemma CollectingKeepsOutput(s: State, proj: int -> int, o: nat)
    requires Sized(s) && Enabled(s, ConsumerStep) && Tokens(Awaited(s), s.n) && s.consumer.AwaitDone?
    requires OutputOK(s, proj, s.consumer.o) && o < s.n && OutputOK(s, proj, o)
    ensures Sized(StepConsumer(s)) && OutputOK(StepConsumer(s), proj, o)
  {
    hide Tokens, Awaited;
    ConsumerAwaited(s);
  }

  lemma ConsumerTakes(s: State, proj: int -> int, i: nat, o: nat)
    requires At(s, proj, i, o) && Enabled(s, ConsumerStep) && Tokens(Awaited(s), s.n) && s.consumer.AwaitDone?
    requires OutputOK(s, proj, s.consumer.o)
    ensures Sized(StepConsumer(s)) && WorkerOK(StepConsumer(s), i) && OutputOK(StepConsumer(s), proj, o)
  {
    CollectingKeepsWorker(s, proj, i);
    CollectingKeepsOutput(s, proj, o);
    hide WorkerOK, OutputOK, StepConsumer, Tokens;
  }

  lemma ConsumerKeepsFetcher(s: State, proj: int -> int)
    requires Sized(s) && Enabled(s, ConsumerStep) && FetcherOK(s) && Tokens(Awaited(s), s.n)
    requires !s.consumer.Receive? ==> OutputOK(s, proj, s.consumer.o)
    requires s.consumer.ReturnOutput? ==> s.outPlace[s.consumer.o] == OutConsumer
    ensures Sized(StepConsumer(s)) && FetcherOK(StepConsumer(s))
  {
    hide Tokens, Awaited;
    ConsumerAwaited(s);
  }

  lemma ConsumerSwaps(s: State, proj: int -> int, i: nat, o: nat)
    requires At(s, proj, i, o) && Enabled(s, ConsumerStep) && ConsumerOK(s, proj) && Tokens(Awaited(s), s.n) &&
             s.consumer.Swap?
    ensures Sized(StepConsumer(s)) && WorkerOK(StepConsumer(s), i) && OutputOK(StepConsumer(s), proj, o)
  {
    hide Tokens, Awaited;
    ConsumerAwaited(s);
  }

  lemma ConsumerReturns(s: State, proj: int -> int, i: nat, o: nat)
    requires At(s, proj, i, o) && Enabled(s, ConsumerStep) && ConsumerOK(s, proj) && Tokens(Awaited(s), s.n) &&
             s.consumer.ReturnOutput?
    ensures Sized(StepConsumer(s)) && WorkerOK(StepConsumer(s), i) && OutputOK(StepConsumer(s), proj, o)
  {
    hide Tokens, Awaited;
    ConsumerAwaited(s);
  }

  lemma ConsumerKeepsConsumer(s: State, proj: int -> int)
    requires Sized(s) && Enabled(s, ConsumerStep) && Channels(s) && Numbered(s) && ConsumerOK(s, proj)
    requires s.consumer.AwaitDone? ==> OutputOK(s, proj, s.consumer.o)
    ensures Sized(StepConsumer(s)) && ConsumerOK(StepConsumer(s), proj)
  {
    if s.consumer.Receive? { assert Awaited(s)[0] == s.globalCh[0] < s.n; }
    if s.consumer.AwaitDone? { assert Awaited(s)[0] == s.consumer.o; }
  }

  lemma ConsumerKeepsNumbers(s: State)
    requires Sized(s) && Enabled(s, ConsumerStep) && Tokens(Awaited(s), s.n) && Numbered(s)
    ensures Sized(StepConsumer(s)) && Numbered(StepConsumer(s))
  {
    hide Tokens, Awaited, Collected, StepConsumer, Enabled, NumberedFrom, FetchedOK;
    ConsumerAwaited(s);
    ConsumerFrame(s);
    if s.consumer.AwaitDone? { NumberedTail(Awaited(s), s.outNo, Collected(s)); }
  }

  lemma ConsumerFrame(s: State)
    requires Sized(s) && Enabled(s, ConsumerStep)
    ensures Sized(StepConsumer(s)) && Collected(StepConsumer(s)) == Collected(s) + if s.consumer.AwaitDone? then 1
        else 0
    ensures StepConsumer(s).outNo == s.outNo && StepConsumer(s).n == s.n && StepConsumer(s).sent == s.sent
    ensures FetchedOK(StepConsumer(s)) == FetchedOK(s)
  {
  }

  lemma ConsumerKeepsChannels(s: State, proj: int -> int)
    requires Sized(s) && Enabled(s, ConsumerStep) && ConsumerOK(s, proj) && Channels(s)
    requires s.consumer.ReturnOutput? ==> OutputOK(s, proj, s.consumer.o)
    ensures StepConsumer(s).n == s.n && Channels(StepConsumer(s))
  {
    ConsumerAwaited(s);
    if s.consumer.ReturnOutput? { TokensAppend(s.outputCh, s.consumer.o, s.n); }
    hide Tokens, Awaited;
  }

  lemma ConsumerKeepsAt(s: State, proj: int -> int, i: nat, o: nat)
    requires At(s, proj, i, o) && Enabled(s, ConsumerStep) && ConsumerOK(s, proj) && Channels(s)
    requires !s.consumer.Receive? ==> OutputOK(s, proj, s.consumer.o)
    ensures Sized(StepConsumer(s)) && WorkerOK(StepConsumer(s), i) && OutputOK(StepConsumer(s), proj, o)
  {
    hide WorkerOK, OutputOK, FetcherOK, Tokens, StepConsumer;
    match s.consumer
    case Receive => ConsumerReceives(s, proj, i, o);
    case AwaitDone(_) => ConsumerTakes(s, proj, i, o);
    case Swap(_) => ConsumerSwaps(s, proj, i, o);
    case ReturnOutput(_) => ConsumerReturns(s, proj, i, o);
  }

  lemma ConsumerKeepsInv(s: State, proj: int -> int)
    requires Inv(s, proj) && Enabled(s, ConsumerStep)
    ensures Inv(StepConsumer(s), proj)
  {
    assert s.consumer.ReturnOutput? ==> s.outPlace[s.consumer.o] == OutConsumer;
    hide WorkerOK, OutputOK, FetcherOK, ConsumerOK, Numbered, Awaited, Tokens, StepConsumer;
    var s' := StepConsumer(s);
    assert !s.consumer.Receive? ==> OutputOK(s, proj, s.consumer.o);
    ConsumerKeepsFetcher(s, proj);
    ConsumerKeepsConsumer(s, proj);
    ConsumerKeepsNumbers(s);
    ConsumerKeepsChannels(s, proj);
    forall i | 0 <= i < s.n ensures WorkerOK(s', i) { ConsumerKeepsAt(s, proj, i, 0); }
    forall o | 0 <= o < s.n ensures OutputOK(s', proj, o) { ConsumerKeepsAt(s, proj, 0, o); }
  }

  // ---------- whole runs ----------

  lemma QuitKeepsInv(s: State, proj: int -> int, a: Action)
    requires Inv(s, proj) && Enabled(s, a) && (a.FetcherQuit? || a.WorkerQuit? || a.Finish?)
    ensures Inv(Do(s, proj, a), proj)
  {
    var s' := Do(s, proj, a);
    assert Awaited(s') == Awaited(s) && Collected(s') == Collected(s);
    forall i | 0 <= i < s.n ensures WorkerOK(s', i) { QuitKeepsAt(s, proj, a, i, 0); }
    forall o | 0 <= o < s.n ensures OutputOK(s', proj, o) { QuitKeepsAt(s, proj, a, 0, o); }
    hide Awaited, Collected, Tokens, WorkerOK, OutputOK, NumberedFrom;
  }

  lemma FetcherQuitKeepsAt(s: State, proj: int -> int, i: nat, o: nat)
    requires At(s, proj, i, o) && Enabled(s, FetcherQuit)
    ensures At(Do(s, proj, FetcherQuit), proj, i, o)
  {
  }

  lemma WorkerQuitKeepsAt(s: State, proj: int -> int, w: nat, i: nat, o: nat)
    requires At(s, proj, i, o) && Enabled(s, WorkerQuit(w))
    ensures At(Do(s, proj, WorkerQuit(w)), proj, i, o)
  {
  }

  lemma FinishKeepsAt(s: State, proj: int -> int, i: nat, o: nat)
    requires At(s, proj, i, o) && Enabled(s, Finish)
    ensures At(Do(s, proj, Finish), proj, i, o)
  {
  }

  lemma QuitKeepsAt(s: State, proj: int -> int, a: Action, i: nat, o: nat)
    requires At(s, proj, i, o) && Enabled(s, a) && (a.FetcherQuit? || a.WorkerQuit? || a.Finish?)
    ensures Sized(Do(s, proj, a)) && WorkerOK(Do(s, proj, a), i) && OutputOK(Do(s, proj, a), proj, o)
  {
    hide WorkerOK, OutputOK, Enabled, Do;
    match a
    case FetcherQuit => FetcherQuitKeepsAt(s, proj, i, o);
    case WorkerQuit(w) => WorkerQuitKeepsAt(s, proj, w, i, o);
    case Finish => FinishKeepsAt(s, proj, i, o);
  }

  lemma StepKeepsInv(s: State, proj: int -> int, a: Action)
    requires Inv(s, proj) && Enabled(s, a)
    ensures Inv(Do(s, proj, a), proj)
  {
    hide Inv;
    match a
    case FetcherStep => FetcherKeepsInv(s, proj);
    case WorkerStep(i) => WorkerKeepsInv(s, proj, i);
    case ConsumerStep => ConsumerKeepsInv(s, proj);
    case ReceiveClosed =>
    case _ => QuitKeepsInv(s, proj, a);
  }

  lemma DoKeepsInput(s: State, proj: int -> int, a: Action)
    requires Sized(s) && Enabled(s, a)
    ensures Do(s, proj, a).child == s.child && Do(s, proj, a).n == s.n
  {
  }

  /** The state after the given interleaving, if every action is possible in its turn. */
  function Execute(s: State, proj: int -> int, actions: seq<Action>): Option<State>
    decreases |actions|
  {
    if actions == [] then Some(s)
    else if Sized(s) && Enabled(s, actions[0]) then Execute(Do(s, proj, actions[0]), proj, actions[1..])
    else None
  }

  lemma {:induction false} ExecuteKeepsInv(s: State, proj: int -> int, actions: seq<Action>)
    requires Inv(s, proj)
    ensures Execute(s, proj, actions).Some? ==> Inv(Execute(s, proj, actions).value, proj)
    ensures Execute(s, proj, actions).Some? ==>
        Execute(s, proj, actions).value.child == s.child && Execute(s, proj, actions).value.n == s.n
    decreases |actions|
  {
    assert Sized(s);
    hide Inv, Do, Enabled;
    if actions != [] && Enabled(s, actions[0]) {
      DoKeepsInput(s, proj, actions[0]);
      StepKeepsInv(s, proj, actions[0]);
      ExecuteKeepsInv(Do(s, proj, actions[0]), proj, actions[1..]);
    }
  }

  /** In every run the k-th chunk returned is the projection of the child's k-th chunk, and
      the chunk after the last one is empty. */
  lemma ReturnsProjectionsInOrder(n: nat, child: seq<int>, proj: int -> int, actions: seq<Action>, k: nat)
    requires n >= 1
    requires Execute(Initial(n, child), proj, actions).Some?
    requires k < |Execute(Initial(n, child), proj, actions).value.returned|
    ensures k <= |child|
    ensures Execute(Initial(n, child), proj, actions).value.returned[k] == if k < |child| then Some(proj(child[k]))
        else None
  {
    InitialInv(n, child, proj);
    ExecuteKeepsInv(Initial(n, child), proj, actions);
    hide Execute, Initial, Tokens, WorkerOK, OutputOK, Awaited;
  }

  // ---------- no send blocks ----------

  function Below(n: nat): (r: set<nat>)
    ensures forall x :: x in r <==> 0 <= x < n
    ensures |r| == n
  {
    if n == 0 then {} else Below(n - 1) + {n - 1}
  }

  lemma {:induction false} CountTokens(ch: seq<nat>, rest: set<nat>)
    requires forall i :: 0 <= i < |ch| ==> ch[i] in rest
    requires forall i, j :: 0 <= i < j < |ch| ==> ch[i] != ch[j]
    ensures |ch| <= |rest|
  {
    if ch != [] { CountTokens(ch[1..], rest - {ch[0]}); }
  }

  /** Distinct buffer numbers that leave one out cannot fill a channel. */
  lemma RoomForToken(ch: seq<nat>, t: nat, n: nat)
    requires Tokens(ch, n) && t !in ch && t < n
    ensures |ch| < n
  {
    CountTokens(ch + [t], Below(n));
  }

  /** Whoever is about to send finds room in the channel. */
  lemma SendsNeverBlock(s: State, proj: int -> int, i: nat)
    requires Inv(s, proj) && i < s.n
    ensures FetcherSendFits(s) && WorkerSendFits(s, i) && ConsumerSendFits(s)
  {
    assert WorkerOK(s, i);
    if s.fetcher.SendGlobal? { RoomForToken(Awaited(s), s.fetcher.o, s.n); }
    if s.fetcher.SendWorkerInput? { assert WorkerOK(s, s.fetcher.w); }
    if s.fetcher.SendDone? { assert OutputOK(s, proj, s.fetcher.o); }
    if s.worker[i].SendResult? { assert OutputOK(s, proj, s.worker[i].o); }
    if s.worker[i].GiveBack? { RoomForToken(s.inputCh, i, s.n); }
    if s.consumer.ReturnOutput? { assert OutputOK(s, proj, s.consumer.o); RoomForToken(s.outputCh, s.consumer.o, s.n); }
    hide Tokens, Numbered;
  }

  // ---------- one writer ----------

  datatype Writer = ByFetcher | ByWorker(i: nat) | ByConsumer

  /** The goroutine's next statement writes input buffer 'w'. */
  predicate WritesInput(s: State, g: Writer, w: nat)
    requires Sized(s)
  {
    match g
    case ByFetcher => s.fetcher.FetchChild? && s.fetcher.w == w
    case ByWorker(i) => i < s.n && s.worker[i].Run? && i == w
    case ByConsumer => false
  }

  predicate WritesOutput(s: State, g: Writer, o: nat)
    requires Sized(s)
  {
    match g
    case ByFetcher => false
    case ByWorker(i) => i < s.n && s.worker[i] == Run(o)
    case ByConsumer => s.consumer == Swap(o)
  }

  lemma OneWriter(s: State, proj: int -> int, g: Writer, h: Writer, b: nat)
    requires Inv(s, proj) && b < s.n
    ensures WritesInput(s, g, b) && WritesInput(s, h, b) ==> g == h
    ensures WritesOutput(s, g, b) && WritesOutput(s, h, b) ==> g == h
  {
    if g.ByWorker? && g.i < s.n { assert WorkerOK(s, g.i); }
    if h.ByWorker? && h.i < s.n { assert WorkerOK(s, h.i); }
    hide Tokens, Numbered, Awaited;
  }

  // ---------- progress ----------

  /** Until the child's chunks and the final empty one are returned, some goroutine can go on. */
  lemma NoDeadlock(s: State, proj: int -> int)
    requires Inv(s, proj) && !s.finished && |s.returned| < |s.child| + 1
    ensures Enabled(s, FetcherStep) || Enabled(s, ConsumerStep) || exists i :: 0 <= i < s.n && Enabled(s, WorkerStep(i))
  {
    SendsNeverBlock(s, proj, 0);
    if s.consumer.AwaitDone? {
      assert Awaited(s)[0] == s.consumer.o;
      OutputMoves(s, proj, s.consumer.o);
    } else if s.consumer.Receive? && s.globalCh == [] && !FetcherCanStep(s) {
      assert Awaited(s) == [];
      QuietFetcherMoves(s, proj);
    }
  }

  /** The fetcher is neither gone nor waiting for a buffer. */
  predicate FetcherCanStep(s: State) {
    !s.fetcher.FetcherExited? && !s.fetcher.ReadInput? && !s.fetcher.ReadOutput?
  }

  lemma OutputMoves(s: State, proj: int -> int, o: nat)
    requires Inv(s, proj) && !s.finished && s.consumer == AwaitDone(o) && o in Awaited(s)
    ensures Enabled(s, FetcherStep) || Enabled(s, ConsumerStep) || exists i :: 0 <= i < s.n && Enabled(s, WorkerStep(i))
  {
    assert OutputOK(s, proj, o);
    match s.outPlace[o]
    case OutFetcher => SendsNeverBlock(s, proj, 0);
    case OutWorkerCh(w) => assert WorkerOK(s, w); assert Enabled(s, WorkerStep(w));
    case OutWorker(w) => SendsNeverBlock(s, proj, w); assert WorkerOK(s, w); assert Enabled(s, WorkerStep(w));
    case OutDone => assert Enabled(s, ConsumerStep);
  }

  lemma QuietFetcherMoves(s: State, proj: int -> int)
    requires Inv(s, proj) && !s.finished && Awaited(s) == [] && s.consumer.Receive? && !FetcherCanStep(s)
    requires |s.returned| < |s.child| + 1
    ensures Enabled(s, FetcherStep) || exists i :: 0 <= i < s.n && Enabled(s, WorkerStep(i))
  {
    assert WorkerOK(s, 0) && OutputOK(s, proj, 0);
    if s.fetcher.ReadInput? {
      SendsNeverBlock(s, proj, 0);
      if !Enabled(s, WorkerStep(0)) { assert 0 in s.inputCh; }
    } else if s.fetcher.ReadOutput? {
      assert s.outPlace[0].OutWorkerCh? && s.outPlace[0].w < s.n ==> WorkerOK(s, s.outPlace[0].w);
      assert s.outPlace[0].OutWorker? && s.outPlace[0].w < s.n ==> WorkerOK(s, s.outPlace[0].w);
      assert 0 in s.outputCh;
    }
  }

  // ---------- after finishCh is closed ----------

  function FetcherRank(f: Fetcher): nat {
    match f
    case SendGlobal(_, _) => 8
    case FetchChild(_, _) => 7
    case SendWorkerInput(_, _) => 6
    case SendWorkerOutput(_, _) => 5
    case ReadInput => 4
    case ReadOutput(_) => 3
    case SendDone(_) => 2
    case CloseGlobal => 1
    case FetcherExited => 0
  }

  /** How many statements worker 'w' may still execute, counting an input waiting for it. */
  function WorkerRank(w: Worker, input: bool): nat {
    (match w
     case TakeOutput => 5
     case Run(_) => 4
     case SendResult(_) => 3
     case GiveBack => 2
     case TakeInput => 1
     case WorkerExited => 0) + if input then 6 else 0
  }

  function WorkersRank(worker: seq<Worker>, workerIn: seq<bool>): nat
    requires |worker| == |workerIn|
  {
    if worker == [] then 0
    else
      var k := |worker| - 1;
      WorkerRank(worker[k], workerIn[k]) + WorkersRank(worker[..k], workerIn[..k])
  }

  /** Bounds the steps left once the consumer has closed finishCh: outputs no longer come back. */
  function StepsLeft(s: State): nat
    requires Sized(s)
  {
    7 * (10 * |s.outputCh| + FetcherRank(s.fetcher)) + WorkersRank(s.worker, s.workerIn)
  }

  lemma {:induction false} WorkersRankUpdate(worker: seq<Worker>, workerIn: seq<bool>, i: nat, w: Worker, b: bool)
    requires |worker| == |workerIn| && i < |worker|
    ensures WorkersRank(worker[i := w], workerIn[i := b]) ==
            WorkersRank(worker, workerIn) - WorkerRank(worker[i], workerIn[i]) + WorkerRank(w, b)
  {
    var k := |worker| - 1;
    if i < k {
      WorkersRankUpdate(worker[..k], workerIn[..k], i, w, b);
      assert worker[i := w][..k] == worker[..k][i := w] && workerIn[i := b][..k] == workerIn[..k][i := b];
    } else {
      assert worker[i := w][..k] == worker[..k] && workerIn[i := b][..k] == workerIn[..k];
    }
  }

  lemma {:induction false} WorkersRankBound(worker: seq<Worker>, workerIn: seq<bool>)
    requires |worker| == |workerIn|
    ensures WorkersRank(worker, workerIn) <= 11 * |worker|
  {
    if worker != [] { WorkersRankBound(worker[..|worker| - 1], workerIn[..|worker| - 1]); }
  }

  lemma WorkerDecreases(s: State, proj: int -> int, i: nat)
    requires Sized(s) && Enabled(s, WorkerStep(i))
    ensures Sized(StepWorker(s, proj, i)) && StepsLeft(StepWorker(s, proj, i)) < StepsLeft(s) &&
            StepWorker(s, proj, i).finished == s.finished
  {
    hide WorkersRank;
    var s' := StepWorker(s, proj, i);
    WorkersRankUpdate(s.worker, s.workerIn, i, s'.worker[i], s'.workerIn[i]);
    assert s'.worker == s.worker[i := s'.worker[i]] && s'.workerIn == s.workerIn[i := s'.workerIn[i]];
  }

  lemma FetcherDecreases(s: State)
    requires Sized(s) && Enabled(s, FetcherStep)
    ensures Sized(StepFetcher(s)) && StepsLeft(StepFetcher(s)) < StepsLeft(s) && StepFetcher(s).finished == s.finished
  {
    hide WorkersRank;
    if s.fetcher.SendWorkerInput? {
      var w := s.fetcher.w;
      WorkersRankUpdate(s.worker, s.workerIn, w, s.worker[w], true);
      assert s.worker == s.worker[w := s.worker[w]];
    }
  }

  lemma StepDecreases(s: State, proj: int -> int, a: Action)
    requires Sized(s) && s.finished && Enabled(s, a)
    ensures Sized(Do(s, proj, a)) && StepsLeft(Do(s, proj, a)) < StepsLeft(s) && Do(s, proj, a).finished
  {
    match a
    case FetcherStep => FetcherDecreases(s);
    case FetcherQuit =>
    case WorkerStep(i) => WorkerDecreases(s, proj, i);
    case WorkerQuit(i) =>
      WorkersRankUpdate(s.worker, s.workerIn, i, WorkerExited, s.workerIn[i]);
      assert s.workerIn == s.workerIn[i := s.workerIn[i]];
  }

  lemma {:induction false} FinishedRunBound(s: State, proj: int -> int, actions: seq<Action>)
    requires Sized(s) && s.finished
    ensures Execute(s, proj, actions).Some? ==> |actions| <= StepsLeft(s)
    decreases |actions|
  {
    if actions != [] && Enabled(s, actions[0]) {
      StepDecreases(s, proj, actions[0]);
      FinishedRunBound(Do(s, proj, actions[0]), proj, actions[1..]);
    }
  }

  lemma FullChannel(s: State, proj: int -> int)
    requires Inv(s, proj)
    ensures |s.outputCh| <= s.n && Sized(s)
  {
    CountTokens(s.outputCh, Below(s.n));
  }

  /** After finishCh is closed fetcher and workers together take at most 81n + 56 more steps,
      however many chunks the child still has. */
  lemma BoundedAfterFinish(s: State, proj: int -> int, actions: seq<Action>)
    requires Inv(s, proj) && s.finished && Execute(s, proj, actions).Some?
    ensures |actions| <= 81 * s.n + 56
  {
    FullChannel(s, proj);
    hide Execute, WorkersRank, Inv;
    FinishedRunBound(s, proj, actions);
    WorkersRankBound(s.worker, s.workerIn);
  }

  /** Where no goroutine can go on after finishCh is closed, all of them are gone, so that
      Close, which waits for them, returns. */
  lemma FinishedMeansGone(s: State, proj: int -> int)
    requires Inv(s, proj) && s.finished && forall a :: !Enabled(s, a)
    ensures s.fetcher.FetcherExited? && forall i :: 0 <= i < s.n ==> s.worker[i].WorkerExited?
  {
    SendsNeverBlock(s, proj, 0);
    assert !Enabled(s, FetcherStep) && !Enabled(s, FetcherQuit);
    forall i | 0 <= i < s.n ensures s.worker[i].WorkerExited? {
      SendsNeverBlock(s, proj, i);
      assert WorkerOK(s, i);
      assert !Enabled(s, WorkerStep(i)) && !Enabled(s, WorkerQuit(i));
    }
  }

  // ---------- every reachable state ----------

  ghost predicate Reachable(s: State, n: nat, child: seq<int>, proj: int -> int) {
    n >= 1 && exists actions :: Execute(Initial(n, child), proj, actions) == Some(s)
  }

  lemma ReachableInv(s: State, n: nat, child: seq<int>, proj: int -> int)
    requires Reachable(s, n, child, proj)
    ensures Inv(s, proj) && s.n == n && s.child == child
  {
    hide Execute, Inv;
    var actions :| Execute(Initial(n, child), proj, actions) == Some(s);
    InitialInv(n, child, proj);
    ExecuteKeepsInv(Initial(n, child), proj, actions);
  }

  /** While the consumer runs: no send blocks, no buffer has two writers, some goroutine can go
      on until everything is returned, and the closed channel is seen only after that. */
  lemma ReachableStatesAreSafe(s: State, n: nat, child: seq<int>, proj: int -> int, i: nat, g: Writer, h: Writer,
                               b: nat)
    requires Reachable(s, n, child, proj) && i < n && b < n
    ensures Sized(s) && FetcherSendFits(s) && i < s.n && WorkerSendFits(s, i) && ConsumerSendFits(s)
    ensures WritesInput(s, g, b) && WritesInput(s, h, b) ==> g == h
    ensures WritesOutput(s, g, b) && WritesOutput(s, h, b) ==> g == h
    ensures !s.finished && |s.returned| <= |child| ==>
              Enabled(s, FetcherStep) || Enabled(s, ConsumerStep) || exists k :: 0 <= k < n && Enabled(s, WorkerStep(k))
    ensures Enabled(s, ReceiveClosed) ==> |s.returned| == |child| + 1
  {
    ReachableInv(s, n, child, proj);
    SendsNeverBlock(s, proj, i);
    OneWriter(s, proj, g, h, b);
    if !s.finished && |s.returned| <= |child| { NoDeadlock(s, proj); }
    if Enabled(s, ReceiveClosed) { ClosedAtEnd(s, proj); }
  }

  lemma ClosedAtEnd(s: State, proj: int -> int)
    requires Inv(s, proj) && Enabled(s, ReceiveClosed)
    ensures |s.returned| == |s.child| + 1
  {
    assert Awaited(s) == [];
  }

  /** After Close has closed finishCh every run is bounded, and where it stops all goroutines are gone. */
  lemma CloseReturns(s: State, n: nat, child: seq<int>, proj: int -> int, actions: seq<Action>)
    requires Reachable(s, n, child, proj) && s.finished && Execute(s, proj, actions).Some?
    ensures |actions| <= 81 * n + 56
    ensures var t := Execute(s, proj, actions).value;
            && Sized(t) && t.n == n
            && ((forall a :: !Enabled(t, a)) ==> t.fetcher.FetcherExited? && forall i ::
                  0 <= i < n ==> t.worker[i].WorkerExited?)
  {
    ReachableInv(s, n, child, proj);
    BoundedAfterFinish(s, proj, actions);
    ExecuteKeepsInv(s, proj, actions);
    StaysFinished(s, proj, actions);
    var t := Execute(s, proj, actions).value;
    hide Execute;
    assert Sized(t);
    if forall a :: !Enabled(t, a) { FinishedMeansGone(t, proj); }
  }

  lemma {:induction false} StaysFinished(s: State, proj: int -> int, actions: seq<Action>)
    requires Sized(s) && s.finished && Execute(s, proj, actions).Some?
    ensures Execute(s, proj, actions).value.finished
    decreases |actions|
  {
    if actions != [] {
      StepDecreases(s, proj, actions[0]);
      StaysFinished(Do(s, proj, actions[0]), proj, actions[1..]);
    }
  }

  lemma TokensTail(ch: seq<nat>, n: nat)
    requires Tokens(ch, n) && ch != []
    ensures Tokens(ch[1..], n) && forall t :: t in ch[1..] <==> t in ch && t != ch[0]
  {
    forall t | t in ch && t != ch[0] ensures t in ch[1..] {
      var k :| 0 <= k < |ch| && ch[k] == t;
      assert ch[1..][k - 1] == t;
    }
  }

  lemma TokensAppend(ch: seq<nat>, t: nat, n: nat)
    requires Tokens(ch, n) && t !in ch && t < n
    ensures Tokens(ch + [t], n) && forall u :: u in ch + [t] <==> u in ch || u == t
  {
  }
}
