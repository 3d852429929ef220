/** The crawl engine of `pkg/crawler/engine.go`: a bounded queue, N workers, any number of adders, a canceller
    and one call of `Wait`, interleaved.

    `urlWg` is the WaitGroup that counts pending URLs. A request is a pointer, so two requests are equal only
    if they come from the same `AddURL` call; the model gives each its own number. `processed` and `drained`
    record the requests for which `urlWg.Done` was called by a worker and by `Wait`'s drain loop. */
module Engine {
  import opened Tally

  type Url = string

  datatype Request = Request(id: nat, url: Url)

  datatype Report = Report(request: Request, ok: bool)

  /** `AddURL`: past the stopped check; counted but not yet queued; refused because the queue was full. */
  datatype AdderPc = Away | Checked(request: Request) | Counted(request: Request) | Refused(request: Request)

  /** `worker`: waiting at its select; inside `processRequest`; callbacks fired, `Done` not yet called. */
  datatype WorkerPc = Ready | Processing(request: Request) | Reported(request: Request) | Exited

  /** `Wait`: at its select; in the drain loop; between a drained item and its `Done`; waiting for workers. */
  datatype WaitPc =
    | NotCalled
    | Waiting
    | Draining
    | Drained(request: Request)
    | Cleanup(interrupted: bool)
    | Returned(interrupted: bool)

  /** `zeroSeen`: the helper goroutine of `Wait` has returned from `urlWg.Wait`. */
  datatype Flags = Flags(started: bool, stopped: bool, cancelled: bool, zeroSeen: bool)

  /** What has happened: accepted requests, requests marked done by workers and by the drain loop, callbacks. */
  datatype Log = Log(
    accepted: multiset<Request>,
    processed: multiset<Request>,
    drained: multiset<Request>,
    reports: seq<Report>
  )

  datatype State = State(
    queue: seq<Request>,
    urlWg: int,
    flags: Flags,
    adders: seq<AdderPc>,
    workers: seq<WorkerPc>,
    waiter: WaitPc,
    nextId: nat,
    log: Log
  )

  const QUEUE_CAPACITY: nat := 10000

  datatype AdderAct = CheckStopped(url: Url) | AddToWg | TrySend | UndoAdd

  datatype WorkerAct = Receive | FireCallbacks(ok: bool) | Done | Exit

  datatype WaitAct = CallWait | SeeZero | AllDone | SeeCancel | DrainOne | DrainDone | DrainEmpty | WaitReturns

  datatype ControlAct = Start | SetStopped | Cancel

  datatype Event =
    | Adder(i: nat, add: AdderAct)
    | Worker(i: nat, work: WorkerAct)
    | Waiter(wait: WaitAct)
    | Control(act: ControlAct)

  predicate AdderEnabled(s: State, i: nat, a: AdderAct) {
    i < |s.adders| &&
    match a
    case CheckStopped(_) => s.adders[i].Away? && !s.flags.stopped
    case AddToWg => s.adders[i].Checked?
    case TrySend => s.adders[i].Counted?
    case UndoAdd => s.adders[i].Refused?
  }

  function AdderStep(s: State, i: nat, a: AdderAct): State
    requires AdderEnabled(s, i, a)
  {
    match a
    case CheckStopped(url) => s.(adders := s.adders[i := Checked(Request(s.nextId, url))], nextId := s.nextId + 1)
    case AddToWg => s.(urlWg := s.urlWg + 1, adders := s.adders[i := Counted(s.adders[i].request)])
    case TrySend =>
      var r := s.adders[i].request;
      if |s.queue| < QUEUE_CAPACITY then
        s.(queue := s.queue + [r], log := s.log.(accepted := s.log.accepted + multiset{r}),
           adders := s.adders[i := Away])
      else
        s.(adders := s.adders[i := Refused(r)])
    case UndoAdd => s.(urlWg := s.urlWg - 1, adders := s.adders[i := Away])
  }

  predicate WorkerEnabled(s: State, i: nat, a: WorkerAct) {
    s.flags.started && i < |s.workers| &&
    match a
    case Receive => s.workers[i].Ready? && s.queue != []
    case FireCallbacks(_) => s.workers[i].Processing?
    case Done => s.workers[i].Reported?
    case Exit => s.workers[i].Ready? && s.flags.cancelled
  }

  function WorkerStep(s: State, i: nat, a: WorkerAct): State
    requires WorkerEnabled(s, i, a)
  {
    match a
    case Receive => s.(queue := s.queue[1..], workers := s.workers[i := Processing(s.queue[0])])
    case FireCallbacks(ok) =>
      var r := s.workers[i].request;
      s.(log := s.log.(reports := s.log.reports + [Report(r, ok)]), workers := s.workers[i := Reported(r)])
    case Done =>
      var r := s.workers[i].request;
      s.(urlWg := s.urlWg - 1, log := s.log.(processed := s.log.processed + multiset{r}),
         workers := s.workers[i := Ready])
    case Exit => s.(workers := s.workers[i := Exited])
  }

  predicate WaitEnabled(s: State, a: WaitAct) {
    match a
    case CallWait => s.flags.started && s.waiter.NotCalled?
    case SeeZero => !s.waiter.NotCalled? && s.urlWg == 0
    case AllDone => s.waiter.Waiting? && s.flags.zeroSeen
    case SeeCancel => s.waiter.Waiting? && s.flags.cancelled
    case DrainOne => s.waiter.Draining? && s.queue != []
    case DrainDone => s.waiter.Drained?
    case DrainEmpty => s.waiter.Draining? && s.queue == []
    case WaitReturns => s.waiter.Cleanup? && forall i | 0 <= i < |s.workers| :: s.workers[i].Exited?
  }

  function WaitStep(s: State, a: WaitAct): State
    requires WaitEnabled(s, a)
  {
    match a
    case CallWait => s.(waiter := Waiting)
    case SeeZero => s.(flags := s.flags.(zeroSeen := true))
    case AllDone => s.(flags := s.flags.(cancelled := true), waiter := Cleanup(false))
    case SeeCancel => s.(waiter := Draining)
    case DrainOne => s.(queue := s.queue[1..], waiter := Drained(s.queue[0]))
    case DrainDone =>
      s.(urlWg := s.urlWg - 1, log := s.log.(drained := s.log.drained + multiset{s.waiter.request}), waiter := Draining)
    case DrainEmpty => s.(waiter := Cleanup(true))
    case WaitReturns => s.(waiter := Returned(s.waiter.interrupted))
  }

  predicate Enabled(s: State, e: Event) {
    match e
    case Adder(i, a) => AdderEnabled(s, i, a)
    case Worker(i, a) => WorkerEnabled(s, i, a)
    case Waiter(a) => WaitEnabled(s, a)
    case Control(Start) => !s.flags.started
    case Control(SetStopped) => true
    case Control(Cancel) => s.flags.started
  }

  function Apply(s: State, e: Event): State
    requires Enabled(s, e)
  {
    match e
    case Adder(i, a) => AdderStep(s, i, a)
    case Worker(i, a) => WorkerStep(s, i, a)
    case Waiter(a) => WaitStep(s, a)
    case Control(Start) => s.(flags := s.flags.(started := true))
    case Control(SetStopped) => s.(flags := s.flags.(stopped := true))
    case Control(Cancel) => s.(flags := s.flags.(cancelled := true))
  }

  ghost predicate Next(s: State, s': State) {
    exists e :: Enabled(s, e) && s' == Apply(s, e)
  }

  /** A new engine, with idle adders and workers that have not been started. */
  ghost predicate Init(s: State) {
    && s.queue == [] && s.urlWg == 0 && s.flags == Flags(false, false, false, false)
    && (forall i | 0 <= i < |s.adders| :: s.adders[i] == Away)
    && (forall i | 0 <= i < |s.workers| :: s.workers[i] == Ready)
    && s.waiter == NotCalled
    && s.log == Log(multiset{}, multiset{}, multiset{}, [])
  }

  ghost predicate IsRun(run: seq<State>) {
    && |run| > 0
    && Init(run[0])
    && forall k | 0 <= k < |run| - 1 :: Next(run[k], run[k + 1])
  }

  // What each party holds.

  /** The adder's request is counted by `urlWg` although it is not in the queue. */
  predicate PendingAdd(pc: AdderPc) {
    pc.Counted? || pc.Refused?
  }

  predicate Busy(pc: WorkerPc) {
    pc.Processing? || pc.Reported?
  }

  function AdderHas(r: Request): AdderPc -> bool {
    (pc: AdderPc) => !pc.Away? && pc.request == r
  }

  function WorkerHas(r: Request): WorkerPc -> bool {
    (pc: WorkerPc) => Busy(pc) && pc.request == r
  }

  /** The request's callbacks have fired but its `Done` has not happened. */
  function WorkerReported(r: Request): WorkerPc -> bool {
    (pc: WorkerPc) => pc.Reported? && pc.request == r
  }

  function WaiterHas(pc: WaitPc, r: Request): nat {
    if pc == Drained(r) then 1 else 0
  }

  /** How often callbacks have fired for `r`. */
  function Reports(reports: seq<Report>, r: Request): nat {
    if reports == [] then 0
    else Reports(reports[..|reports| - 1], r) + (if reports[|reports| - 1].request == r then 1 else 0)
  }

  // The invariant.

  /** The WaitGroup counts exactly the queued requests and those held by adders, workers and the drain loop. */
  ghost predicate WgInv(s: State) {
    s.urlWg == |s.queue| + Count(s.adders, PendingAdd) + Count(s.workers, Busy) + (if s.waiter.Drained? then 1 else 0)
  }

  /** How often `urlWg.Done` has been called for a request that had been accepted. */
  function Dones(s: State, r: Request): nat {
    s.log.processed[r] + s.log.drained[r]
  }

  /** Every accepted request is in exactly one place: queued, in a worker, in the drain loop, or done. */
  ghost predicate PlaceInv(s: State, r: Request) {
    s.log.accepted[r] == multiset(s.queue)[r] + Count(s.workers, WorkerHas(r)) + WaiterHas(s.waiter, r) + Dones(s, r)
  }

  /** Callbacks fire exactly once for each processed request. */
  ghost predicate ReportInv(s: State, r: Request) {
    Reports(s.log.reports, r) == s.log.processed[r] + Count(s.workers, WorkerReported(r))
  }

  /** Each request is made by a single call of `AddURL`. */
  ghost predicate FreshInv(s: State, r: Request) {
    var made := s.log.accepted[r] + Count(s.adders, AdderHas(r));
    made <= 1 && (r.id >= s.nextId ==> made == 0)
  }

  ghost predicate ControlInv(s: State) {
    && |s.queue| <= QUEUE_CAPACITY
    && (s.waiter.NotCalled? || s.waiter.Waiting? || s.waiter == Cleanup(false) || s.waiter == Returned(false) ==>
          s.log.drained == multiset{})
    && (s.waiter == Cleanup(false) || s.waiter == Returned(false) ==> s.flags.zeroSeen)
    && (s.flags.zeroSeen ==> !s.waiter.NotCalled?)
    && (s.waiter.Returned? ==> forall i | 0 <= i < |s.workers| :: s.workers[i].Exited?)
  }

  ghost predicate RequestInv(s: State, r: Request) {
    PlaceInv(s, r) && ReportInv(s, r) && FreshInv(s, r)
  }

  ghost predicate Inv(s: State) {
    WgInv(s) && ControlInv(s) && forall r :: RequestInv(s, r)
  }

  lemma InitInv(s: State)
    requires Init(s)
    ensures Inv(s)
  {
    CountNone(s.adders, PendingAdd);
    CountNone(s.workers, Busy);
    forall r ensures RequestInv(s, r) {
      CountNone(s.adders, AdderHas(r));
      CountNone(s.workers, WorkerHas(r));
      CountNone(s.workers, WorkerReported(r));
    }
  }

  lemma AdderKeepsInv(s: State, i: nat, a: AdderAct, r: Request)
    requires AdderEnabled(s, i, a) && WgInv(s) && RequestInv(s, r)
    ensures WgInv(AdderStep(s, i, a)) && RequestInv(AdderStep(s, i, a), r)
  {
    var pc := AdderStep(s, i, a).adders[i];
    CountUpdate(s.adders, i, pc, PendingAdd);
    CountUpdate(s.adders, i, pc, AdderHas(r));
  }

  lemma WorkerKeepsWg(s: State, i: nat, a: WorkerAct)
    requires WorkerEnabled(s, i, a) && WgInv(s)
    ensures WgInv(WorkerStep(s, i, a))
  {
    CountUpdate(s.workers, i, WorkerStep(s, i, a).workers[i], Busy);
  }

  lemma WorkerKeepsRequest(s: State, i: nat, a: WorkerAct, r: Request)
    requires WorkerEnabled(s, i, a) && RequestInv(s, r)
    ensures RequestInv(WorkerStep(s, i, a), r)
  {
    var s' := WorkerStep(s, i, a);
    CountUpdate(s.workers, i, s'.workers[i], WorkerHas(r));
    CountUpdate(s.workers, i, s'.workers[i], WorkerReported(r));
    if a.Receive? {
      assert s.queue == [s.queue[0]] + s.queue[1..];
    } else if a.FireCallbacks? {
      assert s'.log.reports[..|s'.log.reports| - 1] == s.log.reports;
    }
  }

  lemma WaiterKeepsInv(s: State, a: WaitAct, r: Request)
    requires WaitEnabled(s, a) && WgInv(s) && RequestInv(s, r)
    ensures WgInv(WaitStep(s, a)) && RequestInv(WaitStep(s, a), r)
  {
    if a.DrainOne? {
      assert s.queue == [s.queue[0]] + s.queue[1..];
    }
  }

  lemma StepRequestInv(s: State, e: Event, r: Request)
    requires Enabled(s, e) && WgInv(s) && RequestInv(s, r)
    ensures WgInv(Apply(s, e)) && RequestInv(Apply(s, e), r)
  {
    match e
    case Adder(i, a) => AdderKeepsInv(s, i, a, r);
    case Worker(i, a) =>
      WorkerKeepsWg(s, i, a);
      WorkerKeepsRequest(s, i, a, r);
    case Waiter(a) => WaiterKeepsInv(s, a, r);
    case Control(a) =>
  }

  lemma WaiterControlInv(s: State, a: WaitAct)
    requires WaitEnabled(s, a) && ControlInv(s)
    ensures ControlInv(WaitStep(s, a))
  {
  }

  lemma StepControlInv(s: State, e: Event)
    requires Enabled(s, e) && ControlInv(s)
    ensures ControlInv(Apply(s, e))
  {
    match e
    case Adder(i, a) =>
    case Worker(i, a) =>
    case Waiter(a) => WaiterControlInv(s, a);
    case Control(a) =>
  }

  lemma StepInv(s: State, e: Event)
    requires Enabled(s, e) && Inv(s)
    ensures Inv(Apply(s, e))
  {
    StepControlInv(s, e);
    StepRequestInv(s, e, Request(0, ""));
    forall r ensures WgInv(Apply(s, e)) && RequestInv(Apply(s, e), r) {
      StepRequestInv(s, e, r);
    }
  }

  lemma NextEvent(s: State, s': State) returns (e: Event)
    requires Next(s, s')
    ensures Enabled(s, e) && s' == Apply(s, e)
  {
    e :| Enabled(s, e) && s' == Apply(s, e);
  }

  /** The invariant holds in every state of every sequence of steps that starts in a state that satisfies it. */
  lemma {:induction false} StepsKeepInv(run: seq<State>, k: nat)
    requires k < |run| && Inv(run[0]) && forall j | 0 <= j < |run| - 1 :: Next(run[j], run[j + 1])
    ensures Inv(run[k])
  {
    if k > 0 {
      StepsKeepInv(run, k - 1);
      assert Next(run[k - 1], run[k - 1 + 1]);
      var e := NextEvent(run[k - 1], run[k]);
      StepInv(run[k - 1], e);
    }
  }

  /** In every interleaving the URL WaitGroup equals queued + held by workers + held by adders that have
      counted but not queued (or not yet un-counted) their request + held by the drain loop, so it is never
      negative and `Done` never panics; and the bounded queue is never overfull. */
  lemma WaitGroupAccounting(run: seq<State>, k: nat)
    requires IsRun(run) && k < |run|
    ensures var s := run[k];
      && s.urlWg == |s.queue| + Count(s.workers, Busy) + Count(s.adders, PendingAdd)
                    + (if s.waiter.Drained? then 1 else 0)
      && s.urlWg >= 0 && |s.queue| <= QUEUE_CAPACITY
      && (forall i | 0 <= i < |s.workers| && s.workers[i].Reported? :: s.urlWg >= 1)
      && (forall i | 0 <= i < |s.adders| && s.adders[i].Refused? :: s.urlWg >= 1)
  {
    InitInv(run[0]);
    StepsKeepInv(run, k);
    var s := run[k];
    forall i | 0 <= i < |s.workers| && s.workers[i].Reported? ensures s.urlWg >= 1 {
      CountMember(s.workers, i, Busy);
    }
    forall i | 0 <= i < |s.adders| && s.adders[i].Refused? ensures s.urlWg >= 1 {
      CountMember(s.adders, i, PendingAdd);
    }
  }

  /** Each accepted request gets at most one `Done`, and exactly one as soon as it is neither queued nor held. */
  lemma ExactlyOneDone(run: seq<State>, k: nat, r: Request)
    requires IsRun(run) && k < |run|
    ensures var s := run[k];
      && Dones(s, r) <= s.log.accepted[r] <= 1
      && (r in s.log.accepted && r !in s.queue && Count(s.workers, WorkerHas(r)) == 0 && s.waiter != Drained(r) ==>
          Dones(s, r) == 1)
  {
    InitInv(run[0]);
    StepsKeepInv(run, k);
    assert RequestInv(run[k], r);
  }

  /** Every request accepted so far has been fully processed by a worker. */
  ghost predicate AllProcessed(s: State) {
    s.log.accepted == s.log.processed && s.queue == [] && s.urlWg == 0
  }

  /** If the WaitGroup is zero and nothing was drained then everything accepted was processed. */
  lemma ZeroMeansProcessed(s: State)
    requires Inv(s) && s.urlWg == 0 && s.log.drained == multiset{}
    ensures AllProcessed(s)
  {
    forall r ensures s.log.accepted[r] == s.log.processed[r] {
      assert RequestInv(s, r);
      CountMonotone(s.workers, WorkerHas(r), Busy);
    }
  }

  /** What has been processed or drained stays so. */
  lemma LogGrows(s: State, s': State, r: Request)
    requires Next(s, s')
    ensures s.log.drained[r] <= s'.log.drained[r] && s.log.processed[r] <= s'.log.processed[r]
  {
    var e := NextEvent(s, s');
  }

  lemma LogGrowsOver(run: seq<State>, j: nat, k: nat, r: Request)
    requires j <= k < |run| && forall i | 0 <= i < |run| - 1 :: Next(run[i], run[i + 1])
    ensures run[j].log.drained[r] <= run[k].log.drained[r] && run[j].log.processed[r] <= run[k].log.processed[r]
  {
    forall s, s' | Next(s, s')
      ensures s.log.drained[r] <= s'.log.drained[r] && s.log.processed[r] <= s'.log.processed[r]
    {
      LogGrows(s, s', r);
    }
    NeverFalls(run, Next, (s: State) => s.log.drained[r], j, k);
    NeverFalls(run, Next, (s: State) => s.log.processed[r], j, k);
  }

  lemma NothingDrainedBefore(run: seq<State>, j: nat, k: nat)
    requires j <= k < |run| && run[k].log.drained == multiset{}
    requires forall i | 0 <= i < |run| - 1 :: Next(run[i], run[i + 1])
    ensures run[j].log.drained == multiset{}
  {
    forall r ensures run[j].log.drained[r] == 0 {
      LogGrowsOver(run, j, k, r);
    }
  }

  /** The helper goroutine of `Wait` saw zero only at an instant after `Wait` was called when the counter was zero. */
  lemma {:induction false} ZeroInstant(run: seq<State>, k: nat) returns (z: nat)
    requires k < |run| && !run[0].flags.zeroSeen && run[k].flags.zeroSeen
    requires forall j | 0 <= j < |run| - 1 :: Next(run[j], run[j + 1])
    ensures z <= k && run[z].urlWg == 0 && !run[z].waiter.NotCalled?
  {
    if run[k - 1].flags.zeroSeen {
      z := ZeroInstant(run, k - 1);
    } else {
      assert Next(run[k - 1], run[k - 1 + 1]);
      var e := NextEvent(run[k - 1], run[k]);
      z := k - 1;
    }
  }

  /** When `Wait` returns nil there was an instant after `Wait` was called at which every URL accepted so far,
      including those added in callbacks, had been fully processed by a worker; nothing was ever drained. */
  lemma WaitNilMeansProcessed(run: seq<State>, k: nat)
    requires IsRun(run) && k < |run| && run[k].waiter == Returned(false)
    ensures exists z :: 0 <= z <= k && !run[z].waiter.NotCalled? && AllProcessed(run[z])
    ensures run[k].log.drained == multiset{}
  {
    InitInv(run[0]);
    StepsKeepInv(run, k);
    var z := ZeroInstant(run, k);
    StepsKeepInv(run, z);
    NothingDrainedBefore(run, z, k);
    ZeroMeansProcessed(run[z]);
  }

  /** At the moment when `Wait` returns, cleanly or not, every accepted request has been processed by a worker, or was
      drained, or is still queued; and a clean return has drained nothing. */
  lemma UnprocessedIsQueued(run: seq<State>, k: nat)
    requires IsRun(run) && k < |run| && run[k].waiter.Returned?
    ensures run[k].log.accepted == run[k].log.processed + run[k].log.drained + multiset(run[k].queue)
    ensures run[k].waiter == Returned(false) ==>
      && run[k].log.accepted == run[k].log.processed + multiset(run[k].queue)
      && (run[k].log.accepted == run[k].log.processed <==> run[k].queue == [])
  {
    InitInv(run[0]);
    StepsKeepInv(run, k);
    var s := run[k];
    forall r ensures s.log.accepted[r] == s.log.processed[r] + s.log.drained[r] + multiset(s.queue)[r] {
      assert RequestInv(s, r);
      CountNone(s.workers, WorkerHas(r));
    }
    if s.queue != [] {
      assert s.queue[0] in multiset(s.queue);
    }
  }

  /** So if nothing was accepted after the instant at which everything had been processed, everything that was ever
      accepted, from wherever it was added, has been processed when `Wait` returns nil. */
  lemma AllProcessedAtReturn(run: seq<State>, z: nat, k: nat)
    requires IsRun(run) && z <= k < |run| && run[k].waiter == Returned(false)
    requires AllProcessed(run[z]) && run[k].log.accepted == run[z].log.accepted
    ensures run[k].log.processed == run[k].log.accepted && run[k].queue == []
  {
    UnprocessedIsQueued(run, k);
    var s := run[k];
    forall r ensures s.log.processed[r] == s.log.accepted[r] {
      LogGrowsOver(run, z, k, r);
      assert s.log.accepted[r] == (s.log.processed + multiset(s.queue))[r];
    }
  }

  /** The drain loop of `Wait` ends only at an instant when the queue is empty. */
  lemma {:induction false} DrainInstant(run: seq<State>, k: nat) returns (z: nat)
    requires IsRun(run) && k < |run| && (run[k].waiter == Cleanup(true) || run[k].waiter == Returned(true))
    ensures z <= k && run[z].queue == [] && run[z].flags.cancelled && run[z].waiter == Draining
  {
    assert Next(run[k - 1], run[k - 1 + 1]);
    var e := NextEvent(run[k - 1], run[k]);
    if run[k - 1].waiter == Cleanup(true) || run[k - 1].waiter == Returned(true) {
      z := DrainInstant(run, k - 1);
    } else {
      z := k - 1;
      DrainsOnlyCancelled(run, z);
    }
  }

  lemma {:induction false} DrainsOnlyCancelled(run: seq<State>, k: nat)
    requires IsRun(run) && k < |run| && (run[k].waiter.Draining? || run[k].waiter.Drained?)
    ensures run[k].flags.cancelled
  {
    assert Next(run[k - 1], run[k - 1 + 1]);
    var e := NextEvent(run[k - 1], run[k]);
    if run[k - 1].waiter.Draining? || run[k - 1].waiter.Drained? {
      DrainsOnlyCancelled(run, k - 1);
    }
  }

  /** When `Wait` returns with an error, there was an instant after the cancellation at which nothing was queued: every
      URL accepted by then had been drained, or processed, or was in a worker's hands. */
  lemma WaitErrorMeansDrained(run: seq<State>, k: nat)
    requires IsRun(run) && k < |run| && run[k].waiter == Returned(true)
    ensures exists z :: 0 <= z <= k && run[z].flags.cancelled && NothingQueued(run[z])
  {
    var z := DrainInstant(run, k);
    InitInv(run[0]);
    StepsKeepInv(run, z);
    var s := run[z];
    forall r ensures s.log.accepted[r] == s.log.processed[r] + s.log.drained[r] + Count(s.workers, WorkerHas(r)) {
      assert RequestInv(s, r);
    }
    assert NothingQueued(s);
  }

  ghost predicate NothingQueued(s: State) {
    s.queue == [] && forall r ::
      s.log.accepted[r] == s.log.processed[r] + s.log.drained[r] + Count(s.workers, WorkerHas(r))
  }

  // What the steps of the others let one call see.

  /** A call moves only by its own steps. */
  lemma MovesItself(s: State, s': State, i: nat) returns (a: AdderAct)
    requires Next(s, s') && i < |s.adders| && s'.adders[i] != s.adders[i]
    ensures AdderEnabled(s, i, a) && s' == AdderStep(s, i, a)
  {
    var e := NextEvent(s, s');
    assert e.Adder? && e.i == i;
    a := e.add;
  }

  /** An `AddURL` is refused for want of room only by a queue that is full, and a send that finds room puts exactly its
      request at the end of the queue and among the accepted ones. */
  lemma SendAnswers(s: State, s': State, i: nat)
    requires Next(s, s') && |s.queue| <= QUEUE_CAPACITY && i < |s.adders|
    requires s.adders[i].Counted? && s'.adders[i] != s.adders[i]
    ensures var r := s.adders[i].request;
      if |s.queue| == QUEUE_CAPACITY then
        s'.adders[i] == Refused(r) && s'.queue == s.queue && s'.log.accepted == s.log.accepted
      else
        s'.adders[i] == Away && s'.queue == s.queue + [r] && s'.log.accepted == s.log.accepted + multiset{r}
  {
    var a := MovesItself(s, s', i);
  }

  /** Only a full queue makes an adder `Refused`. */
  lemma RefusedOnlyWhenFull(s: State, s': State, i: nat)
    requires Next(s, s') && |s.queue| <= QUEUE_CAPACITY && i < |s.adders|
    requires !s.adders[i].Refused? && s'.adders[i].Refused?
    ensures |s.queue| == QUEUE_CAPACITY && s.adders[i] == Counted(s'.adders[i].request)
  {
    var a := MovesItself(s, s', i);
  }

  /** The queue is first in, first out: a step appends one accepted request, or takes the oldest one for a worker or for
      the drain loop, or leaves the queue alone. */
  lemma QueueIsFifo(s: State, s': State)
    requires Next(s, s') && s'.queue != s.queue
    ensures (exists r :: s'.queue == s.queue + [r] && s'.log.accepted == s.log.accepted + multiset{r})
         || (s.queue != [] && s'.queue == s.queue[1..] && TakenBy(s, s', s.queue[0]))
  {
    var e := NextEvent(s, s');
    if e.Worker? {
      assert s'.workers[e.i] == Processing(s.queue[0]) && s.workers[e.i].Ready?;
    }
  }

  ghost predicate TakenBy(s: State, s': State, r: Request) {
    || (s.waiter == Draining && s'.waiter == Drained(r))
    || exists i :: 0 <= i < |s.workers| && i < |s'.workers| && s.workers[i] == Ready && s'.workers[i] == Processing(r)
  }

  /** `Start`, `Stop` and a cancellation are for good. */
  lemma FlagsStay(s: State, s': State)
    requires Next(s, s')
    ensures s.flags.started ==> s'.flags.started
    ensures s.flags.stopped ==> s'.flags.stopped
    ensures s.flags.cancelled ==> s'.flags.cancelled
  {
    var e := NextEvent(s, s');
  }

  /** `Start` is accepted once; `Stop` sets its flag, and a cancellation its own, and neither touches anything else. */
  lemma ControlSets(s: State, a: ControlAct)
    requires Enabled(s, Control(a))
    ensures var f := Apply(s, Control(a)).flags;
      && (a == Start ==> !s.flags.started && f == s.flags.(started := true))
      && (a == SetStopped ==> f == s.flags.(stopped := true))
      && (a == Cancel ==> f == s.flags.(cancelled := true))
    ensures Apply(s, Control(a)).(flags := s.flags) == s
  {
  }

  predicate Unstarted(s: State) {
    !s.flags.started ==>
      && s.waiter == NotCalled && !s.flags.cancelled && s.log.reports == []
      && forall i | 0 <= i < |s.workers| :: s.workers[i] == Ready
  }

  lemma StepUnstarted(s: State, s': State)
    requires Next(s, s') && Unstarted(s)
    ensures Unstarted(s')
  {
    var e := NextEvent(s, s');
  }

  /** Before `Start` nothing but adding happens: no worker moves, nothing is cancelled, and `Wait` cannot begin. */
  lemma NothingBeforeStart(run: seq<State>, k: nat)
    requires IsRun(run) && k < |run| && !run[k].flags.started
    ensures run[k].waiter == NotCalled && !run[k].flags.cancelled && run[k].log.reports == []
    ensures forall i | 0 <= i < |run[k].workers| :: run[k].workers[i] == Ready
  {
    forall s, s' | Next(s, s') && Unstarted(s) ensures Unstarted(s') {
      StepUnstarted(s, s');
    }
    AlwaysKept(run, Next, Unstarted, 0, k);
  }

  predicate StoppedWith(s: State, accepted: multiset<Request>) {
    s.flags.stopped && s.log.accepted == accepted && forall i | 0 <= i < |s.adders| :: s.adders[i] == Away
  }

  lemma StoppedStep(s: State, s': State, accepted: multiset<Request>)
    requires Next(s, s') && StoppedWith(s, accepted)
    ensures StoppedWith(s', accepted)
  {
    var e := NextEvent(s, s');
  }

  /** A call of `AddURL` that starts after `Stop` accepts nothing: once the engine is stopped and no call is under way,
      nothing is ever accepted again. */
  lemma StoppedAcceptsNothing(run: seq<State>, j: nat, k: nat)
    requires j <= k < |run| && forall m | 0 <= m < |run| - 1 :: Next(run[m], run[m + 1])
    requires run[j].flags.stopped && forall i | 0 <= i < |run[j].adders| :: run[j].adders[i] == Away
    ensures run[k].log.accepted == run[j].log.accepted
  {
    var accepted := run[j].log.accepted;
    forall s, s' | Next(s, s') && StoppedWith(s, accepted) ensures StoppedWith(s', accepted) {
      StoppedStep(s, s', accepted);
    }
    AlwaysKept(run, Next, (s: State) => StoppedWith(s, accepted), j, k);
  }

  /** The states that a sequence of steps of adder `i` leads through. */
  ghost predicate AdderAlone(s: State, i: nat, acts: seq<AdderAct>, s': State)
    decreases |acts|
  {
    if acts == [] then s' == s
    else AdderEnabled(s, i, acts[0]) && AdderAlone(AdderStep(s, i, acts[0]), i, acts[1..], s')
  }

  lemma AdderAloneStep(s: State, i: nat, a: AdderAct, rest: seq<AdderAct>, s': State)
    requires AdderEnabled(s, i, a) && AdderAlone(AdderStep(s, i, a), i, rest, s')
    ensures AdderAlone(s, i, [a] + rest, s')
  {
    assert ([a] + rest)[1..] == rest;
  }

  /** What `AddURL` does to the queue and the WaitGroup, and its answer. */
  function Admit(queue: seq<Request>, urlWg: int, stopped: bool, r: Request): (seq<Request>, int, bool) {
    if stopped || |queue| >= QUEUE_CAPACITY then (queue, urlWg, false) else (queue + [r], urlWg + 1, true)
  }

  /** The adder's steps with nobody else moving have the effect of one call of `Crawler.AddURL`, from every state. */
  lemma AddAlone(s: State, i: nat, url: Url) returns (acts: seq<AdderAct>, s': State)
    requires i < |s.adders| && s.adders[i] == Away && !s.flags.stopped
    ensures AdderAlone(s, i, acts, s') && s'.adders == s.adders && s'.nextId == s.nextId + 1
    ensures var r := Request(s.nextId, url);
      var (queue, urlWg, ok) := Admit(s.queue, s.urlWg, s.flags.stopped, r);
      && s'.queue == queue && s'.urlWg == urlWg
      && s'.log == if ok then s.log.(accepted := s.log.accepted + multiset{r}) else s.log
  {
    var s1 := AdderStep(s, i, CheckStopped(url));
    var s2 := AdderStep(s1, i, AddToWg);
    var s3 := AdderStep(s2, i, TrySend);
    if s3.adders[i].Refused? {
      s' := AdderStep(s3, i, UndoAdd);
      AdderAloneStep(s3, i, UndoAdd, [], s');
      acts := [UndoAdd] + [];
    } else {
      s' := s3;
      acts := [];
    }
    assert s'.adders == s.adders;
    AdderAloneStep(s2, i, TrySend, acts, s');
    acts := [TrySend] + acts;
    AdderAloneStep(s1, i, AddToWg, acts, s');
    acts := [AddToWg] + acts;
    AdderAloneStep(s, i, CheckStopped(url), acts, s');
    acts := [CheckStopped(url)] + acts;
  }

  /** A stopped engine lets no call past its first check. */
  lemma StoppedRefuses(s: State, i: nat, a: AdderAct)
    requires i < |s.adders| && s.adders[i] == Away && s.flags.stopped
    ensures !AdderEnabled(s, i, a)
  {
  }

  // The sequential code of the caller: submitting URLs and draining, with nobody else running.

  /** The requests that `AddURLs` makes for `urls` when the next request number is `id`. */
  function RequestsFor(urls: seq<Url>, id: nat): (rs: seq<Request>)
    ensures |rs| == |urls|
    ensures forall i | 0 <= i < |rs| :: rs[i] == Request(id + i, urls[i])
  {
    seq(|urls|, i requires 0 <= i < |urls| => Request(id + i, urls[i]))
  }

  class Crawler {
    var urlQueue: seq<Request>
    var urlWg: int
    var stopped: bool
    var nextId: nat

    constructor ()
      ensures urlQueue == [] && urlWg == 0 && !stopped && nextId == 0
    {
      urlQueue, urlWg, stopped, nextId := [], 0, false, 0;
    }

    /** `AddURL` with nobody else running: refused when stopped or full, and then nothing is left behind. */
    method AddURL(url: Url) returns (ok: bool)
      modifies this
      ensures ok == (!old(stopped) && |old(urlQueue)| < QUEUE_CAPACITY)
      ensures stopped == old(stopped) && nextId == old(nextId) + (if stopped then 0 else 1)
      ensures ok ==> urlQueue == old(urlQueue) + [Request(old(nextId), url)] && urlWg == old(urlWg) + 1
      ensures !ok ==> urlQueue == old(urlQueue) && urlWg == old(urlWg)
      ensures (urlQueue, urlWg, ok) == Admit(old(urlQueue), old(urlWg), stopped, Request(old(nextId), url))
    {
      if stopped {
        return false;
      }
      var request := Request(nextId, url);
      nextId := nextId + 1;
      urlWg := urlWg + 1;
      if |urlQueue| < QUEUE_CAPACITY {
        urlQueue := urlQueue + [request];
        return true;
      }
      urlWg := urlWg - 1;
      return false;
    }

    /** `AddURLs` stops at the first refusal: what is queued is the longest prefix that fits. */
    method AddURLs(urls: seq<Url>) returns (ok: bool)
      requires |urlQueue| <= QUEUE_CAPACITY
      modifies this
      ensures stopped == old(stopped)
      ensures ok <==> urls == [] || (!stopped && |old(urlQueue)| + |urls| <= QUEUE_CAPACITY)
      ensures var n := if ok then |urls| else if stopped then 0 else QUEUE_CAPACITY - |old(urlQueue)|;
        n <= |urls| && urlQueue == old(urlQueue) + RequestsFor(urls[..n], old(nextId)) && urlWg == old(urlWg) + n
    {
      for i := 0 to |urls|
        invariant stopped == old(stopped)
        invariant i > 0 ==> !stopped && |old(urlQueue)| + i <= QUEUE_CAPACITY
        invariant nextId == old(nextId) + i && urlWg == old(urlWg) + i
        invariant urlQueue == old(urlQueue) + RequestsFor(urls[..i], old(nextId))
      {
        var added := AddURL(urls[i]);
        if !added {
          return false;
        }
        assert urls[..i + 1] == urls[..i] + [urls[i]];
        assert RequestsFor(urls[..i + 1], old(nextId)) ==
            RequestsFor(urls[..i], old(nextId)) + [Request(old(nextId) + i, urls[i])];
      }
      assert urls[..|urls|] == urls;
      return true;
    }

    /** The drain loop of `Wait`: every queued request gets its `Done`, in queue order. */
    method Drain() returns (done: seq<Request>)
      modifies this
      ensures urlQueue == [] && done == old(urlQueue) && urlWg == old(urlWg) - |done|
      ensures stopped == old(stopped) && nextId == old(nextId)
    {
      done := [];
      while urlQueue != []
        invariant done + urlQueue == old(urlQueue) && urlWg == old(urlWg) - |done|
        invariant stopped == old(stopped) && nextId == old(nextId)
        decreases |urlQueue|
      {
        done := done + [urlQueue[0]];
        urlQueue := urlQueue[1..];
        urlWg := urlWg - 1;
      }
    }
  }
}
