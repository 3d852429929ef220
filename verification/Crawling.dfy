/** A whole one-shot crawl: the engine of `pkg/crawler/engine.go` with the concurrency manager of
    `pkg/crawler/concurrency.go` inside its workers, as `processRequest` uses it.

    Worker `i` of the engine is thread `i` of the concurrency manager. `asked[i]` says that `processRequest` has called
    `Acquire` for the request in hand. Callbacks fire once `Acquire` has failed or while the permits are held; the
    permits are released after the callbacks, and `Done` comes last. Every step is a step of one of the two machines
    that leaves the other alone, so what was proved of each holds of the whole. */
module Crawling {
  import opened Tally
  import E = Engine
  import C = Concurrency
  import S = Service

  datatype State = State(engine: E.State, sems: C.State, asked: seq<bool>)

  datatype Event = OfEngine(e: E.Event) | OfSems(i: nat, a: C.Action)

  /** The limits, and the domain of a URL. */
  datatype Config = Config(limits: C.Config, domainOf: E.Url -> C.Domain)

  predicate Holds(pc: C.Pc) {
    pc.Holding? || pc.HoldingGlobal?
  }

  /** When a worker of the engine may take its step. */
  predicate Permitted(s: State, e: E.Event) {
    e.Worker? ==>
      && e.i < |s.asked| && e.i < |s.sems.threads|
      && match e.work
         case FireCallbacks(ok) => s.asked[e.i] && (Holds(s.sems.threads[e.i]) || (s.sems.threads[e.i].Idle? && !ok))
         case Done => s.sems.threads[e.i].Idle?
         case Receive => true
         case Exit => true
  }

  predicate Enabled(c: Config, s: State, ev: Event) {
    match ev
    case OfEngine(e) => E.Enabled(s.engine, e) && Permitted(s, e)
    case OfSems(i, a) =>
      && i < |s.engine.workers| && i < |s.asked| && C.Enabled(c.limits, s.sems, i, a)
      && match a
         case Begin(d) =>
             s.engine.workers[i].Processing? && !s.asked[i] && d == c.domainOf(s.engine.workers[i].request.url)
         case CancelGlobal => s.engine.flags.cancelled
         case CancelDomain => s.engine.flags.cancelled
         case BeginRelease => s.engine.workers[i].Reported?
         case _ => true
  }

  function Apply(c: Config, s: State, ev: Event): State
    requires Enabled(c, s, ev)
  {
    match ev
    case OfEngine(e) =>
      State(E.Apply(s.engine, e), s.sems, if e.Worker? && e.work.Done? then s.asked[e.i := false] else s.asked)
    case OfSems(i, a) =>
      State(s.engine, C.Apply(c.limits, s.sems, i, a), if a.Begin? then s.asked[i := true] else s.asked)
  }

  /** The state when `Start` has returned. */
  function Loaded(urls: seq<E.Url>): State {
    State(S.Loaded(urls), C.State(0, map[], [], seq(S.DEFAULT_WORKERS, _ => C.Idle)),
        seq(S.DEFAULT_WORKERS, _ => false))
  }

  /** A run and the events that make it. */
  ghost predicate IsCrawl(c: Config, urls: seq<E.Url>, run: seq<State>, events: seq<Event>) {
    && |run| == |events| + 1
    && run[0] == Loaded(urls)
    && forall k | 0 <= k < |events| :: Enabled(c, run[k], events[k]) && run[k + 1] == Apply(c, run[k], events[k])
  }

  // The two machines inside.

  /** What a worker of the engine and its thread in the concurrency manager know of each other. */
  predicate Coupled(c: Config, pc: E.WorkerPc, thread: C.Pc, asked: bool) {
    && (!asked ==> thread.Idle?)
    && (asked ==> E.Busy(pc))
    && (pc.Reported? ==> asked && !thread.AwaitGlobal? && !thread.LookUp? && !thread.Create? && !thread.AwaitDomain?)
    && (thread.FindSem? || thread.ReturnDomain? ==> pc.Reported?)
    && (asked && !thread.Idle? && !thread.ReturnGlobal? ==> thread.domain == c.domainOf(pc.request.url))
  }

  ghost predicate CoupledInv(c: Config, s: State) {
    && |s.engine.workers| == |s.sems.threads| == |s.asked|
    && forall i | 0 <= i < |s.asked| :: Coupled(c, s.engine.workers[i], s.sems.threads[i], s.asked[i])
  }

  ghost predicate Inv(c: Config, s: State) {
    E.Inv(s.engine) && C.Inv(c.limits, s.sems) && C.ModeInv(c.limits, s.sems) && CoupledInv(c, s)
  }

  lemma EngineStepCoupled(c: Config, s: State, e: E.Event)
    requires CoupledInv(c, s) && Enabled(c, s, OfEngine(e))
    ensures CoupledInv(c, Apply(c, s, OfEngine(e)))
  {
    var s' := Apply(c, s, OfEngine(e));
    if e.Worker? {
      assert Coupled(c, s.engine.workers[e.i], s.sems.threads[e.i], s.asked[e.i]);
      assert Coupled(c, s'.engine.workers[e.i], s'.sems.threads[e.i], s'.asked[e.i]);
      assert forall i | 0 <= i < |s.asked| && i != e.i ::
          s'.engine.workers[i] == s.engine.workers[i] && s'.asked[i] == s.asked[i];
    } else {
      assert s'.engine.workers == s.engine.workers;
    }
  }

  lemma SemsStepCoupled(c: Config, s: State, i: nat, a: C.Action)
    requires CoupledInv(c, s) && Enabled(c, s, OfSems(i, a))
    ensures CoupledInv(c, Apply(c, s, OfSems(i, a)))
  {
    var s' := Apply(c, s, OfSems(i, a));
    assert Coupled(c, s.engine.workers[i], s.sems.threads[i], s.asked[i]);
    assert Coupled(c, s'.engine.workers[i], s'.sems.threads[i], s'.asked[i]);
    assert forall j | 0 <= j < |s.asked| && j != i ::
        s'.sems.threads[j] == s.sems.threads[j] && s'.asked[j] == s.asked[j];
  }

  /** Every step keeps the invariants of both machines and the coupling. */
  lemma StepInv(c: Config, s: State, ev: Event)
    requires Inv(c, s) && Enabled(c, s, ev)
    ensures Inv(c, Apply(c, s, ev))
  {
    match ev
    case OfEngine(e) =>
      E.StepInv(s.engine, e);
      EngineStepCoupled(c, s, e);
    case OfSems(i, a) =>
      C.StepInv(c.limits, s.sems, i, a);
      C.StepModeInv(c.limits, s.sems, i, a);
      SemsStepCoupled(c, s, i, a);
  }

  lemma {:induction false} RunInv(c: Config, urls: seq<E.Url>, run: seq<State>, events: seq<Event>, k: nat)
    requires |urls| <= E.QUEUE_CAPACITY && IsCrawl(c, urls, run, events) && k < |run|
    ensures Inv(c, run[k])
  {
    if k == 0 {
      S.LoadedInv(urls);
      C.InitInv(c.limits, run[0].sems);
    } else {
      RunInv(c, urls, run, events, k - 1);
      StepInv(c, run[k - 1], events[k - 1]);
    }
  }

  /** The event is not a cancellation from outside. */
  predicate Calm(ev: Event) {
    ev != OfEngine(E.Control(E.Cancel))
  }

  lemma Extended(urls: seq<E.Url>, run: seq<E.State>, e: E.Event) returns (longer: seq<E.State>)
    requires S.IsCrawl(urls, run) && E.Enabled(run[|run| - 1], e)
    ensures S.IsCrawl(urls, longer) && longer[|longer| - 1] == E.Apply(run[|run| - 1], e)
    ensures S.NeverCancelled(run) && e != E.Control(E.Cancel) ==> S.NeverCancelled(longer)
  {
    var s, s' := run[|run| - 1], E.Apply(run[|run| - 1], e);
    longer := run + [s'];
    assert E.Next(s, s');
    forall k | 0 <= k < |longer| - 1 ensures E.Next(longer[k], longer[k + 1]) {
      if k < |run| - 1 {
        assert longer[k] == run[k] && longer[k + 1] == run[k + 1];
      }
    }
    if S.NeverCancelled(run) && e != E.Control(E.Cancel) {
      assert S.NextUncancelled(s, s');
      forall k | 0 <= k < |longer| - 1 ensures S.NextUncancelled(longer[k], longer[k + 1]) {
        if k < |run| - 1 {
          assert longer[k] == run[k] && longer[k + 1] == run[k + 1];
        }
      }
    }
  }

  /** Leaving out the steps of the concurrency manager gives a run of the engine alone. */
  lemma {:induction false} EngineRun(c: Config, urls: seq<E.Url>, run: seq<State>, events: seq<Event>, k: nat)
      returns (alone: seq<E.State>)
    requires IsCrawl(c, urls, run, events) && k < |run|
    ensures S.IsCrawl(urls, alone) && alone[|alone| - 1] == run[k].engine
    ensures (forall j | 0 <= j < k :: Calm(events[j])) ==> S.NeverCancelled(alone)
  {
    if k == 0 {
      alone := [run[0].engine];
    } else {
      alone := EngineRun(c, urls, run, events, k - 1);
      assert run[k] == Apply(c, run[k - 1], events[k - 1]);
      if events[k - 1].OfEngine? {
        alone := Extended(urls, alone, events[k - 1].e);
      }
    }
  }

  // How many requests to one domain are on the wire at once.

  /** Worker `i` is inside a request to domain `d`: `Acquire` has succeeded and `Release` has not begun. */
  predicate InRequest(c: Config, s: State, d: C.Domain, i: nat) {
    && i < |s.engine.workers| && i < |s.sems.threads| && E.Busy(s.engine.workers[i])
    && c.domainOf(s.engine.workers[i].request.url) == d && Holds(s.sems.threads[i])
  }

  ghost function InRequests(c: Config, s: State, d: C.Domain): set<nat> {
    set i: nat | i < |s.engine.workers| && InRequest(c, s, d, i)
  }

  /** In every state of every crawl at most `domainLimit` workers are inside a request to one domain (unless per-domain
      limits are off), and at most `globalLimit` in any case. */
  lemma RequestsAtMostLimit(
    c: Config, urls: seq<E.Url>, run: seq<State>, events: seq<Event>, k: nat, d: C.Domain)
    requires |urls| <= E.QUEUE_CAPACITY && IsCrawl(c, urls, run, events) && k < |run|
    ensures |InRequests(c, run[k], d)| <= c.limits.globalLimit
    ensures !c.limits.disablePerDomain ==> |InRequests(c, run[k], d)| <= c.limits.domainLimit
  {
    RunInv(c, urls, run, events, k);
    var s := run[k];
    var inside := Positions(s.sems.threads, C.Inside(d));
    forall i: nat | i < |s.asked| ensures i in inside <==> InRequest(c, s, d, i) {
      assert Coupled(c, s.engine.workers[i], s.sems.threads[i], s.asked[i]);
    }
    assert InRequests(c, s, d) == inside;
    CountIsSize(s.sems.threads, C.Inside(d));
    C.InsideIsBounded(c.limits, s.sems, d);
  }

  /** A response is reported only by a worker that is inside a request to that response's domain. */
  lemma SuccessOnlyInside(
    c: Config, urls: seq<E.Url>, run: seq<State>, events: seq<Event>, k: nat)
    requires |urls| <= E.QUEUE_CAPACITY && IsCrawl(c, urls, run, events) && k < |events|
    requires |run[k + 1].engine.log.reports| > |run[k].engine.log.reports|
    ensures var report := run[k + 1].engine.log.reports[|run[k].engine.log.reports|];
      report.ok ==> exists i: nat :: i in InRequests(c, run[k], c.domainOf(report.request.url))
                                     && run[k].engine.workers[i] == E.Processing(report.request)
  {
    RunInv(c, urls, run, events, k);
    var s, ev := run[k], events[k];
    assert run[k + 1] == Apply(c, s, ev);
    assert ev.OfEngine? && ev.e.Worker? && ev.e.work.FireCallbacks?;
    if ev.e.work.ok {
      assert InRequest(c, s, c.domainOf(s.engine.workers[ev.e.i].request.url), ev.e.i);
    }
  }

  /** The worker's `Acquire` has failed, or is failing. */
  predicate Refused(pc: E.WorkerPc, thread: C.Pc, asked: bool) {
    pc.Processing? && asked && (thread.Idle? || thread.ReturnGlobal?)
  }

  ghost predicate RefusedInv(s: State) {
    && |s.engine.workers| == |s.sems.threads| == |s.asked|
    && (s.engine.flags.cancelled || forall i | 0 <= i < |s.asked| ::
          !Refused(s.engine.workers[i], s.sems.threads[i], s.asked[i]))
  }

  lemma StepRefused(c: Config, s: State, ev: Event)
    requires Enabled(c, s, ev) && RefusedInv(s) && CoupledInv(c, s)
    ensures RefusedInv(Apply(c, s, ev))
  {
    var s' := Apply(c, s, ev);
    if !s'.engine.flags.cancelled {
      forall i | 0 <= i < |s.asked| ensures !Refused(s'.engine.workers[i], s'.sems.threads[i], s'.asked[i]) {
        assert !Refused(s.engine.workers[i], s.sems.threads[i], s.asked[i]);
        assert Coupled(c, s.engine.workers[i], s.sems.threads[i], s.asked[i]);
      }
    }
  }

  /** As long as nothing is cancelled, no `Acquire` fails: callbacks are fired only by workers inside their request. */
  lemma {:induction false} AcquireFailsOnlyCancelled(
    c: Config, urls: seq<E.Url>, run: seq<State>, events: seq<Event>, k: nat)
    requires |urls| <= E.QUEUE_CAPACITY && IsCrawl(c, urls, run, events) && k < |run|
    ensures RefusedInv(run[k])
  {
    if k > 0 {
      AcquireFailsOnlyCancelled(c, urls, run, events, k - 1);
      RunInv(c, urls, run, events, k - 1);
      assert Enabled(c, run[k - 1], events[k - 1]) && run[k] == Apply(c, run[k - 1], events[k - 1]);
      StepRefused(c, run[k - 1], events[k - 1]);
    }
  }

  // Progress.

  /** Every step counts except adding, controlling, and looking at the counter again. */
  predicate Productive(s: State, ev: Event) {
    ev.OfSems? || S.Productive(s.engine, ev.e)
  }

  function Unasked(asked: bool): nat {
    if asked then 0 else 9
  }

  function Effort(s: State): nat {
    10 * S.Effort(s.engine) + Sum(s.sems.threads, C.Remaining) + Sum(s.asked, Unasked)
  }

  lemma SemsEffort(c: Config, s: State, i: nat, a: C.Action)
    requires CoupledInv(c, s) && Enabled(c, s, OfSems(i, a))
    ensures Effort(Apply(c, s, OfSems(i, a))) < Effort(s)
  {
    if a.Begin? {
      SumUpdate(s.sems.threads, i, C.AwaitGlobal(a.domain), C.Remaining);
      SumUpdate(s.asked, i, true, Unasked);
    } else {
      C.EveryStepProgresses(c.limits, s.sems, i, a);
    }
  }

  /** A productive step uses up effort. */
  lemma ProductiveStepsCount(c: Config, s: State, ev: Event)
    requires CoupledInv(c, s) && Enabled(c, s, ev) && Productive(s, ev)
    ensures Effort(Apply(c, s, ev)) < Effort(s)
  {
    match ev
    case OfEngine(e) =>
      S.ProductiveStepsCount(s.engine, e);
      if e.Worker? && e.work.Done? {
        SumUpdate(s.asked, e.i, false, Unasked);
      }
    case OfSems(i, a) => SemsEffort(c, s, i, a);
  }

  /** The other steps cost nothing. */
  lemma OtherStepsAreFree(c: Config, s: State, ev: Event)
    requires Enabled(c, s, ev) && !Productive(s, ev) && s.engine.adders == []
    ensures Effort(Apply(c, s, ev)) == Effort(s)
  {
  }

  function ProductiveSteps(run: seq<State>, events: seq<Event>, k: nat): nat
    requires k <= |events| < |run|
  {
    if k == 0 then 0
    else ProductiveSteps(run, events, k - 1) + (if Productive(run[k - 1], events[k - 1]) then 1 else 0)
  }

  lemma {:induction false} EffortSpent(c: Config, urls: seq<E.Url>, run: seq<State>, events: seq<Event>, k: nat)
    requires |urls| <= E.QUEUE_CAPACITY && IsCrawl(c, urls, run, events) && k <= |events|
    ensures ProductiveSteps(run, events, k) + Effort(run[k]) <= Effort(Loaded(urls))
  {
    if k > 0 {
      EffortSpent(c, urls, run, events, k - 1);
      RunInv(c, urls, run, events, k - 1);
      var s, ev := run[k - 1], events[k - 1];
      assert run[k] == Apply(c, s, ev);
      if Productive(s, ev) {
        ProductiveStepsCount(c, s, ev);
      } else {
        var alone := EngineRun(c, urls, run, events, k - 1);
        S.NothingAdded(urls, alone, |alone| - 1);
        OtherStepsAreFree(c, s, ev);
      }
    }
  }

  lemma {:induction false} SumConstant<V>(s: seq<V>, f: V -> nat, n: nat)
    requires forall i | 0 <= i < |s| :: f(s[i]) == n
    ensures Sum(s, f) == n * |s|
  {
    if s != [] {
      SumConstant(s[1..], f, n);
      assert n * |s| == n + n * (|s| - 1);
    }
  }

  /** No run has more than `50 * |urls| + 240` productive steps, however they are interleaved. */
  lemma CrawlIsBounded(c: Config, urls: seq<E.Url>, run: seq<State>, events: seq<Event>)
    requires |urls| <= E.QUEUE_CAPACITY && IsCrawl(c, urls, run, events)
    ensures ProductiveSteps(run, events, |events|) <= 50 * |urls| + 240
  {
    EffortSpent(c, urls, run, events, |events|);
    var s := Loaded(urls);
    SumConstant(s.engine.workers, S.WorkerEffort, 1);
    SumConstant(s.sems.threads, C.Remaining, 0);
    SumConstant(s.asked, Unasked, 9);
  }

  /** A worker that has a permit or is on its way out can move. */
  lemma UnblockedCanMove(c: Config, s: State, i: nat) returns (ev: Event)
    requires Inv(c, s) && s.engine.flags.started && i < |s.asked| && E.Busy(s.engine.workers[i])
    requires s.asked[i] ==> !C.Blocked(c.limits, s.sems, i)
    ensures Enabled(c, s, ev) && Productive(s, ev)
  {
    var pc, thread := s.engine.workers[i], s.sems.threads[i];
    assert Coupled(c, pc, thread, s.asked[i]);
    assert C.KnowsItsSem(s.sems, thread);
    if !s.asked[i] {
      ev := OfSems(i, C.Begin(c.domainOf(pc.request.url)));
    } else if pc.Processing? && (Holds(thread) || thread.Idle?) {
      ev := OfEngine(E.Event.Worker(i, E.FireCallbacks(false)));
    } else if thread.Idle? {
      ev := OfEngine(E.Event.Worker(i, E.Done));
    } else {
      ev := OfSems(i, C.Forward(thread));
    }
  }

  /** Whenever a worker is busy, some worker can move: a worker that is blocked in `Acquire` is blocked by one that
      can. */
  lemma BusyCanMove(c: Config, s: State, i: nat) returns (ev: Event)
    requires C.ValidConfig(c.limits) && Inv(c, s) && s.engine.flags.started && i < |s.asked|
        && E.Busy(s.engine.workers[i])
    ensures Enabled(c, s, ev) && Productive(s, ev)
  {
    var u := i;
    if C.Blocked(c.limits, s.sems, i) {
      u := C.SomeOwnerCanRun(c.limits, s.sems, i);
      assert Coupled(c, s.engine.workers[u], s.sems.threads[u], s.asked[u]);
    }
    ev := UnblockedCanMove(c, s, u);
  }

  /** With the semaphores in the loop, until `Wait` has returned some productive step is possible. */
  lemma CrawlNeverStuck(c: Config, urls: seq<E.Url>, run: seq<State>, events: seq<Event>, k: nat) returns (ev: Event)
    requires C.ValidConfig(c.limits) && |urls| <= E.QUEUE_CAPACITY && IsCrawl(c, urls, run, events) && k < |run|
    requires !run[k].engine.waiter.Returned?
    ensures Enabled(c, run[k], ev) && Productive(run[k], ev)
  {
    RunInv(c, urls, run, events, k);
    var s := run[k];
    var alone := EngineRun(c, urls, run, events, k);
    S.RunExitInv(urls, alone, |alone| - 1);
    var e := S.CrawlNeverStuck(urls, alone, |alone| - 1);
    if e.Worker? && E.Busy(s.engine.workers[e.i]) {
      ev := BusyCanMove(c, s, e.i);
    } else {
      ev := OfEngine(e);
    }
  }

  /** No productive step is possible any more. */
  ghost predicate Maximal(c: Config, s: State) {
    forall ev :: Enabled(c, s, ev) ==> !Productive(s, ev)
  }

  lemma AllPermitsBack(c: Config, s: State)
    requires Inv(c, s) && s.engine.waiter.Returned?
    ensures s.sems.globalInUse == 0 && forall i | 0 <= i < |s.sems.inUse| :: s.sems.inUse[i] == 0
  {
    forall i | 0 <= i < |s.sems.threads| ensures s.sems.threads[i] == C.Idle {
      assert Coupled(c, s.engine.workers[i], s.sems.threads[i], s.asked[i]);
    }
    CountNone(s.sems.threads, C.OwnsGlobal);
    forall i: nat | i < |s.sems.inUse| ensures s.sems.inUse[i] == 0 {
      CountNone(s.sems.threads, C.OwnsSem(i));
      assert C.DomainInv(c.limits, s.sems, i);
    }
  }

  /** A crawl that runs until nothing productive is left (which it does, by `CrawlIsBounded`) has returned, with every
      permit back. Its results are a sub-multiset of the submitted URLs, and exactly the submitted URLs if the context
      was not cancelled from outside. */
  lemma CrawlReturns(c: Config, urls: seq<E.Url>, run: seq<State>, events: seq<Event>)
    requires C.ValidConfig(c.limits) && |urls| <= E.QUEUE_CAPACITY && IsCrawl(c, urls, run, events)
    requires Maximal(c, run[|events|])
    ensures var s := run[|events|];
      && s.engine.waiter.Returned?
      && s.sems.globalInUse == 0 && (forall i | 0 <= i < |s.sems.inUse| :: s.sems.inUse[i] == 0)
      && multiset(S.UrlsOf(S.Results(s.engine))) <= multiset(urls)
      && ((forall k | 0 <= k < |events| :: Calm(events[k])) ==>
          multiset(S.UrlsOf(S.Results(s.engine))) == multiset(urls))
  {
    var n := |events|;
    if !run[n].engine.waiter.Returned? {
      var ev := CrawlNeverStuck(c, urls, run, events, n);
      assert false;
    }
    RunInv(c, urls, run, events, n);
    AllPermitsBack(c, run[n]);
    var alone := EngineRun(c, urls, run, events, n);
    S.AtMostOneResultEach(urls, alone, |alone| - 1);
    if forall k | 0 <= k < n :: Calm(events[k]) {
      S.ExactlyOneResultEach(urls, alone, |alone| - 1);
    }
  }
}
