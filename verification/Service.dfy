/** The one-shot crawl of `pkg/crawler/service_impl.go`: submit every URL, start the engine, wait, and return
    one result per callback. The engine of this call has no other adders and no callback that adds URLs. */
module Service {
  import opened Tally
  import opened Engine

  datatype CrawlError = NoUrls | CreateFailed | AddUrlsFailed

  datatype Outcome = Accepted(loaded: State) | Rejected(error: CrawlError)

  /** `newEngine` applies the default worker count, since `Crawl` leaves it zero. */
  const DEFAULT_WORKERS: nat := 10

  /** An engine that has just been started with this queue and this WaitGroup. */
  function Begun(queue: seq<Request>, urlWg: int, stopped: bool): State {
    State(queue, urlWg, Flags(true, stopped, false, false), [], seq(DEFAULT_WORKERS, _ => Ready), NotCalled, |queue|,
          Log(multiset(queue), multiset{}, multiset{}, []))
  }

  /** The engine after every URL has been queued and `Start` has been called. */
  function Loaded(urls: seq<Url>): State {
    Begun(RequestsFor(urls, 0), |urls|, false)
  }

  /** The part of `Crawl` before `Wait`, where `created` says whether `newEngine` succeeds: it fails on no URLs, when
      there is no engine, and on more URLs than the queue holds, in this order and in no other case; otherwise the
      engine is loaded with one request per URL, in order. */
  method Submit(urls: seq<Url>, created: bool) returns (o: Outcome)
    ensures o == if urls == [] then Rejected(NoUrls)
                 else if !created then Rejected(CreateFailed)
                 else if |urls| > QUEUE_CAPACITY then Rejected(AddUrlsFailed)
                 else Accepted(Loaded(urls))
  {
    if urls == [] {
      return Rejected(NoUrls);
    }
    if !created {
      return Rejected(CreateFailed);
    }
    var crawler := new Crawler();
    var ok := crawler.AddURLs(urls);
    if !ok {
      return Rejected(AddUrlsFailed);
    }
    assert urls[..|urls|] == urls;
    o := Accepted(Begun(crawler.urlQueue, crawler.urlWg, crawler.stopped));
  }

  /** A run of the engine from the moment `Start` has returned. */
  ghost predicate IsCrawl(urls: seq<Url>, run: seq<State>) {
    && |run| > 0
    && run[0] == Loaded(urls)
    && forall k | 0 <= k < |run| - 1 :: Next(run[k], run[k + 1])
  }

  ghost predicate NextUncancelled(s: State, s': State) {
    exists e :: e != Control(Cancel) && Enabled(s, e) && s' == Apply(s, e)
  }

  /** The caller's context is never cancelled: the only cancellation is `Wait`'s own. */
  ghost predicate NeverCancelled(run: seq<State>) {
    forall k | 0 <= k < |run| - 1 :: NextUncancelled(run[k], run[k + 1])
  }

  function UrlsOf(rs: seq<Request>): seq<Url> {
    seq(|rs|, i requires 0 <= i < |rs| => rs[i].url)
  }

  function RequestsIn(reports: seq<Report>): seq<Request> {
    seq(|reports|, i requires 0 <= i < |reports| => reports[i].request)
  }

  /** The requests whose callbacks fired, in order: the results that `Crawl` returns. */
  function Results(s: State): seq<Request> {
    RequestsIn(s.log.reports)
  }

  lemma {:induction false} ReportsCountResults(reports: seq<Report>, r: Request)
    ensures Reports(reports, r) == multiset(RequestsIn(reports))[r]
  {
    if reports != [] {
      var init := reports[..|reports| - 1];
      ReportsCountResults(init, r);
      assert RequestsIn(reports) == RequestsIn(init) + [reports[|reports| - 1].request];
    }
  }

  lemma SplitElements<T>(a: seq<T>, x: T, b: seq<T>)
    ensures multiset(a + [x] + b) == multiset(a + b) + multiset{x}
  {
  }

  /** One occurrence of `x` taken out of `b`. */
  lemma TakeOut(b: seq<Request>, x: Request) returns (less: seq<Request>)
    requires x in b
    ensures multiset(b) == multiset(less) + multiset{x}
    ensures multiset(UrlsOf(b)) == multiset(UrlsOf(less)) + multiset{x.url}
  {
    var j :| 0 <= j < |b| && b[j] == x;
    var front, back := b[..j], b[j + 1..];
    less := front + back;
    SplitElements(front, x, back);
    assert b == front + [x] + back;
    SplitElements(UrlsOf(front), x.url, UrlsOf(back));
    assert UrlsOf(b) == UrlsOf(front) + [x.url] + UrlsOf(back);
    assert UrlsOf(less) == UrlsOf(front) + UrlsOf(back);
  }

  lemma CancelOne<T>(a: multiset<T>, b: multiset<T>, x: T)
    requires a + multiset{x} <= b + multiset{x}
    ensures a <= b
  {
    forall r ensures a[r] <= b[r] {
      assert (a + multiset{x})[r] <= (b + multiset{x})[r];
    }
  }

  /** Dropping the request numbers keeps inclusion of multisets. */
  lemma {:induction false} UrlsMonotone(a: seq<Request>, b: seq<Request>)
    requires multiset(a) <= multiset(b)
    ensures multiset(UrlsOf(a)) <= multiset(UrlsOf(b))
  {
    if a != [] {
      var x, rest := a[0], a[1..];
      assert a == [x] + rest;
      assert x in multiset(a);
      var less := TakeOut(b, x);
      assert multiset(a) == multiset(rest) + multiset{x};
      CancelOne(multiset(rest), multiset(less), x);
      UrlsMonotone(rest, less);
      assert UrlsOf(a) == [x.url] + UrlsOf(rest);
    }
  }

  lemma {:induction false} DistinctIds(urls: seq<Url>, n: nat, r: Request)
    requires n <= |urls|
    ensures multiset(RequestsFor(urls[..n], 0))[r] <= 1
    ensures r.id >= n ==> multiset(RequestsFor(urls[..n], 0))[r] == 0
  {
    if n > 0 {
      DistinctIds(urls, n - 1, r);
      assert RequestsFor(urls[..n], 0) == RequestsFor(urls[..n - 1], 0) + [Request(n - 1, urls[n - 1])];
    }
  }

  lemma LoadedInv(urls: seq<Url>)
    requires |urls| <= QUEUE_CAPACITY
    ensures Inv(Loaded(urls))
  {
    var s := Loaded(urls);
    CountNone(s.adders, PendingAdd);
    CountNone(s.workers, Busy);
    forall r ensures RequestInv(s, r) {
      CountNone(s.adders, AdderHas(r));
      CountNone(s.workers, WorkerHas(r));
      CountNone(s.workers, WorkerReported(r));
      assert urls[..|urls|] == urls;
      DistinctIds(urls, |urls|, r);
    }
  }

  /** Nothing is added during the crawl. */
  lemma {:induction false} NothingAdded(urls: seq<Url>, run: seq<State>, k: nat)
    requires IsCrawl(urls, run) && k < |run|
    ensures run[k].adders == [] && run[k].log.accepted == multiset(RequestsFor(urls, 0))
  {
    if k > 0 {
      NothingAdded(urls, run, k - 1);
      assert Next(run[k - 1], run[k - 1 + 1]);
      var e := NextEvent(run[k - 1], run[k]);
    }
  }

  /** `Wait` is on its way to return nil, and only it has cancelled. */
  predicate Undisturbed(s: State) {
    && (s.waiter == NotCalled || s.waiter == Waiting || s.waiter == Cleanup(false) || s.waiter == Returned(false))
    && (s.flags.cancelled ==> s.waiter == Cleanup(false) || s.waiter == Returned(false))
  }

  lemma StepUndisturbed(s: State, s': State)
    requires NextUncancelled(s, s') && Undisturbed(s)
    ensures Undisturbed(s')
  {
    var e :| e != Control(Cancel) && Enabled(s, e) && s' == Apply(s, e);
    match e
    case Adder(_, _) =>
    case Worker(_, _) =>
    case Waiter(_) =>
    case Control(_) =>
  }

  /** The drain branch of `Wait` is taken only after a cancellation. */
  lemma {:induction false} NoDrainUnlessCancelled(urls: seq<Url>, run: seq<State>, k: nat)
    requires IsCrawl(urls, run) && NeverCancelled(run) && k < |run|
    ensures Undisturbed(run[k])
  {
    if k > 0 {
      NoDrainUnlessCancelled(urls, run, k - 1);
      assert NextUncancelled(run[k - 1], run[k - 1 + 1]);
      StepUndisturbed(run[k - 1], run[k]);
    }
  }

  /** Under any interleaving and any cancellation, the results are a sub-multiset of the submitted URLs: at
      most one result per occurrence, and no result for anything else. */
  lemma AtMostOneResultEach(urls: seq<Url>, run: seq<State>, k: nat)
    requires |urls| <= QUEUE_CAPACITY && IsCrawl(urls, run) && k < |run|
    ensures multiset(UrlsOf(Results(run[k]))) <= multiset(urls)
  {
    LoadedInv(urls);
    StepsKeepInv(run, k);
    NothingAdded(urls, run, k);
    var s := run[k];
    forall r ensures multiset(Results(s))[r] <= multiset(RequestsFor(urls, 0))[r] {
      assert RequestInv(s, r);
      ReportsCountResults(s.log.reports, r);
      CountMonotone(s.workers, WorkerReported(r), WorkerHas(r));
    }
    UrlsMonotone(Results(s), RequestsFor(urls, 0));
    assert UrlsOf(RequestsFor(urls, 0)) == urls;
  }

  /** When the context is never cancelled, `Wait` returns with exactly one result per submitted occurrence. */
  lemma ExactlyOneResultEach(urls: seq<Url>, run: seq<State>, k: nat)
    requires |urls| <= QUEUE_CAPACITY && IsCrawl(urls, run) && NeverCancelled(run)
    requires k < |run| && run[k].waiter.Returned?
    ensures multiset(UrlsOf(Results(run[k]))) == multiset(urls)
  {
    LoadedInv(urls);
    StepsKeepInv(run, k);
    NothingAdded(urls, run, k);
    NoDrainUnlessCancelled(urls, run, k);
    AtMostOneResultEach(urls, run, k);
    var s := run[k];
    var z := ZeroInstant(run, k);
    StepsKeepInv(run, z);
    NothingAdded(urls, run, z);
    NothingDrainedBefore(run, z, k);
    ZeroMeansProcessed(run[z]);
    forall r ensures multiset(RequestsFor(urls, 0))[r] <= multiset(Results(s))[r] {
      LogGrowsOver(run, z, k, r);
      assert RequestInv(s, r);
      ReportsCountResults(s.log.reports, r);
    }
    UrlsMonotone(RequestsFor(urls, 0), Results(s));
    assert UrlsOf(RequestsFor(urls, 0)) == urls;
  }

  // The call returns.

  function WorkerEffort(pc: WorkerPc): nat {
    match pc case Ready => 1 case Processing(_) => 4 case Reported(_) => 3 case Exited => 0
  }

  function WaitEffort(pc: WaitPc): nat {
    match pc
    case NotCalled => 4
    case Waiting => 3
    case Draining => 2
    case Drained(_) => 3
    case Cleanup(_) => 1
    case Returned(_) => 0
  }

  /** What is left to do until `Wait` has returned and every worker has exited. */
  function Effort(s: State): nat {
    5 * |s.queue| + Sum(s.workers, WorkerEffort) + WaitEffort(s.waiter) + (if s.flags.zeroSeen then 0 else 1)
  }

  /** Steps of the workers and of `Wait` that are not a repeated look at the counter. */
  predicate Productive(s: State, e: Event) {
    e.Worker? || (e.Waiter? && !(e.wait == SeeZero && s.flags.zeroSeen))
  }

  /** Every productive step brings the call closer to its end. */
  lemma ProductiveStepsCount(s: State, e: Event)
    requires Enabled(s, e) && Productive(s, e)
    ensures Effort(Apply(s, e)) < Effort(s)
  {
    if e.Worker? {
      SumUpdate(s.workers, e.i, Apply(s, e).workers[e.i], WorkerEffort);
    }
  }

  /** Workers exit only after a cancellation, and `Wait` cleans up only after one. */
  ghost predicate ExitInv(s: State) {
    && s.flags.started && |s.workers| == DEFAULT_WORKERS && s.adders == []
    && ((exists i | 0 <= i < |s.workers| :: s.workers[i].Exited?) ==> s.flags.cancelled)
    && (s.waiter.Draining? || s.waiter.Drained? || s.waiter.Cleanup? ==> s.flags.cancelled)
  }

  lemma {:induction false} RunExitInv(urls: seq<Url>, run: seq<State>, k: nat)
    requires IsCrawl(urls, run) && k < |run|
    ensures ExitInv(run[k])
  {
    if k > 0 {
      RunExitInv(urls, run, k - 1);
      assert Next(run[k - 1], run[k - 1 + 1]);
      var e := NextEvent(run[k - 1], run[k]);
      if e.Worker? {
        forall i | 0 <= i < |run[k].workers| && run[k].workers[i].Exited? ensures run[k].flags.cancelled {
          assert i == e.i || run[k - 1].workers[i].Exited?;
        }
      }
    }
  }

  function WorkerForward(s: State, i: nat): Event
    requires i < |s.workers|
  {
    Event.Worker(i, match s.workers[i]
              case Ready => if s.flags.cancelled then Exit else Receive
              case Processing(_) => FireCallbacks(true)
              case Reported(_) => Done
              case Exited => Exit)
  }

  /** The engine never gets stuck as long as `processRequest` returns: until `Wait` has returned, some productive step
      is possible. Module Crawling discharges the condition for the semaphores that `processRequest` waits for. */
  lemma CrawlNeverStuck(urls: seq<Url>, run: seq<State>, k: nat) returns (e: Event)
    requires |urls| <= QUEUE_CAPACITY && IsCrawl(urls, run) && k < |run| && !run[k].waiter.Returned?
    ensures Enabled(run[k], e) && Productive(run[k], e)
  {
    LoadedInv(urls);
    StepsKeepInv(run, k);
    RunExitInv(urls, run, k);
    var s := run[k];
    match s.waiter
    case NotCalled => e := Waiter(CallWait);
    case Draining => e := Waiter(if s.queue == [] then DrainEmpty else DrainOne);
    case Drained(_) => e := Waiter(DrainDone);
    case Waiting =>
      if s.flags.zeroSeen {
        e := Waiter(AllDone);
      } else if s.flags.cancelled {
        e := Waiter(SeeCancel);
      } else if s.urlWg == 0 {
        e := Waiter(SeeZero);
      } else if Count(s.workers, Busy) > 0 {
        var i := CountWitness(s.workers, Busy);
        e := WorkerForward(s, i);
      } else {
        CountZero(s.workers, 0, Busy);
        e := WorkerForward(s, 0);
      }
    case Cleanup(_) =>
      if i: nat :| i < |s.workers| && !s.workers[i].Exited? {
        e := WorkerForward(s, i);
      } else {
        e := Waiter(WaitReturns);
      }
  }
}
