/** The retry and dead-letter protocol of the Kafka consumer in `pkg/distributed/consumer.go`.

    A task travels topic -> reader -> channel -> worker, and then succeeds, is published again after a backoff, or
    goes to the dead-letter queue. Broker writes may fail and the context may be cancelled, if `Faults` says so. A task
    that a worker gives up is `lost`, because its message was committed when it was put on the channel: the worker had
    just received it when it saw the cancellation, its backoff was cut short, or its write failed. After a
    cancellation the reader and the workers return.
    `calls` and `waited` record what has happened to a task; the code itself carries only `retryCount`. */
module Consumer {
  import opened Tally

  datatype Config = Config(workers: nat, maxRetries: nat, retryBackoff: nat)

  /** After `defaults()` there is at least one worker and at least one retry. */
  predicate ValidConfig(c: Config) {
    c.workers >= 1 && c.maxRetries >= 1
  }

  datatype Task = Task(id: nat, retryCount: nat, calls: nat, waited: nat)

  /** `worker`: waiting for a task; just received one; in the handler; in the backoff of a retry; returned. */
  datatype WorkerPc = Free | Received(task: Task) | Handling(task: Task) | BackingOff(task: Task) | Exited

  /** `readerDone`: the read loop has returned and closed the channel; the message in its hand is not committed. */
  datatype State = State(
    topic: seq<Task>,
    reader: seq<Task>,
    channel: seq<Task>,
    workers: seq<WorkerPc>,
    succeeded: seq<Task>,
    deadLetters: seq<Task>,
    lost: seq<Task>,
    readerDone: bool,
    cancelled: bool
  )

  /** What may go wrong in a run: broker writes fail; the context is cancelled. */
  datatype Faults = Faults(writes: bool, cancellation: bool)

  function Pow2(n: nat): nat {
    if n == 0 then 1 else 2 * Pow2(n - 1)
  }

  datatype Verdict = Retry(task: Task, backoff: nat) | DeadLetter(task: Task)

  /** The decision of `handleFailure`. */
  function OnFailure(c: Config, t: Task): Verdict {
    if t.retryCount < c.maxRetries then
      Retry(t.(retryCount := t.retryCount + 1, calls := t.calls + 1), c.retryBackoff * Pow2(t.retryCount))
    else DeadLetter(t.(calls := t.calls + 1))
  }

  class TaskCell {
    var retryCount: nat
  }

  /** `handleFailure` up to its first wait: the retry count is incremented in place, and the backoff is the base
      shifted left by the new count less one. `t` is the task that the cell stands for. */
  method HandleFailure(c: Config, task: TaskCell, ghost t: Task) returns (retry: bool, backoff: nat)
    requires t.retryCount == task.retryCount
    modifies task
    ensures retry == OnFailure(c, t).Retry?
    ensures task.retryCount == OnFailure(c, t).task.retryCount
    ensures retry ==> backoff == OnFailure(c, t).backoff
  {
    if task.retryCount < c.maxRetries {
      task.retryCount := task.retryCount + 1;
      var shifted := 1;
      for k := 0 to task.retryCount - 1
        invariant shifted == Pow2(k)
      {
        shifted := 2 * shifted;
      }
      return true, c.retryBackoff * shifted;
    }
    return false, 0;
  }

  // The machine.

  function Remove(s: seq<Task>, i: nat): seq<Task>
    requires i < |s|
  {
    s[..i] + s[i + 1..]
  }

  datatype Event =
    | FetchMessage(k: nat)
    | SendToChannel
    | ReaderReturns
    | Receive(w: nat)
    | CheckContext(w: nat)
    | Succeed(w: nat)
    | Fail(w: nat)
    | Republish(w: nat)
    | LoseRetry(w: nat)
    | LoseDeadLetter(w: nat)
    | WorkerReturns(w: nat)
    | Cancel

  predicate IsHandling(s: State, w: nat) {
    w < |s.workers| && s.workers[w].Handling?
  }

  predicate IsBackingOff(s: State, w: nat) {
    w < |s.workers| && s.workers[w].BackingOff?
  }

  predicate Enabled(c: Config, f: Faults, s: State, e: Event) {
    match e
    case FetchMessage(k) => !s.readerDone && k < |s.topic| && s.reader == []
    case SendToChannel => !s.readerDone && s.reader != [] && |s.channel| < 2 * c.workers
    case ReaderReturns => !s.readerDone && s.cancelled
    case Receive(w) => w < |s.workers| && s.workers[w].Free? && s.channel != []
    case CheckContext(w) => w < |s.workers| && s.workers[w].Received?
    case Succeed(w) => IsHandling(s, w)
    case Fail(w) => IsHandling(s, w)
    case Republish(w) => IsBackingOff(s, w)
    case LoseRetry(w) => (f.writes || s.cancelled) && IsBackingOff(s, w)
    case LoseDeadLetter(w) =>
        (f.writes || s.cancelled) && IsHandling(s, w) && s.workers[w].task.retryCount >= c.maxRetries
    case WorkerReturns(w) => w < |s.workers| && s.workers[w].Free? && s.readerDone && s.channel == []
    case Cancel => f.cancellation && !s.cancelled
  }

  function Completed(t: Task): Task {
    t.(calls := t.calls + 1)
  }

  function Apply(c: Config, f: Faults, s: State, e: Event): State
    requires Enabled(c, f, s, e)
  {
    match e
    case FetchMessage(k) => s.(topic := Remove(s.topic, k), reader := [s.topic[k]])
    case SendToChannel => s.(reader := s.reader[1..], channel := s.channel + [s.reader[0]])
    case ReaderReturns => s.(readerDone := true)
    case Receive(w) => s.(channel := s.channel[1..], workers := s.workers[w := Received(s.channel[0])])
    case CheckContext(w) =>
      var t := s.workers[w].task;
      if s.cancelled then s.(workers := s.workers[w := Exited], lost := s.lost + [t])
      else s.(workers := s.workers[w := Handling(t)])
    case Succeed(w) => s.(workers := s.workers[w := Free], succeeded := s.succeeded + [Completed(s.workers[w].task)])
    case Fail(w) =>
      (match OnFailure(c, s.workers[w].task)
       case Retry(t, backoff) => s.(workers := s.workers[w := BackingOff(t.(waited := t.waited + backoff))])
       case DeadLetter(t) => s.(workers := s.workers[w := Free], deadLetters := s.deadLetters + [t]))
    case Republish(w) => s.(workers := s.workers[w := Free], topic := s.topic + [s.workers[w].task])
    case LoseRetry(w) => s.(workers := s.workers[w := Free], lost := s.lost + [s.workers[w].task])
    case LoseDeadLetter(w) => s.(workers := s.workers[w := Free], lost := s.lost + [Completed(s.workers[w].task)])
    case WorkerReturns(w) => s.(workers := s.workers[w := Exited])
    case Cancel => s.(cancelled := true)
  }

  ghost predicate Next(c: Config, f: Faults, s: State, s': State) {
    exists e :: Enabled(c, f, s, e) && s' == Apply(c, f, s, e)
  }

  /** Tasks 0 to `n - 1` have been published, never retried, and nothing else has happened. */
  function Published(c: Config, n: nat): State {
    State(seq(n, i requires i >= 0 => Task(i, 0, 0, 0)), [], [], seq(c.workers, _ => Free), [], [], [], false, false)
  }

  ghost predicate IsRun(c: Config, f: Faults, n: nat, run: seq<State>) {
    && |run| > 0
    && run[0] == Published(c, n)
    && forall k | 0 <= k < |run| - 1 :: Next(c, f, run[k], run[k + 1])
  }

  lemma NextEvent(c: Config, f: Faults, n: nat, run: seq<State>, k: nat) returns (e: Event)
    requires IsRun(c, f, n, run) && 0 < k < |run|
    ensures Enabled(c, f, run[k - 1], e) && run[k] == Apply(c, f, run[k - 1], e)
  {
    assert Next(c, f, run[k - 1], run[k - 1 + 1]);
    e :| Enabled(c, f, run[k - 1], e) && run[k] == Apply(c, f, run[k - 1], e);
  }

  // Where a task is.

  function HasId(id: nat): Task -> bool {
    (t: Task) => t.id == id
  }

  predicate HasTask(pc: WorkerPc) {
    !pc.Free? && !pc.Exited?
  }

  function WorkerHasId(id: nat): WorkerPc -> bool {
    (pc: WorkerPc) => HasTask(pc) && pc.task.id == id
  }

  function Copies(s: State, id: nat): nat {
    Count(s.topic, HasId(id)) + Count(s.reader, HasId(id)) + Count(s.channel, HasId(id))
    + Count(s.workers, WorkerHasId(id)) + Count(s.succeeded, HasId(id)) + Count(s.deadLetters, HasId(id))
    + Count(s.lost, HasId(id))
  }

  lemma {:induction false} CountRemove(s: seq<Task>, i: nat, p: Task -> bool)
    requires i < |s|
    ensures Count(s, p) == Count(Remove(s, i), p) + Count([s[i]], p)
  {
    if i == 0 {
      assert Remove(s, 0) == s[1..];
    } else {
      CountRemove(s[1..], i - 1, p);
      assert Remove(s, i)[1..] == Remove(s[1..], i - 1);
    }
  }

  lemma CountTail(s: seq<Task>, p: Task -> bool)
    requires s != []
    ensures Count(s, p) == Count(s[1..], p) + Count([s[0]], p)
  {
    CountJoin([s[0]], s[1..], p);
    assert s == [s[0]] + s[1..];
  }

  /** Steps of the reader and of the context. */
  predicate ReaderSide(e: Event) {
    e.FetchMessage? || e.SendToChannel? || e.ReaderReturns? || e.Cancel?
  }

  lemma ReaderConserves(c: Config, f: Faults, s: State, e: Event, id: nat)
    requires Enabled(c, f, s, e) && ReaderSide(e)
    ensures Copies(Apply(c, f, s, e), id) == Copies(s, id)
  {
    var p := HasId(id);
    match e
    case FetchMessage(k) =>
      CountRemove(s.topic, k, p);
    case SendToChannel =>
      CountTail(s.reader, p);
      CountJoin(s.channel, [s.reader[0]], p);
    case ReaderReturns =>
    case Cancel =>
  }

  lemma ReceiveConserves(c: Config, f: Faults, s: State, e: Event, id: nat)
    requires Enabled(c, f, s, e) && (e.Receive? || e.WorkerReturns?)
    ensures Copies(Apply(c, f, s, e), id) == Copies(s, id)
  {
    CountUpdate(s.workers, e.w, Apply(c, f, s, e).workers[e.w], WorkerHasId(id));
    if e.Receive? {
      CountTail(s.channel, HasId(id));
    }
  }

  lemma FailConserves(c: Config, f: Faults, s: State, w: nat, id: nat)
    requires Enabled(c, f, s, Fail(w))
    ensures Copies(Apply(c, f, s, Fail(w)), id) == Copies(s, id)
  {
    var t := s.workers[w].task;
    CountUpdate(s.workers, w, Apply(c, f, s, Fail(w)).workers[w], WorkerHasId(id));
    if t.retryCount >= c.maxRetries {
      CountJoin(s.deadLetters, [Completed(t)], HasId(id));
    }
  }

  lemma EndConserves(c: Config, f: Faults, s: State, e: Event, id: nat)
    requires Enabled(c, f, s, e) && (e.Succeed? || e.Republish?)
    ensures Copies(Apply(c, f, s, e), id) == Copies(s, id)
  {
    var p, t := HasId(id), s.workers[e.w].task;
    CountUpdate(s.workers, e.w, Apply(c, f, s, e).workers[e.w], WorkerHasId(id));
    match e
    case Succeed(_) => CountJoin(s.succeeded, [Completed(t)], p);
    case Republish(_) => CountJoin(s.topic, [t], p);
  }

  lemma LossConserves(c: Config, f: Faults, s: State, e: Event, id: nat)
    requires Enabled(c, f, s, e) && (e.CheckContext? || e.LoseRetry? || e.LoseDeadLetter?)
    ensures Copies(Apply(c, f, s, e), id) == Copies(s, id)
  {
    var t := s.workers[e.w].task;
    CountUpdate(s.workers, e.w, Apply(c, f, s, e).workers[e.w], WorkerHasId(id));
    CountJoin(s.lost, [if e.LoseDeadLetter? then Completed(t) else t], HasId(id));
  }

  /** No step makes or destroys a copy of a task. */
  lemma StepConserves(c: Config, f: Faults, s: State, e: Event, id: nat)
    requires Enabled(c, f, s, e)
    ensures Copies(Apply(c, f, s, e), id) == Copies(s, id)
  {
    if ReaderSide(e) {
      ReaderConserves(c, f, s, e, id);
    } else if e.Receive? || e.WorkerReturns? {
      ReceiveConserves(c, f, s, e, id);
    } else if e.Fail? {
      FailConserves(c, f, s, e.w, id);
    } else if e.Succeed? || e.Republish? {
      EndConserves(c, f, s, e, id);
    } else {
      LossConserves(c, f, s, e, id);
    }
  }

  lemma {:induction false} PublishedOnce(n: nat, ts: seq<Task>, id: nat)
    requires |ts| == n && forall i | 0 <= i < n :: ts[i].id == i
    ensures Count(ts, HasId(id)) == if id < n then 1 else 0
    decreases n
  {
    if n > 0 {
      PublishedOnce(n - 1, ts[..n - 1], id);
      CountJoin(ts[..n - 1], [ts[n - 1]], HasId(id));
      assert ts == ts[..n - 1] + [ts[n - 1]];
    }
  }

  /** In every interleaving, with or without faults, each published task is in exactly one place. */
  lemma {:induction false} ExactlyOnePlace(c: Config, f: Faults, n: nat, run: seq<State>, k: nat, id: nat)
    requires IsRun(c, f, n, run) && k < |run|
    ensures Copies(run[k], id) == if id < n then 1 else 0
  {
    if k == 0 {
      PublishedOnce(n, run[0].topic, id);
      CountNone(run[0].workers, WorkerHasId(id));
    } else {
      ExactlyOnePlace(c, f, n, run, k - 1, id);
      var e := NextEvent(c, f, n, run, k);
      StepConserves(c, f, run[k - 1], e, id);
    }
  }

  // What a task has been through.

  function Waited(c: Config, retries: nat): int {
    c.retryBackoff * (Pow2(retries) - 1)
  }

  lemma {:induction false} Pow2Positive(n: nat)
    ensures Pow2(n) >= 1
  {
    if n > 0 {
      Pow2Positive(n - 1);
    }
  }

  /** A task that is waiting to be handled has been called once per retry and has waited the sum of its backoffs. */
  predicate LiveTask(c: Config, t: Task) {
    t.calls == t.retryCount <= c.maxRetries && t.waited == Waited(c, t.retryCount)
  }

  predicate SucceededTask(c: Config, t: Task) {
    t.calls == t.retryCount + 1 <= c.maxRetries + 1 && t.waited == Waited(c, t.retryCount)
  }

  predicate DeadTask(c: Config, t: Task) {
    t.retryCount == c.maxRetries && t.calls == c.maxRetries + 1 && t.waited == Waited(c, c.maxRetries)
  }

  ghost predicate AllLive(c: Config, ts: seq<Task>) {
    forall i | 0 <= i < |ts| :: LiveTask(c, ts[i])
  }

  ghost predicate TaskInv(c: Config, s: State) {
    && AllLive(c, s.topic) && AllLive(c, s.reader) && AllLive(c, s.channel)
    && (forall w | 0 <= w < |s.workers| && HasTask(s.workers[w]) :: LiveTask(c, s.workers[w].task))
    && (forall i | 0 <= i < |s.succeeded| :: SucceededTask(c, s.succeeded[i]))
    && (forall i | 0 <= i < |s.deadLetters| :: DeadTask(c, s.deadLetters[i]))
  }

  lemma FailKeepsTask(c: Config, t: Task)
    requires LiveTask(c, t)
    ensures match OnFailure(c, t)
      case Retry(t', backoff) => LiveTask(c, t'.(waited := t'.waited + backoff))
      case DeadLetter(t') => DeadTask(c, t')
  {
    if t.retryCount < c.maxRetries {
      var b, p := c.retryBackoff, Pow2(t.retryCount);
      Pow2Positive(t.retryCount);
      assert b * (2 * p - 1) == b * (p - 1) + b * p;
    }
  }

  lemma ReaderTaskInv(c: Config, f: Faults, s: State, e: Event)
    requires Enabled(c, f, s, e) && TaskInv(c, s) && (ReaderSide(e) || e.Receive?)
    ensures TaskInv(c, Apply(c, f, s, e))
  {
  }

  lemma StepTaskInv(c: Config, f: Faults, s: State, e: Event)
    requires Enabled(c, f, s, e) && TaskInv(c, s)
    ensures TaskInv(c, Apply(c, f, s, e))
  {
    if ReaderSide(e) || e.Receive? {
      ReaderTaskInv(c, f, s, e);
    } else if e.Fail? {
      FailKeepsTask(c, s.workers[e.w].task);
    }
  }

  /** A worker or the reader returns only after a cancellation; without one, and with a working broker, nothing is
      lost; and the channel is never over its capacity. */
  ghost predicate ControlInv(c: Config, f: Faults, s: State) {
    && |s.workers| == c.workers && |s.channel| <= 2 * c.workers && (s.cancelled ==> f.cancellation)
    && (s.readerDone ==> s.cancelled)
    && (forall w | 0 <= w < |s.workers| && s.workers[w].Exited? :: s.cancelled)
    && (!f.writes && !s.cancelled ==> s.lost == [])
  }

  lemma StepControlInv(c: Config, f: Faults, s: State, e: Event)
    requires Enabled(c, f, s, e) && ControlInv(c, f, s)
    ensures ControlInv(c, f, Apply(c, f, s, e))
  {
  }

  lemma {:induction false} RunTaskInv(c: Config, f: Faults, n: nat, run: seq<State>, k: nat)
    requires IsRun(c, f, n, run) && k < |run|
    ensures TaskInv(c, run[k]) && ControlInv(c, f, run[k])
  {
    if k > 0 {
      RunTaskInv(c, f, n, run, k - 1);
      var e := NextEvent(c, f, n, run, k);
      StepTaskInv(c, f, run[k - 1], e);
      StepControlInv(c, f, run[k - 1], e);
    }
  }

  /** A task in the dead-letter queue was handled exactly `maxRetries + 1` times and waited exactly
      `retryBackoff * (2^maxRetries - 1)`; a task that succeeded was handled at most `maxRetries + 1` times; and
      with a working broker no task is ever dropped before a cancellation. */
  lemma FinalAccounts(c: Config, f: Faults, n: nat, run: seq<State>, k: nat)
    requires IsRun(c, f, n, run) && k < |run|
    ensures forall i | 0 <= i < |run[k].deadLetters| ::
      run[k].deadLetters[i].calls == c.maxRetries + 1
          && run[k].deadLetters[i].waited == c.retryBackoff * (Pow2(c.maxRetries) - 1)
    ensures forall i | 0 <= i < |run[k].succeeded| ::
      run[k].succeeded[i].calls == run[k].succeeded[i].retryCount + 1 <= c.maxRetries + 1
    ensures !f.writes && !run[k].cancelled ==> run[k].lost == []
  {
    RunTaskInv(c, f, n, run, k);
  }

  // What a cancellation costs.

  /** The number of tasks that a worker can have lost to a cancellation: the one it had in hand, and the one it received
      next, after which it returns. */
  function Losses(pc: WorkerPc): nat {
    match pc case Exited => 2 case Free => 1 case Received(_) => 1 case Handling(_) => 0 case BackingOff(_) => 0
  }

  ghost predicate LossInv(f: Faults, s: State) {
    !f.writes ==> |s.lost| <= if s.cancelled then Sum(s.workers, Losses) else 0
  }

  lemma StepLossInv(c: Config, f: Faults, s: State, e: Event)
    requires Enabled(c, f, s, e) && LossInv(f, s)
    ensures LossInv(f, Apply(c, f, s, e))
  {
    if !ReaderSide(e) {
      SumUpdate(s.workers, e.w, Apply(c, f, s, e).workers[e.w], Losses);
    }
  }

  lemma {:induction false} LossesBound(ws: seq<WorkerPc>)
    ensures Sum(ws, Losses) <= 2 * |ws|
  {
    if ws != [] {
      LossesBound(ws[1..]);
    }
  }

  lemma {:induction false} RunLossInv(c: Config, f: Faults, n: nat, run: seq<State>, k: nat)
    requires IsRun(c, f, n, run) && k < |run|
    ensures LossInv(f, run[k])
  {
    if k > 0 {
      RunLossInv(c, f, n, run, k - 1);
      var e := NextEvent(c, f, n, run, k);
      StepLossInv(c, f, run[k - 1], e);
    }
  }

  /** With a working broker a cancellation costs at most two tasks per worker, and leaves at most two per worker behind
      in the channel, however many tasks there are. */
  lemma CancellationLosesFew(c: Config, f: Faults, n: nat, run: seq<State>, k: nat)
    requires IsRun(c, f, n, run) && k < |run| && !f.writes
    ensures |run[k].lost| <= 2 * c.workers && |run[k].channel| <= 2 * c.workers
  {
    RunTaskInv(c, f, n, run, k);
    RunLossInv(c, f, n, run, k);
    LossesBound(run[k].workers);
  }

  // What happened to a task decides where it ends.

  /** A run together with its events. */
  ghost predicate IsTrace(c: Config, f: Faults, n: nat, run: seq<State>, events: seq<Event>) {
    && |run| == |events| + 1
    && run[0] == Published(c, n)
    && forall k | 0 <= k < |events| :: Enabled(c, f, run[k], events[k]) && run[k + 1] == Apply(c, f, run[k], events[k])
  }

  lemma TraceIsRun(c: Config, f: Faults, n: nat, run: seq<State>, events: seq<Event>)
    requires IsTrace(c, f, n, run, events)
    ensures IsRun(c, f, n, run)
  {
    forall k | 0 <= k < |run| - 1 ensures Next(c, f, run[k], run[k + 1]) {
      assert Enabled(c, f, run[k], events[k]);
    }
  }

  /** The handler has been called on task `id` and has returned. A call that fails for good ends in a dead letter that
      is written (`Fail`) or not (`LoseDeadLetter`). */
  predicate Returns(s: State, e: Event, id: nat) {
    && (e.Succeed? || e.Fail? || e.LoseDeadLetter?)
    && e.w < |s.workers| && HasTask(s.workers[e.w]) && s.workers[e.w].task.id == id
  }

  /** The calls of the handler on a task: those that failed, whether the last one succeeded, and the dead letters that
      could not be written. */
  datatype History = History(failures: nat, succeeded: bool, unwritten: nat)

  function Extend(h: History, s: State, e: Event, id: nat): History {
    if !Returns(s, e, id) then h
    else if e.Succeed? then h.(succeeded := true)
    else History(h.failures + 1, false, h.unwritten + One(e.LoseDeadLetter?))
  }

  function HistoryOf(run: seq<State>, events: seq<Event>, k: nat, id: nat): History
    requires k <= |events| < |run|
  {
    if k == 0 then History(0, false, 0) else Extend(HistoryOf(run, events, k - 1, id), run[k - 1], events[k - 1], id)
  }

  ghost predicate AllAt(ts: seq<Task>, id: nat, failures: nat) {
    forall i | 0 <= i < |ts| && ts[i].id == id :: ts[i].retryCount == failures
  }

  /** Every copy of the task that is under way has been retried once per failure. */
  ghost predicate UnderWay(s: State, id: nat, failures: nat) {
    && AllAt(s.topic, id, failures) && AllAt(s.reader, id, failures) && AllAt(s.channel, id, failures)
    && forall w | 0 <= w < |s.workers| && WorkerHasId(id)(s.workers[w]) :: s.workers[w].task.retryCount == failures
  }

  ghost predicate HistoryInv(c: Config, s: State, id: nat, h: History) {
    && UnderWay(s, id, h.failures)
    && h.failures <= c.maxRetries + 1
    && Count(s.succeeded, HasId(id)) == One(h.succeeded)
    && Count(s.deadLetters, HasId(id)) + h.unwritten == One(h.failures == c.maxRetries + 1)
  }

  lemma NoneHere(ts: seq<Task>, id: nat)
    requires Count(ts, HasId(id)) == 0
    ensures forall i | 0 <= i < |ts| :: ts[i].id != id
  {
    forall i: nat | i < |ts| ensures ts[i].id != id {
      CountZero(ts, i, HasId(id));
    }
  }

  /** A worker that has the task has the only copy. */
  lemma OnlyCopy(s: State, w: nat, id: nat)
    requires Copies(s, id) <= 1 && w < |s.workers| && WorkerHasId(id)(s.workers[w])
    ensures forall i | 0 <= i < |s.topic| :: s.topic[i].id != id
    ensures forall i | 0 <= i < |s.reader| :: s.reader[i].id != id
    ensures forall i | 0 <= i < |s.channel| :: s.channel[i].id != id
    ensures forall v | 0 <= v < |s.workers| && v != w :: !WorkerHasId(id)(s.workers[v])
    ensures Count(s.succeeded, HasId(id)) == Count(s.deadLetters, HasId(id)) == 0
  {
    CountUpdate(s.workers, w, Free, WorkerHasId(id));
    NoneHere(s.topic, id);
    NoneHere(s.reader, id);
    NoneHere(s.channel, id);
    var others := s.workers[w := Free];
    forall v: nat | v < |s.workers| && v != w ensures !WorkerHasId(id)(s.workers[v]) {
      CountZero(others, v, WorkerHasId(id));
      assert others[v] == s.workers[v];
    }
  }

  lemma ReaderHistory(c: Config, f: Faults, s: State, e: Event, id: nat, h: History)
    requires Enabled(c, f, s, e) && ReaderSide(e) && HistoryInv(c, s, id, h)
    ensures HistoryInv(c, Apply(c, f, s, e), id, h)
  {
  }

  lemma OtherReturns(c: Config, f: Faults, s: State, e: Event, id: nat, h: History)
    requires Enabled(c, f, s, e) && (e.Succeed? || e.Fail?) && HistoryInv(c, s, id, h) && !Returns(s, e, id)
    ensures HistoryInv(c, Apply(c, f, s, e), id, h)
  {
    var t := Completed(s.workers[e.w].task);
    CountJoin(s.succeeded, [t], HasId(id));
    CountJoin(s.deadLetters, [t], HasId(id));
    assert Count([t], HasId(id)) == 0;
  }

  /** A worker's step that is not the return of a handler for this task. */
  lemma WorkerHistory(c: Config, f: Faults, s: State, e: Event, id: nat, h: History)
    requires Enabled(c, f, s, e) && !ReaderSide(e) && HistoryInv(c, s, id, h) && !Returns(s, e, id)
    ensures HistoryInv(c, Apply(c, f, s, e), id, h)
  {
    if e.Succeed? || e.Fail? {
      OtherReturns(c, f, s, e, id, h);
    }
  }

  lemma SuccessHistory(c: Config, f: Faults, s: State, w: nat, id: nat, h: History)
    requires Enabled(c, f, s, Succeed(w)) && Returns(s, Succeed(w), id) && HistoryInv(c, s, id, h) && Copies(s, id) <= 1
    ensures HistoryInv(c, Apply(c, f, s, Succeed(w)), id, h.(succeeded := true))
  {
    OnlyCopy(s, w, id);
    var t := Completed(s.workers[w].task);
    CountJoin(s.succeeded, [t], HasId(id));
    assert Count([t], HasId(id)) == 1;
  }

  lemma FailureHistory(c: Config, f: Faults, s: State, e: Event, id: nat, h: History)
    requires Enabled(c, f, s, e) && (e.Fail? || e.LoseDeadLetter?) && Returns(s, e, id)
    requires HistoryInv(c, s, id, h) && TaskInv(c, s) && Copies(s, id) <= 1
    ensures HistoryInv(c, Apply(c, f, s, e), id, History(h.failures + 1, false, h.unwritten + One(e.LoseDeadLetter?)))
  {
    OnlyCopy(s, e.w, id);
    var t := Completed(s.workers[e.w].task);
    CountJoin(s.deadLetters, [t], HasId(id));
    assert Count([t], HasId(id)) == 1;
    assert s.workers[e.w].task.retryCount == h.failures;
  }

  lemma StepHistory(c: Config, f: Faults, s: State, e: Event, id: nat, h: History)
    requires Enabled(c, f, s, e) && HistoryInv(c, s, id, h) && TaskInv(c, s) && Copies(s, id) <= 1
    ensures HistoryInv(c, Apply(c, f, s, e), id, Extend(h, s, e, id))
  {
    if ReaderSide(e) {
      ReaderHistory(c, f, s, e, id, h);
    } else if !Returns(s, e, id) {
      WorkerHistory(c, f, s, e, id, h);
    } else if e.Succeed? {
      SuccessHistory(c, f, s, e.w, id, h);
    } else {
      FailureHistory(c, f, s, e, id, h);
    }
  }

  lemma {:induction false} TraceHistory(
    c: Config, f: Faults, n: nat, run: seq<State>, events: seq<Event>, k: nat, id: nat)
    requires IsTrace(c, f, n, run, events) && k <= |events|
    ensures HistoryInv(c, run[k], id, HistoryOf(run, events, k, id))
  {
    if k > 0 {
      TraceHistory(c, f, n, run, events, k - 1, id);
      TraceIsRun(c, f, n, run, events);
      ExactlyOnePlace(c, f, n, run, k - 1, id);
      RunTaskInv(c, f, n, run, k - 1);
      assert Enabled(c, f, run[k - 1], events[k - 1]) && run[k] == Apply(c, f, run[k - 1], events[k - 1]);
      StepHistory(c, f, run[k - 1], events[k - 1], id, HistoryOf(run, events, k - 1, id));
    }
  }

  /** In every run, a task has succeeded if and only if the last call of its handler returned no error; and it is in the
      dead-letter queue if and only if all `maxRetries + 1` calls of its handler failed and the dead letter could be
      written. No handler is called on it more often than that. */
  lemma EndIffHistory(c: Config, f: Faults, n: nat, run: seq<State>, events: seq<Event>, k: nat, id: nat)
    requires IsTrace(c, f, n, run, events) && k <= |events|
    ensures var s, h := run[k], HistoryOf(run, events, k, id);
      && Count(s.succeeded, HasId(id)) == One(h.succeeded)
      && Count(s.deadLetters, HasId(id)) == One(h.failures == c.maxRetries + 1 && h.unwritten == 0)
      && h.failures <= c.maxRetries + 1 && h.unwritten <= 1
  {
    TraceHistory(c, f, n, run, events, k, id);
  }

  /** The return of a handler without an error adds its task to the succeeded ones and to nothing else; a return with an
      error never does, and below the limit it leaves the worker in a backoff. */
  lemma HandlerAnswers(c: Config, f: Faults, s: State, e: Event, id: nat)
    requires Enabled(c, f, s, e) && Returns(s, e, id)
    ensures var s' := Apply(c, f, s, e);
      if e.Succeed? then
        && |s'.succeeded| == |s.succeeded| + 1 && s'.succeeded[|s.succeeded|].id == id
        && s'.deadLetters == s.deadLetters && s'.lost == s.lost && s'.topic == s.topic
      else
        && s'.succeeded == s.succeeded
        && (s.workers[e.w].task.retryCount < c.maxRetries ==>
              s'.workers[e.w].BackingOff? && s'.deadLetters == s.deadLetters && s'.lost == s.lost)
  {
  }

  /** The channel is first in, first out: a step appends the reader's message, or takes the oldest one for a worker, or
      leaves it alone. */
  lemma ChannelIsFifo(c: Config, f: Faults, s: State, e: Event)
    requires Enabled(c, f, s, e)
    ensures var s' := Apply(c, f, s, e);
      || s'.channel == s.channel
      || (s.reader != [] && s'.channel == s.channel + [s.reader[0]] && s'.reader == s.reader[1..])
      || (s.channel != [] && s'.channel == s.channel[1..]
          && exists w :: 0 <= w < |s'.workers| && s'.workers[w] == Received(s.channel[0]))
  {
    if e.Receive? {
      assert Apply(c, f, s, e).workers[e.w] == Received(s.channel[0]);
    }
  }

  /** A worker returns only after a cancellation, with the task it has just received, or once the channel is closed and
      empty. */
  lemma WorkerLeaves(c: Config, f: Faults, s: State, e: Event, w: nat)
    requires Enabled(c, f, s, e) && w < |s.workers| && !s.workers[w].Exited? && Apply(c, f, s, e).workers[w].Exited?
    ensures (s.workers[w].Received? && s.cancelled && Apply(c, f, s, e).lost == s.lost + [s.workers[w].task])
         || (s.workers[w].Free? && s.readerDone && s.channel == [])
  {
  }

  /** Once the reader has returned, it fetches and sends nothing more. */
  lemma ReaderStaysDone(c: Config, f: Faults, s: State, e: Event)
    requires Enabled(c, f, s, e) && s.readerDone
    ensures var s' := Apply(c, f, s, e);
      s'.readerDone && s'.reader == s.reader && s.topic <= s'.topic && |s'.channel| <= |s.channel|
  {
  }

  // When tasks are lost, and how many.

  /** One more step at the end of a run. */
  lemma Extended(c: Config, f: Faults, n: nat, run: seq<State>, e: Event) returns (longer: seq<State>)
    requires IsRun(c, f, n, run) && Enabled(c, f, run[|run| - 1], e)
    ensures IsRun(c, f, n, longer) && longer[|longer| - 1] == Apply(c, f, run[|run| - 1], e)
  {
    longer := run + [Apply(c, f, run[|run| - 1], e)];
    forall k | 0 <= k < |longer| - 1 ensures Next(c, f, longer[k], longer[k + 1]) {
      if k < |run| - 1 {
        assert longer[k] == run[k] && longer[k + 1] == run[k + 1];
      }
    }
  }

  /** The first published task is given up: the worker that received it sees the cancellation, or its handler fails
      and the retry cannot be written. */
  lemma LosingRun(c: Config, f: Faults, n: nat) returns (run: seq<State>)
    requires ValidConfig(c) && n > 0 && (f.writes || f.cancellation)
    ensures IsRun(c, f, n, run) && |run[|run| - 1].lost| == 1
  {
    run := [Published(c, n)];
    run := Extended(c, f, n, run, FetchMessage(0));
    run := Extended(c, f, n, run, SendToChannel);
    run := Extended(c, f, n, run, Receive(0));
    if f.cancellation {
      run := Extended(c, f, n, run, Cancel);
      run := Extended(c, f, n, run, CheckContext(0));
    } else {
      run := Extended(c, f, n, run, CheckContext(0));
      run := Extended(c, f, n, run, Fail(0));
      run := Extended(c, f, n, run, LoseRetry(0));
    }
  }

  lemma NothingToLose(c: Config, f: Faults, run: seq<State>, k: nat)
    requires IsRun(c, f, 0, run) && k < |run|
    ensures run[k].lost == []
  {
    if run[k].lost != [] {
      var id := run[k].lost[0].id;
      ExactlyOnePlace(c, f, 0, run, k, id);
      CountMember(run[k].lost, 0, HasId(id));
      assert false;
    }
  }

  lemma NothingLostWithoutFaults(c: Config, f: Faults, n: nat, run: seq<State>, k: nat)
    requires IsRun(c, f, n, run) && k < |run| && !f.writes && !f.cancellation
    ensures run[k].lost == []
  {
    RunTaskInv(c, f, n, run, k);
  }

  /** A committed task is never given up, in any run, if and only if there is no task, or neither can a broker write
      fail nor the context be cancelled. */
  lemma NothingLostIff(c: Config, f: Faults, n: nat)
    requires ValidConfig(c)
    ensures (forall run: seq<State>, k: nat | IsRun(c, f, n, run) && k < |run| :: run[k].lost == []) <==>
            n == 0 || (!f.writes && !f.cancellation)
  {
    if n > 0 && (f.writes || f.cancellation) {
      var run := LosingRun(c, f, n);
      assert run[|run| - 1].lost != [];
    } else {
      forall run: seq<State>, k: nat | IsRun(c, f, n, run) && k < |run| ensures run[k].lost == [] {
        if n == 0 {
          NothingToLose(c, f, run, k);
        } else {
          NothingLostWithoutFaults(c, f, n, run, k);
        }
      }
    }
  }

  /** The workers below `j` are as `p` says, the others as `q` says. */
  ghost predicate Split(s: State, j: nat, p: WorkerPc -> bool, q: WorkerPc -> bool) {
    && (forall w | 0 <= w < j && w < |s.workers| :: p(s.workers[w]))
    && (forall w | j <= w < |s.workers| :: q(s.workers[w]))
  }

  predicate FreshHandling(pc: WorkerPc) {
    pc.Handling? && pc.task.retryCount == 0
  }

  predicate IsFree(pc: WorkerPc) {
    pc.Free?
  }

  predicate IsExited(pc: WorkerPc) {
    pc.Exited?
  }

  /** How many tasks are where, with an empty hand of a reader that is still reading, and none retried. */
  ghost predicate Stock(c: Config, s: State, topic: int, channel: int, lost: int, cancelled: bool) {
    && |s.topic| == topic && |s.channel| == channel && |s.lost| == lost && s.cancelled == cancelled
    && s.reader == [] && !s.readerDone && |s.workers| == c.workers
    && (forall i | 0 <= i < |s.topic| :: s.topic[i].retryCount == 0)
    && (forall i | 0 <= i < |s.channel| :: s.channel[i].retryCount == 0)
  }

  const MAY_CANCEL: Faults := Faults(false, true)

  lemma FillChannel(c: Config, n: nat, run: seq<State>, j: nat, topic: int, channel: int, lost: int, cancelled: bool,
                    p: WorkerPc -> bool, q: WorkerPc -> bool, more: nat) returns (longer: seq<State>)
    requires IsRun(c, MAY_CANCEL, n, run) && topic >= more && channel + more <= 2 * c.workers
    requires var s := run[|run| - 1]; Stock(c, s, topic, channel, lost, cancelled) && Split(s, j, p, q)
    ensures IsRun(c, MAY_CANCEL, n, longer)
    ensures var s := longer[|longer| - 1];
      Stock(c, s, topic - more, channel + more, lost, cancelled) && Split(s, j, p, q)
  {
    longer := run;
    for k := 0 to more
      invariant IsRun(c, MAY_CANCEL, n, longer)
      invariant var s := longer[|longer| - 1];
        Stock(c, s, topic - k, channel + k, lost, cancelled) && Split(s, j, p, q)
    {
      longer := Extended(c, MAY_CANCEL, n, longer, FetchMessage(0));
      longer := Extended(c, MAY_CANCEL, n, longer, SendToChannel);
    }
  }

  /** Every worker is handling a task. */
  lemma AllHandling(c: Config, n: nat) returns (run: seq<State>)
    requires ValidConfig(c) && n >= c.workers
    ensures IsRun(c, MAY_CANCEL, n, run)
    ensures var s := run[|run| - 1];
      Stock(c, s, n - c.workers, 0, 0, false) && Split(s, c.workers, FreshHandling, IsFree)
  {
    run := [Published(c, n)];
    for j := 0 to c.workers
      invariant IsRun(c, MAY_CANCEL, n, run)
      invariant var s := run[|run| - 1]; Stock(c, s, n - j, 0, 0, false) && Split(s, j, FreshHandling, IsFree)
    {
      run := FillChannel(c, n, run, j, n - j, 0, 0, false, FreshHandling, IsFree, 1);
      run := Extended(c, MAY_CANCEL, n, run, Receive(j));
      run := Extended(c, MAY_CANCEL, n, run, CheckContext(j));
    }
  }

  /** After the cancellation every handler fails and every backoff is cut short. */
  lemma AllGiveUp(c: Config, n: nat, run: seq<State>, topic: int, channel: int) returns (longer: seq<State>)
    requires ValidConfig(c) && IsRun(c, MAY_CANCEL, n, run)
    requires var s := run[|run| - 1];
      Stock(c, s, topic, channel, 0, true) && Split(s, c.workers, FreshHandling, IsFree)
    ensures IsRun(c, MAY_CANCEL, n, longer)
    ensures var s := longer[|longer| - 1];
      Stock(c, s, topic, channel, c.workers, true) && Split(s, c.workers, IsFree, FreshHandling)
  {
    longer := run;
    for j := 0 to c.workers
      invariant IsRun(c, MAY_CANCEL, n, longer)
      invariant var s := longer[|longer| - 1];
        Stock(c, s, topic, channel, j, true) && Split(s, j, IsFree, FreshHandling)
    {
      longer := Extended(c, MAY_CANCEL, n, longer, Fail(j));
      longer := Extended(c, MAY_CANCEL, n, longer, LoseRetry(j));
    }
  }

  /** Then every worker receives one more task, sees the cancellation and returns. */
  lemma AllReturn(c: Config, n: nat, run: seq<State>, topic: int, channel: int) returns (longer: seq<State>)
    requires IsRun(c, MAY_CANCEL, n, run) && channel >= c.workers
    requires var s := run[|run| - 1];
      Stock(c, s, topic, channel, c.workers, true) && Split(s, c.workers, IsFree, FreshHandling)
    ensures IsRun(c, MAY_CANCEL, n, longer)
    ensures var s := longer[|longer| - 1];
      Stock(c, s, topic, channel - c.workers, 2 * c.workers, true) && Split(s, c.workers, IsExited, IsFree)
  {
    longer := run;
    for j := 0 to c.workers
      invariant IsRun(c, MAY_CANCEL, n, longer)
      invariant var s := longer[|longer| - 1];
        Stock(c, s, topic, channel - j, c.workers + j, true) && Split(s, j, IsExited, IsFree)
    {
      longer := Extended(c, MAY_CANCEL, n, longer, Receive(j));
      longer := Extended(c, MAY_CANCEL, n, longer, CheckContext(j));
    }
  }

  /** Both bounds are reached, in one run, as soon as there are four tasks per worker: a single cancellation, with a
      working broker, loses two tasks per worker and leaves two per worker in the channel. */
  lemma BoundsReached(c: Config, n: nat) returns (run: seq<State>)
    requires ValidConfig(c) && n >= 4 * c.workers
    ensures IsRun(c, MAY_CANCEL, n, run)
    ensures var s := run[|run| - 1];
      && |s.lost| == 2 * c.workers && |s.channel| == 2 * c.workers
      && forall w | 0 <= w < |s.workers| :: s.workers[w] == Exited
  {
    var m := c.workers;
    run := AllHandling(c, n);
    run := FillChannel(c, n, run, m, n - m, 0, 0, false, FreshHandling, IsFree, 2 * m);
    run := Extended(c, MAY_CANCEL, n, run, Cancel);
    run := AllGiveUp(c, n, run, n - 3 * m, 2 * m);
    run := AllReturn(c, n, run, n - 3 * m, 2 * m);
    run := FillChannel(c, n, run, m, n - 3 * m, m, 2 * m, true, IsExited, IsFree, m);
  }

  // Termination.

  /** The number of handler calls a task may still need. */
  function TaskCallsLeft(c: Config, t: Task): nat {
    if t.retryCount <= c.maxRetries then c.maxRetries + 1 - t.retryCount else 0
  }

  function CallsLeft(c: Config): Task -> nat {
    (t: Task) => TaskCallsLeft(c, t)
  }

  function WorkerCallsLeft(c: Config): WorkerPc -> nat {
    (pc: WorkerPc) => if HasTask(pc) then TaskCallsLeft(c, pc.task) else 0
  }

  /** The sum of `maxRetries + 1 - retryCount` over the live tasks. */
  function Budget(c: Config, s: State): nat {
    Sum(s.topic, CallsLeft(c)) + Sum(s.reader, CallsLeft(c)) + Sum(s.channel, CallsLeft(c))
    + Sum(s.workers, WorkerCallsLeft(c))
  }

  /** How far a worker is from having handled its task and returned. */
  function WorkerDistance(pc: WorkerPc): nat {
    match pc case Exited => 0 case Free => 1 case Handling(_) => 1 case Received(_) => 2 case BackingOff(_) => 6
  }

  function One(b: bool): nat {
    if b then 1 else 0
  }

  /** How far the live tasks are from their next handler call, and the reader and the workers from returning. */
  function Distance(s: State): nat {
    4 * |s.topic| + 3 * |s.reader| + 2 * |s.channel| + Sum(s.workers, WorkerDistance)
    + One(!s.readerDone) + One(!s.cancelled)
  }

  lemma {:induction false} SumRemove(s: seq<Task>, i: nat, g: Task -> nat)
    requires i < |s|
    ensures Sum(s, g) == Sum(Remove(s, i), g) + g(s[i])
  {
    if i == 0 {
      assert Remove(s, 0) == s[1..];
    } else {
      SumRemove(s[1..], i - 1, g);
      assert Remove(s, i)[1..] == Remove(s[1..], i - 1);
    }
  }

  predicate CompletesHandler(e: Event) {
    e.Succeed? || e.Fail? || e.LoseDeadLetter?
  }

  lemma ReaderBudget(c: Config, f: Faults, s: State, e: Event)
    requires Enabled(c, f, s, e) && ReaderSide(e)
    ensures Budget(c, Apply(c, f, s, e)) <= Budget(c, s)
  {
    var g := CallsLeft(c);
    match e
    case FetchMessage(k) =>
      SumRemove(s.topic, k, g);
      assert Sum([s.topic[k]], g) == g(s.topic[k]);
    case SendToChannel =>
      SumJoin(s.channel, [s.reader[0]], g);
      assert Sum([s.reader[0]], g) == g(s.reader[0]);
    case ReaderReturns =>
    case Cancel =>
  }

  lemma RepublishBudget(c: Config, f: Faults, s: State, w: nat)
    requires Enabled(c, f, s, Republish(w))
    ensures Budget(c, Apply(c, f, s, Republish(w))) == Budget(c, s)
  {
    var g, t := CallsLeft(c), s.workers[w].task;
    SumUpdate(s.workers, w, Free, WorkerCallsLeft(c));
    SumJoin(s.topic, [t], g);
    assert Sum([t], g) == g(t);
  }

  /** The budget falls by at least one at every handler completion and never rises. */
  lemma BudgetFalls(c: Config, f: Faults, s: State, e: Event)
    requires Enabled(c, f, s, e) && TaskInv(c, s)
    ensures Budget(c, Apply(c, f, s, e)) <= Budget(c, s)
    ensures CompletesHandler(e) ==> Budget(c, Apply(c, f, s, e)) < Budget(c, s)
  {
    if ReaderSide(e) {
      ReaderBudget(c, f, s, e);
    } else if e.Republish? {
      RepublishBudget(c, f, s, e.w);
    } else {
      SumUpdate(s.workers, e.w, Apply(c, f, s, e).workers[e.w], WorkerCallsLeft(c));
    }
  }

  /** Every step moves the system towards its end. */
  function Work(c: Config, s: State): nat {
    6 * Budget(c, s) + Distance(s)
  }

  /** Only a handler completion brings a task, or its worker, further from its next call, and by less than six. */
  lemma DistanceFalls(c: Config, f: Faults, s: State, e: Event)
    requires Enabled(c, f, s, e)
    ensures Distance(Apply(c, f, s, e)) <= Distance(s) + (if CompletesHandler(e) then 5 else -1)
  {
    if !ReaderSide(e) {
      SumUpdate(s.workers, e.w, Apply(c, f, s, e).workers[e.w], WorkerDistance);
    }
  }

  lemma WorkFalls(c: Config, f: Faults, s: State, e: Event)
    requires Enabled(c, f, s, e) && TaskInv(c, s)
    ensures Work(c, Apply(c, f, s, e)) < Work(c, s)
  {
    BudgetFalls(c, f, s, e);
    DistanceFalls(c, f, s, e);
  }

  lemma {:induction false} FreshSum(c: Config, ts: seq<Task>)
    requires forall i | 0 <= i < |ts| :: ts[i].retryCount == 0
    ensures Sum(ts, CallsLeft(c)) == |ts| * (c.maxRetries + 1)
  {
    if ts != [] {
      FreshSum(c, ts[1..]);
      assert |ts| * (c.maxRetries + 1) == (|ts| - 1) * (c.maxRetries + 1) + (c.maxRetries + 1);
    }
  }

  lemma {:induction false} FreeSum(c: Config, ws: seq<WorkerPc>)
    requires forall i | 0 <= i < |ws| :: ws[i] == Free
    ensures Sum(ws, WorkerCallsLeft(c)) == 0 && Sum(ws, WorkerDistance) == |ws|
  {
    if ws != [] {
      FreeSum(c, ws[1..]);
    }
  }

  lemma {:induction false} WorkBound(c: Config, f: Faults, n: nat, run: seq<State>, k: nat)
    requires IsRun(c, f, n, run) && k < |run|
    ensures Work(c, run[k]) + k <= Work(c, run[0])
  {
    if k > 0 {
      WorkBound(c, f, n, run, k - 1);
      RunTaskInv(c, f, n, run, k - 1);
      var e := NextEvent(c, f, n, run, k);
      WorkFalls(c, f, run[k - 1], e);
    }
  }

  /** Every run is finite, with at most `6 * (maxRetries + 1) + 4` steps per published task, one per worker, one for the
      reader and one for the cancellation. */
  lemma RunsAreFinite(c: Config, f: Faults, n: nat, run: seq<State>)
    requires IsRun(c, f, n, run)
    ensures |run| - 1 <= 6 * (n * (c.maxRetries + 1)) + 4 * n + c.workers + 2
  {
    WorkBound(c, f, n, run, |run| - 1);
    FreshSum(c, run[0].topic);
    FreeSum(c, run[0].workers);
  }

  /** Nothing can happen any more, except a cancellation that may never come. */
  ghost predicate Quiet(c: Config, f: Faults, s: State) {
    forall e :: Enabled(c, f, s, e) ==> e == Cancel
  }

  /** Without a cancellation the system comes to rest with nothing under way. */
  lemma QuietIsEmpty(c: Config, f: Faults, s: State)
    requires ValidConfig(c) && ControlInv(c, f, s) && !s.cancelled && Quiet(c, f, s)
    ensures s.topic == [] && s.reader == [] && s.channel == []
    ensures forall w | 0 <= w < |s.workers| :: s.workers[w] == Free
  {
    forall w: nat | w < |s.workers| ensures s.workers[w] == Free {
      assert !Enabled(c, f, s, CheckContext(w)) && !Enabled(c, f, s, Succeed(w)) && !Enabled(c, f, s, Republish(w));
    }
    assert !Enabled(c, f, s, Receive(0));
    assert !Enabled(c, f, s, SendToChannel);
    assert !Enabled(c, f, s, FetchMessage(0));
  }

  /** After a cancellation it comes to rest with the reader and every worker returned. */
  lemma QuietIsOver(c: Config, f: Faults, s: State)
    requires ControlInv(c, f, s) && s.cancelled && Quiet(c, f, s)
    ensures s.readerDone && forall w | 0 <= w < |s.workers| :: s.workers[w] == Exited
  {
    assert !Enabled(c, f, s, ReaderReturns);
    forall w: nat | w < |s.workers| ensures s.workers[w] == Exited {
      assert !Enabled(c, f, s, CheckContext(w)) && !Enabled(c, f, s, Succeed(w)) && !Enabled(c, f, s, Republish(w));
      assert !Enabled(c, f, s, Receive(w)) && !Enabled(c, f, s, WorkerReturns(w));
    }
  }

  /** Where every published task is when nothing but a cancellation can happen any more (with `RunsAreFinite`, every
      maximal run gets there). Not cancelled: it ended in exactly one of succeeded, dead-lettered or lost to a failed
      write, and with a working broker in one of the first two. Cancelled: the reader and all workers have returned,
      and it is in exactly one of succeeded, dead-lettered, lost, left in the closed channel, or, not committed, in the
      topic or in the reader's hand. */
  lemma EveryTaskEnds(c: Config, f: Faults, n: nat, run: seq<State>, k: nat, id: nat)
    requires ValidConfig(c) && IsRun(c, f, n, run) && k < |run| && Quiet(c, f, run[k]) && id < n
    ensures var s := run[k];
      var ended := Count(s.succeeded, HasId(id)) + Count(s.deadLetters, HasId(id));
      var left := Count(s.channel, HasId(id)) + Count(s.topic, HasId(id)) + Count(s.reader, HasId(id));
      if s.cancelled then
        && ended + Count(s.lost, HasId(id)) + left == 1
        && s.readerDone && forall w | 0 <= w < |s.workers| :: s.workers[w] == Exited
      else ended + Count(s.lost, HasId(id)) == 1 && (!f.writes ==> ended == 1)
  {
    RunTaskInv(c, f, n, run, k);
    ExactlyOnePlace(c, f, n, run, k, id);
    if run[k].cancelled {
      QuietIsOver(c, f, run[k]);
    } else {
      QuietIsEmpty(c, f, run[k]);
    }
    CountNone(run[k].workers, WorkerHasId(id));
  }
}
