/** The operator's reconciler of `pkg/operator/reconciler.go`: it drives each crawl job from its phase and its actual
    number of workers towards its specification, one action list at a time. */
module Reconciler {
  import opened Collections
  import opened Tally

  /** The phase is a string in the code; `Unknown` stands for any string that is not one of the five. */
  datatype Phase = Pending | Running | Paused | Completed | Failed | Unknown(name: string)

  datatype Spec = Spec(workers: int, suspend: bool)

  /** A status condition with its reason; the message of the first kind names the number of workers. */
  datatype Condition = JobStarted(at: int, workers: int) | JobFailed(at: int, reason: string)

  /** The status of a job: `active` is its reported number of workers. */
  datatype Status = Status(
    phase: Phase,
    active: int,
    startTime: Option<int>,
    completionTime: Option<int>,
    conditions: seq<Condition>
  )

  /** What the reconciler keeps per job. */
  datatype JobState = JobState(spec: Spec, status: Status, desired: int, actual: int, lastReconcile: Option<int>)

  /** The two readings of the clock in one call: on entry, and when a pending job is started. */
  datatype Clock = Clock(entered: int, started: int)

  datatype Action =
    | CreateWorkers(n: int)
    | PublishSeedUrls
    | ScaleUp(from: int, to: int)
    | ScaleDown(from: int, to: int)
    | ScaleDownToZero
    | Resume

  datatype Reply = Reply(requeue: bool, requeueAfter: int, actions: seq<Action>)

  const DEFAULT_WORKERS := 3

  function Wanted(spec: Spec): int {
    if spec.workers <= 0 then DEFAULT_WORKERS else spec.workers
  }

  /** A job that has not been seen before. */
  function NewJob(spec: Spec): JobState {
    JobState(spec, Status(Pending, 0, None, None, []), 0, 0, None)
  }

  function Started(s: JobState, now: int): JobState {
    var status := s.status.(phase := Running, startTime := Some(now),
                            conditions := s.status.conditions + [JobStarted(now, Wanted(s.spec))]);
    s.(status := status, desired := Wanted(s.spec))
  }

  function Reconciled(before: JobState, spec: Spec, current: int, clock: Clock): (JobState, Reply) {
    var s := before.(spec := spec, actual := current, lastReconcile := Some(clock.entered));
    if spec.suspend then
      if s.status.phase == Running then
        (s.(status := s.status.(phase := Paused), desired := 0), Reply(false, 0, [ScaleDownToZero]))
      else (s, Reply(false, 0, []))
    else
      match s.status.phase
      case Pending => (Started(s, clock.started), Reply(true, 10, [CreateWorkers(Wanted(spec)), PublishSeedUrls]))
      case Running =>
        var actions := if current < Wanted(spec) then [ScaleUp(current, Wanted(spec))]
                       else if current > Wanted(spec) then [ScaleDown(current, Wanted(spec))]
                       else [];
        (s.(status := s.status.(active := Wanted(spec)), desired := Wanted(spec)), Reply(true, 30, actions))
      case Paused => (s.(status := s.status.(phase := Running)), Reply(true, 0, [Resume]))
      case Completed => (s, Reply(false, 0, []))
      case Failed => (s, Reply(false, 0, []))
      case Unknown(_) => (s, Reply(false, 0, []))
  }

  /** The default branch of the phase switch. */
  predicate UnknownPhaseError(s: JobState, spec: Spec) {
    !spec.suspend && s.status.phase.Unknown?
  }

  type JobId = string

  type Table = map<JobId, JobState>

  /** The state of a job, or what a first reconcile with `spec` makes of it. */
  function StateOf(jobs: Table, id: JobId, spec: Spec): JobState {
    if id in jobs then jobs[id] else NewJob(spec)
  }

  function PhaseOf(jobs: Table, id: JobId): Phase {
    if id in jobs then jobs[id].status.phase else Pending
  }

  class Controller {
    var jobs: Table

    constructor ()
      ensures jobs == map[]
    {
      jobs := map[];
    }

    /** `Reconcile`, with its three phase handlers in place. */
    method Reconcile(id: JobId, spec: Spec, current: int, clock: Clock) returns (r: Reply, unknownPhase: bool)
      modifies this
      ensures jobs == old(jobs)[id := Reconciled(StateOf(old(jobs), id, spec), spec, current, clock).0]
      ensures r == Reconciled(StateOf(old(jobs), id, spec), spec, current, clock).1
      ensures unknownPhase == UnknownPhaseError(StateOf(old(jobs), id, spec), spec)
    {
      var state := if id in jobs then jobs[id] else NewJob(spec);
      state := state.(spec := spec);
      state := state.(actual := current);
      state := state.(lastReconcile := Some(clock.entered));
      r := Reply(false, 0, []);
      unknownPhase := false;
      var status := state.status;
      if spec.suspend {
        if status.phase == Running {
          state := state.(status := status.(phase := Paused), desired := 0);
          r := r.(actions := r.actions + [ScaleDownToZero]);
        }
        jobs := jobs[id := state];
        return;
      }
      if status.phase == Pending {
        var workers := spec.workers;
        if workers <= 0 {
          workers := 3;
        }
        status := status.(phase := Running, startTime := Some(clock.started));
        status := status.(conditions := status.conditions + [JobStarted(clock.started, workers)]);
        state := state.(desired := workers, status := status);
        r := Reply(true, 10, r.actions + [CreateWorkers(workers), PublishSeedUrls]);
      } else if status.phase == Running {
        var desired := spec.workers;
        if desired <= 0 {
          desired := 3;
        }
        state := state.(desired := desired);
        if state.actual < desired {
          r := r.(actions := r.actions + [ScaleUp(state.actual, desired)]);
        } else if state.actual > desired {
          r := r.(actions := r.actions + [ScaleDown(state.actual, desired)]);
        }
        state := state.(status := status.(active := desired));
        r := r.(requeue := true, requeueAfter := 30);
      } else if status.phase == Paused {
        state := state.(status := status.(phase := Running));
        r := r.(actions := r.actions + [Resume], requeue := true);
      } else if status.phase != Completed && status.phase != Failed {
        unknownPhase := true;
      }
      jobs := jobs[id := state];
    }

    /** `MarkCompleted`, or `MarkFailed` with a reason: unknown jobs are ignored. */
    method Mark(id: JobId, failure: Option<string>, now: int)
      modifies this
      ensures jobs == if id in old(jobs) then old(jobs)[id := Marked(old(jobs)[id], failure, now)] else old(jobs)
    {
      if id in jobs {
        var state := jobs[id];
        var status := state.status.(phase := if failure.Some? then Failed else Completed);
        status := status.(completionTime := Some(now));
        state := state.(desired := 0);
        if failure.Some? {
          status := status.(conditions := status.conditions + [JobFailed(now, failure.value)]);
        }
        jobs := jobs[id := state.(status := status)];
      }
    }
  }

  function Marked(s: JobState, failure: Option<string>, now: int): JobState {
    var status := match failure
      case None => s.status.(phase := Completed, completionTime := Some(now))
      case Some(reason) =>
        s.status.(phase := Failed, completionTime := Some(now),
                  conditions := s.status.conditions + [JobFailed(now, reason)]);
    s.(status := status, desired := 0)
  }

  // Whole runs.

  datatype Op =
    | Reconcile(id: JobId, spec: Spec, current: int, clock: Clock)
    | Mark(id: JobId, failure: Option<string>, now: int)

  /** The table, and every action emitted so far together with its job. */
  datatype World = World(jobs: Table, emitted: seq<(JobId, Action)>)

  function Tagged(id: JobId, actions: seq<Action>): seq<(JobId, Action)> {
    seq(|actions|, i requires 0 <= i < |actions| => (id, actions[i]))
  }

  function Do(w: World, op: Op): World {
    match op
    case Reconcile(id, spec, current, clock) =>
      var (s, r) := Reconciled(StateOf(w.jobs, id, spec), spec, current, clock);
      World(w.jobs[id := s], w.emitted + Tagged(id, r.actions))
    case Mark(id, failure, now) =>
      if id in w.jobs then w.(jobs := w.jobs[id := Marked(w.jobs[id], failure, now)]) else w
  }

  function After(ops: seq<Op>): World {
    if ops == [] then World(map[], []) else Do(After(ops[..|ops| - 1]), ops[|ops| - 1])
  }

  function SeedsOf(id: JobId): ((JobId, Action)) -> bool {
    (a: (JobId, Action)) => a == (id, PublishSeedUrls)
  }

  function SeedsEmitted(id: JobId, emitted: seq<(JobId, Action)>): nat {
    Count(emitted, SeedsOf(id))
  }

  function StartsIn(conditions: seq<Condition>): nat {
    Count(conditions, (c: Condition) => c.JobStarted?)
  }

  ghost predicate SeedsInv(w: World, id: JobId) {
    && SeedsEmitted(id, w.emitted) <= 1
    && (PhaseOf(w.jobs, id) == Pending ==> SeedsEmitted(id, w.emitted) == 0)
    && !PhaseOf(w.jobs, id).Unknown?
  }

  /** A reconcile publishes the seeds of its own job, once, exactly when the job leaves Pending. */
  lemma ReconcileSeeds(s: JobState, spec: Spec, current: int, clock: Clock, tag: JobId, id: JobId)
    ensures var (s', r) := Reconciled(s, spec, current, clock);
      SeedsEmitted(id, Tagged(tag, r.actions)) ==
        if tag == id && s.status.phase == Pending && s'.status.phase != Pending then 1 else 0
  {
    var actions := Reconciled(s, spec, current, clock).1.actions;
    var tagged := Tagged(tag, actions);
    if |actions| == 0 {
      assert tagged == [];
    } else {
      var first := [(tag, actions[0])];
      assert Count(first, SeedsOf(id)) == if first[0] == (id, PublishSeedUrls) then 1 else 0;
      if |actions| == 1 {
        assert tagged == first;
      } else {
        var second := [(tag, actions[1])];
        assert tagged == first + second;
        CountJoin(first, second, SeedsOf(id));
        assert Count(second, SeedsOf(id)) == if second[0] == (id, PublishSeedUrls) then 1 else 0;
      }
    }
  }

  lemma StepSeeds(w: World, op: Op, id: JobId)
    requires SeedsInv(w, id)
    ensures SeedsInv(Do(w, op), id)
  {
    if op.Reconcile? {
      var s := StateOf(w.jobs, op.id, op.spec);
      ReconcileSeeds(s, op.spec, op.current, op.clock, op.id, id);
      CountJoin(w.emitted, Tagged(op.id, Reconciled(s, op.spec, op.current, op.clock).1.actions), SeedsOf(id));
    }
  }

  lemma {:induction false} RunSeedsInv(ops: seq<Op>, id: JobId)
    ensures SeedsInv(After(ops), id)
  {
    if ops != [] {
      RunSeedsInv(ops[..|ops| - 1], id);
      StepSeeds(After(ops[..|ops| - 1]), ops[|ops| - 1], id);
    }
  }

  /** Over any run, the seed URLs of a job are published at most once, and never while it is still pending; and the
      unknown-phase error cannot occur. */
  lemma SeedsPublishedOnce(ops: seq<Op>, id: JobId, spec: Spec)
    ensures SeedsEmitted(id, After(ops).emitted) <= 1
    ensures PhaseOf(After(ops).jobs, id) == Pending ==> SeedsEmitted(id, After(ops).emitted) == 0
    ensures !UnknownPhaseError(StateOf(After(ops).jobs, id, spec), spec)
  {
    RunSeedsInv(ops, id);
  }

  // What the status says about the past.

  /** A known job was started, and says so in its start time and in exactly one condition, exactly if its seeds were
      published; and it has a completion time exactly if it is terminal. */
  ghost predicate StatusInv(w: World, id: JobId) {
    if id !in w.jobs then SeedsEmitted(id, w.emitted) == 0
    else
      var status := w.jobs[id].status;
      && SeedsEmitted(id, w.emitted) == StartsIn(status.conditions) <= 1
      && (status.startTime.Some? <==> StartsIn(status.conditions) == 1)
      && (status.phase == Pending ==> status.startTime.None?)
      && (status.phase == Running || status.phase == Paused ==> status.startTime.Some?)
      && (status.completionTime.Some? <==> Terminal(status.phase))
      && w.jobs[id].lastReconcile.Some?
  }

  lemma ConditionsGrow(conditions: seq<Condition>, c: Condition)
    ensures StartsIn(conditions + [c]) == StartsIn(conditions) + (if c.JobStarted? then 1 else 0)
  {
    CountJoin(conditions, [c], (d: Condition) => d.JobStarted?);
    assert Count([c], (d: Condition) => d.JobStarted?) == if c.JobStarted? then 1 else 0;
  }

  lemma ReconcileStatus(w: World, op: Op, id: JobId)
    requires op.Reconcile? && StatusInv(w, id)
    ensures StatusInv(Do(w, op), id)
  {
    var s := StateOf(w.jobs, op.id, op.spec);
    var (s', r) := Reconciled(s, op.spec, op.current, op.clock);
    ReconcileSeeds(s, op.spec, op.current, op.clock, op.id, id);
    CountJoin(w.emitted, Tagged(op.id, r.actions), SeedsOf(id));
    ConditionsGrow(s.status.conditions, JobStarted(op.clock.started, Wanted(op.spec)));
  }

  lemma MarkStatus(w: World, op: Op, id: JobId)
    requires op.Mark? && StatusInv(w, id)
    ensures StatusInv(Do(w, op), id)
  {
    if id in w.jobs && op.id == id && op.failure.Some? {
      ConditionsGrow(w.jobs[id].status.conditions, JobFailed(op.now, op.failure.value));
    }
  }

  /** Over any run, the status of a job is true to what happened to it. */
  lemma {:induction false} StatusIsHistory(ops: seq<Op>, id: JobId)
    ensures StatusInv(After(ops), id)
  {
    if ops != [] {
      var before, op := After(ops[..|ops| - 1]), ops[|ops| - 1];
      StatusIsHistory(ops[..|ops| - 1], id);
      if op.Reconcile? {
        ReconcileStatus(before, op, id);
      } else {
        MarkStatus(before, op, id);
      }
    }
  }

  predicate Terminal(p: Phase) {
    p == Completed || p == Failed
  }

  /** A job that has completed or failed stays so, and nothing more is emitted for it. */
  lemma {:induction false} TerminalForever(ops: seq<Op>, more: seq<Op>, id: JobId)
    requires Terminal(PhaseOf(After(ops).jobs, id))
    ensures Terminal(PhaseOf(After(ops + more).jobs, id))
    ensures After(ops).emitted <= After(ops + more).emitted
    ensures forall i | |After(ops).emitted| <= i < |After(ops + more).emitted| :: After(ops + more).emitted[i].0 != id
    decreases |more|
  {
    if more == [] {
      assert ops + more == ops;
    } else {
      var front, last := more[..|more| - 1], more[|more| - 1];
      TerminalForever(ops, front, id);
      assert (ops + more)[..|ops + more| - 1] == ops + front && (ops + more)[|ops + more| - 1] == last;
    }
  }

  // Convergence.

  /** What carrying out an action does to the number of workers. */
  function CarriedOut(workers: int, a: Action): int {
    match a
    case CreateWorkers(n) => workers + n
    case ScaleUp(_, to) => to
    case ScaleDown(_, to) => to
    case ScaleDownToZero => 0
    case PublishSeedUrls => workers
    case Resume => workers
  }

  function AllCarriedOut(workers: int, actions: seq<Action>): int
    decreases |actions|
  {
    if actions == [] then workers else AllCarriedOut(CarriedOut(workers, actions[0]), actions[1..])
  }

  /** A job with its current workers, after `n` rounds of reconciling and carrying out the actions. */
  function Rounds(s: JobState, spec: Spec, workers: int, clock: nat -> Clock, n: nat): (JobState, int) {
    if n == 0 then (s, workers)
    else
      var (s1, w1) := Rounds(s, spec, workers, clock, n - 1);
      var (s2, r) := Reconciled(s1, spec, w1, clock(n - 1));
      (s2, AllCarriedOut(w1, r.actions))
  }

  /** A running job with the wanted number of workers: reconciling it again emits nothing. */
  predicate Settled(s: JobState, spec: Spec, workers: int) {
    s.status.phase == Running && workers == Wanted(spec)
  }

  lemma RoundSettles(s: JobState, spec: Spec, workers: int, clock: Clock)
    requires !spec.suspend && !Terminal(s.status.phase) && !s.status.phase.Unknown?
    ensures var (s1, r) := Reconciled(s, spec, workers, clock);
      var w1 := AllCarriedOut(workers, r.actions);
      && s1.status.phase == Running
      && (s.status.phase == Running ==>
            Settled(s1, spec, w1) && s1.desired == s1.status.active == Wanted(spec))
      && (Settled(s, spec, workers) <==> r.actions == [])
  {
    var r := Reconciled(s, spec, workers, clock).1;
    if |r.actions| == 2 {
      assert r.actions[1..][1..] == [];
    }
  }

  /** With a fixed specification that is not suspended, and with its actions carried out, every job that is not
      terminal has the wanted number of workers after two rounds, so the third reconcile and every later one emit
      nothing. */
  lemma {:induction false} Converges(s: JobState, spec: Spec, workers: int, clock: nat -> Clock, n: nat)
    requires !spec.suspend && !Terminal(s.status.phase) && !s.status.phase.Unknown? && n >= 2
    ensures var (s', w') := Rounds(s, spec, workers, clock, n);
      && Settled(s', spec, w') && s'.desired == s'.status.active == w'
      && Reconciled(s', spec, w', clock(n)).1.actions == []
  {
    var (s1, w1) := Rounds(s, spec, workers, clock, n - 1);
    if n == 2 {
      assert Rounds(s, spec, workers, clock, 0) == (s, workers);
      assert (s1, w1) == (Reconciled(s, spec, workers, clock(0)).0,
                          AllCarriedOut(workers, Reconciled(s, spec, workers, clock(0)).1.actions));
      RoundSettles(s, spec, workers, clock(0));
    } else {
      Converges(s, spec, workers, clock, n - 1);
    }
    RoundSettles(s1, spec, w1, clock(n - 1));
    var (s2, w2) := Rounds(s, spec, workers, clock, n);
    RoundSettles(s2, spec, w2, clock(n));
  }

  /** The number that a job settles at is the one in its specification, and 3 if that is not positive. */
  lemma ConvergesToSpec(s: JobState, spec: Spec, workers: int, clock: nat -> Clock, n: nat)
    requires !spec.suspend && !Terminal(s.status.phase) && !s.status.phase.Unknown? && n >= 2
    ensures var (s', w') := Rounds(s, spec, workers, clock, n);
      && s'.status.phase == Running && s'.desired == s'.status.active == w'
      && (spec.workers > 0 ==> w' == spec.workers) && (spec.workers <= 0 ==> w' == 3)
  {
    Converges(s, spec, workers, clock, n);
  }

  /** Suspending a running job pauses it and takes all its workers away, in one round and with one action; a job that
      is not running is left in its phase, and nothing is emitted. Either way nothing more happens while the suspension
      lasts. */
  lemma {:induction false} SuspendSettles(s: JobState, spec: Spec, workers: int, clock: nat -> Clock, n: nat)
    requires spec.suspend && n >= 1
    ensures var (s', w') := Rounds(s, spec, workers, clock, n);
      && (if s.status.phase == Running then s'.status.phase == Paused && s'.desired == 0 && w' == 0
          else s'.status.phase == s.status.phase && s'.desired == s.desired && w' == workers)
      && Reconciled(s', spec, w', clock(n)).1 == Reply(false, 0, [])
    ensures Reconciled(s, spec, workers, clock(0)).1.actions ==
            if s.status.phase == Running then [ScaleDownToZero] else []
  {
    if n == 1 {
      assert Rounds(s, spec, workers, clock, 0) == (s, workers);
    } else {
      SuspendSettles(s, spec, workers, clock, n - 1);
    }
  }

  /** Suspending a running job and lifting the suspension brings it back: after two more rounds it runs with the wanted
      number of workers, and its seeds are not published again. */
  lemma SuspendAndResume(s: JobState, suspended: Spec, spec: Spec, workers: int, clock: nat -> Clock, m: nat, n: nat)
    requires suspended.suspend && !spec.suspend && s.status.phase == Running && m >= 1 && n >= 2
    ensures var (s1, w1) := Rounds(s, suspended, workers, clock, m);
      var (s2, w2) := Rounds(s1, spec, w1, clock, n);
      && s1.status.phase == Paused && w1 == 0 && Settled(s2, spec, w2)
      && Reconciled(s1, spec, w1, clock(0)).1.actions == [Resume]
  {
    SuspendSettles(s, suspended, workers, clock, m);
    var (s1, w1) := Rounds(s, suspended, workers, clock, m);
    Converges(s1, spec, w1, clock, n);
  }

  /** Every call is recorded with its time, its specification and the number of workers it found. */
  lemma CallIsRecorded(s: JobState, spec: Spec, current: int, clock: Clock)
    ensures var s' := Reconciled(s, spec, current, clock).0;
      s'.lastReconcile == Some(clock.entered) && s'.spec == spec && s'.actual == current
  {
  }

  /** A scaling action names the numbers it is about: from what there is to what the specification says. */
  lemma ScalingNames(s: JobState, spec: Spec, current: int, clock: Clock, a: Action)
    requires a in Reconciled(s, spec, current, clock).1.actions
    ensures a.ScaleUp? ==> a.from == current < a.to && (a.to == spec.workers || (spec.workers <= 0 && a.to == 3))
    ensures a.ScaleDown? ==> a.from == current > a.to && (a.to == spec.workers || (spec.workers <= 0 && a.to == 3))
    ensures a.CreateWorkers? ==> s.status.phase == Pending && (a.n == spec.workers || (spec.workers <= 0 && a.n == 3))
    ensures a == ScaleDownToZero <==> spec.suspend
  {
  }

  /** The reconciler asks to be called again exactly for jobs that are neither suspended nor terminal: after 10 seconds
      when it has started one, after 30 when it has looked at a running one, and at once when it has resumed one. */
  lemma RequeuesIff(ops: seq<Op>, id: JobId, spec: Spec, current: int, clock: Clock)
    ensures Reconciled(StateOf(After(ops).jobs, id, spec), spec, current, clock).1.requeue <==>
            !spec.suspend && !Terminal(PhaseOf(After(ops).jobs, id))
    ensures var r := Reconciled(StateOf(After(ops).jobs, id, spec), spec, current, clock).1;
      r.requeue ==> match PhaseOf(After(ops).jobs, id)
        case Pending => r.requeueAfter == 10
        case Running => r.requeueAfter == 30
        case _ => r.requeueAfter == 0
  {
    RunSeedsInv(ops, id);
  }
}
