/** The job manager of `pkg/distributed/job.go`: a table of crawl jobs, a transition table, and messages published to
    Kafka before a job changes state. A publish succeeds or fails as a whole, and jobs handed to `CreateJob` are
    fresh (neither started nor completed). */
module Jobs {
  import opened Collections

  datatype JobState = Created | Running | Paused | Completed | Failed | Cancelled

  datatype Job = Job(state: JobState, startedAt: Option<int>, completedAt: Option<int>)

  datatype ControlKind = Pause | Resume | Stop

  type JobId = string

  /** What goes out on the wire: the seed URLs of a job, or a control message. */
  datatype Message = Seeds(id: JobId) | Control(id: JobId, kind: ControlKind)

  datatype Manager = Manager(jobs: map<JobId, Job>, log: seq<Message>)

  /** `ok` is whether the publish of this call would succeed; `now` is the clock. */
  datatype Op =
    | CreateJob(id: JobId)
    | StartJob(id: JobId, ok: bool, now: int)
    | ControlJob(id: JobId, kind: ControlKind, ok: bool, now: int)

  datatype Error = NoError | AlreadyExists | NotFound | BadTransition | PublishFailed

  function ValidTransitions(s: JobState): seq<JobState> {
    match s
    case Created => [Running, Cancelled]
    case Running => [Paused, Completed, Failed, Cancelled]
    case Paused => [Running, Cancelled]
    case Completed => []
    case Failed => [Running]
    case Cancelled => []
  }

  /** The table as a relation: work can start or go on from Created, Paused and Failed; it can pause, complete or fail
      only while running; and whatever has not ended for good can be cancelled, except a failed job. */
  lemma CanTransitionIff(s: JobState, target: JobState)
    ensures CanTransition(s, target) <==>
      match target
      case Created => false
      case Running => s == Created || s == Paused || s == Failed
      case Paused => s == Running
      case Completed => s == Running
      case Failed => s == Running
      case Cancelled => s == Created || s == Running || s == Paused
  {
  }

  predicate CanTransition(s: JobState, target: JobState) {
    target in ValidTransitions(s)
  }

  function ControlTarget(kind: ControlKind): JobState {
    match kind case Pause => Paused case Resume => Running case Stop => Cancelled
  }

  function Target(m: Message): JobState {
    match m case Seeds(_) => Running case Control(_, kind) => ControlTarget(kind)
  }

  function Outcome(m: Manager, op: Op): Error {
    if op.CreateJob? then if op.id in m.jobs then AlreadyExists else NoError
    else if op.id !in m.jobs then NotFound
    else if !CanTransition(m.jobs[op.id].state, if op.StartJob? then Running else ControlTarget(op.kind))
        then BadTransition
    else if !op.ok then PublishFailed
    else NoError
  }

  function Do(m: Manager, op: Op): Manager {
    if Outcome(m, op) != NoError then m
    else
      match op
      case CreateJob(id) => m.(jobs := m.jobs[id := Job(Created, None, None)])
      case StartJob(id, _, now) =>
        Manager(m.jobs[id := m.jobs[id].(state := Running, startedAt := Some(now))], m.log + [Seeds(id)])
      case ControlJob(id, kind, _, now) =>
        var target := ControlTarget(kind);
        var job := m.jobs[id].(state := target);
        var ended := target == Cancelled || target == Completed || target == Failed;
        Manager(m.jobs[id := if ended then job.(completedAt := Some(now)) else job], m.log + [Control(id, kind)])
  }

  class JobManager {
    var jobs: map<JobId, Job>
    var published: seq<Message>

    ghost function Value(): Manager
      reads this
    {
      Manager(jobs, published)
    }

    constructor ()
      ensures Value() == Manager(map[], [])
    {
      jobs, published := map[], [];
    }

    method Create(id: JobId) returns (e: Error)
      modifies this
      ensures e == Outcome(old(Value()), CreateJob(id)) && Value() == Do(old(Value()), CreateJob(id))
    {
      if id in jobs {
        return AlreadyExists;
      }
      jobs := jobs[id := Job(Created, None, None)];
      return NoError;
    }

    /** `StartJob`: the seeds go out before the state changes. */
    method Start(id: JobId, ok: bool, now: int) returns (e: Error)
      modifies this
      ensures e == Outcome(old(Value()), StartJob(id, ok, now)) && Value() == Do(old(Value()), StartJob(id, ok, now))
    {
      if id !in jobs {
        return NotFound;
      }
      var job := jobs[id];
      if !CanTransition(job.state, Running) {
        return BadTransition;
      }
      if !ok {
        return PublishFailed;
      }
      published := published + [Seeds(id)];
      jobs := jobs[id := job.(state := Running, startedAt := Some(now))];
      return NoError;
    }

    /** `controlTransition`, behind `PauseJob`, `ResumeJob` and `StopJob`. */
    method ControlTransition(id: JobId, kind: ControlKind, ok: bool, now: int) returns (e: Error)
      modifies this
      ensures e == Outcome(old(Value()), ControlJob(id, kind, ok, now))
      ensures Value() == Do(old(Value()), ControlJob(id, kind, ok, now))
    {
      if id !in jobs {
        return NotFound;
      }
      var job, target := jobs[id], ControlTarget(kind);
      if !CanTransition(job.state, target) {
        return BadTransition;
      }
      if !ok {
        return PublishFailed;
      }
      published := published + [Control(id, kind)];
      job := job.(state := target);
      if target == Cancelled || target == Completed || target == Failed {
        job := job.(completedAt := Some(now));
      }
      jobs := jobs[id := job];
      return NoError;
    }
  }

  // Whole runs.

  function After(ops: seq<Op>): Manager {
    if ops == [] then Manager(map[], []) else Do(After(ops[..|ops| - 1]), ops[|ops| - 1])
  }

  /** The state that the messages published for `id` lead to, ignoring everything else. */
  function Replay(log: seq<Message>, id: JobId): JobState {
    if log == [] then Created
    else
      var last := log[|log| - 1];
      if last.id == id then Target(last) else Replay(log[..|log| - 1], id)
  }

  predicate Mentions(log: seq<Message>, id: JobId) {
    exists i | 0 <= i < |log| :: log[i].id == id
  }

  /** Every message for `id` was a transition that the table allows from the state it found. */
  ghost predicate LegalLog(log: seq<Message>, id: JobId) {
    forall i | 0 <= i < |log| && log[i].id == id :: CanTransition(Replay(log[..i], id), Target(log[i]))
  }

  ghost predicate JobInv(m: Manager, id: JobId) {
    && LegalLog(m.log, id)
    && (id !in m.jobs ==> !Mentions(m.log, id))
    && (id in m.jobs ==>
          && m.jobs[id].state == Replay(m.log, id)
          && m.jobs[id].state != Completed && m.jobs[id].state != Failed
          && (m.jobs[id].completedAt.Some? <==> m.jobs[id].state == Cancelled)
          && (m.jobs[id].startedAt.Some? <==> Seeds(id) in m.log))
  }

  lemma {:induction false} ReplayUnmentioned(log: seq<Message>, id: JobId)
    requires !Mentions(log, id)
    ensures Replay(log, id) == Created
  {
    if log != [] {
      ReplayUnmentioned(log[..|log| - 1], id);
    }
  }

  /** One more message on the log. */
  lemma LegalSnoc(log: seq<Message>, msg: Message, id: JobId)
    requires LegalLog(log, id) && (msg.id == id ==> CanTransition(Replay(log, id), Target(msg)))
    ensures LegalLog(log + [msg], id)
    ensures Replay(log + [msg], id) == if msg.id == id then Target(msg) else Replay(log, id)
    ensures Mentions(log + [msg], id) <==> Mentions(log, id) || msg.id == id
  {
    var longer := log + [msg];
    assert longer[..|log|] == log && longer[|log|] == msg;
    forall i | 0 <= i < |longer| && longer[i].id == id
      ensures CanTransition(Replay(longer[..i], id), Target(longer[i]))
    {
      if i < |log| {
        assert longer[..i] == log[..i] && longer[i] == log[i];
      }
    }
    if Mentions(log, id) {
      var i :| 0 <= i < |log| && log[i].id == id;
      assert longer[i].id == id;
    }
  }

  lemma CreateInv(m: Manager, op: Op, id: JobId)
    requires JobInv(m, id) && op.CreateJob? && Outcome(m, op) == NoError
    ensures JobInv(Do(m, op), id)
  {
    if op.id == id {
      ReplayUnmentioned(m.log, id);
      assert Seeds(id) in m.log ==> Mentions(m.log, id);
    }
  }

  lemma PublishInv(m: Manager, op: Op, id: JobId)
    requires JobInv(m, id) && !op.CreateJob? && Outcome(m, op) == NoError
    ensures JobInv(Do(m, op), id)
  {
    var msg := if op.StartJob? then Seeds(op.id) else Control(op.id, op.kind);
    LegalSnoc(m.log, msg, id);
    assert Do(m, op).log == m.log + [msg];
    assert Seeds(id) in m.log + [msg] <==> Seeds(id) in m.log || msg == Seeds(id);
  }

  lemma StepInv(m: Manager, op: Op, id: JobId)
    requires JobInv(m, id)
    ensures JobInv(Do(m, op), id)
  {
    if Outcome(m, op) == NoError {
      if op.CreateJob? {
        CreateInv(m, op, id);
      } else {
        PublishInv(m, op, id);
      }
    }
  }

  /** For every run of create, start, pause, resume and stop with arbitrary publish failures: each job's state is
      the replay of its successful publishes, each of which was an allowed transition; the completion time is set
      exactly for cancelled jobs, the start time exactly for jobs whose seeds went out; and messages are published
      only for jobs that exist. */
  lemma {:induction false} StateIsReplay(ops: seq<Op>, id: JobId)
    ensures JobInv(After(ops), id)
  {
    if ops != [] {
      StateIsReplay(ops[..|ops| - 1], id);
      StepInv(After(ops[..|ops| - 1]), ops[|ops| - 1], id);
    }
  }

  /** A call that fails, for whatever reason, changes neither a job nor the log. */
  lemma FailureChangesNothing(ops: seq<Op>, op: Op)
    requires Outcome(After(ops), op) != NoError
    ensures After(ops + [op]) == After(ops)
  {
    assert (ops + [op])[..|ops|] == ops;
  }

  /** Cancelled is absorbing: the job stays as it is, and nothing is ever published for it again. */
  lemma {:induction false} CancelledForever(ops: seq<Op>, more: seq<Op>, id: JobId)
    requires id in After(ops).jobs && After(ops).jobs[id].state == Cancelled
    ensures id in After(ops + more).jobs && After(ops + more).jobs[id] == After(ops).jobs[id]
    ensures After(ops).log <= After(ops + more).log
    ensures forall i | |After(ops).log| <= i < |After(ops + more).log| :: After(ops + more).log[i].id != id
    decreases |more|
  {
    if more == [] {
      assert ops + more == ops;
    } else {
      var front, last := more[..|more| - 1], more[|more| - 1];
      CancelledForever(ops, front, id);
      assert (ops + more)[..|ops + more| - 1] == ops + front && (ops + more)[|ops + more| - 1] == last;
    }
  }

  /** Resuming is documented as going from Paused to Running, but the table lets it through from Created as well;
      in reachable states it succeeds exactly from these two (when the publish does). */
  lemma ResumeAcceptedIff(ops: seq<Op>, id: JobId, ok: bool, now: int)
    ensures Outcome(After(ops), ControlJob(id, Resume, ok, now)) == NoError <==>
            ok && id in After(ops).jobs && (After(ops).jobs[id].state == Paused || After(ops).jobs[id].state == Created)
  {
    StateIsReplay(ops, id);
  }

  /** In a reachable state a job can be paused exactly while it is running. */
  lemma PauseAcceptedIff(ops: seq<Op>, id: JobId, ok: bool, now: int)
    ensures var m, op := After(ops), ControlJob(id, Pause, ok, now);
      && (Outcome(m, op) == NoError <==> ok && id in m.jobs && m.jobs[id].state == Running)
      && (Outcome(m, op) == NoError ==> After(ops + [op]).jobs[id] == m.jobs[id].(state := Paused))
  {
    StateIsReplay(ops, id);
    assert (ops + [ControlJob(id, Pause, ok, now)])[..|ops|] == ops;
  }

  /** It can be stopped, once, whatever it is doing; that is when it ends. */
  lemma StopAcceptedIff(ops: seq<Op>, id: JobId, ok: bool, now: int)
    ensures var m, op := After(ops), ControlJob(id, Stop, ok, now);
      && (Outcome(m, op) == NoError <==> ok && id in m.jobs && m.jobs[id].state != Cancelled)
      && (Outcome(m, op) == NoError ==>
            After(ops + [op]).jobs[id] == m.jobs[id].(state := Cancelled, completedAt := Some(now)))
  {
    StateIsReplay(ops, id);
    assert (ops + [ControlJob(id, Stop, ok, now)])[..|ops|] == ops;
  }

  /** It can be started exactly while it is created or paused, and then its seeds go out. */
  lemma StartAcceptedIff(ops: seq<Op>, id: JobId, ok: bool, now: int)
    ensures var m, op := After(ops), StartJob(id, ok, now);
      && (Outcome(m, op) == NoError <==>
            ok && id in m.jobs && (m.jobs[id].state == Created || m.jobs[id].state == Paused))
      && (Outcome(m, op) == NoError ==>
            && After(ops + [op]).jobs[id] == m.jobs[id].(state := Running, startedAt := Some(now))
            && After(ops + [op]).log == m.log + [Seeds(id)])
  {
    StateIsReplay(ops, id);
    assert (ops + [StartJob(id, ok, now)])[..|ops|] == ops;
  }

  /** A job that is created, running, paused or cancelled is in no state for the call. */
  predicate Refuses(state: JobState, op: Op)
    requires !op.CreateJob?
  {
    if op.ControlJob? && op.kind == Pause then state != Running
    else if op.ControlJob? && op.kind == Stop then state == Cancelled
    else state != Created && state != Paused
  }

  /** What each error of a reachable manager says: the id is taken; there is no such job; the job is in no state for the
      call; or the message could not be published. */
  lemma ErrorsMean(ops: seq<Op>, op: Op)
    ensures var m := After(ops); var e := Outcome(m, op); var known := op.id in m.jobs;
      && (e == AlreadyExists <==> op.CreateJob? && known)
      && (e == NotFound <==> !op.CreateJob? && !known)
      && (e == BadTransition <==> !op.CreateJob? && known && Refuses(m.jobs[op.id].state, op))
      && (e == PublishFailed ==> known && !op.ok)
  {
    StateIsReplay(ops, op.id);
  }

  /** A call on one job leaves every other job alone. */
  lemma OthersUntouched(m: Manager, op: Op, id: JobId)
    requires op.id != id
    ensures (id in Do(m, op).jobs <==> id in m.jobs) && (id in m.jobs ==> Do(m, op).jobs[id] == m.jobs[id])
  {
  }

  // When a running job's seeds have been published.

  /** If the job is running or paused then its seeds are on the log. */
  ghost predicate Seeded(m: Manager, id: JobId) {
    id in m.jobs && (m.jobs[id].state == Running || m.jobs[id].state == Paused) ==> Seeds(id) in m.log
  }

  /** Operation `k` of the run is an accepted resume of the job while it is still in state Created. */
  predicate ResumesUnstarted(ops: seq<Op>, k: nat, id: JobId) {
    k < |ops| && ops[k].ControlJob? && ops[k].kind == Resume && ops[k].id == id && ops[k].ok
    && id in After(ops[..k]).jobs && After(ops[..k]).jobs[id].state == Created
  }

  lemma AfterNext(ops: seq<Op>, k: nat)
    requires k < |ops|
    ensures After(ops[..k + 1]) == Do(After(ops[..k]), ops[k])
  {
    assert ops[..k + 1][..k] == ops[..k];
  }

  /** One step: seeds can be missing afterwards only if they were missing before or the step is such a resume. */
  lemma StepSeeded(ops: seq<Op>, k: nat, id: JobId)
    requires k < |ops| && Seeded(After(ops[..k]), id) && !ResumesUnstarted(ops, k, id)
    ensures Seeded(After(ops[..k + 1]), id)
  {
    AfterNext(ops, k);
    var m, op := After(ops[..k]), ops[k];
    StateIsReplay(ops[..k], id);
    if Outcome(m, op) == NoError && op.id == id && op.StartJob? {
      var log := m.log + [Seeds(id)];
      assert log[|log| - 1] == Seeds(id);
    }
  }

  lemma {:induction false} SeededUntil(ops: seq<Op>, k: nat, id: JobId)
    requires k <= |ops| && forall j: nat | j < k :: !ResumesUnstarted(ops, j, id)
    ensures Seeded(After(ops[..k]), id)
  {
    if k > 0 {
      SeededUntil(ops, k - 1, id);
      StepSeeded(ops, k - 1, id);
    }
  }

  /** Such a resume leaves a running job whose seeds were never published. */
  lemma ResumeUnseeds(ops: seq<Op>, k: nat, id: JobId)
    requires ResumesUnstarted(ops, k, id)
    ensures !Seeded(After(ops[..k + 1]), id)
  {
    AfterNext(ops, k);
    StateIsReplay(ops[..k], id);
    var m := After(ops[..k]);
    if Seeds(id) in m.log {
      LoggedLeavesCreated(m.log, id);
    }
    assert Seeds(id) !in m.log + [Control(id, Resume)];
  }

  /** A job with a message on the log is not in state Created. */
  lemma {:induction false} LoggedLeavesCreated(log: seq<Message>, id: JobId)
    requires Mentions(log, id)
    ensures Replay(log, id) != Created
  {
    var last := log[|log| - 1];
    if last.id != id {
      var i :| 0 <= i < |log| && log[i].id == id;
      assert log[..|log| - 1][i].id == id;
      LoggedLeavesCreated(log[..|log| - 1], id);
    }
  }

  /** Throughout a run, a job that is running or paused has had its seeds published, if and only if no resume of it was
      accepted while it was still in state Created. */
  lemma SeededIffNotResumedUnstarted(ops: seq<Op>, id: JobId)
    ensures (forall k: nat | k <= |ops| :: Seeded(After(ops[..k]), id)) <==>
            (forall k: nat | k < |ops| :: !ResumesUnstarted(ops, k, id))
  {
    if k: nat :| k < |ops| && ResumesUnstarted(ops, k, id) {
      ResumeUnseeds(ops, k, id);
    } else {
      forall k: nat | k <= |ops| ensures Seeded(After(ops[..k]), id) {
        SeededUntil(ops, k, id);
      }
    }
  }

  /** The shortest such run: create, then resume. */
  lemma RunningWithoutSeeds(id: JobId)
    ensures var m := After([CreateJob(id), ControlJob(id, Resume, true, 0)]);
      id in m.jobs && m.jobs[id].state == Running && Seeds(id) !in m.log && m.jobs[id].startedAt == None
  {
    var ops := [CreateJob(id), ControlJob(id, Resume, true, 0)];
    assert ops[..1] == [CreateJob(id)] && ops[..1][..0] == [];
    assert After(ops[..1]) == Do(Manager(map[], []), CreateJob(id));
    assert After(ops) == Do(After(ops[..1]), ops[1]);
  }

  // How often the seeds go out.

  function SeedsPublished(log: seq<Message>, id: JobId): nat {
    if log == [] then 0
    else SeedsPublished(log[..|log| - 1], id) + (if log[|log| - 1] == Seeds(id) then 1 else 0)
  }

  lemma SeedsSnoc(log: seq<Message>, msg: Message, id: JobId)
    ensures SeedsPublished(log + [msg], id) == SeedsPublished(log, id) + (if msg == Seeds(id) then 1 else 0)
  {
    assert (log + [msg])[..|log|] == log;
  }

  lemma {:induction false} SeedsCount(log: seq<Message>, id: JobId)
    ensures SeedsPublished(log, id) > 0 <==> Seeds(id) in log
  {
    if log != [] {
      SeedsCount(log[..|log| - 1], id);
      assert log == log[..|log| - 1] + [log[|log| - 1]];
    }
  }

  /** Operation `k` of the run starts the job again: it is paused and has been started before. */
  predicate StartsAgain(ops: seq<Op>, k: nat, id: JobId) {
    k < |ops| && ops[k].StartJob? && ops[k].id == id && ops[k].ok
    && id in After(ops[..k]).jobs && After(ops[..k]).jobs[id].state == Paused
        && After(ops[..k]).jobs[id].startedAt.Some?
  }

  lemma LogNext(ops: seq<Op>, k: nat, id: JobId)
    requires k < |ops|
    ensures var m, m' := After(ops[..k]), After(ops[..k + 1]);
      var starts := ops[k].StartJob? && ops[k].id == id && Outcome(m, ops[k]) == NoError;
      SeedsPublished(m'.log, id) == SeedsPublished(m.log, id) + (if starts then 1 else 0)
  {
    AfterNext(ops, k);
    var m, op := After(ops[..k]), ops[k];
    if Outcome(m, op) == NoError && !op.CreateJob? {
      SeedsSnoc(m.log, if op.StartJob? then Seeds(op.id) else Control(op.id, op.kind), id);
    }
  }

  lemma {:induction false} SeedsGrow(ops: seq<Op>, j: nat, k: nat, id: JobId)
    requires j <= k <= |ops|
    ensures SeedsPublished(After(ops[..j]).log, id) <= SeedsPublished(After(ops[..k]).log, id)
  {
    if j < k {
      SeedsGrow(ops, j, k - 1, id);
      LogNext(ops, k - 1, id);
    }
  }

  /** A start that is accepted, and does not start the job again, finds no seeds on the log. */
  lemma FirstStart(m: Manager, op: Op)
    requires op.StartJob? && Outcome(m, op) == NoError && JobInv(m, op.id)
    requires !(m.jobs[op.id].state == Paused && m.jobs[op.id].startedAt.Some?)
    ensures SeedsPublished(m.log, op.id) == 0
  {
    SeedsCount(m.log, op.id);
    if Seeds(op.id) in m.log {
      LoggedLeavesCreated(m.log, op.id);
      assert false;
    }
  }

  lemma StepSeedsOnce(ops: seq<Op>, k: nat, id: JobId)
    requires k < |ops| && !StartsAgain(ops, k, id) && SeedsPublished(After(ops[..k]).log, id) <= 1
    ensures SeedsPublished(After(ops[..k + 1]).log, id) <= 1
  {
    LogNext(ops, k, id);
    var m, op := After(ops[..k]), ops[k];
    if op.StartJob? && op.id == id && Outcome(m, op) == NoError {
      StateIsReplay(ops[..k], id);
      FirstStart(m, op);
    }
  }

  lemma {:induction false} SeedsOnceUntil(ops: seq<Op>, k: nat, id: JobId)
    requires k <= |ops| && forall j: nat | j < k :: !StartsAgain(ops, j, id)
    ensures SeedsPublished(After(ops[..k]).log, id) <= 1
  {
    if k > 0 {
      SeedsOnceUntil(ops, k - 1, id);
      StepSeedsOnce(ops, k - 1, id);
    }
  }

  lemma StartingAgainRepeats(ops: seq<Op>, k: nat, id: JobId)
    requires StartsAgain(ops, k, id)
    ensures SeedsPublished(After(ops).log, id) >= 2
  {
    StateIsReplay(ops[..k], id);
    SeedsCount(After(ops[..k]).log, id);
    LogNext(ops, k, id);
    SeedsGrow(ops, k + 1, |ops|, id);
    assert ops[..|ops|] == ops;
  }

  /** The seeds of a job go out at most once in a run if and only if the run never starts the job while it is paused
      after an earlier start; starting instead of resuming it publishes them again. */
  lemma SeedsOnceIff(ops: seq<Op>, id: JobId)
    ensures SeedsPublished(After(ops).log, id) <= 1 <==> forall k: nat | k < |ops| :: !StartsAgain(ops, k, id)
  {
    assert ops[..|ops|] == ops;
    if k: nat :| k < |ops| && StartsAgain(ops, k, id) {
      StartingAgainRepeats(ops, k, id);
    } else {
      SeedsOnceUntil(ops, |ops|, id);
    }
  }
}
