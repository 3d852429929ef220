/** The concurrency manager of `pkg/crawler/concurrency.go` as an interleaved step machine.

    `Acquire` takes a global permit, finds or creates the domain's semaphore by double-checked locking, and
    takes a permit of that semaphore; a cancelled context makes either wait fail. `Release` looks the
    semaphore up again, returns the domain permit and then the global one. Each event below is one atomic
    section of one thread. */
module Concurrency {
  import opened Tally

  type Domain = string

  datatype Config = Config(globalLimit: nat, domainLimit: nat, disablePerDomain: bool)

  predicate ValidConfig(c: Config) {
    c.globalLimit >= 1 && c.domainLimit >= 1
  }

  /** Where a thread stands. `sem` is the semaphore object the thread found for its domain. */
  datatype Pc =
    | Idle
    | AwaitGlobal(domain: Domain)
    | LookUp(domain: Domain)
    | Create(domain: Domain)
    | AwaitDomain(domain: Domain, sem: nat)
    | Holding(domain: Domain, sem: nat)
    | HoldingGlobal(domain: Domain)
    | FindSem(domain: Domain, sem: nat)
    | ReturnDomain(domain: Domain, sem: nat)
    | ReturnGlobal

  /** `domainSems` maps a domain to its semaphore object; `inUse[i]` is the number of permits taken from
      object `i`. Objects are never destroyed, so `|inUse|` counts every object ever created. */
  datatype State = State(globalInUse: int, domainSems: map<Domain, nat>, inUse: seq<int>, threads: seq<Pc>)

  datatype Action =
    | Begin(domain: Domain)
    | TakeGlobal
    | CancelGlobal
    | ReadSems
    | WriteSems
    | TakeDomain
    | CancelDomain
    | BeginRelease
    | ReadSemsForRelease
    | GiveDomain
    | GiveGlobal

  predicate Init(s: State) {
    && s.globalInUse == 0 && s.domainSems == map[] && s.inUse == []
    && forall i | 0 <= i < |s.threads| :: s.threads[i] == Idle
  }

  predicate Enabled(c: Config, s: State, t: nat, a: Action) {
    t < |s.threads| &&
    match (s.threads[t], a)
    case (Idle, Begin(_)) => true
    case (AwaitGlobal(_), TakeGlobal) => s.globalInUse < c.globalLimit
    case (AwaitGlobal(_), CancelGlobal) => true
    case (LookUp(_), ReadSems) => true
    case (Create(_), WriteSems) => true
    case (AwaitDomain(_, i), TakeDomain) => i < |s.inUse| && s.inUse[i] < c.domainLimit
    case (AwaitDomain(_, _), CancelDomain) => true
    case (Holding(_, _), BeginRelease) => true
    case (HoldingGlobal(_), BeginRelease) => true
    case (FindSem(_, _), ReadSemsForRelease) => true
    case (ReturnDomain(_, i), GiveDomain) => i < |s.inUse|
    case (ReturnGlobal, GiveGlobal) => true
    case _ => false
  }

  function At(s: State, t: nat, pc: Pc): State
    requires t < |s.threads|
  {
    s.(threads := s.threads[t := pc])
  }

  function Apply(c: Config, s: State, t: nat, a: Action): State
    requires Enabled(c, s, t, a)
  {
    match s.threads[t]
    case Idle => At(s, t, AwaitGlobal(a.domain))
    case AwaitGlobal(d) =>
      if a.CancelGlobal? then At(s, t, Idle)
      else At(s.(globalInUse := s.globalInUse + 1), t, if c.disablePerDomain then HoldingGlobal(d) else LookUp(d))
    case LookUp(d) => At(s, t, if d in s.domainSems then AwaitDomain(d, s.domainSems[d]) else Create(d))
    case Create(d) =>
      if d in s.domainSems then At(s, t, AwaitDomain(d, s.domainSems[d]))
      else At(s.(domainSems := s.domainSems[d := |s.inUse|], inUse := s.inUse + [0]), t, AwaitDomain(d, |s.inUse|))
    case AwaitDomain(d, i) =>
      if a.CancelDomain? then At(s, t, ReturnGlobal)
      else At(s.(inUse := s.inUse[i := s.inUse[i] + 1]), t, Holding(d, i))
    case Holding(d, i) => At(s, t, FindSem(d, i))
    case HoldingGlobal(d) => At(s, t, ReturnGlobal)
    case FindSem(d, i) => At(s, t, if d in s.domainSems then ReturnDomain(d, s.domainSems[d]) else ReturnGlobal)
    case ReturnDomain(d, i) => At(s.(inUse := s.inUse[i := s.inUse[i] - 1]), t, ReturnGlobal)
    case ReturnGlobal => At(s.(globalInUse := s.globalInUse - 1), t, Idle)
  }

  ghost predicate Next(c: Config, s: State, s': State) {
    exists t, a :: Enabled(c, s, t, a) && s' == Apply(c, s, t, a)
  }

  ghost predicate IsRun(c: Config, run: seq<State>) {
    && |run| > 0
    && Init(run[0])
    && forall k | 0 <= k < |run| - 1 :: Next(c, run[k], run[k + 1])
  }

  /** The thread owns one global permit. */
  predicate OwnsGlobal(pc: Pc) {
    !pc.Idle? && !pc.AwaitGlobal?
  }

  /** The thread owns one permit of semaphore object `i`. */
  function OwnsSem(i: nat): Pc -> bool {
    (pc: Pc) => (pc.Holding? || pc.FindSem? || pc.ReturnDomain?) && pc.sem == i
  }

  predicate KnowsItsSem(s: State, pc: Pc) {
    (pc.AwaitDomain? || pc.Holding? || pc.FindSem? || pc.ReturnDomain?) ==>
      pc.domain in s.domainSems && s.domainSems[pc.domain] == pc.sem
  }

  ghost predicate GlobalInv(c: Config, s: State) {
    s.globalInUse == Count(s.threads, OwnsGlobal) && s.globalInUse <= c.globalLimit
  }

  /** The map names each semaphore object exactly once, and every thread works with its domain's object. */
  ghost predicate SemsInv(s: State) {
    && (forall d | d in s.domainSems :: s.domainSems[d] < |s.inUse|)
    && (forall d, e | d in s.domainSems && e in s.domainSems && s.domainSems[d] == s.domainSems[e] :: d == e)
    && |s.domainSems| == |s.inUse|
    && (forall t | 0 <= t < |s.threads| :: KnowsItsSem(s, s.threads[t]))
  }

  ghost predicate DomainInv(c: Config, s: State, i: nat) {
    && Count(s.threads, OwnsSem(i)) == (if i < |s.inUse| then s.inUse[i] else 0)
    && (i < |s.inUse| ==> s.inUse[i] <= c.domainLimit)
  }

  ghost predicate Inv(c: Config, s: State) {
    GlobalInv(c, s) && SemsInv(s) && forall i: nat :: DomainInv(c, s, i)
  }

  lemma InitInv(c: Config, s: State)
    requires Init(s)
    ensures Inv(c, s)
  {
    CountNone(s.threads, OwnsGlobal);
    forall i: nat ensures DomainInv(c, s, i) {
      CountNone(s.threads, OwnsSem(i));
    }
  }

  lemma StepGlobalInv(c: Config, s: State, t: nat, a: Action)
    requires GlobalInv(c, s) && Enabled(c, s, t, a)
    ensures GlobalInv(c, Apply(c, s, t, a))
  {
    CountUpdate(s.threads, t, Apply(c, s, t, a).threads[t], OwnsGlobal);
  }

  lemma CreateKeepsSems(s: State, t: nat, d: Domain)
    requires SemsInv(s) && t < |s.threads| && d !in s.domainSems
    ensures var i := |s.inUse|;
      SemsInv(At(s.(domainSems := s.domainSems[d := i], inUse := s.inUse + [0]), t, AwaitDomain(d, i)))
  {
    var s' := At(s.(domainSems := s.domainSems[d := |s.inUse|], inUse := s.inUse + [0]), t, AwaitDomain(d, |s.inUse|));
    forall u | 0 <= u < |s'.threads| ensures KnowsItsSem(s', s'.threads[u]) {
      assert KnowsItsSem(s, s.threads[u]);
    }
  }

  lemma StepSemsInv(c: Config, s: State, t: nat, a: Action)
    requires SemsInv(s) && Enabled(c, s, t, a)
    ensures SemsInv(Apply(c, s, t, a))
  {
    assert KnowsItsSem(s, s.threads[t]);
    if s.threads[t].Create? && s.threads[t].domain !in s.domainSems {
      CreateKeepsSems(s, t, s.threads[t].domain);
    } else {
      var s' := Apply(c, s, t, a);
      assert s'.domainSems == s.domainSems && |s'.inUse| == |s.inUse|;
      assert KnowsItsSem(s', s'.threads[t]);
    }
  }

  lemma StepDomainInv(c: Config, s: State, t: nat, a: Action, i: nat)
    requires SemsInv(s) && DomainInv(c, s, i) && Enabled(c, s, t, a)
    ensures DomainInv(c, Apply(c, s, t, a), i)
  {
    assert KnowsItsSem(s, s.threads[t]);
    CountUpdate(s.threads, t, Apply(c, s, t, a).threads[t], OwnsSem(i));
  }

  lemma StepInv(c: Config, s: State, t: nat, a: Action)
    requires Inv(c, s) && Enabled(c, s, t, a)
    ensures Inv(c, Apply(c, s, t, a))
  {
    StepGlobalInv(c, s, t, a);
    StepSemsInv(c, s, t, a);
    forall i: nat ensures DomainInv(c, Apply(c, s, t, a), i) {
      StepDomainInv(c, s, t, a, i);
    }
  }

  lemma {:induction false} RunInv(c: Config, run: seq<State>, k: nat)
    requires IsRun(c, run) && k < |run|
    ensures Inv(c, run[k])
  {
    if k == 0 {
      InitInv(c, run[0]);
    } else {
      RunInv(c, run, k - 1);
      assert Next(c, run[k - 1], run[k - 1 + 1]);
      var t, a :| Enabled(c, run[k - 1], t, a) && run[k] == Apply(c, run[k - 1], t, a);
      StepInv(c, run[k - 1], t, a);
    }
  }

  /** In every state of every run both limits hold; the permits in use are exactly those owned by threads
      that are past the wait and have not yet given them back (so a cancelled `Acquire` leaks nothing); and
      no domain ever has a second semaphore object. */
  lemma PermitAccounting(c: Config, run: seq<State>, k: nat)
    requires IsRun(c, run) && k < |run|
    ensures var s := run[k];
      && s.globalInUse == Count(s.threads, OwnsGlobal) <= c.globalLimit
      && (forall d | d in s.domainSems :: s.domainSems[d] < |s.inUse|
            && 0 <= s.inUse[s.domainSems[d]] == Count(s.threads, OwnsSem(s.domainSems[d])) <= c.domainLimit)
      && |s.domainSems| == |s.inUse|
      && (forall d, e | d in s.domainSems && e in s.domainSems && d != e :: s.domainSems[d] != s.domainSems[e])
  {
    RunInv(c, run, k);
    var s := run[k];
    forall d | d in s.domainSems
      ensures 0 <= s.inUse[s.domainSems[d]] == Count(s.threads, OwnsSem(s.domainSems[d])) <= c.domainLimit
    {
      assert DomainInv(c, s, s.domainSems[d]);
    }
  }

  /** A release always finds the semaphore that the acquire took from and never returns a permit that is not
      out, so the library's over-release panic cannot happen. */
  lemma ReleaseFindsItsSemaphore(c: Config, run: seq<State>, k: nat, t: nat)
    requires IsRun(c, run) && k < |run| && t < |run[k].threads|
    ensures var s := run[k]; var pc := s.threads[t];
      && (pc.FindSem? ==> pc.domain in s.domainSems && s.domainSems[pc.domain] == pc.sem)
      && (pc.ReturnDomain? ==> pc.sem < |s.inUse| && s.inUse[pc.sem] >= 1)
      && (pc.ReturnGlobal? ==> s.globalInUse >= 1)
  {
    RunInv(c, run, k);
    var s := run[k];
    var pc := s.threads[t];
    assert KnowsItsSem(s, pc);
    if pc.ReturnDomain? {
      CountMember(s.threads, t, OwnsSem(pc.sem));
      assert DomainInv(c, s, pc.sem);
    }
    if pc.ReturnGlobal? {
      CountMember(s.threads, t, OwnsGlobal);
    }
  }

  // How many requests to one domain are inside at once.

  /** `Acquire` has succeeded for `d` and `Release` has not begun. */
  function Inside(d: Domain): Pc -> bool {
    (pc: Pc) => (pc.Holding? || pc.HoldingGlobal?) && pc.domain == d
  }

  predicate UsesDomainSem(pc: Pc) {
    pc.LookUp? || pc.Create? || pc.AwaitDomain? || pc.Holding? || pc.FindSem? || pc.ReturnDomain?
  }

  /** With per-domain limits every success holds a domain permit; without them no domain semaphore is ever touched. */
  ghost predicate ModeInv(c: Config, s: State) {
    if c.disablePerDomain then s.domainSems == map[] && forall t | 0 <= t < |s.threads| :: !UsesDomainSem(s.threads[t])
    else forall t | 0 <= t < |s.threads| :: !s.threads[t].HoldingGlobal?
  }

  lemma StepModeInv(c: Config, s: State, t: nat, a: Action)
    requires ModeInv(c, s) && Enabled(c, s, t, a)
    ensures ModeInv(c, Apply(c, s, t, a))
  {
  }

  lemma InsideIsBounded(c: Config, s: State, d: Domain)
    requires Inv(c, s) && ModeInv(c, s)
    ensures Count(s.threads, Inside(d)) <= c.globalLimit
    ensures !c.disablePerDomain ==> Count(s.threads, Inside(d)) <= c.domainLimit
  {
    CountMonotone(s.threads, Inside(d), OwnsGlobal);
    if !c.disablePerDomain {
      forall t | 0 <= t < |s.threads| && Inside(d)(s.threads[t])
        ensures d in s.domainSems && OwnsSem(s.domainSems[d])(s.threads[t])
      {
        assert KnowsItsSem(s, s.threads[t]);
      }
      if d in s.domainSems {
        assert DomainInv(c, s, s.domainSems[d]);
        CountMonotone(s.threads, Inside(d), OwnsSem(s.domainSems[d]));
      } else {
        CountNone(s.threads, Inside(d));
      }
    }
  }

  lemma {:induction false} RunModeInv(c: Config, run: seq<State>, k: nat)
    requires IsRun(c, run) && k < |run|
    ensures ModeInv(c, run[k])
  {
    if k > 0 {
      RunModeInv(c, run, k - 1);
      assert Next(c, run[k - 1], run[k - 1 + 1]);
      var t, a :| Enabled(c, run[k - 1], t, a) && run[k] == Apply(c, run[k - 1], t, a);
      StepModeInv(c, run[k - 1], t, a);
    }
  }

  /** In every state of every run, at most `globalLimit` requests to a domain are inside, and with per-domain limits at
      most `domainLimit`; without per-domain limits no domain semaphore exists and nobody waits for one. */
  lemma InsideAtMostLimit(c: Config, run: seq<State>, k: nat, d: Domain)
    requires IsRun(c, run) && k < |run|
    ensures Count(run[k].threads, Inside(d)) <= c.globalLimit
    ensures !c.disablePerDomain ==> Count(run[k].threads, Inside(d)) <= c.domainLimit
    ensures c.disablePerDomain ==> run[k].domainSems == map[] && run[k].inUse == []
    ensures c.disablePerDomain ==> forall t | 0 <= t < |run[k].threads| :: !run[k].threads[t].AwaitDomain?
  {
    RunInv(c, run, k);
    RunModeInv(c, run, k);
    InsideIsBounded(c, run[k], d);
  }

  /** A thread works on one domain from the beginning of its call to the release. */
  lemma DomainStays(c: Config, s: State, s': State, t: nat)
    requires Next(c, s, s') && t < |s.threads|
    requires !s.threads[t].Idle? && !s.threads[t].ReturnGlobal? && !s'.threads[t].Idle? && !s'.threads[t].ReturnGlobal?
    ensures s'.threads[t].domain == s.threads[t].domain
  {
    var u, a :| Enabled(c, s, u, a) && s' == Apply(c, s, u, a);
  }

  // One thread by itself.

  /** The states that a sequence of actions of thread `t` leads through. */
  ghost predicate Alone(c: Config, s: State, t: nat, actions: seq<Action>, s': State)
    decreases |actions|
  {
    if actions == [] then s' == s
    else Enabled(c, s, t, actions[0]) && Alone(c, Apply(c, s, t, actions[0]), t, actions[1..], s')
  }

  lemma AloneStep(c: Config, s: State, t: nat, a: Action, rest: seq<Action>, s': State)
    requires Enabled(c, s, t, a) && Alone(c, Apply(c, s, t, a), t, rest, s')
    ensures Alone(c, s, t, [a] + rest, s')
  {
    assert ([a] + rest)[1..] == rest;
  }

  /** The permits for a request to `d` are there. */
  predicate Room(c: Config, s: State, d: Domain) {
    && s.globalInUse < c.globalLimit
    && (!c.disablePerDomain && d in s.domainSems ==>
          s.domainSems[d] < |s.inUse| && s.inUse[s.domainSems[d]] < c.domainLimit)
  }

  /** `t` holds one more permit of the domain's semaphore, which is created if there was none. */
  function DomainTaken(s: State, t: nat, d: Domain): State
    requires t < |s.threads| && (d in s.domainSems ==> s.domainSems[d] < |s.inUse|)
  {
    if d in s.domainSems then
      var i := s.domainSems[d];
      At(s.(inUse := s.inUse[i := s.inUse[i] + 1]), t, Holding(d, i))
    else
      At(s.(domainSems := s.domainSems[d := |s.inUse|], inUse := s.inUse + [1]), t, Holding(d, |s.inUse|))
  }

  /** The state in which `t` is inside `d`: one more global permit is out and, with per-domain limits, one more of the
      domain's. */
  function Entered(c: Config, s: State, t: nat, d: Domain): State
    requires t < |s.threads| && (d in s.domainSems ==> s.domainSems[d] < |s.inUse|)
  {
    var s1 := s.(globalInUse := s.globalInUse + 1);
    if c.disablePerDomain then At(s1, t, HoldingGlobal(d)) else DomainTaken(s1, t, d)
  }

  lemma DomainAlone(c: Config, s: State, t: nat, d: Domain) returns (actions: seq<Action>)
    requires ValidConfig(c) && SemsInv(s) && t < |s.threads| && s.threads[t] == LookUp(d)
    requires d in s.domainSems ==> s.inUse[s.domainSems[d]] < c.domainLimit
    ensures Alone(c, s, t, actions, DomainTaken(s, t, d))
  {
    var s1, end := Apply(c, s, t, ReadSems), DomainTaken(s, t, d);
    if d in s.domainSems {
      assert Apply(c, s1, t, TakeDomain) == end;
      AloneStep(c, s1, t, TakeDomain, [], end);
      actions := [TakeDomain] + [];
    } else {
      var s2 := Apply(c, s1, t, WriteSems);
      assert (s.inUse + [0])[|s.inUse| := 1] == s.inUse + [1];
      assert Apply(c, s2, t, TakeDomain) == end;
      AloneStep(c, s2, t, TakeDomain, [], end);
      AloneStep(c, s1, t, WriteSems, [TakeDomain] + [], end);
      actions := [WriteSems] + ([TakeDomain] + []);
    }
    AloneStep(c, s, t, ReadSems, actions, end);
    actions := [ReadSems] + actions;
  }

  lemma GlobalAlone(c: Config, s: State, t: nat, d: Domain) returns (actions: seq<Action>)
    requires t < |s.threads| && s.threads[t] == Idle && s.globalInUse < c.globalLimit
    ensures Alone(c, s, t, actions, At(s.(globalInUse := s.globalInUse + 1), t,
                                       if c.disablePerDomain then HoldingGlobal(d) else LookUp(d)))
  {
    var s1 := Apply(c, s, t, Begin(d));
    var s2 := Apply(c, s1, t, TakeGlobal);
    AloneStep(c, s1, t, TakeGlobal, [], s2);
    AloneStep(c, s, t, Begin(d), [TakeGlobal] + [], s2);
    actions := [Begin(d)] + ([TakeGlobal] + []);
    assert s2 == At(s.(globalInUse := s.globalInUse + 1), t,
                    if c.disablePerDomain then HoldingGlobal(d) else LookUp(d));
  }

  lemma {:induction false} AloneJoin(c: Config, s: State, t: nat, a: seq<Action>, m: State, b: seq<Action>, s': State)
    requires Alone(c, s, t, a, m) && Alone(c, m, t, b, s')
    ensures Alone(c, s, t, a + b, s')
    decreases |a|
  {
    if a == [] {
      assert a + b == b;
    } else {
      assert (a + b)[1..] == a[1..] + b;
      AloneJoin(c, Apply(c, s, t, a[0]), t, a[1..], m, b, s');
    }
  }

  /** With room, an undisturbed `Acquire` succeeds. */
  lemma AcquireAlone(c: Config, s: State, t: nat, d: Domain) returns (actions: seq<Action>)
    requires ValidConfig(c) && SemsInv(s) && t < |s.threads| && s.threads[t] == Idle && Room(c, s, d)
    ensures Alone(c, s, t, actions, Entered(c, s, t, d))
  {
    actions := GlobalAlone(c, s, t, d);
    if !c.disablePerDomain {
      var s2 := At(s.(globalInUse := s.globalInUse + 1), t, LookUp(d));
      LookUpKeepsSems(s, t, d);
      var more := DomainAlone(c, s2, t, d);
      assert DomainTaken(s2, t, d) == Entered(c, s, t, d);
      AloneJoin(c, s, t, actions, s2, more, Entered(c, s, t, d));
      actions := actions + more;
    }
  }

  lemma LookUpKeepsSems(s: State, t: nat, d: Domain)
    requires SemsInv(s) && t < |s.threads|
    ensures SemsInv(At(s.(globalInUse := s.globalInUse + 1), t, LookUp(d)))
  {
    var s' := At(s.(globalInUse := s.globalInUse + 1), t, LookUp(d));
    forall u | 0 <= u < |s'.threads| ensures KnowsItsSem(s', s'.threads[u]) {
      assert u != t ==> KnowsItsSem(s, s.threads[u]);
    }
  }

  /** The permits are as before; only a semaphore that was created on the way stays, with no permit out. */
  ghost predicate Returned(s: State, s': State, d: Domain) {
    && s'.globalInUse == s.globalInUse && s'.threads == s.threads
    && (s' == s || (d !in s.domainSems && s'.domainSems == s.domainSems[d := |s.inUse|] && s'.inUse == s.inUse + [0]))
  }

  lemma GiveAlone(c: Config, s: State, t: nat, d: Domain, i: nat) returns (actions: seq<Action>)
    requires t < |s.threads| && s.threads[t] == Holding(d, i) && d in s.domainSems && s.domainSems[d] == i < |s.inUse|
    ensures Alone(c, s, t, actions,
                  At(s.(globalInUse := s.globalInUse - 1, inUse := s.inUse[i := s.inUse[i] - 1]), t, Idle))
  {
    var s1 := Apply(c, s, t, BeginRelease);
    var s2 := Apply(c, s1, t, ReadSemsForRelease);
    var s3 := Apply(c, s2, t, GiveDomain);
    var end := Apply(c, s3, t, GiveGlobal);
    AloneStep(c, s3, t, GiveGlobal, [], end);
    AloneStep(c, s2, t, GiveDomain, [GiveGlobal] + [], end);
    AloneStep(c, s1, t, ReadSemsForRelease, [GiveDomain] + ([GiveGlobal] + []), end);
    AloneStep(c, s, t, BeginRelease, [ReadSemsForRelease] + ([GiveDomain] + ([GiveGlobal] + [])), end);
    actions := [BeginRelease] + ([ReadSemsForRelease] + ([GiveDomain] + ([GiveGlobal] + [])));
    assert end == At(s.(globalInUse := s.globalInUse - 1, inUse := s.inUse[i := s.inUse[i] - 1]), t, Idle);
  }

  lemma DomainReturned(c: Config, s: State, t: nat, d: Domain) returns (actions: seq<Action>, s': State)
    requires SemsInv(s) && t < |s.threads| && s.threads[t] == Idle && !c.disablePerDomain
    ensures Alone(c, Entered(c, s, t, d), t, actions, s') && Returned(s, s', d)
  {
    var e := Entered(c, s, t, d);
    var i := e.domainSems[d];
    actions := GiveAlone(c, e, t, d, i);
    s' := At(e.(globalInUse := e.globalInUse - 1, inUse := e.inUse[i := e.inUse[i] - 1]), t, Idle);
    assert s'.threads == s.threads;
    assert s'.inUse == if d in s.domainSems then s.inUse else s.inUse + [0];
  }

  /** An undisturbed `Release` undoes an `Acquire`. */
  lemma ReleaseUndoesAcquire(c: Config, s: State, t: nat, d: Domain) returns (actions: seq<Action>, s': State)
    requires SemsInv(s) && t < |s.threads| && s.threads[t] == Idle
    ensures Alone(c, Entered(c, s, t, d), t, actions, s') && Returned(s, s', d)
  {
    if c.disablePerDomain {
      var e := Entered(c, s, t, d);
      var e1 := Apply(c, e, t, BeginRelease);
      s' := Apply(c, e1, t, GiveGlobal);
      assert s'.threads == s.threads;
      AloneStep(c, e1, t, GiveGlobal, [], s');
      AloneStep(c, e, t, BeginRelease, [GiveGlobal] + [], s');
      actions := [BeginRelease] + ([GiveGlobal] + []);
    } else {
      actions, s' := DomainReturned(c, s, t, d);
    }
  }

  /** The thread waits for a permit that is not there; only a cancellation could move it. */
  predicate Blocked(c: Config, s: State, t: nat) {
    t < |s.threads| &&
    match s.threads[t]
    case AwaitGlobal(_) => s.globalInUse >= c.globalLimit
    case AwaitDomain(_, i) => i < |s.inUse| && s.inUse[i] >= c.domainLimit
    case _ => false
  }

  /** Steps that finish what has been started: everything except a new call and a cancellation. */
  predicate Finishing(a: Action) {
    !a.Begin? && !a.CancelGlobal? && !a.CancelDomain?
  }

  /** The finishing action that a thread would take next. */
  function Forward(pc: Pc): Action
    requires !pc.Idle?
  {
    match pc
    case AwaitGlobal(_) => TakeGlobal
    case LookUp(_) => ReadSems
    case Create(_) => WriteSems
    case AwaitDomain(_, _) => TakeDomain
    case Holding(_, _) => BeginRelease
    case HoldingGlobal(_) => BeginRelease
    case FindSem(_, _) => ReadSemsForRelease
    case ReturnDomain(_, _) => GiveDomain
    case ReturnGlobal => GiveGlobal
  }

  /** A thread that waits for a domain permit is never blocked by threads that wait as well: if the permits
      are all out, some thread owns one and can take its own next step. */
  lemma DomainOwnerCanRun(c: Config, s: State, i: nat) returns (u: nat)
    requires ValidConfig(c) && Inv(c, s) && i < |s.inUse| && s.inUse[i] >= c.domainLimit
    ensures u < |s.threads| && OwnsSem(i)(s.threads[u]) && Enabled(c, s, u, Forward(s.threads[u]))
  {
    assert DomainInv(c, s, i);
    u := CountWitness(s.threads, OwnsSem(i));
    assert KnowsItsSem(s, s.threads[u]);
  }

  /** No deadlock between the two levels: whenever a thread is blocked, some other thread that owns a global
      permit can take its own next step towards giving it back, without any cancellation. */
  lemma SomeOwnerCanRun(c: Config, s: State, t: nat) returns (u: nat)
    requires ValidConfig(c) && Inv(c, s) && Blocked(c, s, t)
    ensures u < |s.threads| && u != t && OwnsGlobal(s.threads[u])
    ensures !Blocked(c, s, u) && Enabled(c, s, u, Forward(s.threads[u]))
  {
    if s.threads[t].AwaitDomain? {
      u := DomainOwnerCanRun(c, s, s.threads[t].sem);
    } else {
      u := CountWitness(s.threads, OwnsGlobal);
      assert KnowsItsSem(s, s.threads[u]);
      if Blocked(c, s, u) {
        u := DomainOwnerCanRun(c, s, s.threads[u].sem);
      }
    }
  }

  /** Steps a thread has left until it is idle again. */
  function Remaining(pc: Pc): nat {
    match pc
    case Idle => 0
    case AwaitGlobal(_) => 8
    case LookUp(_) => 7
    case Create(_) => 6
    case AwaitDomain(_, _) => 5
    case Holding(_, _) => 4
    case HoldingGlobal(_) => 4
    case FindSem(_, _) => 3
    case ReturnDomain(_, _) => 2
    case ReturnGlobal => 1
  }

  /** Every step other than a new call brings the system strictly closer to having returned every permit. */
  lemma EveryStepProgresses(c: Config, s: State, t: nat, a: Action)
    requires Enabled(c, s, t, a) && !a.Begin?
    ensures Sum(Apply(c, s, t, a).threads, Remaining) < Sum(s.threads, Remaining)
  {
    SumUpdate(s.threads, t, Apply(c, s, t, a).threads[t], Remaining);
  }

  /** In a reachable state where no finishing step is possible, nobody is inside `Acquire` or `Release` and no
      permit is out. With `EveryStepProgresses`: once calls stop arriving, every interleaving ends with every
      permit returned. */
  lemma QuietMeansNothingOut(c: Config, run: seq<State>, k: nat)
    requires ValidConfig(c) && IsRun(c, run) && k < |run|
    requires forall t: nat, a :: Enabled(c, run[k], t, a) ==> !Finishing(a)
    ensures forall t | 0 <= t < |run[k].threads| :: run[k].threads[t] == Idle
    ensures run[k].globalInUse == 0 && forall i | 0 <= i < |run[k].inUse| :: run[k].inUse[i] == 0
  {
    RunInv(c, run, k);
    var s := run[k];
    forall t: nat | t < |s.threads| ensures s.threads[t] == Idle {
      if s.threads[t] != Idle {
        assert KnowsItsSem(s, s.threads[t]);
        var u := t;
        if Blocked(c, s, t) {
          u := SomeOwnerCanRun(c, s, t);
        }
        assert Enabled(c, s, u, Forward(s.threads[u]));
        assert false;
      }
    }
    CountNone(s.threads, OwnsGlobal);
    forall i: nat | i < |s.inUse| ensures s.inUse[i] == 0 {
      CountNone(s.threads, OwnsSem(i));
      assert DomainInv(c, s, i);
    }
  }
}
