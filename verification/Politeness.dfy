/** The per-domain crawl delay of `pkg/frontier/memory.go` as a timed step machine.

    `enforceCrawlDelay` stores the time of its *check*, not the time at which the entry is released, so two
    consecutive releases of a domain can be closer than the delay. What it does guarantee is a rate: in any
    window as long as the delay, `k` consumers release at most `k + 1` entries of one domain. */
module Politeness {
  import opened Tally

  type Domain = string

  type Clock = map<Domain, int>

  /** `enforceCrawlDelay` up to its select: the stored times afterwards, and how long to sleep. */
  function Enforce(last: Clock, delay: nat, domain: Domain, now: int): (r: (Clock, nat))
    requires forall d | d in last :: last[d] <= now
  {
    if domain == "" then (last, 0)
    else
      var stored := last[domain := now];
      if domain !in last then (stored, 0)
      else
        var elapsed := now - last[domain];
        (stored, if elapsed >= delay then 0 else delay - elapsed)
  }

  class DelayTable {
    var domainLast: Clock

    constructor ()
      ensures domainLast == map[]
    {
      domainLast := map[];
    }

    /** The lock-protected section and the computation of the wait. */
    method EnforceCrawlDelay(delay: nat, domain: Domain, now: int) returns (wait: nat)
      requires forall d | d in domainLast :: domainLast[d] <= now
      modifies this
      ensures (domainLast, wait) == Enforce(old(domainLast), delay, domain, now)
      ensures domain != "" && domain in old(domainLast) ==> now + wait >= old(domainLast)[domain] + delay
    {
      if domain == "" {
        return 0;
      }
      var ok := domain in domainLast;
      var last := if ok then domainLast[domain] else 0;
      domainLast := domainLast[domain := now];
      if !ok {
        return 0;
      }
      var elapsed := now - last;
      if elapsed >= delay {
        return 0;
      }
      return delay - elapsed;
    }
  }

  // The machine.

  datatype Release = Pending | At(time: int)

  /** One call: who made it, for which domain, when it checked the table, when its timer is due, and its release. */
  datatype Visit = Visit(consumer: nat, domain: Domain, checkedAt: int, dueAt: int, release: Release)

  datatype ConsumerPc = Idle | Sleeping(visit: nat)

  datatype State = State(now: int, last: Clock, consumers: seq<ConsumerPc>, visits: seq<Visit>)

  /** Time passes; a consumer that has popped an entry of `domain` checks the table; a timer that is due fires. */
  datatype Event = Tick(amount: nat) | Check(j: nat, domain: Domain) | Fire(j: nat)

  predicate PastClock(s: State) {
    forall d | d in s.last :: s.last[d] <= s.now
  }

  predicate Enabled(s: State, e: Event) {
    match e
    case Tick(_) => true
    case Check(j, _) => j < |s.consumers| && s.consumers[j].Idle? && PastClock(s)
    case Fire(j) =>
      j < |s.consumers| && s.consumers[j].Sleeping? && s.consumers[j].visit < |s.visits|
      && s.now >= s.visits[s.consumers[j].visit].dueAt
  }

  function Apply(delay: nat, s: State, e: Event): State
    requires Enabled(s, e)
  {
    match e
    case Tick(amount) => s.(now := s.now + amount)
    case Check(j, d) =>
      var (last, wait) := Enforce(s.last, delay, d, s.now);
      s.(last := last, consumers := s.consumers[j := Sleeping(|s.visits|)],
         visits := s.visits + [Visit(j, d, s.now, s.now + wait, Pending)])
    case Fire(j) =>
      var v := s.consumers[j].visit;
      s.(consumers := s.consumers[j := Idle], visits := s.visits[v := s.visits[v].(release := At(s.now))])
  }

  predicate Init(s: State) {
    s.last == map[] && s.visits == [] && forall j | 0 <= j < |s.consumers| :: s.consumers[j] == Idle
  }

  ghost predicate Next(delay: nat, s: State, s': State) {
    exists e :: Enabled(s, e) && s' == Apply(delay, s, e)
  }

  ghost predicate IsRun(delay: nat, run: seq<State>) {
    && |run| > 0
    && Init(run[0])
    && forall k | 0 <= k < |run| - 1 :: Next(delay, run[k], run[k + 1])
  }

  // The invariant.

  /** The table holds a time no earlier than any check of the domain, and no later than now. */
  ghost predicate TableInv(s: State) {
    && PastClock(s)
    && forall i | 0 <= i < |s.visits| ::
         && s.visits[i].checkedAt <= s.now
         && (s.visits[i].domain != "" ==>
             s.visits[i].domain in s.last && s.visits[i].checkedAt <= s.last[s.visits[i].domain])
  }

  ghost predicate VisitInv(s: State) {
    forall i | 0 <= i < |s.visits| ::
      var v := s.visits[i];
      v.consumer < |s.consumers| && v.checkedAt <= v.dueAt
      && match v.release
         case Pending => s.consumers[v.consumer] == Sleeping(i)
         case At(t) => v.dueAt <= t <= s.now
  }

  ghost predicate SleeperInv(s: State) {
    forall j | 0 <= j < |s.consumers| && s.consumers[j].Sleeping? ::
      var i := s.consumers[j].visit;
      i < |s.visits| && s.visits[i].consumer == j && s.visits[i].release.Pending?
  }

  /** A later visit to the same domain is due at least the delay after every earlier check of the domain. */
  ghost predicate DueInv(delay: nat, s: State) {
    forall i, j | 0 <= i < j < |s.visits| && s.visits[i].domain == s.visits[j].domain != "" ::
      s.visits[j].dueAt >= s.visits[i].checkedAt + delay
  }

  /** A consumer makes its next call only after its previous one has released. */
  ghost predicate SequentialInv(s: State) {
    forall i, j | 0 <= i < j < |s.visits| && s.visits[i].consumer == s.visits[j].consumer ::
      s.visits[i].release.At? && s.visits[i].release.time <= s.visits[j].checkedAt
  }

  ghost predicate Inv(delay: nat, s: State) {
    TableInv(s) && VisitInv(s) && SleeperInv(s) && DueInv(delay, s) && SequentialInv(s)
  }

  /** A check leaves the table no older than it was and asks to be due the delay after the stored time. */
  lemma EnforceBound(last: Clock, delay: nat, domain: Domain, now: int)
    requires forall d | d in last :: last[d] <= now
    ensures var (stored, wait) := Enforce(last, delay, domain, now);
      && (forall d | d in last :: d in stored && last[d] <= stored[d])
      && (forall d | d in stored :: stored[d] <= now)
      && (domain != "" ==> domain in stored && stored[domain] == now)
      && (domain != "" && domain in last ==> now + wait >= last[domain] + delay)
  {
  }

  lemma CheckKeepsTables(delay: nat, s: State, j: nat, d: Domain)
    requires TableInv(s) && VisitInv(s) && SleeperInv(s) && Enabled(s, Check(j, d))
    ensures var s' := Apply(delay, s, Check(j, d)); TableInv(s') && VisitInv(s') && SleeperInv(s')
  {
    EnforceBound(s.last, delay, d, s.now);
    var s' := Apply(delay, s, Check(j, d));
    assert forall i | 0 <= i < |s.visits| :: s'.visits[i] == s.visits[i];
  }

  lemma CheckKeepsOrder(delay: nat, s: State, j: nat, d: Domain)
    requires Inv(delay, s) && Enabled(s, Check(j, d))
    ensures var s' := Apply(delay, s, Check(j, d)); DueInv(delay, s') && SequentialInv(s')
  {
    EnforceBound(s.last, delay, d, s.now);
    var s' := Apply(delay, s, Check(j, d));
    var n := |s.visits|;
    assert forall i | 0 <= i < n :: s'.visits[i] == s.visits[i];
    forall i | 0 <= i < n && s.visits[i].consumer == j
      ensures s.visits[i].release.At? && s.visits[i].release.time <= s.now
    {
      assert s.consumers[j].Idle? && !s.visits[i].release.Pending?;
    }
  }

  lemma FireInv(delay: nat, s: State, j: nat)
    requires Inv(delay, s) && Enabled(s, Fire(j))
    ensures Inv(delay, Apply(delay, s, Fire(j)))
  {
    var s' := Apply(delay, s, Fire(j));
    var v := s.consumers[j].visit;
    assert s.visits[v].release.Pending? && s.visits[v].consumer == j;
    assert forall i | 0 <= i < |s.visits| && i != v :: s'.visits[i] == s.visits[i];
  }

  lemma StepInv(delay: nat, s: State, e: Event)
    requires Inv(delay, s) && Enabled(s, e)
    ensures Inv(delay, Apply(delay, s, e))
  {
    match e
    case Tick(amount) =>
    case Check(j, d) =>
      CheckKeepsTables(delay, s, j, d);
      CheckKeepsOrder(delay, s, j, d);
    case Fire(j) => FireInv(delay, s, j);
  }

  lemma {:induction false} RunInv(delay: nat, run: seq<State>, k: nat)
    requires IsRun(delay, run) && k < |run|
    ensures Inv(delay, run[k]) && |run[k].consumers| == |run[0].consumers|
  {
    if k > 0 {
      RunInv(delay, run, k - 1);
      assert Next(delay, run[k - 1], run[k - 1 + 1]);
      var e :| Enabled(run[k - 1], e) && run[k] == Apply(delay, run[k - 1], e);
      StepInv(delay, run[k - 1], e);
    }
  }

  // The rate bound.

  predicate ReleasedIn(v: Visit, domain: Domain, from: int, until: int) {
    v.domain == domain && v.release.At? && from <= v.release.time < until
  }

  /** The visits to `domain` that were released in the half-open window. */
  ghost function Releases(s: State, domain: Domain, from: int, until: int): set<nat> {
    set i: nat | i < |s.visits| && ReleasedIn(s.visits[i], domain, from, until)
  }

  ghost function Greatest(s: set<nat>): (m: nat)
    requires s != {}
    ensures m in s && forall x | x in s :: x <= m
  {
    var x :| x in s;
    if s - {x} == {} then
      assert s == {x};
      x
    else
      var m := Greatest(s - {x});
      assert s == (s - {x}) + {x};
      if m < x then x else m
  }

  ghost function Who(s: State): nat -> nat {
    (i: nat) => if i < |s.visits| then s.visits[i].consumer else 0
  }

  /** In any half-open window of length `delay`, at most one more entry of a domain is released than there are
      consumers. */
  lemma RateBound(delay: nat, run: seq<State>, k: nat, domain: Domain, from: int)
    requires IsRun(delay, run) && k < |run| && domain != ""
    ensures |Releases(run[k], domain, from, from + delay)| <= |run[k].consumers| + 1
  {
    RunInv(delay, run, k);
    var s := run[k];
    var released := Releases(s, domain, from, from + delay);
    if released != {} {
      var last := Greatest(released);
      var earlier := released - {last};
      var who := Who(s);
      // Every earlier one had checked before the window began and was released in it: they slept together.
      forall i | i in earlier ensures s.visits[i].checkedAt < from {
        assert s.visits[last].dueAt >= s.visits[i].checkedAt + delay;
      }
      forall i, j | i in earlier && j in earlier && who(i) == who(j) ensures i == j {
        assert !(i < j) && !(j < i);
      }
      PigeonHole<nat>(earlier, who, |s.consumers|);
      assert |released| == |earlier| + 1;
    }
  }

  // A single consumer.

  /** A consumer that works alone leaves at least the delay between a release and the next but one. */
  lemma EveryOtherGap(delay: nat, s: State, a: nat, b: nat, c: nat)
    requires Inv(delay, s) && |s.consumers| == 1 && a < b < c < |s.visits|
    requires s.visits[a].domain == s.visits[b].domain == s.visits[c].domain != "" && s.visits[c].release.At?
    ensures s.visits[a].release.At? && s.visits[c].release.time >= s.visits[a].release.time + delay
  {
    assert s.visits[a].consumer == s.visits[b].consumer == 0;
    assert s.visits[c].dueAt >= s.visits[b].checkedAt + delay;
  }

  /** `picks` are increasing positions of released visits to `domain`. */
  ghost predicate ReleasedVisits(s: State, domain: Domain, picks: seq<nat>) {
    && (forall i | 0 <= i < |picks| ::
          picks[i] < |s.visits| && s.visits[picks[i]].domain == domain && s.visits[picks[i]].release.At?)
    && (forall i, j | 0 <= i < j < |picks| :: picks[i] < picks[j])
  }

  lemma {:induction false} SpanFrom(delay: nat, s: State, domain: Domain, picks: seq<nat>)
    requires Inv(delay, s) && |s.consumers| == 1 && domain != "" && picks != [] && ReleasedVisits(s, domain, picks)
    ensures s.visits[picks[|picks| - 1]].release.time - s.visits[picks[0]].release.time >= ((|picks| - 1) / 2) * delay
    decreases |picks|
  {
    var n := |picks|;
    if n == 2 {
      assert s.visits[picks[0]].consumer == s.visits[picks[1]].consumer == 0;
    } else if n > 2 {
      EveryOtherGap(delay, s, picks[n - 3], picks[n - 2], picks[n - 1]);
      SpanFrom(delay, s, domain, picks[..n - 2]);
      OneMoreDelay(n, delay);
    }
  }

  lemma OneMoreDelay(n: nat, delay: nat)
    requires n > 2
    ensures ((n - 1) / 2) * delay == ((n - 3) / 2) * delay + delay
  {
    var h := (n - 3) / 2;
    assert (n - 1) / 2 == h + 1;
    assert (h + 1) * delay == h * delay + delay;
  }

  /** `n` releases of one domain by a single consumer span at least `floor((n - 1) / 2)` delays. */
  lemma SingleConsumerSpan(delay: nat, run: seq<State>, k: nat, domain: Domain, picks: seq<nat>)
    requires IsRun(delay, run) && k < |run| && |run[0].consumers| == 1
    requires domain != "" && picks != [] && ReleasedVisits(run[k], domain, picks)
    ensures var v := run[k].visits;
      v[picks[|picks| - 1]].release.time - v[picks[0]].release.time >= ((|picks| - 1) / 2) * delay
  {
    RunInv(delay, run, k);
    SpanFrom(delay, run[k], domain, picks);
  }

  // The gap between consecutive visits.

  /** The time of the last check of `domain`, if there was one. */
  function LatestCheck(visits: seq<Visit>, domain: Domain): Release {
    if visits == [] then Pending
    else
      var v := visits[|visits| - 1];
      if v.domain == domain then At(v.checkedAt) else LatestCheck(visits[..|visits| - 1], domain)
  }

  /** When a check at `now` is due if the last one before it was at `latest`. */
  function Due(delay: nat, latest: Release, now: int): int {
    match latest
    case Pending => now
    case At(t) => if now - t >= delay then now else t + delay
  }

  /** The table holds exactly the time of each domain's last check. */
  ghost predicate ExactTable(s: State) {
    forall d | d != "" :: LatestCheck(s.visits, d) == if d in s.last then At(s.last[d]) else Pending
  }

  /** A visit is due when the last check of its domain says; one without a domain is due at once. */
  ghost predicate ExactDue(delay: nat, visits: seq<Visit>) {
    && (forall j | 0 <= j < |visits| && visits[j].domain != "" ::
          visits[j].dueAt == Due(delay, LatestCheck(visits[..j], visits[j].domain), visits[j].checkedAt))
    && (forall j | 0 <= j < |visits| && visits[j].domain == "" :: visits[j].dueAt == visits[j].checkedAt)
  }

  ghost predicate SameChecks(a: seq<Visit>, b: seq<Visit>) {
    |a| == |b| && forall i | 0 <= i < |a| ::
      a[i].domain == b[i].domain && a[i].checkedAt == b[i].checkedAt && a[i].dueAt == b[i].dueAt
  }

  lemma {:induction false} LatestCheckSame(a: seq<Visit>, b: seq<Visit>, domain: Domain)
    requires SameChecks(a, b)
    ensures LatestCheck(a, domain) == LatestCheck(b, domain)
  {
    if a != [] {
      LatestCheckSame(a[..|a| - 1], b[..|b| - 1], domain);
    }
  }

  /** A release changes no check. */
  lemma FireKeepsExact(delay: nat, s: State, j: nat)
    requires ExactTable(s) && ExactDue(delay, s.visits) && Enabled(s, Fire(j))
    ensures var s' := Apply(delay, s, Fire(j)); ExactTable(s') && ExactDue(delay, s'.visits)
  {
    var s' := Apply(delay, s, Fire(j));
    forall d | d != "" ensures LatestCheck(s'.visits, d) == LatestCheck(s.visits, d) {
      LatestCheckSame(s'.visits, s.visits, d);
    }
    forall i | 0 <= i < |s.visits| && s'.visits[i].domain != ""
      ensures s'.visits[i].dueAt == Due(delay, LatestCheck(s'.visits[..i], s'.visits[i].domain), s'.visits[i].checkedAt)
    {
      LatestCheckSame(s'.visits[..i], s.visits[..i], s.visits[i].domain);
    }
  }

  lemma CheckKeepsExact(delay: nat, s: State, j: nat, d: Domain)
    requires ExactTable(s) && ExactDue(delay, s.visits) && Enabled(s, Check(j, d))
    ensures var s' := Apply(delay, s, Check(j, d)); ExactTable(s') && ExactDue(delay, s'.visits)
  {
    var s', n := Apply(delay, s, Check(j, d)), |s.visits|;
    assert s'.visits[..n] == s.visits;
    forall i | 0 <= i < n && s.visits[i].domain != ""
      ensures s'.visits[i].dueAt == Due(delay, LatestCheck(s'.visits[..i], s'.visits[i].domain), s'.visits[i].checkedAt)
    {
      assert s'.visits[..i] == s.visits[..i] && s'.visits[i] == s.visits[i];
    }
  }

  lemma {:induction false} RunExact(delay: nat, run: seq<State>, k: nat)
    requires IsRun(delay, run) && k < |run|
    ensures ExactTable(run[k]) && ExactDue(delay, run[k].visits)
  {
    if k > 0 {
      RunExact(delay, run, k - 1);
      assert Next(delay, run[k - 1], run[k - 1 + 1]);
      var e :| Enabled(run[k - 1], e) && run[k] == Apply(delay, run[k - 1], e);
      match e
      case Tick(_) =>
      case Check(j, d) => CheckKeepsExact(delay, run[k - 1], j, d);
      case Fire(j) => FireKeepsExact(delay, run[k - 1], j);
    }
  }

  /** Visits `i` and `j` are to the same domain, with no visit to it in between. */
  ghost predicate Consecutive(visits: seq<Visit>, i: nat, j: nat) {
    && i < j < |visits| && visits[i].domain == visits[j].domain != ""
    && forall m | i < m < j :: visits[m].domain != visits[i].domain
  }

  lemma {:induction false} LatestIs(visits: seq<Visit>, i: nat, domain: Domain)
    requires i < |visits| && visits[i].domain == domain && forall m | i < m < |visits| :: visits[m].domain != domain
    ensures LatestCheck(visits, domain) == At(visits[i].checkedAt)
  {
    if i < |visits| - 1 {
      LatestIs(visits[..|visits| - 1], i, domain);
    }
  }

  /** The configured "minimum delay between requests to the same domain", for any number of consumers: in every run,
      two consecutive visits to a domain are due at least the delay apart exactly when the earlier one did not have to
      sleep, or the later one checks at least the delay after the earlier one was due; and with timers that fire on
      time, exactly then are they released the delay apart. */
  lemma ConsecutiveGapIff(delay: nat, run: seq<State>, k: nat, i: nat, j: nat)
    requires IsRun(delay, run) && k < |run| && Consecutive(run[k].visits, i, j)
    ensures var a, b := run[k].visits[i], run[k].visits[j];
      b.dueAt - a.dueAt >= delay <==> a.dueAt == a.checkedAt || b.checkedAt >= a.dueAt + delay
    ensures var a, b := run[k].visits[i], run[k].visits[j];
      a.release == At(a.dueAt) && b.release == At(b.dueAt) ==>
        (b.release.time - a.release.time >= delay <==> a.dueAt == a.checkedAt || b.checkedAt >= a.dueAt + delay)
  {
    RunInv(delay, run, k);
    RunExact(delay, run, k);
    var v := run[k].visits;
    LatestIs(v[..j], i, v[i].domain);
    assert v[j].dueAt == Due(delay, At(v[i].checkedAt), v[j].checkedAt);
    CheckedInOrder(delay, run, k, i, j);
  }

  /** Later visits check later. */
  lemma {:induction false} CheckedInOrder(delay: nat, run: seq<State>, k: nat, i: nat, j: nat)
    requires IsRun(delay, run) && k < |run| && i < j < |run[k].visits|
    ensures run[k].visits[i].checkedAt <= run[k].visits[j].checkedAt
  {
    if k > 0 {
      RunInv(delay, run, k - 1);
      assert Next(delay, run[k - 1], run[k - 1 + 1]);
      var e :| Enabled(run[k - 1], e) && run[k] == Apply(delay, run[k - 1], e);
      if j < |run[k - 1].visits| {
        CheckedInOrder(delay, run, k - 1, i, j);
      }
    }
  }

  /** Any two releases of one domain are at least the delay apart. */
  ghost predicate Polite(delay: nat, s: State) {
    forall i, j | 0 <= i < j < |s.visits| && s.visits[i].domain == s.visits[j].domain != ""
                  && s.visits[i].release.At? && s.visits[j].release.At? ::
      s.visits[j].release.time - s.visits[i].release.time >= delay
          || s.visits[i].release.time - s.visits[j].release.time >= delay
  }

  /** The visits are all to `domain`, and were released at these times. */
  ghost predicate ReleasesAre(s: State, domain: Domain, times: seq<int>) {
    |s.visits| == |times| && forall i | 0 <= i < |times| ::
        s.visits[i].domain == domain && s.visits[i].release == At(times[i])
  }

  /** A whole call of the first consumer with nobody else moving and an exact timer: check, sleep, release. */
  function Called(delay: nat, s: State, domain: Domain): State
    requires PastClock(s)
  {
    var (last, wait) := Enforce(s.last, delay, domain, s.now);
    var due := s.now + wait;
    State(due, last, s.consumers, s.visits + [Visit(0, domain, s.now, due, At(due))])
  }

  lemma CallMoves(delay: nat, s: State, domain: Domain) returns (checked: State, slept: State)
    requires PastClock(s) && s.consumers != [] && s.consumers[0] == Idle
    ensures Next(delay, s, checked) && Next(delay, checked, slept) && Next(delay, slept, Called(delay, s, domain))
  {
    var wait := Enforce(s.last, delay, domain, s.now).1;
    checked := Apply(delay, s, Check(0, domain));
    slept := Apply(delay, checked, Tick(wait));
    Moves(delay, s, Check(0, domain), checked);
    Moves(delay, checked, Tick(wait), slept);
    var end := Apply(delay, slept, Fire(0));
    assert end.consumers == s.consumers;
    assert end == Called(delay, s, domain);
    Moves(delay, slept, Fire(0), end);
  }

  lemma CallExtends(delay: nat, run: seq<State>, domain: Domain) returns (longer: seq<State>)
    requires IsRun(delay, run)
    requires var s := run[|run| - 1]; PastClock(s) && s.consumers != [] && s.consumers[0] == Idle
    ensures IsRun(delay, longer) && longer[0] == run[0]
    ensures longer[|longer| - 1] == Called(delay, run[|run| - 1], domain)
  {
    var s := run[|run| - 1];
    var checked, slept := CallMoves(delay, s, domain);
    longer := run + [checked, slept, Called(delay, s, domain)];
    forall k | 0 <= k < |longer| - 1 ensures Next(delay, longer[k], longer[k + 1]) {
      if k < |run| - 1 {
        assert longer[k] == run[k] && longer[k + 1] == run[k + 1];
      }
    }
  }

  /** The second call checks at 0 as well and is due at `delay`; the third checks at `delay`, finds the stored time 0
      old enough, and is due at once. */
  lemma ThreeCalls(delay: nat, consumers: seq<ConsumerPc>, domain: Domain)
    requires delay > 0 && domain != ""
    ensures var s1 := Called(delay, State(0, map[], consumers, []), domain);
      var r0, r1 := Visit(0, domain, 0, 0, At(0)), Visit(0, domain, 0, delay, At(delay));
      var r2 := Visit(0, domain, delay, delay, At(delay));
      && s1 == State(0, map[domain := 0], consumers, [r0])
      && Called(delay, s1, domain) == State(delay, map[domain := 0], consumers, [r0, r1])
      && Called(delay, Called(delay, s1, domain), domain) == State(delay, map[domain := delay], consumers, [r0, r1, r2])
  {
    assert map[domain := 0][domain := 0] == map[domain := 0]
        && map[domain := 0][domain := delay] == map[domain := delay];
    assert Enforce(map[], delay, domain, 0) == (map[domain := 0], 0);
    assert Enforce(map[domain := 0], delay, domain, 0) == (map[domain := 0], delay);
    assert Enforce(map[domain := 0], delay, domain, delay) == (map[domain := delay], 0);
  }

  /** A consumer that calls three times in a row, as fast as it can, is released at 0, at `delay` and at `delay`. */
  lemma ConsecutiveGapCounterexample(delay: nat, consumers: nat, domain: Domain) returns (run: seq<State>)
    requires delay > 0 && consumers > 0 && domain != ""
    ensures IsRun(delay, run) && |run[0].consumers| == consumers
    ensures ReleasesAre(run[|run| - 1], domain, [0, delay, delay])
  {
    var idle := seq(consumers, _ => Idle);
    ThreeCalls(delay, idle, domain);
    run := [State(0, map[], idle, [])];
    run := CallExtends(delay, run, domain);
    run := CallExtends(delay, run, domain);
    run := CallExtends(delay, run, domain);
  }

  lemma Moves(delay: nat, s: State, e: Event, s': State)
    requires Enabled(s, e) && s' == Apply(delay, s, e)
    ensures Next(delay, s, s')
  {
  }

  /** The promise as it reads is kept by every run only when there is nothing to keep: no delay, or no consumer. */
  lemma AlwaysPoliteIff(delay: nat, consumers: nat)
    ensures (forall run: seq<State> | IsRun(delay, run) && |run[0].consumers| == consumers ::
        Polite(delay, run[|run| - 1])) <==>
            delay == 0 || consumers == 0
  {
    if delay > 0 && consumers > 0 {
      var run := ConsecutiveGapCounterexample(delay, consumers, "example.com");
      var s := run[|run| - 1];
      assert s.visits[1].release == At(delay) && s.visits[2].release == At(delay);
      assert !Polite(delay, s);
    } else if consumers == 0 {
      forall run: seq<State> | IsRun(delay, run) && |run[0].consumers| == consumers
        ensures Polite(delay, run[|run| - 1])
      {
        RunInv(delay, run, |run| - 1);
      }
    }
  }
}
