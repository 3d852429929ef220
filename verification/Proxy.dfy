/** Proxy selection and health tracking of `pkg/middleware/proxy.go`. */
module Proxy {
  import opened Collections
  import opened Tally

  // Weighted selection.

  datatype Slot = Slot(idx: nat, weight: nat)

  datatype Choice = Chosen(idx: nat) | Fallback(idx: nat)

  /** `NewProxyRotation` turns weights that are not positive into 1. */
  function Normalised(weight: int): nat {
    if weight <= 0 then 1 else weight
  }

  /** The healthy proxies among the first `n`, with their weights. */
  function PoolOf(weights: seq<int>, healthy: seq<bool>, n: nat): seq<Slot>
    requires |weights| == |healthy| && n <= |weights|
  {
    if n == 0 then []
    else PoolOf(weights, healthy, n - 1) + (if healthy[n - 1] then [Slot(n - 1, Normalised(weights[n - 1]))] else [])
  }

  function Total(pool: seq<Slot>): nat {
    if pool == [] then 0 else pool[0].weight + Total(pool[1..])
  }

  /** The walk over the pool for the draw `r`; `Fallback` is the return after the loop. */
  function Select(pool: seq<Slot>, r: nat): Choice
    requires pool != []
  {
    if r < pool[0].weight then Chosen(pool[0].idx)
    else if |pool| == 1 then Fallback(pool[0].idx)
    else Select(pool[1..], r - pool[0].weight)
  }

  lemma {:induction false} TotalSnoc(pool: seq<Slot>, s: Slot)
    ensures Total(pool + [s]) == Total(pool) + s.weight
  {
    if pool == [] {
      assert pool + [s] == [s];
    } else {
      TotalSnoc(pool[1..], s);
      assert (pool + [s])[1..] == pool[1..] + [s];
    }
  }

  /** `pickWeighted`, where `draw` is the random number below the total (any number, if the total is zero). */
  method PickWeighted(weights: seq<int>, healthy: seq<bool>, draw: nat) returns (picked: Option<Choice>)
    requires |weights| == |healthy|
    requires var total := Total(PoolOf(weights, healthy, |weights|)); total > 0 ==> draw < total
    ensures var pool := PoolOf(weights, healthy, |weights|);
      picked == if Total(pool) == 0 then None else Some(Select(pool, draw))
  {
    var pool: seq<Slot> := [];
    var total := 0;
    for i := 0 to |weights|
      invariant pool == PoolOf(weights, healthy, i) && total == Total(pool)
    {
      if healthy[i] {
        var slot := Slot(i, Normalised(weights[i]));
        TotalSnoc(pool, slot);
        pool := pool + [slot];
        total := total + slot.weight;
      }
    }
    if total == 0 {
      return None;
    }
    var r := draw;
    for k := 0 to |pool|
      invariant r >= 0 && (k < |pool| ==> Select(pool[k..], r) == Select(pool, draw))
      invariant k == |pool| ==> Select(pool, draw) == Fallback(pool[|pool| - 1].idx)
    {
      assert pool[k..][0] == pool[k] && pool[k..][1..] == pool[k + 1..];
      if r - pool[k].weight < 0 {
        return Some(Chosen(pool[k].idx));
      }
      r := r - pool[k].weight;
    }
    return Some(Fallback(pool[|pool| - 1].idx));
  }

  /** The return after the loop is never reached: every draw below the total stops inside it. */
  lemma {:induction false} FallbackUnreachable(pool: seq<Slot>, r: nat)
    requires r < Total(pool)
    ensures pool != [] && Select(pool, r).Chosen?
  {
    if r >= pool[0].weight {
      FallbackUnreachable(pool[1..], r - pool[0].weight);
    }
  }

  /** The draws that select proxy `i`. */
  ghost function Draws(pool: seq<Slot>, i: nat): set<nat> {
    set r: nat | r < Total(pool) && pool != [] && Select(pool, r) == Chosen(i)
  }

  ghost predicate DistinctSlots(pool: seq<Slot>) {
    forall j, k | 0 <= j < k < |pool| :: pool[j].idx != pool[k].idx
  }

  function WeightIn(pool: seq<Slot>, i: nat): nat {
    if pool == [] then 0 else if pool[0].idx == i then pool[0].weight else WeightIn(pool[1..], i)
  }

  /** The numbers below `n`. */
  ghost function Upto(n: nat): (s: set<nat>)
    ensures |s| == n && forall x: nat :: x in s <==> x < n
  {
    if n == 0 then {} else Upto(n - 1) + {n - 1}
  }

  function Shift(d: nat): nat -> nat {
    (r: nat) => r + d
  }

  lemma {:induction false} AbsentNeverDrawn(pool: seq<Slot>, i: nat, r: nat)
    requires pool != [] && forall k | 0 <= k < |pool| :: pool[k].idx != i
    ensures Select(pool, r) != Chosen(i)
  {
    if r >= pool[0].weight && |pool| > 1 {
      AbsentNeverDrawn(pool[1..], i, r - pool[0].weight);
    }
  }

  /** Draws over a pool: those that stop at the first slot, and the shifted draws over the rest. */
  lemma DrawsSplit(pool: seq<Slot>, i: nat)
    requires pool != []
    ensures Draws(pool, i) ==
      (if pool[0].idx == i then Upto(pool[0].weight) else {})
      + (set r: nat | r in Draws(pool[1..], i) :: Shift(pool[0].weight)(r))
  {
    var w := pool[0].weight;
    forall r: nat | r in Draws(pool, i) && r >= w ensures r in set x: nat | x in Draws(pool[1..], i) :: Shift(w)(x) {
      assert r - w in Draws(pool[1..], i) && Shift(w)(r - w) == r;
    }
  }

  lemma NoDraws(pool: seq<Slot>, i: nat)
    requires forall k | 0 <= k < |pool| :: pool[k].idx != i
    ensures Draws(pool, i) == {}
  {
    forall r: nat ensures r !in Draws(pool, i) {
      if pool != [] {
        AbsentNeverDrawn(pool, i, r);
      }
    }
  }

  /** Of the `Total` possible draws, exactly as many select a proxy as its weight says. */
  lemma {:induction false} DrawsAreWeights(pool: seq<Slot>, i: nat)
    requires DistinctSlots(pool)
    ensures |Draws(pool, i)| == WeightIn(pool, i)
  {
    if pool != [] {
      var w, rest := pool[0].weight, pool[1..];
      DrawsSplit(pool, i);
      if pool[0].idx == i {
        NoDraws(rest, i);
        assert Draws(pool, i) == Upto(w);
      } else {
        DrawsAreWeights(rest, i);
        var shifted := set r: nat | r in Draws(rest, i) :: Shift(w)(r);
        SameSize(Draws(rest, i), shifted, Shift(w));
        assert Draws(pool, i) == shifted;
      }
    }
  }

  lemma {:induction false} WeightSnoc(pool: seq<Slot>, s: Slot, i: nat)
    requires forall k | 0 <= k < |pool| :: pool[k].idx != s.idx
    ensures WeightIn(pool + [s], i) == if i == s.idx then s.weight else WeightIn(pool, i)
  {
    if pool == [] {
      assert pool + [s] == [s];
    } else {
      WeightSnoc(pool[1..], s, i);
      assert (pool + [s])[1..] == pool[1..] + [s];
    }
  }

  lemma {:induction false} PoolShape(weights: seq<int>, healthy: seq<bool>, n: nat)
    requires |weights| == |healthy| && n <= |weights|
    ensures var pool := PoolOf(weights, healthy, n);
      DistinctSlots(pool) && forall k | 0 <= k < |pool| :: pool[k].idx < n
  {
    if n > 0 {
      PoolShape(weights, healthy, n - 1);
    }
  }

  lemma {:induction false} PoolWeight(weights: seq<int>, healthy: seq<bool>, n: nat, i: nat)
    requires |weights| == |healthy| && n <= |weights|
    ensures WeightIn(PoolOf(weights, healthy, n), i) == if i < n && healthy[i] then Normalised(weights[i]) else 0
  {
    if n > 0 {
      var pool := PoolOf(weights, healthy, n - 1);
      PoolWeight(weights, healthy, n - 1, i);
      PoolShape(weights, healthy, n - 1);
      if healthy[n - 1] {
        WeightSnoc(pool, Slot(n - 1, Normalised(weights[n - 1])), i);
      } else {
        assert pool + [] == pool;
      }
    }
  }

  /** Weighted pick is exactly proportional: each healthy proxy is selected by exactly as many of the possible draws
      as its weight, and an unhealthy one by none. */
  lemma ExactlyProportional(weights: seq<int>, healthy: seq<bool>, i: nat)
    requires |weights| == |healthy| && i < |weights|
    ensures |Draws(PoolOf(weights, healthy, |weights|), i)| ==
            if !healthy[i] then 0 else if weights[i] > 0 then weights[i] else 1
  {
    PoolShape(weights, healthy, |weights|);
    PoolWeight(weights, healthy, |weights|, i);
    DrawsAreWeights(PoolOf(weights, healthy, |weights|), i);
  }

  // Scanning from a base: round-robin and random start.

  /** The position `j` steps after `base`, going round. */
  function Around(n: nat, base: nat, j: nat): (p: nat)
    requires n > 0
    ensures p < n
  {
    (base + j) % n
  }

  /** `p` is the first healthy proxy from `base` on: the one `k` steps on. */
  ghost predicate FirstHealthy(healthy: seq<bool>, base: nat, p: nat, k: nat)
    requires |healthy| > 0
  {
    && k < |healthy| && p == Around(|healthy|, base, k) && healthy[p]
    && forall j: nat | j < k :: !healthy[Around(|healthy|, base, j)]
  }

  /** The scan shared by the round-robin and random modes: the first healthy proxy from `base` on, cyclically, and
      none exactly if no proxy is healthy. */
  method PickFrom(healthy: seq<bool>, base: nat) returns (picked: Option<nat>)
    requires base < |healthy|
    ensures picked.None? <==> forall i | 0 <= i < |healthy| :: !healthy[i]
    ensures picked.Some? ==> exists k :: FirstHealthy(healthy, base, picked.value, k)
  {
    var n := |healthy|;
    for i := 0 to n
      invariant forall j: nat | j < i :: !healthy[Around(n, base, j)]
    {
      var idx := Around(n, base, i);
      if healthy[idx] {
        assert FirstHealthy(healthy, base, idx, i);
        return Some(idx);
      }
    }
    forall i | 0 <= i < n ensures !healthy[i] {
      var j := Offset(n, base, i);
    }
    return None;
  }

  lemma Remainder(n: nat, q: int, r: nat)
    requires r < n
    ensures (n * q + r) % n == r
  {
    var x := n * q + r;
    var q', r' := x / n, x % n;
    assert x == n * q' + r';
    var d := q - q';
    assert n * d == n * q - n * q';
    assert n * d == r' - r;
    MultipleIsFar(n, d);
  }

  lemma MultipleIsFar(n: nat, d: int)
    ensures d >= 1 ==> n * d >= n
    ensures d <= -1 ==> n * d <= 0 - n
  {
    if d >= 1 {
      assert n * d == n + n * (d - 1) && n * (d - 1) >= 0;
    } else if d <= -1 {
      assert n * d == n * (d + 1) - n && n * (d + 1) <= 0;
    }
  }

  lemma AroundIs(n: nat, base: nat, j: nat)
    requires j < n
    ensures Around(n, base, j) == if base % n + j < n then base % n + j else base % n + j - n
  {
    var q, b := base / n, base % n;
    assert base == n * q + b;
    if b + j < n {
      Remainder(n, q, b + j);
    } else {
      Remainder(n, q + 1, b + j - n);
      assert n * (q + 1) == n * q + n;
    }
  }

  /** Going round from `base` meets every position exactly once. */
  lemma Offset(n: nat, base: nat, p: nat) returns (j: nat)
    requires p < n
    ensures j < n && Around(n, base, j) == p && forall k: nat | k < n && Around(n, base, k) == p :: k == j
  {
    var b := base % n;
    j := if p >= b then p - b else p - b + n;
    AroundIs(n, base, j);
    forall k: nat | k < n && Around(n, base, k) == p ensures k == j {
      AroundIs(n, base, k);
    }
  }

  const COUNTER_LIMIT: nat := 0x1_0000_0000_0000_0000

  /** The base of the round-robin scan when the counter has been incremented `c` times before. */
  function RoundRobinBase(c: nat, n: nat): nat
    requires n > 0
  {
    (c % COUNTER_LIMIT) % n
  }

  /** The pick at counter value `c` over these proxies is `p`. */
  ghost predicate Picks(c: nat, healthy: seq<bool>, p: nat) {
    |healthy| > 0 && exists k :: FirstHealthy(healthy, RoundRobinBase(c, |healthy|), p, k)
  }

  predicate AllHealthy(healthy: seq<bool>) {
    forall i | 0 <= i < |healthy| :: healthy[i]
  }

  lemma HealthyPicksBase(c: nat, healthy: seq<bool>, p: nat)
    requires |healthy| > 0 && AllHealthy(healthy)
    ensures Picks(c, healthy, p) <==> RoundRobinBase(c, |healthy|) == p
  {
    var n, base := |healthy|, RoundRobinBase(c, |healthy|);
    AroundIs(n, base, 0);
    assert base % n == base;
    assert FirstHealthy(healthy, base, base, 0);
    if Picks(c, healthy, p) {
      var k :| FirstHealthy(healthy, base, p, k);
      assert healthy[Around(n, base, 0)];
      assert k == 0;
    }
  }

  /** The `j`th pick of those that start at counter value `c` is `p`. */
  ghost predicate PicksAt(c: nat, healthy: seq<bool>, j: nat, p: nat) {
    Picks(c + j, healthy, p)
  }

  /** While every proxy is healthy and the 64-bit counter does not wrap, `n` consecutive picks over `n` proxies
      visit each proxy exactly once. */
  lemma RoundRobinFair(c: nat, healthy: seq<bool>, p: nat)
    requires p < |healthy| && AllHealthy(healthy) && c + |healthy| <= COUNTER_LIMIT
    ensures exists j: nat :: j < |healthy| && PicksAt(c, healthy, j, p)
                             && forall k: nat | k < |healthy| && PicksAt(c, healthy, k, p) :: k == j
  {
    var n := |healthy|;
    var j := Offset(n, c, p);
    forall k: nat | k < n ensures PicksAt(c, healthy, k, p) <==> Around(n, c, k) == p {
      NoWrap(c, n, k);
      HealthyPicksBase(c + k, healthy, p);
    }
    assert PicksAt(c, healthy, j, p);
  }

  lemma NoWrap(c: nat, n: nat, k: nat)
    requires n > 0 && c + k < COUNTER_LIMIT
    ensures RoundRobinBase(c + k, n) == Around(n, c, k)
  {
    assert (c + k) % COUNTER_LIMIT == c + k;
  }

  /** Across the wrap three proxies are not visited evenly: the last pick before it and the first after it are the
      same. */
  lemma WrapRepeatsAProxy()
    ensures RoundRobinBase(COUNTER_LIMIT - 1, 3) == 0 && RoundRobinBase(COUNTER_LIMIT, 3) == 0
  {
  }

  /** Every proxy is the base of one of the `n` scans that start at counter value `c`. */
  ghost predicate FairWindow(c: nat, n: nat)
    requires n > 0
  {
    forall p: nat | p < n :: HasTurn(c, n, p)
  }

  ghost predicate HasTurn(c: nat, n: nat, p: nat)
    requires n > 0
  {
    exists j: nat :: j < n && BaseAt(c, n, j) == p
  }

  function BaseAt(c: nat, n: nat, j: nat): nat
    requires n > 0
  {
    RoundRobinBase(c + j, n)
  }

  /** `n` scans that straddle the wrap are fair exactly if the number of proxies divides 2^64. */
  lemma WrapFairIff(c: nat, n: nat)
    requires 0 < n <= COUNTER_LIMIT && c < COUNTER_LIMIT < c + n
    ensures FairWindow(c, n) <==> COUNTER_LIMIT % n == 0
  {
    if COUNTER_LIMIT % n == 0 {
      forall p: nat | p < n ensures HasTurn(c, n, p) {
        var j := Offset(n, c, p);
        BaseBeforeAndAfter(c, n, j);
        if c + j >= COUNTER_LIMIT {
          SameRemainder(n, COUNTER_LIMIT / n, c + j - COUNTER_LIMIT);
        }
        assert BaseAt(c, n, j) == p;
      }
    } else {
      var p := MissedProxy(c, n);
      assert !HasTurn(c, n, p);
    }
  }

  lemma SameRemainder(n: nat, q: nat, r: nat)
    requires n > 0
    ensures (n * q + r) % n == r % n
  {
    var d, m := r / n, r % n;
    assert r == n * d + m;
    var t := q + d;
    assert n * t == n * q + n * d;
    Remainder(n, t, m);
  }

  lemma BaseBeforeAndAfter(c: nat, n: nat, j: nat)
    requires 0 < n <= COUNTER_LIMIT && c < COUNTER_LIMIT && j < n
    ensures BaseAt(c, n, j) == if c + j < COUNTER_LIMIT then (c + j) % n else (c + j - COUNTER_LIMIT) % n
  {
  }

  /** The remainder of a counter value `i` short of the limit. */
  lemma ShortOfLimit(n: nat, i: nat)
    requires 0 < i <= n <= COUNTER_LIMIT
    ensures (COUNTER_LIMIT - i) % n == COUNTER_LIMIT % n - i + if i <= COUNTER_LIMIT % n then 0 else n
  {
    var q, l := COUNTER_LIMIT / n, COUNTER_LIMIT % n;
    assert COUNTER_LIMIT == n * q + l;
    if i <= l {
      Remainder(n, q, l - i);
    } else {
      Remainder(n, q - 1, l - i + n);
      assert n * (q - 1) == n * q - n;
    }
  }

  /** When the number of proxies does not divide 2^64, some proxy gets no turn across the wrap. */
  lemma MissedProxy(c: nat, n: nat) returns (p: nat)
    requires 0 < n <= COUNTER_LIMIT && c < COUNTER_LIMIT < c + n && COUNTER_LIMIT % n != 0
    ensures p < n && forall j: nat | j < n :: BaseAt(c, n, j) != p
  {
    var before, l := COUNTER_LIMIT - c, COUNTER_LIMIT % n;
    p := if l <= before then l + n - before - 1 else n - 1;
    forall j: nat | j < n ensures BaseAt(c, n, j) != p {
      BaseBeforeAndAfter(c, n, j);
      if j < before {
        ShortOfLimit(n, before - j);
      } else {
        Remainder(n, 0, j - before);
      }
    }
  }

  // The middleware's own state.

  class Rotation {
    const maxFailures: nat
    var index: nat
    var failures: map<nat, nat>

    /** A limit that is not positive becomes 3. */
    constructor (limit: int)
      ensures maxFailures == (if limit <= 0 then 3 else limit) && index == 0 && failures == map[]
    {
      maxFailures := if limit <= 0 then 3 else limit;
      index := 0;
      failures := map[];
    }

    /** A proxy without a counter has not failed. */
    function FailuresOf(p: nat): nat
      reads this`failures
    {
      if p in failures then failures[p] else 0
    }

    /** A proxy without a counter is healthy. */
    predicate Healthy(p: nat)
      reads this`failures
    {
      p in failures ==> failures[p] < maxFailures
    }

    function Health(n: nat): (h: seq<bool>)
      reads this`failures
      ensures |h| == n && forall p: nat | p < n :: h[p] == Healthy(p)
    {
      if n == 0 then [] else Health(n - 1) + [Healthy(n - 1)]
    }

    /** The round-robin mode of `pick` over `n` proxies: the counter moves on, wrapping at 2^64, whether or not a
        proxy is found. */
    method PickRoundRobin(n: nat) returns (picked: Option<nat>)
      requires n > 0 && index < COUNTER_LIMIT && maxFailures > 0
      modifies this`index
      ensures index == (old(index) + 1) % COUNTER_LIMIT
      ensures picked.Some? ==> FailuresOf(picked.value) < maxFailures
      ensures picked.None? <==> forall p: nat | p < n :: FailuresOf(p) >= maxFailures
      ensures picked.Some? ==> Picks(old(index), Health(n), picked.value) && picked.value < n && Healthy(picked.value)
      ensures picked.None? <==> forall p: nat | p < n :: !Healthy(p)
    {
      var healthy := Health(n);
      var base := RoundRobinBase(index, n);
      index := (index + 1) % COUNTER_LIMIT;
      picked := PickFrom(healthy, base);
      assert forall p: nat | p < n :: healthy[p] <==> FailuresOf(p) < maxFailures;
      assert picked.None? <==> forall p: nat | p < n :: !healthy[p];
    }

    /** `recordResult`: one more consecutive failure, or back to zero; the counters of other proxies stay. */
    method RecordResult(p: nat, failed: bool)
      modifies this`failures
      ensures FailuresOf(p) == if failed then old(FailuresOf(p)) + 1 else 0
      ensures forall q: nat | q != p :: FailuresOf(q) == old(FailuresOf(q))
    {
      var count := if p in failures then failures[p] else 0;
      failures := failures[p := if failed then count + 1 else 0];
    }
  }

  // Health under concurrency.

  /** A request is flying from the moment its proxy was found healthy until its result is recorded. */
  datatype Pc = Idle | Flying(proxy: nat)

  datatype State = State(failures: seq<nat>, requests: seq<Pc>)

  datatype Event = Pick(t: nat, proxy: nat) | Record(t: nat, failed: bool)

  predicate Enabled(maxFailures: nat, s: State, e: Event) {
    match e
    case Pick(t, p) => t < |s.requests| && s.requests[t].Idle? && p < |s.failures| && s.failures[p] < maxFailures
    case Record(t, _) => t < |s.requests| && s.requests[t].Flying? && s.requests[t].proxy < |s.failures|
  }

  function Apply(maxFailures: nat, s: State, e: Event): State
    requires Enabled(maxFailures, s, e)
  {
    match e
    case Pick(t, p) => s.(requests := s.requests[t := Flying(p)])
    case Record(t, failed) =>
      var p := s.requests[t].proxy;
      State(s.failures[p := if failed then s.failures[p] + 1 else 0], s.requests[t := Idle])
  }

  ghost predicate Next(maxFailures: nat, s: State, s': State) {
    exists e :: Enabled(maxFailures, s, e) && s' == Apply(maxFailures, s, e)
  }

  ghost predicate IsRun(maxFailures: nat, run: seq<State>) {
    && |run| > 0
    && (forall i | 0 <= i < |run[0].failures| :: run[0].failures[i] == 0)
    && (forall t | 0 <= t < |run[0].requests| :: run[0].requests[t] == Idle)
    && forall k | 0 <= k < |run| - 1 :: Next(maxFailures, run[k], run[k + 1])
  }

  function FlyingOn(p: nat): Pc -> bool {
    (pc: Pc) => pc == Flying(p)
  }

  ghost predicate HealthInv(maxFailures: nat, s: State, p: nat) {
    p < |s.failures| ==> s.failures[p] + Count(s.requests, FlyingOn(p)) <= maxFailures - 1 + |s.requests|
  }

  lemma StepHealth(maxFailures: nat, s: State, e: Event, p: nat)
    requires maxFailures > 0 && Enabled(maxFailures, s, e) && HealthInv(maxFailures, s, p)
    ensures HealthInv(maxFailures, Apply(maxFailures, s, e), p)
  {
    var s' := Apply(maxFailures, s, e);
    CountUpdate(s.requests, e.t, s'.requests[e.t], FlyingOn(p));
    CountBound(s'.requests, FlyingOn(p));
  }

  /** With at most `m` requests in flight at once, no failure counter ever exceeds `maxFailures - 1 + m`. */
  lemma {:induction false} FailuresBounded(maxFailures: nat, run: seq<State>, k: nat, p: nat)
    requires maxFailures > 0 && IsRun(maxFailures, run) && k < |run| && p < |run[k].failures|
    ensures run[k].failures[p] <= maxFailures - 1 + |run[k].requests|
    ensures HealthInv(maxFailures, run[k], p)
  {
    if k == 0 {
      CountNone(run[0].requests, FlyingOn(p));
    } else {
      assert Next(maxFailures, run[k - 1], run[k - 1 + 1]);
      var e :| Enabled(maxFailures, run[k - 1], e) && run[k] == Apply(maxFailures, run[k - 1], e);
      FailuresBounded(maxFailures, run, k - 1, p);
      StepHealth(maxFailures, run[k - 1], e, p);
    }
  }

  // What the counters say.

  ghost predicate IsTrace(maxFailures: nat, run: seq<State>, events: seq<Event>) {
    && |run| == |events| + 1
    && (forall i | 0 <= i < |run[0].failures| :: run[0].failures[i] == 0)
    && (forall t | 0 <= t < |run[0].requests| :: run[0].requests[t] == Idle)
    && forall k | 0 <= k < |events| ::
         Enabled(maxFailures, run[k], events[k]) && run[k + 1] == Apply(maxFailures, run[k], events[k])
  }

  /** The results recorded for proxy `p` so far; `true` is a failure. */
  function Results(run: seq<State>, events: seq<Event>, k: nat, p: nat): seq<bool>
    requires k <= |events| < |run|
  {
    if k == 0 then []
    else
      var before, s, e := Results(run, events, k - 1, p), run[k - 1], events[k - 1];
      if e.Record? && e.t < |s.requests| && s.requests[e.t] == Flying(p) then before + [e.failed] else before
  }

  /** The last `n` results are failures, and the one before them, if there is one, is not. */
  ghost predicate FailedInARow(results: seq<bool>, n: nat) {
    && n <= |results|
    && (forall i | |results| - n <= i < |results| :: results[i])
    && (n < |results| ==> !results[|results| - n - 1])
  }

  /** A proxy's counter is the number of its consecutive failures up to now. */
  lemma {:induction false} CounterIsConsecutive(
    maxFailures: nat, run: seq<State>, events: seq<Event>, k: nat, p: nat)
    requires IsTrace(maxFailures, run, events) && k <= |events| && p < |run[k].failures|
    ensures FailedInARow(Results(run, events, k, p), run[k].failures[p])
  {
    if k > 0 {
      var s, e := run[k - 1], events[k - 1];
      assert Enabled(maxFailures, s, e) && run[k] == Apply(maxFailures, s, e);
      CounterIsConsecutive(maxFailures, run, events, k - 1, p);
    }
  }

  // The bound on the counters is reached.

  lemma Extended(maxFailures: nat, run: seq<State>, e: Event) returns (longer: seq<State>)
    requires IsRun(maxFailures, run) && Enabled(maxFailures, run[|run| - 1], e)
    ensures IsRun(maxFailures, longer) && longer[|longer| - 1] == Apply(maxFailures, run[|run| - 1], e)
    ensures longer[0] == run[0]
  {
    longer := run + [Apply(maxFailures, run[|run| - 1], e)];
    forall k | 0 <= k < |longer| - 1 ensures Next(maxFailures, longer[k], longer[k + 1]) {
      if k < |run| - 1 {
        assert longer[k] == run[k] && longer[k + 1] == run[k + 1];
      }
    }
  }

  /** One proxy with this counter, on which requests `from` to `until` of `m` are flying. */
  ghost predicate Alone(s: State, m: nat, from: nat, until: nat, failures: nat) {
    && s.failures == [failures] && |s.requests| == m
    && forall t | 0 <= t < m :: s.requests[t] == if from <= t < until then Flying(0) else Idle
  }

  /** With `m` requests at once the counter of a proxy can reach `maxFailures - 1 + m`: it is one short of the limit,
      all of them find it healthy, and all of them fail. */
  lemma BoundReached(maxFailures: nat, m: nat) returns (run: seq<State>)
    requires maxFailures > 0 && m > 0
    ensures IsRun(maxFailures, run) && |run[0].requests| == m && run[|run| - 1].failures == [maxFailures - 1 + m]
  {
    run := [State([0], seq(m, _ => Idle))];
    for i := 0 to maxFailures - 1
      invariant IsRun(maxFailures, run) && Alone(run[|run| - 1], m, 0, 0, i) && |run[0].requests| == m
    {
      run := Extended(maxFailures, run, Pick(0, 0));
      run := Extended(maxFailures, run, Record(0, true));
    }
    for t := 0 to m
      invariant IsRun(maxFailures, run) && Alone(run[|run| - 1], m, 0, t, maxFailures - 1) && |run[0].requests| == m
    {
      run := Extended(maxFailures, run, Pick(t, 0));
    }
    for t := 0 to m
      invariant IsRun(maxFailures, run) && Alone(run[|run| - 1], m, t, m, maxFailures - 1 + t) && |run[0].requests| == m
    {
      run := Extended(maxFailures, run, Record(t, true));
    }
  }
}
