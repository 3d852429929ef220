/** The Redis score of `pkg/frontier/redis.go`: a float64 that encodes (priority, discovery time in milliseconds). */
module Score {
  import PQ = PriorityQueue

  const BAND: int := 10_000_000_000_000
  const EXACT_LIMIT: int := 0x20_0000_0000_0000

  /** The integer that is converted to float64. */
  function ScoreInt(priority: int, millis: int): int {
    priority * BAND + millis
  }

  /** The multiple of `unit` nearest to `x`, ties to even. */
  function NearestEven(x: nat, unit: nat): nat
    requires unit > 0
  {
    var q, rem := x / unit, x % unit;
    if 2 * rem < unit || (2 * rem == unit && q % 2 == 0) then q * unit else (q + 1) * unit
  }

  /** Conversion to float64: 53 significant bits, so the unit doubles until they suffice. */
  function RoundFrom(x: nat, unit: nat): nat
    requires unit > 0
    decreases x - EXACT_LIMIT * unit
  {
    if x <= EXACT_LIMIT * unit then NearestEven(x, unit) else RoundFrom(x, 2 * unit)
  }

  function Float64(x: int): int {
    if x >= 0 then RoundFrom(x, 1) else 0 - RoundFrom(0 - x, 1)
  }

  function ScoreFor(priority: int, millis: int): int {
    Float64(ScoreInt(priority, millis))
  }

  lemma SmallIsExact(x: nat)
    requires x <= EXACT_LIMIT
    ensures Float64(x) == x
  {
    assert x / 1 == x && x % 1 == 0;
  }

  predicate InRange(priority: int, millis: int) {
    0 <= priority <= 899 && 0 <= millis < BAND
  }

  /** The score is exact, and below 2^53. */
  lemma ScoreExact(priority: int, millis: int)
    requires InRange(priority, millis)
    ensures 0 <= ScoreInt(priority, millis) < EXACT_LIMIT && ScoreFor(priority, millis) == ScoreInt(priority, millis)
  {
    SmallIsExact(ScoreInt(priority, millis));
  }

  predicate LexLess(p1: int, m1: int, p2: int, m2: int) {
    p1 < p2 || (p1 == p2 && m1 < m2)
  }

  /** The order of scores is exactly the lexicographic order. */
  lemma ScoreOrder(p1: int, m1: int, p2: int, m2: int)
    requires InRange(p1, m1) && InRange(p2, m2)
    ensures ScoreFor(p1, m1) < ScoreFor(p2, m2) <==> LexLess(p1, m1, p2, m2)
  {
    ScoreExact(p1, m1);
    ScoreExact(p2, m2);
  }

  /** All priorities from 0 to `top` keep the order, over the whole band of discovery times. */
  ghost predicate OrderKept(top: int) {
    forall p1, m1, p2, m2 | 0 <= p1 <= top && 0 <= p2 <= top && 0 <= m1 < BAND && 0 <= m2 < BAND ::
      ScoreFor(p1, m1) < ScoreFor(p2, m2) <==> LexLess(p1, m1, p2, m2)
  }

  /** 2^53 and 2^53 + 1 become the same float64. */
  lemma FirstCollision()
    ensures ScoreFor(900, 7_199_254_740_992) == ScoreFor(900, 7_199_254_740_993)
  {
    SmallIsExact(EXACT_LIMIT);
    assert ScoreInt(900, 7_199_254_740_992) == EXACT_LIMIT;
    var x := EXACT_LIMIT + 1;
    assert x / 2 == EXACT_LIMIT / 2 && x % 2 == 1;
    assert NearestEven(x, 2) == EXACT_LIMIT;
    assert RoundFrom(x, 1) == RoundFrom(x, 2) == NearestEven(x, 2);
  }

  /** 899 is the exact limit: the order is kept for all priorities up to `top` if and only if `top` is at most 899. */
  lemma OrderKeptIff(top: int)
    ensures OrderKept(top) <==> top <= 899
  {
    if top <= 899 {
      forall p1, m1, p2, m2 | 0 <= p1 <= top && 0 <= p2 <= top && 0 <= m1 < BAND && 0 <= m2 < BAND
        ensures ScoreFor(p1, m1) < ScoreFor(p2, m2) <==> LexLess(p1, m1, p2, m2)
      {
        ScoreOrder(p1, m1, p2, m2);
      }
    } else {
      FirstCollision();
      assert LexLess(900, 7_199_254_740_992, 900, 7_199_254_740_993);
    }
  }

  const NANOS_PER_MILLI: int := 1_000_000

  /** The entry as the score sees it: discovery time cut to milliseconds. */
  function Truncated(e: PQ.Entry): PQ.Entry {
    e.(discoveredAt := e.discoveredAt / NANOS_PER_MILLI)
  }

  function ScoreOf(e: PQ.Entry): int {
    ScoreFor(e.priority, Truncated(e).discoveredAt)
  }

  predicate EntryInRange(e: PQ.Entry) {
    InRange(e.priority, Truncated(e).discoveredAt)
  }

  /** For every set of queued entries, what Redis may pop (an entry of least score) is exactly what the in-memory
      queue may pop (an entry with none before it), with discovery times cut to milliseconds. */
  lemma SameMinimum(e: PQ.Entry, queued: set<PQ.Entry>)
    requires e in queued && forall x | x in queued :: EntryInRange(x)
    ensures (forall x | x in queued :: ScoreOf(e) <= ScoreOf(x)) <==>
            (forall x | x in queued :: PQ.AtMost(Truncated(e), Truncated(x)))
  {
    forall x | x in queued ensures ScoreOf(e) <= ScoreOf(x) <==> PQ.AtMost(Truncated(e), Truncated(x)) {
      ScoreOrder(x.priority, Truncated(x).discoveredAt, e.priority, Truncated(e).discoveredAt);
    }
  }
}
