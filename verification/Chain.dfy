/** The middleware chain of `pkg/middleware/chain.go` and the retry middleware of `pkg/middleware/retry.go`.

    A handler is a function of the outside world and the request; it returns the changed world and a result. The
    world lets two calls with the same request answer differently, which is what retrying is for, and carries the
    clock and the cancellation of the context. */
module Chain {

  datatype Response = Response(status: int, retryAfter: nat)

  datatype Result = Result(response: Response, failed: bool)

  datatype Reply<W> = Reply(world: W, result: Result)

  type NextFunc<!W, !R> = (W, R) -> Reply<W>

  type Middleware<!W, !R> = (W, R, NextFunc<W, R>) -> Reply<W>

  /** The closure that `Execute` makes in each round: `mw` around `inner`. */
  function Wrap<W, R>(mw: Middleware<W, R>, inner: NextFunc<W, R>): NextFunc<W, R> {
    (w, r) => mw(w, r, inner)
  }

  /** The chain as a right fold: the first middleware outermost, the handler innermost. */
  function Fold<W, R>(mws: seq<Middleware<W, R>>, handler: NextFunc<W, R>): NextFunc<W, R> {
    if mws == [] then handler else Wrap(mws[0], Fold(mws[1..], handler))
  }

  class MiddlewareChain<W, R> {
    var middlewares: seq<Middleware<W, R>>
    const handler: NextFunc<W, R>

    constructor (handler: NextFunc<W, R>)
      ensures middlewares == [] && this.handler == handler
    {
      this.handler := handler;
      middlewares := [];
    }

    /** The new middleware becomes the innermost: it is the one next to the handler. */
    method Use(mw: Middleware<W, R>)
      modifies this
      ensures middlewares == old(middlewares) + [mw]
      ensures Fold(middlewares, handler) == Fold(old(middlewares), Wrap(mw, handler))
    {
      FoldJoins(middlewares, [mw], handler);
      assert Fold([mw], handler) == Wrap(mw, Fold([mw][1..], handler));
      middlewares := middlewares + [mw];
    }

    /** `Execute`: the loop builds the chain from the inside out, and what it builds is the right fold. */
    method Execute(w: W, r: R) returns (reply: Reply<W>)
      ensures reply == Fold(middlewares, handler)(w, r)
    {
      if |middlewares| == 0 {
        return handler(w, r);
      }
      var next := handler;
      var i := |middlewares|;
      assert middlewares[i..] == [];
      while i > 0
        invariant 0 <= i <= |middlewares| && next == Fold(middlewares[i..], handler)
      {
        i := i - 1;
        var innerNext := next;
        assert middlewares[i..][1..] == middlewares[i + 1..];
        next := Wrap(middlewares[i], innerNext);
      }
      assert middlewares[0..] == middlewares;
      return next(w, r);
    }
  }

  /** Chains compose: running `a + b` around `h` is running `a` around the chain of `b` around `h`. */
  lemma {:induction false} FoldJoins<W, R>(a: seq<Middleware<W, R>>, b: seq<Middleware<W, R>>, h: NextFunc<W, R>)
    ensures Fold(a + b, h) == Fold(a, Fold(b, h))
  {
    if a == [] {
      assert a + b == b;
    } else {
      assert (a + b)[1..] == a[1..] + b;
      FoldJoins(a[1..], b, h);
    }
  }

  // Retrying.

  datatype Pause<W> = Pause(world: W, cancelled: bool)

  /** `retryable` are the status codes that are tried again; `sleep` waits for the backoff of an attempt, or is cut
      short by the context. */
  datatype RetryConfig<!W> = RetryConfig(maxRetries: nat, retryable: set<int>, sleep: (W, nat, Result) -> Pause<W>)

  predicate Acceptable<W>(c: RetryConfig<W>, r: Result) {
    !r.failed && r.response.status !in c.retryable
  }

  /** What `ProcessRequest` returns when it is cancelled while it sleeps: the last response, with an error. */
  function CutShort(r: Result): Result {
    Result(r.response, true)
  }

  /** The attempts from number `n` on, after `last` was not acceptable. */
  function Attempts<W, R>(c: RetryConfig<W>, w: W, r: R, next: NextFunc<W, R>, n: nat, last: Result): Reply<W>
    requires n <= c.maxRetries + 1
    decreases c.maxRetries + 1 - n
  {
    if n == c.maxRetries + 1 then Reply(w, last)
    else
      var pause := c.sleep(w, n, last);
      if pause.cancelled then Reply(pause.world, CutShort(last))
      else
        var reply := next(pause.world, r);
        if Acceptable(c, reply.result) then reply
        else Attempts(c, reply.world, r, next, n + 1, reply.result)
  }

  /** The retry middleware: attempt 0 without a pause, then up to `maxRetries` more. */
  function Retrying<W, R>(c: RetryConfig<W>): Middleware<W, R> {
    (w: W, r: R, next: NextFunc<W, R>) =>
      var reply := next(w, r);
      if Acceptable(c, reply.result) then reply
      else Attempts(c, reply.world, r, next, 1, reply.result)
  }

  /** `Retry.ProcessRequest`: the loop over the attempts. */
  method ProcessRequest<W, R>(c: RetryConfig<W>, w0: W, r: R, next: NextFunc<W, R>) returns (reply: Reply<W>)
    ensures reply == Retrying<W, R>(c)(w0, r, next)
  {
    var w, last := w0, Result(Response(0, 0), false);
    ghost var whole := Retrying<W, R>(c)(w0, r, next);
    for attempt := 0 to c.maxRetries + 1
      invariant attempt == 0 ==> w == w0
      invariant attempt > 0 ==> whole == Attempts(c, w, r, next, attempt, last)
    {
      if attempt > 0 {
        var pause := c.sleep(w, attempt, last);
        w := pause.world;
        if pause.cancelled {
          return Reply(w, CutShort(last));
        }
      }
      var answer := next(w, r);
      if Acceptable(c, answer.result) {
        return answer;
      }
      w, last := answer.world, answer.result;
    }
    return Reply(w, last);
  }

  /** The results of the attempts that are made, in order. */
  function Tried<W, R>(c: RetryConfig<W>, w: W, r: R, next: NextFunc<W, R>, n: nat): seq<Result>
    requires n <= c.maxRetries
    decreases c.maxRetries - n
  {
    var reply := next(w, r);
    if Acceptable(c, reply.result) || n == c.maxRetries then [reply.result]
    else
      var pause := c.sleep(reply.world, n + 1, reply.result);
      if pause.cancelled then [reply.result] else [reply.result] + Tried(c, pause.world, r, next, n + 1)
  }

  /** Some pause after the attempts from number `n` on is cut short. */
  predicate Interrupted<W, R>(c: RetryConfig<W>, w: W, r: R, next: NextFunc<W, R>, n: nat)
    requires n <= c.maxRetries
    decreases c.maxRetries - n
  {
    var reply := next(w, r);
    if Acceptable(c, reply.result) || n == c.maxRetries then false
    else
      var pause := c.sleep(reply.world, n + 1, reply.result);
      pause.cancelled || Interrupted(c, pause.world, r, next, n + 1)
  }

  /** One attempt and everything after it. */
  function From<W, R>(c: RetryConfig<W>, w: W, r: R, next: NextFunc<W, R>, n: nat): Reply<W>
    requires n <= c.maxRetries
  {
    var reply := next(w, r);
    if Acceptable(c, reply.result) then reply else Attempts(c, reply.world, r, next, n + 1, reply.result)
  }

  lemma {:induction false} FirstAcceptable<W, R>(c: RetryConfig<W>, w: W, r: R, next: NextFunc<W, R>, n: nat)
    requires n <= c.maxRetries
    ensures var tried := Tried(c, w, r, next, n);
      && 1 <= |tried| <= c.maxRetries + 1 - n
      && (forall i | 0 <= i < |tried| - 1 :: !Acceptable(c, tried[i]))
      && (!Interrupted(c, w, r, next, n) ==>
            && From(c, w, r, next, n).result == tried[|tried| - 1]
            && (Acceptable(c, tried[|tried| - 1]) || |tried| == c.maxRetries + 1 - n))
      && (Interrupted(c, w, r, next, n) ==> From(c, w, r, next, n).result == CutShort(tried[|tried| - 1]))
    decreases c.maxRetries - n
  {
    var reply := next(w, r);
    if !Acceptable(c, reply.result) && n < c.maxRetries {
      var pause := c.sleep(reply.world, n + 1, reply.result);
      if !pause.cancelled {
        FirstAcceptable(c, pause.world, r, next, n + 1);
      }
    }
  }

  /** A result that is tried again: an error, or a status that the configuration lists. */
  predicate TriedAgain<W>(c: RetryConfig<W>, r: Result) {
    r.failed || r.response.status in c.retryable
  }

  /** Every attempt that is followed by another failed or had a retryable status; the last one did neither, or it was
      the last of exactly `maxRetries + 1`, or its pause was cut short. What is returned is the last result, and if its
      pause was cut short, the last response with an error. */
  lemma RetryReturnsFirstAcceptable<W, R>(c: RetryConfig<W>, w: W, r: R, next: NextFunc<W, R>)
    ensures var tried := Tried(c, w, r, next, 0); var last := tried[|tried| - 1];
      var result := Retrying<W, R>(c)(w, r, next).result;
      && 1 <= |tried| <= c.maxRetries + 1
      && (forall i | 0 <= i < |tried| - 1 :: TriedAgain(c, tried[i]))
      && (if Interrupted(c, w, r, next, 0) then result.failed && result.response == last.response
          else result == last && (TriedAgain(c, last) ==> |tried| == c.maxRetries + 1))
  {
    FirstAcceptable(c, w, r, next, 0);
  }

  // How often the terminal handler is reached.

  /** What a layer does at a point where it may call `next`: answer by itself, or forward a request. */
  datatype Step<W, R> = Answer(reply: Reply<W>) | Forward(world: W, request: R)

  /** A middleware that calls `next` at most `limit` times. What it does depends on the world and the request it was
      called with and on the replies it has had from `next`: as long as there are fewer than `limit` it may forward
      once more, and with `limit` replies it has to finish. */
  datatype Layer<!W, !R> = Layer(
    limit: nat,
    decide: (W, R, seq<Reply<W>>) -> Step<W, R>,
    finish: (W, R, seq<Reply<W>>) -> Reply<W>
  )

  function Perform<W, R>(l: Layer<W, R>, w: W, r: R, next: NextFunc<W, R>, replies: seq<Reply<W>>): Reply<W>
    requires |replies| <= l.limit
    decreases l.limit - |replies|
  {
    if |replies| == l.limit then l.finish(w, r, replies)
    else
      match l.decide(w, r, replies)
      case Answer(reply) => reply
      case Forward(w1, r1) => Perform(l, w, r, next, replies + [next(w1, r1)])
  }

  /** The layer as a middleware of the chain. */
  function AsMiddleware<W, R>(l: Layer<W, R>): Middleware<W, R> {
    (w: W, r: R, next: NextFunc<W, R>) => Perform(l, w, r, next, [])
  }

  function AsMiddlewares<W, R>(ls: seq<Layer<W, R>>): seq<Middleware<W, R>> {
    if ls == [] then [] else [AsMiddleware(ls[0])] + AsMiddlewares(ls[1..])
  }

  /** The same executions with a count that no layer can read or write: it starts at one in the terminal handler and
      is added up wherever `next` is called. */
  datatype Counted<W> = Counted(reply: Reply<W>, calls: nat)

  type CountedNext<!W, !R> = (W, R) -> Counted<W>

  function PerformCounted<W, R>(
    l: Layer<W, R>, w: W, r: R, next: CountedNext<W, R>, replies: seq<Reply<W>>, calls: nat): Counted<W>
    requires |replies| <= l.limit
    decreases l.limit - |replies|
  {
    if |replies| == l.limit then Counted(l.finish(w, r, replies), calls)
    else
      match l.decide(w, r, replies)
      case Answer(reply) => Counted(reply, calls)
      case Forward(w1, r1) =>
        var counted := next(w1, r1);
        PerformCounted(l, w, r, next, replies + [counted.reply], calls + counted.calls)
  }

  function CountedChain<W, R>(ls: seq<Layer<W, R>>, h: NextFunc<W, R>): CountedNext<W, R> {
    if ls == [] then (w, r) => Counted(h(w, r), 1)
    else (w, r) => PerformCounted(ls[0], w, r, CountedChain(ls[1..], h), [], 0)
  }

  /** `counted` behaves like `plain`. */
  ghost predicate SameReplies<W(!new), R(!new)>(counted: CountedNext<W, R>, plain: NextFunc<W, R>) {
    forall w, r :: counted(w, r).reply == plain(w, r)
  }

  lemma {:induction false} PerformSameReply<W(!new), R(!new)>(
    l: Layer<W, R>, w: W, r: R, counted: CountedNext<W, R>, plain: NextFunc<W, R>, replies: seq<Reply<W>>, calls: nat)
    requires |replies| <= l.limit && SameReplies(counted, plain)
    ensures PerformCounted(l, w, r, counted, replies, calls).reply == Perform(l, w, r, plain, replies)
    decreases l.limit - |replies|
  {
    if |replies| < l.limit {
      match l.decide(w, r, replies)
      case Answer(_) =>
      case Forward(w1, r1) =>
        var c := counted(w1, r1);
        assert c.reply == plain(w1, r1);
        PerformSameReply(l, w, r, counted, plain, replies + [c.reply], calls + c.calls);
    }
  }

  /** Counting changes nothing: the counted execution replies what the chain replies. */
  lemma {:induction false} CountingIsFaithful<W(!new), R(!new)>(ls: seq<Layer<W, R>>, h: NextFunc<W, R>)
    ensures SameReplies(CountedChain(ls, h), Fold(AsMiddlewares(ls), h))
  {
    if ls != [] {
      CountingIsFaithful(ls[1..], h);
      var counted, plain := CountedChain(ls[1..], h), Fold(AsMiddlewares(ls[1..]), h);
      assert AsMiddlewares(ls)[1..] == AsMiddlewares(ls[1..]);
      forall w, r ensures CountedChain(ls, h)(w, r).reply == Fold(AsMiddlewares(ls), h)(w, r) {
        PerformSameReply(ls[0], w, r, counted, plain, [], 0);
      }
    }
  }

  /** Every call of `next` reaches the terminal handler at most `bound` times. */
  ghost predicate AtMost<W(!new), R(!new)>(next: CountedNext<W, R>, bound: nat) {
    forall w, r :: next(w, r).calls <= bound
  }

  lemma OneMore(n: nat, bound: nat)
    requires n > 0
    ensures n * bound == (n - 1) * bound + bound
  {
  }

  /** A layer multiplies what is below it by at most its limit. */
  lemma {:induction false} PerformBounded<W(!new), R(!new)>(
    l: Layer<W, R>, w: W, r: R, next: CountedNext<W, R>, replies: seq<Reply<W>>, calls: nat, bound: nat)
    requires |replies| <= l.limit && AtMost(next, bound)
    ensures PerformCounted(l, w, r, next, replies, calls).calls <= calls + (l.limit - |replies|) * bound
    decreases l.limit - |replies|
  {
    if |replies| < l.limit {
      OneMore(l.limit - |replies|, bound);
      match l.decide(w, r, replies)
      case Answer(_) =>
        assert (l.limit - |replies| - 1) * bound >= 0;
      case Forward(w1, r1) =>
        var c := next(w1, r1);
        assert c.calls <= bound;
        PerformBounded(l, w, r, next, replies + [c.reply], calls + c.calls, bound);
    }
  }

  function LimitProduct<W, R>(ls: seq<Layer<W, R>>): nat {
    if ls == [] then 1 else ls[0].limit * LimitProduct(ls[1..])
  }

  /** One request through a chain reaches the terminal handler at most as often as the product of its layers' limits. */
  lemma {:induction false} CallsBounded<W(!new), R(!new)>(ls: seq<Layer<W, R>>, h: NextFunc<W, R>)
    ensures AtMost(CountedChain(ls, h), LimitProduct(ls))
  {
    if ls != [] {
      CallsBounded(ls[1..], h);
      var next, bound := CountedChain(ls[1..], h), LimitProduct(ls[1..]);
      forall w, r ensures CountedChain(ls, h)(w, r).calls <= ls[0].limit * bound {
        PerformBounded(ls[0], w, r, next, [], 0, bound);
      }
    }
  }

  // Retry layers among layers that call `next` at most once.

  /** `Plain` rewrites the request or short-circuits before `next`, and rewrites the reply after it. */
  datatype Stage<!W, !R> =
    | Plain(before: (W, R) -> Step<W, R>, after: (W, R, Reply<W>) -> Reply<W>)
    | RetryStage(config: RetryConfig<W>)

  /** The code of a stage: at most one call of `next`, or the retry middleware. */
  function StageMiddleware<W, R>(s: Stage<W, R>): Middleware<W, R> {
    match s
    case RetryStage(c) => Retrying(c)
    case Plain(before, after) =>
      (w: W, r: R, next: NextFunc<W, R>) =>
        match before(w, r)
        case Answer(reply) => reply
        case Forward(w1, r1) => after(w, r, next(w1, r1))
  }

  function StageMiddlewares<W, R>(ss: seq<Stage<W, R>>): seq<Middleware<W, R>> {
    if ss == [] then [] else [StageMiddleware(ss[0])] + StageMiddlewares(ss[1..])
  }

  function Last<W>(w: W, replies: seq<Reply<W>>): Reply<W> {
    if replies == [] then Reply(w, Result(Response(0, 0), false)) else replies[|replies| - 1]
  }

  /** What the retry loop does before its next attempt. */
  function RetryStep<W, R>(c: RetryConfig<W>, w: W, r: R, replies: seq<Reply<W>>): Step<W, R> {
    if replies == [] then Forward(w, r)
    else
      var last := replies[|replies| - 1];
      if Acceptable(c, last.result) then Answer(last)
      else
        var pause := c.sleep(last.world, |replies|, last.result);
        if pause.cancelled then Answer(Reply(pause.world, CutShort(last.result))) else Forward(pause.world, r)
  }

  function StageLayer<W, R>(s: Stage<W, R>): Layer<W, R> {
    match s
    case RetryStage(c) =>
      Layer(c.maxRetries + 1,
            (w: W, r: R, replies: seq<Reply<W>>) => RetryStep(c, w, r, replies),
            (w: W, r: R, replies: seq<Reply<W>>) => Last(w, replies))
    case Plain(before, after) =>
      Layer(1,
            (w: W, r: R, replies: seq<Reply<W>>) => before(w, r),
            (w: W, r: R, replies: seq<Reply<W>>) => after(w, r, Last(w, replies)))
  }

  function StageLayers<W, R>(ss: seq<Stage<W, R>>): seq<Layer<W, R>> {
    if ss == [] then [] else [StageLayer(ss[0])] + StageLayers(ss[1..])
  }

  /** From the first reply on, the retry layer makes the attempts of the retry loop. */
  lemma {:induction false} RetryAttempts<W, R>(
    c: RetryConfig<W>, w: W, r: R, next: NextFunc<W, R>, replies: seq<Reply<W>>)
    requires 1 <= |replies| <= c.maxRetries + 1
    ensures var last := replies[|replies| - 1];
      Perform(StageLayer(RetryStage(c)), w, r, next, replies) ==
        if Acceptable(c, last.result) then last else Attempts(c, last.world, r, next, |replies|, last.result)
    decreases c.maxRetries + 1 - |replies|
  {
    var last := replies[|replies| - 1];
    if |replies| <= c.maxRetries && !Acceptable(c, last.result) {
      var pause := c.sleep(last.world, |replies|, last.result);
      if !pause.cancelled {
        RetryAttempts(c, w, r, next, replies + [next(pause.world, r)]);
      }
    }
  }

  /** The layer that stands for a stage does exactly what the stage's code does. */
  lemma StageIsLayer<W, R>(s: Stage<W, R>, w: W, r: R, next: NextFunc<W, R>)
    ensures Perform(StageLayer(s), w, r, next, []) == StageMiddleware(s)(w, r, next)
  {
    match s
    case Plain(before, after) =>
      if before(w, r).Forward? {
        var reply := next(before(w, r).world, before(w, r).request);
        assert [] + [reply] == [reply];
        assert StageLayer(s).limit == 1 && Last(w, [reply]) == reply;
        assert Perform(StageLayer(s), w, r, next, [reply]) == StageLayer(s).finish(w, r, [reply]);
      }
    case RetryStage(c) =>
      assert [] + [next(w, r)] == [next(w, r)];
      RetryAttempts(c, w, r, next, [next(w, r)]);
  }

  ghost predicate SameHandlers<W(!new), R(!new)>(a: NextFunc<W, R>, b: NextFunc<W, R>) {
    forall w, r :: a(w, r) == b(w, r)
  }

  lemma {:induction false} PerformSame<W(!new), R(!new)>(
    l: Layer<W, R>, w: W, r: R, a: NextFunc<W, R>, b: NextFunc<W, R>, replies: seq<Reply<W>>)
    requires |replies| <= l.limit && SameHandlers(a, b)
    ensures Perform(l, w, r, a, replies) == Perform(l, w, r, b, replies)
    decreases l.limit - |replies|
  {
    if |replies| < l.limit {
      match l.decide(w, r, replies)
      case Answer(_) =>
      case Forward(w1, r1) =>
        assert a(w1, r1) == b(w1, r1);
        PerformSame(l, w, r, a, b, replies + [a(w1, r1)]);
    }
  }

  /** The chain of the stages' code and the chain of their layers answer alike. */
  lemma {:induction false} StagesAreLayers<W(!new), R(!new)>(ss: seq<Stage<W, R>>, h: NextFunc<W, R>)
    ensures SameHandlers(Fold(AsMiddlewares(StageLayers(ss)), h), Fold(StageMiddlewares(ss), h))
  {
    if ss != [] {
      StagesAreLayers(ss[1..], h);
      var layers, stages := Fold(AsMiddlewares(StageLayers(ss[1..])), h), Fold(StageMiddlewares(ss[1..]), h);
      assert StageLayers(ss)[1..] == StageLayers(ss[1..]);
      assert AsMiddlewares(StageLayers(ss))[1..] == AsMiddlewares(StageLayers(ss)[1..]);
      assert StageMiddlewares(ss)[1..] == StageMiddlewares(ss[1..]);
      forall w, r ensures Fold(AsMiddlewares(StageLayers(ss)), h)(w, r) == Fold(StageMiddlewares(ss), h)(w, r) {
        PerformSame(StageLayer(ss[0]), w, r, layers, stages, []);
        StageIsLayer(ss[0], w, r, stages);
      }
    }
  }

  /** The product of `maxRetries + 1` over the retry stages. */
  function RetryProduct<W, R>(ss: seq<Stage<W, R>>): nat {
    if ss == [] then 1
    else
      match ss[0]
      case Plain(_, _) => RetryProduct(ss[1..])
      case RetryStage(c) => (c.maxRetries + 1) * RetryProduct(ss[1..])
  }

  lemma {:induction false} ProductOfStages<W, R>(ss: seq<Stage<W, R>>)
    ensures LimitProduct(StageLayers(ss)) == RetryProduct(ss)
  {
    if ss != [] {
      ProductOfStages(ss[1..]);
      assert StageLayers(ss)[1..] == StageLayers(ss[1..]);
    }
  }

  /** One request through a chain of retry middlewares and of middlewares that call `next` at most once reaches the
      terminal handler at most as often as the product of `maxRetries + 1` over the retry layers, wherever they
      stand; and the execution whose calls are counted gives the chain's own replies. */
  lemma RetryLayersBound<W(!new), R(!new)>(ss: seq<Stage<W, R>>, h: NextFunc<W, R>, w: W, r: R)
    ensures CountedChain(StageLayers(ss), h)(w, r).calls <= RetryProduct(ss)
    ensures CountedChain(StageLayers(ss), h)(w, r).reply == Fold(StageMiddlewares(ss), h)(w, r)
  {
    CallsBounded(StageLayers(ss), h);
    ProductOfStages(ss);
    CountingIsFaithful(StageLayers(ss), h);
    StagesAreLayers(ss, h);
  }

  // The bound is reached.

  /** The stage is a retry that lists these status codes and is never cut short. */
  ghost predicate Patient<W(!new), R>(s: Stage<W, R>, codes: set<int>) {
    && s.RetryStage? && codes <= s.config.retryable
    && forall w, n, last :: !s.config.sleep(w, n, last).cancelled
  }

  /** An error, or a response with one of these status codes. */
  predicate Bad(r: Result, codes: set<int>) {
    r.failed || r.response.status in codes
  }

  /** Every call gives a bad result, after reaching the terminal handler exactly `n` times. */
  ghost predicate BadAfter<W(!new), R(!new)>(next: CountedNext<W, R>, n: nat, codes: set<int>) {
    forall w, r :: Bad(next(w, r).reply.result, codes) && next(w, r).calls == n
  }

  lemma {:induction false} PatientExact<W(!new), R(!new)>(
    s: Stage<W, R>, w: W, r: R, next: CountedNext<W, R>, replies: seq<Reply<W>>, calls: nat, n: nat, codes: set<int>)
    requires Patient(s, codes) && BadAfter(next, n, codes) && |replies| <= s.config.maxRetries + 1
    requires replies != [] ==> Bad(replies[|replies| - 1].result, codes)
    ensures var end := PerformCounted(StageLayer(s), w, r, next, replies, calls);
      end.calls == calls + (s.config.maxRetries + 1 - |replies|) * n && Bad(end.reply.result, codes)
    decreases s.config.maxRetries + 1 - |replies|
  {
    if |replies| < s.config.maxRetries + 1 {
      OneMore(s.config.maxRetries + 1 - |replies|, n);
      var step := RetryStep(s.config, w, r, replies);
      assert step.Forward?;
      var c := next(step.world, step.request);
      assert Bad(c.reply.result, codes) && c.calls == n;
      PatientExact(s, w, r, next, replies + [c.reply], calls + c.calls, n, codes);
    }
  }

  /** Over a handler that always fails, or answers with a status that every layer lists as retryable, retry layers that
      are not cut short reach it exactly that often. */
  lemma {:induction false} BoundIsReached<W(!new), R(!new)>(ss: seq<Stage<W, R>>, h: NextFunc<W, R>, codes: set<int>)
    requires (forall i | 0 <= i < |ss| :: Patient(ss[i], codes)) && forall w, r :: Bad(h(w, r).result, codes)
    ensures BadAfter(CountedChain(StageLayers(ss), h), RetryProduct(ss), codes)
  {
    if ss != [] {
      BoundIsReached(ss[1..], h, codes);
      assert Patient(ss[0], codes);
      assert StageLayers(ss)[1..] == StageLayers(ss[1..]);
      var next, n := CountedChain(StageLayers(ss[1..]), h), RetryProduct(ss[1..]);
      forall w, r ensures var c := CountedChain(StageLayers(ss), h)(w, r);
        Bad(c.reply.result, codes) && c.calls == (ss[0].config.maxRetries + 1) * n
      {
        PatientExact(ss[0], w, r, next, [], 0, n, codes);
      }
    }
  }

  // The backoff, without jitter. Durations are whole nanoseconds, as in `time.Duration`.

  function Pow(base: real, n: nat): real {
    if n == 0 then 1.0 else base * Pow(base, n - 1)
  }

  /** The exponential backoff before it is capped and cut to whole nanoseconds. */
  function Backoff(initial: int, multiplier: real, attempt: nat): real
    requires attempt >= 1
  {
    initial as real * Pow(multiplier, attempt - 1)
  }

  /** `calculateDelay`: a positive Retry-After wins; otherwise the capped backoff. */
  function Delay(initial: int, maximum: int, multiplier: real, attempt: nat, retryAfter: nat): int
    requires attempt >= 1
  {
    if retryAfter > 0 then retryAfter
    else
      var backoff := Backoff(initial, multiplier, attempt);
      if backoff > maximum as real then maximum else backoff.Floor
  }

  /** Scaling by a number that is not negative keeps the order. */
  lemma ScaleUp(a: real, b: real, c: real)
    requires a <= b && c >= 0.0
    ensures c * a <= c * b
  {
    assert c * (b - a) >= 0.0;
    assert c * b == c * a + c * (b - a);
  }

  lemma ScaleDown(base: real, p: real, q: real)
    requires base < 1.0 && p > 0.0 && q == base * p
    ensures q < p
  {
    assert (1.0 - base) * p > 0.0;
    assert q == p - (1.0 - base) * p;
  }

  lemma {:induction false} PowPositive(base: real, n: nat)
    requires base > 0.0
    ensures Pow(base, n) > 0.0
  {
    if n > 0 {
      PowPositive(base, n - 1);
    }
  }

  lemma PowGrows(base: real, n: nat)
    requires base >= 1.0
    ensures Pow(base, n) <= Pow(base, n + 1)
  {
    PowPositive(base, n);
    ScaleUp(1.0, base, Pow(base, n));
  }

  lemma PowDrops(base: real, n: nat)
    requires 0.0 < base < 1.0
    ensures Pow(base, n + 1) < Pow(base, n)
  {
    PowPositive(base, n);
    ScaleDown(base, Pow(base, n), Pow(base, n + 1));
  }

  lemma {:induction false} PowFalls(base: real, m: nat, n: nat)
    requires 0.0 < base < 1.0 && m <= n
    ensures if m < n then Pow(base, n) < Pow(base, m) else Pow(base, n) == Pow(base, m)
    decreases n
  {
    if m < n {
      var k := n - 1;
      PowDrops(base, k);
      assert Pow(base, n) < Pow(base, k);
      PowFalls(base, m, k);
    }
  }

  /** A positive Retry-After is obeyed whatever the attempt and even beyond the maximum; without one, delays are never
      negative and never exceed the maximum, and they are positive if the backoff does not shrink. */
  lemma DelayRange(initial: int, maximum: int, multiplier: real, attempt: nat, retryAfter: nat)
    requires attempt >= 1 && initial > 0 && maximum > 0 && multiplier > 0.0
    ensures retryAfter > 0 ==> Delay(initial, maximum, multiplier, attempt, retryAfter) == retryAfter
    ensures retryAfter == 0 ==> 0 <= Delay(initial, maximum, multiplier, attempt, retryAfter) <= maximum
    ensures retryAfter == 0 && multiplier >= 1.0 ==> Delay(initial, maximum, multiplier, attempt, retryAfter) > 0
  {
    PowPositive(multiplier, attempt - 1);
    var backoff := Backoff(initial, multiplier, attempt);
    assert backoff > 0.0;
    FloorBelow(backoff, maximum);
    if multiplier >= 1.0 {
      PowAtLeastOne(multiplier, attempt - 1);
      ScaleUp(1.0, Pow(multiplier, attempt - 1), initial as real);
      FloorAtLeast(backoff, 1);
    }
  }

  lemma {:induction false} PowAtLeastOne(base: real, n: nat)
    requires base >= 1.0
    ensures Pow(base, n) >= 1.0
  {
    if n > 0 {
      PowAtLeastOne(base, n - 1);
      PowGrows(base, n - 1);
    }
  }

  /** The first delay is the initial backoff, or the maximum if that is less; and every backoff is the multiplier times
      the one before it. */
  lemma BackoffIsGeometric(initial: int, maximum: int, multiplier: real, n: nat)
    requires initial > 0 && n >= 1
    ensures Delay(initial, maximum, multiplier, 1, 0) == if initial < maximum then initial else maximum
    ensures Backoff(initial, multiplier, 1) == initial as real
    ensures Backoff(initial, multiplier, n + 1) == multiplier * Backoff(initial, multiplier, n)
  {
    assert Pow(multiplier, 0) == 1.0;
    Reassociated(initial as real, multiplier, Pow(multiplier, n - 1));
  }

  lemma Reassociated(a: real, b: real, c: real)
    ensures a * (b * c) == b * (a * c)
  {
  }

  lemma FloorBelow(x: real, m: int)
    ensures x <= m as real ==> x.Floor <= m
    ensures x < m as real ==> x.Floor < m
  {
  }

  lemma FloorAtLeast(x: real, m: int)
    requires m as real <= x
    ensures m <= x.Floor
  {
  }

  /** The delay before attempt `n` when no response has carried a Retry-After. */
  function DelayWithout(initial: int, maximum: int, multiplier: real, n: nat): int
    requires n >= 1
  {
    Delay(initial, maximum, multiplier, n, 0)
  }

  /** Of the delays before attempts 1 to `m`, none is shorter than the one before it. */
  ghost predicate NeverShrinks(initial: int, maximum: int, multiplier: real, m: nat) {
    forall n: nat | 1 <= n < m ::
      DelayWithout(initial, maximum, multiplier, n) <= DelayWithout(initial, maximum, multiplier, n + 1)
  }

  lemma {:induction false} FirstIsShortest(initial: int, maximum: int, multiplier: real, m: nat, n: nat)
    requires NeverShrinks(initial, maximum, multiplier, m) && 1 <= n <= m
    ensures DelayWithout(initial, maximum, multiplier, 1) <= DelayWithout(initial, maximum, multiplier, n)
  {
    if n > 1 {
      FirstIsShortest(initial, maximum, multiplier, m, n - 1);
      assert DelayWithout(initial, maximum, multiplier, n - 1) <= DelayWithout(initial, maximum, multiplier, n - 1 + 1);
    }
  }

  lemma GrowsFrom(initial: int, maximum: int, multiplier: real, n: nat)
    requires initial > 0 && multiplier >= 1.0 && n >= 1
    ensures DelayWithout(initial, maximum, multiplier, n) <= DelayWithout(initial, maximum, multiplier, n + 1)
  {
    PowGrows(multiplier, n - 1);
    ScaleUp(Pow(multiplier, n - 1), Pow(multiplier, n), initial as real);
    var x, y := Backoff(initial, multiplier, n), Backoff(initial, multiplier, n + 1);
    assert x <= y;
    FloorBelow(x, maximum);
    FloorAtLeast(y, x.Floor);
  }

  /** As long as the backoff has not come down to the maximum, every delay is the maximum. */
  lemma CappedThroughout(initial: int, maximum: int, multiplier: real, m: nat, n: nat)
    requires initial > 0 && 0.0 < multiplier < 1.0 && 1 <= n <= m && Backoff(initial, multiplier, m) >= maximum as real
    ensures DelayWithout(initial, maximum, multiplier, n) == maximum
  {
    PowFalls(multiplier, n - 1, m - 1);
    ScaleUp(Pow(multiplier, m - 1), Pow(multiplier, n - 1), initial as real);
    var x := Backoff(initial, multiplier, n);
    assert x >= maximum as real;
    FloorBelow(x, maximum);
    FloorAtLeast(maximum as real, maximum);
  }

  lemma BackoffDrops(initial: int, multiplier: real, m: nat)
    requires initial > 0 && 0.0 < multiplier < 1.0 && m > 1
    ensures Backoff(initial, multiplier, m) < initial as real == Backoff(initial, multiplier, 1)
  {
    PowFalls(multiplier, 0, m - 1);
    ScaleDown(Pow(multiplier, m - 1), initial as real, Backoff(initial, multiplier, m));
  }

  /** Once it has, the delay is shorter than the first one. */
  lemma ShorterThanFirst(initial: int, maximum: int, multiplier: real, m: nat)
    requires initial > 0 && 0.0 < multiplier < 1.0 && m > 1 && Backoff(initial, multiplier, m) < maximum as real
    ensures DelayWithout(initial, maximum, multiplier, m) < DelayWithout(initial, maximum, multiplier, 1)
  {
    BackoffDrops(initial, multiplier, m);
    var x := Backoff(initial, multiplier, m);
    FloorBelow(x, initial);
    FloorBelow(x, maximum);
    FloorAtLeast(initial as real, initial);
  }

  /** The delays of one request, before its retries 1 to `m`, never shrink if and only if the multiplier is at least
      one, there is only one retry, or the backoff of the last retry is still not below the maximum. The constructor
      accepts every positive multiplier. */
  lemma DelaysGrowIff(initial: int, maximum: int, multiplier: real, m: nat)
    requires initial > 0 && maximum > 0 && multiplier > 0.0 && m >= 1
    ensures NeverShrinks(initial, maximum, multiplier, m) <==>
            multiplier >= 1.0 || m == 1 || Backoff(initial, multiplier, m) >= maximum as real
  {
    if multiplier >= 1.0 {
      forall n: nat | 1 <= n < m
        ensures DelayWithout(initial, maximum, multiplier, n) <= DelayWithout(initial, maximum, multiplier, n + 1)
      {
        GrowsFrom(initial, maximum, multiplier, n);
      }
    } else if m > 1 && Backoff(initial, multiplier, m) < maximum as real {
      ShorterThanFirst(initial, maximum, multiplier, m);
      if NeverShrinks(initial, maximum, multiplier, m) {
        FirstIsShortest(initial, maximum, multiplier, m, m);
        assert false;
      }
    } else if m > 1 {
      forall n: nat | 1 <= n < m
        ensures DelayWithout(initial, maximum, multiplier, n) <= DelayWithout(initial, maximum, multiplier, n + 1)
      {
        CappedThroughout(initial, maximum, multiplier, m, n);
        CappedThroughout(initial, maximum, multiplier, m, n + 1);
      }
    }
  }
}
