/** The in-memory frontier of `pkg/frontier/memory.go` and `pkg/frontier/dedup.go` as an interleaved step machine:
    any number of producers in `Add`, a fixed set of consumers that call `Next` again and again, and `Close`.

    URLs are already canonical, the filter is the predicate `allowed`, and the heap is the multiset that module
    PriorityQueue proves it to be. Each action is one atomic section: a lock-protected block, one operation on
    the atomic `size` or `closed`, or one channel operation on the one-slot `notify` channel. */
module Frontier {
  import opened Tally

  type Url = string

  /** `Add`: past the closed check and the filter; the read lock found the URL unseen; the write lock marked it;
      it is in the heap; it is in `size`. The next step from `Sized` posts the notification and returns nil. */
  datatype AdderPc = Away | Opened(url: Url) | Unseen(url: Url) | Marked(url: Url) | Pushed(url: Url) | Sized(url: Url)

  /** `Next`: at the top of the loop; past the closed check; in the select on an empty heap; an entry is popped
      but still in `size`; about to return it (the crawl delay is spent here). */
  datatype ConsumerPc = Outside | Looping | Open | Blocked | Popped(url: Url) | Returning(url: Url)

  /** URLs for which `Add` has returned nil, and URLs that `Next` has returned. */
  datatype Log = Log(accepted: multiset<Url>, delivered: multiset<Url>)

  /** `closing` counts the calls of `Close` that have set `closed` and not yet posted their token. */
  datatype State = State(
    seen: set<Url>,
    heap: multiset<Url>,
    size: int,
    token: bool,
    closed: bool,
    closing: nat,
    adders: seq<AdderPc>,
    consumers: seq<ConsumerPc>,
    log: Log
  )

  datatype AdderAct = Enter(url: Url) | ReadSeen | WriteSeen | Push | GrowSize | Notify

  datatype ConsumerAct = CallNext | CheckClosed | LockHeap(url: Url) | Wake | CancelWait | ShrinkSize | Return

  datatype Event =
    | Adder(i: nat, add: AdderAct)
    | Consumer(j: nat, take: ConsumerAct)
    | SetClosed
    | CloseNotify

  predicate AdderEnabled(allowed: Url -> bool, s: State, i: nat, a: AdderAct) {
    i < |s.adders| &&
    match a
    case Enter(u) => s.adders[i].Away? && u != "" && !s.closed && allowed(u)
    case ReadSeen => s.adders[i].Opened?
    case WriteSeen => s.adders[i].Unseen?
    case Push => s.adders[i].Marked?
    case GrowSize => s.adders[i].Pushed?
    case Notify => s.adders[i].Sized?
  }

  function AdderStep(allowed: Url -> bool, s: State, i: nat, a: AdderAct): State
    requires AdderEnabled(allowed, s, i, a)
  {
    match a
    case Enter(u) => s.(adders := s.adders[i := Opened(u)])
    case ReadSeen =>
      var u := s.adders[i].url;
      s.(adders := s.adders[i := if u in s.seen then Away else Unseen(u)])
    case WriteSeen =>
      var u := s.adders[i].url;
      if u in s.seen then s.(adders := s.adders[i := Away])
      else s.(seen := s.seen + {u}, adders := s.adders[i := Marked(u)])
    case Push =>
      var u := s.adders[i].url;
      s.(heap := s.heap + multiset{u}, adders := s.adders[i := Pushed(u)])
    case GrowSize => s.(size := s.size + 1, adders := s.adders[i := Sized(s.adders[i].url)])
    case Notify =>
      s.(token := true, log := s.log.(accepted := s.log.accepted + multiset{s.adders[i].url}),
         adders := s.adders[i := Away])
  }

  predicate ConsumerEnabled(s: State, j: nat, a: ConsumerAct) {
    j < |s.consumers| &&
    match a
    case CallNext => s.consumers[j].Outside?
    case CheckClosed => s.consumers[j].Looping?
    case LockHeap(u) => s.consumers[j].Open? && (s.heap == multiset{} || u in s.heap)
    case Wake => s.consumers[j].Blocked? && s.token
    case CancelWait => s.consumers[j].Blocked?
    case ShrinkSize => s.consumers[j].Popped?
    case Return => s.consumers[j].Returning?
  }

  function ConsumerStep(s: State, j: nat, a: ConsumerAct): State
    requires ConsumerEnabled(s, j, a)
  {
    match a
    case CallNext => s.(consumers := s.consumers[j := Looping])
    case CheckClosed => s.(consumers := s.consumers[j := if s.closed then Outside else Open])
    case LockHeap(u) =>
      if s.heap == multiset{} then s.(consumers := s.consumers[j := Blocked])
      else s.(heap := s.heap - multiset{u}, consumers := s.consumers[j := Popped(u)])
    case Wake => s.(token := false, consumers := s.consumers[j := Looping])
    case CancelWait => s.(consumers := s.consumers[j := Outside])
    case ShrinkSize => s.(size := s.size - 1, consumers := s.consumers[j := Returning(s.consumers[j].url)])
    case Return =>
      s.(log := s.log.(delivered := s.log.delivered + multiset{s.consumers[j].url}),
         consumers := s.consumers[j := Outside])
  }

  predicate Enabled(allowed: Url -> bool, s: State, e: Event) {
    match e
    case Adder(i, a) => AdderEnabled(allowed, s, i, a)
    case Consumer(j, a) => ConsumerEnabled(s, j, a)
    case SetClosed => true
    case CloseNotify => s.closing > 0
  }

  function Apply(allowed: Url -> bool, s: State, e: Event): State
    requires Enabled(allowed, s, e)
  {
    match e
    case Adder(i, a) => AdderStep(allowed, s, i, a)
    case Consumer(j, a) => ConsumerStep(s, j, a)
    case SetClosed => s.(closed := true, closing := s.closing + 1)
    case CloseNotify => s.(token := true, closing := s.closing - 1)
  }

  ghost predicate Next(allowed: Url -> bool, s: State, s': State) {
    exists e :: Enabled(allowed, s, e) && s' == Apply(allowed, s, e)
  }

  predicate Init(s: State) {
    && s.seen == {} && s.heap == s.log.accepted == s.log.delivered == multiset{} && s.size == 0 && !s.token && !s.closed
    && s.closing == 0
    && (forall i | 0 <= i < |s.adders| :: s.adders[i] == Away)
    && (forall j | 0 <= j < |s.consumers| :: s.consumers[j] == Outside)
  }

  ghost predicate IsRun(allowed: Url -> bool, run: seq<State>) {
    && |run| > 0
    && Init(run[0])
    && forall k | 0 <= k < |run| - 1 :: Next(allowed, run[k], run[k + 1])
  }

  // The invariant.

  function MarkedUrl(u: Url): AdderPc -> bool {
    (pc: AdderPc) => pc == Marked(u)
  }

  /** The URL has been marked seen by this `Add`, which has not returned yet. */
  function OwnsMark(u: Url): AdderPc -> bool {
    (pc: AdderPc) => pc == Marked(u) || pc == Pushed(u) || pc == Sized(u)
  }

  function InHand(u: Url): ConsumerPc -> bool {
    (pc: ConsumerPc) => pc == Popped(u) || pc == Returning(u)
  }

  predicate NotYetSized(pc: AdderPc) {
    pc.Pushed?
  }

  predicate StillSized(pc: ConsumerPc) {
    pc.Popped?
  }

  predicate WillNotify(pc: AdderPc) {
    pc.Pushed? || pc.Sized?
  }

  function One(b: bool): nat {
    if b then 1 else 0
  }

  /** A seen URL is in exactly one place: on its way into the heap, in the heap, with a consumer, or delivered;
      and its `Add` has either returned nil, once, or is still running. */
  ghost predicate UrlInv(s: State, u: Url) {
    && One(u in s.seen) ==
        Count(s.adders, MarkedUrl(u)) + s.heap[u] + Count(s.consumers, InHand(u)) + s.log.delivered[u]
    && One(u in s.seen) == Count(s.adders, OwnsMark(u)) + s.log.accepted[u]
  }

  ghost predicate SizeInv(s: State) {
    s.size == |s.heap| - Count(s.adders, NotYetSized) + Count(s.consumers, StillSized)
  }

  ghost predicate WakeInv(s: State) {
    s.heap != multiset{} && (forall j | 0 <= j < |s.consumers| :: s.consumers[j].Blocked?) ==>
      s.token || exists i | 0 <= i < |s.adders| :: WillNotify(s.adders[i])
  }

  ghost predicate Inv(s: State) {
    SizeInv(s) && WakeInv(s) && forall u :: UrlInv(s, u)
  }

  lemma InitInv(s: State)
    requires Init(s)
    ensures Inv(s)
  {
    CountNone(s.adders, NotYetSized);
    CountNone(s.consumers, StillSized);
    forall u ensures UrlInv(s, u) {
      CountNone(s.adders, MarkedUrl(u));
      CountNone(s.adders, OwnsMark(u));
      CountNone(s.consumers, InHand(u));
    }
  }

  /** What happens to the counts of one URL when adder `i` moves to `pc`. */
  lemma AdderCounts(s: State, i: nat, pc: AdderPc, u: Url)
    requires i < |s.adders|
    ensures Count(s.adders[i := pc], MarkedUrl(u)) ==
        Count(s.adders, MarkedUrl(u)) - One(s.adders[i] == Marked(u)) + One(pc == Marked(u))
    ensures Count(s.adders[i := pc], OwnsMark(u)) ==
            Count(s.adders, OwnsMark(u)) - One(OwnsMark(u)(s.adders[i])) + One(OwnsMark(u)(pc))
  {
    CountUpdate(s.adders, i, pc, MarkedUrl(u));
    CountUpdate(s.adders, i, pc, OwnsMark(u));
  }

  lemma EnterUrlInv(allowed: Url -> bool, s: State, i: nat, a: AdderAct, u: Url)
    requires AdderEnabled(allowed, s, i, a) && UrlInv(s, u) && (a.Enter? || a.ReadSeen?)
    ensures UrlInv(AdderStep(allowed, s, i, a), u)
  {
    AdderCounts(s, i, AdderStep(allowed, s, i, a).adders[i], u);
  }

  lemma MarkUrlInv(allowed: Url -> bool, s: State, i: nat, u: Url)
    requires AdderEnabled(allowed, s, i, WriteSeen) && UrlInv(s, u)
    ensures UrlInv(AdderStep(allowed, s, i, WriteSeen), u)
  {
    var v := s.adders[i].url;
    if v in s.seen {
      AdderCounts(s, i, Away, u);
    } else {
      AdderCounts(s, i, Marked(v), u);
      assert u in s.seen + {v} <==> u in s.seen || u == v;
    }
  }

  lemma InsertUrlInv(allowed: Url -> bool, s: State, i: nat, a: AdderAct, u: Url)
    requires AdderEnabled(allowed, s, i, a) && UrlInv(s, u) && (a.Push? || a.GrowSize? || a.Notify?)
    ensures UrlInv(AdderStep(allowed, s, i, a), u)
  {
    AdderCounts(s, i, AdderStep(allowed, s, i, a).adders[i], u);
  }

  lemma WaitUrlInv(s: State, j: nat, a: ConsumerAct, u: Url)
    requires ConsumerEnabled(s, j, a) && UrlInv(s, u) && !a.LockHeap? && !a.Return?
    ensures UrlInv(ConsumerStep(s, j, a), u)
  {
    CountUpdate(s.consumers, j, ConsumerStep(s, j, a).consumers[j], InHand(u));
  }

  lemma PopUrlInv(s: State, j: nat, v: Url, u: Url)
    requires ConsumerEnabled(s, j, LockHeap(v)) && UrlInv(s, u)
    ensures UrlInv(ConsumerStep(s, j, LockHeap(v)), u)
  {
    CountUpdate(s.consumers, j, ConsumerStep(s, j, LockHeap(v)).consumers[j], InHand(u));
  }

  lemma ReturnUrlInv(s: State, j: nat, u: Url)
    requires ConsumerEnabled(s, j, Return) && UrlInv(s, u)
    ensures UrlInv(ConsumerStep(s, j, Return), u)
  {
    CountUpdate(s.consumers, j, Outside, InHand(u));
  }

  lemma StepUrlInv(allowed: Url -> bool, s: State, e: Event, u: Url)
    requires Enabled(allowed, s, e) && UrlInv(s, u)
    ensures UrlInv(Apply(allowed, s, e), u)
  {
    match e
    case Adder(i, a) =>
      if a.Enter? || a.ReadSeen? {
        EnterUrlInv(allowed, s, i, a, u);
      } else if a.WriteSeen? {
        MarkUrlInv(allowed, s, i, u);
      } else {
        InsertUrlInv(allowed, s, i, a, u);
      }
    case Consumer(j, a) =>
      if a.LockHeap? {
        PopUrlInv(s, j, a.url, u);
      } else if a.Return? {
        ReturnUrlInv(s, j, u);
      } else {
        WaitUrlInv(s, j, a, u);
      }
    case _ =>
  }

  lemma AdderSizeInv(allowed: Url -> bool, s: State, i: nat, a: AdderAct)
    requires AdderEnabled(allowed, s, i, a) && SizeInv(s)
    ensures SizeInv(AdderStep(allowed, s, i, a))
  {
    CountUpdate(s.adders, i, AdderStep(allowed, s, i, a).adders[i], NotYetSized);
  }

  lemma ConsumerSizeInv(s: State, j: nat, a: ConsumerAct)
    requires ConsumerEnabled(s, j, a) && SizeInv(s)
    ensures SizeInv(ConsumerStep(s, j, a))
  {
    CountUpdate(s.consumers, j, ConsumerStep(s, j, a).consumers[j], StillSized);
  }

  lemma StepSizeInv(allowed: Url -> bool, s: State, e: Event)
    requires Enabled(allowed, s, e) && SizeInv(s)
    ensures SizeInv(Apply(allowed, s, e))
  {
    match e
    case Adder(i, a) => AdderSizeInv(allowed, s, i, a);
    case Consumer(j, a) => ConsumerSizeInv(s, j, a);
    case _ =>
  }

  lemma AdderWakeInv(allowed: Url -> bool, s: State, i: nat, a: AdderAct)
    requires AdderEnabled(allowed, s, i, a) && WakeInv(s)
    ensures WakeInv(AdderStep(allowed, s, i, a))
  {
    var s' := AdderStep(allowed, s, i, a);
    if a.Push? {
      assert WillNotify(s'.adders[i]);
    } else if !a.Notify? {
      forall k | 0 <= k < |s.adders| && WillNotify(s.adders[k]) ensures WillNotify(s'.adders[k]) {
      }
    }
  }

  lemma ConsumerWakeInv(s: State, j: nat, a: ConsumerAct)
    requires ConsumerEnabled(s, j, a) && WakeInv(s)
    ensures WakeInv(ConsumerStep(s, j, a))
  {
    var s' := ConsumerStep(s, j, a);
    assert !s'.consumers[j].Blocked? || s'.heap == multiset{};
  }

  lemma StepWakeInv(allowed: Url -> bool, s: State, e: Event)
    requires Enabled(allowed, s, e) && WakeInv(s)
    ensures WakeInv(Apply(allowed, s, e))
  {
    match e
    case Adder(i, a) => AdderWakeInv(allowed, s, i, a);
    case Consumer(j, a) => ConsumerWakeInv(s, j, a);
    case _ =>
  }

  lemma StepInv(allowed: Url -> bool, s: State, e: Event)
    requires Enabled(allowed, s, e) && Inv(s)
    ensures Inv(Apply(allowed, s, e))
  {
    StepSizeInv(allowed, s, e);
    StepWakeInv(allowed, s, e);
    forall u ensures UrlInv(Apply(allowed, s, e), u) {
      StepUrlInv(allowed, s, e, u);
    }
  }

  lemma NextInv(allowed: Url -> bool, s: State, s': State)
    requires Next(allowed, s, s') && Inv(s)
    ensures Inv(s')
  {
    var e :| Enabled(allowed, s, e) && s' == Apply(allowed, s, e);
    StepInv(allowed, s, e);
  }

  lemma {:induction false} RunInv(allowed: Url -> bool, run: seq<State>, k: nat)
    requires IsRun(allowed, run) && k < |run|
    ensures Inv(run[k])
  {
    if k == 0 {
      InitInv(run[0]);
    } else {
      RunInv(allowed, run, k - 1);
      assert Next(allowed, run[k - 1], run[k - 1 + 1]);
      NextInv(allowed, run[k - 1], run[k]);
    }
  }

  /** In every interleaving each canonical URL is accepted at most once and delivered at most once, and nothing
      is delivered that was not marked: the seen URLs are exactly those on the way into the heap, queued, in a
      consumer's hands and delivered. */
  lemma AcceptedAndDeliveredOnce(allowed: Url -> bool, run: seq<State>, k: nat, u: Url)
    requires IsRun(allowed, run) && k < |run|
    ensures var s := run[k];
      && s.log.accepted[u] <= 1 && s.log.delivered[u] <= 1 && s.heap[u] <= 1
      && One(u in s.seen) ==
          Count(s.adders, MarkedUrl(u)) + s.heap[u] + Count(s.consumers, InHand(u)) + s.log.delivered[u]
  {
    RunInv(allowed, run, k);
    assert UrlInv(run[k], u);
  }

  /** No `Add` is running and no consumer is holding an entry. */
  predicate Quiescent(s: State) {
    && (forall i | 0 <= i < |s.adders| :: s.adders[i] == Away)
    && (forall j | 0 <= j < |s.consumers| :: !s.consumers[j].Popped? && !s.consumers[j].Returning?)
  }

  /** At quiescence accepted = queued + delivered, and `size` is the exact length of the heap. */
  lemma ExactAtQuiescence(allowed: Url -> bool, run: seq<State>, k: nat)
    requires IsRun(allowed, run) && k < |run| && Quiescent(run[k])
    ensures run[k].log.accepted == run[k].heap + run[k].log.delivered
    ensures run[k].size == |run[k].heap|
  {
    RunInv(allowed, run, k);
    var s := run[k];
    CountNone(s.adders, NotYetSized);
    CountNone(s.consumers, StillSized);
    forall u ensures s.log.accepted[u] == s.heap[u] + s.log.delivered[u] {
      assert UrlInv(s, u);
      CountNone(s.adders, MarkedUrl(u));
      CountNone(s.adders, OwnsMark(u));
      CountNone(s.consumers, InHand(u));
    }
  }

  /** In between, the counter is off by exactly the adders that have pushed but not counted and the consumers
      that have popped but not discounted. */
  lemma SizeDrift(allowed: Url -> bool, run: seq<State>, k: nat)
    requires IsRun(allowed, run) && k < |run|
    ensures run[k].size == |run[k].heap| - Count(run[k].adders, NotYetSized) + Count(run[k].consumers, StillSized)
  {
    RunInv(allowed, run, k);
  }

  /** No global lost wakeup: if something is queued and every consumer is blocked in `Next`, then a token is in
      the channel or some `Add` is between its push and its send. */
  lemma NoGlobalLostWakeup(allowed: Url -> bool, run: seq<State>, k: nat)
    requires IsRun(allowed, run) && k < |run|
    requires run[k].heap != multiset{} && forall j | 0 <= j < |run[k].consumers| :: run[k].consumers[j].Blocked?
    ensures run[k].token || exists i | 0 <= i < |run[k].adders| :: WillNotify(run[k].adders[i])
  {
    RunInv(allowed, run, k);
  }

  // What is let in, and what is given out.

  /** A URL that `Add` may take: not empty, and past the filter. */
  predicate Admissible(allowed: Url -> bool, u: Url) {
    u != "" && allowed(u)
  }

  ghost predicate AdmissibleInv(allowed: Url -> bool, s: State) {
    && (forall u | u in s.seen :: Admissible(allowed, u))
    && (forall i | 0 <= i < |s.adders| && !s.adders[i].Away? :: Admissible(allowed, s.adders[i].url))
  }

  lemma AdderAdmissible(allowed: Url -> bool, s: State, i: nat, a: AdderAct)
    requires AdderEnabled(allowed, s, i, a) && AdmissibleInv(allowed, s)
    ensures AdmissibleInv(allowed, AdderStep(allowed, s, i, a))
  {
    var s' := AdderStep(allowed, s, i, a);
    assert !s'.adders[i].Away? ==> Admissible(allowed, s'.adders[i].url);
    if a.WriteSeen? && s.adders[i].url !in s.seen {
      assert s'.seen == s.seen + {s.adders[i].url};
    } else {
      assert s'.seen == s.seen;
    }
  }

  lemma NextEvent(allowed: Url -> bool, s: State, s': State) returns (e: Event)
    requires Next(allowed, s, s')
    ensures Enabled(allowed, s, e) && s' == Apply(allowed, s, e)
  {
    e :| Enabled(allowed, s, e) && s' == Apply(allowed, s, e);
  }

  lemma ConsumersKeepAdders(s: State, j: nat, a: ConsumerAct)
    requires ConsumerEnabled(s, j, a)
    ensures var s' := ConsumerStep(s, j, a);
      s'.seen == s.seen && s'.adders == s.adders && s'.log.accepted == s.log.accepted
  {
  }

  lemma OthersKeepAdders(allowed: Url -> bool, s: State, e: Event)
    requires Enabled(allowed, s, e) && !e.Adder?
    ensures var s' := Apply(allowed, s, e);
      s'.seen == s.seen && s'.adders == s.adders && s'.log.accepted == s.log.accepted
  {
    if e.Consumer? {
      ConsumersKeepAdders(s, e.j, e.take);
    }
  }

  lemma StepAdmissible(allowed: Url -> bool, s: State, s': State)
    requires Next(allowed, s, s') && AdmissibleInv(allowed, s)
    ensures AdmissibleInv(allowed, s')
  {
    var e := NextEvent(allowed, s, s');
    if e.Adder? {
      AdderAdmissible(allowed, s, e.i, e.add);
    } else {
      OthersKeepAdders(allowed, s, e);
    }
  }

  /** In every reachable state, whatever is marked, queued, in a consumer's hands, accepted or delivered is not empty
      and passes the filter. */
  lemma OnlyAdmissible(allowed: Url -> bool, run: seq<State>, k: nat, u: Url)
    requires IsRun(allowed, run) && k < |run|
    requires u in run[k].seen || u in run[k].heap || Count(run[k].consumers, InHand(u)) > 0
             || u in run[k].log.accepted || u in run[k].log.delivered
    ensures u != "" && allowed(u)
  {
    forall s, s' | Next(allowed, s, s') && AdmissibleInv(allowed, s) ensures AdmissibleInv(allowed, s') {
      StepAdmissible(allowed, s, s');
    }
    AlwaysKept(run, (s, s') => Next(allowed, s, s'), (s: State) => AdmissibleInv(allowed, s), 0, k);
    RunInv(allowed, run, k);
    assert UrlInv(run[k], u);
  }

  /** An `Add` moves only by its own steps. */
  lemma AdderMovesItself(allowed: Url -> bool, s: State, s': State, i: nat) returns (a: AdderAct)
    requires Next(allowed, s, s') && i < |s.adders| && s'.adders[i] != s.adders[i]
    ensures AdderEnabled(allowed, s, i, a) && s' == AdderStep(allowed, s, i, a)
  {
    var e := NextEvent(allowed, s, s');
    if !e.Adder? {
      OthersKeepAdders(allowed, s, e);
    }
    a := e.add;
  }

  /** An `Add` gets past its first checks only while the frontier is open, and only for an admissible URL. */
  lemma EntersOnlyOpen(allowed: Url -> bool, s: State, s': State, i: nat)
    requires Next(allowed, s, s') && i < |s.adders| && s.adders[i] == Away && s'.adders[i] != Away
    ensures !s.closed && s'.adders[i].Opened? && s'.adders[i].url != "" && allowed(s'.adders[i].url)
  {
    var a := AdderMovesItself(allowed, s, s', i);
  }

  /** An `Add` that is past its first checks gives up only for a URL that is marked already, and otherwise marks it. */
  lemma GivesUpOnlySeen(allowed: Url -> bool, s: State, s': State, i: nat)
    requires Next(allowed, s, s') && i < |s.adders| && s'.adders[i] != s.adders[i]
    requires s.adders[i].Opened? || s.adders[i].Unseen?
    ensures s'.adders[i] == Away ==> s.adders[i].url in s.seen
    ensures s'.adders[i] != Away ==> s.adders[i].url !in s.seen
  {
    var a := AdderMovesItself(allowed, s, s', i);
  }

  lemma OthersStay(s: State, i: nat, a: ConsumerAct, j: nat)
    requires ConsumerEnabled(s, i, a) && j < |s.consumers| && j != i
    ensures ConsumerStep(s, i, a).consumers[j] == s.consumers[j]
  {
  }

  lemma AddersKeepConsumers(allowed: Url -> bool, s: State, e: Event)
    requires Enabled(allowed, s, e) && !e.Consumer?
    ensures Apply(allowed, s, e).consumers == s.consumers
  {
  }

  /** A call of `Next` moves only by its own steps. */
  lemma ConsumerMovesItself(allowed: Url -> bool, s: State, s': State, j: nat) returns (a: ConsumerAct)
    requires Next(allowed, s, s') && j < |s.consumers| && s'.consumers[j] != s.consumers[j]
    ensures ConsumerEnabled(s, j, a) && s' == ConsumerStep(s, j, a)
  {
    var e := NextEvent(allowed, s, s');
    if e.Consumer? {
      if e.j != j {
        OthersStay(s, e.j, e.take, j);
      }
    } else {
      AddersKeepConsumers(allowed, s, e);
    }
    a := e.take;
  }

  /** A call of `Next` gets past its closed check exactly if the frontier is open. */
  lemma PassesOnlyOpen(allowed: Url -> bool, s: State, s': State, j: nat)
    requires Next(allowed, s, s') && j < |s.consumers| && s.consumers[j] == Looping && s'.consumers[j] != Looping
    ensures s'.consumers[j] == if s.closed then Outside else Open
  {
    var a := ConsumerMovesItself(allowed, s, s', j);
  }

  /** A blocked `Next` goes on only by taking the token, and otherwise returns. */
  lemma BlockedLeaves(allowed: Url -> bool, s: State, s': State, j: nat)
    requires Next(allowed, s, s') && j < |s.consumers| && s.consumers[j] == Blocked && s'.consumers[j] != Blocked
    ensures s'.consumers[j] == Outside || (s'.consumers[j] == Looping && s.token && !s'.token)
  {
    var a := ConsumerMovesItself(allowed, s, s', j);
  }

  /** Every call under way will find the frontier closed. */
  predicate TurnedAway(s: State) {
    && s.closed
    && (forall i | 0 <= i < |s.adders| :: s.adders[i] == Away)
    && (forall j | 0 <= j < |s.consumers| ::
          s.consumers[j].Outside? || s.consumers[j].Looping? || s.consumers[j].Blocked?)
  }

  predicate Over(s: State, heap: multiset<Url>, delivered: multiset<Url>) {
    TurnedAway(s) && s.heap == heap && s.log.delivered == delivered
  }

  lemma ConsumerOver(s: State, j: nat, a: ConsumerAct)
    requires ConsumerEnabled(s, j, a) && TurnedAway(s)
    ensures var s' := ConsumerStep(s, j, a); TurnedAway(s') && s'.heap == s.heap && s'.log.delivered == s.log.delivered
  {
  }

  lemma StepOver(allowed: Url -> bool, s: State, s': State, heap: multiset<Url>, delivered: multiset<Url>)
    requires Next(allowed, s, s') && Over(s, heap, delivered)
    ensures Over(s', heap, delivered)
  {
    var e := NextEvent(allowed, s, s');
    if e.Consumer? {
      ConsumerOver(s, e.j, e.take);
    }
  }

  /** After `Close`, calls that had not yet got past their closed check add nothing and deliver nothing, ever. */
  lemma ClosedStaysClosed(allowed: Url -> bool, run: seq<State>, j: nat, k: nat)
    requires j <= k < |run| && forall m | 0 <= m < |run| - 1 :: Next(allowed, run[m], run[m + 1])
    requires TurnedAway(run[j])
    ensures run[k].heap == run[j].heap && run[k].log.delivered == run[j].log.delivered
  {
    var heap, delivered := run[j].heap, run[j].log.delivered;
    forall s, s' | Next(allowed, s, s') && Over(s, heap, delivered) ensures Over(s', heap, delivered) {
      StepOver(allowed, s, s', heap, delivered);
    }
    AlwaysKept(run, (s, s') => Next(allowed, s, s'), (s: State) => Over(s, heap, delivered), j, k);
  }

  // A single consumer is never stranded; one of several can be.

  /** A consumer is blocked although something is queued, and nothing under way will wake it. */
  ghost predicate Stranded(s: State) {
    && s.heap != multiset{} && !s.token && s.closing == 0
    && (forall i | 0 <= i < |s.adders| :: s.adders[i] == Away)
    && exists j | 0 <= j < |s.consumers| :: s.consumers[j] == Blocked
  }

  /** A frontier with `m` producers and `n` consumers. */
  function Fresh(m: nat, n: nat): State {
    State({}, multiset{}, 0, false, false, 0, seq(m, _ => Away), seq(n, _ => Outside), Log(multiset{}, multiset{}))
  }

  /** The states that a sequence of events leads through. */
  ghost predicate Leads(allowed: Url -> bool, s: State, events: seq<Event>, s': State)
    decreases |events|
  {
    if events == [] then s' == s
    else Enabled(allowed, s, events[0]) && Leads(allowed, Apply(allowed, s, events[0]), events[1..], s')
  }

  /** Some interleaving of `m` producers and `n` consumers leads to `s`. */
  ghost predicate Reachable(allowed: Url -> bool, m: nat, n: nat, s: State) {
    exists events :: Leads(allowed, Fresh(m, n), events, s)
  }

  lemma {:induction false} LeadsInv(allowed: Url -> bool, s: State, events: seq<Event>, s': State)
    requires Inv(s) && Leads(allowed, s, events, s')
    ensures Inv(s') && |s'.consumers| == |s.consumers|
    decreases |events|
  {
    if events != [] {
      StepInv(allowed, s, events[0]);
      LeadsInv(allowed, Apply(allowed, s, events[0]), events[1..], s');
    }
  }

  lemma {:induction false} LeadsJoin(
    allowed: Url -> bool, s: State, e1: seq<Event>, m: State, e2: seq<Event>, s': State)
    requires Leads(allowed, s, e1, m) && Leads(allowed, m, e2, s')
    ensures Leads(allowed, s, e1 + e2, s')
    decreases |e1|
  {
    if e1 == [] {
      assert e1 + e2 == e2;
    } else {
      assert (e1 + e2)[1..] == e1[1..] + e2;
      LeadsJoin(allowed, Apply(allowed, s, e1[0]), e1[1..], m, e2, s');
    }
  }

  function Claim(u: Url): seq<Event> {
    [Adder(0, Enter(u)), Adder(0, ReadSeen), Adder(0, WriteSeen)]
  }

  function Insertion(u: Url): seq<Event> {
    [Adder(0, Push), Adder(0, GrowSize), Adder(0, Notify)]
  }

  function WholeAdd(u: Url): seq<Event> {
    Claim(u) + Insertion(u)
  }

  function BlockOn(j: nat): seq<Event> {
    [Consumer(j, CallNext), Consumer(j, CheckClosed), Consumer(j, LockHeap(""))]
  }

  function WakeAndTake(j: nat, u: Url): seq<Event> {
    [Consumer(j, Wake), Consumer(j, CheckClosed), Consumer(j, LockHeap(u)), Consumer(j, ShrinkSize),
        Consumer(j, Return)]
  }

  lemma ClaimLeads(allowed: Url -> bool, s: State, u: Url)
    requires u != "" && allowed(u) && u !in s.seen && !s.closed && |s.adders| >= 1 && s.adders[0] == Away
    ensures Leads(allowed, s, Claim(u), s.(seen := s.seen + {u}, adders := s.adders[0 := Marked(u)]))
  {
    var s1 := s.(adders := s.adders[0 := Opened(u)]);
    var s2 := s.(adders := s.adders[0 := Unseen(u)]);
    var s3 := s.(seen := s.seen + {u}, adders := s.adders[0 := Marked(u)]);
    var es := Claim(u);
    assert Leads(allowed, s3, es[3..], s3);
    assert Apply(allowed, s2, es[2]) == s3 && es[2..][1..] == es[3..];
    assert Leads(allowed, s2, es[2..], s3);
    assert Apply(allowed, s1, es[1]) == s2 && es[1..][1..] == es[2..];
    assert Leads(allowed, s1, es[1..], s3);
    assert Apply(allowed, s, es[0]) == s1;
  }

  lemma InsertLeads(allowed: Url -> bool, s: State, u: Url)
    requires |s.adders| >= 1 && s.adders[0] == Marked(u)
    ensures Leads(allowed, s, Insertion(u),
                  s.(heap := s.heap + multiset{u}, size := s.size + 1, token := true, adders := s.adders[0 := Away],
                     log := s.log.(accepted := s.log.accepted + multiset{u})))
  {
    var s1 := s.(heap := s.heap + multiset{u}, adders := s.adders[0 := Pushed(u)]);
    var s2 := s1.(size := s.size + 1, adders := s.adders[0 := Sized(u)]);
    var s3 := s2.(token := true, log := s.log.(accepted := s.log.accepted + multiset{u}),
                  adders := s.adders[0 := Away]);
    var es := Insertion(u);
    assert Leads(allowed, s3, es[3..], s3);
    assert Apply(allowed, s2, es[2]) == s3 && es[2..][1..] == es[3..];
    assert Leads(allowed, s2, es[2..], s3);
    assert Apply(allowed, s1, es[1]) == s2 && es[1..][1..] == es[2..];
    assert Leads(allowed, s1, es[1..], s3);
    assert Apply(allowed, s, es[0]) == s1;
  }

  /** An unseen admissible URL, added to an open frontier with nobody else moving, is accepted and queued. */
  lemma AddLeads(allowed: Url -> bool, s: State, u: Url)
    requires u != "" && allowed(u) && u !in s.seen && !s.closed && |s.adders| >= 1 && s.adders[0] == Away
    ensures Leads(allowed, s, WholeAdd(u),
                  s.(seen := s.seen + {u}, heap := s.heap + multiset{u}, size := s.size + 1, token := true,
                     log := s.log.(accepted := s.log.accepted + multiset{u})))
  {
    var s3 := s.(seen := s.seen + {u}, adders := s.adders[0 := Marked(u)]);
    var s6 := s3.(heap := s.heap + multiset{u}, size := s.size + 1, token := true, adders := s3.adders[0 := Away],
                  log := s.log.(accepted := s.log.accepted + multiset{u}));
    ClaimLeads(allowed, s, u);
    InsertLeads(allowed, s3, u);
    LeadsJoin(allowed, s, Claim(u), s3, Insertion(u), s6);
    assert s6.adders == s.adders;
  }

  lemma BlockLeads(allowed: Url -> bool, s: State, j: nat)
    requires j < |s.consumers| && s.consumers[j] == Outside && s.heap == multiset{} && !s.closed
    ensures Leads(allowed, s, BlockOn(j), s.(consumers := s.consumers[j := Blocked]))
  {
    var s1 := s.(consumers := s.consumers[j := Looping]);
    var s2 := s.(consumers := s.consumers[j := Open]);
    var s3 := s.(consumers := s.consumers[j := Blocked]);
    var es := BlockOn(j);
    assert Leads(allowed, s3, es[3..], s3);
    assert Apply(allowed, s2, es[2]) == s3 && es[2..][1..] == es[3..];
    assert Leads(allowed, s2, es[2..], s3);
    assert Apply(allowed, s1, es[1]) == s2 && es[1..][1..] == es[2..];
    assert Leads(allowed, s1, es[1..], s3);
    assert Apply(allowed, s, es[0]) == s1;
  }

  /** The rest of `Next` once it is past the closed check. */
  function TakeNow(j: nat, u: Url): seq<Event> {
    [Consumer(j, LockHeap(u)), Consumer(j, ShrinkSize), Consumer(j, Return)]
  }

  /** Consumer `j` has come back with `u`. */
  function Taken(s: State, j: nat, u: Url): State
    requires j < |s.consumers|
  {
    s.(heap := s.heap - multiset{u}, size := s.size - 1, consumers := s.consumers[j := Outside],
       log := s.log.(delivered := s.log.delivered + multiset{u}))
  }

  lemma OpenLeads(allowed: Url -> bool, s: State, j: nat, u: Url)
    requires j < |s.consumers| && s.consumers[j] == Open && u in s.heap
    ensures Leads(allowed, s, TakeNow(j, u), Taken(s, j, u))
  {
    var s1 := s.(heap := s.heap - multiset{u}, consumers := s.consumers[j := Popped(u)]);
    var s2 := s1.(size := s.size - 1, consumers := s.consumers[j := Returning(u)]);
    var s3 := s2.(log := s.log.(delivered := s.log.delivered + multiset{u}), consumers := s.consumers[j := Outside]);
    var es := TakeNow(j, u);
    assert Leads(allowed, s3, es[3..], s3);
    assert Apply(allowed, s2, es[2]) == s3 && es[2..][1..] == es[3..];
    assert Leads(allowed, s2, es[2..], s3);
    assert Apply(allowed, s1, es[1]) == s2 && es[1..][1..] == es[2..];
    assert Leads(allowed, s1, es[1..], s3);
    assert Apply(allowed, s, es[0]) == s1;
  }

  function PassCheck(j: nat): seq<Event> {
    [Consumer(j, CallNext), Consumer(j, CheckClosed)]
  }

  lemma PassLeads(allowed: Url -> bool, s: State, j: nat)
    requires j < |s.consumers| && s.consumers[j] == Outside && !s.closed
    ensures Leads(allowed, s, PassCheck(j), s.(consumers := s.consumers[j := Open]))
  {
    var s1 := s.(consumers := s.consumers[j := Looping]);
    var s2 := s.(consumers := s.consumers[j := Open]);
    var es := PassCheck(j);
    assert Leads(allowed, s2, es[2..], s2);
    assert Apply(allowed, s1, es[1]) == s2 && es[1..][1..] == es[2..];
    assert Leads(allowed, s1, es[1..], s2);
    assert Apply(allowed, s, es[0]) == s1;
  }

  /** One `Next` on an open frontier that has something queued, with nobody else moving, delivers a queued URL. */
  lemma NextLeads(allowed: Url -> bool, s: State, j: nat, u: Url)
    requires j < |s.consumers| && s.consumers[j] == Outside && u in s.heap && !s.closed
    ensures Leads(allowed, s, PassCheck(j) + TakeNow(j, u), Taken(s, j, u))
  {
    var s2 := s.(consumers := s.consumers[j := Open]);
    PassLeads(allowed, s, j);
    OpenLeads(allowed, s2, j, u);
    TakenAfterPass(s, j, u);
    LeadsJoin(allowed, s, PassCheck(j), s2, TakeNow(j, u), Taken(s, j, u));
  }

  lemma TakenAfterPass(s: State, j: nat, u: Url)
    requires j < |s.consumers|
    ensures Taken(s.(consumers := s.consumers[j := Open]), j, u) == Taken(s, j, u)
  {
    assert s.consumers[j := Open][j := Outside] == s.consumers[j := Outside];
  }

  lemma TakeLeads(allowed: Url -> bool, s: State, j: nat, u: Url)
    requires j < |s.consumers| && s.consumers[j] == Blocked && s.token && u in s.heap && !s.closed
    ensures Leads(allowed, s, WakeAndTake(j, u),
                  s.(token := false, heap := s.heap - multiset{u}, size := s.size - 1,
                     log := s.log.(delivered := s.log.delivered + multiset{u}), consumers := s.consumers[j := Outside]))
  {
    var s1 := s.(token := false, consumers := s.consumers[j := Looping]);
    var s2 := s1.(consumers := s.consumers[j := Open]);
    var s3 := s2.(heap := s.heap - multiset{u}, consumers := s.consumers[j := Popped(u)]);
    var s4 := s3.(size := s.size - 1, consumers := s.consumers[j := Returning(u)]);
    var s5 := s4.(log := s.log.(delivered := s.log.delivered + multiset{u}), consumers := s.consumers[j := Outside]);
    var es := WakeAndTake(j, u);
    assert Leads(allowed, s5, es[5..], s5);
    assert Apply(allowed, s4, es[4]) == s5 && es[4..][1..] == es[5..];
    assert Leads(allowed, s4, es[4..], s5);
    assert Apply(allowed, s3, es[3]) == s4 && es[3..][1..] == es[4..];
    assert Leads(allowed, s3, es[3..], s5);
    assert Apply(allowed, s2, es[2]) == s3 && es[2..][1..] == es[3..];
    assert Leads(allowed, s2, es[2..], s5);
    assert Apply(allowed, s1, es[1]) == s2 && es[1..][1..] == es[2..];
    assert Leads(allowed, s1, es[1..], s5);
    assert Apply(allowed, s, es[0]) == s1;
  }

  /** Two consumers block, two URLs are added, the notifications coalesce into one token, one consumer takes one
      URL and does not come back: the other stays blocked although a URL is queued. */
  lemma StrandingRun(allowed: Url -> bool, m: nat, n: nat, u: Url, v: Url) returns (events: seq<Event>, s: State)
    requires m >= 1 && n >= 2 && u != "" && v != "" && u != v && allowed(u) && allowed(v)
    ensures Leads(allowed, Fresh(m, n), events, s) && Stranded(s)
  {
    var s0 := Fresh(m, n);
    var s1 := s0.(consumers := s0.consumers[0 := Blocked]);
    var s2 := s1.(consumers := s1.consumers[1 := Blocked]);
    var s3 := s2.(seen := {u}, heap := multiset{u}, size := 1, token := true, log := Log(multiset{u}, multiset{}));
    var s4 := s3.(seen := {u} + {v}, heap := multiset{u} + multiset{v}, size := 2,
                  log := Log(multiset{u} + multiset{v}, multiset{}));
    s := s4.(token := false, heap := s4.heap - multiset{u}, size := 1, log := Log(s4.log.accepted, multiset{u}),
             consumers := s4.consumers[0 := Outside]);
    BlockLeads(allowed, s0, 0);
    BlockLeads(allowed, s1, 1);
    AddLeads(allowed, s2, u);
    assert s3 == s2.(seen := s2.seen + {u}, heap := s2.heap + multiset{u}, size := s2.size + 1, token := true,
                     log := s2.log.(accepted := s2.log.accepted + multiset{u}));
    AddLeads(allowed, s3, v);
    TakeLeads(allowed, s4, 0, u);
    assert s == s4.(token := false, heap := s4.heap - multiset{u}, size := s4.size - 1,
                    log := s4.log.(delivered := s4.log.delivered + multiset{u}),
                    consumers := s4.consumers[0 := Outside]);
    events := BlockOn(0) + BlockOn(1);
    LeadsJoin(allowed, s0, BlockOn(0), s1, BlockOn(1), s2);
    LeadsJoin(allowed, s0, events, s2, WholeAdd(u), s3);
    LeadsJoin(allowed, s0, events + WholeAdd(u), s3, WholeAdd(v), s4);
    LeadsJoin(allowed, s0, events + WholeAdd(u) + WholeAdd(v), s4, WakeAndTake(0, u), s);
    events := events + WholeAdd(u) + WholeAdd(v) + WakeAndTake(0, u);
    assert v in s.heap && s.consumers[1] == Blocked;
  }

  lemma {:induction false} NoProducerNoUrl(allowed: Url -> bool, s: State, events: seq<Event>, s': State)
    requires s.adders == [] && s.heap == multiset{} && Leads(allowed, s, events, s')
    ensures s'.heap == multiset{}
    decreases |events|
  {
    if events != [] {
      NoProducerNoUrl(allowed, Apply(allowed, s, events[0]), events[1..], s');
    }
  }

  /** "`Next` blocks only until a URL is available" holds of every reachable state, for any number of producers and
      consumers, exactly when there is at most one consumer or no producer (given two URLs that pass the filter). */
  lemma StrandedIffSeveralConsumers(allowed: Url -> bool, m: nat, n: nat, u: Url, v: Url)
    requires u != "" && v != "" && u != v && allowed(u) && allowed(v)
    ensures (forall s :: Reachable(allowed, m, n, s) ==> !Stranded(s)) <==> n <= 1 || m == 0
  {
    if n <= 1 || m == 0 {
      forall s | Reachable(allowed, m, n, s) ensures !Stranded(s) {
        var events :| Leads(allowed, Fresh(m, n), events, s);
        if m == 0 {
          NoProducerNoUrl(allowed, Fresh(m, n), events, s);
        } else {
          InitInv(Fresh(m, n));
          LeadsInv(allowed, Fresh(m, n), events, s);
        }
      }
    } else {
      var events, s := StrandingRun(allowed, m, n, u, v);
      assert Reachable(allowed, m, n, s) && Stranded(s);
    }
  }

  // Close wakes a single consumer, not any number of them.

  /** `Close` has returned, nothing under way will post another token, and a consumer is still blocked. */
  ghost predicate LeftBlocked(s: State) {
    && s.closed && s.closing == 0 && !s.token
    && (forall i | 0 <= i < |s.adders| :: s.adders[i] == Away)
    && exists j | 0 <= j < |s.consumers| :: s.consumers[j] == Blocked
  }

  /** The consumer is in the select, or on its way there past the closed check. */
  predicate Entering(pc: ConsumerPc) {
    pc.Open? || pc.Blocked?
  }

  /** After a completed `Close`, the token it posted is still there or some consumer has taken it and will see
      `closed`. */
  ghost predicate CloseInv(s: State) {
    && (s.closing > 0 ==> s.closed)
    && (s.closed && s.closing == 0 && !s.token && s.consumers != [] ==>
          exists j | 0 <= j < |s.consumers| :: !Entering(s.consumers[j]))
  }

  lemma ConsumerCloseInv(s: State, j: nat, a: ConsumerAct)
    requires ConsumerEnabled(s, j, a) && CloseInv(s)
    ensures CloseInv(ConsumerStep(s, j, a))
  {
    var s' := ConsumerStep(s, j, a);
    if s'.closed && s'.closing == 0 && !s'.token {
      if a.Wake? {
        assert !Entering(s'.consumers[j]);
      } else {
        var i :| 0 <= i < |s.consumers| && !Entering(s.consumers[i]);
        assert !Entering(s'.consumers[i]);
      }
    }
  }

  lemma AdderCloseInv(allowed: Url -> bool, s: State, i: nat, a: AdderAct)
    requires AdderEnabled(allowed, s, i, a) && CloseInv(s)
    ensures CloseInv(AdderStep(allowed, s, i, a))
  {
    var s' := AdderStep(allowed, s, i, a);
    assert s'.consumers == s.consumers && s'.closed == s.closed && s'.closing == s.closing && (s.token ==> s'.token);
  }

  lemma StepCloseInv(allowed: Url -> bool, s: State, e: Event)
    requires Enabled(allowed, s, e) && CloseInv(s)
    ensures CloseInv(Apply(allowed, s, e))
  {
    match e
    case Adder(i, a) => AdderCloseInv(allowed, s, i, a);
    case Consumer(j, a) => ConsumerCloseInv(s, j, a);
    case _ =>
  }

  lemma {:induction false} LeadsCloseInv(allowed: Url -> bool, s: State, events: seq<Event>, s': State)
    requires CloseInv(s) && Leads(allowed, s, events, s')
    ensures CloseInv(s') && |s'.consumers| == |s.consumers|
    decreases |events|
  {
    if events != [] {
      StepCloseInv(allowed, s, events[0]);
      LeadsCloseInv(allowed, Apply(allowed, s, events[0]), events[1..], s');
    }
  }

  function CloseAndWake(j: nat): seq<Event> {
    [SetClosed, CloseNotify, Consumer(j, Wake)]
  }

  lemma CloseLeads(allowed: Url -> bool, s: State, j: nat)
    requires j < |s.consumers| && s.consumers[j] == Blocked && s.closing == 0
    ensures Leads(allowed, s, CloseAndWake(j),
        s.(closed := true, token := false, consumers := s.consumers[j := Looping]))
  {
    var s1 := s.(closed := true, closing := 1);
    var s2 := s1.(closing := 0, token := true);
    var s3 := s2.(token := false, consumers := s.consumers[j := Looping]);
    var es := CloseAndWake(j);
    assert Leads(allowed, s3, es[3..], s3);
    assert Apply(allowed, s2, es[2]) == s3 && es[2..][1..] == es[3..];
    assert Leads(allowed, s2, es[2..], s3);
    assert Apply(allowed, s1, es[1]) == s2 && es[1..][1..] == es[2..];
    assert Leads(allowed, s1, es[1..], s3);
    assert Apply(allowed, s, es[0]) == s1;
  }

  /** Two consumers block, `Close` runs to its end, one consumer takes the token: the other stays blocked for good. */
  lemma LeftBlockedRun(allowed: Url -> bool, m: nat, n: nat) returns (events: seq<Event>, s: State)
    requires n >= 2
    ensures Leads(allowed, Fresh(m, n), events, s) && LeftBlocked(s)
  {
    var s0 := Fresh(m, n);
    var s1 := s0.(consumers := s0.consumers[0 := Blocked]);
    var s2 := s1.(consumers := s1.consumers[1 := Blocked]);
    s := s2.(closed := true, token := false, consumers := s2.consumers[0 := Looping]);
    BlockLeads(allowed, s0, 0);
    BlockLeads(allowed, s1, 1);
    CloseLeads(allowed, s2, 0);
    events := BlockOn(0) + BlockOn(1);
    LeadsJoin(allowed, s0, BlockOn(0), s1, BlockOn(1), s2);
    LeadsJoin(allowed, s0, events, s2, CloseAndWake(0), s);
    events := events + CloseAndWake(0);
    assert s.consumers[1] == Blocked;
  }

  /** "`Close` wakes any waiting consumers" holds of every reachable state, for any number of producers, exactly when
      there is at most one consumer. */
  lemma CloseWakesAllIff(allowed: Url -> bool, m: nat, n: nat)
    ensures (forall s :: Reachable(allowed, m, n, s) ==> !LeftBlocked(s)) <==> n <= 1
  {
    if n <= 1 {
      forall s | Reachable(allowed, m, n, s) ensures !LeftBlocked(s) {
        var events :| Leads(allowed, Fresh(m, n), events, s);
        LeadsCloseInv(allowed, Fresh(m, n), events, s);
      }
    } else {
      var events, s := LeftBlockedRun(allowed, m, n);
      assert Reachable(allowed, m, n, s) && LeftBlocked(s);
    }
  }

  // The deduplicator on its own, with interference between its two sections.

  class Deduplicator {
    var seen: set<Url>

    constructor ()
      ensures seen == {}
    {
      seen := {};
    }

    /** `MarkSeen`, where `inserted` is what other goroutines insert between the read unlock and the write lock:
        the answer is true exactly if this call is the one that put the URL in. */
    method MarkSeen(url: Url, inserted: set<Url>) returns (isNew: bool)
      modifies this
      ensures url in old(seen) ==> !isNew && seen == old(seen)
      ensures url !in old(seen) ==> isNew == (url !in inserted) && seen == old(seen) + inserted + {url}
    {
      if url in seen {
        return false;
      }
      seen := seen + inserted;
      if url in seen {
        return false;
      }
      seen := seen + {url};
      return true;
    }
  }
}
