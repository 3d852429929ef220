/** Whole runs of the caching middleware of `pkg/middleware/cache.go`: where a hit comes from, why the cache is
    transparent, and which keys it holds. */
module CacheRuns {
  import opened Collections
  import opened CacheControl
  import opened Cache

  // One request through the middleware.

  datatype Config = Config(capacity: nat, defaultTtl: int, methods: set<string>, statuses: set<int>)

  predicate ValidConfig(c: Config) {
    c.capacity > 0 && c.defaultTtl > 0
  }

  /** What `next` returns: a response, neither response nor error, or an error. */
  datatype Answer = Reply(response: Response) | NilReply | Failure(error: string)

  /** A request, the times at which `get` and `set` read the clock, and what `next` would answer. */
  datatype Exchange = Exchange(verb: string, url: string, getAt: int, setAt: int, answer: Answer)

  function UpperChar(c: char): char {
    if 'a' <= c <= 'z' then (c as int - 32) as char else c
  }

  function Verb(verb: string): string {
    if verb == "" then "GET" else seq(|verb|, i requires 0 <= i < |verb| => UpperChar(verb[i]))
  }

  /** A method is in upper case, or `GET` if it is missing. */
  lemma VerbIs(verb: string)
    ensures verb == "" ==> Verb(verb) == "GET"
    ensures verb != "" ==> EqualFold(Verb(verb), Lower(verb))
    ensures forall i | 0 <= i < |Verb(verb)| :: !('a' <= Verb(verb)[i] <= 'z')
  {
  }

  function CacheKey(verb: string, url: string): Key {
    verb + " " + url
  }

  predicate Cacheable(c: Config, r: Response) {
    r.status in c.statuses && !HasNoStore(r.cacheControl)
  }

  function Stored(c: Config, key: Key, r: Response, now: int): Entry {
    Entry(key, r, ExpiryTime(ResponseTtl(r.cacheControl, c.defaultTtl), now))
  }

  /** `ProcessRequest`: the entries afterwards and what the caller gets. */
  function Serve(c: Config, s: seq<Entry>, x: Exchange): (seq<Entry>, Answer) {
    if Verb(x.verb) !in c.methods then (s, x.answer)
    else
      var key := CacheKey(Verb(x.verb), x.url);
      var (s1, hit) := Get(s, key, x.getAt);
      if hit.Some? then (s1, Reply(hit.value))
      else if x.answer.Reply? && Cacheable(c, x.answer.response) then
        (Set(c.capacity, s1, Stored(c, key, x.answer.response, x.setAt)), x.answer)
      else (s1, x.answer)
  }

  lemma StillThere(list: seq<Element>, before: seq<Element>)
    requires multiset(list) <= multiset(before)
    ensures forall i | 0 <= i < |list| :: list[i] in before
  {
    forall i | 0 <= i < |list| ensures list[i] in before {
      assert list[i] in multiset(list);
    }
  }

  method ProcessRequest(c: Config, cache: LruCache, x: Exchange) returns (a: Answer)
    requires cache.Valid() && cache.maxEntries == c.capacity
    modifies cache, cache.lru
    ensures cache.Valid() && (cache.Contents(), a) == Serve(c, old(cache.Contents()), x)
  {
    var verb := Verb(x.verb);
    if verb !in c.methods {
      return x.answer;
    }
    var key := CacheKey(verb, x.url);
    var hit := cache.Fetch(key, x.getAt);
    if hit.Some? {
      return Reply(hit.value);
    }
    if !x.answer.Reply? {
      return x.answer;
    }
    var r := x.answer.response;
    if r.status in c.statuses && !HasNoStore(r.cacheControl) {
      StillThere(cache.lru, old(cache.lru));
      cache.Store(key, r, ResponseTtl(r.cacheControl, c.defaultTtl), x.setAt);
    }
    return x.answer;
  }

  // The two locked sections, in any interleaving.

  datatype Op = Fetch(key: Key, now: int) | Put(key: Key, response: Response, ttl: int, now: int)

  function Do(capacity: nat, s: seq<Entry>, op: Op): seq<Entry> {
    match op
    case Fetch(k, now) => Get(s, k, now).0
    case Put(k, r, ttl, now) => Set(capacity, s, Entry(k, r, ExpiryTime(ttl, now)))
  }

  function DoAll(capacity: nat, s: seq<Entry>, ops: seq<Op>): seq<Entry>
    decreases |ops|
  {
    if ops == [] then s else DoAll(capacity, Do(capacity, s, ops[0]), ops[1..])
  }

  /** What an initially empty cache holds after `ops`. */
  function AfterOps(capacity: nat, ops: seq<Op>): seq<Entry> {
    DoAll(capacity, [], ops)
  }

  lemma {:induction false} DoAllJoin(capacity: nat, s: seq<Entry>, a: seq<Op>, b: seq<Op>)
    ensures DoAll(capacity, s, a + b) == DoAll(capacity, DoAll(capacity, s, a), b)
    decreases |a|
  {
    if a == [] {
      assert a + b == b;
    } else {
      assert (a + b)[1..] == a[1..] + b;
      DoAllJoin(capacity, Do(capacity, s, a[0]), a[1..], b);
    }
  }

  /** The last `set` for `key`. */
  function LatestPut(ops: seq<Op>, key: Key): Option<Op> {
    if ops == [] then None
    else
      var last := ops[|ops| - 1];
      if last.Put? && last.key == key then Some(last) else LatestPut(ops[..|ops| - 1], key)
  }

  lemma {:induction false} LookupIs(s: seq<Entry>, key: Key)
    ensures Lookup(s, key).Some? <==> key in Keys(s)
    ensures Lookup(s, key).Some? ==> Lookup(s, key).value in s && Lookup(s, key).value.key == key
  {
    if s != [] {
      LookupIs(s[1..], key);
      assert Keys(s) == [s[0].key] + Keys(s[1..]);
    }
  }

  // Sequences of distinct keys.

  function WithoutKey(ks: seq<Key>, k: Key): seq<Key> {
    if ks == [] then [] else if ks[0] == k then ks[1..] else [ks[0]] + WithoutKey(ks[1..], k)
  }

  lemma ConsDistinct(k: Key, ks: seq<Key>)
    ensures Distinct([k] + ks) <==> Distinct(ks) && k !in ks
  {
    var all := [k] + ks;
    if Distinct(all) {
      forall i, j | 0 <= i < j < |ks| ensures ks[i] != ks[j] {
        assert all[i + 1] != all[j + 1];
      }
      forall i | 0 <= i < |ks| ensures ks[i] != k {
        assert all[0] != all[i + 1];
      }
    }
  }

  lemma {:induction false} WithoutKeyIs(ks: seq<Key>, k: Key)
    requires Distinct(ks)
    ensures Distinct(WithoutKey(ks, k)) && forall x :: x in WithoutKey(ks, k) <==> x in ks && x != k
    ensures |WithoutKey(ks, k)| == |ks| - (if k in ks then 1 else 0)
  {
    if ks != [] {
      assert ks == [ks[0]] + ks[1..];
      ConsDistinct(ks[0], ks[1..]);
      WithoutKeyIs(ks[1..], k);
      ConsDistinct(ks[0], WithoutKey(ks[1..], k));
    }
  }

  lemma {:induction false} RemoveKeyKeys(s: seq<Entry>, key: Key)
    ensures Keys(RemoveKey(s, key)) == WithoutKey(Keys(s), key)
  {
    if s != [] {
      RemoveKeyKeys(s[1..], key);
      assert Keys(s)[1..] == Keys(s[1..]);
      assert Keys(RemoveKey(s, key)) ==
        if s[0].key == key then Keys(s[1..]) else [s[0].key] + Keys(RemoveKey(s[1..], key));
    }
  }

  lemma {:induction false} RemovedWereThere(s: seq<Entry>, key: Key, e: Entry)
    requires e in RemoveKey(s, key)
    ensures e in s
  {
    if s[0].key != key && e != s[0] {
      RemovedWereThere(s[1..], key, e);
    }
  }

  lemma RemovedShape(s: seq<Entry>, key: Key)
    requires Distinct(Keys(s))
    ensures var r := RemoveKey(s, key);
      && Distinct(Keys(r)) && (forall k :: k in Keys(r) <==> k in Keys(s) && k != key)
      && |r| == |s| - (if key in Keys(s) then 1 else 0)
  {
    RemoveKeyKeys(s, key);
    WithoutKeyIs(Keys(s), key);
  }

  lemma FrontShape(e: Entry, s: seq<Entry>)
    requires Distinct(Keys(s)) && e.key !in Keys(s)
    ensures Distinct(Keys([e] + s)) && forall k :: k in Keys([e] + s) <==> k == e.key || k in Keys(s)
  {
    assert Keys([e] + s) == [e.key] + Keys(s);
    ConsDistinct(e.key, Keys(s));
  }

  lemma FittingShape(capacity: nat, s: seq<Entry>)
    requires capacity > 0 && Distinct(Keys(s))
    ensures var r := Fitting(capacity, s);
      && r <= s && |r| < capacity && Distinct(Keys(r)) && (forall k | k in Keys(r) :: k in Keys(s))
  {
    var r := Fitting(capacity, s);
    assert forall i | 0 <= i < |r| :: Keys(r)[i] == Keys(s)[i];
  }

  /** `get` keeps the keys distinct and brings in none. */
  lemma GetShape(s: seq<Entry>, key: Key, now: int)
    requires Distinct(Keys(s))
    ensures var r := Get(s, key, now).0;
      && Distinct(Keys(r)) && |r| <= |s| && (forall k | k != key :: k in Keys(r) <==> k in Keys(s))
      && (key in Keys(r) ==> key in Keys(s))
  {
    LookupIs(s, key);
    RemovedShape(s, key);
    if Lookup(s, key).Some? {
      FrontShape(Lookup(s, key).value, RemoveKey(s, key));
    }
  }

  /** `set` keeps the keys distinct and within the capacity, and holds its own key. */
  lemma SetShape(capacity: nat, s: seq<Entry>, e: Entry)
    requires capacity > 0 && Distinct(Keys(s)) && |s| <= capacity
    ensures var r := Set(capacity, s, e);
      && Distinct(Keys(r)) && |r| <= capacity && e.key in Keys(r)
      && (|s| < capacity || e.key in Keys(s) ==> forall k | k in Keys(s) :: k in Keys(r))
  {
    LookupIs(s, e.key);
    if Lookup(s, e.key).Some? {
      RemovedShape(s, e.key);
      FrontShape(e, RemoveKey(s, e.key));
    } else {
      FittingShape(capacity, s);
      FrontShape(e, Fitting(capacity, s));
    }
  }

  /** Every operation keeps the keys distinct and within the capacity. */
  lemma DoKeepsShape(capacity: nat, s: seq<Entry>, op: Op)
    requires capacity > 0 && Distinct(Keys(s)) && |s| <= capacity
    ensures Distinct(Keys(Do(capacity, s, op))) && |Do(capacity, s, op)| <= capacity
  {
    match op
    case Fetch(key, now) => GetShape(s, key, now);
    case Put(key, response, ttl, now) => SetShape(capacity, s, Entry(key, response, ExpiryTime(ttl, now)));
  }

  /** Only `set` brings in an entry, and it replaces whatever its key had. */
  lemma DoKeepsEntries(capacity: nat, s: seq<Entry>, op: Op, e: Entry)
    requires Distinct(Keys(s)) && e in Do(capacity, s, op)
    ensures if op.Put? && e.key == op.key then e == Entry(op.key, op.response, ExpiryTime(op.ttl, op.now)) else e in s
  {
    LookupIs(s, op.key);
    if e in RemoveKey(s, op.key) {
      RemovedWereThere(s, op.key, e);
      RemoveKeyKeys(s, op.key);
      WithoutKeyIs(Keys(s), op.key);
      assert e.key in Keys(RemoveKey(s, op.key)) by {
        var i :| 0 <= i < |RemoveKey(s, op.key)| && RemoveKey(s, op.key)[i] == e;
        assert Keys(RemoveKey(s, op.key))[i] == e.key;
      }
    } else if e in s {
      var i :| 0 <= i < |s| && s[i] == e;
      assert Keys(s)[i] == e.key;
    }
  }

  ghost predicate FromLatestPut(ops: seq<Op>, e: Entry) {
    var p := LatestPut(ops, e.key);
    p.Some? && p.value.Put? && p.value.response == e.response && e.expiry == ExpiryTime(p.value.ttl, p.value.now)
  }

  lemma {:induction false} OpsInv(capacity: nat, ops: seq<Op>)
    requires capacity > 0
    ensures var s := AfterOps(capacity, ops);
      Distinct(Keys(s)) && |s| <= capacity && forall e | e in s :: FromLatestPut(ops, e)
  {
    if ops != [] {
      var before, op := ops[..|ops| - 1], ops[|ops| - 1];
      OpsInv(capacity, before);
      DoAllJoin(capacity, [], before, [op]);
      assert ops == before + [op];
      DoKeepsShape(capacity, AfterOps(capacity, before), op);
      forall e | e in AfterOps(capacity, ops) ensures FromLatestPut(ops, e) {
        DoKeepsEntries(capacity, AfterOps(capacity, before), op, e);
        if !(op.Put? && e.key == op.key) {
          assert FromLatestPut(before, e);
        }
      }
    }
  }

  /** In any interleaving of `get` and `set`, a hit returns the response that the most recent `set` stored for
      that key, and not after its expiry. */
  lemma HitIsLatestPut(capacity: nat, ops: seq<Op>, key: Key, now: int)
    requires capacity > 0
    ensures var hit := Get(AfterOps(capacity, ops), key, now).1;
      hit.Some? ==>
        && LatestPut(ops, key).Some? && LatestPut(ops, key).value.Put?
        && LatestPut(ops, key).value.response == hit.value
        && (LatestPut(ops, key).value.ttl > 0 ==> now <= LatestPut(ops, key).value.now + LatestPut(ops, key).value.ttl)
  {
    OpsInv(capacity, ops);
    LookupIs(AfterOps(capacity, ops), key);
  }

  /** Exactly when a `get` is a hit, and with what: if the key is held, it answers with the response of the most recent
      `set` for it, unless that has expired; if the key is not held, it does not answer. */
  lemma HitIff(capacity: nat, ops: seq<Op>, key: Key, now: int)
    requires capacity > 0
    ensures var s := AfterOps(capacity, ops); var hit := Get(s, key, now).1; var p := LatestPut(ops, key);
      if key !in Keys(s) then hit == None
      else
        && p.Some? && p.value.Put?
        && hit == if p.value.ttl > 0 && now > p.value.now + p.value.ttl then None else Some(p.value.response)
  {
    OpsInv(capacity, ops);
    LookupIs(AfterOps(capacity, ops), key);
  }

  /** A `set` holds its own key and, with room or for a key that was held, every other; a `get` takes away at most the
      key it is for. */
  lemma HeldAfter(capacity: nat, s: seq<Entry>, op: Op, key: Key)
    requires capacity > 0 && Distinct(Keys(s)) && |s| <= capacity
    ensures op.Put? && op.key == key ==> key in Keys(Do(capacity, s, op))
    ensures op.Put? && (|s| < capacity || op.key in Keys(s)) && key in Keys(s) ==> key in Keys(Do(capacity, s, op))
    ensures op.Fetch? && op.key != key ==> (key in Keys(Do(capacity, s, op)) <==> key in Keys(s))
  {
    match op
    case Fetch(k, now) => GetShape(s, k, now);
    case Put(k, response, ttl, now) => SetShape(capacity, s, Entry(k, response, ExpiryTime(ttl, now)));
  }

  /** If everything that is ever stored under a key is the same response, every hit on the key returns it, in any
      interleaving of any number of requests. */
  lemma HitsAgree(capacity: nat, ops: seq<Op>, f: Key -> Response, key: Key, now: int)
    requires capacity > 0 && forall i | 0 <= i < |ops| && ops[i].Put? :: ops[i].response == f(ops[i].key)
    ensures var hit := Get(AfterOps(capacity, ops), key, now).1; hit.Some? ==> hit.value == f(key)
  {
    HitIsLatestPut(capacity, ops, key, now);
    if LatestPut(ops, key).Some? {
      var i := LatestPutIn(ops, key);
    }
  }

  /** Capacity and uniqueness of keys, in any interleaving. */
  lemma BoundedAndDistinct(capacity: nat, ops: seq<Op>)
    requires capacity > 0
    ensures |AfterOps(capacity, ops)| <= capacity && Distinct(Keys(AfterOps(capacity, ops)))
  {
    OpsInv(capacity, ops);
  }

  // Sequential runs.

  function After(c: Config, xs: seq<Exchange>): seq<Entry> {
    if xs == [] then [] else Serve(c, After(c, xs[..|xs| - 1]), xs[|xs| - 1]).0
  }

  /** The operations that one exchange performs. */
  function OpsOf(c: Config, s: seq<Entry>, x: Exchange): seq<Op> {
    if Verb(x.verb) !in c.methods then []
    else
      var key := CacheKey(Verb(x.verb), x.url);
      var fetch := Op.Fetch(key, x.getAt);
      if Get(s, key, x.getAt).1.None? && x.answer.Reply? && Cacheable(c, x.answer.response) then
        [fetch, Put(key, x.answer.response, ResponseTtl(x.answer.response.cacheControl, c.defaultTtl), x.setAt)]
      else [fetch]
  }

  function RunOps(c: Config, xs: seq<Exchange>): seq<Op> {
    if xs == [] then []
    else RunOps(c, xs[..|xs| - 1]) + OpsOf(c, After(c, xs[..|xs| - 1]), xs[|xs| - 1])
  }

  lemma ServeIsOps(c: Config, s: seq<Entry>, x: Exchange)
    ensures Serve(c, s, x).0 == DoAll(c.capacity, s, OpsOf(c, s, x))
  {
    var ops := OpsOf(c, s, x);
    if |ops| == 2 {
      assert ops == [ops[0]] + [ops[1]];
      DoAllJoin(c.capacity, s, [ops[0]], [ops[1]]);
    }
  }

  /** A sequential run of requests is one of the interleavings. */
  lemma {:induction false} RunIsOps(c: Config, xs: seq<Exchange>)
    ensures After(c, xs) == AfterOps(c.capacity, RunOps(c, xs))
  {
    if xs != [] {
      var before, x := xs[..|xs| - 1], xs[|xs| - 1];
      RunIsOps(c, before);
      ServeIsOps(c, After(c, before), x);
      DoAllJoin(c.capacity, [], RunOps(c, before), OpsOf(c, After(c, before), x));
    }
  }

  /** Everything that is stored was answered by `next` to a request with that key that was not a hit, with an allowed
      status and without no-store. */
  lemma {:induction false} PutFrom(c: Config, xs: seq<Exchange>, i: nat) returns (k: nat)
    requires i < |RunOps(c, xs)| && RunOps(c, xs)[i].Put?
    ensures k < |xs| && Verb(xs[k].verb) in c.methods
    ensures var op := RunOps(c, xs)[i];
      && xs[k].answer == Reply(op.response) && CacheKey(Verb(xs[k].verb), xs[k].url) == op.key
      && Cacheable(c, op.response) && op.ttl == ResponseTtl(op.response.cacheControl, c.defaultTtl)
      && op.now == xs[k].setAt && Get(After(c, xs[..k]), op.key, xs[k].getAt).1.None?
  {
    var ops := RunOps(c, xs[..|xs| - 1]);
    if i < |ops| {
      k := PutFrom(c, xs[..|xs| - 1], i);
      assert xs[..|xs| - 1][..k] == xs[..k];
    } else {
      k := |xs| - 1;
    }
  }

  lemma {:induction false} LatestPutIn(ops: seq<Op>, key: Key) returns (i: nat)
    requires LatestPut(ops, key).Some?
    ensures i < |ops| && ops[i] == LatestPut(ops, key).value && ops[i].Put? && ops[i].key == key
  {
    var last := ops[|ops| - 1];
    if last.Put? && last.key == key {
      i := |ops| - 1;
    } else {
      i := LatestPutIn(ops[..|ops| - 1], key);
    }
  }

  /** Every hit returns a response that `next` returned earlier in the run, to a request for the same key that was
      itself not a hit, with an allowed status and no no-store directive, no later than its store time plus its TTL. */
  lemma HitWasAnswered(c: Config, xs: seq<Exchange>, key: Key, now: int)
    requires ValidConfig(c)
    ensures var hit := Get(After(c, xs), key, now).1;
      hit.Some? ==>
        && hit.value.status in c.statuses && !HasNoStore(hit.value.cacheControl)
        && exists k :: 0 <= k < |xs| && xs[k].answer == Reply(hit.value) && CacheKey(Verb(xs[k].verb), xs[k].url) == key
             && Get(After(c, xs[..k]), key, xs[k].getAt).1.None?
             && now <= xs[k].setAt + ResponseTtl(hit.value.cacheControl, c.defaultTtl)
  {
    RunIsOps(c, xs);
    HitIsLatestPut(c.capacity, RunOps(c, xs), key, now);
    if Get(After(c, xs), key, now).1.Some? {
      var i := LatestPutIn(RunOps(c, xs), key);
      var k := PutFrom(c, xs, i);
      TtlPositive(Get(After(c, xs), key, now).1.value.cacheControl, c.defaultTtl);
    }
  }

  lemma TtlPositive(header: string, defaultTtl: int)
    requires defaultTtl > 0
    ensures ResponseTtl(header, defaultTtl) > 0
  {
    FirstMaxAgeIs(Directives(header));
  }

  /** No allowed method contains a blank, so a key determines the method and the URL. */
  predicate BlankFree(c: Config) {
    forall m | m in c.methods :: ' ' !in m
  }

  lemma {:induction false} MethodOfKey(m: string, u: string)
    requires ' ' !in m
    ensures Until(CacheKey(m, u), ' ') == m
  {
    if m != "" {
      MethodOfKey(m[1..], u);
      assert CacheKey(m, u)[1..] == CacheKey(m[1..], u);
      assert m == [m[0]] + m[1..];
    }
  }

  lemma KeyInjective(m: string, u: string, n: string, v: string)
    requires ' ' !in m && ' ' !in n && CacheKey(m, u) == CacheKey(n, v)
    ensures m == n && u == v
  {
    MethodOfKey(m, u);
    MethodOfKey(n, v);
    assert u == CacheKey(m, u)[|m| + 1..] == CacheKey(n, v)[|n| + 1..] == v;
  }

  /** `next` depends only on the method (in upper case) and the URL. */
  ghost predicate AnswersBy(next: (string, string) -> Answer, xs: seq<Exchange>) {
    forall i | 0 <= i < |xs| :: xs[i].answer == next(Verb(xs[i].verb), xs[i].url)
  }

  /** The cache is transparent: on every run over such a `next`, every caller gets what `next` would have said. */
  lemma Transparent(c: Config, next: (string, string) -> Answer, xs: seq<Exchange>, x: Exchange)
    requires ValidConfig(c) && BlankFree(c) && AnswersBy(next, xs + [x])
    ensures Serve(c, After(c, xs), x).1 == next(Verb(x.verb), x.url)
  {
    assert (xs + [x])[|xs|] == x;
    if Verb(x.verb) in c.methods {
      var key := CacheKey(Verb(x.verb), x.url);
      var hit := Get(After(c, xs), key, x.getAt).1;
      if hit.Some? {
        RunIsOps(c, xs);
        HitIsLatestPut(c.capacity, RunOps(c, xs), key, x.getAt);
        var i := LatestPutIn(RunOps(c, xs), key);
        var k := PutFrom(c, xs, i);
        assert (xs + [x])[k] == xs[k];
        KeyInjective(Verb(x.verb), x.url, Verb(xs[k].verb), xs[k].url);
      }
    }
  }

  // Which keys the cache holds.

  /** The distinct keys of a history, most recent first. */
  function Recent(history: seq<Key>): seq<Key> {
    if history == [] then []
    else [history[|history| - 1]] + WithoutKey(Recent(history[..|history| - 1]), history[|history| - 1])
  }

  function Take(n: nat, ks: seq<Key>): seq<Key> {
    if |ks| <= n then ks else ks[..n]
  }

  lemma {:induction false} RecentDistinct(history: seq<Key>)
    ensures Distinct(Recent(history)) && forall k :: k in Recent(history) <==> k in history
  {
    if history != [] {
      var before, last := history[..|history| - 1], history[|history| - 1];
      RecentDistinct(before);
      WithoutKeyIs(Recent(before), last);
      ConsDistinct(last, WithoutKey(Recent(before), last));
      assert history == before + [last];
    }
  }

  /** The position of the last request for `k`. */
  function LastUse(history: seq<Key>, k: Key): (i: int)
    ensures i < |history|
  {
    if history == [] then -1
    else if history[|history| - 1] == k then |history| - 1
    else LastUse(history[..|history| - 1], k)
  }

  /** Every key of `ks` was last used before `bound`, and later keys in `ks` were last used earlier. */
  ghost predicate ByLastUse(history: seq<Key>, ks: seq<Key>, bound: int)
    decreases |ks|
  {
    ks == [] || (LastUse(history, ks[0]) < bound && ByLastUse(history, ks[1..], LastUse(history, ks[0])))
  }

  lemma {:induction false} ByLastUseWeaken(history: seq<Key>, ks: seq<Key>, bound: int, larger: int)
    requires ByLastUse(history, ks, bound) && bound <= larger
    ensures ByLastUse(history, ks, larger)
  {
  }

  lemma {:induction false} WithoutKeyOrdered(history: seq<Key>, ks: seq<Key>, k: Key, bound: int)
    requires ByLastUse(history, ks, bound)
    ensures ByLastUse(history, WithoutKey(ks, k), bound)
    decreases |ks|
  {
    if ks != [] {
      if ks[0] == k {
        ByLastUseWeaken(history, ks[1..], LastUse(history, ks[0]), bound);
      } else {
        WithoutKeyOrdered(history, ks[1..], k, LastUse(history, ks[0]));
        assert WithoutKey(ks, k)[1..] == WithoutKey(ks[1..], k);
      }
    }
  }

  /** One more request for another key does not change when the keys of `ks` were last used. */
  lemma {:induction false} OrderStays(history: seq<Key>, k: Key, ks: seq<Key>, bound: int)
    requires ByLastUse(history, ks, bound) && k !in ks
    ensures ByLastUse(history + [k], ks, bound)
    decreases |ks|
  {
    if ks != [] {
      assert (history + [k])[..|history|] == history;
      OrderStays(history, k, ks[1..], LastUse(history, ks[0]));
    }
  }

  /** `Recent` is the history's keys in the order of their last use, latest first. */
  lemma {:induction false} RecentOrdered(history: seq<Key>)
    ensures ByLastUse(history, Recent(history), |history|)
  {
    if history != [] {
      var before, last := history[..|history| - 1], history[|history| - 1];
      RecentDistinct(before);
      RecentOrdered(before);
      var rest := WithoutKey(Recent(before), last);
      WithoutKeyIs(Recent(before), last);
      WithoutKeyOrdered(before, Recent(before), last, |before|);
      OrderStays(before, last, rest, |before|);
      assert history == before + [last] && Recent(history)[1..] == rest;
    }
  }

  /** What one cacheable request does to the keys. */
  function Touch(capacity: nat, ks: seq<Key>, k: Key): seq<Key>
    requires capacity > 0
  {
    if k in ks then [k] + WithoutKey(ks, k) else [k] + Take(capacity - 1, ks)
  }

  lemma {:induction false} TakeWithout(n: nat, ks: seq<Key>, k: Key)
    requires Distinct(ks)
    ensures k in Take(n, ks) ==> WithoutKey(Take(n, ks), k) == Take(n - 1, WithoutKey(ks, k))
    ensures k !in Take(n, ks) ==> Take(n, WithoutKey(ks, k)) == Take(n, ks)
  {
    if ks != [] && n > 0 {
      assert ks == [ks[0]] + ks[1..];
      TakeWithout(n - 1, ks[1..], k);
      assert Take(n, ks) == [ks[0]] + Take(n - 1, ks[1..]);
      if ks[0] != k {
        assert WithoutKey(ks, k) == [ks[0]] + WithoutKey(ks[1..], k);
        if k in Take(n, ks) {
          assert n > 1;
          assert Take(n - 1, WithoutKey(ks, k)) == [ks[0]] + Take(n - 2, WithoutKey(ks[1..], k));
        }
      }
    }
  }

  /** Touching a cache that holds the `capacity` most recent keys leaves it holding the `capacity` most recent. */
  lemma TouchTakes(capacity: nat, recent: seq<Key>, k: Key)
    requires capacity > 0 && Distinct(recent)
    ensures Touch(capacity, Take(capacity, recent), k) == Take(capacity, [k] + WithoutKey(recent, k))
  {
    TakeWithout(capacity, recent, k);
    TakeWithout(capacity - 1, recent, k);
    var held := Take(capacity, recent);
    assert Take(capacity, [k] + WithoutKey(recent, k)) == [k] + Take(capacity - 1, WithoutKey(recent, k));
    if k !in held {
      assert Take(capacity - 1, held) == Take(capacity - 1, recent);
      assert k !in Take(capacity - 1, recent);
    }
  }

  predicate AllFresh(s: seq<Entry>, now: int) {
    forall e | e in s :: !Expired(e.expiry, now)
  }

  /** The request and its answer may be cached, and nothing held has expired when it is looked up. */
  predicate PlainStep(c: Config, s: seq<Entry>, x: Exchange) {
    && Verb(x.verb) in c.methods
    && x.answer.Reply? && x.answer.response.status in c.statuses && !HasNoStore(x.answer.response.cacheControl)
    && AllFresh(s, x.getAt)
  }

  lemma KeysFront(e: Entry, s: seq<Entry>)
    ensures Keys([e] + s) == [e.key] + Keys(s)
  {
  }

  lemma KeysFitting(capacity: nat, s: seq<Entry>)
    requires capacity > 0 && |s| <= capacity
    ensures Keys(Fitting(capacity, s)) == Take(capacity - 1, Keys(s))
  {
  }

  /** A held key is a hit, and its entry goes to the front. */
  lemma ServeHit(c: Config, s: seq<Entry>, x: Exchange, key: Key)
    requires PlainStep(c, s, x) && key == CacheKey(Verb(x.verb), x.url) && key in Keys(s)
    ensures Keys(Serve(c, s, x).0) == [key] + WithoutKey(Keys(s), key)
  {
    LookupIs(s, key);
    var e := Lookup(s, key).value;
    assert !Expired(e.expiry, x.getAt);
    RemoveKeyKeys(s, key);
    KeysFront(e, RemoveKey(s, key));
  }

  /** A key that is not held is stored in front of what fits. */
  lemma ServeMiss(c: Config, s: seq<Entry>, x: Exchange, key: Key)
    requires ValidConfig(c) && PlainStep(c, s, x) && |s| <= c.capacity
    requires key == CacheKey(Verb(x.verb), x.url) && key !in Keys(s)
    ensures Keys(Serve(c, s, x).0) == [key] + Take(c.capacity - 1, Keys(s))
  {
    LookupIs(s, key);
    var e := Stored(c, key, x.answer.response, x.setAt);
    assert Serve(c, s, x).0 == [e] + Fitting(c.capacity, s);
    KeysFront(e, Fitting(c.capacity, s));
    KeysFitting(c.capacity, s);
  }

  lemma ServeTouches(c: Config, s: seq<Entry>, x: Exchange)
    requires ValidConfig(c) && PlainStep(c, s, x) && |s| <= c.capacity
    ensures Keys(Serve(c, s, x).0) == Touch(c.capacity, Keys(s), CacheKey(Verb(x.verb), x.url))
  {
    var key := CacheKey(Verb(x.verb), x.url);
    if key in Keys(s) {
      ServeHit(c, s, x, key);
    } else {
      ServeMiss(c, s, x, key);
    }
  }

  function Requested(xs: seq<Exchange>): seq<Key> {
    seq(|xs|, i requires 0 <= i < |xs| => CacheKey(Verb(xs[i].verb), xs[i].url))
  }

  ghost predicate PlainRun(c: Config, xs: seq<Exchange>) {
    forall i | 0 <= i < |xs| :: PlainStep(c, After(c, xs[..i]), xs[i])
  }

  lemma PlainPrefix(c: Config, xs: seq<Exchange>)
    requires PlainRun(c, xs) && xs != []
    ensures PlainRun(c, xs[..|xs| - 1]) && PlainStep(c, After(c, xs[..|xs| - 1]), xs[|xs| - 1])
  {
    var before := xs[..|xs| - 1];
    forall i | 0 <= i < |before| ensures PlainStep(c, After(c, before[..i]), before[i]) {
      assert before[..i] == xs[..i] && PlainStep(c, After(c, xs[..i]), xs[i]);
    }
  }

  lemma RecentRequested(xs: seq<Exchange>)
    requires xs != []
    ensures var key := CacheKey(Verb(xs[|xs| - 1].verb), xs[|xs| - 1].url);
      Recent(Requested(xs)) == [key] + WithoutKey(Recent(Requested(xs[..|xs| - 1])), key)
  {
    assert Requested(xs)[..|xs| - 1] == Requested(xs[..|xs| - 1]);
  }

  /** In a run of cacheable requests with cacheable answers and no expiry, the cache holds exactly the
      `capacity` most recently requested distinct keys, in recency order. */
  lemma {:induction false} HoldsMostRecent(c: Config, xs: seq<Exchange>)
    requires ValidConfig(c) && PlainRun(c, xs)
    ensures Keys(After(c, xs)) == Take(c.capacity, Recent(Requested(xs)))
  {
    if xs != [] {
      var before, x := xs[..|xs| - 1], xs[|xs| - 1];
      PlainPrefix(c, xs);
      HoldsMostRecent(c, before);
      var held, recent := After(c, before), Recent(Requested(before));
      assert |held| == |Keys(held)|;
      ServeTouches(c, held, x);
      RecentDistinct(Requested(before));
      TouchTakes(c.capacity, recent, CacheKey(Verb(x.verb), x.url));
      RecentRequested(xs);
    }
  }

  /** Inclusion: on the same requests, what a smaller cache holds is a prefix of what a larger one holds. */
  lemma SmallerIsPrefix(small: Config, large: Config, xs: seq<Exchange>)
    requires ValidConfig(small) && ValidConfig(large) && small.capacity <= large.capacity
    requires PlainRun(small, xs) && PlainRun(large, xs)
    ensures Keys(After(small, xs)) <= Keys(After(large, xs))
  {
    HoldsMostRecent(small, xs);
    HoldsMostRecent(large, xs);
  }

  /** In such a run a request is answered without `next` if and only if its key is among the `capacity` most recently
      requested ones, and then with the response that the last request for it got. */
  lemma HitIffRecent(c: Config, xs: seq<Exchange>, x: Exchange)
    requires ValidConfig(c) && PlainRun(c, xs) && PlainStep(c, After(c, xs), x)
    ensures var key := CacheKey(Verb(x.verb), x.url);
      var hit := Get(After(c, xs), key, x.getAt).1;
      && (hit.Some? <==> key in Take(c.capacity, Recent(Requested(xs))))
      && Serve(c, After(c, xs), x).1 == if hit.Some? then Reply(hit.value) else x.answer
  {
    HoldsMostRecent(c, xs);
    LookupIs(After(c, xs), CacheKey(Verb(x.verb), x.url));
  }
}
