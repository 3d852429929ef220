/** Totals over the threads of a step machine.

    Every concurrent protocol of the crawler is modelled with its threads in a sequence of program
    counters. What a machine's invariant says about all threads together (how many hold a permit, how many hold
    a given request, how much work they have left) is a total over that sequence, and one step of one
    thread changes a single position. The lemmas below are all that the machines need. */
module Tally {

  /** The number of positions of `s` whose element satisfies `p`. */
  function Count<V>(s: seq<V>, p: V -> bool): nat
  {
    if s == [] then 0 else (if p(s[0]) then 1 else 0) + Count(s[1..], p)
  }

  /** The sum of `f` over `s`. */
  function Sum<V>(s: seq<V>, f: V -> nat): nat
  {
    if s == [] then 0 else f(s[0]) + Sum(s[1..], f)
  }

  lemma {:induction false} CountUpdate<V>(s: seq<V>, i: nat, v: V, p: V -> bool)
    requires i < |s|
    ensures Count(s[i := v], p) + (if p(s[i]) then 1 else 0) == Count(s, p) + (if p(v) then 1 else 0)
  {
    if i == 0 {
      assert s[i := v][1..] == s[1..];
    } else {
      assert s[i := v][1..] == s[1..][i - 1 := v];
      CountUpdate(s[1..], i - 1, v, p);
    }
  }

  lemma {:induction false} SumUpdate<V>(s: seq<V>, i: nat, v: V, f: V -> nat)
    requires i < |s|
    ensures Sum(s[i := v], f) + f(s[i]) == Sum(s, f) + f(v)
  {
    if i == 0 {
      assert s[i := v][1..] == s[1..];
    } else {
      assert s[i := v][1..] == s[1..][i - 1 := v];
      SumUpdate(s[1..], i - 1, v, f);
    }
  }

  lemma {:induction false} CountJoin<V>(a: seq<V>, b: seq<V>, p: V -> bool)
    ensures Count(a + b, p) == Count(a, p) + Count(b, p)
  {
    if a == [] {
      assert a + b == b;
    } else {
      assert (a + b)[1..] == a[1..] + b;
      CountJoin(a[1..], b, p);
    }
  }

  lemma {:induction false} SumJoin<V>(a: seq<V>, b: seq<V>, f: V -> nat)
    ensures Sum(a + b, f) == Sum(a, f) + Sum(b, f)
  {
    if a == [] {
      assert a + b == b;
    } else {
      assert (a + b)[1..] == a[1..] + b;
      SumJoin(a[1..], b, f);
    }
  }

  lemma {:induction false} CountWitness<V>(s: seq<V>, p: V -> bool) returns (i: nat)
    requires Count(s, p) > 0
    ensures i < |s| && p(s[i])
  {
    if p(s[0]) {
      i := 0;
    } else {
      i := CountWitness(s[1..], p);
      i := i + 1;
    }
  }

  lemma {:induction false} CountMember<V>(s: seq<V>, i: nat, p: V -> bool)
    requires i < |s| && p(s[i])
    ensures Count(s, p) > 0
  {
    if i > 0 {
      CountMember(s[1..], i - 1, p);
    }
  }

  lemma {:induction false} CountZero<V>(s: seq<V>, i: nat, p: V -> bool)
    requires Count(s, p) == 0 && i < |s|
    ensures !p(s[i])
  {
    if i > 0 {
      CountZero(s[1..], i - 1, p);
    }
  }

  lemma {:induction false} CountNone<V>(s: seq<V>, p: V -> bool)
    requires forall i | 0 <= i < |s| :: !p(s[i])
    ensures Count(s, p) == 0
  {
    if s != [] {
      CountNone(s[1..], p);
    }
  }

  lemma {:induction false} CountBound<V>(s: seq<V>, p: V -> bool)
    ensures Count(s, p) <= |s|
  {
    if s != [] {
      CountBound(s[1..], p);
    }
  }

  lemma {:induction false} CountMonotone<V>(s: seq<V>, p: V -> bool, q: V -> bool)
    requires forall i | 0 <= i < |s| && p(s[i]) :: q(s[i])
    ensures Count(s, p) <= Count(s, q)
  {
    if s != [] {
      CountMonotone(s[1..], p, q);
    }
  }

  /** A quantity that no step decreases does not decrease over a run. */
  lemma {:induction false} NeverFalls<S(!new)>(run: seq<S>, next: (S, S) -> bool, f: S -> int, j: nat, k: nat)
    requires j <= k < |run| && forall i | 0 <= i < |run| - 1 :: next(run[i], run[i + 1])
    requires forall s, s' :: next(s, s') ==> f(s) <= f(s')
    ensures f(run[j]) <= f(run[k])
  {
    if j < k {
      NeverFalls(run, next, f, j, k - 1);
      assert next(run[k - 1], run[k - 1 + 1]);
    }
  }

  /** What every step keeps is kept over a run. */
  lemma {:induction false} AlwaysKept<S(!new)>(run: seq<S>, next: (S, S) -> bool, inv: S -> bool, j: nat, k: nat)
    requires j <= k < |run| && forall i | 0 <= i < |run| - 1 :: next(run[i], run[i + 1])
    requires inv(run[j]) && forall s, s' :: next(s, s') && inv(s) ==> inv(s')
    ensures inv(run[k])
  {
    if j < k {
      AlwaysKept(run, next, inv, j, k - 1);
      assert next(run[k - 1], run[k - 1 + 1]);
    }
  }

  /** A set of numbers below `n` has at most `n` elements. */
  lemma {:induction false} BoundedSetSize(s: set<nat>, n: nat)
    requires forall x | x in s :: x < n
    ensures |s| <= n
  {
    if n == 0 {
      assert s == {};
    } else {
      BoundedSetSize(s - {n - 1}, n - 1);
      assert |s| <= |s - {n - 1}| + 1;
    }
  }

  /** An injective image of `s` in the numbers below `n`: `s` has at most `n` elements. */
  lemma {:induction false} PigeonHole<X>(s: set<X>, f: X -> nat, n: nat)
    requires forall x | x in s :: f(x) < n
    requires forall x, y | x in s && y in s && f(x) == f(y) :: x == y
    ensures |s| <= n
    decreases |s|
  {
    var image := set x | x in s :: f(x);
    SameSize(s, image, f);
    BoundedSetSize(image, n);
  }

  lemma {:induction false} SameSize<X, Y>(s: set<X>, image: set<Y>, f: X -> Y)
    requires image == set x | x in s :: f(x)
    requires forall x, y | x in s && y in s && f(x) == f(y) :: x == y
    ensures |s| == |image|
    decreases |s|
  {
    if s == {} {
      assert image == {};
    } else {
      var x :| x in s;
      var rest := set y | y in s - {x} :: f(y);
      SameSize(s - {x}, rest, f);
      assert image == rest + {f(x)} && f(x) !in rest;
    }
  }

  /** The positions of `s` whose element satisfies `p`. */
  ghost function Positions<V>(s: seq<V>, p: V -> bool): set<nat> {
    set i: nat | i < |s| && p(s[i])
  }

  /** Counting positions is counting the elements of a set of positions. */
  lemma {:induction false} CountIsSize<V>(s: seq<V>, p: V -> bool)
    ensures |Positions(s, p)| == Count(s, p)
  {
    if s != [] {
      var rest := s[1..];
      CountIsSize(rest, p);
      var here, there := Positions(s, p), Positions(rest, p);
      var moved := set i: nat | i in there :: Successor(i);
      forall i: nat | i in here && i > 0 ensures i in moved {
        assert i - 1 in there && Successor(i - 1) == i;
      }
      assert here == moved + if p(s[0]) then {0} else {};
      SameSize(there, moved, Successor);
    }
  }

  function Successor(i: nat): nat {
    i + 1
  }
}
