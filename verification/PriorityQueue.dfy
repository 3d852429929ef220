/** The priority queue of `pkg/frontier/queue.go`, driven by Go's `container/heap`, and the sequential use of
    it by the in-memory frontier.

    The entries live in a slice ordered as a binary heap. The specification forgets the shape and keeps the
    multiset of entries: adding an entry adds it to the multiset, and taking one removes a minimum. */
module PriorityQueue {
  import opened Collections

  datatype Entry = Entry(url: string, priority: int, discoveredAt: int)

  /** Lower priority values first; for equal priorities the earlier discovery. */
  predicate Less(a: Entry, b: Entry) {
    if a.priority != b.priority then a.priority < b.priority else a.discoveredAt < b.discoveredAt
  }

  predicate AtMost(a: Entry, b: Entry) {
    !Less(b, a)
  }

  function Parent(i: nat): nat
    requires i > 0
  {
    (i - 1) / 2
  }

  /** No entry is before its parent. */
  ghost predicate HeapOrdered(s: seq<Entry>) {
    forall i: nat | 0 < i < |s| :: AtMost(s[Parent(i)], s[i])
  }

  /** Heap order except that position `j` may be before its parent; its children are not before that parent. */
  ghost predicate OrderedAbove(s: seq<Entry>, j: nat) {
    && (forall i: nat | 0 < i < |s| && i != j :: AtMost(s[Parent(i)], s[i]))
    && (forall i: nat | 0 < i < |s| && j > 0 && Parent(i) == j :: AtMost(s[Parent(j)], s[i]))
  }

  /** Heap order of the first `n` entries except that position `j` may be after its children. */
  ghost predicate OrderedBelow(s: seq<Entry>, j: nat, n: nat)
    requires n <= |s|
  {
    && (forall i: nat | 0 < i < n && Parent(i) != j :: AtMost(s[Parent(i)], s[i]))
    && (forall i: nat | 0 < i < n && j > 0 && Parent(i) == j :: AtMost(s[Parent(j)], s[i]))
  }

  ghost predicate IsMinimum(e: Entry, m: multiset<Entry>) {
    e in m && forall x | x in m :: AtMost(e, x)
  }

  ghost predicate Sorted(s: seq<Entry>) {
    forall i, j | 0 <= i < j < |s| :: AtMost(s[i], s[j])
  }

  function Swapped(s: seq<Entry>, i: nat, j: nat): (r: seq<Entry>)
    requires i < |s| && j < |s|
    ensures |r| == |s| && multiset(r) == multiset(s)
  {
    s[i := s[j]][j := s[i]]
  }

  lemma {:induction false} RootIsLeast(s: seq<Entry>, i: nat)
    requires HeapOrdered(s) && i < |s|
    ensures AtMost(s[0], s[i])
  {
    if i > 0 {
      RootIsLeast(s, Parent(i));
      assert AtMost(s[Parent(i)], s[i]);
    }
  }

  lemma RootIsMinimum(s: seq<Entry>)
    requires HeapOrdered(s) && s != []
    ensures IsMinimum(s[0], multiset(s))
  {
    forall x | x in multiset(s) ensures AtMost(s[0], x) {
      var i :| 0 <= i < |s| && s[i] == x;
      RootIsLeast(s, i);
    }
  }

  /** One iteration of the sift-up loop. */
  lemma SwapUp(s: seq<Entry>, j: nat)
    requires 0 < j < |s| && OrderedAbove(s, j) && Less(s[j], s[Parent(j)])
    ensures OrderedAbove(Swapped(s, Parent(j), j), Parent(j))
  {
    var p, r := Parent(j), Swapped(s, Parent(j), j);
    forall i: nat | 0 < i < |r| && i != p ensures AtMost(r[Parent(i)], r[i]) {
      if i != j && Parent(i) != j {
        assert AtMost(s[Parent(i)], s[i]);
      }
    }
    forall i: nat | 0 < i < |r| && p > 0 && Parent(i) == p ensures AtMost(r[Parent(p)], r[i]) {
      assert AtMost(s[Parent(p)], s[p]);
      if i != j {
        assert AtMost(s[Parent(i)], s[i]);
      }
    }
  }

  /** One iteration of the sift-down loop: `j` is the smaller child. */
  lemma SwapDown(s: seq<Entry>, i: nat, j: nat, n: nat)
    requires n <= |s| && 0 < j < n && Parent(j) == i && OrderedBelow(s, i, n) && Less(s[j], s[i])
    requires forall k: nat | 0 < k < n && Parent(k) == i :: AtMost(s[j], s[k])
    ensures OrderedBelow(Swapped(s, i, j), j, n)
  {
    var r := Swapped(s, i, j);
    forall k: nat | 0 < k < n && Parent(k) != j ensures AtMost(r[Parent(k)], r[k]) {
      if k == i {
        assert AtMost(s[Parent(i)], s[j]);
      } else if Parent(k) != i {
        assert AtMost(s[Parent(k)], s[k]);
      }
    }
    forall k: nat | 0 < k < n && Parent(k) == j ensures AtMost(r[Parent(j)], r[k]) {
      assert AtMost(s[Parent(k)], s[k]);
    }
  }

  /** The smaller child of `i` among the first `n` entries. */
  function SmallerChild(s: seq<Entry>, i: nat, n: nat): (j: nat)
    requires n <= |s| && 2 * i + 1 < n
    ensures 0 < j < n && Parent(j) == i
    ensures forall k: nat | 0 < k < n && Parent(k) == i :: AtMost(s[j], s[k])
  {
    var j1 := 2 * i + 1;
    if j1 + 1 < n && Less(s[j1 + 1], s[j1]) then j1 + 1 else j1
  }

  /** The sift-down loop stops when there is no smaller child below it. */
  lemma SiftedDown(s: seq<Entry>, i: nat, n: nat)
    requires n <= |s| && OrderedBelow(s, i, n)
    requires forall k: nat | 0 < k < n && Parent(k) == i :: AtMost(s[i], s[k])
    ensures HeapOrdered(s[..n])
  {
    forall k: nat | 0 < k < n ensures AtMost(s[..n][Parent(k)], s[..n][k]) {
      assert AtMost(s[Parent(k)], s[k]);
    }
  }

  class Queue {
    var items: seq<Entry>

    ghost predicate Valid()
      reads this
    {
      HeapOrdered(items)
    }

    constructor ()
      ensures Valid() && items == []
    {
      items := [];
    }

    /** `container/heap`'s sift-up. */
    method Up(start: nat)
      requires start < |items| && OrderedAbove(items, start)
      modifies this
      ensures Valid() && multiset(items) == old(multiset(items)) && |items| == |old(items)|
    {
      var j: nat := start;
      while j > 0 && Less(items[j], items[Parent(j)])
        invariant j < |items| && OrderedAbove(items, j)
        invariant multiset(items) == old(multiset(items)) && |items| == |old(items)|
        decreases j
      {
        SwapUp(items, j);
        items := Swapped(items, Parent(j), j);
        j := Parent(j);
      }
    }

    /** `container/heap`'s sift-down over the first `n` entries; the entries from `n` on are untouched. */
    method Down(start: nat, n: nat)
      requires n <= |items| && start <= n && OrderedBelow(items, start, n)
      modifies this
      ensures |items| == |old(items)| && items[n..] == old(items[n..])
      ensures HeapOrdered(items[..n]) && multiset(items) == old(multiset(items))
    {
      var i: nat := start;
      while 2 * i + 1 < n
        invariant i <= n && |items| == |old(items)| && OrderedBelow(items, i, n)
        invariant items[n..] == old(items[n..]) && multiset(items) == old(multiset(items))
        decreases n - i
      {
        var j := SmallerChild(items, i, n);
        if !Less(items[j], items[i]) {
          SiftedDown(items, i, n);
          return;
        }
        SwapDown(items, i, j, n);
        items := Swapped(items, i, j);
        i := j;
      }
      SiftedDown(items, i, n);
    }

    /** `heap.Push`. */
    method Push(e: Entry)
      requires Valid()
      modifies this
      ensures Valid() && multiset(items) == old(multiset(items)) + multiset{e} && |items| == |old(items)| + 1
    {
      items := items + [e];
      Up(|items| - 1);
    }

    /** `heap.Pop`: the last entry replaces the root and sinks; the old root is returned. */
    method Pop() returns (e: Entry)
      requires Valid() && items != []
      modifies this
      ensures IsMinimum(e, old(multiset(items)))
      ensures Valid() && multiset(items) == old(multiset(items)) - multiset{e} && |items| == |old(items)| - 1
    {
      RootIsMinimum(items);
      var n := |items| - 1;
      e := items[0];
      items := Swapped(items, 0, n);
      assert items[n] == e;
      label sinking:
      Down(0, n);
      assert items[n] == items[n..][0] == old@sinking(items[n..][0]) == e;
      assert items == items[..n] + [e];
      items := items[..n];
    }

    /** Popping until the queue is empty gives all entries, in order. */
    method DrainSorted() returns (out: seq<Entry>)
      requires Valid()
      modifies this
      ensures items == [] && Sorted(out) && multiset(out) == old(multiset(items))
    {
      out := [];
      while items != []
        invariant Valid() && Sorted(out) && multiset(out) + multiset(items) == old(multiset(items))
        invariant forall i, x | 0 <= i < |out| && x in multiset(items) :: AtMost(out[i], x)
        decreases |items|
      {
        ghost var before := multiset(items);
        ghost var earlier := multiset(out);
        var e := Pop();
        assert before == multiset(items) + multiset{e};
        out := out + [e];
        assert multiset(out) == earlier + multiset{e};
      }
    }
  }

  /** What sorted means: lower priority values come first, and for equal ones the earlier discovery. */
  lemma SortedMeans(s: seq<Entry>)
    ensures Sorted(s) <==>
      forall i, j | 0 <= i < j < |s| ::
        s[i].priority < s[j].priority || (s[i].priority == s[j].priority && s[i].discoveredAt <= s[j].discoveredAt)
  {
    forall a: Entry, b: Entry
      ensures AtMost(a, b) <==>
              a.priority < b.priority || (a.priority == b.priority && a.discoveredAt <= b.discoveredAt)
    {
    }
  }

  // Any sequence of Add and Next.

  /** `Next` with an empty queue waits; in a sequential replay it takes nothing. */
  datatype Op = Add(entry: Entry) | Take

  /** The abstract frontier: `m` is the multiset of queued entries, `outs` what the `Take`s returned. */
  ghost predicate Refines(m: multiset<Entry>, ops: seq<Op>, outs: seq<Option<Entry>>, m': multiset<Entry>) {
    if ops == [] then outs == [] && m' == m
    else
      match ops[|ops| - 1]
      case Add(e) => e in m' && Refines(m, ops[..|ops| - 1], outs, m' - multiset{e})
      case Take =>
        |outs| > 0 &&
        match outs[|outs| - 1]
        case None => m' == multiset{} && Refines(m, ops[..|ops| - 1], outs[..|outs| - 1], m')
        case Some(e) =>
          IsMinimum(e, m' + multiset{e}) && Refines(m, ops[..|ops| - 1], outs[..|outs| - 1], m' + multiset{e})
  }

  lemma RefinesAdd(m: multiset<Entry>, ops: seq<Op>, outs: seq<Option<Entry>>, m': multiset<Entry>, e: Entry)
    requires Refines(m, ops, outs, m')
    ensures Refines(m, ops + [Add(e)], outs, m' + multiset{e})
  {
    assert (ops + [Add(e)])[..|ops|] == ops;
    assert m' + multiset{e} - multiset{e} == m';
  }

  lemma RefinesTake(m: multiset<Entry>, ops: seq<Op>, outs: seq<Option<Entry>>, m': multiset<Entry>, e: Entry)
    requires Refines(m, ops, outs, m') && IsMinimum(e, m')
    ensures Refines(m, ops + [Take], outs + [Some(e)], m' - multiset{e})
  {
    assert (ops + [Take])[..|ops|] == ops && (outs + [Some(e)])[..|outs|] == outs;
    assert m' - multiset{e} + multiset{e} == m';
  }

  lemma RefinesWait(m: multiset<Entry>, ops: seq<Op>, outs: seq<Option<Entry>>)
    requires Refines(m, ops, outs, multiset{})
    ensures Refines(m, ops + [Take], outs + [None], multiset{})
  {
    assert (ops + [Take])[..|ops|] == ops && (outs + [None])[..|outs|] == outs;
  }

  /** What one operation may do to the multiset of queued entries, and what it may return. */
  ghost predicate OpRefines(m: multiset<Entry>, op: Op, out: Option<Entry>, m': multiset<Entry>) {
    match op
    case Add(e) => out == None && m' == m + multiset{e}
    case Take =>
      match out
      case None => m == multiset{} && m' == m
      case Some(e) => IsMinimum(e, m) && m' == m - multiset{e}
  }

  lemma RefinesOp(
    m: multiset<Entry>, ops: seq<Op>, outs: seq<Option<Entry>>, m1: multiset<Entry>, op: Op, out: Option<Entry>,
    m2: multiset<Entry>)
    requires Refines(m, ops, outs, m1) && OpRefines(m1, op, out, m2)
    ensures Refines(m, ops + [op], if op.Add? then outs else outs + [out], m2)
  {
    match op
    case Add(e) => RefinesAdd(m, ops, outs, m1, e);
    case Take =>
      if out == None {
        RefinesWait(m, ops, outs);
      } else {
        RefinesTake(m, ops, outs, m1, out.value);
      }
  }

  method Perform(q: Queue, op: Op) returns (out: Option<Entry>)
    requires q.Valid()
    modifies q
    ensures q.Valid() && OpRefines(old(multiset(q.items)), op, out, multiset(q.items))
  {
    out := None;
    if op.Add? {
      q.Push(op.entry);
    } else if q.items != [] {
      var e := q.Pop();
      out := Some(e);
    }
  }

  /** Every sequence of operations on the heap is a sequence of operations on the multiset: each `Take` returns a
      minimum of what is queued (or nothing exactly when nothing is queued), and no entry is lost or invented. */
  method Replay(q: Queue, ops: seq<Op>) returns (outs: seq<Option<Entry>>)
    requires q.Valid()
    modifies q
    ensures q.Valid() && Refines(old(multiset(q.items)), ops, outs, multiset(q.items))
  {
    outs := [];
    ghost var m := multiset(q.items);
    for k := 0 to |ops|
      invariant q.Valid() && Refines(m, ops[..k], outs, multiset(q.items))
    {
      ghost var before := multiset(q.items);
      var out := Perform(q, ops[k]);
      RefinesOp(m, ops[..k], outs, before, ops[k], out, multiset(q.items));
      assert ops[..k + 1] == ops[..k] + [ops[k]];
      if !ops[k].Add? {
        outs := outs + [out];
      }
    }
    assert ops[..|ops|] == ops;
  }

  function Taken(outs: seq<Option<Entry>>): multiset<Entry> {
    if outs == [] then multiset{}
    else
      var rest := Taken(outs[..|outs| - 1]);
      match outs[|outs| - 1] case None => rest case Some(e) => rest + multiset{e}
  }

  function Added(ops: seq<Op>): multiset<Entry> {
    if ops == [] then multiset{}
    else
      var rest := Added(ops[..|ops| - 1]);
      match ops[|ops| - 1] case Add(e) => rest + multiset{e} case Take => rest
  }

  lemma Reassociate(a: multiset<Entry>, b: multiset<Entry>, x: multiset<Entry>)
    ensures a + (b + x) == (a + b) + x && (a + x) + b == (a + b) + x
  {
  }

  /** Conservation: what was queued and added is what was taken and is still queued. */
  lemma {:induction false} NothingLost(m: multiset<Entry>, ops: seq<Op>, outs: seq<Option<Entry>>, m': multiset<Entry>)
    requires Refines(m, ops, outs, m')
    ensures m + Added(ops) == Taken(outs) + m'
    decreases |ops|
  {
    if ops != [] {
      var front := ops[..|ops| - 1];
      match ops[|ops| - 1] {
        case Add(e) =>
          var less := m' - multiset{e};
          NothingLost(m, front, outs, less);
          assert m' == less + multiset{e};
          Reassociate(m, Added(front), multiset{e});
          Reassociate(Taken(outs), less, multiset{e});
        case Take =>
          var earlier := outs[..|outs| - 1];
          match outs[|outs| - 1] {
            case None => NothingLost(m, front, earlier, m');
            case Some(e) =>
              NothingLost(m, front, earlier, m' + multiset{e});
              Reassociate(Taken(earlier), m', multiset{e});
          }
      }
    }
  }
}
