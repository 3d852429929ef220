/** The response cache of `pkg/middleware/cache.go`: a map and a linked list that must agree, with TTLs and
    eviction of the least recently used entry. Times are nanoseconds. */
module Cache {
  import opened Collections
  import opened CacheControl

  type Key = string

  datatype Response = Response(status: int, cacheControl: string, body: string)

  /** The zero `time.Time` means no expiry. */
  datatype Expiry = Never | At(time: int)

  function ExpiryTime(ttl: int, now: int): Expiry {
    if ttl <= 0 then Never else At(now + ttl)
  }

  predicate Expired(e: Expiry, now: int) {
    e.At? && now > e.time
  }

  // What the cache holds, most recently used first, and what get and set do to it.

  datatype Entry = Entry(key: Key, response: Response, expiry: Expiry)

  function Keys(s: seq<Entry>): (ks: seq<Key>)
    ensures |ks| == |s| && forall i | 0 <= i < |s| :: ks[i] == s[i].key
  {
    seq(|s|, i requires 0 <= i < |s| => s[i].key)
  }

  function Lookup(s: seq<Entry>, key: Key): Option<Entry> {
    if s == [] then None else if s[0].key == key then Some(s[0]) else Lookup(s[1..], key)
  }

  function RemoveKey(s: seq<Entry>, key: Key): seq<Entry> {
    if s == [] then [] else if s[0].key == key then s[1..] else [s[0]] + RemoveKey(s[1..], key)
  }

  /** `get`: the entries afterwards, and the response on a hit. An expired entry is evicted. */
  function Get(s: seq<Entry>, key: Key, now: int): (seq<Entry>, Option<Response>) {
    match Lookup(s, key)
    case None => (s, None)
    case Some(e) =>
      if Expired(e.expiry, now) then (RemoveKey(s, key), None)
      else ([e] + RemoveKey(s, key), Some(e.response))
  }

  /** What is left of `s` when there has to be room for one more entry. */
  function Fitting(capacity: nat, s: seq<Entry>): seq<Entry> {
    if capacity > 0 && |s| >= capacity then s[..capacity - 1] else s
  }

  /** `set`: an existing entry is updated and moved to the front; otherwise entries are evicted from the back
      until there is room for the new one. */
  function Set(capacity: nat, s: seq<Entry>, e: Entry): seq<Entry> {
    if Lookup(s, e.key).Some? then [e] + RemoveKey(s, e.key)
    else [e] + Fitting(capacity, s)
  }

  // The data structure.

  /** A list element together with the entry it carries. */
  class Element {
    const key: Key
    var response: Response
    var expiry: Expiry

    constructor (key: Key, response: Response, expiry: Expiry)
      ensures this.key == key && this.response == response && this.expiry == expiry
    {
      this.key, this.response, this.expiry := key, response, expiry;
    }

    function Value(): Entry
      reads this
    {
      Entry(key, response, expiry)
    }
  }

  function Without(list: seq<Element>, x: Element): seq<Element> {
    if list == [] then [] else if list[0] == x then list[1..] else [list[0]] + Without(list[1..], x)
  }

  ghost predicate DistinctKeys(list: seq<Element>) {
    forall i, j | 0 <= i < j < |list| :: list[i].key != list[j].key
  }

  /** The map and the list hold the same elements, each under its own key and only once. */
  ghost predicate Agree(list: seq<Element>, entries: map<Key, Element>) {
    && DistinctKeys(list)
    && (forall i | 0 <= i < |list| :: list[i].key in entries && entries[list[i].key] == list[i])
    && (forall k | k in entries :: entries[k] in list && entries[k].key == k)
  }

  ghost function KeySet(list: seq<Element>): set<Key> {
    set i | 0 <= i < |list| :: list[i].key
  }

  lemma KeySetSnoc(init: seq<Element>, last: Element)
    ensures KeySet(init + [last]) == KeySet(init) + {last.key}
  {
    var list := init + [last];
    forall k | k in KeySet(init) ensures k in KeySet(list) {
      var i :| 0 <= i < |init| && init[i].key == k;
      assert list[i].key == k;
    }
    assert list[|init|].key in KeySet(list);
  }

  lemma {:induction false} KeySetSize(list: seq<Element>)
    requires DistinctKeys(list)
    ensures |KeySet(list)| == |list|
  {
    if list != [] {
      var init, last := list[..|list| - 1], list[|list| - 1];
      KeySetSize(init);
      KeySetSnoc(init, last);
      assert list == init + [last];
      assert last.key !in KeySet(init);
    }
  }

  /** Agreement makes the sizes equal, which is what the eviction loop's guard relies on. */
  lemma AgreeSizes(list: seq<Element>, entries: map<Key, Element>)
    requires Agree(list, entries)
    ensures |entries| == |list|
  {
    KeySetSize(list);
    forall k ensures k in entries.Keys <==> k in KeySet(list) {
      if k in entries {
        assert entries[k] in list;
      }
      if k in KeySet(list) {
        var i :| 0 <= i < |list| && list[i].key == k;
      }
    }
    assert entries.Keys == KeySet(list);
  }

  function Values(list: seq<Element>): (s: seq<Entry>)
    reads list
    ensures |s| == |list|
  {
    if list == [] then [] else [list[0].Value()] + Values(list[1..])
  }

  lemma {:induction false} ValuesPrefix(list: seq<Element>, n: nat)
    requires n <= |list|
    ensures Values(list[..n]) == Values(list)[..n]
  {
    if n > 0 {
      ValuesPrefix(list[1..], n - 1);
      assert list[..n][1..] == list[1..][..n - 1];
    }
  }

  lemma ValuesCons(x: Element, list: seq<Element>)
    ensures Values([x] + list) == [x.Value()] + Values(list)
  {
    assert ([x] + list)[1..] == list;
  }

  lemma DifferentKeys(list: seq<Element>, x: Element, y: Element)
    requires DistinctKeys(list) && x in list && y in list && x != y
    ensures x.key != y.key
  {
    var i :| 0 <= i < |list| && list[i] == x;
    var j :| 0 <= j < |list| && list[j] == y;
  }

  lemma {:induction false} WithoutOthers(list: seq<Element>, x: Element)
    requires x in list && DistinctKeys(list)
    ensures |Without(list, x)| == |list| - 1
    ensures forall i | 0 <= i < |Without(list, x)| :: Without(list, x)[i] in list && Without(list, x)[i] != x
  {
    if list[0] != x {
      WithoutOthers(list[1..], x);
    }
  }

  lemma {:induction false} WithoutCovers(list: seq<Element>, x: Element)
    ensures forall i | 0 <= i < |list| :: list[i] == x || list[i] in Without(list, x)
  {
    if list != [] && list[0] != x {
      WithoutCovers(list[1..], x);
      forall i | 0 <= i < |list| ensures list[i] == x || list[i] in Without(list, x) {
        assert i > 0 ==> list[i] == list[1..][i - 1];
      }
    }
  }

  lemma ConsDistinctKeys(x: Element, list: seq<Element>)
    requires DistinctKeys(list) && forall i | 0 <= i < |list| :: list[i].key != x.key
    ensures DistinctKeys([x] + list)
  {
  }

  lemma {:induction false} WithoutShape(list: seq<Element>, x: Element)
    requires x in list && DistinctKeys(list)
    ensures DistinctKeys(Without(list, x)) && DistinctKeys([x] + Without(list, x))
  {
    var r := Without(list, x);
    WithoutOthers(list, x);
    if list[0] != x {
      WithoutShape(list[1..], x);
      var rest := Without(list[1..], x);
      WithoutOthers(list[1..], x);
      forall i | 0 <= i < |rest| ensures rest[i].key != list[0].key {
        DifferentKeys(list, list[0], rest[i]);
      }
      ConsDistinctKeys(list[0], rest);
    }
    forall i | 0 <= i < |r| ensures r[i].key != x.key {
      DifferentKeys(list, x, r[i]);
    }
    ConsDistinctKeys(x, r);
  }

  lemma {:induction false} WithoutElements(list: seq<Element>, x: Element)
    requires x in list
    ensures multiset([x] + Without(list, x)) == multiset(list)
  {
    assert list == [list[0]] + list[1..];
    if list[0] != x {
      WithoutElements(list[1..], x);
    }
  }

  lemma OthersAgree(list: seq<Element>, entries: map<Key, Element>, x: Element)
    requires Agree(list, entries) && x in list
    ensures var r := Without(list, x);
      && (forall i | 0 <= i < |r| :: r[i].key != x.key && r[i].key in entries && entries[r[i].key] == r[i])
      && (forall k | k in entries && k != x.key :: entries[k] in r)
  {
    WithoutOthers(list, x);
    WithoutCovers(list, x);
    var r := Without(list, x);
    forall i | 0 <= i < |r| ensures r[i].key != x.key && r[i].key in entries && entries[r[i].key] == r[i] {
      DifferentKeys(list, x, r[i]);
    }
    forall k | k in entries && k != x.key ensures entries[k] in r {
      var i :| 0 <= i < |list| && list[i] == entries[k];
    }
  }

  /** Taking an element out of both keeps map and list in agreement. */
  lemma AgreeWithout(list: seq<Element>, entries: map<Key, Element>, x: Element)
    requires Agree(list, entries) && x in list
    ensures Agree(Without(list, x), entries - {x.key}) && |Without(list, x)| == |list| - 1
  {
    WithoutShape(list, x);
    WithoutOthers(list, x);
    OthersAgree(list, entries, x);
  }

  /** Moving an element to the front of the list keeps them in agreement. */
  lemma AgreeFront(list: seq<Element>, entries: map<Key, Element>, x: Element)
    requires Agree(list, entries) && x in list
    ensures Agree([x] + Without(list, x), entries) && |Without(list, x)| == |list| - 1
  {
    AgreeWithout(list, entries, x);
    AgreeWith(Without(list, x), entries - {x.key}, x);
    assert entries == (entries - {x.key})[x.key := x];
  }

  lemma AgreeWith(list: seq<Element>, entries: map<Key, Element>, x: Element)
    requires Agree(list, entries) && x.key !in entries
    ensures Agree([x] + list, entries[x.key := x])
  {
  }

  lemma {:induction false} WithoutValues(list: seq<Element>, x: Element)
    requires x in list && DistinctKeys(list)
    ensures Values(Without(list, x)) == RemoveKey(Values(list), x.key)
  {
    if list[0] == x {
      assert Values(list)[1..] == Values(list[1..]);
    } else {
      DifferentKeys(list, list[0], x);
      WithoutValues(list[1..], x);
      ValuesCons(list[0], Without(list[1..], x));
      assert Values(list)[1..] == Values(list[1..]);
    }
  }

  lemma {:induction false} LookupValues(list: seq<Element>, x: Element)
    requires x in list && DistinctKeys(list)
    ensures Lookup(Values(list), x.key) == Some(x.Value())
  {
    if list[0] != x {
      DifferentKeys(list, list[0], x);
      LookupValues(list[1..], x);
      assert Values(list)[1..] == Values(list[1..]);
    }
  }

  lemma {:induction false} AbsentValues(list: seq<Element>, key: Key)
    requires forall i | 0 <= i < |list| :: list[i].key != key
    ensures Lookup(Values(list), key) == None
  {
    if list != [] {
      AbsentValues(list[1..], key);
      assert Values(list)[1..] == Values(list[1..]);
    }
  }

  class LruCache {
    const maxEntries: nat
    var lru: seq<Element>
    var entries: map<Key, Element>

    ghost predicate Valid()
      reads this
    {
      maxEntries > 0 && Agree(lru, entries) && |lru| <= maxEntries
    }

    ghost function Contents(): seq<Entry>
      reads this, lru
    {
      Values(lru)
    }

    /** `NewCache`: a capacity that is not positive becomes 256. */
    constructor (capacity: int)
      ensures Valid() && Contents() == [] && maxEntries == if capacity <= 0 then 256 else capacity
    {
      maxEntries := if capacity <= 0 then 256 else capacity;
      lru := [];
      entries := map[];
    }

    /** `evict`: out of the list and out of the map; nothing happens for a nil element. */
    method Evict(elem: Element?)
      requires Valid() && (elem != null ==> elem in lru)
      modifies this
      ensures Valid()
      ensures elem == null ==> lru == old(lru) && entries == old(entries)
      ensures elem != null ==> lru == Without(old(lru), elem) && entries == old(entries) - {elem.key}
      ensures elem != null ==> Contents() == RemoveKey(old(Contents()), elem.key)
      ensures multiset(lru) <= old(multiset(lru))
    {
      if elem == null {
        return;
      }
      AgreeWithout(lru, entries, elem);
      WithoutElements(lru, elem);
      WithoutValues(lru, elem);
      lru := Without(lru, elem);
      entries := entries - {elem.key};
    }

    /** `MoveToFront`. */
    method MoveToFront(elem: Element)
      requires Valid() && elem in lru
      modifies this`lru
      ensures Valid() && lru == [elem] + Without(old(lru), elem)
      ensures Contents() == [elem.Value()] + RemoveKey(old(Contents()), elem.key)
      ensures multiset(lru) <= old(multiset(lru))
    {
      var tail := Without(lru, elem);
      AgreeFront(lru, entries, elem);
      WithoutElements(lru, elem);
      WithoutValues(lru, elem);
      ValuesCons(elem, tail);
      var front := [elem] + tail;
      assert multiset(front) <= multiset(lru);
      lru := front;
    }

    /** `get`. */
    method Fetch(key: Key, now: int) returns (r: Option<Response>)
      requires Valid()
      modifies this
      ensures Valid() && (Contents(), r) == Get(old(Contents()), key, now)
      ensures multiset(lru) <= old(multiset(lru))
    {
      if key !in entries {
        AbsentValues(lru, key);
        return None;
      }
      var elem := entries[key];
      LookupValues(lru, elem);
      if elem.expiry.At? && now > elem.expiry.time {
        Evict(elem);
        return None;
      }
      MoveToFront(elem);
      return Some(elem.response);
    }

    /** `c.evict(c.lru.Back())` on a list that is not empty. */
    method EvictBack()
      requires Valid() && lru != []
      modifies this
      ensures Valid() && lru == old(lru)[..|old(lru)| - 1] && |entries| == |lru|
    {
      WithoutLast(lru);
      Evict(lru[|lru| - 1]);
      AgreeSizes(lru, entries);
    }

    /** The eviction loop: it stops because each round shrinks the map. */
    method EvictLoop()
      requires Valid()
      modifies this
      ensures Valid() && |lru| < maxEntries
      ensures lru == if |old(lru)| >= maxEntries then old(lru)[..maxEntries - 1] else old(lru)
    {
      AgreeSizes(lru, entries);
      while |entries| >= maxEntries
        invariant Valid() && |entries| == |lru|
        invariant lru == old(lru) || (|old(lru)| >= maxEntries && lru == old(lru)[..maxEntries - 1])
        decreases |entries|
      {
        EvictBack();
      }
    }

    /** It drops exactly what does not fit beside one more entry. */
    method EvictForRoom()
      requires Valid()
      modifies this
      ensures Valid() && |lru| < maxEntries && entries.Keys <= old(entries.Keys)
      ensures Contents() == Fitting(maxEntries, old(Contents()))
    {
      if |lru| >= maxEntries {
        ValuesPrefix(lru, maxEntries - 1);
      }
      EvictLoop();
      PrefixKeys(lru, entries, old(lru), old(entries));
    }

    /** The first element gets a new response and expiry; the others are not touched. */
    method UpdateFront(response: Response, expiry: Expiry)
      requires Valid() && lru != []
      modifies lru[0]
      ensures Valid() && Contents() == [Entry(lru[0].key, response, expiry)] + old(Contents())[1..]
    {
      var elem := lru[0];
      ghost var tail := lru[1..];
      assert lru == [elem] + tail && elem !in tail;
      ValuesCons(elem, tail);
      elem.response := response;
      elem.expiry := expiry;
      ValuesCons(elem, tail);
    }

    /** `set` on a key that is present: moved to the front and updated in place. */
    method Refresh(elem: Element, response: Response, expiry: Expiry)
      requires Valid() && elem in lru
      modifies this`lru, elem
      ensures Valid() && lru == [elem] + Without(old(lru), elem)
      ensures Contents() == [Entry(elem.key, response, expiry)] + RemoveKey(old(Contents()), elem.key)
    {
      MoveToFront(elem);
      UpdateFront(response, expiry);
    }

    /** A new element at the front of the list and in the map. */
    method PushFront(key: Key, response: Response, expiry: Expiry)
      requires Valid() && |lru| < maxEntries && key !in entries
      modifies this
      ensures Valid() && Contents() == [Entry(key, response, expiry)] + old(Contents())
    {
      ghost var rest := lru;
      ghost var before := Values(rest);
      var elem := new Element(key, response, expiry);
      assert Values(rest) == before;
      AgreeWith(rest, entries, elem);
      ValuesCons(elem, rest);
      lru := [elem] + lru;
      entries := entries[key := elem];
    }

    /** `set` on a key that is absent: room is made and the new entry goes to the front. */
    method Insert(key: Key, response: Response, expiry: Expiry)
      requires Valid() && key !in entries
      modifies this
      ensures Valid() && Contents() == [Entry(key, response, expiry)] + Fitting(maxEntries, old(Contents()))
    {
      EvictForRoom();
      PushFront(key, response, expiry);
    }

    /** `set`. */
    method Store(key: Key, response: Response, ttl: int, now: int)
      requires Valid()
      modifies this, lru
      ensures Valid()
      ensures Contents() == Set(maxEntries, old(Contents()), Entry(key, response, ExpiryTime(ttl, now)))
    {
      if key in entries {
        LookupValues(lru, entries[key]);
        Refresh(entries[key], response, ExpiryTime(ttl, now));
      } else {
        AbsentValues(lru, key);
        Insert(key, response, ExpiryTime(ttl, now));
      }
    }
  }

  /** Elements that stay in the list stay under their keys in the map. */
  lemma PrefixKeys(list: seq<Element>, entries: map<Key, Element>, longer: seq<Element>, before: map<Key, Element>)
    requires Agree(list, entries) && Agree(longer, before) && list <= longer
    ensures entries.Keys <= before.Keys
  {
    forall k | k in entries ensures k in before {
      var i :| 0 <= i < |list| && list[i] == entries[k];
      assert longer[i] == list[i];
    }
  }

  lemma {:induction false} WithoutLast(list: seq<Element>)
    requires list != [] && DistinctKeys(list)
    ensures Without(list, list[|list| - 1]) == list[..|list| - 1]
  {
    if |list| > 1 {
      assert list[1..][|list| - 2] == list[|list| - 1];
      WithoutLast(list[1..]);
      assert list[..|list| - 1] == [list[0]] + list[1..][..|list| - 2];
    }
  }
}
