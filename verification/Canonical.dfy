/** URL canonicalisation of `pkg/frontier/canonical.go`, at the level of URL components. */
module Canonical {
  import opened Collections
  import opened QueryCodec
  import opened Sorting

  // The order of `sort.Strings`, and its lexicographic extension to pairs.

  predicate BytesLe(a: Bytes, b: Bytes) {
    a == [] || (b != [] && (a[0] < b[0] || (a[0] == b[0] && BytesLe(a[1..], b[1..]))))
  }

  predicate PairLe(p: Pair, q: Pair) {
    if p.key == q.key then BytesLe(p.value, q.value) else BytesLe(p.key, q.key)
  }

  lemma {:induction false} BytesTotal(a: Bytes, b: Bytes)
    ensures BytesLe(a, b) || BytesLe(b, a)
    ensures BytesLe(a, b) && BytesLe(b, a) ==> a == b
  {
    if a != [] && b != [] {
      BytesTotal(a[1..], b[1..]);
      assert a == [a[0]] + a[1..] && b == [b[0]] + b[1..];
    }
  }

  lemma {:induction false} BytesTransitive(a: Bytes, b: Bytes, c: Bytes)
    requires BytesLe(a, b) && BytesLe(b, c)
    ensures BytesLe(a, c)
  {
    if a != [] && a[0] == b[0] == c[0] {
      BytesTransitive(a[1..], b[1..], c[1..]);
    }
  }

  lemma BytesOrder()
    ensures TotalOrder(BytesLe)
  {
    forall a, b ensures (BytesLe(a, b) || BytesLe(b, a)) && (BytesLe(a, b) && BytesLe(b, a) ==> a == b) {
      BytesTotal(a, b);
    }
    forall a, b, c | BytesLe(a, b) && BytesLe(b, c) ensures BytesLe(a, c) {
      BytesTransitive(a, b, c);
    }
  }

  lemma PairOrder()
    ensures TotalOrder(PairLe)
  {
    BytesOrder();
    forall p, q, r | PairLe(p, q) && PairLe(q, r) ensures PairLe(p, r) {
      assert BytesLe(p.key, q.key) && BytesLe(q.key, r.key);
    }
  }

  /** What canonicalising a query means: print its pairs in sorted order. */
  function CanonicalQuery(query: Bytes): Bytes {
    Print(Sort(PairLe, Decode(query)))
  }

  /** The canonical query is a complete invariant: two queries canonicalise to the same text exactly when they
      decode to the same multiset of pairs. */
  lemma CompleteInvariant(q1: Bytes, q2: Bytes)
    ensures CanonicalQuery(q1) == CanonicalQuery(q2) <==> multiset(Decode(q1)) == multiset(Decode(q2))
  {
    PairOrder();
    SortComplete(PairLe, Decode(q1), Decode(q2));
    DecodePrint(Sort(PairLe, Decode(q1)));
    DecodePrint(Sort(PairLe, Decode(q2)));
  }

  /** Parsing the canonical text gives back the multiset of pairs, and canonicalising again changes nothing. */
  lemma CanonicalRoundTrip(query: Bytes)
    ensures multiset(Decode(CanonicalQuery(query))) == multiset(Decode(query))
    ensures CanonicalQuery(CanonicalQuery(query)) == CanonicalQuery(query)
  {
    PairOrder();
    SortSorts(PairLe, Decode(query));
    DecodePrint(Sort(PairLe, Decode(query)));
    CompleteInvariant(CanonicalQuery(query), query);
  }

  /** However a query is spelled (with digits of either case, with escapes that are not needed, with its pairs in any
      order), its canonical text is the normal spelling of its sorted pairs; so two spellings of the same pairs have one
      canonical text. */
  lemma SpellingDoesNotMatter(ws: seq<Written>, vs: seq<Written>)
    requires forall i | 0 <= i < |ws| :: WellWritten(ws[i])
    requires forall i | 0 <= i < |vs| :: WellWritten(vs[i])
    ensures CanonicalQuery(WrittenQuery(ws)) == Print(Sort(PairLe, PairsOfWritten(ws)))
    ensures CanonicalQuery(WrittenQuery(ws)) == CanonicalQuery(WrittenQuery(vs)) <==>
            multiset(PairsOfWritten(ws)) == multiset(PairsOfWritten(vs))
  {
    DecodeWritten(ws);
    DecodeWritten(vs);
    CompleteInvariant(WrittenQuery(ws), WrittenQuery(vs));
  }

  // The code: group by key, sort the keys, sort each key's values, print with separators.

  type Values = map<Bytes, seq<Bytes>>

  function Grouped(values: Values, p: Pair): Values {
    values[p.key := (if p.key in values then values[p.key] else []) + [p.value]]
  }

  /** `url.Values`: the values of each key, in order of appearance. */
  function Group(ps: seq<Pair>): Values {
    if ps == [] then map[] else Grouped(Group(ps[..|ps| - 1]), ps[|ps| - 1])
  }

  function Occurrences(values: Values, key: Bytes, value: Bytes): nat {
    if key in values then multiset(values[key])[value] else 0
  }

  lemma {:induction false} GroupCounts(ps: seq<Pair>, key: Bytes, value: Bytes)
    ensures multiset(ps)[Pair(key, value)] == Occurrences(Group(ps), key, value)
    ensures key in Group(ps) ==> Group(ps)[key] != []
  {
    if ps != [] {
      var init, last := ps[..|ps| - 1], ps[|ps| - 1];
      GroupCounts(init, key, value);
      assert ps == init + [last];
    }
  }

  function PairsOf(key: Bytes, values: seq<Bytes>): (ps: seq<Pair>)
    ensures |ps| == |values| && forall i | 0 <= i < |ps| :: ps[i] == Pair(key, values[i])
  {
    seq(|values|, i requires 0 <= i < |values| => Pair(key, values[i]))
  }

  lemma {:induction false} PairsOfCounts(key: Bytes, values: seq<Bytes>, p: Pair)
    ensures multiset(PairsOf(key, values))[p] == if p.key == key then multiset(values)[p.value] else 0
  {
    if values != [] {
      var init, last := values[..|values| - 1], values[|values| - 1];
      PairsOfCounts(key, init, p);
      assert values == init + [last] && PairsOf(key, values) == PairsOf(key, init) + [Pair(key, last)];
    }
  }

  /** What the nested loops print after the keys `keys`. */
  function Flatten(values: Values, keys: seq<Bytes>): seq<Pair>
    requires forall k | k in keys :: k in values
  {
    if keys == [] then []
    else
      var k := keys[|keys| - 1];
      Flatten(values, keys[..|keys| - 1]) + PairsOf(k, Sort(BytesLe, values[k]))
  }

  lemma FlattenSnoc(values: Values, keys: seq<Bytes>, i: nat)
    requires i < |keys| && forall k | k in keys :: k in values
    ensures Flatten(values, keys[..i + 1]) ==
        Flatten(values, keys[..i]) + PairsOf(keys[i], Sort(BytesLe, values[keys[i]]))
  {
    assert keys[..i + 1][..i] == keys[..i];
  }

  lemma SortedPairCounts(key: Bytes, values: seq<Bytes>, p: Pair)
    ensures multiset(PairsOf(key, Sort(BytesLe, values)))[p] == if p.key == key then multiset(values)[p.value] else 0
  {
    BytesOrder();
    SortSorts(BytesLe, values);
    PairsOfCounts(key, Sort(BytesLe, values), p);
  }

  lemma {:induction false} FlattenCounts(values: Values, keys: seq<Bytes>, p: Pair)
    requires (forall k | k in keys :: k in values) && Distinct(keys)
    ensures multiset(Flatten(values, keys))[p] == if p.key in keys then multiset(values[p.key])[p.value] else 0
  {
    if keys != [] {
      var init, k := keys[..|keys| - 1], keys[|keys| - 1];
      FlattenCounts(values, init, p);
      SortedPairCounts(k, values[k], p);
      assert keys == init + [k] && k !in init;
    }
  }

  lemma FlattenKeys(values: Values, keys: seq<Bytes>, i: nat)
    requires (forall k | k in keys :: k in values) && Distinct(keys) && i < |Flatten(values, keys)|
    ensures Flatten(values, keys)[i].key in keys
  {
    var p := Flatten(values, keys)[i];
    assert p in multiset(Flatten(values, keys));
    FlattenCounts(values, keys, p);
  }

  lemma {:induction false} FlattenSorted(values: Values, keys: seq<Bytes>)
    requires (forall k | k in keys :: k in values) && Distinct(keys) && SortedBy(BytesLe, keys)
    ensures SortedBy(PairLe, Flatten(values, keys))
  {
    if keys != [] {
      var init, k := keys[..|keys| - 1], keys[|keys| - 1];
      FlattenSorted(values, init);
      BytesOrder();
      SortSorts(BytesLe, values[k]);
      var front := Flatten(values, init);
      forall i | 0 <= i < |front| ensures front[i].key != k && BytesLe(front[i].key, k) {
        FlattenKeys(values, init, i);
        var j :| 0 <= j < |init| && init[j] == front[i].key;
        assert keys[j] == init[j];
      }
    }
  }

  /** Printing the groups in key order prints the sorted pairs. */
  lemma FlattenIsSort(ps: seq<Pair>, keys: seq<Bytes>)
    requires (forall k :: k in keys <==> k in Group(ps)) && Distinct(keys) && SortedBy(BytesLe, keys)
    ensures Flatten(Group(ps), keys) == Sort(PairLe, ps)
  {
    var flat := Flatten(Group(ps), keys);
    forall p ensures multiset(flat)[p] == multiset(ps)[p] {
      FlattenCounts(Group(ps), keys, p);
      GroupCounts(ps, p.key, p.value);
      assert p == Pair(p.key, p.value);
    }
    assert multiset(flat) == multiset(ps);
    PairOrder();
    FlattenSorted(Group(ps), keys);
    SortSorts(PairLe, ps);
    SortedUnique(PairLe, flat, Sort(PairLe, ps));
  }

  /** `for k := range params` in whatever order the map gives, then `sort.Strings`. */
  method SortedKeys(values: Values) returns (keys: seq<Bytes>)
    ensures (forall k :: k in keys <==> k in values) && Distinct(keys) && SortedBy(BytesLe, keys)
  {
    keys := [];
    var rest := values.Keys;
    while rest != {}
      invariant forall k :: k in values <==> k in keys || k in rest
      invariant Distinct(keys) && forall k | k in keys :: k !in rest
    {
      var k :| k in rest;
      keys := keys + [k];
      rest := rest - {k};
    }
    BytesOrder();
    SortSorts(BytesLe, keys);
    SortKeepsDistinct(keys);
    keys := Sort(BytesLe, keys);
  }

  lemma {:induction false} DistinctCounts(s: seq<Bytes>, k: Bytes)
    requires Distinct(s)
    ensures multiset(s)[k] <= 1
  {
    if s != [] {
      DistinctCounts(s[1..], k);
      assert s == [s[0]] + s[1..];
    }
  }

  lemma {:induction false} CountsDistinct(s: seq<Bytes>)
    requires forall k :: multiset(s)[k] <= 1
    ensures Distinct(s)
  {
    if s != [] {
      assert s == [s[0]] + s[1..];
      var tail := multiset(s[1..]);
      forall k ensures tail[k] + multiset{s[0]}[k] <= 1 {
        assert multiset(s)[k] == (multiset{s[0]} + tail)[k] == multiset{s[0]}[k] + tail[k];
      }
      assert tail[s[0]] == 0 && forall k :: tail[k] <= 1;
      CountsDistinct(s[1..]);
    }
  }

  lemma SortKeepsDistinct(s: seq<Bytes>)
    requires Distinct(s)
    ensures Distinct(Sort(BytesLe, s)) && forall k :: k in Sort(BytesLe, s) <==> k in s
  {
    BytesOrder();
    SortSorts(BytesLe, s);
    var r := Sort(BytesLe, s);
    assert forall k :: k in r <==> k in multiset(r);
    forall k ensures multiset(r)[k] <= 1 {
      DistinctCounts(s, k);
    }
    CountsDistinct(r);
  }

  lemma PrintOneMore(done: seq<Pair>, key: Bytes, values: seq<Bytes>, j: nat)
    requires j < |values|
    ensures var printed := done + PairsOf(key, values[..j]);
      Print(done + PairsOf(key, values[..j + 1])) ==
        (if printed == [] then [] else Print(printed) + [AMP]) + (Escape(key) + [EQUALS] + Escape(values[j]))
  {
    var first, p := PairsOf(key, values[..j]), Pair(key, values[j]);
    assert PairsOf(key, values[..j + 1]) == first + [p];
    assert done + (first + [p]) == (done + first) + [p];
    PrintSnoc(done + first, p);
    assert Print((done + first) + [p]) ==
        (if done + first == [] then [] else Print(done + first) + [AMP]) + PrintPair(p);
  }

  /** The inner loop: the sorted values of one key, after the pairs `done`. */
  method PrintValues(ghost done: seq<Pair>, key: Bytes, values: seq<Bytes>, first: bool, before: Bytes)
      returns (text: Bytes)
    requires before == Print(done) && first == (done == [])
    ensures text == Print(done + PairsOf(key, values))
  {
    text := before;
    assert done + PairsOf(key, values[..0]) == done;
    for j := 0 to |values|
      invariant text == Print(done + PairsOf(key, values[..j]))
    {
      PrintOneMore(done, key, values, j);
      if !first || j > 0 {
        text := text + [AMP];
      }
      text := text + (Escape(key) + [EQUALS] + Escape(values[j]));
    }
    assert values[..|values|] == values;
  }

  lemma GroupsNonEmpty(query: Bytes, key: Bytes)
    requires key in Group(Decode(query))
    ensures Sort(BytesLe, Group(Decode(query))[key]) != []
  {
    GroupCounts(Decode(query), key, []);
    BytesOrder();
    var values := Group(Decode(query))[key];
    SortSorts(BytesLe, values);
    assert |multiset(Sort(BytesLe, values))| == |multiset(values)|;
  }

  /** The printing loops over all keys: what they print is the canonical query. */
  method PrintSorted(query: Bytes) returns (text: Bytes)
    ensures text == CanonicalQuery(query)
  {
    var params := Group(Decode(query));
    var keys := SortedKeys(params);
    text := [];
    for i := 0 to |keys|
      invariant text == Print(Flatten(params, keys[..i])) && (i > 0 <==> Flatten(params, keys[..i]) != [])
    {
      ghost var done := Flatten(params, keys[..i]);
      GroupsNonEmpty(query, keys[i]);
      text := PrintValues(done, keys[i], Sort(BytesLe, params[keys[i]]), i == 0, text);
      FlattenSnoc(params, keys, i);
    }
    assert keys[..|keys|] == keys;
    FlattenIsSort(Decode(query), keys);
  }

  // The whole URL.

  datatype Url = Url(scheme: Bytes, host: Bytes, port: Bytes, path: Bytes, query: Bytes, fragment: Bytes)

  const HTTP: Bytes := [0x68, 0x74, 0x74, 0x70]
  const HTTPS: Bytes := [0x68, 0x74, 0x74, 0x70, 0x73]
  const PORT_80: Bytes := [0x38, 0x30]
  const PORT_443: Bytes := [0x34, 0x34, 0x33]
  const SLASH: Byte := 0x2F

  function Text(s: Bytes): string {
    seq(|s|, i requires 0 <= i < |s| => s[i] as char)
  }

  lemma NamesAre()
    ensures Text(HTTP) == "http" && Text(HTTPS) == "https" && Text(PORT_80) == "80" && Text(PORT_443) == "443"
    ensures Text([SLASH]) == "/"
  {
  }

  function LowerByte(b: Byte): Byte {
    if IsUpper(b) then b + 0x20 else b
  }

  function LowerBytes(s: Bytes): (r: Bytes)
    ensures |r| == |s| && forall i | 0 <= i < |s| :: r[i] == LowerByte(s[i])
  {
    seq(|s|, i requires 0 <= i < |s| => LowerByte(s[i]))
  }

  function TrimSlashes(path: Bytes): (r: Bytes)
    ensures r <= path && (r == [] || r[|r| - 1] != SLASH)
    ensures forall i | |r| <= i < |path| :: path[i] == SLASH
  {
    if path != [] && path[|path| - 1] == SLASH then TrimSlashes(path[..|path| - 1]) else path
  }

  function CanonicalPath(path: Bytes): Bytes {
    if |path| > 1 then TrimSlashes(path) else path
  }

  /** The port that remains once the scheme's default is dropped; `scheme` is in lower case. */
  function ShownPort(scheme: Bytes, port: Bytes): Bytes {
    if (scheme == HTTP && port == PORT_80) || (scheme == HTTPS && port == PORT_443) then [] else port
  }

  function CanonicalUrl(u: Url): Url {
    var scheme := LowerBytes(u.scheme);
    Url(scheme, LowerBytes(u.host), ShownPort(scheme, u.port), CanonicalPath(u.path), CanonicalQuery(u.query), [])
  }

  /** `Canonicalize` between parsing and printing: each field is overwritten in turn. */
  method Canonicalize(u: Url) returns (c: Url)
    ensures c == CanonicalUrl(u)
  {
    c := u;
    c := c.(scheme := LowerBytes(c.scheme));
    c := c.(host := LowerBytes(c.host));
    if (c.scheme == HTTP && c.port == PORT_80) || (c.scheme == HTTPS && c.port == PORT_443) {
      c := c.(port := []);
    }
    c := c.(fragment := []);
    if c.query != [] {
      var text := PrintSorted(c.query);
      c := c.(query := text);
    }
    if |c.path| > 1 {
      c := c.(path := TrimSlashes(c.path));
    }
  }

  /** Canonicalising twice is canonicalising once. */
  lemma CanonicalizeIdempotent(u: Url)
    ensures CanonicalUrl(CanonicalUrl(u)) == CanonicalUrl(u)
  {
    CanonicalRoundTrip(u.query);
    assert LowerBytes(LowerBytes(u.scheme)) == LowerBytes(u.scheme)
        && LowerBytes(LowerBytes(u.host)) == LowerBytes(u.host);
  }

  // When two URLs have the same canonical form, without reference to it.

  predicate IsUpper(b: Byte) {
    0x41 <= b <= 0x5A
  }

  /** The same text up to the case of ASCII letters. */
  predicate EqualFold(a: Bytes, b: Bytes) {
    |a| == |b| && forall i | 0 <= i < |a| ::
      a[i] == b[i] || (IsUpper(a[i]) && b[i] == a[i] + 0x20) || (IsUpper(b[i]) && a[i] == b[i] + 0x20)
  }

  lemma FoldIff(a: Bytes, b: Bytes)
    ensures LowerBytes(a) == LowerBytes(b) <==> EqualFold(a, b)
  {
    if LowerBytes(a) == LowerBytes(b) {
      forall i | 0 <= i < |a|
        ensures a[i] == b[i] || (IsUpper(a[i]) && b[i] == a[i] + 0x20) || (IsUpper(b[i]) && a[i] == b[i] + 0x20)
      {
        assert LowerBytes(a)[i] == LowerBytes(b)[i];
      }
    }
  }

  /** No port is given, or the one that the scheme implies. */
  predicate ImpliedPort(scheme: Bytes, port: Bytes) {
    || port == []
    || (port == PORT_80 && EqualFold(scheme, HTTP))
    || (port == PORT_443 && EqualFold(scheme, HTTPS))
  }

  lemma PortIff(s1: Bytes, p1: Bytes, s2: Bytes, p2: Bytes)
    requires EqualFold(s1, s2)
    ensures ShownPort(LowerBytes(s1), p1) == ShownPort(LowerBytes(s2), p2) <==>
            p1 == p2 || (ImpliedPort(s1, p1) && ImpliedPort(s2, p2))
  {
    FoldIff(s1, s2);
    assert LowerBytes(HTTP) == HTTP && LowerBytes(HTTPS) == HTTPS;
    FoldIff(s1, HTTP);
    FoldIff(s1, HTTPS);
    FoldIff(s2, HTTP);
    FoldIff(s2, HTTPS);
  }

  /** The same path up to trailing slashes; but the root path is only the same as itself. */
  predicate SamePath(a: Bytes, b: Bytes) {
    TrimSlashes(a) == TrimSlashes(b) && (a == [SLASH] <==> b == [SLASH])
  }

  lemma PathIff(a: Bytes, b: Bytes)
    ensures CanonicalPath(a) == CanonicalPath(b) <==> SamePath(a, b)
  {
    assert |a| == 1 && a != [SLASH] ==> TrimSlashes(a) == a;
    assert |b| == 1 && b != [SLASH] ==> TrimSlashes(b) == b;
    assert TrimSlashes([SLASH]) == [];
  }

  /** The URLs agree up to case in scheme and host, implied ports, trailing slashes, fragments, and the spelling and
      order of query parameters. */
  ghost predicate Equivalent(u: Url, v: Url) {
    && EqualFold(u.scheme, v.scheme) && EqualFold(u.host, v.host)
    && (u.port == v.port || (ImpliedPort(u.scheme, u.port) && ImpliedPort(v.scheme, v.port)))
    && SamePath(u.path, v.path)
    && multiset(Decode(u.query)) == multiset(Decode(v.query))
  }

  /** Two URLs have the same canonical form exactly when their schemes and hosts are the same up to case, their ports
      are the same or both implied by the scheme, their paths are the same up to trailing slashes (`//` and the empty
      path included, the root path excluded), and their queries decode to the same multiset of pairs; fragments and
      the order and spelling of query parameters do not matter. */
  lemma SameCanonicalIff(u: Url, v: Url)
    ensures CanonicalUrl(u) == CanonicalUrl(v) <==> Equivalent(u, v)
  {
    FoldIff(u.scheme, v.scheme);
    FoldIff(u.host, v.host);
    if EqualFold(u.scheme, v.scheme) {
      PortIff(u.scheme, u.port, v.scheme, v.port);
    }
    PathIff(u.path, v.path);
    CompleteInvariant(u.query, v.query);
  }

  /** So the root path is not the same as a path of two slashes, which is the same as no path at all. */
  lemma RootIsNotDoubleSlash(u: Url)
    ensures CanonicalUrl(u.(path := [SLASH])) != CanonicalUrl(u.(path := [SLASH, SLASH])) ==
        CanonicalUrl(u.(path := []))
  {
    assert TrimSlashes([SLASH]) == [];
    assert [SLASH, SLASH][..1] == [SLASH];
    assert TrimSlashes([SLASH, SLASH]) == [];
  }

  // The canonical form is the one normal form among equivalent URLs.

  predicate NoUpper(s: Bytes) {
    forall i | 0 <= i < |s| :: !IsUpper(s[i])
  }

  /** No capitals in scheme and host, no port that goes without saying, no trailing slash but the root's, no fragment,
      and a query that prints sorted pairs. */
  ghost predicate Normal(u: Url) {
    && NoUpper(u.scheme) && NoUpper(u.host)
    && (u.port == [] || !ImpliedPort(u.scheme, u.port))
    && (u.path == [] || u.path == [SLASH] || u.path[|u.path| - 1] != SLASH)
    && u.fragment == []
    && SortedBy(PairLe, Decode(u.query)) && u.query == Print(Decode(u.query))
  }

  lemma LowerIs(s: Bytes)
    ensures NoUpper(LowerBytes(s)) && EqualFold(LowerBytes(s), s)
    ensures NoUpper(s) <==> LowerBytes(s) == s
  {
    forall i | 0 <= i < |s| ensures LowerBytes(s)[i] == s[i] <==> !IsUpper(s[i]) {
    }
  }

  lemma {:induction false} TrimmedStays(path: Bytes)
    ensures TrimSlashes(TrimSlashes(path)) == TrimSlashes(path)
    ensures path == [] || path[|path| - 1] != SLASH ==> TrimSlashes(path) == path
  {
    if path != [] && path[|path| - 1] == SLASH {
      TrimmedStays(path[..|path| - 1]);
    }
  }

  lemma {:induction false} SortedStays(ps: seq<Pair>)
    requires SortedBy(PairLe, ps)
    ensures Sort(PairLe, ps) == ps
  {
    PairOrder();
    SortSorts(PairLe, ps);
    SortedUnique(PairLe, Sort(PairLe, ps), ps);
  }

  /** The port that is shown is implied only if it is not shown at all. */
  lemma ShownIsNormal(scheme: Bytes, port: Bytes)
    ensures var shown := ShownPort(LowerBytes(scheme), port);
      shown == [] || !ImpliedPort(LowerBytes(scheme), shown)
  {
    LowerIs(scheme);
    LowerIs(LowerBytes(scheme));
    FoldIff(LowerBytes(scheme), HTTP);
    FoldIff(LowerBytes(scheme), HTTPS);
    assert LowerBytes(HTTP) == HTTP && LowerBytes(HTTPS) == HTTPS;
    assert LowerBytes(LowerBytes(scheme)) == LowerBytes(scheme);
  }

  lemma CanonicalIsNormal(u: Url)
    ensures Normal(CanonicalUrl(u))
  {
    LowerIs(u.scheme);
    LowerIs(u.host);
    ShownIsNormal(u.scheme, u.port);
    PairOrder();
    SortSorts(PairLe, Decode(u.query));
    DecodePrint(Sort(PairLe, Decode(u.query)));
  }

  lemma CanonicalIsEquivalent(u: Url)
    ensures Equivalent(u, CanonicalUrl(u))
  {
    CanonicalizeIdempotent(u);
    SameCanonicalIff(u, CanonicalUrl(u));
  }

  /** A normal URL is its own canonical form. */
  lemma NormalStays(u: Url)
    requires Normal(u)
    ensures CanonicalUrl(u) == u
  {
    LowerIs(u.scheme);
    LowerIs(u.host);
    TrimmedStays(u.path);
    SortedStays(Decode(u.query));
    assert LowerBytes(u.scheme) == u.scheme;
    NormalPort(u.scheme, u.port);
  }

  lemma NormalPort(scheme: Bytes, port: Bytes)
    requires LowerBytes(scheme) == scheme && (port == [] || !ImpliedPort(scheme, port))
    ensures ShownPort(scheme, port) == port
  {
    assert EqualFold(HTTP, HTTP) && EqualFold(HTTPS, HTTPS);
  }

  /** What `Canonicalize` computes, without reference to how: the one normal URL that is equivalent to its input. */
  lemma CanonicalIff(u: Url, c: Url)
    ensures c == CanonicalUrl(u) <==> Normal(c) && Equivalent(u, c)
  {
    CanonicalIsNormal(u);
    CanonicalIsEquivalent(u);
    if Normal(c) && Equivalent(u, c) {
      NormalStays(c);
      SameCanonicalIff(u, c);
    }
  }
}
