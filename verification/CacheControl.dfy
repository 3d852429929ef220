/** The `Cache-Control` scans of `pkg/middleware/cache.go`: `hasNoStore` and `responseTTL`. */
module CacheControl {
  import opened Collections

  const SECOND: int := 1_000_000_000
  const MAX_INT: int := 0x7FFF_FFFF_FFFF_FFFF

  function Until(s: string, c: char): (r: string)
    ensures |r| <= |s|
  {
    if s == "" || s[0] == c then "" else [s[0]] + Until(s[1..], c)
  }

  /** `strings.Split`. */
  function Split(s: string, c: char): seq<string>
    decreases |s|
  {
    var part := Until(s, c);
    if |part| == |s| then [part] else [part] + Split(s[|part| + 1..], c)
  }

  function LowerChar(c: char): char {
    if 'A' <= c <= 'Z' then (c as int + 32) as char else c
  }

  function Lower(s: string): string {
    seq(|s|, i requires 0 <= i < |s| => LowerChar(s[i]))
  }

  /** The blanks up to U+00FF: tab, line feed, vertical tab, form feed, carriage return, space, next line, no-break
      space. */
  const SPACES: string := "\t\n\U{0B}\U{0C}\r \U{85}\U{A0}"

  predicate IsSpace(c: char) {
    c in SPACES
  }

  function Trim(s: string): string
    decreases |s|
  {
    if s != "" && IsSpace(s[0]) then Trim(s[1..])
    else if s != "" && IsSpace(s[|s| - 1]) then Trim(s[..|s| - 1])
    else s
  }

  /** The directives of a header, in lower case and without surrounding blanks. */
  function Directives(header: string): (ds: seq<string>)
  {
    if header == "" then [] else Cleaned(Split(header, ','))
  }

  function Cleaned(parts: seq<string>): seq<string> {
    seq(|parts|, i requires 0 <= i < |parts| => Trim(Lower(parts[i])))
  }

  predicate AnyNoStore(ds: seq<string>)
    ensures AnyNoStore(ds) <==> "no-store" in ds
  {
    if ds == [] then false else ds[0] == "no-store" || AnyNoStore(ds[1..])
  }

  predicate HasNoStore(header: string) {
    AnyNoStore(Directives(header))
  }

  predicate AllDigits(s: string) {
    forall i | 0 <= i < |s| :: '0' <= s[i] <= '9'
  }

  function Digits(s: string): nat
    requires AllDigits(s)
  {
    if s == "" then 0 else Digits(s[..|s| - 1]) * 10 + (s[|s| - 1] as int - '0' as int)
  }

  /** `strconv.Atoi`: an optional sign, at least one digit, and a value that fits. */
  function Atoi(s: string): Option<int> {
    var signed := s != "" && (s[0] == '+' || s[0] == '-');
    var digits := if signed then s[1..] else s;
    if digits == "" || !AllDigits(digits) then None
    else
      var n: int := if signed && s[0] == '-' then 0 - Digits(digits) else Digits(digits);
      if -MAX_INT - 1 <= n <= MAX_INT then Some(n) else None
  }

  const MAX_AGE: string := "max-age="

  /** The positive number of seconds that a directive asks for, if it does. */
  function MaxAge(d: string): (n: Option<int>)
    ensures n.Some? ==> n.value > 0
  {
    if MAX_AGE <= d then
      var n := Atoi(d[|MAX_AGE|..]);
      if n.Some? && n.value > 0 then n else None
    else None
  }

  function FirstMaxAge(ds: seq<string>): Option<int> {
    if ds == [] then None else if MaxAge(ds[0]).Some? then MaxAge(ds[0]) else FirstMaxAge(ds[1..])
  }

  /** `responseTTL`, in nanoseconds. */
  function ResponseTtl(header: string, defaultTtl: int): int {
    var n := FirstMaxAge(Directives(header));
    if n.Some? then n.value * SECOND else defaultTtl
  }

  /** Directive `i` is the first with a positive `max-age`, namely `n`. */
  ghost predicate IsFirst(ds: seq<string>, i: nat, n: int) {
    i < |ds| && MaxAge(ds[i]) == Some(n) && forall j | 0 <= j < i :: MaxAge(ds[j]) == None
  }

  /** The TTL is the first positive `max-age` in the header, wherever it stands; failing that, the default. */
  lemma {:induction false} FirstMaxAgeIs(ds: seq<string>)
    ensures FirstMaxAge(ds).Some? ==> exists i: nat :: IsFirst(ds, i, FirstMaxAge(ds).value)
    ensures FirstMaxAge(ds).None? ==> forall j | 0 <= j < |ds| :: MaxAge(ds[j]) == None
  {
    if ds != [] {
      if MaxAge(ds[0]).Some? {
        assert IsFirst(ds, 0, MaxAge(ds[0]).value);
      } else {
        var rest := ds[1..];
        FirstMaxAgeIs(rest);
        assert FirstMaxAge(ds) == FirstMaxAge(rest);
        if FirstMaxAge(ds).Some? {
          var n := FirstMaxAge(ds).value;
          var i: nat :| IsFirst(rest, i, n);
          FirstShifts(ds, i, n);
        } else {
          forall j | 0 <= j < |ds| ensures MaxAge(ds[j]) == None {
            assert j > 0 ==> ds[j] == rest[j - 1];
          }
        }
      }
    }
  }

  lemma FirstShifts(ds: seq<string>, i: nat, n: int)
    requires ds != [] && MaxAge(ds[0]) == None && IsFirst(ds[1..], i, n)
    ensures IsFirst(ds, i + 1, n)
  {
    assert ds[i + 1] == ds[1..][i];
    forall j | 0 <= j < i + 1 ensures MaxAge(ds[j]) == None {
      assert j > 0 ==> ds[j] == ds[1..][j - 1];
    }
  }

  /** A header overrides the default TTL exactly when some directive carries a positive `max-age`. */
  lemma TtlOverriddenIff(header: string)
    ensures (forall a, b :: ResponseTtl(header, a) == ResponseTtl(header, b)) <==>
            exists i :: 0 <= i < |Directives(header)| && MaxAge(Directives(header)[i]).Some?
  {
    FirstMaxAgeIs(Directives(header));
    if FirstMaxAge(Directives(header)).Some? {
      var i: nat :| IsFirst(Directives(header), i, FirstMaxAge(Directives(header)).value);
    }
    assert ResponseTtl(header, 0) == ResponseTtl(header, 1) <==> FirstMaxAge(Directives(header)).Some?;
  }

  const ZERO_AGE: string := "max-age=0"

  lemma ZeroAgeIsNoAge()
    ensures MaxAge(ZERO_AGE) == None
  {
    assert ZERO_AGE[|MAX_AGE|..] == "0";
    assert Digits("0") == 0;
  }

  lemma ZeroAgeClean()
    ensures Trim(Lower(ZERO_AGE)) == ZERO_AGE
  {
    assert Lower(ZERO_AGE) == ZERO_AGE;
  }

  lemma ZeroAgeDirectives()
    ensures Directives(ZERO_AGE) == [ZERO_AGE]
  {
    NoComma(ZERO_AGE);
    ZeroAgeClean();
    assert Cleaned([ZERO_AGE]) == [Trim(Lower(ZERO_AGE))];
  }

  /** So `max-age=0` does not make a response stale at once: it is kept for the default TTL. */
  lemma MaxAgeZeroKeepsDefault(defaultTtl: int)
    ensures ResponseTtl(ZERO_AGE, defaultTtl) == defaultTtl
  {
    ZeroAgeDirectives();
    ZeroAgeIsNoAge();
    assert FirstMaxAge([ZERO_AGE]) == None;
  }

  lemma {:induction false} NoComma(s: string)
    requires ',' !in s
    ensures Until(s, ',') == s && Split(s, ',') == [s]
  {
    if s != "" {
      NoComma(s[1..]);
      assert s == [s[0]] + s[1..];
    }
  }

  // What a header means, without reference to the scans.

  predicate AllSpace(s: string) {
    forall i | 0 <= i < |s| :: IsSpace(s[i])
  }

  /** The same word up to the case of ASCII letters; `word` is in lower case. */
  predicate EqualFold(s: string, word: string) {
    |s| == |word| && forall i | 0 <= i < |s| ::
      s[i] == word[i] || ('A' <= s[i] <= 'Z' && word[i] as int == s[i] as int + 32)
  }

  /** A word with neither blanks at its ends nor capitals. */
  predicate Clean(word: string) {
    && (word != "" ==> !IsSpace(word[0]) && !IsSpace(word[|word| - 1]))
    && forall i | 0 <= i < |word| :: !('A' <= word[i] <= 'Z')
  }

  /** The first `i` characters and those from `j` on are blanks, and between them stands the word in any case. */
  predicate WordAt(part: string, i: nat, j: nat, word: string) {
    i <= j <= |part| && AllSpace(part[..i]) && AllSpace(part[j..]) && EqualFold(part[i..j], word)
  }

  /** The part is that word in any case between blanks. */
  ghost predicate IsWord(part: string, word: string) {
    exists i: nat, j: nat :: WordAt(part, i, j, word)
  }

  lemma LowerIff(s: string, word: string)
    requires Clean(word)
    ensures Lower(s) == word <==> EqualFold(s, word)
  {
    if Lower(s) == word {
      forall i | 0 <= i < |s| ensures s[i] == word[i] || ('A' <= s[i] <= 'Z' && word[i] as int == s[i] as int + 32) {
        assert word[i] == LowerChar(s[i]);
      }
    }
  }

  lemma {:induction false} TrimSplits(s: string) returns (i: nat, j: nat)
    ensures i <= j <= |s| && AllSpace(s[..i]) && AllSpace(s[j..]) && Trim(s) == s[i..j]
    decreases |s|
  {
    if s != "" && IsSpace(s[0]) {
      i, j := TrimSplits(s[1..]);
      i, j := i + 1, j + 1;
      assert s[..i] == [s[0]] + s[1..][..i - 1] && s[j..] == s[1..][j - 1..] && s[i..j] == s[1..][i - 1..j - 1];
    } else if s != "" && IsSpace(s[|s| - 1]) {
      var front := s[..|s| - 1];
      i, j := TrimSplits(front);
      assert s[..i] == front[..i] && s[j..] == front[j..] + [s[|s| - 1]] && s[i..j] == front[i..j];
    } else {
      i, j := 0, |s|;
      assert s[..0] == "" && s[|s|..] == "" && s[0..|s|] == s;
    }
  }

  lemma SpacesInside(s: string, i: nat, j: nat)
    requires i <= j <= |s| && AllSpace(s)
    ensures AllSpace(s[i..j])
  {
  }

  /** Blanks in front are trimmed off. */
  lemma {:induction false} TrimFront(s: string, i: nat)
    requires i <= |s| && AllSpace(s[..i])
    ensures Trim(s) == Trim(s[i..])
  {
    if i == 0 {
      assert s[0..] == s;
    } else {
      var front, tail := s[..i], s[1..];
      assert front[0] == s[0];
      SpacesInside(front, 1, i);
      assert front[1..i] == tail[..i - 1] && tail[i - 1..] == s[i..];
      TrimFront(tail, i - 1);
    }
  }

  /** Blanks behind a text that does not begin with one are trimmed off. */
  lemma {:induction false} TrimBack(s: string, j: nat)
    requires j <= |s| && AllSpace(s[j..]) && (s != "" ==> !IsSpace(s[0])) && (0 < j ==> !IsSpace(s[j - 1]))
    ensures Trim(s) == s[..j]
    decreases |s|
  {
    if j == |s| {
      assert s[..j] == s;
    } else {
      var front, back := s[..|s| - 1], s[j..];
      assert back[|s| - 1 - j] == s[|s| - 1];
      SpacesInside(back, 0, |back| - 1);
      assert back[0..|back| - 1] == front[j..] && front[..j] == s[..j];
      assert j > 0 ==> front[j - 1] == s[j - 1];
      TrimBack(front, j);
    }
  }

  lemma TrimFinds(s: string, i: nat, j: nat)
    requires i <= j <= |s| && AllSpace(s[..i]) && AllSpace(s[j..])
    requires i < j ==> !IsSpace(s[i]) && !IsSpace(s[j - 1])
    ensures Trim(s) == s[i..j]
  {
    var rest := s[i..];
    TrimFront(s, i);
    if i < j {
      assert rest[j - i..] == s[j..] && rest[..j - i] == s[i..j] && rest[0] == s[i] && rest[j - i - 1] == s[j - 1];
      TrimBack(rest, j - i);
    } else {
      assert rest[..|rest|] == rest && rest[|rest|..] == "" && rest == s[j..];
      TrimFront(rest, |rest|);
    }
  }

  lemma SpaceStays(s: string)
    ensures AllSpace(Lower(s)) <==> AllSpace(s)
  {
    forall i | 0 <= i < |s| ensures IsSpace(Lower(s)[i]) <==> IsSpace(s[i]) {
    }
    if AllSpace(Lower(s)) {
      forall i | 0 <= i < |s| ensures IsSpace(s[i]) {
        assert IsSpace(Lower(s)[i]);
      }
    }
  }

  lemma LowerParts(s: string, i: nat, j: nat)
    requires i <= j <= |s|
    ensures Lower(s)[..i] == Lower(s[..i]) && Lower(s)[j..] == Lower(s[j..]) && Lower(s)[i..j] == Lower(s[i..j])
  {
  }

  /** A part of a header is a directive if and only if it is that word in any case between blanks. */
  lemma CleanedIff(part: string, word: string)
    requires Clean(word)
    ensures Trim(Lower(part)) == word <==> IsWord(part, word)
  {
    if Trim(Lower(part)) == word {
      var i, j := TrimSplits(Lower(part));
      LowerParts(part, i, j);
      SpaceStays(part[..i]);
      SpaceStays(part[j..]);
      LowerIff(part[i..j], word);
      assert WordAt(part, i, j, word);
    }
    if IsWord(part, word) {
      var i: nat, j: nat :| WordAt(part, i, j, word);
      LowerParts(part, i, j);
      SpaceStays(part[..i]);
      SpaceStays(part[j..]);
      LowerIff(part[i..j], word);
      var low := Lower(part);
      if i < j {
        assert low[i] == low[i..j][0] == word[0] && low[j - 1] == low[i..j][j - i - 1] == word[|word| - 1];
      }
      TrimFinds(low, i, j);
    }
  }

  function Joined(parts: seq<string>): string
    requires parts != []
  {
    if |parts| == 1 then parts[0] else parts[0] + "," + Joined(parts[1..])
  }

  lemma {:induction false} CutAtComma(a: string, b: string)
    requires ',' !in a
    ensures Until(a + "," + b, ',') == a
  {
    if a != "" {
      CutAtComma(a[1..], b);
      assert (a + "," + b)[1..] == a[1..] + "," + b;
      assert a == [a[0]] + a[1..];
    }
  }

  /** Splitting gives back the parts that were joined by commas. */
  lemma {:induction false} SplitJoined(parts: seq<string>)
    requires parts != [] && forall i | 0 <= i < |parts| :: ',' !in parts[i]
    ensures Split(Joined(parts), ',') == parts
  {
    var s := Joined(parts);
    if |parts| == 1 {
      NoComma(s);
    } else {
      var rest := Joined(parts[1..]);
      SplitJoined(parts[1..]);
      CutAtComma(parts[0], rest);
      assert |s| > |parts[0]| && s[|parts[0]| + 1..] == rest;
    }
  }

  const NO_STORE: string := "no-store"

  /** A header forbids storing if and only if one of its comma-separated parts is `no-store`, in any case and between
      any blanks. */
  lemma NoStoreIff(parts: seq<string>)
    requires parts != [] && Joined(parts) != "" && forall i | 0 <= i < |parts| :: ',' !in parts[i]
    ensures HasNoStore(Joined(parts)) <==> exists k :: 0 <= k < |parts| && IsWord(parts[k], NO_STORE)
  {
    SplitJoined(parts);
    HasNoStoreIs(Joined(parts));
    NoStoreClean();
    WordAmong(parts, NO_STORE);
  }

  lemma HasNoStoreIs(header: string)
    requires header != ""
    ensures HasNoStore(header) <==> NO_STORE in Cleaned(Split(header, ','))
  {
  }

  lemma NoStoreClean()
    ensures Clean(NO_STORE)
  {
  }

  lemma WordAmong(parts: seq<string>, word: string)
    requires Clean(word)
    ensures word in Cleaned(parts) <==> exists k :: 0 <= k < |parts| && IsWord(parts[k], word)
  {
    var ds := Cleaned(parts);
    forall k | 0 <= k < |parts| ensures ds[k] == word <==> IsWord(parts[k], word) {
      CleanedIff(parts[k], word);
    }
    if word in ds {
      var k :| 0 <= k < |ds| && ds[k] == word;
      assert IsWord(parts[k], word);
    }
  }

  /** Decimal notation without leading zeros. */
  function Decimal(n: nat): (s: string)
    ensures s != "" && AllDigits(s)
  {
    if n < 10 then [('0' as int + n) as char] else Decimal(n / 10) + [('0' as int + n % 10) as char]
  }

  lemma {:induction false} DigitsOfDecimal(n: nat)
    ensures Digits(Decimal(n)) == n
  {
    if n >= 10 {
      DigitsOfDecimal(n / 10);
      var s := Decimal(n);
      assert s[..|s| - 1] == Decimal(n / 10);
    } else {
      assert Decimal(n)[..0] == "";
    }
  }

  /** `max-age=` with a number of seconds in decimal notation is read as that number, if it is positive and fits. */
  lemma MaxAgeReads(n: nat)
    ensures MaxAge(MAX_AGE + Decimal(n)) == if 0 < n <= MAX_INT then Some(n) else None
  {
    DigitsOfDecimal(n);
    var d := MAX_AGE + Decimal(n);
    assert d[|MAX_AGE|..] == Decimal(n);
    assert '0' <= Decimal(n)[0] <= '9';
  }

  /** The number may have a plus sign; with a minus sign it is not positive. */
  lemma MaxAgeSigned(n: nat)
    ensures MaxAge(MAX_AGE + ("+" + Decimal(n))) == if 0 < n <= MAX_INT then Some(n) else None
    ensures MaxAge(MAX_AGE + ("-" + Decimal(n))) == None
  {
    DigitsOfDecimal(n);
    AtoiSigned(n);
    assert (MAX_AGE + ("+" + Decimal(n)))[|MAX_AGE|..] == "+" + Decimal(n);
    assert (MAX_AGE + ("-" + Decimal(n)))[|MAX_AGE|..] == "-" + Decimal(n);
  }

  lemma AtoiSigned(n: nat)
    ensures Atoi("+" + Decimal(n)) == if n <= MAX_INT then Some(n) else None
    ensures Atoi("-" + Decimal(n)) == if n <= MAX_INT + 1 then Some(0 - n) else None
  {
    DigitsOfDecimal(n);
    var d := Decimal(n);
    assert ("+" + d)[1..] == d && ("-" + d)[1..] == d;
    assert ("+" + d)[0] == '+' && ("-" + d)[0] == '-';
  }

  /** A directive with anything but digits after the sign gives no number. */
  lemma MaxAgeOnlyDigits(text: string, i: nat)
    requires i < |text| && !('0' <= text[i] <= '9') && (i > 0 || (text[0] != '+' && text[0] != '-'))
    ensures MaxAge(MAX_AGE + text) == None
  {
    assert (MAX_AGE + text)[|MAX_AGE|..] == text;
    if text[0] == '+' || text[0] == '-' {
      assert text[1..][i - 1] == text[i];
    }
  }

  /** So a header that is just that gives a response this many seconds to live, and otherwise the default. */
  lemma TtlReads(n: nat, defaultTtl: int)
    ensures ResponseTtl(MAX_AGE + Decimal(n), defaultTtl) == if 0 < n <= MAX_INT then n * 1_000_000_000 else defaultTtl
  {
    var d := MAX_AGE + Decimal(n);
    MaxAgeIsPlain(n);
    PlainDirective(d);
    MaxAgeReads(n);
    assert FirstMaxAge([d]) == MaxAge(d);
  }

  predicate Plain(s: string) {
    forall i | 0 <= i < |s| :: s[i] != ',' && !IsSpace(s[i]) && LowerChar(s[i]) == s[i]
  }

  lemma MaxAgeIsPlain(n: nat)
    ensures Plain(MAX_AGE + Decimal(n))
  {
    var a, b := MAX_AGE, Decimal(n);
    assert Plain(a) && Plain(b);
    assert forall i | 0 <= i < |a + b| :: (a + b)[i] == if i < |a| then a[i] else b[i - |a|];
  }

  lemma PlainDirective(d: string)
    requires Plain(d) && d != ""
    ensures Directives(d) == [d]
  {
    NoComma(d);
    assert Lower(d) == d;
    assert Trim(d) == d;
    assert Cleaned([d]) == [Trim(Lower(d))];
  }
}
