/** Query components as bytes: `url.QueryEscape`, `url.QueryUnescape`, the parser behind `URL.Query` and the
    printer of `pkg/frontier/canonical.go`. */
module QueryCodec {
  import opened Collections

  type Byte = x: int | 0 <= x < 256

  type Bytes = seq<Byte>

  datatype Pair = Pair(key: Bytes, value: Bytes)

  const AMP: Byte := 0x26
  const EQUALS: Byte := 0x3D
  const PERCENT: Byte := 0x25
  const PLUS: Byte := 0x2B
  const SEMICOLON: Byte := 0x3B
  const SPACE: Byte := 0x20

  /** Letters, digits, `-`, `_`, `.` and `~`: the unreserved characters of section 2.3 of RFC 3986. */
  predicate Unreserved(b: Byte) {
    0x41 <= b <= 0x5A || 0x61 <= b <= 0x7A || 0x30 <= b <= 0x39 || b == 0x2D || b == 0x5F || b == 0x2E || b == 0x7E
  }

  type Nibble = x: int | 0 <= x < 16

  function HexDigit(n: Nibble): Byte {
    if n < 10 then 0x30 + n else 0x41 + n - 10
  }

  function HexValue(b: Byte): Option<Nibble> {
    if 0x30 <= b <= 0x39 then Some(b - 0x30)
    else if 0x41 <= b <= 0x46 then Some(b - 0x41 + 10)
    else if 0x61 <= b <= 0x66 then Some(b - 0x61 + 10)
    else None
  }

  function EscapeByte(b: Byte): Bytes {
    if Unreserved(b) then [b] else if b == SPACE then [PLUS] else [PERCENT, HexDigit(b / 16), HexDigit(b % 16)]
  }

  function Escape(s: Bytes): Bytes {
    if s == [] then [] else EscapeByte(s[0]) + Escape(s[1..])
  }

  function Unescape(s: Bytes): Option<Bytes> {
    if s == [] then Some([])
    else if s[0] == PERCENT then
      if |s| < 3 || HexValue(s[1]).None? || HexValue(s[2]).None? then None
      else
        Prepend(HexValue(s[1]).value * 16 + HexValue(s[2]).value, Unescape(s[3..]))
    else Prepend(if s[0] == PLUS then SPACE else s[0], Unescape(s[1..]))
  }

  function Prepend(b: Byte, rest: Option<Bytes>): Option<Bytes> {
    if rest.None? then None else Some([b] + rest.value)
  }

  /** The text up to the first `c`, or all of it. */
  function Before(s: Bytes, c: Byte): (r: Bytes)
    ensures |r| <= |s| && c !in r
  {
    if s == [] || s[0] == c then [] else [s[0]] + Before(s[1..], c)
  }

  /** The text after the first `c`, or nothing. */
  function After(s: Bytes, c: Byte): (r: Bytes)
    ensures s != [] ==> |r| < |s|
  {
    if s == [] then [] else if s[0] == c then s[1..] else After(s[1..], c)
  }

  /** One `&`-separated part: dropped if it is empty, has a semicolon, or does not decode. */
  function DecodePart(part: Bytes): seq<Pair> {
    if part == [] || SEMICOLON in part then []
    else
      var key, value := Unescape(Before(part, EQUALS)), Unescape(After(part, EQUALS));
      if key.None? || value.None? then [] else [Pair(key.value, value.value)]
  }

  /** The (key, value) pairs of a query, in order; malformed parts are skipped as `URL.Query` does. */
  function Decode(query: Bytes): seq<Pair>
    decreases |query|
  {
    if query == [] then [] else DecodePart(Before(query, AMP)) + Decode(After(query, AMP))
  }

  function PrintPair(p: Pair): Bytes {
    Escape(p.key) + [EQUALS] + Escape(p.value)
  }

  function Print(ps: seq<Pair>): Bytes {
    if ps == [] then []
    else if |ps| == 1 then PrintPair(ps[0])
    else PrintPair(ps[0]) + [AMP] + Print(ps[1..])
  }

  lemma {:induction false} EscapedBytes(s: Bytes, b: Byte)
    requires b in Escape(s)
    ensures Unreserved(b) || b == PLUS || b == PERCENT
  {
    if b !in EscapeByte(s[0]) {
      EscapedBytes(s[1..], b);
    }
  }

  lemma HexRoundTrip(b: Byte)
    ensures HexValue(HexDigit(b / 16)) == Some(b / 16) && HexValue(HexDigit(b % 16)) == Some(b % 16)
  {
  }

  lemma UnescapeOne(b: Byte, rest: Bytes, tail: Bytes)
    requires Unescape(rest) == Some(tail)
    ensures Unescape(EscapeByte(b) + rest) == Some([b] + tail)
  {
    var s := EscapeByte(b) + rest;
    if Unreserved(b) || b == SPACE {
      assert s[1..] == rest;
    } else {
      HexRoundTrip(b);
      assert s[0] == PERCENT && s[1] == HexDigit(b / 16) && s[2] == HexDigit(b % 16) && s[3..] == rest;
    }
  }

  lemma {:induction false} UnescapeEscape(s: Bytes)
    ensures Unescape(Escape(s)) == Some(s)
  {
    if s != [] {
      var first, rest := s[0], s[1..];
      UnescapeEscape(rest);
      UnescapeOne(first, Escape(rest), rest);
      assert s == [first] + rest;
    }
  }

  lemma {:induction false} CutAt(a: Bytes, c: Byte, b: Bytes)
    requires c !in a
    ensures Before(a + [c] + b, c) == a && After(a + [c] + b, c) == b
    ensures Before(a, c) == a && After(a, c) == []
  {
    if a == [] {
      assert a + [c] + b == [c] + b;
    } else {
      CutAt(a[1..], c, b);
      assert (a + [c] + b)[1..] == a[1..] + [c] + b;
      assert a == [a[0]] + a[1..];
    }
  }

  lemma NoSeparators(s: Bytes)
    ensures AMP !in Escape(s) && EQUALS !in Escape(s) && SEMICOLON !in Escape(s)
  {
    forall b | b in Escape(s) ensures b != AMP && b != EQUALS && b != SEMICOLON {
      EscapedBytes(s, b);
    }
  }

  lemma PrintedPairDecodes(p: Pair)
    ensures AMP !in PrintPair(p) && DecodePart(PrintPair(p)) == [p]
  {
    NoSeparators(p.key);
    NoSeparators(p.value);
    CutAt(Escape(p.key), EQUALS, Escape(p.value));
    UnescapeEscape(p.key);
    UnescapeEscape(p.value);
  }

  /** Parsing a printed query gives back exactly the printed pairs, for every sequence of pairs. */
  lemma {:induction false} DecodePrint(ps: seq<Pair>)
    ensures Decode(Print(ps)) == ps
  {
    if ps != [] {
      var text := PrintPair(ps[0]);
      PrintedPairDecodes(ps[0]);
      if |ps| == 1 {
        CutAt(text, AMP, []);
        assert Decode(text) == DecodePart(text) + Decode([]);
      } else {
        DecodePrint(ps[1..]);
        CutAt(text, AMP, Print(ps[1..]));
        assert Decode(Print(ps)) == [ps[0]] + ps[1..];
      }
    }
  }

  lemma Reassociate(a: Bytes, b: Bytes, c: Bytes, d: Bytes)
    ensures a + (b + c + d) == (a + b) + c + d
  {
  }

  lemma {:induction false} PrintSnoc(ps: seq<Pair>, p: Pair)
    ensures Print(ps + [p]) == if ps == [] then PrintPair(p) else Print(ps) + [AMP] + PrintPair(p)
  {
    if ps == [] {
      assert ps + [p] == [p];
    } else {
      PrintSnoc(ps[1..], p);
      assert (ps + [p])[1..] == ps[1..] + [p];
      if |ps| > 1 {
        Reassociate(PrintPair(ps[0]) + [AMP], Print(ps[1..]), [AMP], PrintPair(p));
      }
    }
  }

  // What a text means, without reference to the decoder.

  /** `c` is the hexadecimal digit for `n`, in either case. */
  predicate SpellsNibble(c: Byte, n: int) {
    (0 <= n < 10 && c == 0x30 + n) || (10 <= n < 16 && (c == 0x41 + n - 10 || c == 0x61 + n - 10))
  }

  /** `text` spells the bytes `s`, each raw, or as `+` if it is a space, or as `%` and two hexadecimal digits. */
  predicate Spells(text: Bytes, s: Bytes) {
    if s == [] then text == []
    else
      || (text != [] && text[0] == s[0] && s[0] != PERCENT && s[0] != PLUS && Spells(text[1..], s[1..]))
      || (text != [] && text[0] == PLUS && s[0] == SPACE && Spells(text[1..], s[1..]))
      || (|text| >= 3 && text[0] == PERCENT && SpellsNibble(text[1], s[0] / 16) && SpellsNibble(text[2], s[0] % 16)
          && Spells(text[3..], s[1..]))
  }

  lemma NibbleIff(c: Byte, n: Nibble)
    ensures SpellsNibble(c, n) <==> HexValue(c) == Some(n)
  {
  }

  lemma TwoDigits(b: Byte, h: Nibble, l: Nibble)
    ensures h * 16 + l == b <==> h == b / 16 && l == b % 16
  {
  }

  /** An escape at the front of a text decodes exactly to the byte that its two digits spell. */
  lemma EscapeIff(text: Bytes, b: Byte, tail: Bytes)
    requires text != [] && text[0] == PERCENT
    ensures Unescape(text) == Some([b] + tail) <==>
      && |text| >= 3 && SpellsNibble(text[1], b / 16) && SpellsNibble(text[2], b % 16)
      && Unescape(text[3..]) == Some(tail)
  {
    if |text| >= 3 {
      NibbleIff(text[1], b / 16);
      NibbleIff(text[2], b % 16);
      if Unescape(text) == Some([b] + tail) {
        var h: int, l: int := HexValue(text[1]).value, HexValue(text[2]).value;
        var first: Byte, rest := h * 16 + l, Unescape(text[3..]).value;
        assert ([first] + rest)[0] == b && ([first] + rest)[1..] == rest && ([b] + tail)[1..] == tail;
        TwoDigits(b, h, l);
      }
    }
  }

  lemma RawIff(text: Bytes, b: Byte, tail: Bytes)
    requires text != [] && text[0] != PERCENT
    ensures Unescape(text) == Some([b] + tail) <==>
      && b == (if text[0] == PLUS then SPACE else text[0]) && Unescape(text[1..]) == Some(tail)
  {
    if Unescape(text) == Some([b] + tail) {
      var c := if text[0] == PLUS then SPACE else text[0];
      var rest := Unescape(text[1..]).value;
      assert ([c] + rest)[0] == b && ([c] + rest)[1..] == rest && ([b] + tail)[1..] == tail;
    }
  }

  /** The decoder is exact: it gives the bytes `s` for a text if and only if the text spells them. So it accepts every
      spelling, with escapes that are not needed and digits of either case, and nothing else. */
  lemma {:induction false} DecodesIffSpells(text: Bytes, s: Bytes)
    ensures Unescape(text) == Some(s) <==> Spells(text, s)
    decreases |text|
  {
    if text == [] {
    } else if s == [] {
      if Unescape(text).Some? {
        assert |Unescape(text).value| > 0;
      }
    } else {
      var b, tail := s[0], s[1..];
      assert s == [b] + tail;
      if text[0] == PERCENT {
        EscapeIff(text, b, tail);
        if |text| >= 3 {
          DecodesIffSpells(text[3..], tail);
        }
      } else {
        RawIff(text, b, tail);
        DecodesIffSpells(text[1..], tail);
      }
    }
  }

  // The printer writes the normal spelling of sections 2.3 and 6.2.2 of RFC 3986.

  const UPPER_DIGITS: seq<Byte> :=
    [0x30, 0x31, 0x32, 0x33, 0x34, 0x35, 0x36, 0x37, 0x38, 0x39, 0x41, 0x42, 0x43, 0x44, 0x45, 0x46]

  /** `text` spells `s` with no unreserved byte escaped, with `+` for every space, and with digits in upper case. */
  predicate SpellsNormally(text: Bytes, s: Bytes) {
    if s == [] then text == []
    else if Unreserved(s[0]) then text != [] && text[0] == s[0] && SpellsNormally(text[1..], s[1..])
    else if s[0] == SPACE then text != [] && text[0] == PLUS && SpellsNormally(text[1..], s[1..])
    else
      && |text| >= 3 && text[0] == PERCENT
      && text[1] == UPPER_DIGITS[s[0] / 16] && text[2] == UPPER_DIGITS[s[0] % 16] && SpellsNormally(text[3..], s[1..])
  }

  lemma UpperDigit(n: Nibble)
    ensures HexDigit(n) == UPPER_DIGITS[n]
  {
  }

  /** Of all spellings of `s` the printer writes the normal one. */
  lemma {:induction false} EscapeIsNormal(text: Bytes, s: Bytes)
    ensures SpellsNormally(text, s) <==> text == Escape(s)
    decreases |s|
  {
    if s != [] {
      var e, rest := EscapeByte(s[0]), Escape(s[1..]);
      UpperDigit(s[0] / 16);
      UpperDigit(s[0] % 16);
      assert (e + rest)[|e|..] == rest;
      if |text| >= |e| {
        EscapeIsNormal(text[|e|..], s[1..]);
        assert text == text[..|e|] + text[|e|..];
        if |e| == 3 {
          assert text[..3] == [text[0], text[1], text[2]];
        } else {
          assert text[..1] == [text[0]];
        }
        assert text == e + rest ==> text[..|e|] == e && text[|e|..] == rest;
      }
    }
  }

  /** Letters, digits and the four marks that section 2.3 of RFC 3986 lists. */
  lemma UnreservedAre(b: Byte)
    ensures var c := b as char;
      Unreserved(b) <==> 'A' <= c <= 'Z' || 'a' <= c <= 'z' || '0' <= c <= '9' || c in "-._~"
  {
    assert "-._~"[0] == '-' && "-._~"[1] == '.' && "-._~"[2] == '_' && "-._~"[3] == '~';
  }

  /** The separators, as characters. */
  lemma SeparatorsAre()
    ensures AMP as char == '&' && EQUALS as char == '=' && PERCENT as char == '%' && PLUS as char == '+'
    ensures SEMICOLON as char == ';' && SPACE as char == ' '
  {
  }

  // Whole queries.

  /** A pair together with texts for its key and its value. */
  datatype Written = Written(keyText: Bytes, valueText: Bytes, pair: Pair)

  /** The texts spell the pair, and use no separator raw. */
  predicate WellWritten(w: Written) {
    && Spells(w.keyText, w.pair.key) && AMP !in w.keyText && EQUALS !in w.keyText && SEMICOLON !in w.keyText
    && Spells(w.valueText, w.pair.value) && AMP !in w.valueText && SEMICOLON !in w.valueText
  }

  function WrittenPart(w: Written): Bytes {
    w.keyText + [EQUALS] + w.valueText
  }

  function WrittenQuery(ws: seq<Written>): Bytes {
    if ws == [] then []
    else if |ws| == 1 then WrittenPart(ws[0])
    else WrittenPart(ws[0]) + [AMP] + WrittenQuery(ws[1..])
  }

  function PairsOfWritten(ws: seq<Written>): (ps: seq<Pair>)
    ensures |ps| == |ws| && forall i | 0 <= i < |ws| :: ps[i] == ws[i].pair
  {
    seq(|ws|, i requires 0 <= i < |ws| => ws[i].pair)
  }

  lemma WrittenPartDecodes(w: Written)
    requires WellWritten(w)
    ensures AMP !in WrittenPart(w) && DecodePart(WrittenPart(w)) == [w.pair]
  {
    CutAt(w.keyText, EQUALS, w.valueText);
    DecodesIffSpells(w.keyText, w.pair.key);
    DecodesIffSpells(w.valueText, w.pair.value);
  }

  /** However its pairs are spelled, a query decodes to exactly these pairs, in order. */
  lemma {:induction false} DecodeWritten(ws: seq<Written>)
    requires forall i | 0 <= i < |ws| :: WellWritten(ws[i])
    ensures Decode(WrittenQuery(ws)) == PairsOfWritten(ws)
  {
    if ws != [] {
      var text := WrittenPart(ws[0]);
      WrittenPartDecodes(ws[0]);
      assert PairsOfWritten(ws) == [ws[0].pair] + PairsOfWritten(ws[1..]);
      if |ws| == 1 {
        CutAt(text, AMP, []);
        assert Decode(text) == DecodePart(text) + Decode([]);
      } else {
        DecodeWritten(ws[1..]);
        CutAt(text, AMP, WrittenQuery(ws[1..]));
      }
    }
  }

  /** The first `c` in `s` is at position `i`. */
  predicate FirstAt(s: Bytes, c: Byte, i: nat) {
    i < |s| && s[i] == c && c !in s[..i]
  }

  lemma {:induction false} CutIs(s: Bytes, c: Byte)
    ensures c !in s ==> Before(s, c) == s && After(s, c) == []
    ensures forall i | 0 <= i < |s| && FirstAt(s, c, i) :: Before(s, c) == s[..i] && After(s, c) == s[i + 1..]
  {
    if c !in s {
      CutAt(s, c, []);
    }
    forall i | 0 <= i < |s| && FirstAt(s, c, i) ensures Before(s, c) == s[..i] && After(s, c) == s[i + 1..] {
      CutAt(s[..i], c, s[i + 1..]);
      assert s == s[..i] + [c] + s[i + 1..];
    }
  }

  /** What a part with a separator at `i` gives, or with none (`i == |part|`): its pair if both sides spell something
      and it has no semicolon, and otherwise nothing, as `URL.Query` drops malformed parts. */
  lemma PartGivesIff(part: Bytes, i: nat, p: Pair)
    requires FirstAt(part, EQUALS, i) || (EQUALS !in part && i == |part|)
    ensures DecodePart(part) == [p] <==>
      && part != [] && SEMICOLON !in part && Spells(part[..i], p.key)
      && Spells(if i < |part| then part[i + 1..] else [], p.value)
    ensures DecodePart(part) == [] || exists q :: DecodePart(part) == [q]
  {
    CutIs(part, EQUALS);
    assert part[..|part|] == part;
    DecodesIffSpells(Before(part, EQUALS), p.key);
    DecodesIffSpells(After(part, EQUALS), p.value);
    if DecodePart(part) != [] {
      assert DecodePart(part) == [DecodePart(part)[0]];
    }
  }

  /** A query decodes part by part. */
  lemma PartByPart(part: Bytes, rest: Bytes)
    requires AMP !in part
    ensures Decode(part + [AMP] + rest) == DecodePart(part) + Decode(rest)
    ensures Decode(part) == DecodePart(part)
  {
    CutAt(part, AMP, rest);
    assert part != [] ==> Decode(part) == DecodePart(part) + Decode([]);
  }
}
