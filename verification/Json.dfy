/** Escaping and unescaping JSON string text (src/github_client.cpp:108-140, src/github_types.cpp:56-71, 119-188). */
module Json {
  import opened Utf8
  import Text

  const QUOTE: byte := 0x22
  const SLASH: byte := 0x2F
  const BACKSLASH: byte := 0x5C
  const LETTER_U: byte := 0x75
  const REPLACEMENT := 0xFFFD

  // --- Escaping -----------------------------------------------------------------

  function HexDigit(d: nat): byte
    requires d < 16
  {
    if d < 10 then 0x30 + d else 0x61 + d - 10
  }

  function EscapeByte(b: byte): (s: seq<byte>)
    ensures 1 <= |s| <= 6
  {
    if b == QUOTE then [BACKSLASH, QUOTE]
    else if b == BACKSLASH then [BACKSLASH, BACKSLASH]
    else if b == 0x08 then [BACKSLASH, 0x62]
    else if b == 0x0C then [BACKSLASH, 0x66]
    else if b == 0x0A then [BACKSLASH, 0x6E]
    else if b == 0x0D then [BACKSLASH, 0x72]
    else if b == 0x09 then [BACKSLASH, 0x74]
    else if b < 0x20 then [BACKSLASH, LETTER_U, 0x30, 0x30, HexDigit(b / 16), HexDigit(b % 16)]
    else [b]
  }

  function Escape(s: seq<byte>): seq<byte> {
    if s == [] then [] else EscapeByte(s[0]) + Escape(s[1..])
  }

  method JsonEscapeUtf8(s: seq<byte>) returns (out: seq<byte>)
    ensures out == Escape(s)
  {
    out := [];
    for i := 0 to |s|
      invariant Escape(s) == out + Escape(s[i..])
    {
      assert s[i..][0] == s[i] && s[i..][1..] == s[i + 1..];
      out := out + EscapeByte(s[i]);
    }
  }

  // --- Unescaping ---------------------------------------------------------------

  predicate IsHex(b: byte) {
    0x30 <= b <= 0x39 || 0x61 <= b <= 0x66 || 0x41 <= b <= 0x46
  }

  function HexValue(b: byte): (v: nat)
    requires IsHex(b)
    ensures v < 16
  {
    if b <= 0x39 then b - 0x30 else if b >= 0x61 then b - 0x61 + 10 else b - 0x41 + 10
  }

  /** The code unit of the four hex digits at `pos`, or -1. */
  function HexQuad(s: seq<byte>, pos: nat): (v: int)
    ensures -1 <= v <= 0xFFFF
  {
    if pos + 4 <= |s| && IsHex(s[pos]) && IsHex(s[pos + 1]) && IsHex(s[pos + 2]) && IsHex(s[pos + 3])
    then ((HexValue(s[pos]) * 16 + HexValue(s[pos + 1])) * 16 + HexValue(s[pos + 2])) * 16 + HexValue(s[pos + 3])
    else -1
  }

  /** One step of the decoder: a byte taken as it is, or a code point to encode. */
  datatype Token = Verbatim(b: byte) | Point(cp: nat)

  function Emit(t: Token): seq<byte> {
    match t case Verbatim(b) => [b] case Point(cp) => Encode(cp)
  }

  predicate IsHighSurrogate(u: int) { 0xD800 <= u <= 0xDBFF }
  predicate IsLowSurrogate(u: int) { 0xDC00 <= u <= 0xDFFF }

  /** The byte that a two-byte escape stands for, or -1 if `b` makes none. */
  function ShortEscape(b: byte): (v: int)
    ensures -1 <= v <= BACKSLASH
  {
    if b == QUOTE || b == BACKSLASH || b == SLASH then b
    else if b == 0x62 then 0x08
    else if b == 0x66 then 0x0C
    else if b == 0x6E then 0x0A
    else if b == 0x72 then 0x0D
    else if b == 0x74 then 0x09
    else -1
  }

  /** The token at the head of `raw`, and how many bytes it takes. */
  function Next(raw: seq<byte>): (r: (Token, nat))
    requires raw != []
    ensures 1 <= r.1 <= |raw|
  {
    if raw[0] != BACKSLASH || |raw| == 1 then (Verbatim(raw[0]), 1)
    else if ShortEscape(raw[1]) >= 0 then (Verbatim(ShortEscape(raw[1])), 2)
    else if raw[1] == LETTER_U && HexQuad(raw, 2) >= 0 then UnicodeEscape(raw)
    else (Verbatim(BACKSLASH), 1)
  }

  function UnicodeEscape(raw: seq<byte>): (r: (Token, nat))
    requires HexQuad(raw, 2) >= 0
    ensures 1 <= r.1 <= |raw|
  {
    var hi := HexQuad(raw, 2);
    if IsHighSurrogate(hi) then
      if 12 <= |raw| && raw[6] == BACKSLASH && raw[7] == LETTER_U && IsLowSurrogate(HexQuad(raw, 8))
      then (Point(0x10000 + (hi - 0xD800) * 0x400 + (HexQuad(raw, 8) - 0xDC00)), 12)
      else (Point(REPLACEMENT), 6)
    else if IsLowSurrogate(hi) then (Point(REPLACEMENT), 6)
    else (Point(hi), 6)
  }

  function Unescape(raw: seq<byte>): seq<byte>
    decreases |raw|
  {
    if raw == [] then [] else Emit(Next(raw).0) + Unescape(raw[Next(raw).1..])
  }

  method ParseHex4(s: seq<byte>, pos: nat) returns (v: int)
    ensures v == HexQuad(s, pos)
  {
    if pos + 4 > |s| { return -1; }
    v := 0;
    for i := 0 to 4
      invariant forall k :: pos <= k < pos + i ==> IsHex(s[k])
      invariant v == HexSoFar(s, pos, i)
    {
      var c := s[pos + i];
      var d: int;
      if 0x30 <= c <= 0x39 { d := c - 0x30; }
      else if 0x61 <= c <= 0x66 { d := c - 0x61 + 10; }
      else if 0x41 <= c <= 0x46 { d := c - 0x41 + 10; }
      else { return -1; }
      v := v * 16 + d;
    }
  }

  function HexSoFar(s: seq<byte>, pos: nat, i: nat): int
    requires pos + i <= |s| && forall k :: pos <= k < pos + i ==> IsHex(s[k])
  {
    if i == 0 then 0
    else if i == 1 then HexValue(s[pos])
    else if i == 2 then HexValue(s[pos]) * 16 + HexValue(s[pos + 1])
    else if i == 3 then (HexValue(s[pos]) * 16 + HexValue(s[pos + 1])) * 16 + HexValue(s[pos + 2])
    else HexQuad(s, pos)
  }

  lemma HeadStep(rest: seq<byte>)
    requires rest != []
    ensures Unescape(rest) == Emit(Next(rest).0) + Unescape(rest[Next(rest).1..])
  {
  }

  /** `out` is what the first `i` bytes of `raw` decode to, as far as the whole is concerned. */
  ghost predicate DecodedTo(raw: seq<byte>, i: nat, out: seq<byte>) {
    i <= |raw| && Unescape(raw) == out + Unescape(raw[i..])
  }

  lemma UnescapeStep(raw: seq<byte>, i: nat, out: seq<byte>, token: Token, next: nat)
    requires i < |raw| && DecodedTo(raw, i, out) && (token, next - i) == Next(raw[i..])
    ensures DecodedTo(raw, next, out + Emit(token))
  {
    var rest, n := raw[i..], next - i;
    assert rest[n..] == raw[next..];
    HeadStep(rest);
    Text.Regroup(out, Emit(token), Unescape(rest[n..]));
  }

  lemma DecodingEnds(raw: seq<byte>, out: seq<byte>)
    ensures DecodedTo(raw, 0, [])
    ensures DecodedTo(raw, |raw|, out) ==> out == Unescape(raw)
  {
    assert raw[0..] == raw && raw[|raw|..] == [];
    assert [] + Unescape(raw) == Unescape(raw) && out + [] == out;
  }

  method JsonUnescape(raw: seq<byte>) returns (out: seq<byte>)
    ensures out == Unescape(raw)
  {
    out := [];
    var i: nat := 0;
    DecodingEnds(raw, out);
    while i < |raw|
      invariant i <= |raw| && DecodedTo(raw, i, out)
      decreases |raw| - i
    {
      out, i := DecodeNext(raw, i, out);
    }
    DecodingEnds(raw, out);
  }

  method DecodeNext(raw: seq<byte>, i: nat, out: seq<byte>) returns (out': seq<byte>, next: nat)
    requires i < |raw| && DecodedTo(raw, i, out)
    ensures i < next <= |raw| && DecodedTo(raw, next, out')
  {
    var token, n := ReadToken(raw, i);
    next := i + n;
    UnescapeStep(raw, i, out, token, next);
    out' := AppendToken(out, token);
  }

  method AppendToken(out: seq<byte>, token: Token) returns (r: seq<byte>)
    ensures r == out + Emit(token)
  {
    match token {
      case Verbatim(b) => r := out + [b];
      case Point(cp) => r := AppendUtf8(out, cp);
    }
  }

  method ReadToken(raw: seq<byte>, i: nat) returns (token: Token, n: nat)
    requires i < |raw|
    ensures (token, n) == Next(raw[i..])
  {
    ghost var rest := raw[i..];
    var c := raw[i];
    if c != BACKSLASH || i + 1 >= |raw| { return Verbatim(c), 1; }
    var esc := raw[i + 1];
    assert rest[1] == esc;
    match esc {
      case 0x22 => return Verbatim(QUOTE), 2;
      case 0x5C => return Verbatim(BACKSLASH), 2;
      case 0x2F => return Verbatim(SLASH), 2;
      case 0x62 => return Verbatim(0x08), 2;
      case 0x66 => return Verbatim(0x0C), 2;
      case 0x6E => return Verbatim(0x0A), 2;
      case 0x72 => return Verbatim(0x0D), 2;
      case 0x74 => return Verbatim(0x09), 2;
      case 0x75 =>
        var hi := ParseHex4(raw, i + 2);
        assert HexQuad(rest, 2) == hi;
        if hi >= 0 {
          if hi >= 0xD800 && hi <= 0xDBFF {
            if i + 12 <= |raw| && raw[i + 6] == BACKSLASH && raw[i + 7] == LETTER_U {
              var lo := ParseHex4(raw, i + 8);
              assert HexQuad(rest, 8) == lo;
              if lo >= 0xDC00 && lo <= 0xDFFF {
                return Point(0x10000 + (hi - 0xD800) * 0x400 + (lo - 0xDC00)), 12;
              }
            }
            return Point(REPLACEMENT), 6;
          }
          if hi >= 0xDC00 && hi <= 0xDFFF { return Point(REPLACEMENT), 6; }
          return Point(hi), 6;
        }
      case _ =>
    }
    return Verbatim(BACKSLASH), 1;
  }

  // --- Properties ----------------------------------------------------------------

  /** The encoder is only ever given scalar values, whatever the input. */
  lemma PointsAreScalar(raw: seq<byte>)
    requires raw != [] && Next(raw).0.Point?
    ensures IsScalar(Next(raw).0.cp)
  {
  }

  lemma NextOfEscaped(b: byte, tail: seq<byte>)
    ensures Emit(Next(EscapeByte(b) + tail).0) == [b]
    ensures Next(EscapeByte(b) + tail).1 == |EscapeByte(b)|
  {
    var s := EscapeByte(b) + tail;
    if b < 0x20 && |EscapeByte(b)| == 6 {
      assert s[..6] == EscapeByte(b);
      assert s[2] == 0x30 && s[3] == 0x30 && s[4] == HexDigit(b / 16) && s[5] == HexDigit(b % 16);
      assert HexQuad(s, 2) == b / 16 * 16 + b % 16 == b;
    } else {
      assert s[0] == EscapeByte(b)[0] && (|EscapeByte(b)| > 1 ==> s[1] == EscapeByte(b)[1]);
    }
  }

  /** Unescaping undoes escaping, for every byte string. */
  lemma {:induction false} UnescapeOfEscape(s: seq<byte>)
    ensures Unescape(Escape(s)) == s
  {
    if s != [] {
      var head, tail := EscapeByte(s[0]), Escape(s[1..]);
      NextOfEscaped(s[0], tail);
      assert (head + tail)[|head|..] == tail;
      UnescapeOfEscape(s[1..]);
    }
  }

  /** Text that can stand between the quotes of a JSON string: section 7 of RFC 8259. */
  predicate JsonText(e: seq<byte>)
    decreases |e|
  {
    e == []
    || (e[0] >= 0x20 && e[0] != QUOTE && e[0] != BACKSLASH && JsonText(e[1..]))
    || (e[0] == BACKSLASH && |e| >= 2 && ShortEscape(e[1]) >= 0 && JsonText(e[2..]))
    || (e[0] == BACKSLASH && |e| >= 6 && e[1] == LETTER_U && HexQuad(e, 2) >= 0 && JsonText(e[6..]))
  }

  /** No raw control byte, no bare quote, no dangling backslash. */
  lemma {:induction false} EscapeIsJsonText(s: seq<byte>)
    ensures JsonText(Escape(s))
  {
    if s != [] {
      EscapeIsJsonText(s[1..]);
      var head, tail := EscapeByte(s[0]), Escape(s[1..]);
      var e := head + tail;
      assert e[|head|..] == tail;
      assert forall k :: 0 <= k < |head| ==> e[k] == head[k];
    }
  }

  lemma {:induction false} CopiesPlain(raw: seq<byte>, n: nat)
    requires n <= |raw| && forall j :: 0 <= j < n ==> raw[j] != BACKSLASH
    ensures Unescape(raw) == raw[..n] + Unescape(raw[n..])
  {
    if n == 0 {
      assert raw[0..] == raw;
    } else {
      CopiesPlain(raw[1..], n - 1);
      assert raw[1..][n - 1..] == raw[n..];
      PlainStep(raw);
      Prepend(raw, n, Unescape(raw[1..]), Unescape(raw[n..]));
    }
  }

  lemma Prepend(raw: seq<byte>, n: nat, tail: seq<byte>, rest: seq<byte>)
    requires 0 < n <= |raw| && tail == raw[1..][..n - 1] + rest
    ensures [raw[0]] + tail == raw[..n] + rest
  {
    assert raw[..n] == [raw[0]] + raw[1..][..n - 1];
    Text.Regroup([raw[0]], raw[1..][..n - 1], rest);
  }

  lemma PlainStep(raw: seq<byte>)
    requires raw != [] && raw[0] != BACKSLASH
    ensures Unescape(raw) == [raw[0]] + Unescape(raw[1..])
  {
  }

  lemma EscapesAreAscii(raw: seq<byte>)
    requires raw != [] && raw[0] == BACKSLASH
    ensures forall j :: 0 <= j < Next(raw).1 ==> raw[j] <= 0x7F
    ensures Next(raw).0.Verbatim? ==> Next(raw).0.b <= 0x7F
  {
  }

  lemma EscapeStepKeeps(raw: seq<byte>)
    requires raw != [] && raw[0] == BACKSLASH && Valid(raw)
    ensures Valid(raw[Next(raw).1..])
    ensures Valid(Unescape(raw[Next(raw).1..])) ==> Valid(Emit(Next(raw).0) + Unescape(raw[Next(raw).1..]))
  {
    var (t, n) := Next(raw);
    EscapesAreAscii(raw);
    DropAscii(raw, n);
    if t.Point? {
      PointsAreScalar(raw);
      EncodeDecodes(t.cp);
    }
    if Valid(Unescape(raw[n..])) { CharThen(Emit(t), Unescape(raw[n..])); }
  }

  lemma CharStepKeeps(raw: seq<byte>, n: nat)
    requires raw != [] && raw[0] != BACKSLASH && n == CharLength(raw) > 0
    ensures Unescape(raw) == raw[..n] + Unescape(raw[n..])
    ensures Valid(Unescape(raw[n..])) ==> Valid(Unescape(raw))
  {
    CharIsNoEscape(raw, n);
    CopiesPlain(raw, n);
    CharStandsAlone(raw, n);
    CharKept(raw[..n], Unescape(raw[n..]), Unescape(raw));
  }

  lemma CharIsNoEscape(raw: seq<byte>, n: nat)
    requires raw != [] && raw[0] != BACKSLASH && n == CharLength(raw)
    ensures forall j :: 0 <= j < n ==> raw[j] != BACKSLASH
  {
    if n > 1 { CharIsHigh(raw); }
  }

  lemma CharKept(c: seq<byte>, t: seq<byte>, all: seq<byte>)
    requires c != [] && CharLength(c) == |c| && all == c + t
    ensures Valid(t) ==> Valid(all)
  {
    if Valid(t) { CharThen(c, t); }
  }

  /** Valid UTF-8 stays valid, malformed escapes and unpaired surrogates included. */
  lemma {:induction false} UnescapeKeepsUtf8(raw: seq<byte>)
    requires Valid(raw)
    ensures Valid(Unescape(raw))
    decreases |raw|
  {
    if raw == [] {
    } else if raw[0] == BACKSLASH {
      EscapeStepKeeps(raw);
      UnescapeKeepsUtf8(raw[Next(raw).1..]);
      HeadStep(raw);
    } else {
      var n := CharLength(raw);
      UnescapeKeepsUtf8(raw[n..]);
      CharStepKeeps(raw, n);
    }
  }

  // --- What the escapes stand for: section 7 of RFC 8259 -----------------------------

  /** The UTF-16 code units of a scalar value. */
  function Units(cp: nat): seq<nat> {
    if cp < 0x10000 then [cp] else [0xD800 + (cp - 0x10000) / 0x400, 0xDC00 + (cp - 0x10000) % 0x400]
  }

  /** The hex digit `d`, in either case. */
  predicate IsDigitFor(b: byte, d: nat) {
    if d < 10 then b == 0x30 + d else b == 0x61 + (d - 10) || b == 0x41 + (d - 10)
  }

  predicate FourDigits(a: byte, b: byte, c: byte, d: byte, u: nat) {
    && IsDigitFor(a, u / 0x1000) && IsDigitFor(b, u / 0x100 % 16)
    && IsDigitFor(c, u / 0x10 % 16) && IsDigitFor(d, u % 16)
  }

  /** `e` is a backslash, the letter u and the four hex digits of `u`, each in either case. */
  predicate Spells(e: seq<byte>, u: nat) {
    u <= 0xFFFF && |e| == 6 && e[0] == 0x5C && e[1] == 0x75 && FourDigits(e[2], e[3], e[4], e[5], u)
  }

  lemma DigitIsRead(b: byte, d: nat)
    requires d < 16
    ensures IsDigitFor(b, d) <==> IsHex(b) && HexValue(b) == d
  {
  }

  lemma DigitsOf(a: nat, b: nat, c: nat, d: nat)
    requires a < 16 && b < 16 && c < 16 && d < 16
    ensures var u := ((a * 16 + b) * 16 + c) * 16 + d;
      u / 0x1000 == a && u / 0x100 % 16 == b && u / 0x10 % 16 == c && u % 16 == d
  {
  }

  lemma DigitsBack(u: nat)
    requires u <= 0xFFFF
    ensures ((u / 0x1000 * 16 + u / 0x100 % 16) * 16 + u / 0x10 % 16) * 16 + u % 16 == u
  {
  }

  lemma QuadIsDigits(s: seq<byte>, at: nat, u: nat)
    requires at + 4 <= |s| && u <= 0xFFFF
    ensures HexQuad(s, at) == u <==> FourDigits(s[at], s[at + 1], s[at + 2], s[at + 3], u)
  {
    DigitIsRead(s[at], u / 0x1000);
    DigitIsRead(s[at + 1], u / 0x100 % 16);
    DigitIsRead(s[at + 2], u / 0x10 % 16);
    DigitIsRead(s[at + 3], u % 16);
    DigitsBack(u);
    if HexQuad(s, at) == u { DigitsOf(HexValue(s[at]), HexValue(s[at + 1]), HexValue(s[at + 2]), HexValue(s[at + 3])); }
  }

  /** An escape is read as the unit that it spells. */
  lemma SpelledExactly(raw: seq<byte>, at: nat, u: nat)
    requires at + 6 <= |raw| && u <= 0xFFFF
    ensures Spells(raw[at..at + 6], u) <==> raw[at] == BACKSLASH && raw[at + 1] == LETTER_U && HexQuad(raw, at + 2) == u
  {
    QuadIsDigits(raw, at + 2, u);
    var e := raw[at..at + 6];
    assert raw[at] == e[0] && raw[at + 1] == e[1] && raw[at + 2] == e[2] && raw[at + 3] == e[3];
    assert raw[at + 4] == e[4] && raw[at + 5] == e[5];
  }

  lemma Takes(head: seq<byte>, tail: seq<byte>, token: Token)
    requires head != [] && Next(head + tail) == (token, |head|)
    ensures Unescape(head + tail) == Emit(token) + Unescape(tail)
  {
    assert (head + tail)[|head|..] == tail;
    HeadStep(head + tail);
  }

  /** One scalar value in any spelling: one escape, or the two of a surrogate pair. */
  predicate SpellsScalar(e: seq<byte>, cp: nat) {
    if cp < 0x10000 then Spells(e, cp) else |e| == 12 && Spells(e[..6], Units(cp)[0]) && Spells(e[6..], Units(cp)[1])
  }

  lemma PairIsScalar(cp: nat)
    requires 0x10000 <= cp <= 0x10FFFF
    ensures IsHighSurrogate(Units(cp)[0]) && IsLowSurrogate(Units(cp)[1])
    ensures 0x10000 + (Units(cp)[0] - 0xD800) * 0x400 + (Units(cp)[1] - 0xDC00) == cp
  {
  }

  lemma NextOfUnit(raw: seq<byte>, u: nat)
    requires |raw| >= 6 && raw[0] == BACKSLASH && raw[1] == LETTER_U && HexQuad(raw, 2) == u
    ensures Next(raw) == UnicodeEscape(raw)
  {
    assert ShortEscape(LETTER_U) == -1;
  }

  lemma NextOfPair(raw: seq<byte>, cp: nat)
    requires 0x10000 <= cp <= 0x10FFFF && |raw| >= 12
    requires Spells(raw[0..6], Units(cp)[0]) && Spells(raw[6..12], Units(cp)[1])
    ensures Next(raw) == (Point(cp), 12)
  {
    SpelledExactly(raw, 0, Units(cp)[0]);
    SpelledExactly(raw, 6, Units(cp)[1]);
    PairIsScalar(cp);
    NextOfUnits(raw, Units(cp)[0], Units(cp)[1]);
  }

  lemma NextOfUnits(raw: seq<byte>, hi: nat, lo: nat)
    requires |raw| >= 12 && raw[0] == raw[6] == BACKSLASH && raw[1] == raw[7] == LETTER_U
    requires HexQuad(raw, 2) == hi && IsHighSurrogate(hi) && HexQuad(raw, 8) == lo && IsLowSurrogate(lo)
    ensures Next(raw) == (Point(0x10000 + (hi - 0xD800) * 0x400 + (lo - 0xDC00)), 12)
  {
    NextOfUnit(raw, hi);
  }

  lemma NextOfBasic(raw: seq<byte>, cp: nat)
    requires IsScalar(cp) && cp < 0x10000 && |raw| >= 6 && Spells(raw[0..6], cp)
    ensures Next(raw) == (Point(cp), 6)
  {
    SpelledExactly(raw, 0, cp);
    NextOfUnit(raw, cp);
  }

  lemma NextOfScalar(e: seq<byte>, cp: nat, tail: seq<byte>)
    requires IsScalar(cp) && SpellsScalar(e, cp)
    ensures Next(e + tail) == (Point(cp), |e|)
  {
    var raw := e + tail;
    assert raw[0..6] == e[..6];
    if cp >= 0x10000 {
      assert raw[6..12] == e[6..];
      NextOfPair(raw, cp);
    } else {
      assert e[..6] == e;
      NextOfBasic(raw, cp);
    }
  }

  lemma ScalarIsRead(e: seq<byte>, cp: nat, tail: seq<byte>)
    requires IsScalar(cp) && SpellsScalar(e, cp)
    ensures Unescape(e + tail) == Encode(cp) + Unescape(tail)
  {
    NextOfScalar(e, cp, tail);
    Takes(e, tail, Point(cp));
  }

  function Joined(texts: seq<seq<byte>>): seq<byte> {
    if texts == [] then [] else texts[0] + Joined(texts[1..])
  }

  function EncodeAll(cps: seq<nat>): seq<byte> {
    if cps == [] then [] else Encode(cps[0]) + EncodeAll(cps[1..])
  }

  /** However a text is spelled in UTF-16 escapes, it is read back as its own UTF-8. */
  lemma {:induction false} UnescapeOfSpelled(cps: seq<nat>, spelled: seq<seq<byte>>)
    requires |cps| == |spelled|
    requires forall i :: 0 <= i < |cps| ==> IsScalar(cps[i]) && SpellsScalar(spelled[i], cps[i])
    ensures Unescape(Joined(spelled)) == EncodeAll(cps)
  {
    if cps != [] {
      ScalarIsRead(spelled[0], cps[0], Joined(spelled[1..]));
      UnescapeOfSpelled(cps[1..], spelled[1..]);
    }
  }

  /** The text goes on with the escape of a low surrogate. */
  ghost predicate LowFollows(tail: seq<byte>) {
    |tail| >= 6 && exists low :: 0xDC00 <= low <= 0xDFFF && Spells(tail[..6], low)
  }

  lemma NextOfLone(raw: seq<byte>, u: nat)
    requires 0xD800 <= u <= 0xDFFF && |raw| >= 6 && Spells(raw[..6], u) && (u <= 0xDBFF ==> !LowFollows(raw[6..]))
    ensures Next(raw) == (Point(REPLACEMENT), 6)
  {
    assert raw[0..6] == raw[..6];
    SpelledExactly(raw, 0, u);
    NextOfUnit(raw, u);
    if 12 <= |raw| && IsLowSurrogate(HexQuad(raw, 8)) {
      assert raw[6..12] == raw[6..][..6];
      SpelledExactly(raw, 6, HexQuad(raw, 8));
    }
  }

  /** One unit of a surrogate pair without the other is replaced by U+FFFD. */
  lemma LoneSurrogateIsReplaced(e: seq<byte>, u: nat, tail: seq<byte>)
    requires 0xD800 <= u <= 0xDFFF && Spells(e, u) && (u <= 0xDBFF ==> !LowFollows(tail))
    ensures Unescape(e + tail) == [0xEF, 0xBF, 0xBD] + Unescape(tail)
  {
    assert (e + tail)[..6] == e && (e + tail)[6..] == tail;
    NextOfLone(e + tail, u);
    Takes(e, tail, Point(REPLACEMENT));
    ReplacementBytes();
  }

  lemma ReplacementBytes()
    ensures Emit(Point(REPLACEMENT)) == [0xEF, 0xBF, 0xBD]
  {
  }

  /** The letters of the two-byte escapes, and what they stand for. */
  function ShortTable(): seq<(byte, byte)> {
    [(0x22, 0x22), (0x5C, 0x5C), (0x2F, 0x2F), (0x62, 0x08), (0x66, 0x0C), (0x6E, 0x0A), (0x72, 0x0D), (0x74, 0x09)]
  }

  lemma ShortEscapesAre(i: nat, tail: seq<byte>)
    requires i < 8
    ensures Unescape([0x5C, ShortTable()[i].0] + tail) == [ShortTable()[i].1] + Unescape(tail)
  {
    Takes([0x5C, ShortTable()[i].0], tail, Verbatim(ShortTable()[i].1));
  }

  /** An escape of either kind stands at the head. */
  ghost predicate EscapeStands(raw: seq<byte>) {
    && |raw| >= 2 && raw[0] == 0x5C
    && (raw[1] in {0x22, 0x5C, 0x2F, 0x62, 0x66, 0x6E, 0x72, 0x74} || (|raw| >= 6 && exists u :: Spells(raw[..6], u)))
  }

  /** Any other byte stands for itself, a backslash without an escape too. */
  lemma OtherBytesStand(b: byte, tail: seq<byte>)
    requires !EscapeStands([b] + tail)
    ensures Unescape([b] + tail) == [b] + Unescape(tail)
  {
    var raw := [b] + tail;
    if |raw| >= 6 && raw[0] == BACKSLASH && raw[1] == LETTER_U && HexQuad(raw, 2) >= 0 {
      assert raw[0..6] == raw[..6];
      SpelledExactly(raw, 0, HexQuad(raw, 2));
    }
    Takes([b], tail, Verbatim(b));
  }

  /** A byte is written as it is exactly if JSON allows it to stand for itself. */
  lemma EscapesOnlyWhatItMust(b: byte)
    ensures EscapeByte(b) == [b] <==> b >= 0x20 && b != 0x22 && b != 0x5C
  {
  }

  /** The short escapes are used where there is one. */
  lemma EscapesShort(b: byte)
    ensures |EscapeByte(b)| == 2 <==> b in {0x22, 0x5C, 0x08, 0x0C, 0x0A, 0x0D, 0x09}
  {
  }
}
