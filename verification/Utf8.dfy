/** UTF-8 as section 3 of RFC 3629 defines it, and the encoder of src/github_types.cpp:73-97. */
module Utf8 {

  type byte = b: int | 0 <= b < 0x100

  predicate IsScalar(cp: int) {
    0 <= cp <= 0xD7FF || 0xE000 <= cp <= 0x10FFFF
  }

  /** The source ORs each leading mark with the shifted code point and truncates to a byte. */
  function Encode(cp: nat): (s: seq<byte>) {
    if cp <= 0x7F then [cp]
    else if cp <= 0x7FF then [0xC0 + cp / 0x40, 0x80 + cp % 0x40]
    else if cp <= 0xFFFF then [0xE0 + cp / 0x1000, 0x80 + cp / 0x40 % 0x40, 0x80 + cp % 0x40]
    else [0xF0 + cp / 0x40000 % 0x10, 0x80 + cp / 0x1000 % 0x40, 0x80 + cp / 0x40 % 0x40, 0x80 + cp % 0x40]
  }

  predicate IsTail(b: byte) {
    0x80 <= b <= 0xBF
  }

  /** Number of bytes of the well-formed character at the head of `s`; 0 if there is none. */
  function CharLength(s: seq<byte>): (n: nat)
    ensures n <= |s| && n <= 4
  {
    if s == [] then 0
    else if s[0] <= 0x7F then 1
    else if 0xC2 <= s[0] <= 0xDF && |s| >= 2 && IsTail(s[1]) then 2
    else if |s| >= 3 && IsTail(s[2]) && IsTail(s[1])
         && ((s[0] == 0xE0 && 0xA0 <= s[1]) || 0xE1 <= s[0] <= 0xEC || (s[0] == 0xED && s[1] <= 0x9F) || 0xEE <= s[0] <= 0xEF)
         then 3
    else if |s| >= 4 && IsTail(s[3]) && IsTail(s[2]) && IsTail(s[1])
         && ((s[0] == 0xF0 && 0x90 <= s[1]) || 0xF1 <= s[0] <= 0xF3 || (s[0] == 0xF4 && s[1] <= 0x8F))
         then 4
    else 0
  }

  function Decode(s: seq<byte>): int {
    match CharLength(s)
    case 0 => -1
    case 1 => s[0]
    case 2 => var a: int, b: int := s[0], s[1]; (a - 0xC0) * 0x40 + (b - 0x80)
    case 3 => var a: int, b: int, c: int := s[0], s[1], s[2]; ((a - 0xE0) * 0x40 + (b - 0x80)) * 0x40 + (c - 0x80)
    case _ =>
      var a: int, b: int, c: int, d: int := s[0], s[1], s[2], s[3];
      (((a - 0xF0) * 0x40 + (b - 0x80)) * 0x40 + (c - 0x80)) * 0x40 + (d - 0x80)
  }

  predicate Valid(s: seq<byte>)
    decreases |s|
  {
    s == [] || (CharLength(s) > 0 && Valid(s[CharLength(s)..]))
  }

  /** A scalar value becomes exactly one well-formed character that stands for it, after what was there. */
  method AppendUtf8(out: seq<byte>, cp: nat) returns (r: seq<byte>)
    ensures r == out + Encode(cp)
    ensures out <= r
    ensures IsScalar(cp) ==> CharLength(r[|out|..]) == |r| - |out| && Decode(r[|out|..]) == cp
  {
    if IsScalar(cp) { EncodeDecodes(cp); }
    assert (out + Encode(cp))[|out|..] == Encode(cp);
    r := out;
    if cp <= 0x7F {
      r := r + [cp];
    } else if cp <= 0x7FF {
      r := r + [0xC0 + cp / 0x40];
      r := r + [0x80 + cp % 0x40];
    } else if cp <= 0xFFFF {
      r := r + [0xE0 + cp / 0x1000];
      r := r + [0x80 + cp / 0x40 % 0x40];
      r := r + [0x80 + cp % 0x40];
    } else {
      r := r + [0xF0 + cp / 0x40000 % 0x10];
      r := r + [0x80 + cp / 0x1000 % 0x40];
      r := r + [0x80 + cp / 0x40 % 0x40];
      r := r + [0x80 + cp % 0x40];
    }
  }

  /** Every scalar value is encoded as one well-formed character that decodes back to it. */
  lemma EncodeDecodes(cp: nat)
    requires IsScalar(cp)
    ensures CharLength(Encode(cp)) == |Encode(cp)|
    ensures Decode(Encode(cp)) == cp
  {
    if 0xFFFF < cp {
      LongEncodeDecodes(cp);
    } else if 0x7FF < cp {
      ThreeEncodeDecodes(cp);
    } else {
      assert cp == cp / 0x40 * 0x40 + cp % 0x40;
    }
  }

  lemma ThreeEncodeDecodes(cp: nat)
    requires IsScalar(cp) && 0x7FF < cp <= 0xFFFF
    ensures CharLength(Encode(cp)) == 3 == |Encode(cp)| && Decode(Encode(cp)) == cp
  {
    var q := cp / 0x40;
    assert cp / 0x1000 == q / 0x40;
    assert cp == q * 0x40 + cp % 0x40 && q == q / 0x40 * 0x40 + q % 0x40;
  }

  lemma LongEncodeDecodes(cp: nat)
    requires 0xFFFF < cp <= 0x10FFFF
    ensures CharLength(Encode(cp)) == 4 == |Encode(cp)| && Decode(Encode(cp)) == cp
  {
    var q, q2 := cp / 0x40, cp / 0x1000;
    assert q2 == q / 0x40 && cp / 0x40000 == q2 / 0x40;
    assert cp == q * 0x40 + cp % 0x40 && q == q2 * 0x40 + q % 0x40 && q2 == q2 / 0x40 * 0x40 + q2 % 0x40;
  }

  /** No other well-formed character decodes to the same value: the encoding is the shortest one. */
  lemma DecodeEncodes(s: seq<byte>)
    requires s != [] && CharLength(s) == |s|
    ensures IsScalar(Decode(s)) && Encode(Decode(s)) == s
  {
    var a: int := s[0];
    if |s| == 2 {
      DivideBack(a - 0xC0, s[1] - 0x80);
    } else if |s| == 3 {
      var b: int := s[1];
      DivideBack(a - 0xE0, b - 0x80);
      DivideBack((a - 0xE0) * 0x40 + (b - 0x80), s[2] - 0x80);
      assert Decode(s) / 0x1000 == Decode(s) / 0x40 / 0x40;
    } else if |s| == 4 {
      LongDecodeEncodes(s);
    }
  }

  lemma LongDecodeEncodes(s: seq<byte>)
    requires |s| == 4 && CharLength(s) == 4
    ensures 0x10000 <= Decode(s) <= 0x10FFFF && Encode(Decode(s)) == s
  {
    var a: int := s[0];
    FourBytesBack(a - 0xF0, s[1] - 0x80, s[2] - 0x80, s[3] - 0x80);
  }

  lemma FourBytesBack(a: int, b: int, c: int, d: int)
    requires 0 <= a < 0x10 && 0 <= b < 0x40 && 0 <= c < 0x40 && 0 <= d < 0x40
    ensures var cp := ((a * 0x40 + b) * 0x40 + c) * 0x40 + d;
      cp / 0x40000 == a && cp / 0x1000 % 0x40 == b && cp / 0x40 % 0x40 == c && cp % 0x40 == d
  {
    DivideBack(a, b);
    DivideBack(a * 0x40 + b, c);
    DivideBack((a * 0x40 + b) * 0x40 + c, d);
  }

  lemma DivideBack(q: int, r: int)
    requires 0 <= r < 0x40
    ensures (q * 0x40 + r) / 0x40 == q && (q * 0x40 + r) % 0x40 == r
  {
  }

  lemma CharThen(c: seq<byte>, t: seq<byte>)
    requires c != [] && CharLength(c) == |c| && Valid(t)
    ensures Valid(c + t)
  {
    assert CharLength(c + t) == |c|;
    assert (c + t)[|c|..] == t;
  }

  lemma CharStandsAlone(s: seq<byte>, n: nat)
    requires n == CharLength(s)
    ensures CharLength(s[..n]) == n
  {
    assert forall k :: 0 <= k < n ==> s[..n][k] == s[k];
  }

  /** All bytes of a longer character have the high bit set. */
  lemma CharIsHigh(s: seq<byte>)
    requires CharLength(s) > 1
    ensures forall j :: 0 <= j < CharLength(s) ==> s[j] >= 0x80
  {
  }

  lemma {:induction false} DropAscii(s: seq<byte>, n: nat)
    requires Valid(s) && n <= |s| && forall j :: 0 <= j < n ==> s[j] <= 0x7F
    ensures Valid(s[n..])
  {
    if n == 0 {
      assert s[0..] == s;
    } else {
      DropAscii(s[1..], n - 1);
      assert s[1..][n - 1..] == s[n..];
    }
  }
}
