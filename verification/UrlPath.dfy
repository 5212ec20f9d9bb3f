/** Percent-encoding of a repository path for use in a URL (src/github_client.cpp:156-194; sections 2.1 and 2.3 of RFC 3986). */
module UrlPath {
  import opened Utf8
  import Text

  const SLASH: byte := 0x2F
  const DOT: byte := 0x2E
  const PERCENT: byte := 0x25

  predicate Unreserved(b: byte) {
    0x30 <= b <= 0x39 || 0x41 <= b <= 0x5A || 0x61 <= b <= 0x7A || b in {0x2D, DOT, 0x5F, 0x7E}
  }

  predicate Control(b: byte) {
    b < 0x20 || b == 0x7F
  }

  predicate IsUpperHex(b: byte) {
    0x30 <= b <= 0x39 || 0x41 <= b <= 0x46
  }

  function UpperHex(d: nat): (b: byte)
    requires d < 16
    ensures IsUpperHex(b)
  {
    if d < 10 then 0x30 + d else 0x41 + d - 10
  }

  function HexOf(b: byte): (d: nat)
    requires IsUpperHex(b)
    ensures d < 16
  {
    if b <= 0x39 then b - 0x30 else b - 0x41 + 10
  }

  function EncodeByte(b: byte): (s: seq<byte>)
    ensures |s| > 0
  {
    if b == SLASH || Unreserved(b) then [b] else [PERCENT, UpperHex(b / 16), UpperHex(b % 16)]
  }

  function EncodePath(path: seq<byte>): seq<byte> {
    if path == [] then [] else EncodeByte(path[0]) + EncodePath(path[1..])
  }

  /** Where the first segment ends: the first slash, or the end of the path. */
  function SegmentEnd(path: seq<byte>): (e: nat)
    ensures e <= |path| && (e < |path| ==> path[e] == SLASH)
    ensures forall k :: 0 <= k < e ==> path[k] != SLASH
  {
    if path == [] || path[0] == SLASH then 0 else 1 + SegmentEnd(path[1..])
  }

  /** Empty, "." or "..": a segment that could redirect the request. */
  predicate BadName(name: seq<byte>) {
    name in {[], [DOT], [DOT, DOT]}
  }

  predicate HasBadSegment(path: seq<byte>)
    decreases |path|
  {
    var e := SegmentEnd(path);
    BadName(path[..e]) || (e < |path| && HasBadSegment(path[e + 1..]))
  }

  /** Empty and absolute paths are refused too: their first segment is empty. */
  predicate Refused(path: seq<byte>) {
    HasBadSegment(path) || exists k :: 0 <= k < |path| && Control(path[k])
  }

  lemma {:induction false} SegmentEndIs(path: seq<byte>, e: nat)
    requires e <= |path| && (e < |path| ==> path[e] == SLASH)
    requires forall k :: 0 <= k < e ==> path[k] != SLASH
    ensures SegmentEnd(path) == e
  {
  }

  /** What has been established once the text before `start` is known to hold whole, good segments. */
  ghost predicate GoodBefore(path: seq<byte>, start: nat) {
    start <= |path| && (HasBadSegment(path) <==> HasBadSegment(path[start..]))
  }

  lemma SegmentAt(path: seq<byte>, start: nat, end: nat)
    requires start <= end <= |path| && (end < |path| ==> path[end] == SLASH)
    requires forall k :: start <= k < end ==> path[k] != SLASH
    ensures HasBadSegment(path[start..])
       <==> BadName(path[start..end]) || (end < |path| && HasBadSegment(path[end + 1..]))
  {
    var s := path[start..];
    SegmentEndIs(s, end - start);
    assert s[..end - start] == path[start..end];
    if end < |path| { assert s[end - start + 1..] == path[end + 1..]; }
  }

  lemma SegmentFound(path: seq<byte>, start: nat, end: nat)
    requires GoodBefore(path, start) && start <= end <= |path| && (end < |path| ==> path[end] == SLASH)
    requires forall k :: start <= k < end ==> path[k] != SLASH
    ensures BadName(path[start..end]) ==> HasBadSegment(path)
    ensures !BadName(path[start..end]) && end < |path| ==> GoodBefore(path, end + 1)
    ensures !BadName(path[start..end]) && end == |path| ==> !HasBadSegment(path)
  {
    SegmentAt(path, start, end);
  }

  lemma EncodeStep(path: seq<byte>, i: nat, out: seq<byte>)
    requires i < |path| && EncodePath(path) == out + EncodePath(path[i..])
    ensures EncodePath(path) == out + EncodeByte(path[i]) + EncodePath(path[i + 1..])
  {
    assert path[i..][0] == path[i] && path[i..][1..] == path[i + 1..];
    Text.Regroup(out, EncodeByte(path[i]), EncodePath(path[i + 1..]));
  }

  lemma EmptyFirstSegment(path: seq<byte>)
    requires path == [] || path[0] == SLASH
    ensures Refused(path)
  {
    SegmentEndIs(path, 0);
    assert path[..0] == [];
  }

  /** How far the encoding loop has come: `out` is what the bytes before `i` encode to, and all is well so far. */
  ghost predicate EncodedTo(path: seq<byte>, i: nat, segStart: nat, out: seq<byte>) {
    && segStart <= i <= |path|
    && EncodePath(path) == out + EncodePath(path[i..])
    && (forall k :: 0 <= k < i ==> !Control(path[k]))
    && GoodBefore(path, segStart)
    && (forall k :: segStart <= k < i ==> path[k] != SLASH)
  }

  lemma EncodedOne(path: seq<byte>, i: nat, segStart: nat, out: seq<byte>)
    requires i < |path| && EncodedTo(path, i, segStart, out)
    ensures path[i] == SLASH && BadName(path[segStart..i]) ==> Refused(path)
    ensures path[i] == SLASH && !BadName(path[segStart..i]) ==> EncodedTo(path, i + 1, i + 1, out + EncodeByte(path[i]))
    ensures Control(path[i]) ==> Refused(path)
    ensures path[i] != SLASH && !Control(path[i]) ==> EncodedTo(path, i + 1, segStart, out + EncodeByte(path[i]))
  {
    EncodeStep(path, i, out);
    if path[i] == SLASH { SegmentFound(path, segStart, i); }
  }

  lemma EncodingStarts(path: seq<byte>)
    ensures EncodedTo(path, 0, 0, [])
  {
    assert path[0..] == path && [] + EncodePath(path) == EncodePath(path);
  }

  lemma EncodingEnds(path: seq<byte>, segStart: nat, out: seq<byte>)
    requires EncodedTo(path, |path|, segStart, out)
    ensures Refused(path) <==> BadName(path[segStart..|path|])
    ensures out == EncodePath(path)
  {
    SegmentFound(path, segStart, |path|);
    assert path[|path|..] == [] && out + [] == out;
  }

  method UrlEncodePath(path: seq<byte>) returns (out: seq<byte>)
    ensures out == if Refused(path) then [] else EncodePath(path)
  {
    if path == [] || path[0] == SLASH {
      EmptyFirstSegment(path);
      return [];
    }
    out := [];
    var segStart := 0;
    var i := 0;
    EncodingStarts(path);
    while i < |path|
      invariant 0 <= segStart <= i <= |path| && EncodedTo(path, i, segStart, out)
    {
      EncodedOne(path, i, segStart, out);
      if path[i] == SLASH {
        if BadName(path[segStart..i]) { return []; }
        segStart := i + 1;
      } else if Control(path[i]) {
        return [];
      }
      out := out + EncodeByte(path[i]);
      i := i + 1;
    }
    EncodingEnds(path, segStart, out);
    if BadName(path[segStart..|path|]) { return []; }
  }

  // --- Properties -----------------------------------------------------------------

  /** "%XX" is a byte, anything else stands for itself. */
  function PercentDecode(s: seq<byte>): seq<byte> {
    if s == [] then []
    else if |s| >= 3 && s[0] == 0x25 && IsUpperHex(s[1]) && IsUpperHex(s[2])
    then [HexOf(s[1]) * 16 + HexOf(s[2])] + PercentDecode(s[3..])
    else [s[0]] + PercentDecode(s[1..])
  }

  /** Letters, digits, hyphen, dot, underscore and tilde: section 2.3 of RFC 3986. */
  predicate IsUnreserved(b: byte) {
    var c := b as char;
    'A' <= c <= 'Z' || 'a' <= c <= 'z' || '0' <= c <= '9' || c == '-' || c == '.' || c == '_' || c == '~'
  }

  /** A byte is written as it is exactly if it may be. */
  lemma EncodesOnlyWhatItMust(b: byte)
    ensures EncodeByte(b) == [b] <==> IsUnreserved(b) || b as char == '/'
  {
  }

  /** Only unreserved characters, slashes and "%XX". */
  predicate UrlText(s: seq<byte>) {
    s == []
    || ((s[0] == 0x2F || IsUnreserved(s[0])) && UrlText(s[1..]))
    || (|s| >= 3 && s[0] == 0x25 && IsUpperHex(s[1]) && IsUpperHex(s[2]) && UrlText(s[3..]))
  }

  lemma DecodeOne(b: byte, tail: seq<byte>)
    ensures PercentDecode(EncodeByte(b) + tail) == [b] + PercentDecode(tail)
    ensures UrlText(tail) ==> UrlText(EncodeByte(b) + tail)
  {
    var head := EncodeByte(b);
    var s := head + tail;
    assert s[|head|..] == tail;
    assert forall k :: 0 <= k < |head| ==> s[k] == head[k];
    if |head| == 3 {
      var hi: int, lo: int := b / 16, b % 16;
      assert HexOf(UpperHex(hi)) == hi && HexOf(UpperHex(lo)) == lo;
      assert hi * 16 + lo == b;
    }
  }

  /** Decoding gives the path back, and the text is fit for a URL, whatever the path. */
  lemma {:induction false} DecodeOfEncode(path: seq<byte>)
    ensures PercentDecode(EncodePath(path)) == path
    ensures UrlText(EncodePath(path))
  {
    if path != [] {
      DecodeOfEncode(path[1..]);
      DecodeOne(path[0], EncodePath(path[1..]));
    }
  }

  /** The result is empty exactly for refused paths, and different paths get different results. */
  lemma EncodePathInjective(p: seq<byte>, q: seq<byte>)
    ensures EncodePath(p) == EncodePath(q) ==> p == q
    ensures EncodePath(p) == [] ==> Refused(p)
  {
    DecodeOfEncode(p);
    DecodeOfEncode(q);
    if EncodePath(p) == [] {
      assert p == [];
      SegmentEndIs(p, 0);
    }
  }

  lemma {:induction false} EncodeConcat(a: seq<byte>, b: seq<byte>)
    ensures EncodePath(a + b) == EncodePath(a) + EncodePath(b)
  {
    if a == [] {
      assert a + b == b;
    } else {
      EncodeConcat(a[1..], b);
      assert (a + b)[1..] == a[1..] + b;
      Text.Regroup(EncodeByte(a[0]), EncodePath(a[1..]), EncodePath(b));
    }
  }

  function Segments(path: seq<byte>): seq<seq<byte>>
    decreases |path|
  {
    var e := SegmentEnd(path);
    [path[..e]] + if e < |path| then Segments(path[e + 1..]) else []
  }

  function EncodeEach(names: seq<seq<byte>>): seq<seq<byte>> {
    if names == [] then [] else [EncodePath(names[0])] + EncodeEach(names[1..])
  }

  lemma {:induction false} EncodedNameHasNoSlash(name: seq<byte>)
    requires forall k :: 0 <= k < |name| ==> name[k] != SLASH
    ensures forall k :: 0 <= k < |EncodePath(name)| ==> EncodePath(name)[k] != SLASH
  {
    if name != [] {
      EncodedNameHasNoSlash(name[1..]);
      assert forall k :: 0 <= k < |name[1..]| ==> name[1..][k] == name[k + 1];
    }
  }

  lemma BadNameEncoded(name: seq<byte>)
    ensures BadName(EncodePath(name)) <==> BadName(name)
  {
    assert EncodePath([DOT]) == [DOT] by { assert [DOT][1..] == []; }
    assert EncodePath([DOT, DOT]) == [DOT, DOT] by { assert [DOT, DOT][1..] == [DOT]; }
    EncodePathInjective(name, []);
    EncodePathInjective(name, [DOT]);
    EncodePathInjective(name, [DOT, DOT]);
  }

  lemma SegmentsOfJoin(name: seq<byte>, rest: seq<byte>)
    requires forall k :: 0 <= k < |name| ==> name[k] != SLASH
    ensures Segments(name + [SLASH] + rest) == [name] + Segments(rest)
    ensures HasBadSegment(name + [SLASH] + rest) <==> BadName(name) || HasBadSegment(rest)
  {
    var path := name + [SLASH] + rest;
    SegmentEndIs(path, |name|);
    assert path[..|name|] == name && path[|name| + 1..] == rest;
  }

  lemma SegmentsOfName(name: seq<byte>)
    requires forall k :: 0 <= k < |name| ==> name[k] != SLASH
    ensures Segments(name) == [name] && (HasBadSegment(name) <==> BadName(name))
  {
    SegmentEndIs(name, |name|);
    assert name[..|name|] == name;
  }

  lemma EncodeJoin(name: seq<byte>, rest: seq<byte>)
    ensures EncodePath(name + [SLASH] + rest) == EncodePath(name) + [SLASH] + EncodePath(rest)
  {
    EncodeConcat(name + [SLASH], rest);
    EncodeConcat(name, [SLASH]);
    assert [SLASH][1..] == [];
    assert EncodePath([SLASH]) == [SLASH];
  }

  /**
   Encoding works segment by segment: a server that splits the encoded text at slashes sees the
   encoded names of the same segments, and none of them is empty or a dot segment unless the
   path's own was.
   */
  lemma {:induction false} SegmentsOfEncoded(path: seq<byte>)
    ensures Segments(EncodePath(path)) == EncodeEach(Segments(path))
    ensures HasBadSegment(EncodePath(path)) <==> HasBadSegment(path)
    decreases |path|
  {
    var e := SegmentEnd(path);
    var name := path[..e];
    EncodedNameHasNoSlash(name);
    BadNameEncoded(name);
    if e == |path| {
      assert name == path;
      SegmentsOfName(name);
      SegmentsOfName(EncodePath(name));
      EncodeEachCons(name, []);
    } else {
      var rest := path[e + 1..];
      assert path == name + [SLASH] + rest;
      SegmentsOfEncoded(rest);
      EncodeJoin(name, rest);
      SegmentsOfJoin(name, rest);
      SegmentsOfJoin(EncodePath(name), EncodePath(rest));
      EncodeEachCons(name, Segments(rest));
    }
  }

  lemma EncodeEachCons(name: seq<byte>, names: seq<seq<byte>>)
    ensures EncodeEach([name] + names) == [EncodePath(name)] + EncodeEach(names)
  {
    assert ([name] + names)[1..] == names;
  }

  /** The names with a slash between every two of them. */
  function JoinNames(names: seq<seq<byte>>): seq<byte> {
    if names == [] then [] else if |names| == 1 then names[0] else names[0] + [0x2F] + JoinNames(names[1..])
  }

  ghost predicate NoSlash(name: seq<byte>) {
    forall k :: 0 <= k < |name| ==> name[k] != 0x2F
  }

  lemma JoinCons(name: seq<byte>, names: seq<seq<byte>>)
    requires names != []
    ensures JoinNames([name] + names) == name + [0x2F] + JoinNames(names)
  {
    assert ([name] + names)[1..] == names;
  }

  /** A path is its segments with slashes between them, and the segments have none. */
  lemma {:induction false} SegmentsMakeThePath(path: seq<byte>)
    ensures Segments(path) != [] && JoinNames(Segments(path)) == path
    ensures forall n :: 0 <= n < |Segments(path)| ==> NoSlash(Segments(path)[n])
    decreases |path|
  {
    var name := path[..SegmentEnd(path)];
    assert NoSlash(name);
    if |name| < |path| {
      var rest := path[|name| + 1..];
      SegmentsMakeThePath(rest);
      JoinCons(name, Segments(rest));
      assert path == name + [0x2F] + rest;
    } else {
      assert name == path;
      SegmentsOfName(name);
    }
  }

  /** Empty, one dot or two dots. */
  predicate DotName(name: seq<byte>) {
    |name| == 0 || name == [0x2E] || name == [0x2E, 0x2E]
  }

  ghost predicate SomeDots(names: seq<seq<byte>>) {
    exists n :: 0 <= n < |names| && DotName(names[n])
  }

  lemma SomeDotsCons(name: seq<byte>, names: seq<seq<byte>>)
    ensures SomeDots([name] + names) <==> DotName(name) || SomeDots(names)
  {
    var all := [name] + names;
    if DotName(name) { assert DotName(all[0]); }
    forall n | 0 <= n < |names| ensures all[n + 1] == names[n] {}
  }

  /** Refused is what has a control byte or a segment that is empty, one dot or two dots. */
  lemma RefusedExactly(path: seq<byte>)
    ensures Refused(path) <==>
      (exists k :: 0 <= k < |path| && (path[k] < 0x20 || path[k] == 0x7F)) || SomeDots(Segments(path))
  {
    BadSegmentExactly(path);
  }

  lemma {:induction false} BadSegmentExactly(path: seq<byte>)
    ensures HasBadSegment(path) <==> SomeDots(Segments(path))
    decreases |path|
  {
    var name := path[..SegmentEnd(path)];
    if |name| < |path| {
      BadSegmentExactly(path[|name| + 1..]);
      SomeDotsCons(name, Segments(path[|name| + 1..]));
    } else {
      SomeDotsCons(name, []);
      assert [name] + [] == [name];
    }
  }
}
