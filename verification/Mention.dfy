/** Finding an @-mention of the bot in a comment (src/mention.cpp). */
module Mention {
  import opened Text

  function AsciiLower(c: char): char {
    if 'A' <= c <= 'Z' then c + ('a' - 'A') else c
  }

  predicate SameIgnoringCase(a: string, b: string) {
    |a| == |b| && forall i :: 0 <= i < |a| ==> AsciiLower(a[i]) == AsciiLower(b[i])
  }

  /** "@handle" stands at `at`, with no login character right before or right after it. */
  predicate MentionAt(body: string, handle: string, at: int) {
    && 0 <= at && at + 1 + |handle| <= |body|
    && body[at] == '@'
    && SameIgnoringCase(body[at + 1..at + 1 + |handle|], handle)
    && (at == 0 || !IsLoginChar(body[at - 1]))
    && (at + 1 + |handle| == |body| || !IsLoginChar(body[at + 1 + |handle|]))
  }

  predicate Mentions(body: string, handle: string) {
    0 < |handle| <= MAX_LOGIN && exists at :: 0 <= at < |body| && MentionAt(body, handle, at)
  }

  method StartsWithIgnoringCase(haystack: string, pos: nat, needle: string) returns (r: bool)
    ensures r <==> pos + |needle| <= |haystack| && SameIgnoringCase(haystack[pos..pos + |needle|], needle)
  {
    if pos + |needle| > |haystack| { return false; }
    for i := 0 to |needle|
      invariant SameIgnoringCase(haystack[pos..pos + i], needle[..i])
    {
      if AsciiLower(haystack[pos + i]) != AsciiLower(needle[i]) {
        assert haystack[pos..pos + |needle|][i] == haystack[pos + i];
        return false;
      }
      assert haystack[pos..pos + i + 1] == haystack[pos..pos + i] + [haystack[pos + i]];
      assert needle[..i + 1] == needle[..i] + [needle[i]];
    }
    assert needle[..|needle|] == needle;
    return true;
  }

  /** std::string_view::find of one character; the length stands for npos. */
  method FindChar(s: string, c: char, from: nat) returns (at: nat)
    requires from <= |s|
    ensures from <= at <= |s| && (at < |s| ==> s[at] == c)
    ensures forall k :: from <= k < at ==> s[k] != c
  {
    at := from;
    while at < |s| && s[at] != c
      invariant from <= at <= |s|
      invariant forall k :: from <= k < at ==> s[k] != c
    {
      at := at + 1;
    }
  }

  method MentionMatches(body: string, handle: string) returns (r: bool)
    ensures r <==> Mentions(body, handle)
  {
    if handle == [] { return false; }
    if |handle| > MAX_LOGIN { return false; }
    var i := 0;
    while i < |body|
      invariant 0 <= i <= |body|
      invariant forall at :: 0 <= at < i ==> !MentionAt(body, handle, at)
    {
      var at := FindChar(body, '@', i);
      if at == |body| { return false; }
      var leftOk := at == 0 || !IsLoginChar(body[at - 1]);
      var here := StartsWithIgnoringCase(body, at + 1, handle);
      if leftOk && here {
        var after := at + 1 + |handle|;
        var rightOk := after >= |body| || !IsLoginChar(body[after]);
        if rightOk {
          assert MentionAt(body, handle, at);
          return true;
        }
      }
      i := at + 1;
    }
    return false;
  }

  method EqLogin(a: string, b: string) returns (r: bool)
    ensures r <==> SameIgnoringCase(a, b)
  {
    if |a| != |b| { return false; }
    for i := 0 to |a|
      invariant forall k :: 0 <= k < i ==> AsciiLower(a[k]) == AsciiLower(b[k])
    {
      if AsciiLower(a[i]) != AsciiLower(b[i]) { return false; }
    }
    return true;
  }

  // --- What a mention is, in characters ------------------------------------------------

  /** One letter in either case, or the same character. */
  predicate SameLetter(a: char, b: char) {
    a == b || ('A' <= a <= 'Z' && b as int == a as int + 32) || ('A' <= b <= 'Z' && a as int == b as int + 32)
  }

  predicate HandleChar(c: char) {
    'A' <= c <= 'Z' || 'a' <= c <= 'z' || '0' <= c <= '9' || c == '-'
  }

  lemma LowerExactly(a: char, b: char)
    ensures AsciiLower(a) == AsciiLower(b) <==> SameLetter(a, b)
  {
  }

  /** The body is some text, an at sign, the handle up to case, and some text; the handle ends where a name would. */
  ghost predicate MadeOf(body: string, before: string, name: string, after: string, handle: string) {
    && body == before + "@" + name + after
    && |name| == |handle| && (forall i :: 0 <= i < |name| ==> SameLetter(name[i], handle[i]))
    && (before != "" ==> !HandleChar(before[|before| - 1])) && (after != "" ==> !HandleChar(after[0]))
  }

  lemma MentionIsMadeOf(body: string, handle: string, at: nat)
    requires MentionAt(body, handle, at)
    ensures MadeOf(body, body[..at], body[at + 1..at + 1 + |handle|], body[at + 1 + |handle|..], handle)
  {
    var name := body[at + 1..at + 1 + |handle|];
    forall i | 0 <= i < |name| ensures SameLetter(name[i], handle[i]) { LowerExactly(name[i], handle[i]); }
    assert body == body[..at] + "@" + name + body[at + 1 + |handle|..];
  }

  lemma MadeOfMentions(body: string, before: string, name: string, after: string, handle: string)
    requires MadeOf(body, before, name, after, handle)
    ensures MentionAt(body, handle, |before|)
  {
    var at := |before|;
    assert body[at + 1..at + 1 + |handle|] == name;
    forall i | 0 <= i < |name| ensures AsciiLower(name[i]) == AsciiLower(handle[i]) { LowerExactly(name[i], handle[i]); }
  }

  lemma MentionsExactly(body: string, handle: string)
    ensures Mentions(body, handle) <==> 1 <= |handle| <= 39 && exists before, name, after :: MadeOf(body, before, name, after, handle)
  {
    if Mentions(body, handle) {
      var at :| 0 <= at < |body| && MentionAt(body, handle, at);
      MentionIsMadeOf(body, handle, at);
    }
    if 1 <= |handle| <= 39 && exists before, name, after :: MadeOf(body, before, name, after, handle) {
      var before, name, after :| MadeOf(body, before, name, after, handle);
      MadeOfMentions(body, before, name, after, handle);
    }
  }

  lemma SameIgnoringCaseExactly(a: string, b: string)
    ensures SameIgnoringCase(a, b) <==> |a| == |b| && forall i :: 0 <= i < |a| ==> SameLetter(a[i], b[i])
  {
    forall x, y ensures AsciiLower(x) == AsciiLower(y) <==> SameLetter(x, y) { LowerExactly(x, y); }
  }
}
