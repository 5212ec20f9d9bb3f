/** The issue number at the end of an issue URL (src/github_types.cpp:227-249). */
module IssueUrl {
  import opened Text

  const INT_MAX := 0x7FFF_FFFF

  /** Where the slashes that end `s[..end]` begin. */
  function SlashStart(s: string, end: nat): (r: nat)
    requires end <= |s|
    ensures r <= end && (r > 0 ==> s[r - 1] != '/')
  {
    if end > 0 && s[end - 1] == '/' then SlashStart(s, end - 1) else end
  }

  /** Where the digits that end `s[..end]` begin. */
  function DigitStart(s: string, end: nat): (r: nat)
    requires end <= |s|
    ensures r <= end && (r > 0 ==> !IsDigit(s[r - 1]))
    ensures forall i :: r <= i < end ==> IsDigit(s[i])
  {
    if end > 0 && IsDigit(s[end - 1]) then DigitStart(s, end - 1) else end
  }

  /** -1 stands for "no usable number", as in the source. */
  function IssueNumber(url: string): (r: int)
    ensures -1 <= r <= INT_MAX
  {
    var end := SlashStart(url, |url|);
    var start := DigitStart(url, end);
    if start == end || (start > 0 && url[start - 1] != '/') then -1 else Stoi(url[start..end])
  }

  /** std::stoi on digits; it throws beyond an int, which the caller turns into -1. */
  function Stoi(digits: string): int
    requires forall i :: 0 <= i < |digits| ==> IsDigit(digits[i])
  {
    if DigitsValue(digits) > INT_MAX then -1 else DigitsValue(digits)
  }

  method ParseIssueNumberFromUrl(issueUrl: string) returns (r: int)
    ensures r == IssueNumber(issueUrl)
  {
    if issueUrl == [] { return -1; }
    var end := |issueUrl|;
    while end > 0 && issueUrl[end - 1] == '/'
      invariant 0 <= end <= |issueUrl|
      invariant SlashStart(issueUrl, end) == SlashStart(issueUrl, |issueUrl|)
    {
      end := end - 1;
    }
    var start := end;
    while start > 0 && IsDigit(issueUrl[start - 1])
      invariant 0 <= start <= end
      invariant DigitStart(issueUrl, start) == DigitStart(issueUrl, end)
    {
      start := start - 1;
    }
    if start == end { return -1; }
    if start > 0 && issueUrl[start - 1] != '/' { return -1; }
    return Stoi(issueUrl[start..end]);
  }

  lemma {:induction false} SlashStartAt(s: string, stop: nat, end: nat)
    requires stop <= end <= |s|
    requires forall i :: stop <= i < end ==> s[i] == '/'
    requires stop > 0 ==> s[stop - 1] != '/'
    ensures SlashStart(s, end) == stop
    decreases end
  {
    if stop < end { SlashStartAt(s, stop, end - 1); }
  }

  lemma {:induction false} DigitStartAt(s: string, start: nat, end: nat)
    requires start <= end <= |s|
    requires forall i :: start <= i < end ==> IsDigit(s[i])
    requires start > 0 ==> !IsDigit(s[start - 1])
    ensures DigitStart(s, end) == start
    decreases end
  {
    if start < end { DigitStartAt(s, start, end - 1); }
  }

  /** The number GitHub prints into an issue URL is the number read back, up to the width of an int. */
  lemma IssueNumberOfUrl(base: string, n: nat, slashes: string)
    requires base == [] || base[|base| - 1] == '/'
    requires forall i :: 0 <= i < |slashes| ==> slashes[i] == '/'
    ensures IssueNumber(base + Digits(n) + slashes) == if n <= 2147483647 then n else -1
  {
    NumberOfParts(base, Digits(n), slashes);
    DigitsValueOfDigits(n);
  }

  lemma NumberOfParts(base: string, digits: string, slashes: string)
    requires base == [] || base[|base| - 1] == '/'
    requires digits != [] && forall i :: 0 <= i < |digits| ==> IsDigit(digits[i])
    requires forall i :: 0 <= i < |slashes| ==> slashes[i] == '/'
    ensures IssueNumber(base + digits + slashes) == Stoi(digits)
  {
    var s := base + digits + slashes;
    var start, end := |base|, |base| + |digits|;
    assert s[start..end] == digits;
    assert forall i :: start <= i < end ==> s[i] == digits[i - start];
    assert start > 0 ==> s[start - 1] == '/';
    EndsFound(s, start, end);
  }

  lemma EndsFound(s: string, start: nat, end: nat)
    requires start < end <= |s|
    requires forall i :: start <= i < end ==> IsDigit(s[i])
    requires forall i :: end <= i < |s| ==> s[i] == '/'
    requires start > 0 ==> s[start - 1] == '/'
    ensures SlashStart(s, |s|) == end && DigitStart(s, end) == start
  {
    SlashStartAt(s, end, |s|);
    DigitStartAt(s, start, end);
  }

  /** The URL is a base that is empty or ends in a slash, digits, and slashes. */
  predicate EndsInNumber(url: string, base: string, digits: string, slashes: string) {
    && url == base + digits + slashes && (base != "" ==> base[|base| - 1] == '/')
    && digits != "" && (forall i :: 0 <= i < |digits| ==> '0' <= digits[i] <= '9')
    && (forall i :: 0 <= i < |slashes| ==> slashes[i] == '/')
  }

  /** Only such URLs have a number, which is the one in the digits unless it is too large. */
  lemma IssueNumberExactly(url: string)
    ensures IssueNumber(url) != -1 <==>
      exists base, digits, slashes :: EndsInNumber(url, base, digits, slashes) && DigitsValue(digits) <= 2147483647
    ensures forall base, digits, slashes :: EndsInNumber(url, base, digits, slashes) ==>
      IssueNumber(url) == if DigitsValue(digits) <= 2147483647 then DigitsValue(digits) else -1
  {
    forall base, digits, slashes | EndsInNumber(url, base, digits, slashes)
      ensures IssueNumber(url) == if DigitsValue(digits) <= 2147483647 then DigitsValue(digits) else -1
    {
      NumberOfParts(base, digits, slashes);
    }
    if IssueNumber(url) != -1 {
      var end := SlashStart(url, |url|);
      var start := DigitStart(url, end);
      SlashesBehind(url, |url|);
      assert url == url[..start] + url[start..end] + url[end..];
      assert EndsInNumber(url, url[..start], url[start..end], url[end..]);
    }
  }

  lemma {:induction false} SlashesBehind(s: string, end: nat)
    requires end <= |s|
    ensures forall i :: SlashStart(s, end) <= i < end ==> s[i] == '/'
  {
    if end > 0 && s[end - 1] == '/' { SlashesBehind(s, end - 1); }
  }
}
