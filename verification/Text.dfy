/**
  Text as the C++ source sees it: a std::string is a seq<char>, one char per byte.
  Searching, comparing and printing numbers, with the few facts the other modules need.
 */
module Text {

  datatype Option<+T> = None | Some(value: T) {
    function GetOr(default: T): T {
      if Some? then value else default
    }
  }

  /** `sub` stands in `s` at offset `i`. */
  predicate StandsAt(s: string, i: int, sub: string) {
    0 <= i <= |s| - |sub| && s[i..i + |sub|] == sub
  }

  /** std::string::find succeeds. */
  predicate Contains(s: string, sub: string) {
    exists i :: 0 <= i <= |s| - |sub| && StandsAt(s, i, sub)
  }

  /** A text whose last character is `c` stands only at the end of one that holds `c` nowhere but at the end. */
  lemma StandsOnlyAtTheEnd(s: string, i: int, sub: string, c: char)
    requires StandsAt(s, i, sub) && sub != [] && sub[|sub| - 1] == c
    requires s != [] && c !in s[..|s| - 1]
    ensures s == s[..i] + sub
  {
    assert s[i + |sub| - 1] == s[i..i + |sub|][|sub| - 1] == c;
    assert forall j :: 0 <= j < |s| - 1 ==> s[j] == s[..|s| - 1][j];
  }

  /** Splitting at the last occurrence of a separator is unambiguous. */
  lemma SplitAtLast(a: string, b: string, c: string, d: string, sep: char)
    requires a + [sep] + b == c + [sep] + d
    requires sep !in b && sep !in d
    ensures a == c && b == d
  {
    var s := a + [sep] + b;
    assert forall i :: |a| < i < |s| ==> s[i] == b[i - |a| - 1];
    assert forall i :: |c| < i < |s| ==> s[i] == d[i - |c| - 1];
    assert s[|a|] == sep && s[|c|] == sep;
    assert a == s[..|a|] == c;
    assert b == s[|a| + 1..] == d;
  }

  function Min(a: int, b: int): int {
    if a < b then a else b
  }

  // --- Joining texts ---------------------------------------------------------

  function Concat(texts: seq<string>): string {
    if texts == [] then [] else texts[0] + Concat(texts[1..])
  }

  lemma {:induction false} ConcatAppend(a: seq<string>, b: seq<string>)
    ensures Concat(a + b) == Concat(a) + Concat(b)
  {
    if a == [] {
      assert a + b == b;
    } else {
      ConcatAppend(a[1..], b);
      assert (a + b)[1..] == a[1..] + b;
      Regroup(a[0], Concat(a[1..]), Concat(b));
    }
  }

  lemma ConcatSnoc(a: seq<string>, x: string)
    ensures Concat(a + [x]) == Concat(a) + x
  {
    ConcatAppend(a, [x]);
    assert [x][1..] == [] && x + [] == x;
  }

  lemma ConcatNext(all: seq<string>, before: seq<string>, x: string, after: seq<string>)
    requires all == before + [x] + after
    ensures Concat(before + [x]) == Concat(before) + x <= Concat(all)
  {
    ConcatSnoc(before, x);
    ConcatAppend(before + [x], after);
  }

  lemma {:induction false} ConcatLacks(texts: seq<string>, c: char)
    requires forall t :: t in texts ==> c !in t
    ensures c !in Concat(texts)
  {
    if texts != [] {
      assert c !in texts[0] by { assert texts[0] in texts; }
      ConcatLacks(texts[1..], c);
      assert Concat(texts) == texts[0] + Concat(texts[1..]);
    }
  }

  lemma Regroup<T>(a: seq<T>, b: seq<T>, c: seq<T>)
    ensures a + (b + c) == a + b + c
  {
  }

  // --- Logins ------------------------------------------------------------------

  const MAX_LOGIN := 39

  predicate IsLoginChar(c: char) {
    'A' <= c <= 'Z' || 'a' <= c <= 'z' || '0' <= c <= '9' || c == '-'
  }

  /** A login that GitHub gives to people: an account of an app has brackets in its. */
  predicate PlainLogin(user: string) {
    0 < |user| <= MAX_LOGIN && forall i :: 0 <= i < |user| ==> IsLoginChar(user[i])
  }

  // --- Lexicographic order: operator< of std::string -----------------------

  predicate Less(a: string, b: string) {
    b != [] && (a == [] || a[0] < b[0] || (a[0] == b[0] && Less(a[1..], b[1..])))
  }

  lemma {:induction false} LessIrreflexive(a: string)
    ensures !Less(a, a)
  {
    if a != [] { LessIrreflexive(a[1..]); }
  }

  lemma {:induction false} LessTransitive(a: string, b: string, c: string)
    requires Less(a, b) && Less(b, c)
    ensures Less(a, c)
  {
    if a != [] && a[0] == b[0] == c[0] { LessTransitive(a[1..], b[1..], c[1..]); }
  }

  lemma {:induction false} LessTotal(a: string, b: string)
    ensures Less(a, b) || a == b || Less(b, a)
  {
    if a != [] && b != [] && a[0] == b[0] {
      LessTotal(a[1..], b[1..]);
      assert a == [a[0]] + a[1..] && b == [b[0]] + b[1..];
    }
  }

  /** `b` has something after `k` common characters: where `a` ends, or a character above `a`'s. */
  predicate GoesOnAbove(a: string, b: string, k: nat) {
    k <= |a| && k < |b| && a[..k] == b[..k] && (k == |a| || a[k] < b[k])
  }

  /** The first difference decides, and the end of a text comes before any character. */
  lemma {:induction false} LessExactly(a: string, b: string)
    ensures Less(a, b) <==> exists k: nat :: GoesOnAbove(a, b, k)
  {
    if a == [] || b == [] || a[0] != b[0] {
      if Less(a, b) { assert GoesOnAbove(a, b, 0); }
      forall k: nat | 0 < k <= |a| && k < |b| ensures a[..k] != b[..k] {
        assert a[..k][0] == a[0] && b[..k][0] == b[0];
      }
    } else {
      var x, y := a[1..], b[1..];
      LessExactly(x, y);
      forall k: nat ensures k > 0 ==> (GoesOnAbove(a, b, k) <==> GoesOnAbove(x, y, k - 1)) {
        if 0 < k <= |a| && k < |b| { AboveBehind(a, b, k); }
      }
      if Less(x, y) {
        var k: nat :| GoesOnAbove(x, y, k);
        assert GoesOnAbove(a, b, k + 1);
      }
      assert !GoesOnAbove(a, b, 0);
    }
  }

  lemma AboveBehind(a: string, b: string, k: nat)
    requires 0 < k <= |a| && k < |b| && a[0] == b[0]
    ensures GoesOnAbove(a, b, k) <==> GoesOnAbove(a[1..], b[1..], k - 1)
  {
    assert a[..k] == [a[0]] + a[1..][..k - 1] && b[..k] == [b[0]] + b[1..][..k - 1];
    assert a[..k][1..] == a[1..][..k - 1] && b[..k][1..] == b[1..][..k - 1];
  }

  // --- Decimal printing: std::to_string and ostream << int -----------------

  function DigitChar(d: nat): (c: char)
    requires d < 10
    ensures '0' <= c <= '9'
  {
    '0' + d as char
  }

  predicate IsDigit(c: char) {
    '0' <= c <= '9'
  }

  function Digits(n: nat): (s: string)
    ensures |s| > 0
    ensures forall i :: 0 <= i < |s| ==> IsDigit(s[i])
  {
    if n < 10 then [DigitChar(n)] else Digits(n / 10) + [DigitChar(n % 10)]
  }

  function Decimal(n: int): (s: string)
    ensures |s| > 0
    ensures forall i :: 0 <= i < |s| ==> s[i] == '-' || IsDigit(s[i])
  {
    if n < 0 then "-" + Digits(-n) else Digits(n)
  }

  /** The value of a digit string, as std::stoi reads it. */
  function DigitsValue(s: string): (n: nat)
    requires forall i :: 0 <= i < |s| ==> IsDigit(s[i])
  {
    if s == [] then 0
    else
      assert IsDigit(s[|s| - 1]);
      10 * DigitsValue(s[..|s| - 1]) + (s[|s| - 1] as int - '0' as int)
  }

  lemma {:induction false} DigitsValueOfDigits(n: nat)
    ensures DigitsValue(Digits(n)) == n
  {
    var s := Digits(n);
    if n < 10 {
      assert s[..|s| - 1] == [];
    } else {
      DigitsValueOfDigits(n / 10);
      assert s[..|s| - 1] == Digits(n / 10);
    }
  }

  lemma DecimalInjective(m: int, n: int)
    requires Decimal(m) == Decimal(n)
    ensures m == n
  {
    DecimalSign(m);
    DecimalSign(n);
    if m < 0 {
      DigitsValueOfDigits(-m);
      DigitsValueOfDigits(-n);
    } else {
      DigitsValueOfDigits(m);
      DigitsValueOfDigits(n);
    }
  }

  lemma DecimalSign(n: int)
    ensures Decimal(n)[0] == '-' <==> n < 0
    ensures n < 0 ==> Decimal(n)[1..] == Digits(-n)
  {
    if n >= 0 { assert IsDigit(Digits(n)[0]); }
  }
}
