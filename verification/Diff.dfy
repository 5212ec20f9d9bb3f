/**
  Splitting a unified diff into per-file sections, trimming it to a byte budget and listing
  the paths it changes (src/reviewer.cpp:333-464).
 */
module Diff {
  import opened Text

  const MARK := "diff --git "

  predicate EndsLine(s: string) {
    s == [] || s[|s| - 1] == '\n'
  }

  /** A file section begins at offset `i`: the marker stands there, at the start of a line. */
  predicate SectionStart(d: string, i: int) {
    StandsAt(d, i, MARK) && (i == 0 || d[i - 1] == '\n')
  }

  /** A text with exactly one section start, at its head. */
  ghost predicate IsSection(s: string) {
    SectionStart(s, 0) && forall i :: 0 < i < |s| ==> !SectionStart(s, i)
  }

  /** What a split has to be, stated without saying how it is found. */
  ghost predicate IsSplit(d: string, preamble: string, sections: seq<string>) {
    && d == preamble + Concat(sections)
    && (forall i :: 0 <= i < |preamble| ==> !SectionStart(preamble, i))
    && (sections != [] ==> EndsLine(preamble))
    && AllSections(sections)
  }

  /** Sections that can follow one another: each but the last ends a line. */
  ghost predicate AllSections(sections: seq<string>) {
    && (forall k :: 0 <= k < |sections| ==> IsSection(sections[k]))
    && (forall k :: 0 <= k < |sections| - 1 ==> EndsLine(sections[k]))
  }

  // --- The split as a function ----------------------------------------------

  /** The first section start at or after `i`, or the length of `d`. */
  function NextStart(d: string, i: nat): (n: nat)
    requires i <= |d|
    ensures i <= n <= |d|
    ensures n < |d| ==> SectionStart(d, n)
    ensures forall k :: i <= k < n ==> !SectionStart(d, k)
    decreases |d| - i
  {
    if i == |d| || SectionStart(d, i) then i else NextStart(d, i + 1)
  }

  function SectionTexts(d: string): seq<string>
    requires SectionStart(d, 0)
  {
    var e := NextStart(d, 1);
    if e == |d| then [d] else TailIsSection(d, e); [d[..e]] + SectionTexts(d[e..])
  }

  function Preamble(d: string): string {
    d[..NextStart(d, 0)]
  }

  function Sections(d: string): seq<string> {
    var e := NextStart(d, 0);
    if e == |d| then [] else TailIsSection(d, e); SectionTexts(d[e..])
  }

  lemma TailIsSection(d: string, e: nat)
    requires e <= |d| && SectionStart(d, e)
    ensures SectionStart(d[e..], 0)
  {
    assert d[e..][..|MARK|] == d[e..e + |MARK|];
  }

  /** No section start is created, lost or moved where two texts meet at a line end. */
  lemma Junction(x: string, y: string, i: nat)
    requires EndsLine(x) && i <= |x + y|
    ensures SectionStart(x + y, i) <==> if i < |x| then SectionStart(x, i) else SectionStart(y, i - |x|)
  {
    var d := x + y;
    if i < |x| {
      if i + |MARK| <= |x| {
        SliceOfLeft(x, y, i, i + |MARK|);
      } else if i + |MARK| <= |d| {
        assert d[i..i + |MARK|][|x| - 1 - i] == '\n';
        assert '\n' !in MARK;
      }
    } else if i + |MARK| <= |d| {
      SliceOfRight(x, y, i - |x|, i - |x| + |MARK|);
    }
  }

  lemma SliceOfLeft(x: string, y: string, i: nat, j: nat)
    requires i <= j <= |x|
    ensures (x + y)[i..j] == x[i..j]
  {
    assert forall k :: 0 <= k < j - i ==> (x + y)[i..j][k] == x[i + k] == x[i..j][k];
  }

  lemma SliceOfRight(x: string, y: string, i: nat, j: nat)
    requires i <= j <= |y|
    ensures (x + y)[|x| + i..|x| + j] == y[i..j]
  {
    assert forall k :: 0 <= k < j - i ==> (x + y)[|x| + i..|x| + j][k] == y[i + k] == y[i..j][k];
  }

  lemma NextStartAtJunction(x: string, y: string, from: nat)
    requires EndsLine(x) && SectionStart(y, 0) && from <= |x|
    requires forall i :: from <= i < |x| ==> !SectionStart(x, i)
    ensures NextStart(x + y, from) == |x|
    ensures (x + y)[..|x|] == x && (x + y)[|x|..] == y
  {
    forall i: nat | from <= i < |x| ensures !SectionStart(x + y, i) {
      Junction(x, y, i);
    }
    Junction(x, y, |x|);
  }

  lemma {:induction false} SectionsOfConcat(sections: seq<string>)
    requires sections != []
    requires AllSections(sections)
    ensures SectionStart(Concat(sections), 0) && SectionTexts(Concat(sections)) == sections
  {
    var x, y := sections[0], Concat(sections[1..]);
    if |sections| == 1 {
      assert x + y == x;
      assert NextStart(x, 1) == |x|;
    } else {
      SectionsOfConcat(sections[1..]);
      NextStartAtJunction(x, y, 1);
      Junction(x, y, 0);
      assert SectionTexts(x + y) == [x] + SectionTexts(y);
    }
  }

  /** There is only one split: the function's. */
  lemma SplitUnique(d: string, preamble: string, sections: seq<string>)
    requires IsSplit(d, preamble, sections)
    ensures Preamble(d) == preamble && Sections(d) == sections
  {
    if sections == [] {
      assert d == preamble;
      assert NextStart(d, 0) == |d|;
    } else {
      SectionsOfConcat(sections);
      NextStartAtJunction(preamble, Concat(sections), 0);
    }
  }

  lemma SliceOfSlice(d: string, a: nat, b: nat, i: nat, j: nat)
    requires a <= b <= |d| && i <= j <= b - a
    ensures d[a..b][i..j] == d[a + i..a + j]
  {
    assert forall k :: 0 <= k < j - i ==> d[a..b][i..j][k] == d[a + i..a + j][k];
  }

  /** The marker holds no newline, so two section starts are at least its length apart. */
  lemma StartsApart(d: string, a: nat, b: nat)
    requires a < b <= |d| && SectionStart(d, a) && (b < |d| ==> SectionStart(d, b))
    ensures a + |MARK| <= b
  {
    assert forall k :: 0 <= k < |MARK| ==> d[a + k] == d[a..a + |MARK|][k] == MARK[k];
    assert '\n' !in MARK;
  }

  lemma StretchStarts(d: string, a: nat, b: nat, i: nat)
    requires a <= b <= |d| && 0 < i
    requires SectionStart(d[a..b], i)
    ensures SectionStart(d, a + i) && i < b - a
  {
    SliceOfSlice(d, a, b, i, i + |MARK|);
  }

  /** A stretch of `d` between two section starts is a section. */
  lemma StretchIsSection(d: string, a: nat, b: nat)
    requires a < b <= |d| && SectionStart(d, a) && (b < |d| ==> SectionStart(d, b))
    requires forall k :: a < k < b ==> !SectionStart(d, k)
    ensures IsSection(d[a..b])
    ensures b < |d| ==> EndsLine(d[a..b])
  {
    StartsApart(d, a, b);
    SliceOfSlice(d, a, b, 0, |MARK|);
    forall i: nat | 0 < i < b - a ensures !SectionStart(d[a..b], i) {
      if SectionStart(d[a..b], i) { StretchStarts(d, a, b, i); }
    }
  }

  lemma {:induction false} SectionTextsSplit(d: string)
    requires SectionStart(d, 0)
    ensures IsSplit(d, "", SectionTexts(d))
  {
    var e := NextStart(d, 1);
    StretchIsSection(d, 0, e);
    if e < |d| {
      TailIsSection(d, e);
      SectionTextsSplit(d[e..]);
      assert d[0..e] == d[..e];
      PrependSection(d, e, SectionTexts(d[e..]));
    } else {
      assert d[0..e] == d;
      assert IsSplit(d, "", [d]) by { assert Concat([d]) == d + Concat([][..]); }
    }
  }

  lemma PrependSection(d: string, e: nat, sections: seq<string>)
    requires e < |d| && IsSplit(d[e..], "", sections)
    requires IsSection(d[..e]) && EndsLine(d[..e])
    ensures IsSplit(d, "", [d[..e]] + sections)
  {
    var all := [d[..e]] + sections;
    JoinAt(d, e, Concat(sections));
    assert all[1..] == sections;
    assert forall k :: 1 <= k < |all| ==> all[k] == sections[k - 1];
  }

  lemma PrefixStart(d: string, e: nat, i: nat)
    requires e <= |d| && SectionStart(d[..e], i)
    ensures SectionStart(d, i)
  {
    assert d[..e] == d[0..e];
    SliceOfSlice(d, 0, e, i, i + |MARK|);
  }

  lemma NoStartsIn(d: string, e: nat)
    requires e <= |d| && forall k :: 0 <= k < e ==> !SectionStart(d, k)
    ensures forall i :: 0 <= i < e ==> !SectionStart(d[..e], i)
  {
    forall i: nat | i < e ensures !SectionStart(d[..e], i) {
      if SectionStart(d[..e], i) { PrefixStart(d, e, i); }
    }
  }

  /** The function splits: with SplitUnique, it is the unique split of every text. */
  lemma SplitExists(d: string)
    ensures IsSplit(d, Preamble(d), Sections(d))
  {
    var e := NextStart(d, 0);
    NoStartsIn(d, e);
    if e < |d| {
      TailIsSection(d, e);
      SectionTextsSplit(d[e..]);
      PrependPreamble(d, e, SectionTexts(d[e..]));
    } else {
      assert d[..e] == d && d + Concat([]) == d;
    }
  }

  lemma PrependPreamble(d: string, e: nat, sections: seq<string>)
    requires e < |d| && SectionStart(d, e) && IsSplit(d[e..], "", sections)
    requires forall i :: 0 <= i < e ==> !SectionStart(d[..e], i)
    ensures IsSplit(d, d[..e], sections)
  {
    LineBeforeStart(d, e);
    JoinAt(d, e, Concat(sections));
  }

  lemma JoinAt(d: string, e: nat, tail: string)
    requires e <= |d| && d[e..] == "" + tail
    ensures d == d[..e] + tail
  {
    assert d == d[..e] + d[e..] && "" + tail == tail;
  }

  lemma LineBeforeStart(d: string, e: nat)
    requires e <= |d| && SectionStart(d, e)
    ensures EndsLine(d[..e])
  {
  }

  // --- Paths -----------------------------------------------------------------

  /** The end of the first line of `s`: its first newline, or its length. */
  function LineEnd(s: string): (e: nat)
    ensures e <= |s| && (e < |s| ==> s[e] == '\n')
    ensures '\n' !in s[..e]
  {
    if s == [] || s[0] == '\n' then 0
    else
      var e := 1 + LineEnd(s[1..]);
      assert s[..e] == [s[0]] + s[1..][..e - 1];
      e
  }

  function AfterLine(s: string): (rest: string)
    ensures s != [] ==> |rest| < |s|
  {
    if LineEnd(s) < |s| then s[LineEnd(s) + 1..] else []
  }

  function StripTab(p: string): string {
    if p == [] || p[0] == '\t' then [] else [p[0]] + StripTab(p[1..])
  }

  datatype Header = Found(path: string, deleted: bool) | NoHeader

  /** Scanning the ---/+++ header lines, with the old-side path seen so far. */
  function ScanHeader(s: string, oldPath: string): Header
    decreases |s|
  {
    if s == [] then NoHeader
    else
      var line := s[..LineEnd(s)];
      if "--- a/" <= line then ScanHeader(AfterLine(s), StripTab(line[6..]))
      else if "+++ b/" <= line then Found(StripTab(line[6..]), false)
      else if line == "+++ /dev/null" then Found(oldPath, true)
      else if "@@" <= line then NoHeader
      else ScanHeader(AfterLine(s), oldPath)
  }

  /** std::string::rfind, searching down from offset `i`. */
  function LastStand(s: string, sub: string, i: int): (r: Option<nat>)
    requires i <= |s|
    ensures r.Some? ==> r.value <= i && StandsAt(s, r.value, sub)
    ensures forall k :: (if r.Some? then r.value else -1) < k <= i ==> !StandsAt(s, k, sub)
    decreases i + 1
  {
    if i < 0 then None else if StandsAt(s, i, sub) then Some(i) else LastStand(s, sub, i - 1)
  }

  /** The path on the "diff --git a/X b/Y" line, when there is no usable header. */
  function FallbackPath(text: string): string {
    PathOnLine(text[..LineEnd(text)])
  }

  function PathOnLine(header: string): string {
    match LastStand(header, " b/", |header|)
    case Some(b) => if b + 3 < |header| then header[b + 3..] else ""
    case None => ""
  }

  function SectionPath(text: string): (string, bool) {
    match ScanHeader(text, "")
    case Found(path, deleted) => (path, deleted)
    case NoHeader => (FallbackPath(text), false)
  }

  datatype FileSection = FileSection(path: string, deleted: bool, text: string)
  datatype DiffSplit = DiffSplit(preamble: string, files: seq<FileSection>)

  function SectionOf(text: string): FileSection {
    FileSection(SectionPath(text).0, SectionPath(text).1, text)
  }

  function SectionsOf(texts: seq<string>): seq<FileSection> {
    seq(|texts|, i requires 0 <= i < |texts| => SectionOf(texts[i]))
  }

  function SplitOf(d: string): DiffSplit {
    DiffSplit(Preamble(d), SectionsOf(Sections(d)))
  }

  method ComputeSectionPath(text: string) returns (path: string, deleted: bool)
    ensures (path, deleted) == SectionPath(text)
  {
    deleted := false;
    var oldPath := "";
    var rest := text;
    while rest != []
      invariant ScanHeader(rest, oldPath) == ScanHeader(text, "")
      invariant !deleted
      decreases |rest|
    {
      var line := rest[..LineEnd(rest)];
      if "--- a/" <= line {
        oldPath := StripTab(line[6..]);
      } else if "+++ b/" <= line {
        return StripTab(line[6..]), deleted;
      } else if line == "+++ /dev/null" {
        deleted := true;
        return oldPath, deleted;
      } else if "@@" <= line {
        break;
      }
      rest := AfterLine(rest);
    }
    return FallbackPath(text), false;
  }

  /** std::string::find from an offset; the length + 1 stands for npos. */
  method Find(s: string, sub: string, from: nat) returns (at: nat)
    requires from <= |s| + 1
    ensures from <= at <= |s| + 1
    ensures at <= |s| ==> StandsAt(s, at, sub)
    ensures forall k :: from <= k < at ==> !StandsAt(s, k, sub)
  {
    at := from;
    while at <= |s| && !StandsAt(s, at, sub)
      invariant from <= at <= |s| + 1
      invariant forall k :: from <= k < at ==> !StandsAt(s, k, sub)
    {
      at := at + 1;
    }
  }

  /** A section start beyond offset 0 is a newline followed by the marker. */
  lemma StartAfterNewline(d: string, p: nat)
    ensures StandsAt(d, p, "\n" + MARK) <==> p < |d| && SectionStart(d, p + 1)
  {
    if p + 1 + |MARK| <= |d| {
      assert d[p..p + 1 + |MARK|] == [d[p]] + d[p + 1..p + 1 + |MARK|];
    }
  }

  lemma NextStartFound(d: string, starts: seq<nat>, pos: nat, next: nat)
    requires pos <= |d| && StandsAt(d, pos, "\n" + MARK) && StartsExactly(d, starts, pos)
    requires pos < next <= |d| + 1 && forall k :: pos + 1 <= k < next ==> !StandsAt(d, k, "\n" + MARK)
    ensures StartsExactly(d, starts + [pos + 1], next)
  {
    StartAfterNewline(d, pos);
    StartsBetween(d, pos + 1, next);
    AppendStart(d, starts, pos, next);
  }

  lemma AppendStart(d: string, starts: seq<nat>, pos: nat, next: nat)
    requires pos < |d| && pos < next && StartsExactly(d, starts, pos) && SectionStart(d, pos + 1)
    requires forall k :: pos + 1 < k <= next && k <= |d| ==> !SectionStart(d, k)
    ensures StartsExactly(d, starts + [pos + 1], next)
  {
    var all := starts + [pos + 1];
    assert all[|starts|] == pos + 1;
    forall k | 0 <= k <= |d| && k <= next && SectionStart(d, k) ensures k in all {
      if k <= pos { assert k in starts; }
    }
  }

  method FindStarts(diff: string) returns (starts: seq<nat>)
    ensures StartsExactly(diff, starts, |diff|)
  {
    starts := [];
    if StandsAt(diff, 0, MARK) { starts := [0]; }
    var pos: nat := Find(diff, "\n" + MARK, 0);
    StartsBetween(diff, 0, pos);
    while pos <= |diff|
      invariant pos <= |diff| + 1
      invariant pos <= |diff| ==> StandsAt(diff, pos, "\n" + MARK)
      invariant StartsExactly(diff, starts, pos)
      decreases |diff| + 1 - pos
    {
      var next := Find(diff, "\n" + MARK, pos + 1);
      NextStartFound(diff, starts, pos, next);
      starts := starts + [pos + 1];
      pos := next;
    }
  }

  method SplitDiffByFile(diff: string) returns (out: DiffSplit)
    ensures out == SplitOf(diff)
  {
    var starts := FindStarts(diff);
    if starts == [] {
      NoStartsNoSections(diff);
      return DiffSplit(diff, []);
    }
    var files := DescribeSections(Cuts(diff, starts));
    CutsAreTheSplit(diff, starts);
    out := DiffSplit(diff[..starts[0]], files);
  }

  method DescribeSections(texts: seq<string>) returns (files: seq<FileSection>)
    ensures files == SectionsOf(texts)
  {
    files := [];
    for i := 0 to |texts|
      invariant files == SectionsOf(texts[..i])
    {
      var f := DescribeSection(texts[i]);
      SectionsOfNext(texts, i);
      files := files + [f];
    }
    assert texts[..|texts|] == texts;
  }

  method DescribeSection(text: string) returns (f: FileSection)
    ensures f == SectionOf(text)
  {
    var path, deleted := ComputeSectionPath(text);
    f := FileSection(path, deleted, text);
  }

  lemma SectionsOfNext(texts: seq<string>, i: nat)
    requires i < |texts|
    ensures SectionsOf(texts[..i + 1]) == SectionsOf(texts[..i]) + [SectionOf(texts[i])]
  {
    assert forall k :: 0 <= k < i ==> texts[..i + 1][k] == texts[..i][k];
  }

  lemma NoStartsNoSections(d: string)
    requires StartsExactly(d, [], |d|)
    ensures SplitOf(d) == DiffSplit(d, [])
  {
    assert forall k :: 0 <= k < |d| ==> !SectionStart(d, k);
    assert d + Concat([]) == d;
    SplitUnique(d, d, []);
    assert SectionsOf([]) == [];
  }

  lemma CutsAreTheSplit(d: string, starts: seq<nat>)
    requires starts != [] && StartsExactly(d, starts, |d|)
    ensures SplitOf(d) == DiffSplit(d[..starts[0]], SectionsOf(Cuts(d, starts)))
  {
    CutsSplit(d, starts);
    SplitUnique(d, d[..starts[0]], Cuts(d, starts));
  }

  /** `starts` lists the section starts up to offset `upTo`, in order. */
  ghost predicate StartsExactly(d: string, starts: seq<nat>, upTo: nat) {
    && (forall i, j :: 0 <= i < j < |starts| ==> starts[i] < starts[j])
    && (forall k :: 0 <= k <= |d| && k <= upTo && SectionStart(d, k) ==> k in starts)
    && (forall i :: 0 <= i < |starts| ==> starts[i] <= |d| && starts[i] <= upTo && SectionStart(d, starts[i]))
  }

  lemma StartsBetween(d: string, from: nat, to: nat)
    requires from <= to <= |d| + 1
    requires forall k :: from <= k < to ==> !StandsAt(d, k, "\n" + MARK)
    ensures forall k :: from < k <= to && k <= |d| ==> !SectionStart(d, k)
  {
    forall k | from < k <= to && k <= |d| ensures !SectionStart(d, k) {
      StartAfterNewline(d, k - 1);
      assert !StandsAt(d, k - 1, "\n" + MARK);
    }
  }

  /** The texts between consecutive starts. */
  function Cuts(d: string, starts: seq<nat>): (texts: seq<string>)
    requires forall i, j :: 0 <= i < j < |starts| ==> starts[i] < starts[j]
    requires forall i :: 0 <= i < |starts| ==> starts[i] <= |d|
    ensures |texts| == |starts|
  {
    seq(|starts|, i requires 0 <= i < |starts| =>
      d[starts[i]..if i + 1 < |starts| then starts[i + 1] else |d|])
  }

  lemma CutIsSection(d: string, starts: seq<nat>, i: nat)
    requires i < |starts| && StartsExactly(d, starts, |d|)
    ensures IsSection(Cuts(d, starts)[i])
    ensures i < |starts| - 1 ==> EndsLine(Cuts(d, starts)[i])
  {
    var b := if i + 1 < |starts| then starts[i + 1] else |d|;
    forall k | starts[i] < k < b ensures !SectionStart(d, k) {
      assert forall j :: 0 <= j < |starts| ==> starts[j] <= starts[i] || b <= starts[j];
      assert k !in starts;
    }
    StretchIsSection(d, starts[i], b);
  }

  lemma CutsSplit(d: string, starts: seq<nat>)
    requires starts != [] && StartsExactly(d, starts, |d|)
    ensures IsSplit(d, d[..starts[0]], Cuts(d, starts))
  {
    forall i | 0 <= i < |starts|
      ensures IsSection(Cuts(d, starts)[i]) && (i < |starts| - 1 ==> EndsLine(Cuts(d, starts)[i]))
    {
      CutIsSection(d, starts, i);
    }
    ConcatOfCuts(d, starts);
    assert forall j :: 0 <= j < |starts| ==> starts[0] <= starts[j];
    NoStartsIn(d, starts[0]);
  }

  lemma {:induction false} ConcatOfCuts(d: string, starts: seq<nat>)
    requires starts != []
    requires forall i, j :: 0 <= i < j < |starts| ==> starts[i] < starts[j]
    requires forall i :: 0 <= i < |starts| ==> starts[i] <= |d|
    ensures d == d[..starts[0]] + Concat(Cuts(d, starts))
  {
    var texts := Cuts(d, starts);
    if |starts| == 1 {
      assert texts[1..] == [];
    } else {
      ConcatOfCuts(d, starts[1..]);
      assert texts[1..] == Cuts(d, starts[1..]);
      assert d[..starts[1]] == d[..starts[0]] + texts[0];
    }
  }
}
