/**
  Git's own rendering of a list of file changes, and the proof that reading the changed paths
  out of the rendered diff gives back the list (src/reviewer.cpp:333-412, 454-464).
 */
module DiffRender {
  import opened Text
  import opened Diff
  import opened Trim

  /**
   One file of a diff: the two names on its "diff --git" line and its extended header lines. A
   patch goes on with the two sides of its ---/+++ header (None is /dev/null) and its hunk lines;
   a binary, empty, mode-only or purely renamed file ends there.
   */
  datatype FileDiff =
    | Patch(oldName: string, newName: string, extended: seq<string>,
            oldSide: Option<Side>, newSide: Option<Side>, hunks: seq<string>)
    | HeaderOnly(oldName: string, newName: string, extended: seq<string>, deleted: bool)

  /** A path in a ---/+++ header, and what follows it: nothing, or a tab and anything. */
  datatype Side = Side(path: string, tail: string)

  predicate OneLine(l: string) {
    '\n' !in l
  }

  predicate PlainPath(p: string) {
    p != [] && OneLine(p) && '\t' !in p
  }

  predicate PlainSide(s: Side) {
    PlainPath(s.path) && OneLine(s.tail) && (s.tail == [] || s.tail[0] == '\t')
  }

  function PathOf(side: Option<Side>): Option<string> {
    match side case Some(s) => Some(s.path) case None => None
  }

  /** A header line such as "index 1234..5678": not one that the path scan looks for. */
  predicate PlainHeaderLine(l: string) {
    OneLine(l) && !(MARK <= l)
    && !("--- a/" <= l) && !("+++ b/" <= l) && l != "+++ /dev/null" && !("@@" <= l)
  }

  /** Context, added, removed, hunk header and "no newline" lines; their text is arbitrary. */
  predicate HunkLine(l: string) {
    OneLine(l) && l != [] && l[0] in {' ', '+', '-', '@', '\\'}
  }

  predicate Renderable(f: FileDiff) {
    && OneLine(f.oldName) && OneLine(f.newName)
    && (forall l :: l in f.extended ==> PlainHeaderLine(l))
    && match f
       case Patch(_, _, _, oldSide, newSide, hunks) =>
         && (oldSide.Some? ==> PlainSide(oldSide.value))
         && (newSide.Some? ==> PlainSide(newSide.value))
         && (forall l :: l in hunks ==> HunkLine(l))
       case HeaderOnly(_, newName, _, _) => newName != []
  }

  function Unlines(lines: seq<string>): string {
    if lines == [] then [] else lines[0] + "\n" + Unlines(lines[1..])
  }

  function GitLine(f: FileDiff): string { "diff --git a/" + f.oldName + " b/" + f.newName }

  function OldLine(f: FileDiff): string
    requires f.Patch?
  {
    match f.oldSide case Some(s) => "--- a/" + s.path + s.tail case None => "--- /dev/null"
  }

  function NewLine(f: FileDiff): string
    requires f.Patch?
  {
    match f.newSide case Some(s) => "+++ b/" + s.path + s.tail case None => "+++ /dev/null"
  }

  /** The lines after the "diff --git" line. */
  function BodyLines(f: FileDiff): seq<string> {
    if f.Patch? then f.extended + ([OldLine(f)] + ([NewLine(f)] + f.hunks)) else f.extended
  }

  function Render(f: FileDiff): string {
    GitLine(f) + "\n" + Unlines(BodyLines(f))
  }

  function RenderAll(files: seq<FileDiff>): string {
    if files == [] then [] else Render(files[0]) + RenderAll(files[1..])
  }

  function FirstOccurrences(paths: seq<string>): seq<string> {
    if paths == [] then []
    else
      var before := FirstOccurrences(paths[..|paths| - 1]);
      if paths[|paths| - 1] in before then before else before + [paths[|paths| - 1]]
  }

  /** The new-side path of a file that is not deleted. */
  function NewPath(f: FileDiff): Option<string> {
    match f
    case Patch(_, _, _, _, newSide, _) => PathOf(newSide)
    case HeaderOnly(_, newName, _, deleted) => if deleted then None else Some(newName)
  }

  /** What the source shows for it: without a ---/+++ header, the end of the "diff --git" line. */
  function ShownPath(f: FileDiff): Option<string> {
    match f
    case Patch(_, _, _, _, newSide, _) => PathOf(newSide)
    case HeaderOnly(_, newName, _, _) => if LastName(newName) == [] then None else Some(LastName(newName))
  }

  /** The text after the last " b/", or all of it. */
  function LastName(name: string): string {
    match LastStand(name, " b/", |name|) case Some(b) => name[b + 3..] case None => name
  }

  function PathsBy(files: seq<FileDiff>, path: FileDiff -> Option<string>): seq<string> {
    if files == [] then []
    else
      PathsBy(files[..|files| - 1], path)
      + match path(files[|files| - 1]) case Some(p) => [p] case None => []
  }

  /** New-side paths of the files that are not deleted, in order. */
  function NewPaths(files: seq<FileDiff>): seq<string> { PathsBy(files, NewPath) }
  function ShownPaths(files: seq<FileDiff>): seq<string> { PathsBy(files, ShownPath) }

  /**
   The file is shown as what it is. A header-only deletion is not recognised, so it is read right
   only if its name leaves nothing to show.
   */
  predicate ReadRight(f: FileDiff) {
    match f
    case Patch(_, _, _, _, _, _) => true
    case HeaderOnly(_, newName, _, deleted) =>
      if deleted then StandsAt(newName, |newName| - 3, " b/") else !Contains(newName, " b/")
  }

  // --- A rendered file is one section -----------------------------------------

  lemma LineHasNoInnerStart(l: string, i: nat)
    requires OneLine(l) && SectionStart(l + "\n", i)
    ensures i == 0 && MARK <= l
  {
    var s := l + "\n";
    assert forall k :: 0 <= k < |l| ==> s[k] == l[k];
    assert forall k :: 0 <= k < |MARK| ==> s[k] == s[0..0 + |MARK|][k] == MARK[k];
    assert s[|l|] == '\n' && '\n' !in MARK;
    assert |MARK| <= |l|;
    assert s[..|MARK|] == l[..|MARK|];
  }

  lemma {:induction false} NoStartInLines(lines: seq<string>)
    requires forall l :: l in lines ==> OneLine(l) && !(MARK <= l)
    ensures EndsLine(Unlines(lines))
    ensures forall i :: 0 <= i <= |Unlines(lines)| ==> !SectionStart(Unlines(lines), i)
  {
    if lines != [] {
      var x, y := lines[0] + "\n", Unlines(lines[1..]);
      NoStartInLines(lines[1..]);
      forall i: nat | i <= |x + y| ensures !SectionStart(x + y, i) {
        Junction(x, y, i);
        if SectionStart(x, i) { LineHasNoInnerStart(lines[0], i); }
      }
    }
  }

  lemma LinesMakeASection(first: string, lines: seq<string>)
    requires OneLine(first) && MARK <= first
    requires forall l :: l in lines ==> OneLine(l) && !(MARK <= l)
    ensures IsSection(first + "\n" + Unlines(lines)) && EndsLine(first + "\n" + Unlines(lines))
  {
    var x, y := first + "\n", Unlines(lines);
    NoStartInLines(lines);
    assert StandsAt(x, 0, MARK);
    Junction(x, y, 0);
    forall i: nat | 0 < i < |x + y| ensures !SectionStart(x + y, i) {
      Junction(x, y, i);
      if SectionStart(x, i) { LineHasNoInnerStart(first, i); }
    }
  }

  lemma RenderIsSection(f: FileDiff)
    requires Renderable(f)
    ensures IsSection(Render(f)) && EndsLine(Render(f))
  {
    forall l | l in BodyLines(f) ensures OneLine(l) && !(MARK <= l) {
      assert MARK[0] == 'd';
    }
    LinesMakeASection(GitLine(f), BodyLines(f));
  }

  // --- The path scan reads the header back ------------------------------------

  lemma {:induction false} LineEndIs(l: string, rest: string)
    requires OneLine(l)
    ensures LineEnd(l + "\n" + rest) == |l|
    ensures (l + "\n" + rest)[..|l|] == l && AfterLine(l + "\n" + rest) == rest
  {
    var s := l + "\n" + rest;
    if l != [] {
      assert s[1..] == l[1..] + "\n" + rest;
      LineEndIs(l[1..], rest);
    }
  }

  /** What is stripped is the first tab and all behind it. */
  lemma {:induction false} StripsFromTheTab(p: string, tail: string)
    requires '\t' !in p && (tail == [] || tail[0] == '\t')
    ensures StripTab(p + tail) == p
  {
    if p != [] {
      StripsFromTheTab(p[1..], tail);
      assert (p + tail)[1..] == p[1..] + tail;
    }
  }

  lemma {:induction false} ScanSkips(lines: seq<string>, rest: string, oldPath: string)
    requires forall l :: l in lines ==> PlainHeaderLine(l)
    ensures ScanHeader(Unlines(lines) + rest, oldPath) == ScanHeader(rest, oldPath)
  {
    if lines == [] {
      assert Unlines(lines) + rest == rest;
    } else {
      var tail := Unlines(lines[1..]) + rest;
      assert Unlines(lines) + rest == lines[0] + "\n" + tail;
      assert PlainHeaderLine(lines[0]);
      LineEndIs(lines[0], tail);
      ScanSkips(lines[1..], rest, oldPath);
    }
  }

  lemma ScanReadsNewSide(f: FileDiff, rest: string, oldPath: string)
    requires f.Patch? && Renderable(f)
    ensures ScanHeader(NewLine(f) + "\n" + rest, oldPath)
         == if f.newSide.Some? then Found(f.newSide.value.path, false) else Found(oldPath, true)
  {
    LineEndIs(NewLine(f), rest);
    assert NewLine(f)[0] == '+';
    match f.newSide {
      case Some(side) =>
        StripsFromTheTab(side.path, side.tail);
        assert NewLine(f)[6..] == side.path + side.tail;
      case None =>
        assert NewLine(f)[4] == '/';
    }
  }

  lemma ScanReadsOldSide(f: FileDiff, rest: string)
    requires f.Patch? && Renderable(f)
    ensures ScanHeader(OldLine(f) + "\n" + rest, "") == ScanHeader(rest, PathOf(f.oldSide).GetOr(""))
  {
    LineEndIs(OldLine(f), rest);
    assert OldLine(f)[0] == '-';
    match f.oldSide {
      case Some(side) =>
        StripsFromTheTab(side.path, side.tail);
        assert OldLine(f)[6..] == side.path + side.tail;
      case None =>
        assert OldLine(f)[4] == '/';
    }
  }

  lemma {:induction false} UnlinesAppend(a: seq<string>, b: seq<string>)
    ensures Unlines(a + b) == Unlines(a) + Unlines(b)
  {
    if a == [] {
      assert a + b == b;
    } else {
      UnlinesAppend(a[1..], b);
      assert (a + b)[1..] == a[1..] + b;
      Regroup(a[0] + "\n", Unlines(a[1..]), Unlines(b));
    }
  }

  /** No line that starts with another letter than '-', '+' or '@' matters to the scan. */
  lemma ScanPast(l: string, rest: string, oldPath: string)
    requires OneLine(l) && l != [] && l[0] !in {'-', '+', '@'}
    ensures ScanHeader(l + "\n" + rest, oldPath) == ScanHeader(rest, oldPath)
  {
    LineEndIs(l, rest);
  }

  lemma ScanRender(f: FileDiff)
    requires OneLine(f.oldName) && OneLine(f.newName)
    ensures ScanHeader(Render(f), "") == ScanHeader(Unlines(BodyLines(f)), "")
  {
    assert GitLine(f)[0] == 'd';
    ScanPast(GitLine(f), Unlines(BodyLines(f)), "");
  }

  lemma ScanBody(f: FileDiff)
    requires f.Patch? && Renderable(f)
    ensures ScanHeader(Unlines(BodyLines(f)), "")
         == if f.newSide.Some? then Found(f.newSide.value.path, false) else Found(PathOf(f.oldSide).GetOr(""), true)
  {
    var tail := NewLine(f) + "\n" + Unlines(f.hunks);
    BodyIs(f);
    ScanSkips(f.extended, OldLine(f) + "\n" + tail, "");
    ScanReadsOldSide(f, tail);
    ScanReadsNewSide(f, Unlines(f.hunks), PathOf(f.oldSide).GetOr(""));
  }

  /** The header is read back: the new side's path, or the old side's and that the file is deleted. */
  lemma RenderedPath(f: FileDiff)
    requires f.Patch? && Renderable(f)
    ensures f.newSide.Some? ==> SectionPath(Render(f)) == (f.newSide.value.path, false)
    ensures f.newSide.None? && f.oldSide.Some? ==> SectionPath(Render(f)) == (f.oldSide.value.path, true)
    ensures f.newSide.None? && f.oldSide.None? ==> SectionPath(Render(f)) == ("", true)
  {
    ScanRender(f);
    ScanBody(f);
  }

  lemma BodyIs(f: FileDiff)
    requires f.Patch?
    ensures Unlines(BodyLines(f))
         == Unlines(f.extended) + (OldLine(f) + "\n" + (NewLine(f) + "\n" + Unlines(f.hunks)))
  {
    var newPart := [NewLine(f)] + f.hunks;
    var sides := [OldLine(f)] + newPart;
    UnlinesAppend(f.extended, sides);
    assert sides[1..] == newPart && newPart[1..] == f.hunks;
  }

  // --- The whole diff ----------------------------------------------------------

  function RenderEach(files: seq<FileDiff>): seq<string> {
    seq(|files|, i requires 0 <= i < |files| => Render(files[i]))
  }

  lemma {:induction false} RenderAllConcat(files: seq<FileDiff>)
    ensures RenderAll(files) == Concat(RenderEach(files))
  {
    if files != [] {
      RenderAllConcat(files[1..]);
      assert RenderEach(files)[1..] == RenderEach(files[1..]);
    }
  }

  /** Splitting a rendered diff gives one section per file, byte for byte. */
  lemma RenderedSplits(files: seq<FileDiff>)
    requires forall f :: f in files ==> Renderable(f)
    ensures SplitOf(RenderAll(files)) == DiffSplit("", SectionsOf(RenderEach(files)))
  {
    forall k | 0 <= k < |files| ensures IsSection(RenderEach(files)[k]) && EndsLine(RenderEach(files)[k]) {
      RenderIsSection(files[k]);
    }
    RenderAllConcat(files);
    assert "" + Concat(RenderEach(files)) == Concat(RenderEach(files));
    SplitUnique(RenderAll(files), "", RenderEach(files));
  }

  lemma ShownIsRead(f: FileDiff)
    requires Renderable(f)
    ensures var (path, deleted) := SectionPath(Render(f));
      ShownPath(f) == if deleted || path == [] then None else Some(path)
  {
    if f.Patch? { RenderedPath(f); } else { HeaderOnlyPath(f); }
  }

  lemma {:induction false} ChangedInRendered(files: seq<FileDiff>)
    requires forall f :: f in files ==> Renderable(f)
    ensures ChangedIn(SectionsOf(RenderEach(files))) == FirstOccurrences(ShownPaths(files))
  {
    if files != [] {
      var init, f := files[..|files| - 1], files[|files| - 1];
      ChangedInRendered(init);
      var sections := SectionsOf(RenderEach(files));
      assert sections[..|files| - 1] == SectionsOf(RenderEach(init));
      assert sections[|files| - 1] == SectionOf(Render(f));
      ShownIsRead(f);
      if ShownPath(f).Some? {
        assert ShownPaths(files)[..|ShownPaths(files)| - 1] == ShownPaths(init);
      } else {
        assert ShownPaths(files) == ShownPaths(init);
      }
    }
  }

  /** For every list of files: the changed paths are the paths shown, first occurrences only. */
  lemma ChangedPathsAreShown(files: seq<FileDiff>)
    requires forall f :: f in files ==> Renderable(f)
    ensures ChangedPathsOf(RenderAll(files)) == FirstOccurrences(ShownPaths(files))
  {
    RenderedSplits(files);
    ChangedInRendered(files);
  }

  /** A file is shown as what it is exactly if it is read right. */
  lemma ShownRightExactly(f: FileDiff)
    requires Renderable(f)
    ensures ShownPath(f) == NewPath(f) <==> ReadRight(f)
  {
    if f.HeaderOnly? { LastNameExactly(f.newName); }
  }

  lemma LastNameExactly(name: string)
    requires name != []
    ensures LastName(name) == name <==> !Contains(name, " b/")
    ensures LastName(name) == [] <==> StandsAt(name, |name| - 3, " b/")
  {
    var b := LastStand(name, " b/", |name|);
    if b.Some? {
      assert Contains(name, " b/");
      assert |LastName(name)| == |name| - b.value - 3;
    }
  }

  /**
   Parsing undoes rendering: the changed paths of a rendered diff are the new-side paths of the
   files that are not deleted, first occurrences only, whatever the hunks contain.
   */
  lemma ChangedPathsOfRendered(files: seq<FileDiff>)
    requires forall f :: f in files ==> Renderable(f) && ReadRight(f)
    ensures ChangedPathsOf(RenderAll(files)) == FirstOccurrences(NewPaths(files))
  {
    ChangedPathsAreShown(files);
    forall f | f in files ensures ShownPath(f) == NewPath(f) { ShownRightExactly(f); }
    SamePaths(files, ShownPath, NewPath);
  }

  lemma {:induction false} SamePaths(files: seq<FileDiff>, p: FileDiff -> Option<string>, q: FileDiff -> Option<string>)
    requires forall f :: f in files ==> p(f) == q(f)
    ensures PathsBy(files, p) == PathsBy(files, q)
  {
    if files != [] { SamePaths(files[..|files| - 1], p, q); }
  }

  /** The condition cannot be weakened: the diff of one file is read right exactly under it. */
  lemma OneFileExactly(f: FileDiff)
    requires Renderable(f)
    ensures ChangedPathsOf(RenderAll([f])) == NewPaths([f]) <==> ReadRight(f)
  {
    ChangedPathsAreShown([f]);
    ShownRightExactly(f);
    assert [f][..0] == [];
    OnePath(f, ShownPath);
    OnePath(f, NewPath);
    assert FirstOccurrences(ShownPaths([f])) == ShownPaths([f]) by {
      if ShownPath(f).Some? { assert [ShownPath(f).value][..0] == []; }
    }
  }

  lemma OnePath(f: FileDiff, path: FileDiff -> Option<string>)
    ensures PathsBy([f], path) == match path(f) case Some(p) => [p] case None => []
  {
    assert [f][..0] == [];
  }

  // --- Sections without a ---/+++ header -----------------------------------------

  /** Such a section is never taken for a deletion, and shows what follows the last " b/" of its first line. */
  lemma HeaderOnlyPath(f: FileDiff)
    requires f.HeaderOnly? && Renderable(f)
    ensures SectionPath(Render(f)) == (LastName(f.newName), false)
  {
    NothingScanned(f);
    FirstLinePath(GitLine(f), Unlines(f.extended));
    GitLinePath(f.oldName, f.newName);
  }

  /** Hunks end the scan: where both sides' names are quoted, no line behind the first "@@" is taken for a header. */
  lemma HunksEndTheHeader(first: string, lines: seq<string>, hunk: string, rest: string)
    requires OneLine(first) && first != [] && first[0] !in {'-', '+', '@'} && OneLine(hunk)
    requires forall l :: l in lines ==> PlainHeaderLine(l)
    ensures SectionPath(first + "\n" + (Unlines(lines) + ("@@" + hunk + "\n" + rest))) == (PathOnLine(first), false)
  {
    var tail := "@@" + hunk + "\n" + rest;
    ScanPast(first, Unlines(lines) + tail, "");
    ScanSkips(lines, tail, "");
    LineEndIs("@@" + hunk, rest);
    assert ("@@" + hunk)[0] == '@';
    FirstLinePath(first, Unlines(lines) + tail);
  }

  lemma FirstLinePath(first: string, rest: string)
    requires OneLine(first)
    ensures FallbackPath(first + "\n" + rest) == PathOnLine(first)
  {
    LineEndIs(first, rest);
  }

  lemma GitLinePath(oldName: string, newName: string)
    requires newName != []
    ensures PathOnLine("diff --git a/" + oldName + " b/" + newName) == LastName(newName)
  {
    var head := "diff --git a/" + oldName + " b/";
    assert head[|head| - 3..] == " b/";
    FallbackAfter(head, newName);
  }

  lemma NothingScanned(f: FileDiff)
    requires f.HeaderOnly? && Renderable(f)
    ensures ScanHeader(Render(f), "") == NoHeader
  {
    ScanRender(f);
    ScanSkips(f.extended, "", "");
    assert Unlines(f.extended) + "" == Unlines(f.extended);
  }

  lemma StandsBehind(head: string, name: string, i: nat)
    requires |head| >= 3 && head[|head| - 3..] == " b/" && |head| - 3 < i <= |head + name|
    ensures StandsAt(head + name, i, " b/") <==> StandsAt(name, i - |head|, " b/")
  {
    var first := head + name;
    if i + 3 <= |first| {
      if i < |head| {
        assert first[i] == head[|head| - 3..][i - (|head| - 3)];
        assert first[i..i + 3][0] == first[i];
      } else {
        SliceOfRight(head, name, i - |head|, i - |head| + 3);
      }
    }
  }

  lemma FallbackAfter(head: string, name: string)
    requires |head| >= 3 && head[|head| - 3..] == " b/" && name != []
    ensures PathOnLine(head + name) == LastName(name)
  {
    var first, c := head + name, LastStand(name, " b/", |name|);
    var skip := if c.Some? then c.value + 3 else 0;
    LastStandBehind(head, name, |head| - 3 + skip);
    assert first[|head| + skip..] == name[skip..] == LastName(name);
    assert LastName(name) == [] ==> |first| == |head| + skip;
  }

  lemma LastStandBehind(head: string, name: string, at: nat)
    requires |head| >= 3 && head[|head| - 3..] == " b/"
    requires var c := LastStand(name, " b/", |name|);
      at == |head| - 3 + if c.Some? then c.value + 3 else 0
    ensures LastStand(head + name, " b/", |head + name|) == Some(at)
  {
    var first := head + name;
    forall i: nat | at < i <= |first| ensures !StandsAt(first, i, " b/") {
      StandsBehind(head, name, i);
    }
    if at == |head| - 3 {
      assert first[|head| - 3..|head|] == head[|head| - 3..];
      assert StandsAt(first, at, " b/");
    } else {
      StandsBehind(head, name, at);
    }
  }
}
