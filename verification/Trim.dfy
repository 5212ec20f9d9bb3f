/** Trimming a diff to a byte budget, file section by file section (src/reviewer.cpp:414-464). */
module Trim {
  import opened Text
  import opened Diff

  datatype TrimResult = TrimResult(diff: string, kept: nat, omitted: seq<string>)

  function UnknownFile(): string { "(unknown file)" }

  /** The line that discloses one dropped section. */
  function OmittedEntry(f: FileSection): string {
    (if f.path == [] then UnknownFile() else f.path) + " (" + Decimal(|f.text|) + " bytes)"
  }

  /** The sections that the greedy pass keeps, and those it drops, with `room` bytes left. */
  function Kept(files: seq<FileSection>, room: nat): seq<FileSection> {
    if files == [] then []
    else if |files[0].text| <= room then [files[0]] + Kept(files[1..], room - |files[0].text|)
    else Kept(files[1..], room)
  }

  function Dropped(files: seq<FileSection>, room: nat): seq<FileSection> {
    if files == [] then []
    else if |files[0].text| <= room then Dropped(files[1..], room - |files[0].text|)
    else [files[0]] + Dropped(files[1..], room)
  }

  function TextOf(files: seq<FileSection>): string {
    if files == [] then [] else files[0].text + TextOf(files[1..])
  }

  function Entries(files: seq<FileSection>): seq<string> {
    seq(|files|, i requires 0 <= i < |files| => OmittedEntry(files[i]))
  }

  function TrimSplit(split: DiffSplit, budget: nat): TrimResult {
    if |split.preamble| > budget then TrimResult("", 0, Entries(split.files))
    else
      var kept := Kept(split.files, budget - |split.preamble|);
      TrimResult(
        if kept == [] && split.files != [] then "" else split.preamble + TextOf(kept),
        |kept|,
        Entries(Dropped(split.files, budget - |split.preamble|)))
  }

  function TrimOf(diff: string, budget: nat): TrimResult {
    TrimSplit(SplitOf(diff), budget)
  }

  method TrimDiffToBudget(diff: string, budget: nat) returns (out: TrimResult)
    ensures out == TrimOf(diff, budget)
  {
    var split := SplitDiffByFile(diff);
    out := TrimSections(split, budget);
  }

  method TrimSections(split: DiffSplit, budget: nat) returns (out: TrimResult)
    ensures out == TrimSplit(split, budget)
  {
    var used := |split.preamble|;
    if used > budget {
      var all := ListOmitted(split.files);
      return TrimResult("", 0, all);
    }
    var text, kept, omitted := KeepWhatFits(split.files, split.preamble, budget);
    out := TrimResult(if kept > 0 || split.files == [] then text else "", kept, omitted);
  }

  method ListOmitted(files: seq<FileSection>) returns (omitted: seq<string>)
    ensures omitted == Entries(files)
  {
    omitted := [];
    for i := 0 to |files|
      invariant omitted == Entries(files[..i])
    {
      omitted := omitted + [OmittedEntry(files[i])];
    }
    assert files[..|files|] == files;
  }

  /** The greedy pass, starting from a text that fits. */
  method KeepWhatFits(files: seq<FileSection>, start: string, budget: nat)
    returns (keptText: string, kept: nat, omitted: seq<string>)
    requires |start| <= budget
    ensures keptText == start + TextOf(Kept(files, budget - |start|)) && kept == |Kept(files, budget - |start|)|
    ensures omitted == Entries(Dropped(files, budget - |start|))
  {
    var used := |start|;
    keptText, kept, omitted := start, 0, [];
    ghost var room := budget - used;
    ghost var keptFiles: seq<FileSection>, droppedFiles: seq<FileSection> := [], [];
    assert files[0..] == files && start + TextOf([]) == start;
    for i := 0 to |files|
      invariant used <= budget && kept == |keptFiles|
      invariant keptText == start + TextOf(keptFiles)
      invariant omitted == Entries(droppedFiles)
      invariant Kept(files, room) == keptFiles + Kept(files[i..], budget - used)
      invariant Dropped(files, room) == droppedFiles + Dropped(files[i..], budget - used)
    {
      var f := files[i];
      KeepOne(files, i, budget - used);
      if |f.text| <= budget - used {
        TextOfAppend(keptFiles, f);
        Regroup(start, TextOf(keptFiles), f.text);
        Regroup(keptFiles, [f], Kept(files[i + 1..], budget - used - |f.text|));
        keptFiles := keptFiles + [f];
        keptText := keptText + f.text;
        used := used + |f.text|;
        kept := kept + 1;
      } else {
        Regroup(droppedFiles, [f], Dropped(files[i + 1..], budget - used));
        EntriesAppend(droppedFiles, f);
        droppedFiles := droppedFiles + [f];
        omitted := omitted + [OmittedEntry(f)];
      }
    }
    assert files[|files|..] == [];
    assert Kept(files, room) == keptFiles && Dropped(files, room) == droppedFiles;
  }

  lemma EntriesAppend(files: seq<FileSection>, f: FileSection)
    ensures Entries(files + [f]) == Entries(files) + [OmittedEntry(f)]
  {
  }

  lemma KeepOne(files: seq<FileSection>, i: nat, room: nat)
    requires i < |files|
    ensures |files[i].text| <= room ==>
      && Kept(files[i..], room) == [files[i]] + Kept(files[i + 1..], room - |files[i].text|)
      && Dropped(files[i..], room) == Dropped(files[i + 1..], room - |files[i].text|)
    ensures |files[i].text| > room ==>
      && Kept(files[i..], room) == Kept(files[i + 1..], room)
      && Dropped(files[i..], room) == [files[i]] + Dropped(files[i + 1..], room)
  {
    assert files[i..][0] == files[i] && files[i..][1..] == files[i + 1..];
  }

  lemma {:induction false} TextOfAppend(files: seq<FileSection>, f: FileSection)
    ensures TextOf(files + [f]) == TextOf(files) + f.text
  {
    var all := files + [f];
    if files == [] {
      assert TextOf(all) == f.text + TextOf([]);
    } else {
      TextOfAppend(files[1..], f);
      assert all[1..] == files[1..] + [f];
    }
  }

  // --- Which sections are kept ----------------------------------------------

  /** Bytes of the sections before `i` that the pass keeps. */
  function BytesKeptBefore(files: seq<FileSection>, room: nat, i: nat): nat
    requires i <= |files|
  {
    |TextOf(Kept(files[..i], room))|
  }

  lemma {:induction false} KeptFits(files: seq<FileSection>, room: nat)
    ensures |TextOf(Kept(files, room))| <= room
  {
    if files != [] {
      if |files[0].text| <= room {
        KeptFits(files[1..], room - |files[0].text|);
      } else {
        KeptFits(files[1..], room);
      }
    }
  }

  lemma {:induction false} KeptAppend(files: seq<FileSection>, f: FileSection, room: nat)
    ensures |TextOf(Kept(files, room))| <= room
    ensures Kept(files + [f], room)
         == Kept(files, room) + if |f.text| <= room - |TextOf(Kept(files, room))| then [f] else []
  {
    KeptFits(files, room);
    var all := files + [f];
    if files != [] {
      assert all[1..] == files[1..] + [f];
      if |files[0].text| <= room {
        KeptAppend(files[1..], f, room - |files[0].text|);
      } else {
        KeptAppend(files[1..], f, room);
      }
    }
  }

  /** A section is kept exactly when it fits what the sections kept before it have left. */
  lemma KeptExactlyWhenItFits(files: seq<FileSection>, room: nat, i: nat)
    requires i < |files|
    ensures Kept(files[..i + 1], room)
         == Kept(files[..i], room) + if BytesKeptBefore(files, room, i) + |files[i].text| <= room then [files[i]] else []
  {
    assert files[..i + 1] == files[..i] + [files[i]];
    KeptAppend(files[..i], files[i], room);
  }

  /** The other way round for what is dropped. */
  lemma {:induction false} DroppedExactlyWhenItDoesNotFit(files: seq<FileSection>, room: nat, i: nat)
    requires i < |files|
    ensures Dropped(files[..i + 1], room)
         == Dropped(files[..i], room) + if BytesKeptBefore(files, room, i) + |files[i].text| <= room then [] else [files[i]]
  {
    assert files[..i + 1] == files[..i] + [files[i]];
    KeptFits(files[..i], room);
    DroppedAppend(files[..i], files[i], room);
  }

  lemma {:induction false} DroppedAppend(files: seq<FileSection>, f: FileSection, room: nat)
    ensures Dropped(files + [f], room)
         == Dropped(files, room) + if |f.text| <= room - |TextOf(Kept(files, room))| then [] else [f]
  {
    var all := files + [f];
    if files != [] {
      assert all[1..] == files[1..] + [f];
      DroppedAppend(files[1..], f, if |files[0].text| <= room then room - |files[0].text| else room);
    }
  }

  ghost predicate SomeFits(files: seq<FileSection>, room: nat) {
    exists f :: f in files && |f.text| <= room
  }

  /** The preamble fits, and some section fits beside it. */
  ghost predicate AnySectionFits(diff: string, budget: nat) {
    |SplitOf(diff).preamble| <= budget && SomeFits(SplitOf(diff).files, budget - |SplitOf(diff).preamble|)
  }

  /** Something is kept exactly when some section fits on its own. */
  lemma {:induction false} KeptIfSomethingFits(files: seq<FileSection>, room: nat)
    ensures Kept(files, room) != [] <==> SomeFits(files, room)
  {
    if files != [] {
      assert files[0] in files;
      if |files[0].text| > room {
        KeptIfSomethingFits(files[1..], room);
        assert files == [files[0]] + files[1..];
      }
    }
  }

  /**
   What a trim keeps and lists: nothing if the preamble alone is over the budget, else exactly what
   the greedy pass keeps and drops; and it keeps something exactly when some section fits.
   */
  lemma TrimKeepsWhatFits(diff: string, budget: nat)
    ensures TrimOf(diff, budget).kept > 0 <==> AnySectionFits(diff, budget)
    ensures var split, out := SplitOf(diff), TrimOf(diff, budget);
      if |split.preamble| > budget then out.kept == 0 && out.diff == "" && out.omitted == Entries(split.files)
      else
        var room := budget - |split.preamble|;
        && out.kept == |Kept(split.files, room)| && out.omitted == Entries(Dropped(split.files, room))
        && (out.kept > 0 ==> out.diff == split.preamble + TextOf(Kept(split.files, room)))
        && (out.kept == 0 && split.files != [] ==> out.diff == "")
  {
    var split := SplitOf(diff);
    if |split.preamble| <= budget { KeptIfSomethingFits(split.files, budget - |split.preamble|); }
  }

  /** Equal entries name the same path, or both none, and the same size. */
  lemma EntriesTellPathAndSize(f: FileSection, g: FileSection)
    requires OmittedEntry(f) == OmittedEntry(g) && f.path != UnknownFile() && g.path != UnknownFile()
    ensures f.path == g.path && |f.text| == |g.text|
  {
    var m, n := Decimal(|f.text|), Decimal(|g.text|);
    var a, b := if f.path == [] then UnknownFile() else f.path, if g.path == [] then UnknownFile() else g.path;
    EntryBySpaces(a, m);
    EntryBySpaces(b, n);
    SplitAtLast(a + [' '] + ("(" + m), "bytes)", b + [' '] + ("(" + n), "bytes)", ' ');
    SplitAtLast(a, "(" + m, b, "(" + n, ' ');
    assert ("(" + m)[1..] == m && ("(" + n)[1..] == n;
    DecimalInjective(|f.text|, |g.text|);
  }

  lemma UnknownFileEntry(f: FileSection)
    requires f.path == ""
    ensures OmittedEntry(f) == "(unknown file) (" + Decimal(|f.text|) + " bytes)"
  {
    assert "(unknown file)" + " (" == "(unknown file) (";
  }

  lemma EntryBySpaces(path: string, size: string)
    ensures path + " (" + size + " bytes)" == path + [' '] + ("(" + size) + [' '] + "bytes)"
  {
  }

  // --- Conservation ----------------------------------------------------------

  lemma {:induction false} KeptPlusDropped(files: seq<FileSection>, room: nat)
    ensures |TextOf(Kept(files, room))| + |TextOf(Dropped(files, room))| == |TextOf(files)|
    ensures |Kept(files, room)| + |Dropped(files, room)| == |files|
  {
    if files != [] {
      KeptPlusDropped(files[1..], if |files[0].text| <= room then room - |files[0].text| else room);
    }
  }

  lemma {:induction false} TextOfSections(texts: seq<string>)
    ensures TextOf(SectionsOf(texts)) == Concat(texts)
  {
    if texts != [] {
      TextOfSections(texts[1..]);
      assert SectionsOf(texts)[1..] == SectionsOf(texts[1..]);
    }
  }

  lemma SplitKeepsBytes(diff: string)
    ensures diff == SplitOf(diff).preamble + TextOf(SplitOf(diff).files)
  {
    SplitExists(diff);
    TextOfSections(Sections(diff));
  }

  /** Every section is either kept or disclosed, and no byte is lost between the two. */
  lemma TrimAccountsForEverything(diff: string, budget: nat)
    ensures |TrimOf(diff, budget).diff| <= budget
    ensures TrimOf(diff, budget).kept + |TrimOf(diff, budget).omitted| == |SplitOf(diff).files|
    ensures |SplitOf(diff).preamble| <= budget ==>
      var room, files := budget - |SplitOf(diff).preamble|, SplitOf(diff).files;
      |SplitOf(diff).preamble| + |TextOf(Kept(files, room))| + |TextOf(Dropped(files, room))| == |diff|
  {
    SplitKeepsBytes(diff);
    if |SplitOf(diff).preamble| <= budget {
      KeptPlusDropped(SplitOf(diff).files, budget - |SplitOf(diff).preamble|);
      KeptFits(SplitOf(diff).files, budget - |SplitOf(diff).preamble|);
    }
  }

  lemma {:induction false} AllKept(files: seq<FileSection>, room: nat)
    requires |TextOf(files)| <= room
    ensures Kept(files, room) == files && Dropped(files, room) == []
  {
    if files != [] { AllKept(files[1..], room - |files[0].text|); }
  }

  /** A diff within the budget comes back unchanged. */
  lemma TrimOfSmallDiff(diff: string, budget: nat)
    requires |diff| <= budget
    ensures TrimOf(diff, budget) == TrimResult(diff, |SplitOf(diff).files|, [])
  {
    SplitKeepsBytes(diff);
    AllKept(SplitOf(diff).files, budget - |SplitOf(diff).preamble|);
  }

  // --- Splitting what was trimmed -------------------------------------------

  /** Every section is `whole`, and every section but the last is `lined`. */
  ghost predicate Orderly(files: seq<FileSection>, whole: FileSection -> bool, lined: FileSection -> bool) {
    && (forall f :: f in files ==> whole(f))
    && (forall k :: 0 <= k < |files| - 1 ==> lined(files[k]))
  }

  /** A section that is not last among all sections is not last among the kept ones unless all later ones go. */
  lemma {:induction false} KeptStaysOrderly(files: seq<FileSection>, room: nat, whole: FileSection -> bool, lined: FileSection -> bool)
    requires Orderly(files, whole, lined)
    ensures Orderly(Kept(files, room), whole, lined)
  {
    if files != [] {
      var f, rest := files[0], files[1..];
      assert forall k :: 0 <= k < |rest| ==> rest[k] == files[k + 1];
      if |f.text| <= room {
        KeptStaysOrderly(rest, room - |f.text|, whole, lined);
        var kept := Kept(rest, room - |f.text|);
        KeptComeFrom(rest, room - |f.text|);
        assert kept != [] ==> kept[0] in rest;
        assert forall k :: 1 <= k < |kept| + 1 ==> ([f] + kept)[k] == kept[k - 1];
      } else {
        KeptStaysOrderly(rest, room, whole, lined);
      }
    }
  }

  ghost predicate WholeSection(f: FileSection) {
    IsSection(f.text) && f == SectionOf(f.text)
  }

  ghost predicate LinedSection(f: FileSection) {
    EndsLine(f.text)
  }

  ghost predicate CleanSections(files: seq<FileSection>) {
    Orderly(files, WholeSection, LinedSection)
  }

  ghost predicate CleanSplit(split: DiffSplit) {
    && CleanSections(split.files)
    && (split.files != [] ==> EndsLine(split.preamble))
    && (forall i :: 0 <= i < |split.preamble| ==> !SectionStart(split.preamble, i))
  }

  lemma SplitIsClean(diff: string)
    ensures CleanSplit(SplitOf(diff))
  {
    SplitExists(diff);
  }

  lemma CleanTexts(files: seq<FileSection>) returns (texts: seq<string>)
    requires CleanSections(files)
    ensures |texts| == |files| && SectionsOf(texts) == files && Concat(texts) == TextOf(files)
    ensures forall k :: 0 <= k < |texts| ==> IsSection(texts[k])
    ensures forall k :: 0 <= k < |texts| - 1 ==> EndsLine(texts[k])
  {
    texts := seq(|files|, i requires 0 <= i < |files| => files[i].text);
    forall k | 0 <= k < |files| ensures IsSection(texts[k]) && SectionOf(texts[k]) == files[k] {
      assert files[k] in files;
      assert WholeSection(files[k]);
    }
    forall k | 0 <= k < |files| - 1 ensures EndsLine(texts[k]) {
      assert LinedSection(files[k]);
    }
    assert SectionsOf(texts) == files;
    TextOfSections(texts);
  }

  lemma CleanSectionsSplit(d: string, preamble: string, files: seq<FileSection>)
    requires files != [] && CleanSections(files)
    requires EndsLine(preamble) && forall i :: 0 <= i < |preamble| ==> !SectionStart(preamble, i)
    requires d == preamble + TextOf(files)
    ensures SplitOf(d) == DiffSplit(preamble, files)
  {
    var texts := CleanTexts(files);
    SplitUnique(d, preamble, texts);
  }

  lemma TrimSplitsIntoKept(split: DiffSplit, budget: nat)
    requires CleanSplit(split) && TrimSplit(split, budget).kept > 0
    ensures SplitOf(TrimSplit(split, budget).diff)
         == DiffSplit(split.preamble, Kept(split.files, budget - |split.preamble|))
  {
    var kept := Kept(split.files, budget - |split.preamble|);
    KeptStaysOrderly(split.files, budget - |split.preamble|, WholeSection, LinedSection);
    CleanSectionsSplit(split.preamble + TextOf(kept), split.preamble, kept);
  }

  /**
   When something is kept, splitting the trimmed diff again gives the preamble and exactly the
   kept sections, in order: no section is created, merged or reparsed differently at a junction.
   */
  lemma TrimmedSplitsIntoKept(diff: string, budget: nat)
    requires TrimOf(diff, budget).kept > 0
    ensures |SplitOf(diff).preamble| <= budget
    ensures SplitOf(TrimOf(diff, budget).diff)
         == DiffSplit(SplitOf(diff).preamble, Kept(SplitOf(diff).files, budget - |SplitOf(diff).preamble|))
  {
    SplitIsClean(diff);
    TrimSplitsIntoKept(SplitOf(diff), budget);
  }

  // --- Changed paths ----------------------------------------------------------

  function ChangedIn(files: seq<FileSection>): seq<string> {
    if files == [] then []
    else
      var before := ChangedIn(files[..|files| - 1]);
      var f := files[|files| - 1];
      if f.deleted || f.path == [] || f.path in before then before else before + [f.path]
  }

  /** New-side paths of the files a diff changes, first occurrences only. */
  function ChangedPathsOf(diff: string): seq<string> {
    ChangedIn(SplitOf(diff).files)
  }

  method ChangedPaths(diff: string) returns (out: seq<string>)
    ensures out == ChangedPathsOf(diff)
  {
    var split := SplitDiffByFile(diff);
    out := CollectChanged(split.files);
  }

  method CollectChanged(files: seq<FileSection>) returns (out: seq<string>)
    ensures out == ChangedIn(files)
  {
    out := [];
    var seen: set<string> := {};
    for i := 0 to |files|
      invariant out == ChangedIn(files[..i])
      invariant forall p :: p in seen <==> p in out
    {
      var f := files[i];
      assert files[..i + 1][..i] == files[..i];
      if f.deleted || f.path == [] { continue; }
      if f.path !in seen {
        seen := seen + {f.path};
        out := out + [f.path];
      }
    }
    assert files[..|files|] == files;
  }

  /** The paths are exactly those of live sections, each once. */
  lemma {:induction false} ChangedInExactly(files: seq<FileSection>)
    ensures forall p :: p in ChangedIn(files) <==> exists f :: f in files && !f.deleted && f.path == p && p != []
    ensures forall i, j :: 0 <= i < j < |ChangedIn(files)| ==> ChangedIn(files)[i] != ChangedIn(files)[j]
  {
    if files != [] {
      var init, f := files[..|files| - 1], files[|files| - 1];
      ChangedInExactly(init);
      assert files == init + [f];
      assert forall g :: g in files <==> g in init || g == f;
    }
  }

  lemma FewerSectionsFewerPaths(some: seq<FileSection>, all: seq<FileSection>)
    requires forall f :: f in some ==> f in all
    ensures forall p :: p in ChangedIn(some) ==> p in ChangedIn(all)
  {
    ChangedInExactly(some);
    ChangedInExactly(all);
  }

  lemma {:induction false} KeptComeFrom(files: seq<FileSection>, room: nat)
    ensures forall f :: f in Kept(files, room) ==> f in files
  {
    if files != [] {
      KeptComeFrom(files[1..], if |files[0].text| <= room then room - |files[0].text| else room);
    }
  }

  /** Trimming never makes a path appear. (It can change the order of the paths.) */
  lemma TrimmedPathsAreChangedPaths(diff: string, budget: nat)
    requires TrimOf(diff, budget).kept > 0
    ensures forall p :: p in ChangedPathsOf(TrimOf(diff, budget).diff) ==> p in ChangedPathsOf(diff)
  {
    TrimmedSplitsIntoKept(diff, budget);
    KeptPathsAreChanged(SplitOf(diff).files, budget - |SplitOf(diff).preamble|);
  }

  lemma KeptPathsAreChanged(files: seq<FileSection>, room: nat)
    ensures forall p :: p in ChangedIn(Kept(files, room)) ==> p in ChangedIn(files)
  {
    KeptComeFrom(files, room);
    FewerSectionsFewerPaths(Kept(files, room), files);
  }
}
