/** The pull request's title and description, and the list of omitted files, read back out of the payload. */
module MetaFences {
  import opened Text
  import opened Diff
  import opened DiffRender
  import opened Payload
  import opened Fences

  /** There is something to say about the pull request beside its diff. */
  predicate SomethingToSay(r: ReviewRequest) {
    |r.prTitle| > 0 || |r.prBody| > 0 || |r.omittedFiles| > 0
  }

  /** The lines between the metadata fences: title, heading, description, and the omitted files if there are any. */
  function MetaInside(p: Prose, r: ReviewRequest): seq<string> {
    TextLines("PR title: " + r.prTitle) + ["PR description:"] + LinesOf(r.prBody)
    + if |r.omittedFiles| > 0 then [p.omittedHeader] + EntryLines(r.omittedFiles) else []
  }

  /** The text of those lines. */
  function MetaContent(p: Prose, r: ReviewRequest): string {
    "PR title: " + r.prTitle + "\n" + "PR description:" + "\n" + Block(r.prBody)
    + if |r.omittedFiles| > 0 then p.omittedHeader + "\n" + OmittedText(r.omittedFiles) else ""
  }

  lemma MetaLinesAre(p: Prose, r: ReviewRequest, nonce: string)
    ensures MetaLines(p, r, nonce) == [MetaBegin(nonce)] + MetaInside(p, r) + [MetaEnd(nonce)]
  {
  }

  lemma MetaFencesAreMarked(nonce: string)
    ensures MetaBegin(nonce) != MetaEnd(nonce)
    ensures !Unmarked(MetaBegin(nonce), nonce) && !Unmarked(MetaEnd(nonce), nonce)
    ensures !(FileOpening(nonce) <= MetaBegin(nonce)) && !(FileOpening(nonce) <= MetaEnd(nonce))
    ensures {DiffBegin(nonce), DiffEnd(nonce), FileEnd(nonce)} !! {MetaBegin(nonce), MetaEnd(nonce)}
  {
    FencesDiffer(nonce);
    FenceIsMarked("BEGIN_PR_METADATA_", nonce, "");
    FenceIsMarked("END_PR_METADATA_", nonce, "");
    assert forall w: string :: w + nonce + "" == w + nonce;
    assert MetaBegin(nonce)[0] == 'B' && MetaEnd(nonce)[0] == 'E';
  }

  /** What comes before the metadata, if any. */
  function Opening(p: Prose, prompt: string, r: ReviewRequest, nonce: string): seq<string> {
    TextLines(prompt) + [""] + [Instruction(p, r, nonce)]
  }

  /** What comes after it. */
  function Remainder(r: ReviewRequest, nonce: string): seq<string> {
    [DiffBegin(nonce)] + LinesOf(r.diff) + [DiffEnd(nonce)] + FilesLines(r.contextFiles, nonce)
  }

  /** The metadata with its fences, if there is any. */
  function MetaPart(p: Prose, r: ReviewRequest, nonce: string): seq<string> {
    if SomethingToSay(r) then [MetaBegin(nonce)] + MetaInside(p, r) + [MetaEnd(nonce)] else []
  }

  /** The lines of the payload: the prompt's come first, then an empty one, the instruction, the metadata and the rest. */
  lemma PromptComesFirst(p: Prose, prompt: string, r: ReviewRequest, nonce: string)
    requires OneLine(nonce) && SoundProse(p)
    ensures LinesOf(Assembled(p, prompt, r, nonce)) == Opening(p, prompt, r, nonce) + MetaPart(p, r, nonce) + Remainder(r, nonce)
  {
    PayloadHasLines(p, prompt, r, nonce);
    LeadIs(p, prompt, r, nonce);
    PartsInOrder(Opening(p, prompt, r, nonce), MetaPart(p, r, nonce),
                 DiffBegin(nonce), LinesOf(r.diff), DiffEnd(nonce), FilesLines(r.contextFiles, nonce));
  }

  lemma LeadIs(p: Prose, prompt: string, r: ReviewRequest, nonce: string)
    ensures LeadLines(p, prompt, r, nonce) == Opening(p, prompt, r, nonce) + MetaPart(p, r, nonce)
  {
    MetaLinesAre(p, r, nonce);
  }

  lemma PartsInOrder(opening: seq<string>, meta: seq<string>, begin: string, diff: seq<string>, end: string, files: seq<string>)
    ensures PayloadLineShape(opening + meta, begin, diff, end, files) == opening + meta + ([begin] + diff + [end] + files)
  {
  }

  lemma OpeningUnmarked(p: Prose, prompt: string, r: ReviewRequest, nonce: string)
    requires SoundProse(p) && NonceFree(prompt, r, nonce)
    ensures AllUnmarked(Opening(p, prompt, r, nonce), nonce)
  {
    PlainTextUnmarked(prompt, nonce);
    InstructionIsOneLine(p, r, nonce);
  }

  lemma MetaInsideUnmarked(p: Prose, r: ReviewRequest, nonce: string)
    requires SoundProse(p) && NonceFree("", r, nonce)
    ensures AllUnmarked(MetaInside(p, r), nonce)
  {
    IntroducedTextUnmarked("PR title: ", r.prTitle, nonce);
    LinesLackNonce(r.prBody, nonce);
    EntriesUnmarked(r.omittedFiles, nonce);
    assert "PR description:"[0] == 'P';
  }

  lemma RemainderHasNoMetaFence(prompt: string, r: ReviewRequest, nonce: string, l: string)
    requires NonceFree(prompt, r, nonce) && l in Remainder(r, nonce)
    ensures l != MetaBegin(nonce) && l != MetaEnd(nonce)
  {
    MetaFencesAreMarked(nonce);
    LinesLackNonce(r.diff, nonce);
    FilesAreFenced(r.contextFiles, nonce);
  }

  lemma NoNonceInNothing(prompt: string, r: ReviewRequest, nonce: string)
    requires NonceFree(prompt, r, nonce)
    ensures NonceFree("", r, nonce)
  {
    if Contains("", nonce) { assert StandsAt(prompt, 0, nonce); }
  }

  lemma NoStrayMetaFence(p: Prose, prompt: string, r: ReviewRequest, nonce: string)
    requires SoundProse(p) && NonceFree(prompt, r, nonce)
    ensures Lacks(Opening(p, prompt, r, nonce), MetaInside(p, r), Remainder(r, nonce), MetaBegin(nonce), MetaEnd(nonce))
  {
    NoNonceInNothing(prompt, r, nonce);
    OpeningUnmarked(p, prompt, r, nonce);
    MetaInsideUnmarked(p, r, nonce);
    MetaFencesAreMarked(nonce);
    forall l | l in Remainder(r, nonce) ensures l != MetaBegin(nonce) && l != MetaEnd(nonce) {
      RemainderHasNoMetaFence(prompt, r, nonce, l);
    }
  }

  lemma MetaLinesEnclosed(p: Prose, prompt: string, r: ReviewRequest, nonce: string) returns (b: nat, e: nat)
    requires SoundProse(p) && NonceFree(prompt, r, nonce)
    ensures Enclosed(PayloadLineShape(Opening(p, prompt, r, nonce), MetaBegin(nonce), MetaInside(p, r), MetaEnd(nonce), Remainder(r, nonce)),
                     MetaBegin(nonce), MetaInside(p, r), MetaEnd(nonce), b, e)
  {
    var opening, inside, rest := Opening(p, prompt, r, nonce), MetaInside(p, r), Remainder(r, nonce);
    NoStrayMetaFence(p, prompt, r, nonce);
    MetaFencesAreMarked(nonce);
    EnclosedOnce(opening, MetaBegin(nonce), inside, MetaEnd(nonce), rest);
    b, e := |opening|, |opening| + 1 + |inside|;
  }

  /** The two metadata fences are unique lines, and enclose exactly what there is to say. */
  lemma MetaFencesEncloseTheMeta(p: Prose, prompt: string, r: ReviewRequest, nonce: string) returns (b: nat, e: nat)
    requires SoundProse(p) && NonceFree(prompt, r, nonce) && SomethingToSay(r)
    ensures Enclosed(LinesOf(Assembled(p, prompt, r, nonce)), "BEGIN_PR_METADATA_" + nonce, MetaInside(p, r), "END_PR_METADATA_" + nonce, b, e)
  {
    b, e := MetaLinesEnclosed(p, prompt, r, nonce);
    MetaInOrder(p, prompt, r, nonce);
  }

  lemma MetaInOrder(p: Prose, prompt: string, r: ReviewRequest, nonce: string)
    requires OneLine(nonce) && SoundProse(p) && SomethingToSay(r)
    ensures LinesOf(Assembled(p, prompt, r, nonce))
         == PayloadLineShape(Opening(p, prompt, r, nonce), MetaBegin(nonce), MetaInside(p, r), MetaEnd(nonce), Remainder(r, nonce))
  {
    PromptComesFirst(p, prompt, r, nonce);
    FlattenMeta(Opening(p, prompt, r, nonce), MetaBegin(nonce), MetaInside(p, r), MetaEnd(nonce), Remainder(r, nonce));
  }

  lemma FlattenMeta(opening: seq<string>, begin: string, inside: seq<string>, end: string, rest: seq<string>)
    ensures opening + ([begin] + inside + [end]) + rest == PayloadLineShape(opening, begin, inside, end, rest)
  {
  }

  /** Where there is nothing to say, neither fence is a line. */
  lemma NoMetaNoFences(p: Prose, prompt: string, r: ReviewRequest, nonce: string)
    requires SoundProse(p) && NonceFree(prompt, r, nonce) && !SomethingToSay(r)
    ensures "BEGIN_PR_METADATA_" + nonce !in LinesOf(Assembled(p, prompt, r, nonce))
    ensures "END_PR_METADATA_" + nonce !in LinesOf(Assembled(p, prompt, r, nonce))
  {
    PromptComesFirst(p, prompt, r, nonce);
    NoStrayMetaFence(p, prompt, r, nonce);
    NotInEither(Opening(p, prompt, r, nonce), MetaInside(p, r), Remainder(r, nonce), MetaBegin(nonce), MetaEnd(nonce));
  }

  lemma NotInEither(lead: seq<string>, inside: seq<string>, rest: seq<string>, begin: string, end: string)
    requires Lacks(lead, inside, rest, begin, end)
    ensures begin !in lead + [] + rest && end !in lead + [] + rest
  {
  }

  lemma UnlinesFour(a: seq<string>, b: seq<string>, c: seq<string>, d: seq<string>)
    ensures Unlines(a + b + c + d) == Unlines(a) + Unlines(b) + Unlines(c) + Unlines(d)
  {
    UnlinesAppend(a, b);
    UnlinesAppend(a + b, c);
    UnlinesAppend(a + b + c, d);
  }

  lemma InsideText(p: Prose, r: ReviewRequest)
    requires SoundProse(p)
    ensures Unlines(MetaInside(p, r)) == MetaContent(p, r)
  {
    var title, heading := TextLines("PR title: " + r.prTitle), ["PR description:"];
    UnlinesFour(title, heading, LinesOf(r.prBody), OmittedLines(p, r.omittedFiles));
    UnlinesText("PR title: " + r.prTitle);
    UnlinesOne("PR description:");
    LinesOfBlock(r.prBody);
    UnlinesOmitted(p, r.omittedFiles);
    TitleRegroup("PR title: ", r.prTitle, "PR description:", Block(r.prBody), OmittedList(p, r.omittedFiles));
  }

  lemma TitleRegroup(intro: string, title: string, heading: string, body: string, omitted: string)
    ensures (intro + title + "\n") + (heading + "\n") + body + omitted == intro + title + "\n" + heading + "\n" + body + omitted
  {
  }

  /** A reader gets title, description and omitted files exactly when there is something to read. */
  lemma DecodeMetaOfAssembled(p: Prose, prompt: string, r: ReviewRequest, nonce: string)
    requires SoundProse(p) && NonceFree(prompt, r, nonce)
    ensures DecodeBetween(LinesOf(Assembled(p, prompt, r, nonce)), "BEGIN_PR_METADATA_" + nonce, "END_PR_METADATA_" + nonce)
         == if SomethingToSay(r) then Some(MetaContent(p, r)) else None
  {
    var lines := LinesOf(Assembled(p, prompt, r, nonce));
    if SomethingToSay(r) {
      var b, e := MetaFencesEncloseTheMeta(p, prompt, r, nonce);
      DecodeEnclosed(lines, MetaBegin(nonce), MetaInside(p, r), MetaEnd(nonce), b, e);
      InsideText(p, r);
    } else {
      NoMetaNoFences(p, prompt, r, nonce);
      assert FindLine(lines, MetaBegin(nonce), 0) == |lines|;
    }
  }

  // --- What the instruction says -----------------------------------------------------

  lemma StandsWithin(a: string, word: string, b: string)
    ensures Contains(a + word + b, word)
  {
    assert StandsAt(a + word + b, |a|, word);
  }

  ghost predicate NamesBoth(text: string, begin: string, end: string) {
    Contains(text, begin) && Contains(text, end)
  }

  lemma SentenceNames(intro: string, begin: string, mid: string, end: string, stop: string)
    ensures NamesBoth(Sentence(intro, begin, mid, end, stop), begin, end)
  {
    StandsWithin(intro, begin, mid + end + stop);
    assert Sentence(intro, begin, mid, end, stop) == intro + begin + (mid + end + stop);
    StandsWithin(intro + begin + mid, end, stop);
  }

  lemma WithinNames(a: string, text: string, b: string, begin: string, end: string)
    requires NamesBoth(text, begin, end)
    ensures NamesBoth(a + text + b, begin, end)
  {
    var i :| 0 <= i <= |text| - |begin| && StandsAt(text, i, begin);
    var j :| 0 <= j <= |text| - |end| && StandsAt(text, j, end);
    StandsInside(a, text, b, i, begin);
    StandsInside(a, text, b, j, end);
  }

  lemma StandsInside(a: string, text: string, b: string, i: int, word: string)
    requires StandsAt(text, i, word)
    ensures Contains(a + text + b, word)
  {
    var all := a + text + b;
    assert all[|a| + i..|a| + i + |word|] == text[i..i + |word|];
    assert StandsAt(all, |a| + i, word);
  }

  /** The model is told the fence lines: the diff's always, the others' where they are used. */
  lemma InstructionNamesTheFences(p: Prose, r: ReviewRequest, nonce: string)
    ensures NamesBoth(Instruction(p, r, nonce), DiffBegin(nonce), DiffEnd(nonce))
    ensures SomethingToSay(r) ==> NamesBoth(Instruction(p, r, nonce), MetaBegin(nonce), MetaEnd(nonce))
    ensures r.contextFiles != [] ==> NamesBoth(Instruction(p, r, nonce), FileBegin(nonce), FileEnd(nonce))
  {
    var meta, diff, files, closing := MetaSentence(p, r, nonce), DiffSentence(p, nonce), FileSentence(p, r, nonce), Closing(p, r);
    FourParts(meta, diff, files, closing);
    SentenceNames(p.diffIntro, DiffBegin(nonce), " and ", DiffEnd(nonce), ". ");
    WithinNames(meta, diff, files + closing, DiffBegin(nonce), DiffEnd(nonce));
    if SomethingToSay(r) {
      SentenceNames(p.metaIntro, MetaBegin(nonce), " and ", MetaEnd(nonce), ". ");
      WithinNames("", meta, diff + files + closing, MetaBegin(nonce), MetaEnd(nonce));
    }
    if r.contextFiles != [] {
      SentenceNames(p.fileIntro, FileBegin(nonce), " <path> and ", FileEnd(nonce), " lines. ");
      WithinNames(meta + diff, files, closing, FileBegin(nonce), FileEnd(nonce));
    }
  }

  /** It ends by saying how the regions are to be taken, in the plural if there are more than the diff's. */
  lemma InstructionCloses(p: Prose, r: ReviewRequest, nonce: string)
    ensures var closing := if SomethingToSay(r) || r.contextFiles != [] then p.closingWithExtras else p.closingBare;
      |closing| <= |Instruction(p, r, nonce)|
      && Instruction(p, r, nonce)[|Instruction(p, r, nonce)| - |closing|..] == closing
  {
    EndsWith(MetaSentence(p, r, nonce) + DiffSentence(p, nonce) + FileSentence(p, r, nonce), Closing(p, r));
  }

  lemma EndsWith(head: string, tail: string)
    ensures (head + tail)[|head + tail| - |tail|..] == tail
  {
  }

  lemma FourParts(a: string, b: string, c: string, d: string)
    ensures a + b + c + d == a + b + (c + d) == "" + a + (b + c + d)
  {
  }
}
