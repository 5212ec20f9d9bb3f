/**
  Why the fences hold: if the nonce occurs in no piece of the payload, the fenced regions can be
  read back out of the assembled text, line by line, and nothing inside them can end them early.
 */
module Fences {
  import opened Text
  import opened Diff
  import opened DiffRender
  import opened Payload

  /** The lines that `text` and a newline contribute. */
  function TextLines(text: string): seq<string> {
    LinesOf(text + "\n")
  }

  function EntryLines(entries: seq<string>): seq<string> {
    if entries == [] then [] else TextLines("- " + entries[0]) + EntryLines(entries[1..])
  }

  function OmittedLines(p: Prose, entries: seq<string>): seq<string> {
    if entries == [] then [] else [p.omittedHeader] + EntryLines(entries)
  }

  function MetaLineShape(begin: string, intro: string, title: string, heading: string, body: string,
                         omitted: seq<string>, end: string): seq<string>
  {
    [begin] + TextLines(intro + title) + [heading] + LinesOf(body) + omitted + [end]
  }

  function MetaLines(p: Prose, r: ReviewRequest, nonce: string): seq<string> {
    MetaLineShape(MetaBegin(nonce), "PR title: ", r.prTitle, "PR description:", r.prBody,
                  OmittedLines(p, r.omittedFiles), MetaEnd(nonce))
  }

  function LeadLines(p: Prose, prompt: string, r: ReviewRequest, nonce: string): seq<string> {
    LeadLineShape(prompt, Instruction(p, r, nonce), if HasMeta(r) then MetaLines(p, r, nonce) else [])
  }

  function LeadLineShape(prompt: string, instruction: string, meta: seq<string>): seq<string> {
    TextLines(prompt) + [""] + [instruction] + meta
  }

  function FileLineShape(opening: string, path: string, content: string, end: string): seq<string> {
    [opening + path] + LinesOf(content) + [end]
  }

  function FileLines(cf: ContextFile, nonce: string): seq<string> {
    FileLineShape(FileOpening(nonce), SanitizeFencePath(cf.path), cf.content, FileEnd(nonce))
  }

  function FilesLines(files: seq<ContextFile>, nonce: string): seq<string> {
    if files == [] then [] else FileLines(files[0], nonce) + FilesLines(files[1..], nonce)
  }

  function PayloadLines(p: Prose, prompt: string, r: ReviewRequest, nonce: string): seq<string> {
    PayloadLineShape(LeadLines(p, prompt, r, nonce), DiffBegin(nonce), LinesOf(r.diff), DiffEnd(nonce), FilesLines(r.contextFiles, nonce))
  }

  function PayloadLineShape(lead: seq<string>, begin: string, diff: seq<string>, end: string, files: seq<string>): seq<string> {
    lead + [begin] + diff + [end] + files
  }

  ghost predicate AllOneLine(lines: seq<string>) {
    forall l :: l in lines ==> OneLine(l)
  }

  // --- The lines make up the text ------------------------------------------------

  lemma UnlinesOne(l: string)
    ensures Unlines([l]) == l + "\n"
  {
    assert [l][1..] == [];
    assert l + "\n" + [] == l + "\n";
  }

  lemma UnlinesText(text: string)
    ensures Unlines(TextLines(text)) == text + "\n" && AllOneLine(TextLines(text))
  {
    LinesOfBlock(text + "\n");
  }

  lemma {:induction false} UnlinesEntries(entries: seq<string>)
    ensures Unlines(EntryLines(entries)) == OmittedText(entries) && AllOneLine(EntryLines(entries))
  {
    if entries != [] {
      UnlinesText("- " + entries[0]);
      UnlinesEntries(entries[1..]);
      UnlinesAppend(TextLines("- " + entries[0]), EntryLines(entries[1..]));
    }
  }

  lemma UnlinesOmitted(p: Prose, entries: seq<string>)
    requires SoundProse(p)
    ensures Unlines(OmittedLines(p, entries)) == OmittedList(p, entries) && AllOneLine(OmittedLines(p, entries))
  {
    UnlinesEntries(entries);
    UnlinesCons(p.omittedHeader, EntryLines(entries));
  }

  lemma UnlinesSix(a: seq<string>, b: seq<string>, c: seq<string>, d: seq<string>, e: seq<string>, f: seq<string>)
    ensures Unlines(a + b + c + d + e + f) == Unlines(a) + Unlines(b) + Unlines(c) + Unlines(d) + Unlines(e) + Unlines(f)
  {
    UnlinesAppend(a, b);
    UnlinesAppend(a + b, c);
    UnlinesAppend(a + b + c, d);
    UnlinesAppend(a + b + c + d, e);
    UnlinesAppend(a + b + c + d + e, f);
  }

  lemma MetaRegroup(begin: string, intro: string, title: string, heading: string, body: string, omitted: string, end: string)
    ensures (begin + "\n") + (intro + title + "\n") + (heading + "\n") + body + omitted + (end + "\n")
         == MetaShape(begin, intro, title, heading, body, omitted, end)
  {
  }

  lemma MetaPieces(begin: string, intro: string, title: string, heading: string, body: string,
                   omitted: seq<string>, end: string)
    requires OneLine(begin) && OneLine(heading) && OneLine(end) && AllOneLine(omitted)
    ensures Unlines(MetaLineShape(begin, intro, title, heading, body, omitted, end))
         == MetaShape(begin, intro, title, heading, Block(body), Unlines(omitted), end)
    ensures AllOneLine(MetaLineShape(begin, intro, title, heading, body, omitted, end))
  {
    UnlinesOne(begin);
    UnlinesText(intro + title);
    UnlinesOne(heading);
    LinesOfBlock(body);
    UnlinesOne(end);
    UnlinesSix([begin], TextLines(intro + title), [heading], LinesOf(body), omitted, [end]);
    MetaRegroup(begin, intro, title, heading, Block(body), Unlines(omitted), end);
  }

  lemma UnlinesMeta(p: Prose, r: ReviewRequest, nonce: string)
    requires OneLine(nonce) && SoundProse(p)
    ensures Unlines(MetaLines(p, r, nonce)) == MetaText(p, r, nonce) && AllOneLine(MetaLines(p, r, nonce))
  {
    UnlinesOmitted(p, r.omittedFiles);
    MetaPieces(MetaBegin(nonce), "PR title: ", r.prTitle, "PR description:", r.prBody,
               OmittedLines(p, r.omittedFiles), MetaEnd(nonce));
  }

  lemma SentenceIsOneLine(intro: string, begin: string, mid: string, end: string, stop: string)
    requires OneLine(intro) && OneLine(begin) && OneLine(mid) && OneLine(end) && OneLine(stop) && StartsPlainly(intro)
    ensures OneLine(Sentence(intro, begin, mid, end, stop))
    ensures StartsPlainly(Sentence(intro, begin, mid, end, stop))
  {
  }

  lemma FencesAreLines(nonce: string)
    requires OneLine(nonce)
    ensures OneLine(MetaBegin(nonce)) && OneLine(MetaEnd(nonce)) && OneLine(DiffBegin(nonce)) && OneLine(DiffEnd(nonce))
    ensures OneLine(FileBegin(nonce)) && OneLine(FileEnd(nonce))
  {
  }

  lemma InstructionIsOneLine(p: Prose, r: ReviewRequest, nonce: string)
    requires OneLine(nonce) && SoundProse(p)
    ensures OneLine(Instruction(p, r, nonce)) && StartsPlainly(Instruction(p, r, nonce))
  {
    FencesAreLines(nonce);
    SentenceIsOneLine(p.diffIntro, DiffBegin(nonce), " and ", DiffEnd(nonce), ". ");
    if HasMeta(r) { SentenceIsOneLine(p.metaIntro, MetaBegin(nonce), " and ", MetaEnd(nonce), ". "); }
    SentencesMakeALine(MetaSentence(p, r, nonce), DiffSentence(p, nonce), FileSentence(p, r, nonce), Closing(p, r));
  }

  lemma SentencesMakeALine(a: string, b: string, c: string, d: string)
    requires OneLine(a) && OneLine(b) && OneLine(c) && OneLine(d) && (a == [] || StartsPlainly(a)) && StartsPlainly(b)
    ensures OneLine(a + b + c + d) && StartsPlainly(a + b + c + d)
  {
    assert (a + b + c + d)[0] == if a == [] then b[0] else a[0];
  }

  lemma LeadPieces(prompt: string, instruction: string, meta: seq<string>)
    requires OneLine(instruction) && AllOneLine(meta)
    ensures Unlines(LeadLineShape(prompt, instruction, meta)) == LeadShape(prompt, instruction, Unlines(meta))
    ensures AllOneLine(LeadLineShape(prompt, instruction, meta))
  {
    UnlinesText(prompt);
    LinesThenTwo(TextLines(prompt), "", instruction, meta);
    assert prompt + "\n" + "" + "\n" == prompt + "\n" + "\n";
  }

  lemma LinesThenTwo(lines: seq<string>, a: string, b: string, rest: seq<string>)
    ensures Unlines(lines + [a] + [b] + rest) == Unlines(lines) + a + "\n" + b + "\n" + Unlines(rest)
  {
    UnlinesOne(a);
    UnlinesOne(b);
    UnlinesAppend(lines, [a]);
    UnlinesAppend(lines + [a], [b]);
    UnlinesAppend(lines + [a] + [b], rest);
  }

  lemma UnlinesLead(p: Prose, prompt: string, r: ReviewRequest, nonce: string)
    requires OneLine(nonce) && SoundProse(p)
    ensures Unlines(LeadLines(p, prompt, r, nonce)) == LeadText(p, prompt, r, nonce)
    ensures AllOneLine(LeadLines(p, prompt, r, nonce))
  {
    var meta := if HasMeta(r) then MetaLines(p, r, nonce) else [];
    if HasMeta(r) { UnlinesMeta(p, r, nonce); }
    InstructionIsOneLine(p, r, nonce);
    LeadPieces(prompt, Instruction(p, r, nonce), meta);
  }

  lemma FilePieces(opening: string, path: string, content: string, end: string)
    requires OneLine(opening) && OneLine(path) && OneLine(end)
    ensures Unlines(FileLineShape(opening, path, content, end)) == FileShape(opening, path, Block(content), end)
    ensures AllOneLine(FileLineShape(opening, path, content, end))
  {
    var head := opening + path;
    UnlinesOne(head);
    LinesOfBlock(content);
    UnlinesOne(end);
    UnlinesAppend([head], LinesOf(content));
    UnlinesAppend([head] + LinesOf(content), [end]);
  }

  lemma UnlinesFile(cf: ContextFile, nonce: string)
    requires OneLine(nonce)
    ensures Unlines(FileLines(cf, nonce)) == FileText(cf, nonce) && AllOneLine(FileLines(cf, nonce))
  {
    FilePieces(FileOpening(nonce), SanitizeFencePath(cf.path), cf.content, FileEnd(nonce));
  }

  lemma {:induction false} UnlinesFiles(files: seq<ContextFile>, nonce: string)
    requires OneLine(nonce)
    ensures Unlines(FilesLines(files, nonce)) == FilesText(files, nonce) && AllOneLine(FilesLines(files, nonce))
  {
    if files != [] {
      UnlinesFile(files[0], nonce);
      UnlinesFiles(files[1..], nonce);
      UnlinesAppend(FileLines(files[0], nonce), FilesLines(files[1..], nonce));
    }
  }

  lemma PayloadPieces(lead: seq<string>, begin: string, diff: seq<string>, end: string, files: seq<string>)
    requires AllOneLine(lead) && OneLine(begin) && AllOneLine(diff) && OneLine(end) && AllOneLine(files)
    ensures Unlines(PayloadLineShape(lead, begin, diff, end, files)) == PayloadShape(Unlines(lead), begin, Unlines(diff), end, Unlines(files))
    ensures AllOneLine(PayloadLineShape(lead, begin, diff, end, files))
  {
    UnlinesOne(begin);
    UnlinesOne(end);
    UnlinesSix(lead, [begin], diff, [end], files, []);
    var lines := lead + [begin] + diff + [end] + files;
    assert lines + [] == lines;
    PayloadRegroup(Unlines(lead), begin, Unlines(diff), end, Unlines(files));
  }

  lemma PayloadRegroup(lead: string, begin: string, diff: string, end: string, files: string)
    ensures lead + (begin + "\n") + diff + (end + "\n") + files + Unlines([])
         == lead + begin + "\n" + diff + end + "\n" + files
  {
  }

  lemma PayloadText(p: Prose, prompt: string, r: ReviewRequest, nonce: string)
    requires OneLine(nonce) && SoundProse(p)
    ensures Assembled(p, prompt, r, nonce) == Unlines(PayloadLines(p, prompt, r, nonce))
    ensures AllOneLine(PayloadLines(p, prompt, r, nonce))
  {
    UnlinesLead(p, prompt, r, nonce);
    UnlinesFiles(r.contextFiles, nonce);
    LinesOfBlock(r.diff);
    PayloadPieces(LeadLines(p, prompt, r, nonce), DiffBegin(nonce), LinesOf(r.diff), DiffEnd(nonce), FilesLines(r.contextFiles, nonce));
  }

  lemma PayloadHasLines(p: Prose, prompt: string, r: ReviewRequest, nonce: string)
    requires OneLine(nonce) && SoundProse(p)
    ensures LinesOf(Assembled(p, prompt, r, nonce)) == PayloadLines(p, prompt, r, nonce)
  {
    PayloadText(p, prompt, r, nonce);
    LinesOfUnlines(PayloadLines(p, prompt, r, nonce));
  }

  // --- No payload line is a fence ---------------------------------------------------

  /** A line that cannot be taken for a fence of this run. */
  predicate Unmarked(l: string, nonce: string) {
    l == [] || l[0] !in {'B', 'E'} || !Contains(l, nonce)
  }

  ghost predicate AllUnmarked(lines: seq<string>, nonce: string) {
    forall l :: l in lines ==> Unmarked(l, nonce)
  }

  ghost predicate NonceFree(prompt: string, r: ReviewRequest, nonce: string) {
    && OneLine(nonce)
    && !Contains(prompt, nonce) && !Contains(r.diff, nonce)
    && !Contains(r.prTitle, nonce) && !Contains(r.prBody, nonce)
    && (forall e :: e in r.omittedFiles ==> !Contains(e, nonce))
    && (forall cf :: cf in r.contextFiles ==> !Contains(cf.content, nonce))
  }

  lemma PartContains(s: string, a: nat, b: nat, sub: string)
    requires a <= b <= |s| && Contains(s[a..b], sub)
    ensures Contains(s, sub)
  {
    var i :| 0 <= i <= |s[a..b]| - |sub| && StandsAt(s[a..b], i, sub);
    SliceOfSlice(s, a, b, i, i + |sub|);
    assert StandsAt(s, a + i, sub);
  }

  lemma {:induction false} LinesLackNonce(t: string, nonce: string)
    requires !Contains(t, nonce)
    ensures forall l :: l in LinesOf(t) ==> !Contains(l, nonce)
    decreases |t|
  {
    if t != [] {
      var l, rest := FirstLine(t);
      if '\n' in t {
        assert t[0..|l|] == l && t[|l| + 1..|t|] == rest;
        if Contains(l, nonce) { PartContains(t, 0, |l|, nonce); }
        if Contains(rest, nonce) { PartContains(t, |l| + 1, |t|, nonce); }
        LinesLackNonce(rest, nonce);
        LinesOfLine(l, rest);
      } else {
        LinesOfOneLine(t);
      }
    }
  }

  lemma NewlineAddsNoNonce(t: string, nonce: string)
    requires OneLine(nonce) && !Contains(t, nonce)
    ensures !Contains(t + "\n", nonce)
  {
    assert nonce != [] by { assert nonce == [] ==> StandsAt(t, 0, nonce); }
    var s := t + "\n";
    forall i | 0 <= i <= |s| - |nonce| ensures !StandsAt(s, i, nonce) {
      if i + |nonce| == |s| {
        assert s[i..i + |nonce|][|nonce| - 1] == '\n' && nonce[|nonce| - 1] in nonce;
      } else {
        assert s[i..i + |nonce|] == t[i..i + |nonce|];
        assert !StandsAt(t, i, nonce);
      }
    }
  }

  lemma PlainTextUnmarked(t: string, nonce: string)
    requires OneLine(nonce) && !Contains(t, nonce)
    ensures AllUnmarked(TextLines(t), nonce)
  {
    NewlineAddsNoNonce(t, nonce);
    LinesLackNonce(t + "\n", nonce);
  }

  lemma IntroducedLines(intro: string, t: string) returns (l: string, rest: seq<string>)
    requires OneLine(intro)
    ensures TextLines(t) == [l] + rest && TextLines(intro + t) == [intro + l] + rest
  {
    var after;
    l, after := FirstLine(t + "\n");
    rest := LinesOf(after);
    assert (t + "\n")[|t|] == '\n';
    LinesOfLine(l, after);
    LinesOfLine(intro + l, after);
    IntroRegroup(intro, t, l, after);
  }

  lemma IntroRegroup(intro: string, t: string, l: string, after: string)
    requires t + "\n" == l + "\n" + after
    ensures intro + t + "\n" == intro + l + "\n" + after
  {
    assert intro + t + "\n" == intro + (t + "\n");
    assert intro + l + "\n" + after == intro + (l + "\n" + after);
  }

  /** Text behind an introduction: its first line starts with it, the others are the text's own. */
  lemma IntroducedTextUnmarked(intro: string, t: string, nonce: string)
    requires OneLine(nonce) && !Contains(t, nonce)
    requires OneLine(intro) && StartsPlainly(intro)
    ensures AllUnmarked(TextLines(intro + t), nonce)
  {
    PlainTextUnmarked(t, nonce);
    var l, rest := IntroducedLines(intro, t);
    assert (intro + l)[0] == intro[0];
    forall x | x in rest ensures Unmarked(x, nonce) { assert x in [l] + rest; }
  }

  lemma {:induction false} EntriesUnmarked(entries: seq<string>, nonce: string)
    requires OneLine(nonce) && forall e :: e in entries ==> !Contains(e, nonce)
    ensures AllUnmarked(EntryLines(entries), nonce)
  {
    if entries != [] {
      IntroducedTextUnmarked("- ", entries[0], nonce);
      EntriesUnmarked(entries[1..], nonce);
    }
  }

  lemma MetaUnmarked(p: Prose, r: ReviewRequest, nonce: string)
    requires SoundProse(p) && NonceFree("", r, nonce)
    ensures forall l :: l in MetaLines(p, r, nonce) ==> Unmarked(l, nonce) || l in {MetaBegin(nonce), MetaEnd(nonce)}
  {
    IntroducedTextUnmarked("PR title: ", r.prTitle, nonce);
    LinesLackNonce(r.prBody, nonce);
    EntriesUnmarked(r.omittedFiles, nonce);
    assert "PR description:"[0] == 'P';
  }

  /** Before the diff there are only unmarked lines and the two metadata fences. */
  lemma LeadUnmarked(p: Prose, prompt: string, r: ReviewRequest, nonce: string)
    requires SoundProse(p) && NonceFree(prompt, r, nonce)
    ensures forall l :: l in LeadLines(p, prompt, r, nonce) ==> Unmarked(l, nonce) || l in {MetaBegin(nonce), MetaEnd(nonce)}
  {
    PlainTextUnmarked(prompt, nonce);
    InstructionIsOneLine(p, r, nonce);
    assert !Contains("", nonce) by {
      if Contains("", nonce) { assert StandsAt(prompt, 0, nonce); }
    }
    if HasMeta(r) { MetaUnmarked(p, r, nonce); }
  }

  lemma FenceIsMarked(word: string, nonce: string, tail: string)
    requires word != [] && word[0] in {'B', 'E'}
    ensures !Unmarked(word + nonce + tail, nonce)
  {
    var l := word + nonce + tail;
    assert l[|word|..|word| + |nonce|] == nonce;
    assert StandsAt(l, |word|, nonce);
  }

  lemma FencesDiffer(nonce: string)
    ensures DiffBegin(nonce) != DiffEnd(nonce) && DiffEnd(nonce) != FileEnd(nonce) && DiffBegin(nonce) != FileEnd(nonce)
    ensures {DiffBegin(nonce), DiffEnd(nonce), FileEnd(nonce)} !! {MetaBegin(nonce), MetaEnd(nonce)}
    ensures !(FileOpening(nonce) <= MetaBegin(nonce)) && !(FileOpening(nonce) <= MetaEnd(nonce))
    ensures !(FileOpening(nonce) <= DiffBegin(nonce)) && !(FileOpening(nonce) <= DiffEnd(nonce))
  {
    assert DiffBegin(nonce)[6] == 'D' && MetaBegin(nonce)[6] == 'P' && FileOpening(nonce)[6] == 'F';
    assert DiffEnd(nonce)[4] == 'D' && MetaEnd(nonce)[4] == 'P' && FileEnd(nonce)[4] == 'F';
    assert DiffBegin(nonce)[0] == 'B' && MetaBegin(nonce)[0] == 'B' && FileOpening(nonce)[0] == 'B';
    assert DiffEnd(nonce)[0] == 'E' && MetaEnd(nonce)[0] == 'E' && FileEnd(nonce)[0] == 'E';
  }

  lemma OpeningIsMarked(l: string, nonce: string)
    requires FileOpening(nonce) <= l
    ensures !Unmarked(l, nonce)
  {
    FenceIsMarked("BEGIN_FILE_", nonce, l[|FileBegin(nonce)|..]);
    assert l == FileBegin(nonce) + l[|FileBegin(nonce)|..];
  }

  /** An unmarked line is no fence and opens no file. */
  lemma UnmarkedIsNoFence(l: string, nonce: string)
    requires Unmarked(l, nonce)
    ensures l !in {DiffBegin(nonce), DiffEnd(nonce), FileEnd(nonce)} && !(FileOpening(nonce) <= l)
  {
    assert forall w: string :: w + nonce + "" == w + nonce;
    FenceIsMarked("BEGIN_DIFF_", nonce, "");
    FenceIsMarked("END_DIFF_", nonce, "");
    FenceIsMarked("END_FILE_", nonce, "");
    if FileOpening(nonce) <= l { OpeningIsMarked(l, nonce); }
  }

  // --- Decoding --------------------------------------------------------------------

  /** The first line equal to `l` at or after `from`, or the number of lines. */
  function FindLine(lines: seq<string>, l: string, from: nat): (i: nat)
    requires from <= |lines|
    ensures from <= i <= |lines| && (i < |lines| ==> lines[i] == l)
    ensures forall k :: from <= k < i ==> lines[k] != l
    decreases |lines| - from
  {
    if from == |lines| || lines[from] == l then from else FindLine(lines, l, from + 1)
  }

  /** `l` is exactly one line, the `i`-th. */
  ghost predicate UniqueLine(lines: seq<string>, l: string, i: nat) {
    i < |lines| && forall k :: 0 <= k < |lines| ==> (lines[k] == l <==> k == i)
  }

  /** What a reader takes for the fenced text: the lines between two fence lines. */
  function DecodeBetween(lines: seq<string>, begin: string, end: string): Option<string> {
    var b := FindLine(lines, begin, 0);
    if b == |lines| then None
    else
      var e := FindLine(lines, end, b + 1);
      if e == |lines| then None else Some(Unlines(lines[b + 1..e]))
  }

  /** What a reader takes for the context files, in order. */
  function DecodeFiles(lines: seq<string>, opening: string, end: string): seq<ContextFile> {
    if lines == [] then []
    else if opening <= lines[0] then
      var e := FindLine(lines, end, 1);
      if e == |lines| then []
      else [ContextFile(lines[0][|opening|..], Unlines(lines[1..e]))] + DecodeFiles(lines[e + 1..], opening, end)
    else DecodeFiles(lines[1..], opening, end)
  }

  ghost predicate Lacks(lead: seq<string>, inside: seq<string>, rest: seq<string>, begin: string, end: string) {
    forall l :: l in lead || l in inside || l in rest ==> l != begin && l != end
  }

  /** The lines from fence to fence, `b` and `e` being where the fences are. */
  ghost predicate Enclosed(lines: seq<string>, begin: string, inside: seq<string>, end: string, b: nat, e: nat) {
    b < e && UniqueLine(lines, begin, b) && UniqueLine(lines, end, e) && lines[b + 1..e] == inside
  }

  lemma EnclosedOnce(lead: seq<string>, begin: string, inside: seq<string>, end: string, rest: seq<string>)
    requires begin != end && Lacks(lead, inside, rest, begin, end)
    ensures Enclosed(PayloadLineShape(lead, begin, inside, end, rest), begin, inside, end, |lead|, |lead| + 1 + |inside|)
  {
    var lines, b, e := lead + [begin] + inside + [end] + rest, |lead|, |lead| + 1 + |inside|;
    assert lines[b] == begin && lines[e] == end;
    forall k | 0 <= k < |lines| ensures (lines[k] == begin <==> k == b) && (lines[k] == end <==> k == e) {
      if k < b { assert lines[k] == lead[k] && lead[k] in lead; }
      else if b < k < e { assert lines[k] == inside[k - b - 1] && inside[k - b - 1] in inside; }
      else if e < k { assert lines[k] == rest[k - e - 1] && rest[k - e - 1] in rest; }
    }
  }

  lemma {:induction false} FilesAreFenced(files: seq<ContextFile>, nonce: string)
    requires forall cf :: cf in files ==> !Contains(cf.content, nonce)
    ensures forall l :: l in FilesLines(files, nonce) ==>
      Unmarked(l, nonce) || l == FileEnd(nonce) || FileOpening(nonce) <= l
  {
    if files != [] {
      LinesLackNonce(files[0].content, nonce);
      FilesAreFenced(files[1..], nonce);
    }
  }

  lemma NoStrayDiffFence(p: Prose, prompt: string, r: ReviewRequest, nonce: string, l: string)
    requires SoundProse(p) && NonceFree(prompt, r, nonce)
    requires l in LeadLines(p, prompt, r, nonce) || l in LinesOf(r.diff) || l in FilesLines(r.contextFiles, nonce)
    ensures l != DiffBegin(nonce) && l != DiffEnd(nonce)
  {
    LeadUnmarked(p, prompt, r, nonce);
    LinesLackNonce(r.diff, nonce);
    FilesAreFenced(r.contextFiles, nonce);
    FencesDiffer(nonce);
    if Unmarked(l, nonce) { UnmarkedIsNoFence(l, nonce); }
  }

  lemma DiffLinesEnclosed(p: Prose, prompt: string, r: ReviewRequest, nonce: string) returns (b: nat, e: nat)
    requires SoundProse(p) && NonceFree(prompt, r, nonce)
    ensures Enclosed(PayloadLines(p, prompt, r, nonce), DiffBegin(nonce), LinesOf(r.diff), DiffEnd(nonce), b, e)
  {
    var lead, diff, files := LeadLines(p, prompt, r, nonce), LinesOf(r.diff), FilesLines(r.contextFiles, nonce);
    NoStrayDiffFences(p, prompt, r, nonce);
    EnclosedOnce(lead, DiffBegin(nonce), diff, DiffEnd(nonce), files);
    b, e := |lead|, |lead| + 1 + |diff|;
  }

  lemma NoStrayDiffFences(p: Prose, prompt: string, r: ReviewRequest, nonce: string)
    requires SoundProse(p) && NonceFree(prompt, r, nonce)
    ensures DiffBegin(nonce) != DiffEnd(nonce)
    ensures Lacks(LeadLines(p, prompt, r, nonce), LinesOf(r.diff), FilesLines(r.contextFiles, nonce), DiffBegin(nonce), DiffEnd(nonce))
  {
    FencesDiffer(nonce);
    forall l | l in LeadLines(p, prompt, r, nonce) || l in LinesOf(r.diff) || l in FilesLines(r.contextFiles, nonce)
      ensures l != DiffBegin(nonce) && l != DiffEnd(nonce)
    {
      NoStrayDiffFence(p, prompt, r, nonce, l);
    }
  }

  /** The two diff fences are unique lines of the payload, and enclose exactly the diff. */
  lemma DiffFencesEncloseTheDiff(p: Prose, prompt: string, r: ReviewRequest, nonce: string) returns (b: nat, e: nat)
    requires SoundProse(p) && NonceFree(prompt, r, nonce)
    ensures Enclosed(LinesOf(Assembled(p, prompt, r, nonce)), "BEGIN_DIFF_" + nonce, LinesOf(r.diff), "END_DIFF_" + nonce, b, e)
    ensures Unlines(LinesOf(r.diff)) == Block(r.diff)
  {
    b, e := DiffLinesEnclosed(p, prompt, r, nonce);
    PayloadHasLines(p, prompt, r, nonce);
    LinesOfBlock(r.diff);
  }

  /** The diff read back is the diff, up to one added final newline. */
  lemma DecodeDiffOfAssembled(p: Prose, prompt: string, r: ReviewRequest, nonce: string)
    requires SoundProse(p) && NonceFree(prompt, r, nonce)
    ensures DecodeBetween(LinesOf(Assembled(p, prompt, r, nonce)), "BEGIN_DIFF_" + nonce, "END_DIFF_" + nonce) == Some(Block(r.diff))
  {
    var b, e := DiffFencesEncloseTheDiff(p, prompt, r, nonce);
    DecodeEnclosed(LinesOf(Assembled(p, prompt, r, nonce)), DiffBegin(nonce), LinesOf(r.diff), DiffEnd(nonce), b, e);
  }

  lemma DecodeEnclosed(lines: seq<string>, begin: string, inside: seq<string>, end: string, b: nat, e: nat)
    requires Enclosed(lines, begin, inside, end, b, e)
    ensures DecodeBetween(lines, begin, end) == Some(Unlines(inside))
  {
    assert lines[b] == begin && lines[e] == end;
    assert FindLine(lines, begin, 0) == b;
    assert FindLine(lines, end, b + 1) == e;
  }

  lemma {:induction false} DecodeSkips(lines: seq<string>, rest: seq<string>, opening: string, end: string)
    requires forall l :: l in lines ==> !(opening <= l)
    ensures DecodeFiles(lines + rest, opening, end) == DecodeFiles(rest, opening, end)
  {
    if lines == [] {
      assert lines + rest == rest;
    } else {
      assert lines[0] in lines && forall l :: l in lines[1..] ==> l in lines;
      assert (lines + rest)[0] == lines[0] && (lines + rest)[1..] == lines[1..] + rest;
      DecodeSkips(lines[1..], rest, opening, end);
    }
  }

  /** The context files as a reader gets them: control bytes in paths replaced, contents newline-ended. */
  function AsShown(files: seq<ContextFile>): seq<ContextFile> {
    if files == [] then []
    else [ContextFile(SanitizeFencePath(files[0].path), Block(files[0].content))] + AsShown(files[1..])
  }

  lemma DecodeOne(opening: string, path: string, content: seq<string>, end: string, rest: seq<string>)
    requires end !in content
    ensures DecodeFiles([opening + path] + content + [end] + rest, opening, end)
         == [ContextFile(path, Unlines(content))] + DecodeFiles(rest, opening, end)
  {
    var lines := [opening + path] + content + [end] + rest;
    var e := 1 + |content|;
    assert lines[0] == opening + path && lines[e] == end;
    assert forall k :: 1 <= k < e ==> lines[k] == content[k - 1];
    assert FindLine(lines, end, 1) == e;
    assert lines[1..e] == content && lines[e + 1..] == rest;
    assert (opening + path)[|opening|..] == path;
  }

  lemma {:induction false} DecodeFilesLines(files: seq<ContextFile>, nonce: string)
    requires forall cf :: cf in files ==> !Contains(cf.content, nonce)
    ensures DecodeFiles(FilesLines(files, nonce), FileOpening(nonce), FileEnd(nonce)) == AsShown(files)
  {
    if files != [] {
      var content := LinesOf(files[0].content);
      LinesLackNonce(files[0].content, nonce);
      LinesOfBlock(files[0].content);
      forall l | l in content ensures l != FileEnd(nonce) { UnmarkedIsNoFence(l, nonce); }
      DecodeOne(FileOpening(nonce), SanitizeFencePath(files[0].path), content, FileEnd(nonce), FilesLines(files[1..], nonce));
      DecodeFilesLines(files[1..], nonce);
    }
  }

  lemma NothingOpensAFile(p: Prose, prompt: string, r: ReviewRequest, nonce: string, l: string)
    requires SoundProse(p) && NonceFree(prompt, r, nonce)
    requires l in LeadLines(p, prompt, r, nonce) || l in LinesOf(r.diff) || l in {DiffBegin(nonce), DiffEnd(nonce)}
    ensures !(FileOpening(nonce) <= l)
  {
    LeadUnmarked(p, prompt, r, nonce);
    LinesLackNonce(r.diff, nonce);
    FencesDiffer(nonce);
    if Unmarked(l, nonce) { UnmarkedIsNoFence(l, nonce); }
  }

  /** The FILE fences, read in order, give back every path and every content. */
  lemma DecodeFilesOfAssembled(p: Prose, prompt: string, r: ReviewRequest, nonce: string)
    requires SoundProse(p) && NonceFree(prompt, r, nonce)
    ensures DecodeFiles(LinesOf(Assembled(p, prompt, r, nonce)), "BEGIN_FILE_" + nonce + " ", "END_FILE_" + nonce) == AsShown(r.contextFiles)
  {
    var before := LeadLines(p, prompt, r, nonce) + [DiffBegin(nonce)] + LinesOf(r.diff) + [DiffEnd(nonce)];
    forall l | l in before ensures !(FileOpening(nonce) <= l) {
      NothingOpensAFile(p, prompt, r, nonce, l);
    }
    PayloadHasLines(p, prompt, r, nonce);
    DecodeSkips(before, FilesLines(r.contextFiles, nonce), FileOpening(nonce), FileEnd(nonce));
    DecodeFilesLines(r.contextFiles, nonce);
  }
}
