/**
  The text piped to the reviewer: trusted prompt, then untrusted pull-request content between
  lines that carry a per-run nonce (src/reviewer.cpp:182-311).
 */
module Payload {
  import opened Text
  import opened Diff
  import opened DiffRender

  datatype ContextFile = ContextFile(path: string, content: string)

  datatype ReviewRequest = ReviewRequest(
    diff: string, prTitle: string, prBody: string,
    contextFiles: seq<ContextFile>, omittedFiles: seq<string>)

  function MetaBegin(nonce: string): string { "BEGIN_PR_METADATA_" + nonce }
  function MetaEnd(nonce: string): string { "END_PR_METADATA_" + nonce }
  function DiffBegin(nonce: string): string { "BEGIN_DIFF_" + nonce }
  function DiffEnd(nonce: string): string { "END_DIFF_" + nonce }
  function FileBegin(nonce: string): string { "BEGIN_FILE_" + nonce }
  function FileEnd(nonce: string): string { "END_FILE_" + nonce }

  /** The prefix of the line that opens a context file. */
  function FileOpening(nonce: string): string { FileBegin(nonce) + " " }

  predicate HasMeta(r: ReviewRequest) {
    r.prTitle != [] || r.prBody != [] || r.omittedFiles != []
  }

  /** `text`, and a newline if it lacks one. */
  function Block(text: string): string {
    if EndsLine(text) then text else text + "\n"
  }

  function SanitizeChar(c: char): char {
    if c < ' ' || c == '\U{7F}' then '?' else c
  }

  function SanitizeFencePath(path: string): (r: string)
    ensures |r| == |path| && OneLine(r)
    ensures forall i :: 0 <= i < |path| ==> r[i] == if path[i] as int < 32 || path[i] as int == 127 then '?' else path[i]
  {
    seq(|path|, i requires 0 <= i < |path| => SanitizeChar(path[i]))
  }

  /** The fixed wording around the fences. Nothing proved depends on it beyond SoundProse. */
  datatype Prose = Prose(
    metaIntro: string, diffIntro: string, fileIntro: string,
    closingWithExtras: string, closingBare: string, omittedHeader: string)

  predicate StartsPlainly(l: string) {
    l != [] && l[0] !in {'B', 'E'}
  }

  predicate SoundProse(p: Prose) {
    && OneLine(p.metaIntro) && OneLine(p.diffIntro) && OneLine(p.fileIntro)
    && OneLine(p.closingWithExtras) && OneLine(p.closingBare) && OneLine(p.omittedHeader)
    && StartsPlainly(p.metaIntro) && StartsPlainly(p.diffIntro) && StartsPlainly(p.omittedHeader)
  }

  /** A sentence that names two fence lines. */
  function Sentence(intro: string, begin: string, mid: string, end: string, stop: string): string {
    intro + begin + mid + end + stop
  }

  function MetaSentence(p: Prose, r: ReviewRequest, nonce: string): string {
    if HasMeta(r) then Sentence(p.metaIntro, MetaBegin(nonce), " and ", MetaEnd(nonce), ". ") else ""
  }

  function DiffSentence(p: Prose, nonce: string): string {
    Sentence(p.diffIntro, DiffBegin(nonce), " and ", DiffEnd(nonce), ". ")
  }

  function FileSentence(p: Prose, r: ReviewRequest, nonce: string): string {
    if r.contextFiles != [] then Sentence(p.fileIntro, FileBegin(nonce), " <path> and ", FileEnd(nonce), " lines. ") else ""
  }

  function Closing(p: Prose, r: ReviewRequest): string {
    if HasMeta(r) || r.contextFiles != [] then p.closingWithExtras else p.closingBare
  }

  function Instruction(p: Prose, r: ReviewRequest, nonce: string): string {
    MetaSentence(p, r, nonce) + DiffSentence(p, nonce) + FileSentence(p, r, nonce) + Closing(p, r)
  }

  function OmittedText(entries: seq<string>): string {
    if entries == [] then [] else "- " + entries[0] + "\n" + OmittedText(entries[1..])
  }

  function MetaShape(begin: string, intro: string, title: string, heading: string, body: string, omitted: string, end: string): string {
    begin + "\n" + intro + title + "\n" + heading + "\n" + body + omitted + end + "\n"
  }

  function MetaText(p: Prose, r: ReviewRequest, nonce: string): string {
    MetaShape(MetaBegin(nonce), "PR title: ", r.prTitle, "PR description:", Block(r.prBody),
              OmittedList(p, r.omittedFiles), MetaEnd(nonce))
  }

  function OmittedList(p: Prose, entries: seq<string>): string {
    if entries == [] then "" else p.omittedHeader + "\n" + OmittedText(entries)
  }

  function FileShape(opening: string, path: string, body: string, end: string): string {
    opening + path + "\n" + body + end + "\n"
  }

  function FileText(cf: ContextFile, nonce: string): string {
    FileShape(FileOpening(nonce), SanitizeFencePath(cf.path), Block(cf.content), FileEnd(nonce))
  }

  function FilesText(files: seq<ContextFile>, nonce: string): string {
    if files == [] then [] else FileText(files[0], nonce) + FilesText(files[1..], nonce)
  }

  /** Everything before the BEGIN_DIFF line. */
  function LeadText(p: Prose, prompt: string, r: ReviewRequest, nonce: string): string {
    LeadShape(prompt, Instruction(p, r, nonce), if HasMeta(r) then MetaText(p, r, nonce) else "")
  }

  function LeadShape(prompt: string, instruction: string, meta: string): string {
    prompt + "\n" + "\n" + instruction + "\n" + meta
  }

  function Assembled(p: Prose, prompt: string, r: ReviewRequest, nonce: string): string {
    PayloadShape(LeadText(p, prompt, r, nonce), DiffBegin(nonce), Block(r.diff), DiffEnd(nonce), FilesText(r.contextFiles, nonce))
  }

  function PayloadShape(lead: string, begin: string, diff: string, end: string, files: string): string {
    lead + begin + "\n" + diff + end + "\n" + files
  }

  method WriteOmitted(oss: string, entries: seq<string>) returns (out: string)
    ensures out == oss + OmittedText(entries)
  {
    out := oss;
    for i := 0 to |entries|
      invariant oss + OmittedText(entries) == out + OmittedText(entries[i..])
    {
      assert entries[i..][0] == entries[i] && entries[i..][1..] == entries[i + 1..];
      out := out + ("- " + entries[i] + "\n");
    }
  }

  method WriteFiles(oss: string, files: seq<ContextFile>, nonce: string) returns (out: string)
    ensures out == oss + FilesText(files, nonce)
  {
    out := oss;
    for i := 0 to |files|
      invariant oss + FilesText(files, nonce) == out + FilesText(files[i..], nonce)
    {
      assert files[i..][0] == files[i] && files[i..][1..] == files[i + 1..];
      out := out + FileText(files[i], nonce);
    }
  }

  method AssembleReviewStdin(p: Prose, prompt: string, request: ReviewRequest, nonce: string) returns (oss: string)
    ensures oss == Assembled(p, prompt, request, nonce)
  {
    oss := prompt + "\n" + "\n" + Instruction(p, request, nonce) + "\n";
    if HasMeta(request) {
      var meta := MetaBegin(nonce) + "\n" + "PR title: " + request.prTitle + "\n" + "PR description:" + "\n";
      meta := meta + Block(request.prBody);
      if request.omittedFiles != [] {
        var list := WriteOmitted(p.omittedHeader + "\n", request.omittedFiles);
        meta := meta + list;
      } else {
        assert meta + OmittedList(p, []) == meta;
      }
      oss := oss + (meta + MetaEnd(nonce) + "\n");
    } else {
      assert oss + "" == oss;
    }
    oss := oss + DiffBegin(nonce) + "\n" + Block(request.diff) + DiffEnd(nonce) + "\n";
    oss := WriteFiles(oss, request.contextFiles, nonce);
  }

  // --- Reading the payload line by line -----------------------------------------

  function LinesOf(s: string): seq<string>
    decreases |s|
  {
    if s == [] then [] else [s[..LineEnd(s)]] + LinesOf(AfterLine(s))
  }

  lemma {:induction false} LinesOfLine(l: string, rest: string)
    requires OneLine(l)
    ensures LinesOf(l + "\n" + rest) == [l] + LinesOf(rest)
  {
    LineEndIs(l, rest);
  }

  /** A text is its first line, or its first line, a newline and the rest. */
  lemma FirstLine(s: string) returns (l: string, rest: string)
    requires s != []
    ensures OneLine(l) && |rest| < |s|
    ensures if '\n' in s then s == l + "\n" + rest else s == l && rest == []
    ensures EndsLine(s) ==> '\n' in s
    ensures EndsLine(rest) <==> EndsLine(s) || '\n' !in s
  {
    var e := LineEnd(s);
    l, rest := s[..e], AfterLine(s);
    if e == |s| {
      assert l == s;
    } else {
      assert s[e] == '\n';
    }
  }

  lemma BlockOfRest(l: string, rest: string)
    ensures Block(l + "\n" + rest) == l + "\n" + Block(rest)
  {
    var s := l + "\n" + rest;
    assert rest != [] ==> s[|s| - 1] == rest[|rest| - 1];
    assert s + "\n" == l + "\n" + (rest + "\n");
  }

  lemma {:induction false} LinesOfBlock(text: string)
    ensures LinesOf(Block(text)) == LinesOf(text)
    ensures Unlines(LinesOf(text)) == Block(text)
    ensures forall l :: l in LinesOf(text) ==> OneLine(l)
    decreases |text|
  {
    if text != [] {
      var l, rest := FirstLine(text);
      if '\n' in text {
        LinesOfBlock(rest);
        BlockOfRest(l, rest);
        LinesOfLine(l, rest);
        LinesOfLine(l, Block(rest));
        UnlinesCons(l, LinesOf(rest));
      } else {
        LinesOfOneLine(text);
        LinesOfLine(text, "");
        assert text + "\n" + "" == Block(text);
        UnlinesCons(text, []);
      }
    }
  }

  lemma UnlinesCons(l: string, lines: seq<string>)
    ensures Unlines([l] + lines) == l + "\n" + Unlines(lines)
  {
    assert ([l] + lines)[1..] == lines;
  }

  lemma LinesOfOneLine(l: string)
    requires l != [] && OneLine(l)
    ensures LinesOf(l) == [l] && !EndsLine(l)
  {
    assert forall k :: 0 <= k < |l| ==> l[k] in l;
    assert LineEnd(l) == |l| && l[..|l|] == l;
    assert LinesOf(AfterLine(l)) == [];
  }

  lemma {:induction false} LinesOfUnlines(lines: seq<string>)
    requires forall l :: l in lines ==> OneLine(l)
    ensures LinesOf(Unlines(lines)) == lines
  {
    if lines != [] {
      LinesOfUnlines(lines[1..]);
      LinesOfLine(lines[0], Unlines(lines[1..]));
    }
  }
}
