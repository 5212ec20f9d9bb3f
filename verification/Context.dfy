/** Settings, and the context files that accompany a diff (src/config.hpp, src/watcher.cpp:492-527). */
module Context {
  import opened Text
  import opened Trim
  import opened Payload

  datatype Config = Config(
    botHandle: string, maxDiffBytes: nat, maxDiffFetchBytes: nat,
    maxContextFileBytes: nat, maxContextTotalBytes: nat, maxContextFiles: nat)

  datatype DiffResult = DiffResult(body: string, truncated: bool)
  datatype FileContent = FileContent(found: bool, truncated: bool, body: string)
  datatype PrInfo = PrInfo(title: string, body: string, headSha: string)

  /** Present, complete and not binary. */
  predicate Usable(fc: FileContent) {
    fc.found && !fc.truncated && '\0' !in fc.body
  }

  function TotalBytes(files: seq<ContextFile>): nat {
    if files == [] then 0 else TotalBytes(files[..|files| - 1]) + |files[|files| - 1].content|
  }

  /** The context collected from the answers for the first |answers| paths. */
  function Gather(paths: seq<string>, answers: seq<FileContent>, cap: nat): seq<ContextFile>
    requires |answers| <= |paths|
  {
    if answers == [] then []
    else
      var k := |answers| - 1;
      var before := Gather(paths, answers[..k], cap);
      if Usable(answers[k]) && TotalBytes(before) + |answers[k].body| <= cap
      then before + [ContextFile(paths[k], answers[k].body)] else before
  }

  function PathsOf(files: seq<ContextFile>): seq<string> {
    seq(|files|, i requires 0 <= i < |files| => files[i].path)
  }

  /** `some` is `all` with some elements left out. */
  predicate Subsequence(some: seq<string>, all: seq<string>) {
    some == [] ||
    (all != [] && (
       (some[|some| - 1] == all[|all| - 1] && Subsequence(some[..|some| - 1], all[..|all| - 1]))
       || Subsequence(some, all[..|all| - 1])))
  }

  /** What every request to the reviewer respects. */
  ghost predicate PayloadOk(cfg: Config, r: ReviewRequest) {
    && |r.diff| <= cfg.maxDiffBytes
    && Subsequence(PathsOf(r.contextFiles), ChangedPathsOf(r.diff))
    && |r.contextFiles| <= cfg.maxContextFiles
    && TotalBytes(r.contextFiles) <= cfg.maxContextTotalBytes
    && (forall cf :: cf in r.contextFiles ==> '\0' !in cf.content && |cf.content| <= cfg.maxContextFileBytes)
  }

  lemma {:induction false} GatherRespectsCaps(paths: seq<string>, answers: seq<FileContent>, cap: nat, fileCap: nat)
    requires |answers| <= |paths|
    requires forall fc :: fc in answers && fc.found && !fc.truncated ==> |fc.body| <= fileCap
    ensures Subsequence(PathsOf(Gather(paths, answers, cap)), paths[..|answers|])
    ensures |Gather(paths, answers, cap)| <= |answers|
    ensures TotalBytes(Gather(paths, answers, cap)) <= cap
    ensures forall cf :: cf in Gather(paths, answers, cap) ==> '\0' !in cf.content && |cf.content| <= fileCap
  {
    if answers != [] {
      var k := |answers| - 1;
      var before, all := Gather(paths, answers[..k], cap), Gather(paths, answers, cap);
      GatherRespectsCaps(paths, answers[..k], cap, fileCap);
      assert paths[..|answers|][..k] == paths[..k];
      assert answers[k] in answers;
      if all != before {
        assert all[..|before|] == before;
        assert PathsOf(all)[..|before|] == PathsOf(before);
      } else {
        assert PathsOf(all) == [] || Subsequence(PathsOf(all), paths[..k]);
      }
    }
  }

  function Contents(files: seq<ContextFile>): seq<string> {
    seq(|files|, i requires 0 <= i < |files| => files[i].content)
  }

  lemma {:induction false} TotalIsTheLength(files: seq<ContextFile>)
    ensures TotalBytes(files) == |Concat(Contents(files))|
  {
    if files != [] {
      var init, last := files[..|files| - 1], files[|files| - 1];
      TotalIsTheLength(init);
      assert Contents(files) == Contents(init) + [last.content];
      ConcatSnoc(Contents(init), last.content);
    }
  }

  lemma {:induction false} SubsequenceOfPrefix(some: seq<string>, all: seq<string>, n: nat)
    requires n <= |all| && Subsequence(some, all[..n])
    ensures Subsequence(some, all)
    decreases |all|
  {
    if n == |all| {
      assert all[..n] == all;
    } else if some != [] {
      assert all[..|all| - 1][..n] == all[..n];
      SubsequenceOfPrefix(some, all[..|all| - 1], n);
    }
  }

  /** A usable answer that no longer fits the total cap; the collection stops there. */
  predicate Misfit(paths: seq<string>, answers: seq<FileContent>, k: nat, cap: nat)
    requires k < |answers| <= |paths|
  {
    Usable(answers[k]) && TotalBytes(Gather(paths, answers[..k], cap)) + |answers[k].body| > cap
  }

  /** What one more answer does. */
  ghost predicate GatherStep(paths: seq<string>, answers: seq<FileContent>, fc: FileContent, cap: nat)
    requires |answers| < |paths|
  {
    var before, all := Gather(paths, answers, cap), Gather(paths, answers + [fc], cap);
    && (forall k :: 0 <= k < |answers| ==> (Misfit(paths, answers + [fc], k, cap) <==> Misfit(paths, answers, k, cap)))
    && (Misfit(paths, answers + [fc], |answers|, cap) <==> Usable(fc) && TotalBytes(before) + |fc.body| > cap)
    && all == (if Usable(fc) && TotalBytes(before) + |fc.body| <= cap then before + [ContextFile(paths[|answers|], fc.body)] else before)
    && (all != before ==> TotalBytes(all) == TotalBytes(before) + |fc.body|)
  }

  lemma GatherNext(paths: seq<string>, answers: seq<FileContent>, fc: FileContent, cap: nat)
    requires |answers| < |paths|
    ensures GatherStep(paths, answers, fc, cap)
  {
    MisfitsStay(paths, answers, fc, cap);
    var next := answers + [fc];
    assert next[..|answers|] == answers && next[|next| - 1] == fc;
    var before, all := Gather(paths, answers, cap), Gather(paths, next, cap);
    if all != before { assert all[..|all| - 1] == before; }
  }

  /**
   Answer by answer: the file joins the context exactly if it is there, whole, free of NUL, and fits
   what the files before it have left; and it stays in.
   */
  lemma GatheredExactly(paths: seq<string>, answers: seq<FileContent>, cap: nat, k: nat)
    requires k < |answers| <= |paths|
    ensures var before, fc := Gather(paths, answers[..k], cap), answers[k];
      Gather(paths, answers[..k + 1], cap)
        == before + if fc.found && !fc.truncated && '\0' !in fc.body && TotalBytes(before) + |fc.body| <= cap
                    then [ContextFile(paths[k], fc.body)] else []
    ensures Gather(paths, answers[..k + 1], cap) <= Gather(paths, answers, cap)
  {
    assert answers[..k + 1] == answers[..k] + [answers[k]];
    GatherNext(paths, answers[..k], answers[k], cap);
    GatherGrows(paths, answers, cap, k + 1);
  }

  lemma {:induction false} GatherGrows(paths: seq<string>, answers: seq<FileContent>, cap: nat, k: nat)
    requires k <= |answers| <= |paths|
    ensures Gather(paths, answers[..k], cap) <= Gather(paths, answers, cap)
    decreases |answers|
  {
    if k == |answers| {
      assert answers[..k] == answers;
    } else {
      var init := answers[..|answers| - 1];
      assert init[..k] == answers[..k];
      GatherGrows(paths, init, cap, k);
    }
  }

  lemma MisfitsStay(paths: seq<string>, answers: seq<FileContent>, fc: FileContent, cap: nat)
    requires |answers| < |paths|
    ensures forall k :: 0 <= k < |answers| ==> (Misfit(paths, answers + [fc], k, cap) <==> Misfit(paths, answers, k, cap))
  {
    forall k | 0 <= k < |answers|
      ensures Misfit(paths, answers + [fc], k, cap) <==> Misfit(paths, answers, k, cap)
    {
      assert (answers + [fc])[..k] == answers[..k];
    }
  }

  /** Whatever is gathered for a diff within the budget makes a request within the caps. */
  lemma ContextIsOk(cfg: Config, r: ReviewRequest, answers: seq<FileContent>)
    requires |r.diff| <= cfg.maxDiffBytes
    requires |answers| <= |ChangedPathsOf(r.diff)| && |answers| <= cfg.maxContextFiles
    requires forall fc :: fc in answers && fc.found && !fc.truncated ==> |fc.body| <= cfg.maxContextFileBytes
    requires r.contextFiles == Gather(ChangedPathsOf(r.diff), answers, cfg.maxContextTotalBytes)
    ensures PayloadOk(cfg, r)
  {
    var paths := ChangedPathsOf(r.diff);
    GatherRespectsCaps(paths, answers, cfg.maxContextTotalBytes, cfg.maxContextFileBytes);
    SubsequenceOfPrefix(PathsOf(r.contextFiles), paths, |answers|);
  }
}
