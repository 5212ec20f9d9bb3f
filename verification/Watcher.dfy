/** One polling tick: the auto path, the ping path and the dispatch of a review (src/watcher.cpp). */
module Watcher {
  import opened Text
  import opened Markers
  import opened Mention
  import opened IssueUrl
  import opened StateStore
  import opened Trim
  import opened Payload
  import opened Context
  import opened Protocol
  import opened Approvals
  import opened Blocking
  import opened Errors
  import opened WatcherIo
  import opened Reports

  /** How a path ends: normally, by an exception that leaves it, or with the process. */
  datatype Exit = Done | Thrown(error: Error) | Crashed

  /** How the handling of one trigger ends; Retry leaves it for the next tick. */
  datatype Step = Decided | Retry | Escapes(error: Error) | Halts

  /** std::sort by (updated_at, id). */
  function InsertByKey(c: Comment, cs: seq<Comment>): (r: seq<Comment>)
    ensures multiset(r) == multiset(cs) + multiset{c}
  {
    if cs == [] then [c]
    else
      assert cs == [cs[0]] + cs[1..];
      if KeyLess(KeyOf(cs[0]), KeyOf(c)) then [cs[0]] + InsertByKey(c, cs[1..]) else [c] + cs
  }

  function SortByKey(cs: seq<Comment>): (r: seq<Comment>)
    ensures multiset(r) == multiset(cs)
  {
    if cs == [] then []
    else
      assert cs == [cs[0]] + cs[1..];
      InsertByKey(cs[0], SortByKey(cs[1..]))
  }

  /** `c` is not newer than `d`, and of comments of one time the smaller id comes first. */
  ghost predicate OldestFirst(c: Comment, d: Comment) {
    (exists k: nat :: GoesOnAbove(c.updatedAt, d.updatedAt, k)) || (c.updatedAt == d.updatedAt && c.id <= d.id)
  }

  lemma {:induction false} InsertKeepsSorted(c: Comment, cs: seq<Comment>)
    requires SortedByKey(cs)
    ensures SortedByKey(InsertByKey(c, cs))
  {
    KeyOrder();
    if cs != [] && KeyLess(KeyOf(cs[0]), KeyOf(c)) {
      InsertKeepsSorted(c, cs[1..]);
      var rest := InsertByKey(c, cs[1..]);
      forall i | 0 <= i < |rest| ensures KeyAtMost(KeyOf(cs[0]), KeyOf(rest[i])) {
        assert rest[i] in multiset(rest);
        assert rest[i] == c || rest[i] in cs[1..];
      }
    }
  }

  lemma {:induction false} SortSorts(cs: seq<Comment>)
    ensures SortedByKey(SortByKey(cs))
    ensures |SortByKey(cs)| == |cs|
    ensures forall i, j :: 0 <= i < j < |cs| ==> OldestFirst(SortByKey(cs)[i], SortByKey(cs)[j])
    ensures forall c :: c in SortByKey(cs) <==> c in cs
  {
    if cs != [] {
      SortSorts(cs[1..]);
      InsertKeepsSorted(cs[0], SortByKey(cs[1..]));
    }
    assert |multiset(SortByKey(cs))| == |multiset(cs)|;
    forall i, j | 0 <= i < j < |cs| ensures OldestFirst(SortByKey(cs)[i], SortByKey(cs)[j]) {
      KeyTotal(KeyOf(SortByKey(cs)[i]), KeyOf(SortByKey(cs)[j]));
      KeyLessExactly(KeyOf(SortByKey(cs)[i]), KeyOf(SortByKey(cs)[j]));
    }
    forall c ensures c in SortByKey(cs) <==> c in cs {
      assert c in multiset(SortByKey(cs)) <==> c in multiset(cs);
    }
  }

  /** What has landed was posted for the trigger, and made of the reviewer's words and the bot's. */
  ghost predicate StandOnlyFor(w: World, bot: string, posted: set<int>, t: Trigger) {
    forall id :: id in posted ==> StandsFor(w, bot, id, t) && Written(w, w.comments[id])
  }

  /** A comment has landed, and it has this body. */
  ghost predicate SaysOnly(w: World, posted: set<int>, body: string) {
    Landed(posted) && forall id :: id in posted ==> id in w.comments && w.comments[id].body == body
  }

  /** The answers are GitHub's own, since position `n`, for the first paths in turn, and within the caps. */
  ghost predicate Collected(w: World, n: int, cfg: Config, paths: seq<string>, ref: string, answers: seq<FileContent>) {
    && |answers| <= |paths| && |answers| <= cfg.maxContextFiles
    && (forall k :: 0 <= k < |answers| ==> Told(w, n, FileAnswer(paths[k], ref, answers[k])))
    && (forall fc :: fc in answers && fc.found && !fc.truncated ==> |fc.body| <= cfg.maxContextFileBytes)
  }

  /** The collection so far; no usable answer has been left out for its size. */
  ghost predicate Collecting(w: World, n: int, cfg: Config, paths: seq<string>, ref: string, answers: seq<FileContent>,
                             files: seq<ContextFile>, total: nat)
  {
    && Collected(w, n, cfg, paths, ref, answers)
    && files == Gather(paths, answers, cfg.maxContextTotalBytes) && total == TotalBytes(files)
    && NoMisfitBefore(paths, answers, |answers|, cfg.maxContextTotalBytes)
  }

  /** The collection after an answer that no longer fits. */
  ghost predicate Full(w: World, n: int, cfg: Config, paths: seq<string>, ref: string, answers: seq<FileContent>,
                       files: seq<ContextFile>)
  {
    && Collected(w, n, cfg, paths, ref, answers) && answers != []
    && files == Gather(paths, answers, cfg.maxContextTotalBytes)
    && Misfit(paths, answers, |answers| - 1, cfg.maxContextTotalBytes)
    && NoMisfitBefore(paths, answers, |answers| - 1, cfg.maxContextTotalBytes)
  }

  ghost predicate NoMisfitBefore(paths: seq<string>, answers: seq<FileContent>, n: nat, cap: nat) {
    n <= |answers| <= |paths| && forall k :: 0 <= k < n ==> !Misfit(paths, answers, k, cap)
  }

  /** No context is wanted, or there is no commit to take it from. */
  predicate Off(cfg: Config, ref: string) {
    cfg.maxContextTotalBytes == 0 || cfg.maxContextFiles == 0 || ref == []
  }

  /** Where the collection stops by itself. */
  predicate EndsThere(cfg: Config, paths: seq<string>, ref: string, answers: seq<FileContent>)
    requires |answers| <= |paths|
  {
    if Off(cfg, ref) then answers == []
    else
      || |answers| == |paths| || |answers| == cfg.maxContextFiles
      || (answers != [] && Misfit(paths, answers, |answers| - 1, cfg.maxContextTotalBytes))
  }

  /** What a collection leaves: what the answers make under the caps, and all of it if the collection is `whole`. */
  ghost predicate ContextIs(w: World, n: int, cfg: Config, paths: seq<string>, ref: string, answers: seq<FileContent>,
                            files: seq<ContextFile>, whole: bool)
  {
    && Collected(w, n, cfg, paths, ref, answers) && files == Gather(paths, answers, cfg.maxContextTotalBytes)
    && (answers != [] ==> NoMisfitBefore(paths, answers, |answers| - 1, cfg.maxContextTotalBytes))
    && (whole ==> EndsThere(cfg, paths, ref, answers))
  }

  lemma CollectedPersists(w: World, w': World, n: int, m: int, cfg: Config, paths: seq<string>, ref: string, answers: seq<FileContent>)
    requires Collected(w, n, cfg, paths, ref, answers) && w.events <= w'.events && m <= n
    ensures Collected(w', m, cfg, paths, ref, answers)
  {
    forall k | 0 <= k < |answers| ensures Told(w', m, FileAnswer(paths[k], ref, answers[k])) {
      ToldPersists(w, w', n, m, FileAnswer(paths[k], ref, answers[k]));
    }
  }

  lemma CollectOne(w: World, w': World, n: int, cfg: Config, paths: seq<string>, ref: string, answers: seq<FileContent>,
                   files: seq<ContextFile>, total: nat, fc: FileContent)
    requires Collecting(w, n, cfg, paths, ref, answers, files, total) && |answers| < |paths| && |answers| < cfg.maxContextFiles
    requires w'.events == w.events + [FileAnswer(paths[|answers|], ref, fc)] && n <= |w.events|
    requires fc.found && !fc.truncated ==> |fc.body| <= cfg.maxContextFileBytes
    ensures !Usable(fc) ==> Collecting(w', n, cfg, paths, ref, answers + [fc], files, total)
    ensures Usable(fc) && total + |fc.body| <= cfg.maxContextTotalBytes ==>
      Collecting(w', n, cfg, paths, ref, answers + [fc], files + [ContextFile(paths[|answers|], fc.body)], total + |fc.body|)
    ensures Usable(fc) && total + |fc.body| > cfg.maxContextTotalBytes ==> Full(w', n, cfg, paths, ref, answers + [fc], files)
  {
    GatherNext(paths, answers, fc, cfg.maxContextTotalBytes);
    CollectedMore(w, w', n, cfg, paths, ref, answers, fc);
  }

  lemma CollectedMore(w: World, w': World, n: int, cfg: Config, paths: seq<string>, ref: string, answers: seq<FileContent>, fc: FileContent)
    requires Collected(w, n, cfg, paths, ref, answers) && |answers| < |paths| && |answers| < cfg.maxContextFiles
    requires w'.events == w.events + [FileAnswer(paths[|answers|], ref, fc)] && n <= |w.events|
    requires fc.found && !fc.truncated ==> |fc.body| <= cfg.maxContextFileBytes
    ensures Collected(w', n, cfg, paths, ref, answers + [fc])
  {
    CollectedPersists(w, w', n, n, cfg, paths, ref, answers);
    JustTold(w', n, FileAnswer(paths[|answers|], ref, fc));
  }

  /** The context is what the answers make of the changed paths of the diff that is reviewed. */
  ghost predicate ContextFrom(w: World, n: int, cfg: Config, request: ReviewRequest, headSha: string, whole: bool) {
    exists answers :: ContextIs(w, n, cfg, ChangedPathsOf(request.diff), headSha, answers, request.contextFiles, whole)
  }

  /** What the reviewer is asked: the diff, and the title, description and context if `info` came. */
  ghost predicate AsksFor(w: World, n: int, cfg: Config, request: ReviewRequest, info: Reply<PrInfo>,
                          text: string, omitted: seq<string>, whole: bool)
  {
    && request.diff == text && request.omittedFiles == omitted
    && if info.Answer? then
         && request.prTitle == info.value.title && request.prBody == info.value.body
         && ContextFrom(w, n, cfg, request, info.value.headSha, whole)
       else request.prTitle == "" && request.prBody == "" && request.contextFiles == []
  }

  lemma AsksForPersists(w: World, w': World, n: int, m: int, cfg: Config, request: ReviewRequest, info: Reply<PrInfo>,
                        text: string, omitted: seq<string>, whole: bool, whole': bool)
    requires AsksFor(w, n, cfg, request, info, text, omitted, whole) && w.events <= w'.events && m <= n && (whole' ==> whole)
    ensures AsksFor(w', m, cfg, request, info, text, omitted, whole')
  {
    if info.Answer? {
      var paths := ChangedPathsOf(request.diff);
      var answers :| ContextIs(w, n, cfg, paths, info.value.headSha, answers, request.contextFiles, whole);
      CollectedPersists(w, w', n, m, cfg, paths, info.value.headSha, answers);
      assert ContextIs(w', m, cfg, paths, info.value.headSha, answers, request.contextFiles, whole');
    }
  }

  /**
   Since position `n`: the reviewer was asked for what it should be, and `output` is what it said.
   Without faults nothing is missing from the request.
   */
  ghost predicate Reviewed(w: World, n: int, cfg: Config, pr: int, diff: DiffResult, info: Reply<PrInfo>,
                           request: ReviewRequest, output: string, whole: bool)
  {
    && Told(w, n, ReviewerSaid(request, output))
    && (info.Answer? ==> Told(w, n, InfoAnswer(pr, info.value))) && (whole ==> info.Answer?)
    && AsksFor(w, n, cfg, request, info, DiffToReview(cfg, diff), OmittedFromReview(cfg, diff), whole)
  }

  lemma ReviewedPersists(w: World, w': World, n: int, m: int, cfg: Config, pr: int, diff: DiffResult, info: Reply<PrInfo>,
                         request: ReviewRequest, output: string, whole: bool, whole': bool)
    requires Reviewed(w, n, cfg, pr, diff, info, request, output, whole) && w.events <= w'.events && m <= n && (whole' ==> whole)
    ensures Reviewed(w', m, cfg, pr, diff, info, request, output, whole')
  {
    ToldPersists(w, w', n, m, ReviewerSaid(request, output));
    if info.Answer? { ToldPersists(w, w', n, m, InfoAnswer(pr, info.value)); }
    AsksForPersists(w, w', n, m, cfg, request, info, DiffToReview(cfg, diff), OmittedFromReview(cfg, diff), whole, whole');
  }

  /** Since position `n` a dispatch for the trigger has run to its end, and its comment is there. */
  ghost predicate Delivered(w: World, n: int, cfg: Config, version: string, t: Trigger, whole: bool) {
    exists id, diff, info, request, output ::
      DeliveredFrom(w, n, cfg, version, t, id, diff, info, request, output, whole)
  }

  ghost predicate DeliveredFrom(w: World, n: int, cfg: Config, version: string, t: Trigger, id: int,
                                diff: DiffResult, info: Reply<PrInfo>, request: ReviewRequest, output: string, whole: bool)
  {
    && StandsFor(w, cfg.botHandle, id, t) && w.comments[id].body == Posting(version, t, ReportText(cfg, diff, output))
    && Told(w, n, DiffAnswer(t.pr, diff))
    && (GoesToReviewer(cfg, diff) ==> Reviewed(w, n, cfg, t.pr, diff, info, request, output, whole))
  }

  /** All there is at some moment: GitHub and its answers, memory, file, and how many calls have thrown. */
  datatype Moment = Moment(world: World, memory: State, file: Option<State>, faults: nat)

  /** One poll, from moment to moment: how it ended and what GitHub listed in it. */
  datatype Poll = Poll(before: Moment, after: Moment, exit: Exit, prs: seq<int>, sorted: seq<Comment>, decided: nat,
                       asked: seq<Option<PrDetail>>)

  class Watcher {
    const cfg: Config
    const version: string
    const io: WatcherIo
    const store: StateStore

    constructor (cfg: Config, version: string, io: WatcherIo)
      requires io.cfg == cfg
      ensures this.cfg == cfg && this.version == version && this.io == io && this.store == io.store
    {
      this.cfg, this.version, this.io, this.store := cfg, version, io, io.store;
    }

    ghost predicate Wired() {
      io.cfg == cfg && io.store == store && '>' !in version
    }

    ghost predicate Valid()
      reads io, store, store.file
    {
      Wired() && ProtocolOk(io.world, cfg, store.Image(), store.file.content)
    }

    /** The process lives on unless the exit says otherwise: a fatal error leaves every path, and a crash is one. */
    ghost predicate LeftBy(exit: Exit)
      reads io
    {
      (io.died <==> exit.Crashed?) && (io.fatal <==> exit.Thrown? && IsFatalGithub(exit.error))
    }

    ghost predicate LeftAfter(step: Step)
      reads io
    {
      (io.died <==> step.Halts?) && (io.fatal <==> step.Escapes? && IsFatalGithub(step.error))
    }

    ghost function Now(): Moment
      reads io, store, store.file
    {
      Moment(io.world, store.Image(), store.file.content, io.faults)
    }

    // --- Dispatch -----------------------------------------------------------------

    method Post(t: Trigger, text: string, ghost diff: DiffResult, ghost output: string)
      returns (r: Reply<()>, ghost posted: set<int>)
      requires Wired() && WellKeyed(io.world) && io.Running()
      requires text == ReportText(cfg, diff, output) && Reported(io.world, t.pr, cfg, diff, output)
      modifies io
      ensures Moves(old(io.world), io.world, cfg.botHandle, posted) && io.world.events == old(io.world).events
      ensures forall i, j :: i in posted && j in posted ==> i == j
      ensures StandOnlyFor(io.world, cfg.botHandle, posted, t)
      ensures io.Noted(r, old(io.faults))
      ensures r.Answer? ==> SaysOnly(io.world, posted, Posting(version, t, text))
    {
      var body := BuildMarker(version, t) + "\n\n" + text;
      ghost var w0 := io.world;
      r, posted := io.PostComment(t.pr, body);
      PostingIsFor(version, t, text);
      ReportedPersists(w0, io.world, t.pr, cfg, diff, output);
      forall id | id in posted ensures StandsFor(io.world, cfg.botHandle, id, t) && Written(io.world, io.world.comments[id]) {
        assert WrittenAs(io.world, io.world.comments[id], version, t, cfg, diff, output);
      }
    }

    /** Best effort: a failed fetch ends the collection, never the review. */
    method CollectContextFiles(diff: string, headSha: string)
      returns (files: seq<ContextFile>, died: bool, ghost answers: seq<FileContent>)
      requires Wired() && WellKeyed(io.world) && io.Running()
      modifies io
      ensures Drifts(old(io.world), io.world, cfg.botHandle) && io.faults >= old(io.faults)
      ensures !io.fatal && (io.died <==> died)
      ensures ContextIs(io.world, |old(io.world).events|, cfg, ChangedPathsOf(diff), headSha, answers, files,
                        !died && io.faults == old(io.faults))
    {
      files, died, answers := [], false, [];
      if cfg.maxContextTotalBytes == 0 || cfg.maxContextFiles == 0 || headSha == [] { return; }
      var paths := ChangedPaths(diff);
      files, died, answers := FetchContext(paths, headSha);
    }

    method FetchContext(paths: seq<string>, headSha: string)
      returns (files: seq<ContextFile>, died: bool, ghost answers: seq<FileContent>)
      requires Wired() && WellKeyed(io.world) && io.Running() && !Off(cfg, headSha)
      modifies io
      ensures Drifts(old(io.world), io.world, cfg.botHandle) && io.faults >= old(io.faults)
      ensures !io.fatal && (io.died <==> died)
      ensures ContextIs(io.world, |old(io.world).events|, cfg, paths, headSha, answers, files, !died && io.faults == old(io.faults))
    {
      files, died, answers := [], false, [];
      ghost var n := |io.world.events|;
      var total: nat := 0;
      var attempts := 0;
      for i := 0 to |paths|
        invariant Drifts(old(io.world), io.world, cfg.botHandle) && io.faults >= old(io.faults) && io.Running()
        invariant !died && |answers| == i == attempts <= cfg.maxContextFiles
        invariant Collecting(io.world, n, cfg, paths, headSha, answers, files, total)
      {
        if attempts >= cfg.maxContextFiles { break; }
        attempts := attempts + 1;
        ghost var before := io.world;
        var r := io.GetFileAtRef(paths[i], headSha);
        DriftsCompose(old(io.world), before, io.world, cfg.botHandle);
        CollectedPersists(before, io.world, n, n, cfg, paths, headSha, answers);
        match r {
          case Dies => died := true; return;
          case Throws(_) => break;
          case Answer(fc) =>
            CollectOne(before, io.world, n, cfg, paths, headSha, answers, files, total, fc);
            answers := answers + [fc];
            if !fc.found || fc.truncated { continue; }
            if '\0' in fc.body { continue; }
            if total + |fc.body| > cfg.maxContextTotalBytes { break; }
            total := total + |fc.body|;
            files := files + [ContextFile(paths[i], fc.body)];
        }
      }
    }

    /**
     Fetch the diff, trim it, gather context, run the reviewer and post. On return exactly one
     comment has landed, and it says what ReportText makes of the diff that GitHub gave in this call
     and of what the reviewer said to it. Fatal errors come out, except those of the context fetch.
     */
    method DispatchReview(t: Trigger)
      returns (r: Reply<()>, ghost posted: set<int>, ghost diff: DiffResult, ghost info: Reply<PrInfo>,
               ghost request: ReviewRequest, ghost output: string)
      requires Wired() && WellKeyed(io.world) && PayloadsOk(io.world, cfg) && io.Running()
      modifies io
      ensures Moves(old(io.world), io.world, cfg.botHandle, posted) && PayloadsOk(io.world, cfg)
      ensures forall i, j :: i in posted && j in posted ==> i == j
      ensures StandOnlyFor(io.world, cfg.botHandle, posted, t)
      ensures io.faults >= old(io.faults) && (r.Throws? ==> io.faults > old(io.faults)) && io.Left(r)
      ensures r.Answer? ==> SaysOnly(io.world, posted, Posting(version, t, ReportText(cfg, diff, output)))
      ensures r.Answer? ==> Told(io.world, |old(io.world).events|, DiffAnswer(t.pr, diff))
      ensures r.Answer? && GoesToReviewer(cfg, diff) ==>
        Reviewed(io.world, |old(io.world).events|, cfg, t.pr, diff, info, request, output, io.faults == old(io.faults))
    {
      ghost var w0 := io.world;
      posted, request, output := {}, ReviewRequest("", "", "", [], []), "";
      diff, info := DiffResult("", false), Dies;
      var d := io.StreamDiff(t.pr);
      ghost var w1 := io.world;
      if d.Throws? { r := Throws(d.error); return; }
      if d.Dies? { r := Dies; return; }
      diff := d.value;
      JustTold(w1, |w0.events|, DiffAnswer(t.pr, diff));
      if d.value.truncated {
        r, posted := Post(t, FetchNotice(cfg), diff, "");
      } else {
        r, posted, info, request, output := DispatchDiff(t, d.value);
        if r.Answer? && GoesToReviewer(cfg, diff) {
          ReviewedPersists(io.world, io.world, |w1.events|, |w0.events|, cfg, t.pr, diff, info, request, output,
                           io.faults == old(io.faults), io.faults == old(io.faults));
        }
      }
      MovesCompose(w0, w1, io.world, cfg.botHandle, {}, posted);
      if r.Answer? { ToldPersists(w1, io.world, |w0.events|, |w0.events|, DiffAnswer(t.pr, diff)); }
    }

    /** Trim an over-budget diff; `note` is what the comment says about that. */
    method FitToBudget(diff: DiffResult) returns (fits: bool, text: string, omitted: seq<string>, note: string)
      requires !diff.truncated
      ensures fits <==> GoesToReviewer(cfg, diff)
      ensures fits <==> |diff.body| <= cfg.maxDiffBytes || AnySectionFits(diff.body, cfg.maxDiffBytes)
      ensures |diff.body| <= cfg.maxDiffBytes ==> text == diff.body && omitted == [] && note == ""
      ensures fits && |diff.body| > cfg.maxDiffBytes ==> note == TrimNote(cfg, TrimOf(diff.body, cfg.maxDiffBytes))
      ensures !fits ==> forall output :: ReportText(cfg, diff, output) == NothingFitsNotice(cfg)
      ensures fits ==> text == DiffToReview(cfg, diff) && omitted == OmittedFromReview(cfg, diff) && |text| <= cfg.maxDiffBytes
      ensures fits ==> forall output :: ReportText(cfg, diff, output) == output + note
      ensures '>' !in note
    {
      text, omitted, note := diff.body, [], "";
      TrimAccountsForEverything(diff.body, cfg.maxDiffBytes);
      TrimKeepsWhatFits(diff.body, cfg.maxDiffBytes);
      if |text| > cfg.maxDiffBytes {
        var trimmed := TrimDiffToBudget(text, cfg.maxDiffBytes);
        if trimmed.kept == 0 { return false, "", [], ""; }
        note := TrimNote(cfg, trimmed);
        TrimNoteIsPlain(cfg, trimmed);
        text, omitted := trimmed.diff, trimmed.omitted;
      } else {
        assert forall output: string :: output + "" == output;
      }
      fits := true;
    }

    method DispatchDiff(t: Trigger, diff: DiffResult)
      returns (r: Reply<()>, ghost posted: set<int>, ghost info: Reply<PrInfo>, ghost request: ReviewRequest, ghost output: string)
      requires Wired() && WellKeyed(io.world) && PayloadsOk(io.world, cfg) && io.Running()
      requires !diff.truncated && DiffAnswer(t.pr, diff) in io.world.events
      modifies io
      ensures Moves(old(io.world), io.world, cfg.botHandle, posted) && PayloadsOk(io.world, cfg)
      ensures forall i, j :: i in posted && j in posted ==> i == j
      ensures StandOnlyFor(io.world, cfg.botHandle, posted, t)
      ensures io.faults >= old(io.faults) && (r.Throws? ==> io.faults > old(io.faults)) && io.Left(r)
      ensures r.Answer? ==> SaysOnly(io.world, posted, Posting(version, t, ReportText(cfg, diff, output)))
      ensures r.Answer? && GoesToReviewer(cfg, diff) ==>
        Reviewed(io.world, |old(io.world).events|, cfg, t.pr, diff, info, request, output, io.faults == old(io.faults))
    {
      ghost var w0, faults := io.world, io.faults;
      posted, request, output := {}, ReviewRequest("", "", "", [], []), "";
      var prInfo := io.GetPrInfo(t.pr);
      info := prInfo;
      ghost var w1 := io.world;
      if prInfo.Dies? { r := Dies; return; }
      if prInfo.Throws? && IsFatalGithub(prInfo.error) { r := Throws(prInfo.error); return; }

      var fits, text, omitted, note := FitToBudget(diff);
      if !fits {
        assert ReportText(cfg, diff, "") == NothingFitsNotice(cfg);
        r, posted := Post(t, NothingFitsNotice(cfg), diff, "");
        MovesCompose(w0, w1, io.world, cfg.botHandle, {}, posted);
        return;
      }
      ghost var w2;
      r, posted, request, output, w2 := ReviewAndPost(t, prInfo, text, omitted, note, diff);
      MovesCompose(w0, w1, w2, cfg.botHandle, {}, {});
      MovesCompose(w0, w2, io.world, cfg.botHandle, {}, posted);
      if r.Answer? { InfoIsOnRecord(w0, w1, io.world, t.pr, diff, info, request, output, io.faults == faults); }
    }

    lemma InfoIsOnRecord(w0: World, w1: World, w: World, pr: int, diff: DiffResult, info: Reply<PrInfo>,
                         request: ReviewRequest, output: string, whole: bool)
      requires w1.events == w0.events + (if info.Answer? then [InfoAnswer(pr, info.value)] else []) && w1.events <= w.events
      requires Told(w, |w1.events|, ReviewerSaid(request, output)) && (whole ==> info.Answer?)
      requires AsksFor(w, |w1.events|, cfg, request, info, DiffToReview(cfg, diff), OmittedFromReview(cfg, diff), whole)
      ensures Reviewed(w, |w0.events|, cfg, pr, diff, info, request, output, whole)
    {
      if info.Answer? {
        JustTold(w1, |w0.events|, InfoAnswer(pr, info.value));
        ToldPersists(w1, w, |w0.events|, |w0.events|, InfoAnswer(pr, info.value));
      }
      ToldPersists(w, w, |w1.events|, |w0.events|, ReviewerSaid(request, output));
      AsksForPersists(w, w, |w1.events|, |w0.events|, cfg, request, info, DiffToReview(cfg, diff), OmittedFromReview(cfg, diff), whole, whole);
    }

    /** The rest of a dispatch once there is something to review. `before` is the world at the post. */
    method ReviewAndPost(t: Trigger, info: Reply<PrInfo>, text: string, omitted: seq<string>, note: string, ghost diff: DiffResult)
      returns (r: Reply<()>, ghost posted: set<int>, ghost request: ReviewRequest, ghost output: string, ghost before: World)
      requires Wired() && WellKeyed(io.world) && PayloadsOk(io.world, cfg) && io.Running()
      requires !info.Dies? && |text| <= cfg.maxDiffBytes && DiffAnswer(t.pr, diff) in io.world.events
      requires text == DiffToReview(cfg, diff) && omitted == OmittedFromReview(cfg, diff)
      requires forall said :: ReportText(cfg, diff, said) == said + note
      modifies io
      ensures Moves(old(io.world), before, cfg.botHandle, {}) && Moves(before, io.world, cfg.botHandle, posted)
      ensures PayloadsOk(io.world, cfg)
      ensures forall i, j :: i in posted && j in posted ==> i == j
      ensures StandOnlyFor(io.world, cfg.botHandle, posted, t)
      ensures io.faults >= old(io.faults) && (r.Throws? ==> io.faults > old(io.faults)) && io.Left(r)
      ensures r.Answer? ==> Told(io.world, |old(io.world).events|, ReviewerSaid(request, output))
      ensures r.Answer? ==> SaysOnly(io.world, posted, Posting(version, t, ReportText(cfg, diff, output)))
      ensures r.Answer? ==>
        AsksFor(io.world, |old(io.world).events|, cfg, request, info, text, omitted, io.faults == old(io.faults))
    {
      ghost var w0, faults := io.world, io.faults;
      ghost var n := |w0.events|;
      posted, output, before := {}, "", w0;
      var toReview := ReviewRequest(text, "", "", [], omitted);
      ghost var answers: seq<FileContent> := [];
      if info.Answer? {
        var files, died;
        files, died, answers := CollectContextFiles(text, info.value.headSha);
        toReview := ReviewRequest(text, info.value.title, info.value.body, files, omitted);
        before := io.world;
        if died { return Dies, posted, toReview, output, before; }
      }
      request := toReview;
      ContextIsOk(cfg, toReview, answers);
      ghost var w1 := io.world;
      ghost var whole := io.faults == faults;
      assert AsksFor(w1, n, cfg, toReview, info, text, omitted, whole);
      r, posted, output, before := AskAndPost(t, toReview, note, diff);
      MovesCompose(w0, w1, before, cfg.botHandle, {}, {});
      if r.Answer? {
        ToldPersists(io.world, io.world, |w1.events|, n, ReviewerSaid(request, output));
        AsksForPersists(w1, io.world, n, n, cfg, request, info, text, omitted, whole, io.faults == faults);
      }
    }

    /** Run the reviewer, and post what it says. `before` is the world at the post. */
    method AskAndPost(t: Trigger, request: ReviewRequest, note: string, ghost diff: DiffResult)
      returns (r: Reply<()>, ghost posted: set<int>, ghost output: string, ghost before: World)
      requires Wired() && WellKeyed(io.world) && PayloadsOk(io.world, cfg) && io.Running() && PayloadOk(cfg, request)
      requires DiffAnswer(t.pr, diff) in io.world.events
      requires request.diff == DiffToReview(cfg, diff) && request.omittedFiles == OmittedFromReview(cfg, diff)
      requires forall said :: ReportText(cfg, diff, said) == said + note
      modifies io
      ensures Moves(old(io.world), before, cfg.botHandle, {}) && Moves(before, io.world, cfg.botHandle, posted)
      ensures PayloadsOk(io.world, cfg)
      ensures forall i, j :: i in posted && j in posted ==> i == j
      ensures StandOnlyFor(io.world, cfg.botHandle, posted, t)
      ensures io.Noted(r, old(io.faults))
      ensures r.Answer? ==> Told(io.world, |old(io.world).events|, ReviewerSaid(request, output))
      ensures r.Answer? ==> SaysOnly(io.world, posted, Posting(version, t, ReportText(cfg, diff, output)))
    {
      ghost var n := |io.world.events|;
      posted, output := {}, "";
      var said := io.RunReviewer(request);
      before := io.world;
      if said.Throws? { return Throws(said.error), posted, output, before; }
      if said.Dies? { return Dies, posted, output, before; }
      output := said.value;
      JustTold(before, n, ReviewerSaid(request, output));
      assert Said(before, cfg, diff, output);
      r, posted := Post(t, said.value + note, diff, output);
      ToldPersists(before, io.world, n, n, ReviewerSaid(request, output));
    }

    // --- One trigger, at most one comment --------------------------------------------

    /** The marker test: some comment of the bot's in the listing carries the key. */
    method AlreadyPosted(cs: seq<Comment>, t: Trigger) returns (found: bool)
      ensures found <==> exists c :: c in cs && ByBot(c, cfg.botHandle) && BodyHasMarkerKey(c.body, t)
    {
      for i := 0 to |cs|
        invariant forall k :: 0 <= k < i ==> !(ByBot(cs[k], cfg.botHandle) && BodyHasMarkerKey(cs[k].body, t))
      {
        var mine := EqLogin(cs[i].login, cfg.botHandle);
        if mine && BodyHasMarkerKey(cs[i].body, t) { return true; }
      }
      return false;
    }

    /**
     Look for the marker, and dispatch only if it is not there. A decision means that the key was
     there, or that a dispatch has delivered its comment.
     */
    method PostOnce(t: Trigger) returns (step: Step)
      requires Valid() && Warranted(io.world, cfg.botHandle, t) && io.Running()
      modifies io
      ensures Valid() && Later(old(io.world), io.world, cfg.botHandle)
      ensures step.Decided? ==> Served(io.world, cfg.botHandle, t)
      ensures step.Decided? ==> PostedOrThere(old(io.world), io.world, t, io.faults == old(io.faults))
      ensures io.faults >= old(io.faults) && LeftAfter(step)
      ensures step.Retry? || step.Escapes? ==> io.faults > old(io.faults)
      ensures step.Escapes? ==> IsFatalGithub(step.error)
    {
      ghost var w0, faults := io.world, io.faults;
      var listing := io.ListPrComments(t.pr);
      ghost var w1 := io.world;
      DriftKeepsProtocol(w0, w1, cfg, store.Image(), store.file.content);
      if listing.Dies? { return Halts; }
      if listing.Throws? { return if IsFatalGithub(listing.error) then Escapes(listing.error) else Retry; }
      var already := AlreadyPosted(listing.value, t);
      ListedMarkerCarries(w1, cfg.botHandle, t, listing.value);
      CarriesExactly(w1, cfg.botHandle, t);
      if already {
        return Decided;
      }
      WarrantPersists(w0, w1, cfg.botHandle, t);
      step := DispatchOnce(t);
      LaterCompose(w0, w1, io.world, cfg.botHandle);
    }

    /** The key was there when GitHub was asked, and nothing was dispatched; or the dispatch delivered. */
    ghost predicate PostedOrThere(w0: World, w: World, t: Trigger, whole: bool) {
      CarriedBefore(w0, w, t) || Delivered(w, |w0.events|, cfg, version, t, whole)
    }

    method DispatchOnce(t: Trigger) returns (step: Step)
      requires Valid() && Warranted(io.world, cfg.botHandle, t) && io.Running() && !Carries(io.world, cfg.botHandle, t)
      modifies io
      ensures Valid() && Later(old(io.world), io.world, cfg.botHandle)
      ensures step.Decided? ==> Served(io.world, cfg.botHandle, t)
      ensures step.Decided? ==> Delivered(io.world, |old(io.world).events|, cfg, version, t, io.faults == old(io.faults))
      ensures io.faults >= old(io.faults) && LeftAfter(step)
      ensures step.Retry? || step.Escapes? ==> io.faults > old(io.faults)
      ensures step.Escapes? ==> IsFatalGithub(step.error)
    {
      ghost var w0, faults := io.world, io.faults;
      var r, posted, diff, info, request, output := DispatchReview(t);
      DispatchKeepsProtocol(w0, io.world, cfg, posted, t, store.Image(), store.file.content);
      match r {
        case Dies => return Halts;
        case Throws(e) => return if IsFatalGithub(e) then Escapes(e) else Retry;
        case Answer(_) =>
          LandedServes(io.world, cfg.botHandle, t, posted);
          LandedIsDelivered(io.world, |w0.events|, t, posted, diff, info, request, output, io.faults == faults);
          return Decided;
      }
    }

    lemma LandedIsDelivered(w: World, n: int, t: Trigger, posted: set<int>, diff: DiffResult, info: Reply<PrInfo>,
                            request: ReviewRequest, output: string, whole: bool)
      requires StandOnlyFor(w, cfg.botHandle, posted, t) && SaysOnly(w, posted, Posting(version, t, ReportText(cfg, diff, output)))
      requires Told(w, n, DiffAnswer(t.pr, diff))
      requires GoesToReviewer(cfg, diff) ==> Reviewed(w, n, cfg, t.pr, diff, info, request, output, whole)
      ensures Delivered(w, n, cfg, version, t, whole)
    {
      var id :| id in posted;
      assert DeliveredFrom(w, n, cfg, version, t, id, diff, info, request, output, whole);
    }

    /** Some comment carried the key without a dispatch: one that GitHub had when it was asked. */
    ghost predicate CarriedBefore(w0: World, w: World, t: Trigger) {
      w.events == w0.events && Carries(w, cfg.botHandle, t)
    }

    // --- The auto path ----------------------------------------------------------------

    /**
     The `k`-th review, an approval. None says that a stranger gave it, and the next one counts. `i`
     is where GitHub listed the reviews.
     */
    method TryApproval(pr: int, review: Review, ghost reviews: seq<Review>, ghost i: int, ghost k: int)
      returns (exit: Option<Exit>)
      requires Valid() && io.Running()
      requires At(io.world, i, ReviewsAnswer(pr, reviews)) && StrangersBefore(io.world, i, reviews, k)
      requires 0 <= k < |reviews| && reviews[k] == review && review.state == "APPROVED"
      modifies io, store, store.file
      ensures Valid() && Later(old(io.world), io.world, cfg.botHandle)
      ensures exit.None? ==> io.Running() && io.faults == old(io.faults)
      ensures exit.None? ==> io.world.events == old(io.world).events + [CollaboratorAnswer(review.login, false)]
      ensures exit.None? ==> store.Image() == old(store.Image()) && store.file.content == old(store.file.content)
      ensures exit.Some? ==> AutoStep(io.world, i, pr, old(store.Image()), store.Image()) && LeftBy(exit.value)
      ensures exit.Some? && !PlainLogin(review.login) ==>
        exit == Some(Done) && io.world.events == old(io.world).events && io.faults == old(io.faults)
        && store.Image() == old(store.Image()) && store.file.content == old(store.file.content)
      ensures exit == Some(Done) && io.faults == old(io.faults) && PlainLogin(review.login) ==>
        && pr in store.Image().reviewed && Approved(io.world, i, pr)
        && Kept(old(store.Image()), old(store.file.content), store.Image(), store.file.content)
      ensures io.faults >= old(io.faults)
      ensures exit.Some? && exit.value.Thrown? ==> IsFatalGithub(exit.value.error) && io.faults > old(io.faults)
    {
      var bot := cfg.botHandle;
      ghost var w0 := io.world;
      var collaborator := io.IsCollaborator(review.login);
      ghost var w1 := io.world;
      DriftKeepsProtocol(w0, w1, cfg, store.Image(), store.file.content);
      match collaborator {
        case Dies => return Some(Crashed);
        case Throws(e) => return Some(if IsFatalGithub(e) then Thrown(e) else Done);
        case Answer(yes) =>
          if !yes { return None; }
      }
      ApprovalCounts(w0, w1, pr, reviews, i, k);
      var done := ReviewApproved(pr, i);
      LaterCompose(w0, w1, io.world, bot);
      exit := Some(done);
    }

    /** The approval counts: review, then make it durable. */
    method ReviewApproved(pr: int, ghost i: int) returns (exit: Exit)
      requires Valid() && io.Running() && Approved(io.world, i, pr) && Warranted(io.world, cfg.botHandle, AutoTrigger(pr))
      modifies io, store, store.file
      ensures Valid() && Later(old(io.world), io.world, cfg.botHandle)
      ensures AutoStep(io.world, i, pr, old(store.Image()), store.Image()) && LeftBy(exit)
      ensures exit.Done? && io.faults == old(io.faults) ==>
        && pr in store.Image().reviewed && Approved(io.world, i, pr)
        && PostedOrThere(old(io.world), io.world, AutoTrigger(pr), true)
        && Kept(old(store.Image()), old(store.file.content), store.Image(), store.file.content)
      ensures io.faults >= old(io.faults)
      ensures exit.Thrown? ==> IsFatalGithub(exit.error) && io.faults > old(io.faults)
    {
      ghost var w0 := io.world;
      var step := PostOnce(AutoTrigger(pr));
      ApprovedPersists(w0, io.world, i, i, pr);
      match step {
        case Halts => return Crashed;
        case Escapes(e) => return Thrown(e);
        case Retry => return Done;
        case Decided => exit := RecordReviewed(pr);
      }
    }

    /** A failed save is only logged: the file then lags behind. */
    method RecordReviewed(pr: int) returns (exit: Exit)
      requires Valid() && io.Running() && Served(io.world, cfg.botHandle, AutoTrigger(pr))
      modifies io, store, store.file
      ensures Valid() && io.world == old(io.world)
      ensures store.Image() == old(store.Image()).(reviewed := old(store.Image()).reviewed + {pr})
      ensures (exit.Done? || exit.Crashed?) && LeftBy(exit) && io.faults >= old(io.faults)
      ensures exit.Done? && io.faults == old(io.faults) ==> store.file.content == Some(store.Image())
    {
      store.MarkReviewed(pr);
      EarlierTransitive(Loaded(store.file.content), old(store.Image()), store.Image());
      SaveIsSafe(io.world, cfg, store.Image(), store.file.content);
      var saved := io.SaveState();
      return if saved.Dies? then Crashed else Done;
    }

    lemma ApprovalCounts(w0: World, w1: World, pr: int, reviews: seq<Review>, i: int, k: int)
      requires At(w0, i, ReviewsAnswer(pr, reviews)) && StrangersBefore(w0, i, reviews, k)
      requires 0 <= k < |reviews| && reviews[k].state == "APPROVED"
      requires w1.events == w0.events + [CollaboratorAnswer(reviews[k].login, true)]
      ensures Approved(w1, i, pr) && Warranted(w1, cfg.botHandle, AutoTrigger(pr))
    {
      AtPersists(w0, w1, i, ReviewsAnswer(pr, reviews));
      StrangersPersist(w0, w1, i, reviews, k);
      JustTold(w1, i, CollaboratorAnswer(reviews[k].login, true));
      assert ApprovedAt(w1, i, pr, reviews, i, k);
      ApprovedPersists(w1, w1, i, 0, pr);
    }

    /** The file has the memory, or neither has changed. */
    static ghost predicate Kept(before: State, file: Option<State>, after: State, file': Option<State>) {
      file' == Some(after) || (file' == file && after == before)
    }

    /**
     The body of the auto path's loop. Without faults a pull request that was not reviewed becomes so
     exactly if, in this call, GitHub listed an approval and called its author a collaborator, and
     everyone who approved before a stranger.
     */
    method ReviewPr(pr: int) returns (exit: Exit)
      requires Valid() && io.Running()
      modifies io, store, store.file
      ensures Valid() && Later(old(io.world), io.world, cfg.botHandle)
      ensures AutoStep(io.world, |old(io.world).events|, pr, old(store.Image()), store.Image())
      ensures io.faults >= old(io.faults) && LeftBy(exit)
      ensures exit.Done? && io.faults == old(io.faults) ==>
        && DealtWith(io.world, |old(io.world).events|, store.Image(), pr)
        && (pr !in old(store.Image()).reviewed ==>
              (pr in store.Image().reviewed <==> Approved(io.world, |old(io.world).events|, pr)))
        && Kept(old(store.Image()), old(store.file.content), store.Image(), store.file.content)
      ensures exit.Thrown? ==> IsFatalGithub(exit.error) && io.faults > old(io.faults)
    {
      if store.Reviewed(pr) { return Done; }
      var bot := cfg.botHandle;
      ghost var w0, st0, file0, faults := io.world, store.Image(), store.file.content, io.faults;
      ghost var n := |w0.events|;
      var listing := io.ListReviews(pr);
      DriftKeepsProtocol(w0, io.world, cfg, store.Image(), store.file.content);
      if listing.Dies? { return Crashed; }
      if listing.Throws? { return if IsFatalGithub(listing.error) then Thrown(listing.error) else Done; }
      var reviews := listing.value;
      assert At(io.world, n, ReviewsAnswer(pr, reviews));
      for k := 0 to |reviews|
        invariant Valid() && Later(w0, io.world, bot) && io.faults == faults && io.Running()
        invariant store.Image() == st0 && store.file.content == file0
        invariant At(io.world, n, ReviewsAnswer(pr, reviews)) && StrangersBefore(io.world, n, reviews, k)
        invariant NoYes(io.world, n)
      {
        if reviews[k].state != "APPROVED" { continue; }
        ghost var w1 := io.world;
        var done := TryApproval(pr, reviews[k], reviews, n, k);
        LaterCompose(w0, w1, io.world, bot);
        if done.Some? {
          if !PlainLogin(reviews[k].login) { GaveUp(w1, io.world, n, pr, reviews, k); }
          return done.value;
        }
        OneMoreStranger(w1, io.world, n, reviews, k);
      }
      exit := Done;
      NoYesNoApproval(io.world, n, pr);
      assert ReviewsAt(io.world, n, pr, reviews, n);
    }

    lemma GaveUp(w: World, w': World, n: int, pr: int, reviews: seq<Review>, k: int)
      requires At(w, n, ReviewsAnswer(pr, reviews)) && StrangersBefore(w, n, reviews, k) && NoYes(w, n)
      requires 0 <= k < |reviews| && reviews[k].state == "APPROVED" && !PlainLogin(reviews[k].login)
      requires w'.events == w.events
      ensures ApprovalRefused(w', n, pr) && !Approved(w', n, pr)
    {
      AtPersists(w, w', n, ReviewsAnswer(pr, reviews));
      StrangersPersist(w, w', n, reviews, k);
      assert ReviewsAt(w', n, pr, reviews, n) && RefusedAt(w', n, reviews, k);
      NoYesNoApproval(w', n, pr);
    }

    lemma OneMoreStranger(w: World, w': World, n: int, reviews: seq<Review>, k: int)
      requires StrangersBefore(w, n, reviews, k) && NoYes(w, n) && 0 <= k < |reviews| && n <= |w.events|
      requires w'.events == w.events + [CollaboratorAnswer(reviews[k].login, false)]
      ensures StrangersBefore(w', n, reviews, k + 1) && NoYes(w', n)
    {
      StrangersPersist(w, w', n, reviews, k);
      JustTold(w', n, CollaboratorAnswer(reviews[k].login, false));
    }

    /** GitHub listed these since position `n`, or the call that asks for them failed. */
    ghost predicate Listing(w: World, n: int, prs: seq<int>, failed: bool) {
      Told(w, n, OpenPrsAnswer(prs)) || (prs == [] && failed)
    }

    /**
     `prs` are the open pull requests that GitHub listed in this call, and `failed` those about which a
     call failed: a fault costs the look at one pull request, unless it ends the process.
     */
    method RunAutoPath() returns (exit: Exit, ghost prs: seq<int>, ghost failed: set<int>)
      requires Valid() && io.Running()
      modifies io, store, store.file
      ensures Valid() && Later(old(io.world), io.world, cfg.botHandle)
      ensures Listing(io.world, |old(io.world).events|, prs, io.died || io.faults > old(io.faults))
      ensures AutoProgress(io.world, |old(io.world).events|, old(store.Image()), store.Image(), prs)
      ensures io.faults >= old(io.faults) && LeftBy(exit)
      ensures exit.Done? ==> AutoComplete(io.world, |old(io.world).events|, store.Image(), prs, failed)
      ensures exit.Done? ==> |failed| <= io.faults - old(io.faults)
      ensures exit.Done? && io.faults == old(io.faults) ==>
        Kept(old(store.Image()), old(store.file.content), store.Image(), store.file.content)
      ensures exit.Thrown? ==> IsFatalGithub(exit.error) && io.faults > old(io.faults)
    {
      ghost var w0, st0, file0, faults := io.world, store.Image(), store.file.content, io.faults;
      ghost var n := |w0.events|;
      failed := {};
      var listing := io.ListOpenPrs();
      DriftKeepsProtocol(w0, io.world, cfg, store.Image(), store.file.content);
      if listing.Dies? { return Crashed, [], {}; }
      if listing.Throws? { return if IsFatalGithub(listing.error) then Thrown(listing.error) else Done, [], {}; }
      prs := listing.value;
      JustTold(io.world, n, OpenPrsAnswer(prs));
      for i := 0 to |listing.value|
        invariant Valid() && Later(w0, io.world, cfg.botHandle) && io.faults >= faults && io.Running()
        invariant AutoDone(io.world, n, st0, store.Image(), prs, i, failed) && |failed| <= io.faults - faults
        invariant io.faults == faults ==> Kept(st0, file0, store.Image(), store.file.content)
      {
        ghost var w, st, before := io.world, store.Image(), io.faults;
        exit := ReviewPr(listing.value[i]);
        LaterCompose(w0, w, io.world, cfg.botHandle);
        AutoMoved(w, io.world, n, |w.events|, st0, st, store.Image(), prs, i, failed);
        if !exit.Done? { return exit, prs, failed; }
        ghost var bad := io.faults > before;
        AutoNext(w, io.world, n, |w.events|, st0, st, store.Image(), prs, i, failed, bad);
        if bad { failed := failed + {prs[i]}; }
      }
      assert prs[..|prs|] == prs;
      exit := Done;
    }

    // --- The ping path ----------------------------------------------------------------

    /**
     Decide one comment of the listing, which was listed at position `at`. `mentionMatched` tells
     whether it was a new mention, and only then may deciding it be recorded in the handled set.
     `asked` is what GitHub said about its issue in this call, if the question got an answer. A mention
     is only decided on what GitHub says in this call.
     */
    method Classify(c: Comment, ghost at: int) returns (step: Step, mentionMatched: bool, ghost asked: Option<PrDetail>)
      requires Valid() && io.Running() && ListedAt(io.world, at, c)
      modifies io
      ensures Valid() && Later(old(io.world), io.world, cfg.botHandle)
      ensures mentionMatched <==> NeedsAnswer(store.Image(), cfg.botHandle, c)
      ensures step.Decided? && mentionMatched ==> ResolvedSince(io.world, cfg.botHandle, c, |old(io.world).events|)
      ensures step.Decided? && mentionMatched ==> Answered(io.world, cfg.botHandle, c)
      ensures step.Decided? && KeyLess(store.Image().cursor, KeyOf(c)) ==> Settled(io.world, cfg.botHandle, c)
      ensures !step.Decided? ==> mentionMatched
      ensures io.faults >= old(io.faults) && (step.Retry? ==> io.faults > old(io.faults)) && LeftAfter(step)
      ensures AskedAbout(io.world, |old(io.world).events|, store.Image(), cfg.botHandle, c, asked)
      ensures step.Decided? ==> Questioned(store.Image(), cfg.botHandle, c, asked)
      ensures Blocks(store.Image(), cfg.botHandle, c, asked) ==> step == Escapes(GithubError(0, false))
      ensures step.Escapes? && io.faults == old(io.faults) ==> Blocks(store.Image(), cfg.botHandle, c, asked)
    {
      mentionMatched, asked := false, None;
      ghost var w0 := io.world;
      var seen := store.IsAtOrBeforeCursor(c.updatedAt, c.id);
      if seen { return Decided, false, None; }
      if store.Handled(c.id) {
        HandledSettles(io.world, cfg.botHandle, store.Image(), c);
        return Decided, false, None;
      }
      var mine := EqLogin(c.login, cfg.botHandle);
      if mine { return Decided, false, None; }
      var mentioned := MentionMatches(c.body, cfg.botHandle);
      if !mentioned { return Decided, false, None; }
      mentionMatched := true;
      assert Mentioned(w0, cfg.botHandle, c, c.id, at);

      var issueNumber := ParseIssueNumberFromUrl(c.issueUrl);
      if issueNumber <= 0 {
        assert ResolvedSince(w0, cfg.botHandle, c, at);
        return Decided, true, None;
      }
      step, asked := AnswerMention(c, issueNumber, at);
      if step.Decided? { ListedThenResolved(w0, io.world, c, at, |w0.events|); }
    }

    lemma ListedThenResolved(w0: World, w: World, c: Comment, at: int, n: int)
      requires Later(w0, w, cfg.botHandle) && Mentioned(w0, cfg.botHandle, c, c.id, at) && at <= n
      requires ResolvedSince(w, cfg.botHandle, c, n)
      ensures Answered(w, cfg.botHandle, c)
    {
      ResolvedPersists(w, w, cfg.botHandle, c, n, at);
      assert Mentioned(w, cfg.botHandle, c, c.id, at);
    }

    /** A mention with an issue number: answer it, or find out why not. */
    method AnswerMention(c: Comment, issueNumber: int, ghost at: int) returns (step: Step, ghost asked: Option<PrDetail>)
      requires Valid() && io.Running() && Mentioned(io.world, cfg.botHandle, c, c.id, at)
      requires NeedsAnswer(store.Image(), cfg.botHandle, c) && issueNumber == IssueNumber(c.issueUrl) > 0
      modifies io
      ensures Valid() && Later(old(io.world), io.world, cfg.botHandle)
      ensures step.Decided? ==> ResolvedSince(io.world, cfg.botHandle, c, |old(io.world).events|) && asked.Some?
      ensures io.faults >= old(io.faults) && (step.Retry? ==> io.faults > old(io.faults)) && LeftAfter(step)
      ensures asked.Some? ==> Told(io.world, |old(io.world).events|, DetailAnswer(issueNumber, asked.value))
      ensures asked.Some? && OpenPr(asked.value) && !PlainLogin(c.login) ==> step == Escapes(GithubError(0, false))
      ensures step.Escapes? && io.faults == old(io.faults) ==> asked.Some? && OpenPr(asked.value) && !PlainLogin(c.login)
    {
      ghost var w0 := io.world;
      ghost var n := |w0.events|;
      asked := None;
      var detail := io.GetIssueDetail(issueNumber);
      ghost var w1 := io.world;
      DriftKeepsProtocol(w0, w1, cfg, store.Image(), store.file.content);
      match detail {
        case Dies => return Halts, None;
        case Throws(e) => return if IsFatalGithub(e) then Escapes(e) else Retry, None;
        case Answer(d) =>
          asked := Some(d);
          JustTold(w1, n, DetailAnswer(issueNumber, d));
          if !d.isPr || d.state != "open" {
            assert ResolvedAt(w1, cfg.botHandle, c, n, d);
            return Decided, asked;
          }
          step := AnswerOnOpenPr(c, d, at, n);
          LaterCompose(w0, w1, io.world, cfg.botHandle);
          ToldPersists(w1, io.world, n, n, DetailAnswer(issueNumber, d));
      }
    }

    /**
     A mention on an open pull request, as GitHub said at position `i`: strangers get no answer, and a
     login without a lookup ends the path.
     */
    method AnswerOnOpenPr(c: Comment, d: PrDetail, ghost at: int, ghost i: int) returns (step: Step)
      requires Valid() && io.Running() && Mentioned(io.world, cfg.botHandle, c, c.id, at) && OpenPr(d)
      requires at < i && At(io.world, i, DetailAnswer(IssueNumber(c.issueUrl), d))
      modifies io
      ensures Valid() && Later(old(io.world), io.world, cfg.botHandle)
      ensures step.Decided? ==>
        || Told(io.world, |old(io.world).events|, CollaboratorAnswer(c.login, false))
        || (Told(io.world, |old(io.world).events|, CollaboratorAnswer(c.login, true))
            && Served(io.world, cfg.botHandle, PingTrigger(d.number, c.id)))
      ensures step.Decided? ==> ResolvedAt(io.world, cfg.botHandle, c, i, d)
      ensures io.faults >= old(io.faults) && (step.Retry? ==> io.faults > old(io.faults)) && LeftAfter(step)
      ensures !PlainLogin(c.login) ==> step == Escapes(GithubError(0, false))
      ensures step.Escapes? && io.faults == old(io.faults) ==> !PlainLogin(c.login)
    {
      ghost var w0 := io.world;
      ghost var n := |w0.events|;
      var collaborator := io.IsCollaborator(c.login);
      ghost var w1 := io.world;
      DriftKeepsProtocol(w0, w1, cfg, store.Image(), store.file.content);
      AtPersists(w0, w1, i, DetailAnswer(IssueNumber(c.issueUrl), d));
      match collaborator {
        case Dies => return Halts;
        case Throws(e) => return Escapes(e);
        case Answer(yes) =>
          JustTold(w1, n, CollaboratorAnswer(c.login, yes));
          ToldPersists(w1, w1, n, i, CollaboratorAnswer(c.login, yes));
          if !yes { return Decided; }
          assert AskedAt(w1, cfg.botHandle, c, c.id, d.number, at, i, d);
          step := PostOnce(PingTrigger(d.number, c.id));
          LaterCompose(w0, w1, io.world, cfg.botHandle);
          AtPersists(w1, io.world, i, DetailAnswer(IssueNumber(c.issueUrl), d));
          ToldPersists(w1, io.world, n, n, CollaboratorAnswer(c.login, true));
      }
    }

    /** The body of the ping path's loop: classify, and make a decision durable. */
    method HandleComment(c: Comment, ghost sorted: seq<Comment>, ghost i: nat, ghost since: string, ghost at: int)
      returns (step: Step, committed: bool, ghost asked: Option<PrDetail>)
      requires Valid() && io.Running() && InHand(io.world, sorted, since, at) && i < |sorted| && sorted[i] == c
      requires forall j :: 0 <= j < i ==> KeyAtMost(KeyOf(sorted[j]), store.Image().cursor)
      requires !Less(store.Image().cursor.updatedAt, since)
      modifies io, store, store.file
      ensures Valid() && Later(old(io.world), io.world, cfg.botHandle)
      ensures committed ==> store.Image() == Decide(old(store.Image()), cfg.botHandle, c)
      ensures committed && NeedsAnswer(old(store.Image()), cfg.botHandle, c) ==>
        ResolvedSince(io.world, cfg.botHandle, c, |old(io.world).events|)
      ensures !committed ==> store.Image() == old(store.Image()) && store.file.content == old(store.file.content)
      ensures !committed ==> KeyLess(store.Image().cursor, KeyOf(c))
      ensures step.Decided? ==> committed
      ensures step.Decided? && io.faults == old(io.faults) ==> store.file.content == Some(store.Image())
      ensures step.Retry? || step.Escapes? ==> !committed
      ensures Earlier(old(store.Image()), store.Image())
      ensures io.faults >= old(io.faults) && (step.Retry? ==> io.faults > old(io.faults)) && LeftAfter(step)
      ensures AskedAbout(io.world, |old(io.world).events|, old(store.Image()), cfg.botHandle, c, asked)
      ensures committed ==> Questioned(old(store.Image()), cfg.botHandle, c, asked)
      ensures Blocks(old(store.Image()), cfg.botHandle, c, asked) ==> step == Escapes(GithubError(0, false))
      ensures step.Escapes? && io.faults == old(io.faults) ==> Blocks(old(store.Image()), cfg.botHandle, c, asked)
    {
      ghost var w0, st := io.world, store.Image();
      KeyOrder();
      var mentionMatched;
      step, mentionMatched, asked := Classify(c, at);
      InHandPersists(w0, io.world, cfg.botHandle, sorted, since, at);
      if !step.Decided? { return step, false, asked; }
      DecideKeepsStateOk(io.world, cfg.botHandle, st, sorted, i, since, at);
      if mentionMatched { store.MarkHandled(c.id); }
      store.AdvanceCursor(c.updatedAt, c.id);
      assert store.Image() == Decide(st, cfg.botHandle, c);
      EarlierTransitive(Loaded(store.file.content), st, store.Image());
      SaveIsSafe(io.world, cfg, store.Image(), store.file.content);
      var saved := io.SaveState();
      return if saved.Dies? then Halts else Decided, true, asked;
    }

    /**
     How far a pass over the listing came. Without faults and crashes it came to the end exactly if
     nothing blocked it, and what it had decided until then is saved.
     */
    ghost predicate CameFar(w: World, st: State, file: Option<State>, comments: seq<Comment>, asked: seq<Option<PrDetail>>,
                            decided: nat, exit: Exit, st': State, file': Option<State>)
    {
      && |asked| <= decided + 1 && AllQuestioned(st, cfg.botHandle, comments, asked, decided)
      && (exit.Done? <==> decided == |comments|)
      && (decided == |comments| <==> Unblocked(st, cfg.botHandle, comments, asked))
      && (exit.Thrown? ==> exit.error == GithubError(0, false))
      && (decided == |comments| ==> Passed(w, st'.cursor))
      && (if decided == 0 then file' == file && st' == st else file' == Some(st'))
    }

    /** `sorted` is what GitHub listed since position `n`, in key order; or the call that asks for it failed. */
    static ghost predicate Took(w: World, n: int, since: string, sorted: seq<Comment>, failed: bool) {
      (sorted == [] && failed) || exists listed :: TookFrom(w, n, since, sorted, listed)
    }

    static ghost predicate TookFrom(w: World, n: int, since: string, sorted: seq<Comment>, listed: seq<Comment>) {
      Told(w, n, StreamAnswer(since, listed)) && sorted == SortByKey(listed) && Covered(w, sorted, since)
    }

    /**
     `sorted` is the listing in key order and `decided` the length of its decided prefix. On every
     exit the memory is exactly what deciding that prefix makes of it, and every other comment of
     the listing is strictly after the cursor. `asked` is what GitHub said in this call about the
     issues of the comments looked at.
     */
    method RunPingPath() returns (exit: Exit, ghost sorted: seq<Comment>, ghost decided: nat, ghost asked: seq<Option<PrDetail>>)
      requires Valid() && io.Running()
      modifies io, store, store.file
      ensures Valid() && Grows(old(io.world), io.world)
      ensures Took(io.world, |old(io.world).events|, old(store.Image()).cursor.updatedAt, sorted,
                   io.died || io.faults > old(io.faults))
      ensures decided <= |sorted| && SortedByKey(sorted)
      ensures store.Image() == DecideAll(old(store.Image()), cfg.botHandle, sorted[..decided])
      ensures forall j :: 0 <= j < decided ==> KeyAtMost(KeyOf(sorted[j]), store.Image().cursor)
      ensures forall j :: decided <= j < |sorted| ==> KeyLess(store.Image().cursor, KeyOf(sorted[j]))
      ensures io.faults >= old(io.faults) && LeftBy(exit)
      ensures AllAskedAbout(io.world, |old(io.world).events|, old(store.Image()), cfg.botHandle, sorted, asked)
      ensures !exit.Crashed? && io.faults == old(io.faults) ==>
        CameFar(io.world, old(store.Image()), old(store.file.content), sorted, asked, decided, exit, store.Image(), store.file.content)
    {
      ghost var w0 := io.world;
      sorted, decided, asked := [], 0, [];
      var since := store.cursorUpdatedAt;
      var listing, at := io.ListIssueComments(since);
      DriftKeepsProtocol(w0, at, cfg, store.Image(), store.file.content);
      if listing.Dies? { return Crashed, sorted, decided, asked; }
      if listing.Throws? {
        return if IsFatalGithub(listing.error) then Thrown(listing.error) else Done, sorted, decided, asked;
      }
      ListingKeepsProtocol(at, io.world, cfg, store.Image(), store.file.content, since, listing.value);
      exit, sorted, decided, asked := SortAndWork(listing.value, since, at);
    }

    /** What GitHub listed, in key order. `at` is the world at the listing. */
    method SortAndWork(listed: seq<Comment>, since: string, ghost at: World)
      returns (exit: Exit, ghost sorted: seq<Comment>, ghost decided: nat, ghost asked: seq<Option<PrDetail>>)
      requires Valid() && io.Running() && since == store.Image().cursor.updatedAt
      requires WellKeyed(at) && StreamListing(at, since, listed) && ListingTaken(at, io.world, since, listed)
      modifies io, store, store.file
      ensures Valid() && Grows(old(io.world), io.world)
      ensures Took(io.world, |at.events|, since, sorted, false)
      ensures decided <= |sorted| && SortedByKey(sorted)
      ensures store.Image() == DecideAll(old(store.Image()), cfg.botHandle, sorted[..decided])
      ensures forall j :: 0 <= j < decided ==> KeyAtMost(KeyOf(sorted[j]), store.Image().cursor)
      ensures forall j :: decided <= j < |sorted| ==> KeyLess(store.Image().cursor, KeyOf(sorted[j]))
      ensures io.faults >= old(io.faults) && LeftBy(exit)
      ensures AllAskedAbout(io.world, |at.events|, old(store.Image()), cfg.botHandle, sorted, asked)
      ensures !exit.Crashed? && io.faults == old(io.faults) ==>
        CameFar(io.world, old(store.Image()), old(store.file.content), sorted, asked, decided, exit, store.Image(), store.file.content)
    {
      ghost var w1 := io.world;
      JustTold(w1, |at.events|, StreamAnswer(since, listed));
      var comments := SortByKey(listed);
      sorted := comments;
      SortSorts(listed);
      ListingInHand(at, w1, listed, sorted, since);
      exit, decided, asked := WorkThrough(comments, since, |at.events|, |at.events|);
      TookThat(w1, io.world, |at.events|, since, sorted, listed);
    }

    lemma TookThat(w1: World, w: World, n: int, since: string, sorted: seq<Comment>, listed: seq<Comment>)
      requires Told(w1, n, StreamAnswer(since, listed)) && sorted == SortByKey(listed)
      requires w1.events <= w.events && Covered(w, sorted, since)
      ensures Took(w, n, since, sorted, false)
    {
      ToldPersists(w1, w, n, n, StreamAnswer(since, listed));
      assert TookFrom(w, n, since, sorted, listed);
    }

    /** `at` is where the comments were listed, and `n` where the questions begin. */
    method WorkThrough(comments: seq<Comment>, since: string, ghost at: int, ghost n: int)
      returns (exit: Exit, ghost decided: nat, ghost asked: seq<Option<PrDetail>>)
      requires Valid() && io.Running() && InHand(io.world, comments, since, at) && since == store.Image().cursor.updatedAt
      requires n <= |io.world.events|
      modifies io, store, store.file
      ensures Valid() && Grows(old(io.world), io.world) && Covered(io.world, comments, since)
      ensures decided <= |comments|
      ensures store.Image() == DecideAll(old(store.Image()), cfg.botHandle, comments[..decided])
      ensures forall j :: 0 <= j < decided ==> KeyAtMost(KeyOf(comments[j]), store.Image().cursor)
      ensures forall j :: decided <= j < |comments| ==> KeyLess(store.Image().cursor, KeyOf(comments[j]))
      ensures io.faults >= old(io.faults) && LeftBy(exit)
      ensures AllAskedAbout(io.world, n, old(store.Image()), cfg.botHandle, comments, asked)
      ensures !exit.Crashed? && io.faults == old(io.faults) ==>
        CameFar(io.world, old(store.Image()), old(store.file.content), comments, asked, decided, exit, store.Image(), store.file.content)
    {
      ghost var st0, file0, faults0 := store.Image(), store.file.content, io.faults;
      KeyTotal(st0.cursor, st0.cursor);
      LessIrreflexive(since);
      decided, asked := 0, [];
      for i := 0 to |comments|
        invariant Working(i, comments, since, at, n, st0, file0, faults0, asked) && io.Running()
        invariant Grows(old(io.world), io.world)
        invariant decided == i
      {
        var step, committed;
        step, committed, asked := WorkOn(comments, i, since, at, n, st0, file0, faults0, asked);
        if !committed {
          match step {
            case Halts => return Crashed, decided, asked;
            case Escapes(e) => return Thrown(e), decided, asked;
            case Retry => return Done, decided, asked;
          }
        }
        decided := i + 1;
        if step.Halts? {
          decided := CountRepeats(st0, cfg.botHandle, comments, decided);
          return Crashed, decided, asked;
        }
      }
      assert comments[..|comments|] == comments;
      PassedAtTheEnd(io.world, comments, since, store.Image().cursor);
      exit := Done;
    }

    /** What holds when the first `i` comments are decided. */
    ghost predicate Working(i: nat, comments: seq<Comment>, since: string, at: int, n: int, st0: State, file0: Option<State>,
                            faults0: nat, asked: seq<Option<PrDetail>>)
      reads io, store, store.file
    {
      && Valid() && InHand(io.world, comments, since, at) && io.faults >= faults0 && i == |asked| <= |comments|
      && n <= |io.world.events|
      && store.Image() == DecideAll(st0, cfg.botHandle, comments[..i])
      && (io.faults == faults0 ==> SavedFrom(i, st0, file0))
      && Earlier(st0, store.Image()) && !Less(store.Image().cursor.updatedAt, since)
      && (forall j :: 0 <= j < i ==> KeyAtMost(KeyOf(comments[j]), store.Image().cursor))
      && AskedSoFar(io.world, n, st0, cfg.botHandle, comments, asked)
    }

    /** One pass of the loop. A decision leads to the next comment; without one, this is where it stops. */
    method WorkOn(comments: seq<Comment>, i: nat, since: string, ghost at: int, ghost n: int,
                  ghost st0: State, ghost file0: Option<State>, ghost faults0: nat, ghost asked: seq<Option<PrDetail>>)
      returns (step: Step, committed: bool, ghost asked': seq<Option<PrDetail>>)
      requires i < |comments| && Working(i, comments, since, at, n, st0, file0, faults0, asked) && io.Running()
      modifies io, store, store.file
      ensures Valid() && Grows(old(io.world), io.world) && io.faults >= faults0 && LeftAfter(step)
      ensures Covered(io.world, comments, since)
      ensures |asked'| == i + 1 && AllAskedAbout(io.world, n, st0, cfg.botHandle, comments, asked')
      ensures AllQuestioned(st0, cfg.botHandle, comments, asked', i)
      ensures step.Decided? ==> committed && Working(i + 1, comments, since, at, n, st0, file0, faults0, asked')
      ensures committed ==> step.Decided? || step.Halts?
      ensures committed ==> store.Image() == DecideAll(st0, cfg.botHandle, comments[..i + 1])
      ensures committed ==> forall j :: 0 <= j < i + 1 ==> KeyAtMost(KeyOf(comments[j]), store.Image().cursor)
      ensures !committed ==> store.Image() == DecideAll(st0, cfg.botHandle, comments[..i])
      ensures !committed ==> forall j :: 0 <= j < i ==> KeyAtMost(KeyOf(comments[j]), store.Image().cursor)
      ensures !committed ==> forall j :: i <= j < |comments| ==> KeyLess(store.Image().cursor, KeyOf(comments[j]))
      ensures step.Retry? ==> io.faults > faults0
      ensures !committed && !step.Halts? && io.faults == faults0 ==>
        && step == Escapes(GithubError(0, false)) && SavedFrom(i, st0, file0)
        && !Unblocked(st0, cfg.botHandle, comments, asked')
    {
      ghost var w, st := io.world, store.Image();
      ghost var d;
      step, committed, d := HandleComment(comments[i], comments, i, since, at);
      InHandPersists(w, io.world, cfg.botHandle, comments, since, at);
      AskedAboutPersists(io.world, io.world, |w.events|, n, st, cfg.botHandle, comments[i], d);
      AskedNext(w, io.world, n, st0, cfg.botHandle, comments, asked, d);
      asked' := asked + [d];
      if committed {
        DecideNext(st0, cfg.botHandle, comments, i);
        EarlierTransitive(st0, st, store.Image());
        KeepsSince(st, store.Image(), since);
      } else {
        OthersAfter(comments, i, store.Image().cursor);
      }
    }

    lemma KeepsSince(st: State, st': State, since: string)
      requires Earlier(st, st') && !Less(st.cursor.updatedAt, since)
      ensures !Less(st'.cursor.updatedAt, since)
    {
      var c, c' := st.cursor, st'.cursor;
      if Less(c'.updatedAt, since) {
        LessTotal(c.updatedAt, since);
        if Less(since, c.updatedAt) { LessTransitive(c'.updatedAt, since, c.updatedAt); }
      }
    }

    /** The file has all that was decided, if anything was. */
    ghost predicate SavedFrom(decided: nat, st: State, file: Option<State>)
      reads store, store.file
    {
      if decided == 0 then store.file.content == file && store.Image() == st else store.file.content == Some(store.Image())
    }

    /** The pass came to the end of the listing exactly if no mention in it blocks. */
    static ghost predicate PassedExactly(bot: string, w: World, n: int, st: State, comments: seq<Comment>, decided: nat,
                                  asked: seq<Option<PrDetail>>, done: bool)
    {
      && AllAskedAbout(w, n, st, bot, comments, asked) && AllQuestioned(st, bot, comments, asked, decided)
      && (done <==> decided == |comments|) && (done <==> Unblocked(st, bot, comments, asked))
    }

    /**
     One poll: the ping path only runs if no exception left the auto path. `prs` and `sorted` are what
     GitHub listed in this call. Without faults and crashes every open pull request is dealt with, what
     changed is saved, and the whole listing is passed exactly if no mention blocks it.
     */
    method Tick()
      returns (exit: Exit, ghost prs: seq<int>, ghost sorted: seq<Comment>, ghost decided: nat, ghost asked: seq<Option<PrDetail>>)
      requires Valid() && io.Running()
      modifies io, store, store.file
      ensures Valid() && Grows(old(io.world), io.world)
      ensures io.faults >= old(io.faults) && LeftBy(exit)
      ensures !exit.Crashed? && io.faults == old(io.faults) ==>
        && Told(io.world, |old(io.world).events|, OpenPrsAnswer(prs))
        && AutoComplete(io.world, |old(io.world).events|, store.Image(), prs, {})
        && Kept(old(store.Image()), old(store.file.content), store.Image(), store.file.content)
        && Took(io.world, |old(io.world).events|, old(store.Image()).cursor.updatedAt, sorted, false)
        && PassedExactly(cfg.botHandle, io.world, |old(io.world).events|, old(store.Image()).(reviewed := store.Image().reviewed), sorted, decided,
                         asked, exit.Done?)
        && (exit.Done? ==> Passed(io.world, store.Image().cursor))
    {
      ghost var n, failed := |io.world.events|, {};
      sorted, decided, asked := [], 0, [];
      exit, prs, failed := RunAutoPath();
      if exit.Done? {
        ghost var w, st, before := io.world, store.Image(), io.faults;
        exit, sorted, decided, asked := RunPingPath();
        DecidingKeepsReviewed(st, cfg.botHandle, sorted[..decided]);
        if io.faults == old(io.faults) {
          AutoCompletePersists(w, io.world, n, st, store.Image(), prs, failed);
          ToldPersists(w, io.world, n, n, OpenPrsAnswer(prs));
          SinceTheTick(n, |w.events|, st, sorted, asked);
        }
      }
    }

    /** What a poll without faults and crashes has done. */
    static ghost predicate Complete(bot: string, p: Poll) {
      var n, st, st', w := |p.before.world.events|, p.before.memory, p.after.memory, p.after.world;
      && Told(w, n, OpenPrsAnswer(p.prs)) && AutoComplete(w, n, st', p.prs, {})
      && Kept(st, p.before.file, st', p.after.file)
      && Took(w, n, st.cursor.updatedAt, p.sorted, false)
      && PassedExactly(bot, w, n, st.(reviewed := st'.reviewed), p.sorted, p.decided, p.asked, p.exit.Done?)
      && (p.exit.Done? ==> Passed(w, st'.cursor))
    }

    /** What was asked in the ping path was asked in the tick. */
    lemma SinceTheTick(n: int, m: int, st: State, sorted: seq<Comment>, asked: seq<Option<PrDetail>>)
      requires n <= m && AllAskedAbout(io.world, m, st, cfg.botHandle, sorted, asked)
      ensures AllAskedAbout(io.world, n, st, cfg.botHandle, sorted, asked)
      ensures forall since :: Took(io.world, m, since, sorted, false) ==> Took(io.world, n, since, sorted, false)
    {
      forall j | 0 <= j < |asked| ensures AskedAbout(io.world, n, DecideAll(st, cfg.botHandle, sorted[..j]), cfg.botHandle, sorted[j], asked[j]) {
        AskedAboutPersists(io.world, io.world, m, n, DecideAll(st, cfg.botHandle, sorted[..j]), cfg.botHandle, sorted[j], asked[j]);
      }
      forall since | Took(io.world, m, since, sorted, false) ensures Took(io.world, n, since, sorted, false) {
        var listed :| TookFrom(io.world, m, since, sorted, listed);
        ToldPersists(io.world, io.world, m, n, StreamAnswer(since, listed));
        assert TookFrom(io.world, n, since, sorted, listed);
      }
    }
  }
}
