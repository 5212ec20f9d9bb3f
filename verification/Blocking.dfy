/** Mentions that stop the ping path (src/watcher.cpp:246-396). */
module Blocking {
  import opened Text
  import opened Markers
  import opened Mention
  import opened IssueUrl
  import opened StateStore
  import opened Context
  import opened Protocol

  /** A mention whose author cannot be looked up, and which GitHub said belongs to an open pull request. */
  predicate Blocks(st: State, bot: string, c: Comment, asked: Option<PrDetail>) {
    NeedsAnswer(st, bot, c) && !PlainLogin(c.login) && asked.Some? && OpenPr(asked.value)
  }

  /** What was said since position `n` about the issue of a comment, if anything was: only mentions with a number are asked about. */
  ghost predicate AskedAbout(w: World, n: int, st: State, bot: string, c: Comment, asked: Option<PrDetail>) {
    asked.Some? ==>
      NeedsAnswer(st, bot, c) && IssueNumber(c.issueUrl) > 0 && Told(w, n, DetailAnswer(IssueNumber(c.issueUrl), asked.value))
  }

  lemma AskedAboutPersists(w: World, w': World, n: int, m: int, st: State, bot: string, c: Comment, asked: Option<PrDetail>)
    requires w.events <= w'.events && AskedAbout(w, n, st, bot, c, asked) && m <= n
    ensures AskedAbout(w', m, st, bot, c, asked)
  {
    if asked.Some? { ToldPersists(w, w', n, m, DetailAnswer(IssueNumber(c.issueUrl), asked.value)); }
  }

  ghost predicate AllAskedAbout(w: World, n: int, st: State, bot: string, cs: seq<Comment>, asked: seq<Option<PrDetail>>) {
    |asked| <= |cs| && forall j :: 0 <= j < |asked| ==> AskedAbout(w, n, DecideAll(st, bot, cs[..j]), bot, cs[j], asked[j])
  }

  /** None of the answers blocks. */
  ghost predicate Unblocked(st: State, bot: string, cs: seq<Comment>, asked: seq<Option<PrDetail>>) {
    |asked| <= |cs| && forall j :: 0 <= j < |asked| ==> !Blocks(DecideAll(st, bot, cs[..j]), bot, cs[j], asked[j])
  }

  /** Of the first `n` comments, everyone that is a mention with an issue number was asked about. */
  ghost predicate AllQuestioned(st: State, bot: string, cs: seq<Comment>, asked: seq<Option<PrDetail>>, n: nat) {
    n <= |asked| <= |cs| && forall j :: 0 <= j < n ==> Questioned(DecideAll(st, bot, cs[..j]), bot, cs[j], asked[j])
  }

  predicate Questioned(st: State, bot: string, c: Comment, asked: Option<PrDetail>) {
    NeedsAnswer(st, bot, c) && IssueNumber(c.issueUrl) > 0 ==> asked.Some?
  }

  /** The questions about a prefix of the listing, all answered since position `n`, and none of the answers blocks. */
  ghost predicate AskedSoFar(w: World, n: int, st: State, bot: string, cs: seq<Comment>, asked: seq<Option<PrDetail>>) {
    AllAskedAbout(w, n, st, bot, cs, asked) && AllQuestioned(st, bot, cs, asked, |asked|) && Unblocked(st, bot, cs, asked)
  }

  lemma AllAskedNext(w: World, w': World, n: int, st: State, bot: string, cs: seq<Comment>, asked: seq<Option<PrDetail>>, d: Option<PrDetail>)
    requires |asked| < |cs| && w.events <= w'.events && AllAskedAbout(w, n, st, bot, cs, asked)
    requires AskedAbout(w', n, DecideAll(st, bot, cs[..|asked|]), bot, cs[|asked|], d)
    ensures AllAskedAbout(w', n, st, bot, cs, asked + [d])
  {
    var all := asked + [d];
    forall j | 0 <= j < |asked| + 1 ensures AskedAbout(w', n, DecideAll(st, bot, cs[..j]), bot, cs[j], all[j]) {
      if j < |asked| { AskedAboutPersists(w, w', n, n, DecideAll(st, bot, cs[..j]), bot, cs[j], asked[j]); }
    }
  }

  lemma AskedNext(w: World, w': World, n: int, st: State, bot: string, cs: seq<Comment>, asked: seq<Option<PrDetail>>, d: Option<PrDetail>)
    requires |asked| < |cs| && w.events <= w'.events && AskedSoFar(w, n, st, bot, cs, asked)
    requires AskedAbout(w', n, DecideAll(st, bot, cs[..|asked|]), bot, cs[|asked|], d)
    ensures AllAskedAbout(w', n, st, bot, cs, asked + [d]) && AllQuestioned(st, bot, cs, asked + [d], |asked|)
    ensures Unblocked(st, bot, cs, asked + [d]) <==> !Blocks(DecideAll(st, bot, cs[..|asked|]), bot, cs[|asked|], d)
    ensures Unblocked(st, bot, cs, asked + [d]) && Questioned(DecideAll(st, bot, cs[..|asked|]), bot, cs[|asked|], d) ==>
      AskedSoFar(w', n, st, bot, cs, asked + [d])
  {
    AllAskedNext(w, w', n, st, bot, cs, asked, d);
    QuestionedNext(st, bot, cs, asked, d);
    UnblockedNext(st, bot, cs, asked, d);
  }

  lemma QuestionedNext(st: State, bot: string, cs: seq<Comment>, asked: seq<Option<PrDetail>>, d: Option<PrDetail>)
    requires |asked| < |cs| && AllQuestioned(st, bot, cs, asked, |asked|)
    ensures AllQuestioned(st, bot, cs, asked + [d], |asked|)
    ensures Questioned(DecideAll(st, bot, cs[..|asked|]), bot, cs[|asked|], d) ==>
      AllQuestioned(st, bot, cs, asked + [d], |asked| + 1)
  {
    var all := asked + [d];
    assert all[|asked|] == d;
    assert forall j :: 0 <= j < |asked| ==> all[j] == asked[j];
  }

  lemma UnblockedNext(st: State, bot: string, cs: seq<Comment>, asked: seq<Option<PrDetail>>, d: Option<PrDetail>)
    requires |asked| < |cs| && Unblocked(st, bot, cs, asked)
    ensures Unblocked(st, bot, cs, asked + [d]) <==> !Blocks(DecideAll(st, bot, cs[..|asked|]), bot, cs[|asked|], d)
  {
    var all := asked + [d];
    assert all[|asked|] == d;
    assert forall j :: 0 <= j < |asked| ==> all[j] == asked[j];
  }

  lemma {:induction false} DecidingKeepsReviewed(st: State, bot: string, cs: seq<Comment>)
    ensures DecideAll(st, bot, cs).reviewed == st.reviewed
  {
    if cs != [] { DecidingKeepsReviewed(st, bot, cs[..|cs| - 1]); }
  }

  // --- Mentions that are never answered ------------------------------------------------

  /**
   Every version of this comment that asks something has an author without a lookup, and an issue
   that always was an open pull request.
   */
  ghost predicate NeverAnswerable(w: World, bot: string, id: int) {
    forall v, k :: Mentioned(w, bot, v, id, k) ==> Stuck(w, v)
  }

  ghost predicate Stuck(w: World, v: Comment) {
    && !PlainLogin(v.login) && IssueNumber(v.issueUrl) > 0
    && forall d :: DetailAnswer(IssueNumber(v.issueUrl), d) in w.events ==> OpenPr(d)
  }

  lemma LookedUpIsPlain(w: World, n: int, login: string, yes: bool)
    requires AnswersPlain(w) && Told(w, n, CollaboratorAnswer(login, yes))
    ensures PlainLogin(login)
  {
  }

  lemma NobodyAsked(w: World, cfg: Config, pr: int, id: int)
    requires WorldOk(w, cfg) && NeverAnswerable(w, cfg.botHandle, id)
    ensures !Posted(w, cfg.botHandle, PingTrigger(pr, id))
  {
    forall v, k, i, d ensures !AskedAt(w, cfg.botHandle, v, id, pr, k, i, d) {
      assert Mentioned(w, cfg.botHandle, v, id, k) ==> Stuck(w, v);
    }
    assert !Warranted(w, cfg.botHandle, PingTrigger(pr, id));
  }

  lemma StuckIsNotAnswered(w: World, cfg: Config, v: Comment)
    requires WorldOk(w, cfg) && NeverAnswerable(w, cfg.botHandle, v.id)
    requires forall pr :: !Quoted(w, cfg.botHandle, PingTrigger(pr, v.id))
    ensures !Answered(w, cfg.botHandle, v)
  {
    forall pr ensures !Served(w, cfg.botHandle, PingTrigger(pr, v.id)) { NobodyAsked(w, cfg, pr, v.id); }
    forall k ensures !(Mentioned(w, cfg.botHandle, v, v.id, k) && ResolvedSince(w, cfg.botHandle, v, k)) {
      assert Mentioned(w, cfg.botHandle, v, v.id, k) ==> Stuck(w, v);
    }
  }

  /**
   In every reachable state: such a comment has not been handled, and the cursor has not reached
   it, so nothing after it in the listing is decided either.
   */
  lemma NeverAnswerableIsNeverPassed(w: World, cfg: Config, st: State, id: int)
    requires WorldOk(w, cfg) && StateOk(w, cfg.botHandle, st) && NeverAnswerable(w, cfg.botHandle, id)
    requires forall pr :: !Quoted(w, cfg.botHandle, PingTrigger(pr, id))
    ensures id !in st.handled
    ensures id in w.comments && OwedAnswer(w, cfg.botHandle, w.comments[id]) ==> KeyLess(st.cursor, KeyOf(w.comments[id]))
  {
    forall v: Comment | v.id == id ensures !Answered(w, cfg.botHandle, v) { StuckIsNotAnswered(w, cfg, v); }
  }

  /** A mention by somebody else since the last seed. */
  predicate OwedAnswer(w: World, bot: string, c: Comment) {
    !ByBot(c, bot) && Mentions(c.body, bot) && KeyLess(w.seed, KeyOf(c))
  }
}
