/**
  What the dispatch protocol promises, stated over values: GitHub as the bot sees it, the answers
  it has given, the bot's memory and its state file. The watcher's methods keep these invariants
  (src/watcher.cpp over src/state_store.cpp).
 */
module Protocol {
  import opened Text
  import opened Markers
  import opened Mention
  import opened IssueUrl
  import opened StateStore
  import opened Payload
  import opened Context
  import opened Reports

  /** One version of a comment; an edit makes a new version with the same id and a later key. */
  datatype Comment = Comment(id: int, login: string, body: string, updatedAt: string, issueUrl: string, thread: int)

  function KeyOf(c: Comment): Key {
    Key(c.updatedAt, c.id)
  }

  datatype PrDetail = PrDetail(number: int, state: string, isPr: bool)
  datatype Review = Review(state: string, login: string)

  /** What GitHub, or the reviewer, has told the bot. */
  datatype Event =
    | OpenPrsAnswer(prs: seq<int>)
    | StreamAnswer(since: string, listed: seq<Comment>)
    | ReviewsAnswer(pr: int, reviews: seq<Review>)
    | DetailAnswer(issue: int, detail: PrDetail)
    | CollaboratorAnswer(login: string, yes: bool)
    | DiffAnswer(pr: int, diff: DiffResult)
    | InfoAnswer(pr: int, info: PrInfo)
    | FileAnswer(path: string, ref: string, content: FileContent)
    | ReviewerRan(request: ReviewRequest)
    | ReviewerSaid(request: ReviewRequest, output: string)

  /**
   GitHub's comments by id, and history variables: `horizon` is at or after every key listed so
   far and every cursor seed, `seed` is the last cursor seed, `events` is the log of the answers.
   `foreign` are the comments under the bot's handle that the bot did not post, such as those its
   operator wrote by hand before.
   */
  datatype World = World(comments: map<int, Comment>, horizon: Key, seed: Key, events: seq<Event>, foreign: set<int>)

  predicate ByBot(c: Comment, bot: string) {
    SameIgnoringCase(c.login, bot)
  }

  function BotIds(w: World, bot: string): set<int> {
    set id | id in w.comments && ByBot(w.comments[id], bot)
  }

  predicate WellKeyed(w: World) {
    forall id :: id in w.comments ==> w.comments[id].id == id
  }

  /**
   The environment's step. Other users add, edit and delete comments of theirs as they like, but
   every new version gets a key strictly after the horizon. Bot comments stay; the new ones are
   exactly `posted`.
   */
  predicate Moves(w: World, w': World, bot: string, posted: set<int>) {
    && Later(w, w', bot)
    && BotIds(w', bot) == BotIds(w, bot) + posted && BotIds(w, bot) !! posted
  }

  predicate Later(w: World, w': World, bot: string) {
    && w'.horizon == w.horizon && w'.seed == w.seed && w'.foreign == w.foreign
    && WellKeyed(w')
    && Keeps(w, w', bot)
    && (forall i :: |w.events| <= i < |w'.events| && w'.events[i].CollaboratorAnswer? ==> PlainLogin(w'.events[i].login))
    && (forall id :: id in w'.comments ==>
          (id in w.comments && w'.comments[id] == w.comments[id]) || KeyLess(w.horizon, KeyOf(w'.comments[id])))
  }

  /** Nothing the invariants rest on is lost: answers stay given, bot comments stay as they are. */
  predicate Keeps(w: World, w': World, bot: string) {
    && w.events <= w'.events
    && (forall id :: id in BotIds(w, bot) ==> id in BotIds(w', bot) && w'.comments[id] == w.comments[id])
  }

  /** What is on record stays so, and what the bot did not post is what it was. */
  predicate Grows(w: World, w': World) {
    w.events <= w'.events && w'.foreign == w.foreign
  }

  lemma MovesCompose(w: World, w': World, w'': World, bot: string, posted: set<int>, posted': set<int>)
    requires Moves(w, w', bot, posted) && Moves(w', w'', bot, posted')
    ensures Moves(w, w'', bot, posted + posted')
  {
  }

  lemma LaterCompose(w: World, w': World, w'': World, bot: string)
    requires Later(w, w', bot) && Later(w', w'', bot)
    ensures Later(w, w'', bot)
  {
  }

  // --- The log -------------------------------------------------------------------

  /** The log says `e` at position `i`. */
  predicate At(w: World, i: int, e: Event) {
    0 <= i < |w.events| && w.events[i] == e
  }

  /** The log says `e` at `n` or later. */
  ghost predicate Told(w: World, n: int, e: Event) {
    exists i :: n <= i && At(w, i, e)
  }

  /** Comment version `v` was in the listing at position `k`. */
  predicate ListedAt(w: World, k: int, v: Comment) {
    0 <= k < |w.events| && w.events[k].StreamAnswer? && v in w.events[k].listed
  }

  lemma AtPersists(w: World, w': World, i: int, e: Event)
    requires w.events <= w'.events && At(w, i, e)
    ensures At(w', i, e)
  {
  }

  lemma ToldPersists(w: World, w': World, n: int, m: int, e: Event)
    requires w.events <= w'.events && Told(w, n, e) && m <= n
    ensures Told(w', m, e)
  {
    var i :| n <= i && At(w, i, e);
    AtPersists(w, w', i, e);
  }

  /** The last thing said was said since any moment before. */
  lemma JustTold(w: World, n: int, e: Event)
    requires w.events != [] && w.events[|w.events| - 1] == e && n < |w.events|
    ensures Told(w, n, e)
  {
    assert At(w, |w.events| - 1, e);
  }

  // --- The invariants -----------------------------------------------------------

  function AutoTrigger(pr: int): Trigger { Trigger(Auto, pr, None) }
  function PingTrigger(pr: int, comment: int): Trigger { Trigger(Ping, pr, Some(comment)) }

  /** A bot comment on the trigger's pull request carries the trigger's key. */
  ghost predicate Carries(w: World, bot: string, t: Trigger) {
    exists id :: id in BotIds(w, bot) && w.comments[id].thread == t.pr && BodyHasMarkerKey(w.comments[id].body, t)
  }

  /** Comment `id` is the bot's, on the trigger's pull request, and was posted for the trigger. */
  ghost predicate StandsFor(w: World, bot: string, id: int, t: Trigger) {
    id in BotIds(w, bot) && w.comments[id].thread == t.pr && PostedFor(w.comments[id].body, t)
  }

  ghost predicate Posted(w: World, bot: string, t: Trigger) {
    exists id :: StandsFor(w, bot, id, t)
  }

  // --- What bot comments are made of ----------------------------------------------

  /** The reviewer was given the diff, as far as it fits, and this is what it said. */
  ghost predicate Said(w: World, cfg: Config, diff: DiffResult, output: string) {
    exists request :: ReviewerSaid(request, output) in w.events
      && request.diff == DiffToReview(cfg, diff) && request.omittedFiles == OmittedFromReview(cfg, diff)
  }

  /** GitHub gave this diff of the pull request, and the reviewer said this to it, if it was asked. */
  ghost predicate Reported(w: World, pr: int, cfg: Config, diff: DiffResult, output: string) {
    DiffAnswer(pr, diff) in w.events && (GoesToReviewer(cfg, diff) ==> Said(w, cfg, diff, output))
  }

  /** A comment that reports a review, under the settings the bot had then. */
  ghost predicate WrittenAs(w: World, c: Comment, version: string, t: Trigger, cfg: Config, diff: DiffResult, output: string) {
    && '>' !in version && c.thread == t.pr && c.body == Posting(version, t, ReportText(cfg, diff, output))
    && Reported(w, t.pr, cfg, diff, output)
  }

  ghost predicate Written(w: World, c: Comment) {
    exists version, t, cfg, diff, output :: WrittenAs(w, c, version, t, cfg, diff, output)
  }

  ghost predicate AllWritten(w: World, bot: string) {
    forall id :: id in BotIds(w, bot) ==> id in w.foreign || Written(w, w.comments[id])
  }

  /** The key of `t` in a comment that was not posted for `t`: quoted by the reviewer, or written by hand. */
  ghost predicate QuotedIn(w: World, c: Comment, t: Trigger) {
    exists version, u, cfg, diff, output :: WrittenAs(w, c, version, u, cfg, diff, output) && u != t && QuotesKey(cfg, diff, output, t)
  }

  /** The reviewer was asked, and used the key in its answer. */
  predicate QuotesKey(cfg: Config, diff: DiffResult, output: string, t: Trigger) {
    GoesToReviewer(cfg, diff) && Contains(output, BuildMarkerKey(t))
  }

  ghost predicate Quoted(w: World, bot: string, t: Trigger) {
    exists id :: id in BotIds(w, bot) && w.comments[id].thread == t.pr && Quotes(w, id, t)
  }

  ghost predicate Quotes(w: World, id: int, t: Trigger)
    requires id in w.comments
  {
    QuotedIn(w, w.comments[id], t) || (id in w.foreign && BodyHasMarkerKey(w.comments[id].body, t))
  }

  /** Nothing the reviewer said, and no comment written by hand, contains the key of `t`. */
  ghost predicate Unquoted(w: World, bot: string, t: Trigger) {
    && (forall request, output :: ReviewerSaid(request, output) in w.events ==> !Contains(output, BuildMarkerKey(t)))
    && (forall id :: id in BotIds(w, bot) && id in w.foreign ==> !BodyHasMarkerKey(w.comments[id].body, t))
  }

  /** The trigger has its comment; or, and that is where the marker test fails, its key was quoted. */
  ghost predicate Served(w: World, bot: string, t: Trigger) {
    Posted(w, bot, t) || Quoted(w, bot, t)
  }

  /** Safety: no trigger has two comments. */
  ghost predicate AtMostOnce(w: World, bot: string) {
    forall i, j, t :: StandsFor(w, bot, i, t) && StandsFor(w, bot, j, t) ==> i == j
  }

  predicate OpenPr(d: PrDetail) {
    d.isPr && d.state == "open"
  }

  /** Since position `n`, everyone who approved before the `k`-th review was said to be a stranger. */
  ghost predicate StrangersBefore(w: World, n: int, reviews: seq<Review>, k: int) {
    forall j :: 0 <= j < k && j < |reviews| && reviews[j].state == "APPROVED" ==>
      Told(w, n, CollaboratorAnswer(reviews[j].login, false))
  }

  /** The `k`-th review is the first approval by anyone but a stranger, and it is a collaborator's. */
  ghost predicate Counts(w: World, n: int, reviews: seq<Review>, k: int) {
    && 0 <= k < |reviews| && reviews[k].state == "APPROVED" && StrangersBefore(w, n, reviews, k)
    && Told(w, n, CollaboratorAnswer(reviews[k].login, true))
  }

  ghost predicate ReviewsAt(w: World, n: int, pr: int, reviews: seq<Review>, i: int) {
    n <= i && At(w, i, ReviewsAnswer(pr, reviews))
  }

  ghost predicate ApprovedAt(w: World, n: int, pr: int, reviews: seq<Review>, i: int, k: int) {
    ReviewsAt(w, n, pr, reviews, i) && Counts(w, i, reviews, k)
  }

  /** Since position `n` GitHub listed the reviews, and then called the first approver who is no stranger a collaborator. */
  ghost predicate Approved(w: World, n: int, pr: int) {
    exists reviews, i, k :: ApprovedAt(w, n, pr, reviews, i, k)
  }

  /** The version listed at position `k` is a mention by somebody else. */
  ghost predicate Mentioned(w: World, bot: string, v: Comment, id: int, k: int) {
    v.id == id && ListedAt(w, k, v) && !ByBot(v, bot) && Mentions(v.body, bot)
  }

  /** After that GitHub called its issue an open pull request, and after that its author a collaborator. */
  ghost predicate AskedAt(w: World, bot: string, v: Comment, id: int, pr: int, k: int, i: int, d: PrDetail) {
    && Mentioned(w, bot, v, id, k)
    && k < i && At(w, i, DetailAnswer(IssueNumber(v.issueUrl), d)) && d.isPr && d.state == "open" && d.number == pr
    && Told(w, i, CollaboratorAnswer(v.login, true))
  }

  /** The answers that entitle the bot to post for a trigger. */
  ghost predicate Warranted(w: World, bot: string, t: Trigger) {
    match t
    case Trigger(Auto, pr, None) => Approved(w, 0, pr)
    case Trigger(Ping, pr, Some(id)) => exists v, k, i, d :: AskedAt(w, bot, v, id, pr, k, i, d)
    case _ => false
  }

  /** Safety: every comment of the bot was asked for by a collaborator. */
  ghost predicate Justified(w: World, bot: string) {
    forall id, t :: StandsFor(w, bot, id, t) ==> Warranted(w, bot, t)
  }

  /**
   A mention got its answer after it was listed: a comment posted for it, or a quoted key that is
   taken for one, or a reason to stay silent, which is a URL without a number, an issue that GitHub
   then said is not an open pull request, or an author whom it then called a stranger.
   */
  ghost predicate Answered(w: World, bot: string, v: Comment) {
    exists k :: Mentioned(w, bot, v, v.id, k) && ResolvedSince(w, bot, v, k)
  }

  ghost predicate ResolvedSince(w: World, bot: string, v: Comment, n: int) {
    IssueNumber(v.issueUrl) <= 0 || exists i, d :: n <= i && ResolvedAt(w, bot, v, i, d)
  }

  /** What was said at position `i` about the issue, and since then about the author, settles the mention. */
  ghost predicate ResolvedAt(w: World, bot: string, v: Comment, i: int, d: PrDetail) {
    && At(w, i, DetailAnswer(IssueNumber(v.issueUrl), d))
    && (!d.isPr || d.state != "open" || Told(w, i, CollaboratorAnswer(v.login, false)) || Served(w, bot, PingTrigger(d.number, v.id)))
  }

  /** Nothing is owed to this version: no mention, or an answer to it or to an earlier version of it. */
  ghost predicate Settled(w: World, bot: string, c: Comment) {
    ByBot(c, bot) || !Mentions(c.body, bot) || Answered(w, bot, c)
    || exists v: Comment :: v.id == c.id && KeyLess(KeyOf(v), KeyOf(c)) && Answered(w, bot, v)
  }

  ghost predicate HandledRightly(w: World, bot: string, id: int, cursor: Key) {
    exists v: Comment :: v.id == id && KeyAtMost(KeyOf(v), cursor) && Answered(w, bot, v)
  }

  /** Liveness as an invariant: what the cursor has passed since the seed is settled. */
  ghost predicate NoneDropped(w: World, bot: string, cursor: Key) {
    forall id :: id in w.comments && KeyLess(w.seed, KeyOf(w.comments[id])) && KeyAtMost(KeyOf(w.comments[id]), cursor)
      ==> Settled(w, bot, w.comments[id])
  }

  /** What the bot's memory, or its file, may claim. */
  ghost predicate StateOk(w: World, bot: string, st: State) {
    && (forall pr :: pr in st.reviewed ==> Served(w, bot, AutoTrigger(pr)))
    && (forall id :: id in st.handled ==> HandledRightly(w, bot, id, st.cursor))
    && KeyAtMost(st.cursor, w.horizon)
    && NoneDropped(w, bot, st.cursor)
  }

  ghost predicate PayloadsOk(w: World, cfg: Config) {
    forall request :: ReviewerRan(request) in w.events ==> PayloadOk(cfg, request)
  }

  /** Lookups are only answered for logins that people can have. */
  ghost predicate AnswersPlain(w: World) {
    forall login, yes :: CollaboratorAnswer(login, yes) in w.events ==> PlainLogin(login)
  }

  ghost predicate WorldOk(w: World, cfg: Config) {
    && WellKeyed(w) && AtMostOnce(w, cfg.botHandle) && Justified(w, cfg.botHandle) && PayloadsOk(w, cfg)
    && AllWritten(w, cfg.botHandle) && AnswersPlain(w)
  }

  /** The invariant of every reachable state. */
  ghost predicate ProtocolOk(w: World, cfg: Config, memory: State, file: Option<State>) {
    && WorldOk(w, cfg)
    && StateOk(w, cfg.botHandle, memory)
    && StateOk(w, cfg.botHandle, Loaded(file))
    && Earlier(Loaded(file), memory)
  }

  // --- What a carried key means ------------------------------------------------------

  /** A comment the bot wrote carries a key exactly if it was posted for the trigger or quotes it. */
  lemma WrittenCarriesExactly(w: World, c: Comment, t: Trigger)
    requires Written(w, c)
    ensures BodyHasMarkerKey(c.body, t) && c.thread == t.pr
       <==> c.thread == t.pr && (PostedFor(c.body, t) || QuotedIn(w, c, t))
  {
    var version, u, cfg, diff, output :| WrittenAs(w, c, version, u, cfg, diff, output);
    PostingCarriesExactly(version, u, ReportText(cfg, diff, output), t);
    KeyInReport(cfg, diff, output, t);
    PostingIsFor(version, u, ReportText(cfg, diff, output));
    if PostedFor(c.body, t) { PostedForOneTrigger(c.body, t, u); }
    if QuotedIn(w, c, t) { QuotedCarries(w, c, t); }
  }

  lemma QuotedCarries(w: World, c: Comment, t: Trigger)
    requires QuotedIn(w, c, t)
    ensures BodyHasMarkerKey(c.body, t)
  {
    var version, u, cfg, diff, output :| WrittenAs(w, c, version, u, cfg, diff, output) && u != t && QuotesKey(cfg, diff, output, t);
    PostingCarriesExactly(version, u, ReportText(cfg, diff, output), t);
    KeyInReport(cfg, diff, output, t);
  }

  /** The marker test succeeds exactly if the trigger has its comment or its key was quoted. */
  lemma CarriesExactly(w: World, bot: string, t: Trigger)
    requires AllWritten(w, bot)
    ensures Carries(w, bot, t) <==> Served(w, bot, t)
  {
    forall id | id in BotIds(w, bot) && w.comments[id].thread == t.pr
      ensures BodyHasMarkerKey(w.comments[id].body, t) <==> StandsFor(w, bot, id, t) || Quotes(w, id, t)
    {
      CommentCarriesExactly(w, bot, t, id);
    }
  }

  lemma CommentCarriesExactly(w: World, bot: string, t: Trigger, id: int)
    requires AllWritten(w, bot) && id in BotIds(w, bot) && w.comments[id].thread == t.pr
    ensures BodyHasMarkerKey(w.comments[id].body, t) <==> StandsFor(w, bot, id, t) || Quotes(w, id, t)
  {
    var c := w.comments[id];
    if Written(w, c) { WrittenCarriesExactly(w, c, t); }
    if PostedFor(c.body, t) { PostedForHasKey(c.body, t); }
  }

  /** Where nothing contains the key, a carried key is a comment posted for the trigger. */
  lemma UnquotedIsPosted(w: World, bot: string, t: Trigger)
    requires Unquoted(w, bot, t)
    ensures !Quoted(w, bot, t) && (Served(w, bot, t) <==> Posted(w, bot, t))
  {
    forall id | id in BotIds(w, bot) ensures !Quotes(w, id, t) {
      UnquotedIsNotQuoted(w, w.comments[id], t);
    }
  }

  lemma UnquotedIsNotQuoted(w: World, c: Comment, t: Trigger)
    requires forall request, output :: ReviewerSaid(request, output) in w.events ==> !Contains(output, BuildMarkerKey(t))
    ensures !QuotedIn(w, c, t)
  {
    forall version, u, cfg, diff, output
      ensures !(WrittenAs(w, c, version, u, cfg, diff, output) && u != t && QuotesKey(cfg, diff, output, t))
    {
      assert Said(w, cfg, diff, output) ==> !Contains(output, BuildMarkerKey(t));
    }
  }

  // --- Facts persist -------------------------------------------------------------

  lemma ReportedPersists(w: World, w': World, pr: int, cfg: Config, diff: DiffResult, output: string)
    requires w.events <= w'.events && Reported(w, pr, cfg, diff, output)
    ensures Reported(w', pr, cfg, diff, output)
  {
    if Said(w, cfg, diff, output) {
      var request :| ReviewerSaid(request, output) in w.events
        && request.diff == DiffToReview(cfg, diff) && request.omittedFiles == OmittedFromReview(cfg, diff);
      assert ReviewerSaid(request, output) in w'.events;
    }
  }

  lemma WrittenPersists(w: World, w': World, c: Comment)
    requires w.events <= w'.events && Written(w, c)
    ensures Written(w', c)
  {
    var version, t, cfg, diff, output :| WrittenAs(w, c, version, t, cfg, diff, output);
    ReportedPersists(w, w', t.pr, cfg, diff, output);
    assert WrittenAs(w', c, version, t, cfg, diff, output);
  }

  lemma QuotedInPersists(w: World, w': World, c: Comment, t: Trigger)
    requires w.events <= w'.events && QuotedIn(w, c, t)
    ensures QuotedIn(w', c, t)
  {
    var version, u, cfg, diff, output :| WrittenAs(w, c, version, u, cfg, diff, output) && u != t && QuotesKey(cfg, diff, output, t);
    ReportedPersists(w, w', u.pr, cfg, diff, output);
    assert WrittenAs(w', c, version, u, cfg, diff, output);
  }

  lemma QuotesPersists(w: World, w': World, bot: string, id: int, t: Trigger)
    requires Keeps(w, w', bot) && w'.foreign == w.foreign && id in BotIds(w, bot) && Quotes(w, id, t)
    ensures Quotes(w', id, t)
  {
    if QuotedIn(w, w.comments[id], t) { QuotedInPersists(w, w', w.comments[id], t); }
  }

  lemma ServedPersists(w: World, w': World, bot: string, t: Trigger)
    requires Keeps(w, w', bot) && w'.foreign == w.foreign && Served(w, bot, t)
    ensures Served(w', bot, t)
  {
    if Posted(w, bot, t) {
      var id :| StandsFor(w, bot, id, t);
      assert StandsFor(w', bot, id, t);
    } else {
      var id :| id in BotIds(w, bot) && w.comments[id].thread == t.pr && Quotes(w, id, t);
      QuotesPersists(w, w', bot, id, t);
      assert id in BotIds(w', bot) && w'.comments[id].thread == t.pr && Quotes(w', id, t);
    }
  }

  lemma ResolvedPersists(w: World, w': World, bot: string, v: Comment, n: int, m: int)
    requires Keeps(w, w', bot) && w'.foreign == w.foreign && ResolvedSince(w, bot, v, n) && m <= n
    ensures ResolvedSince(w', bot, v, m)
  {
    if IssueNumber(v.issueUrl) > 0 {
      var i: int, d: PrDetail :| n <= i && ResolvedAt(w, bot, v, i, d);
      AtPersists(w, w', i, DetailAnswer(IssueNumber(v.issueUrl), d));
      var no := CollaboratorAnswer(v.login, false);
      if Told(w, i, no) { ToldPersists(w, w', i, i, no); }
      if Served(w, bot, PingTrigger(d.number, v.id)) { ServedPersists(w, w', bot, PingTrigger(d.number, v.id)); }
      assert ResolvedAt(w', bot, v, i, d);
    }
  }

  lemma AnsweredPersists(w: World, w': World, bot: string, v: Comment)
    requires Keeps(w, w', bot) && w'.foreign == w.foreign && Answered(w, bot, v)
    ensures Answered(w', bot, v)
  {
    var k :| Mentioned(w, bot, v, v.id, k) && ResolvedSince(w, bot, v, k);
    ResolvedPersists(w, w', bot, v, k, k);
    assert Mentioned(w', bot, v, v.id, k);
  }

  lemma SettledPersists(w: World, w': World, bot: string, c: Comment)
    requires Keeps(w, w', bot) && w'.foreign == w.foreign && Settled(w, bot, c)
    ensures Settled(w', bot, c)
  {
    if Answered(w, bot, c) {
      AnsweredPersists(w, w', bot, c);
    } else if !ByBot(c, bot) && Mentions(c.body, bot) {
      var v: Comment :| v.id == c.id && KeyLess(KeyOf(v), KeyOf(c)) && Answered(w, bot, v);
      AnsweredPersists(w, w', bot, v);
    }
  }

  lemma HandledPersists(w: World, w': World, bot: string, id: int, cursor: Key, cursor': Key)
    requires Keeps(w, w', bot) && w'.foreign == w.foreign && HandledRightly(w, bot, id, cursor) && KeyAtMost(cursor, cursor')
    ensures HandledRightly(w', bot, id, cursor')
  {
    KeyOrder();
    var v: Comment :| v.id == id && KeyAtMost(KeyOf(v), cursor) && Answered(w, bot, v);
    AnsweredPersists(w, w', bot, v);
  }

  /** The claims of a state survive every step of the environment and every post. */
  lemma StateOkPersists(w: World, w': World, bot: string, st: State)
    requires Later(w, w', bot) && StateOk(w, bot, st)
    ensures StateOk(w', bot, st)
  {
    KeyOrder();
    forall pr | pr in st.reviewed ensures Served(w', bot, AutoTrigger(pr)) {
      ServedPersists(w, w', bot, AutoTrigger(pr));
    }
    forall id | id in st.handled ensures HandledRightly(w', bot, id, st.cursor) {
      HandledPersists(w, w', bot, id, st.cursor, st.cursor);
    }
    forall id | id in w'.comments && KeyLess(w'.seed, KeyOf(w'.comments[id])) && KeyAtMost(KeyOf(w'.comments[id]), st.cursor)
      ensures Settled(w', bot, w'.comments[id])
    {
      assert w'.comments[id] == w.comments[id];
      SettledPersists(w, w', bot, w.comments[id]);
    }
  }

  lemma StrangersPersist(w: World, w': World, n: int, reviews: seq<Review>, k: int)
    requires w.events <= w'.events && StrangersBefore(w, n, reviews, k)
    ensures StrangersBefore(w', n, reviews, k)
  {
    forall j | 0 <= j < k && j < |reviews| && reviews[j].state == "APPROVED"
      ensures Told(w', n, CollaboratorAnswer(reviews[j].login, false))
    {
      ToldPersists(w, w', n, n, CollaboratorAnswer(reviews[j].login, false));
    }
  }

  lemma ApprovedPersists(w: World, w': World, n: int, m: int, pr: int)
    requires w.events <= w'.events && Approved(w, n, pr) && m <= n
    ensures Approved(w', m, pr)
  {
    var reviews: seq<Review>, i: int, k: int :| ApprovedAt(w, n, pr, reviews, i, k);
    AtPersists(w, w', i, ReviewsAnswer(pr, reviews));
    StrangersPersist(w, w', i, reviews, k);
    ToldPersists(w, w', i, i, CollaboratorAnswer(reviews[k].login, true));
    assert ApprovedAt(w', m, pr, reviews, i, k);
  }

  lemma WarrantPersists(w: World, w': World, bot: string, t: Trigger)
    requires w.events <= w'.events && Warranted(w, bot, t)
    ensures Warranted(w', bot, t)
  {
    match t
    case Trigger(Auto, pr, None) => ApprovedPersists(w, w', 0, 0, pr);
    case Trigger(Ping, pr, Some(id)) =>
      var v: Comment, k: int, i: int, d: PrDetail :| AskedAt(w, bot, v, id, pr, k, i, d);
      AtPersists(w, w', i, DetailAnswer(IssueNumber(v.issueUrl), d));
      ToldPersists(w, w', i, i, CollaboratorAnswer(v.login, true));
      assert AskedAt(w', bot, v, id, pr, k, i, d);
    case _ =>
  }

  /** A post for a trigger that no bot comment carries leaves every trigger with at most one comment. */
  lemma PostKeepsAtMostOnce(w: World, w': World, bot: string, posted: set<int>, t: Trigger)
    requires Moves(w, w', bot, posted) && AtMostOnce(w, bot)
    requires forall i, j :: i in posted && j in posted ==> i == j
    requires forall id :: id in posted ==> StandsFor(w', bot, id, t)
    requires posted != {} ==> !Carries(w, bot, t)
    ensures AtMostOnce(w', bot)
  {
    forall i, j, u | StandsFor(w', bot, i, u) && StandsFor(w', bot, j, u) ensures i == j {
      OneNewAtMost(w, w', bot, posted, t, i, j, u);
      OneNewAtMost(w, w', bot, posted, t, j, i, u);
      if i !in posted && j !in posted {
        assert StandsFor(w, bot, i, u) && StandsFor(w, bot, j, u);
      }
    }
  }

  lemma OneNewAtMost(w: World, w': World, bot: string, posted: set<int>, t: Trigger, i: int, j: int, u: Trigger)
    requires Moves(w, w', bot, posted)
    requires forall id :: id in posted ==> StandsFor(w', bot, id, t)
    requires posted != {} ==> !Carries(w, bot, t)
    requires StandsFor(w', bot, i, u) && StandsFor(w', bot, j, u)
    ensures i in posted ==> j in posted
  {
    if i in posted {
      PostedForOneTrigger(w'.comments[i].body, t, u);
      PostedForHasKey(w'.comments[j].body, t);
      assert j in BotIds(w, bot) ==> Carries(w, bot, t);
    }
  }

  lemma PostKeepsJustified(w: World, w': World, bot: string, posted: set<int>, t: Trigger)
    requires Moves(w, w', bot, posted) && Justified(w, bot)
    requires forall id :: id in posted ==> StandsFor(w', bot, id, t)
    requires posted != {} ==> Warranted(w, bot, t)
    ensures Justified(w', bot)
  {
    forall id, u | StandsFor(w', bot, id, u) ensures Warranted(w', bot, u) {
      if id in posted {
        PostedForOneTrigger(w'.comments[id].body, t, u);
      } else {
        assert StandsFor(w, bot, id, u);
      }
      WarrantPersists(w, w', bot, u);
    }
  }

  lemma PostKeepsAllWritten(w: World, w': World, bot: string, posted: set<int>)
    requires Moves(w, w', bot, posted) && AllWritten(w, bot)
    requires forall id :: id in posted ==> id in w'.comments && Written(w', w'.comments[id])
    ensures AllWritten(w', bot)
  {
    forall id | id in BotIds(w', bot) && id !in w'.foreign ensures Written(w', w'.comments[id]) {
      if id !in posted {
        assert id in BotIds(w, bot);
        WrittenPersists(w, w', w.comments[id]);
      }
    }
  }

  /** One dispatch, or none, keeps the whole invariant; `t` only matters if something landed. */
  lemma DispatchKeepsProtocol(w: World, w': World, cfg: Config, posted: set<int>, t: Trigger, memory: State, file: Option<State>)
    requires ProtocolOk(w, cfg, memory, file)
    requires Moves(w, w', cfg.botHandle, posted) && PayloadsOk(w', cfg)
    requires forall i, j :: i in posted && j in posted ==> i == j
    requires forall id :: id in posted ==> StandsFor(w', cfg.botHandle, id, t)
    requires posted != {} ==> !Carries(w, cfg.botHandle, t) && Warranted(w, cfg.botHandle, t)
    requires forall id :: id in posted ==> Written(w', w'.comments[id])
    ensures ProtocolOk(w', cfg, memory, file)
  {
    PostKeepsAllWritten(w, w', cfg.botHandle, posted);
    PostKeepsAtMostOnce(w, w', cfg.botHandle, posted, t);
    PostKeepsJustified(w, w', cfg.botHandle, posted, t);
    StateOkPersists(w, w', cfg.botHandle, memory);
    StateOkPersists(w, w', cfg.botHandle, Loaded(file));
  }

  // --- The comment listing ---------------------------------------------------------

  /** Listing comments raises the horizon to the listed keys. */
  lemma RaisingTheHorizon(w: World, cfg: Config, horizon: Key, memory: State, file: Option<State>)
    requires ProtocolOk(w, cfg, memory, file)
    requires KeyAtMost(w.horizon, horizon)
    ensures ProtocolOk(w.(horizon := horizon), cfg, memory, file)
  {
    var bot, w' := cfg.botHandle, w.(horizon := horizon);
    forall id, t ensures StandsFor(w', bot, id, t) == StandsFor(w, bot, id, t) {}
    forall t | Warranted(w, bot, t) ensures Warranted(w', bot, t) { WarrantPersists(w, w', bot, t); }
    SameAllWritten(w, w', bot);
    SameStateOk(w, w', bot, memory);
    SameStateOk(w, w', bot, Loaded(file));
  }

  lemma SameAllWritten(w: World, w': World, bot: string)
    requires AllWritten(w, bot) && w'.comments == w.comments && w'.foreign == w.foreign && w.events <= w'.events
    ensures AllWritten(w', bot)
  {
    forall id | id in BotIds(w', bot) && id !in w'.foreign ensures Written(w', w'.comments[id]) {
      assert id in BotIds(w, bot);
      WrittenPersists(w, w', w.comments[id]);
    }
  }

  lemma SameStateOk(w: World, w': World, bot: string, st: State)
    requires StateOk(w, bot, st)
    requires w' == w.(horizon := w'.horizon) && KeyAtMost(w.horizon, w'.horizon)
    ensures StateOk(w', bot, st)
  {
    KeyOrder();
    forall pr | pr in st.reviewed ensures Served(w', bot, AutoTrigger(pr)) {
      ServedPersists(w, w', bot, AutoTrigger(pr));
    }
    forall id | id in st.handled ensures HandledRightly(w', bot, id, st.cursor) {
      HandledPersists(w, w', bot, id, st.cursor, st.cursor);
    }
    forall id | id in w.comments && KeyLess(w.seed, KeyOf(w.comments[id])) && KeyAtMost(KeyOf(w.comments[id]), st.cursor)
      ensures Settled(w', bot, w.comments[id])
    {
      SettledPersists(w, w', bot, w.comments[id]);
    }
  }

  ghost predicate SortedByKey(cs: seq<Comment>) {
    forall i, j :: 0 <= i < j < |cs| ==> KeyAtMost(KeyOf(cs[i]), KeyOf(cs[j]))
  }

  /** One version per id, as in any single listing. */
  ghost predicate OneVersionEach(cs: seq<Comment>) {
    forall a, b :: a in cs && b in cs && a.id == b.id ==> a == b
  }

  /** Every comment that is not newer than the horizon is in the listing or was before `since`. */
  ghost predicate Covered(w: World, cs: seq<Comment>, since: string) {
    forall id :: id in w.comments ==>
      KeyLess(w.horizon, KeyOf(w.comments[id])) || w.comments[id] in cs || Less(w.comments[id].updatedAt, since)
  }

  /** A sorted listing of the stream, and what the bot may rely on while it works through it. */
  ghost predicate InHand(w: World, cs: seq<Comment>, since: string, at: int) {
    && SortedByKey(cs) && OneVersionEach(cs) && Covered(w, cs, since)
    && (forall c :: c in cs ==> ListedAt(w, at, c) && KeyAtMost(KeyOf(c), w.horizon))
  }

  lemma InHandPersists(w: World, w': World, bot: string, cs: seq<Comment>, since: string, at: int)
    requires Later(w, w', bot) && InHand(w, cs, since, at)
    ensures InHand(w', cs, since, at)
  {
  }

  /** A mention that has to be looked at: new to the cursor, not handled, by someone else. */
  predicate NeedsAnswer(st: State, bot: string, c: Comment) {
    KeyLess(st.cursor, KeyOf(c)) && c.id !in st.handled && !ByBot(c, bot) && Mentions(c.body, bot)
  }

  /** What deciding a comment does to the memory. */
  function Decide(st: State, bot: string, c: Comment): State {
    State(st.reviewed,
          if NeedsAnswer(st, bot, c) then st.handled + {c.id} else st.handled,
          KeyMax(st.cursor, KeyOf(c)))
  }

  function DecideAll(st: State, bot: string, cs: seq<Comment>): State {
    if cs == [] then st else Decide(DecideAll(st, bot, cs[..|cs| - 1]), bot, cs[|cs| - 1])
  }

  function KeysOf(cs: seq<Comment>): seq<Key> {
    seq(|cs|, i requires 0 <= i < |cs| => KeyOf(cs[i]))
  }

  /** The `j`-th comment is looked at when its turn comes. */
  predicate AnsweredInTurn(st: State, bot: string, cs: seq<Comment>, j: nat)
    requires j < |cs|
  {
    NeedsAnswer(DecideAll(st, bot, cs[..j]), bot, cs[j])
  }

  predicate LookedAt(st: State, bot: string, cs: seq<Comment>, id: int) {
    exists j :: 0 <= j < |cs| && AnsweredInTurn(st, bot, cs, j) && cs[j].id == id
  }

  /** After a listing the cursor is at the latest of the keys, and just the ids of the mentions that were looked at are new. */
  lemma {:induction false} DecideAllExactly(st: State, bot: string, cs: seq<Comment>)
    ensures DecideAll(st, bot, cs).reviewed == st.reviewed
    ensures DecideAll(st, bot, cs).cursor == CursorAfter(st.cursor, KeysOf(cs))
    ensures forall id :: id in DecideAll(st, bot, cs).handled <==> id in st.handled || LookedAt(st, bot, cs, id)
  {
    if cs != [] {
      var init, n := cs[..|cs| - 1], |cs| - 1;
      DecideAllExactly(st, bot, init);
      assert KeysOf(cs)[..n] == KeysOf(init);
      forall j: nat | j < n ensures AnsweredInTurn(st, bot, cs, j) <==> AnsweredInTurn(st, bot, init, j) {
        assert init[..j] == cs[..j];
      }
    }
  }

  /** What was looked at is never looked at again, in no version of it, and neither is anything the cursor has reached. */
  lemma NothingIsAskedTwice(st: State, bot: string, cs: seq<Comment>, j: nat, c: Comment)
    requires j < |cs|
    ensures AnsweredInTurn(st, bot, cs, j) && c.id == cs[j].id ==> !NeedsAnswer(DecideAll(st, bot, cs), bot, c)
    ensures c == cs[j] ==> !NeedsAnswer(DecideAll(st, bot, cs), bot, c)
    ensures c.id in st.handled || !IsLater(KeyOf(c), st.cursor) ==> !NeedsAnswer(DecideAll(st, bot, cs), bot, c)
  {
    DecideAllExactly(st, bot, cs);
    CursorIsTheMaximum(st.cursor, KeysOf(cs));
    assert KeyOf(cs[j]) in KeysOf(cs) by { assert KeysOf(cs)[j] == KeyOf(cs[j]); }
    KeyLessExactly(st.cursor, KeyOf(c));
    KeyOrder();
  }

  /**
   Moving the cursor to the next comment of the sorted listing drops nothing: every comment it
   passes is that one, or had been passed before.
   */
  lemma DecideKeepsStateOk(w: World, bot: string, st: State, cs: seq<Comment>, i: nat, since: string, at: int)
    requires StateOk(w, bot, st) && WellKeyed(w)
    requires i < |cs| && InHand(w, cs, since, at)
    requires forall j :: 0 <= j < i ==> KeyAtMost(KeyOf(cs[j]), st.cursor)
    requires !Less(st.cursor.updatedAt, since)
    requires KeyLess(st.cursor, KeyOf(cs[i])) ==> Settled(w, bot, cs[i])
    requires NeedsAnswer(st, bot, cs[i]) ==> Answered(w, bot, cs[i])
    ensures StateOk(w, bot, Decide(st, bot, cs[i]))
  {
    KeyOrder();
    var c, st' := cs[i], Decide(st, bot, cs[i]);
    forall id | id in st'.handled ensures HandledRightly(w, bot, id, st'.cursor) {
      if id in st.handled {
        HandledPersists(w, w, bot, id, st.cursor, st'.cursor);
      } else {
        assert KeyAtMost(KeyOf(c), st'.cursor);
      }
    }
    forall id | id in w.comments && KeyLess(w.seed, KeyOf(w.comments[id])) && KeyAtMost(KeyOf(w.comments[id]), st'.cursor)
      ensures Settled(w, bot, w.comments[id])
    {
      if KeyLess(st.cursor, KeyOf(w.comments[id])) {
        PassedIsTheNext(w, st.cursor, cs, i, since, at, id);
      }
    }
  }

  lemma PassedIsTheNext(w: World, cursor: Key, cs: seq<Comment>, i: nat, since: string, at: int, id: int)
    requires i < |cs| && InHand(w, cs, since, at)
    requires forall j :: 0 <= j < i ==> KeyAtMost(KeyOf(cs[j]), cursor)
    requires !Less(cursor.updatedAt, since)
    requires id in w.comments
    requires KeyLess(cursor, KeyOf(w.comments[id])) && KeyAtMost(KeyOf(w.comments[id]), KeyOf(cs[i]))
    ensures w.comments[id] == cs[i]
  {
    KeyOrder();
    var c := w.comments[id];
    assert cs[i] in cs;
    assert KeyAtMost(Key(since, cursor.id), cursor);
    assert Less(c.updatedAt, since) ==> KeyLess(KeyOf(c), Key(since, cursor.id));
    assert c in cs;
    var j :| 0 <= j < |cs| && cs[j] == c;
    assert j >= i;
    assert KeyOf(c) == KeyOf(cs[i]);
  }

  // --- Seeding ----------------------------------------------------------------------

  /** A new seed asks nothing about the past, of the memory or of the file. */
  lemma SeedingKeepsProtocol(w: World, cfg: Config, memory: State, file: Option<State>, now: string)
    requires ProtocolOk(w, cfg, memory, file) && memory.cursor.updatedAt == [] && now != []
    ensures ProtocolOk(Reseeded(w, Key(now, 0)), cfg, memory.(cursor := Key(now, 0)), file)
  {
    var bot, w' := cfg.botHandle, Reseeded(w, Key(now, 0));
    KeyOrder();
    assert KeyLess(memory.cursor, Key(now, 0));
    forall id, t ensures StandsFor(w', bot, id, t) == StandsFor(w, bot, id, t) {}
    forall t | Warranted(w, bot, t) ensures Warranted(w', bot, t) { WarrantPersists(w, w', bot, t); }
    SameAllWritten(w, w', bot);
    ReseededStateOk(w, bot, memory, Key(now, 0), Key(now, 0));
    ReseededStateOk(w, bot, Loaded(file), Key(now, 0), Loaded(file).cursor);
  }

  function Reseeded(w: World, seed: Key): World {
    w.(seed := seed, horizon := KeyMax(w.horizon, seed))
  }

  lemma ReseededStateOk(w: World, bot: string, st: State, seed: Key, cursor: Key)
    requires StateOk(w, bot, st) && KeyAtMost(st.cursor, cursor) && KeyAtMost(cursor, seed)
    ensures StateOk(Reseeded(w, seed), bot, st.(cursor := cursor))
  {
    KeyOrder();
    var w' := Reseeded(w, seed);
    forall pr | pr in st.reviewed ensures Served(w', bot, AutoTrigger(pr)) {
      ServedPersists(w, w', bot, AutoTrigger(pr));
    }
    forall id | id in st.handled ensures HandledRightly(w', bot, id, cursor) {
      HandledPersists(w, w', bot, id, st.cursor, cursor);
    }
  }

  // --- Steps of the watcher -----------------------------------------------------------

  /** Every comment up to the horizon is at or before the cursor. */
  ghost predicate Passed(w: World, cursor: Key) {
    forall id :: id in w.comments ==> KeyLess(w.horizon, KeyOf(w.comments[id])) || KeyAtMost(KeyOf(w.comments[id]), cursor)
  }

  lemma PassedAtTheEnd(w: World, cs: seq<Comment>, since: string, cursor: Key)
    requires Covered(w, cs, since)
    requires forall j :: 0 <= j < |cs| ==> KeyAtMost(KeyOf(cs[j]), cursor)
    requires !Less(cursor.updatedAt, since)
    ensures Passed(w, cursor)
  {
    KeyOrder();
    forall id | id in w.comments && !KeyLess(w.horizon, KeyOf(w.comments[id]))
      ensures KeyAtMost(KeyOf(w.comments[id]), cursor)
    {
      var c := w.comments[id];
      if c !in cs {
        assert KeyLess(KeyOf(c), Key(since, cursor.id));
        assert KeyAtMost(Key(since, cursor.id), cursor);
      }
    }
  }

  ghost predicate Landed(posted: set<int>) {
    exists id :: id in posted
  }

  lemma LandedServes(w: World, bot: string, t: Trigger, posted: set<int>)
    requires Landed(posted) && forall id :: id in posted ==> StandsFor(w, bot, id, t)
    ensures Served(w, bot, t)
  {
    var id :| id in posted;
    assert StandsFor(w, bot, id, t);
  }

  lemma HandledSettles(w: World, bot: string, st: State, c: Comment)
    requires StateOk(w, bot, st) && c.id in st.handled && KeyLess(st.cursor, KeyOf(c))
    ensures Settled(w, bot, c)
  {
    KeyOrder();
    var v: Comment :| v.id == c.id && KeyAtMost(KeyOf(v), st.cursor) && Answered(w, bot, v);
    assert KeyLess(KeyOf(v), KeyOf(c));
  }

  /** Whether or not the save took effect, a restart finds a state that the invariant allows. */
  lemma SaveIsSafe(w: World, cfg: Config, memory: State, file: Option<State>)
    requires ProtocolOk(w, cfg, memory, file)
    ensures ProtocolOk(w, cfg, memory, Some(memory)) && ProtocolOk(w, cfg, memory, file)
  {
    KeyOrder();
  }

  lemma OthersAfter(cs: seq<Comment>, i: nat, cursor: Key)
    requires i < |cs| && SortedByKey(cs) && KeyLess(cursor, KeyOf(cs[i]))
    ensures forall j :: i <= j < |cs| ==> KeyLess(cursor, KeyOf(cs[j]))
  {
    KeyOrder();
  }

  lemma DecideNext(st: State, bot: string, cs: seq<Comment>, i: nat)
    requires i < |cs|
    requires forall j :: 0 <= j < i ==> KeyAtMost(KeyOf(cs[j]), DecideAll(st, bot, cs[..i]).cursor)
    ensures DecideAll(st, bot, cs[..i + 1]) == Decide(DecideAll(st, bot, cs[..i]), bot, cs[i])
    ensures forall j :: 0 <= j < i + 1 ==> KeyAtMost(KeyOf(cs[j]), DecideAll(st, bot, cs[..i + 1]).cursor)
  {
    KeyOrder();
    assert cs[..i + 1][..i] == cs[..i];
  }

  /** Repeats of a decided key count as decided: deciding them again changes nothing. */
  lemma CountRepeats(st: State, bot: string, cs: seq<Comment>, decided: nat) returns (all: nat)
    requires decided <= |cs| && SortedByKey(cs)
    requires forall j :: 0 <= j < decided ==> KeyAtMost(KeyOf(cs[j]), DecideAll(st, bot, cs[..decided]).cursor)
    ensures decided <= all <= |cs|
    ensures DecideAll(st, bot, cs[..all]) == DecideAll(st, bot, cs[..decided])
    ensures forall j :: 0 <= j < all ==> KeyAtMost(KeyOf(cs[j]), DecideAll(st, bot, cs[..all]).cursor)
    ensures forall j :: all <= j < |cs| ==> KeyLess(DecideAll(st, bot, cs[..all]).cursor, KeyOf(cs[j]))
  {
    all := decided;
    var st' := DecideAll(st, bot, cs[..decided]);
    while all < |cs| && KeyAtMost(KeyOf(cs[all]), st'.cursor)
      invariant decided <= all <= |cs|
      invariant DecideAll(st, bot, cs[..all]) == st'
      invariant forall j :: 0 <= j < all ==> KeyAtMost(KeyOf(cs[j]), st'.cursor)
    {
      assert cs[..all + 1][..all] == cs[..all];
      all := all + 1;
    }
    if all < |cs| { OthersAfter(cs, all, st'.cursor); }
  }
}
