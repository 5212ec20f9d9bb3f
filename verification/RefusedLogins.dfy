/**
  What a login that cannot be looked up does to either path (src/github_client.cpp:142-154, 758-765;
  src/watcher.cpp:150-176, 315-322). Accounts of apps have such logins.
 */
module RefusedLogins {
  import opened Text
  import opened Markers
  import opened Mention
  import opened IssueUrl
  import opened StateStore
  import opened Context
  import opened Protocol
  import opened Approvals
  import opened Blocking

  function App(): string { "dependabot[bot]" }

  lemma AppsAreRefused()
    ensures !PlainLogin(App())
  {
    assert !IsLoginChar(App()[10]);
  }

  // --- The auto path ------------------------------------------------------------------

  /** A collaborator has approved, but an app did before. */
  function HiddenReviews(): seq<Review> {
    [Review("APPROVED", App()), Review("APPROVED", "ann")]
  }

  /** The input: whoever ann is, and whatever GitHub says about her, her approval does not count. */
  lemma AnnIsHidden(w: World, n: int)
    requires AnswersPlain(w)
    ensures RefusedAt(w, n, HiddenReviews(), 0) && forall k :: !Counts(w, n, HiddenReviews(), k)
  {
    AppsAreRefused();
    forall k ensures !Counts(w, n, HiddenReviews(), k) {
      if k >= 0 { RefusalHides(w, n, HiddenReviews(), 0, k); }
    }
  }

  /** The first approval of each listing of the pull request is by a login that cannot be looked up. */
  ghost predicate AlwaysHidden(w: World, pr: int) {
    forall reviews: seq<Review> :: ReviewsAnswer(pr, reviews) in w.events ==>
      reviews != [] && reviews[0].state == "APPROVED" && !PlainLogin(reviews[0].login)
  }

  /** In every reachable state: while that is so, nothing has been posted for the approvals. */
  lemma HiddenIsNeverReviewed(w: World, cfg: Config, pr: int)
    requires WorldOk(w, cfg) && AlwaysHidden(w, pr)
    ensures !Approved(w, 0, pr) && !Posted(w, cfg.botHandle, AutoTrigger(pr))
  {
    forall reviews, i, k ensures !ApprovedAt(w, 0, pr, reviews, i, k) {
      if ReviewsAt(w, 0, pr, reviews, i) && k >= 0 {
        assert ReviewsAnswer(pr, reviews) in w.events;
        RefusalHides(w, i, reviews, 0, k);
      }
    }
    assert !Warranted(w, cfg.botHandle, AutoTrigger(pr));
  }

  // --- The ping path --------------------------------------------------------------------

  function Bot(): string { "bot" }
  function Settings(): Config { Config(Bot(), 10, 10, 0, 0, 0) }

  /** An app mentions the bot on pull request 7. */
  function AppAsks(): Comment {
    Comment(5, App(), "@bot", "1", "/" + Digits(7), 7)
  }

  function BlockedWorld(): World {
    World(map[5 := AppAsks()], Key("1", 5), Key("", 0),
          [StreamAnswer("", [AppAsks()]), DetailAnswer(7, PrDetail(7, "open", true))], {})
  }

  lemma AppMentions()
    ensures Mentions(AppAsks().body, Bot()) && !ByBot(AppAsks(), Bot()) && IssueNumber(AppAsks().issueUrl) == 7
    ensures BotIds(BlockedWorld(), Bot()) == {}
  {
    assert "@bot"[1..4] == Bot();
    assert MentionAt("@bot", Bot(), 0);
    IssueNumberOfUrl("/", 7, "");
    assert "/" + Digits(7) + "" == "/" + Digits(7);
  }

  lemma BlockedLog()
    ensures forall e :: e in BlockedWorld().events ==> e == StreamAnswer("", [AppAsks()]) || e == DetailAnswer(7, PrDetail(7, "open", true))
    ensures forall v, k :: ListedAt(BlockedWorld(), k, v) ==> v == AppAsks()
  {
  }

  lemma BlockedWorldIsReachable()
    ensures WorldOk(BlockedWorld(), Settings())
  {
    AppMentions();
    BlockedLog();
  }

  lemma AppIsNeverAnswered()
    ensures NeverAnswerable(BlockedWorld(), Bot(), 5)
  {
    AppMentions();
    AppsAreRefused();
    BlockedLog();
    assert Stuck(BlockedWorld(), AppAsks());
  }

  /** The input: in this world the cursor of every memory that the invariant allows is before the mention. */
  lemma AppBlocksThePath(st: State)
    requires StateOk(BlockedWorld(), Bot(), st)
    ensures 5 !in st.handled && KeyLess(st.cursor, KeyOf(AppAsks()))
  {
    BlockedWorldIsReachable();
    AppIsNeverAnswered();
    AppMentions();
    forall pr ensures !Quoted(BlockedWorld(), Bot(), PingTrigger(pr, 5)) {}
    NeverAnswerableIsNeverPassed(BlockedWorld(), Settings(), st, 5);
    assert BlockedWorld().comments[5] == AppAsks();
    assert KeyLess(Key("", 0), KeyOf(AppAsks()));
    assert OwedAnswer(BlockedWorld(), Bot(), AppAsks());
  }

  /** And such memories exist: that of a bot that has just started. */
  lemma StartingMemoryIsAllowed()
    ensures StateOk(BlockedWorld(), Bot(), EMPTY)
  {
    KeyOrder();
    assert Less("", "1");
    assert !Less("", "");
  }
}
