/**
  Where the marker test is too generous: it looks for the key anywhere in a comment of the bot's,
  so a review that quotes the key of a mention answers it (src/watcher.cpp:75-78, 190-203, 325-352).
 */
module QuotedKeys {
  import opened Text
  import opened Markers
  import opened Mention
  import opened IssueUrl
  import opened StateStore
  import opened Payload
  import opened Context
  import opened Trim
  import opened Reports
  import opened Protocol

  function Bot(): string { "bot" }
  function Settings(): Config { Config(Bot(), 10, 10, 0, 0, 0) }

  /** A collaborator's mention, on pull request 7. */
  function Asking(): Comment {
    Comment(42, "ann", "@bot", "2", "/" + Digits(7), 7)
  }

  function Wanted(): Trigger { PingTrigger(7, 42) }

  /** The diff of that pull request is empty, and the reviewer says no more than the key of that mention. */
  function NoDiff(): DiffResult { DiffResult("", false) }
  function Request(): ReviewRequest { ReviewRequest("", "", "", [], []) }
  function Quote(): string { BuildMarkerKey(Wanted()) }

  /** The review of the pull request, which ann has approved. */
  function Quoting(): Comment {
    Comment(1, Bot(), Posting("1", AutoTrigger(7), ReportText(Settings(), NoDiff(), Quote())), "1", "", 7)
  }

  function Log(): seq<Event> {
    [ReviewsAnswer(7, [Review("APPROVED", "ann")]), CollaboratorAnswer("ann", true), DiffAnswer(7, NoDiff()),
     ReviewerRan(Request()), ReviewerSaid(Request(), Quote()),
     StreamAnswer("", [Quoting(), Asking()]), DetailAnswer(7, PrDetail(7, "open", true)), CollaboratorAnswer("ann", true)]
  }

  function QuotingWorld(): World {
    World(map[1 := Quoting(), 42 := Asking()], Key("2", 42), Key("", 0), Log(), {})
  }

  /** What the bot then remembers: pull request 7 is reviewed, comment 42 handled and passed. */
  function Memory(): State {
    State({7}, {42}, Key("2", 42))
  }

  lemma LogIs()
    ensures At(QuotingWorld(), 0, ReviewsAnswer(7, [Review("APPROVED", "ann")])) && At(QuotingWorld(), 1, CollaboratorAnswer("ann", true))
    ensures At(QuotingWorld(), 2, DiffAnswer(7, NoDiff())) && At(QuotingWorld(), 4, ReviewerSaid(Request(), Quote()))
    ensures ListedAt(QuotingWorld(), 5, Asking()) && At(QuotingWorld(), 6, DetailAnswer(7, PrDetail(7, "open", true)))
    ensures At(QuotingWorld(), 7, CollaboratorAnswer("ann", true)) && |QuotingWorld().events| == 8
    ensures forall e :: e in QuotingWorld().events ==>
      (e.CollaboratorAnswer? ==> e == CollaboratorAnswer("ann", true)) && (e.ReviewerRan? ==> e == ReviewerRan(Request()))
  {
    assert Asking() in [Quoting(), Asking()];
  }

  lemma OnlyTheReviewIsTheBots()
    ensures BotIds(QuotingWorld(), Bot()) == {1} && ByBot(Quoting(), Bot())
  {
    var w := QuotingWorld();
    assert SameIgnoringCase(Bot(), Bot());
    assert !SameIgnoringCase("ann", Bot()) by { assert AsciiLower("ann"[0]) != AsciiLower(Bot()[0]); }
    forall id ensures id in BotIds(w, Bot()) <==> id == 1 {}
  }

  lemma AskingMentions()
    ensures Mentions(Asking().body, Bot()) && !ByBot(Asking(), Bot()) && IssueNumber(Asking().issueUrl) == 7
  {
    assert "@bot"[1..4] == Bot();
    assert MentionAt("@bot", Bot(), 0);
    assert AsciiLower("ann"[0]) != AsciiLower(Bot()[0]);
    IssueNumberOfUrl("/", 7, "");
    assert "/" + Digits(7) + "" == "/" + Digits(7);
  }

  lemma ReviewIsWritten()
    ensures WrittenAs(QuotingWorld(), Quoting(), "1", AutoTrigger(7), Settings(), NoDiff(), Quote())
    ensures QuotedIn(QuotingWorld(), Quoting(), Wanted())
  {
    var w := QuotingWorld();
    LogIs();
    assert DiffAnswer(7, NoDiff()) in w.events && ReviewerSaid(Request(), Quote()) in w.events;
    assert Said(w, Settings(), NoDiff(), Quote());
    assert GoesToReviewer(Settings(), NoDiff());
    ContainsItself(Quote());
    assert WrittenAs(w, Quoting(), "1", AutoTrigger(7), Settings(), NoDiff(), Quote());
    assert QuotesKey(Settings(), NoDiff(), Quote(), Wanted());
  }

  lemma ContainsItself(s: string)
    ensures Contains(s, s)
  {
    assert StandsAt(s, 0, s);
  }

  /** The review stands for the approval, and for nothing else. */
  lemma OnlyTheApprovalIsPosted()
    ensures forall id, t :: StandsFor(QuotingWorld(), Bot(), id, t) <==> id == 1 && t == AutoTrigger(7)
  {
    OnlyTheReviewIsTheBots();
    PostingIsFor("1", AutoTrigger(7), ReportText(Settings(), NoDiff(), Quote()));
    forall t | PostedFor(Quoting().body, t) ensures t == AutoTrigger(7) {
      PostedForOneTrigger(Quoting().body, AutoTrigger(7), t);
    }
  }

  lemma TheApprovalIsWarranted()
    ensures Warranted(QuotingWorld(), Bot(), AutoTrigger(7))
  {
    var w, reviews := QuotingWorld(), [Review("APPROVED", "ann")];
    LogIs();
    assert Told(w, 0, CollaboratorAnswer(reviews[0].login, true));
    assert ApprovedAt(w, 0, 7, reviews, 0, 0);
  }

  lemma TheMentionIsAnswered()
    ensures Answered(QuotingWorld(), Bot(), Asking()) && Quoted(QuotingWorld(), Bot(), Wanted())
    ensures AskedAt(QuotingWorld(), Bot(), Asking(), 42, 7, 5, 6, PrDetail(7, "open", true))
  {
    var w := QuotingWorld();
    LogIs();
    OnlyTheReviewIsTheBots();
    AskingMentions();
    ReviewIsWritten();
    assert Quotes(w, 1, Wanted());
    assert Mentioned(w, Bot(), Asking(), 42, 5);
    assert ResolvedAt(w, Bot(), Asking(), 6, PrDetail(7, "open", true));
    assert Told(w, 6, CollaboratorAnswer("ann", true));
  }

  lemma OneCommentEach()
    ensures AtMostOnce(QuotingWorld(), Bot()) && Justified(QuotingWorld(), Bot())
  {
    OnlyTheApprovalIsPosted();
    TheApprovalIsWarranted();
  }

  lemma PayloadsAreOk()
    ensures PayloadsOk(QuotingWorld(), Settings())
  {
    LogIs();
    assert PathsOf([]) == [];
    assert PayloadOk(Settings(), Request());
  }

  lemma AnswersArePlain()
    ensures AnswersPlain(QuotingWorld())
  {
    LogIs();
    assert PlainLogin("ann");
  }

  lemma CommentsAreWritten()
    ensures AllWritten(QuotingWorld(), Bot())
  {
    OnlyTheReviewIsTheBots();
    ReviewIsWritten();
  }

  lemma TheWorldIsReachable()
    ensures WorldOk(QuotingWorld(), Settings())
  {
    OneCommentEach();
    PayloadsAreOk();
    AnswersArePlain();
    CommentsAreWritten();
  }

  lemma HandlingIsRight()
    ensures HandledRightly(QuotingWorld(), Bot(), 42, Memory().cursor)
  {
    KeyOrder();
    TheMentionIsAnswered();
    assert Asking().id == 42 && KeyAtMost(KeyOf(Asking()), Memory().cursor);
  }

  lemma NothingIsDropped()
    ensures NoneDropped(QuotingWorld(), Bot(), Memory().cursor)
  {
    OnlyTheReviewIsTheBots();
    TheMentionIsAnswered();
  }

  lemma TheMemoryIsReachable()
    ensures StateOk(QuotingWorld(), Bot(), Memory())
  {
    KeyOrder();
    OnlyTheApprovalIsPosted();
    HandlingIsRight();
    NothingIsDropped();
    assert StandsFor(QuotingWorld(), Bot(), 1, AutoTrigger(7));
  }

  /**
   The invariant allows it: the mention is a collaborator's, its pull request is open, it is handled
   and the cursor has passed it; yet nothing was ever posted for it.
   */
  lemma QuotedKeySilencesAMention()
    ensures var w := QuotingWorld();
      && ProtocolOk(w, Settings(), Memory(), Some(Memory()))
      && AskedAt(w, Bot(), Asking(), 42, 7, 5, 6, PrDetail(7, "open", true)) && 42 in Memory().handled
      && Carries(w, Bot(), Wanted()) && !Posted(w, Bot(), Wanted()) && !Unquoted(w, Bot(), Wanted())
  {
    KeyOrder();
    TheWorldIsReachable();
    TheMemoryIsReachable();
    TheMentionIsAnswered();
    OnlyTheApprovalIsPosted();
    CarriesExactly(QuotingWorld(), Bot(), Wanted());
    if Unquoted(QuotingWorld(), Bot(), Wanted()) { UnquotedIsPosted(QuotingWorld(), Bot(), Wanted()); }
  }
}
