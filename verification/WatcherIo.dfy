/**
  The watcher's view of the outside (src/watcher.hpp:23-90). Every call may answer, throw, or be
  the last thing the process does, and GitHub changes under it; the choices are demonic.
 */
module WatcherIo {
  import opened Text
  import opened Markers
  import opened Mention
  import opened StateStore
  import opened Payload
  import opened Context
  import opened Protocol
  import opened Errors

  /** Dies is a crash at this call: no handler runs. */
  datatype Reply<+T> = Answer(value: T) | Throws(error: Error) | Dies

  /** The environment moved, nothing was posted, and the reviewer was not run. */
  ghost predicate Drifts(w: World, w': World, bot: string) {
    Moves(w, w', bot, {}) && SameRuns(w, w')
  }

  ghost predicate SameRuns(w: World, w': World) {
    forall request :: ReviewerRan(request) in w'.events <==> ReviewerRan(request) in w.events
  }

  lemma DriftsCompose(w: World, w': World, w'': World, bot: string)
    requires Drifts(w, w', bot) && Drifts(w', w'', bot)
    ensures Drifts(w, w'', bot)
  {
    MovesCompose(w, w', w'', bot, {}, {});
  }

  /** All comments of one thread, and only those. */
  predicate ThreadListing(w: World, n: int, cs: seq<Comment>) {
    && (forall id :: id in w.comments && w.comments[id].thread == n ==> w.comments[id] in cs)
    && (forall c :: c in cs ==> c.id in w.comments && w.comments[c.id] == c && c.thread == n)
  }

  /** At least all comments updated at or after `since`. */
  predicate StreamListing(w: World, since: string, cs: seq<Comment>) {
    && (forall id :: id in w.comments && !Less(w.comments[id].updatedAt, since) ==> w.comments[id] in cs)
    && (forall c :: c in cs ==> c.id in w.comments && w.comments[c.id] == c)
  }

  lemma DriftKeepsProtocol(w: World, w': World, cfg: Config, memory: State, file: Option<State>)
    requires ProtocolOk(w, cfg, memory, file) && Drifts(w, w', cfg.botHandle)
    ensures ProtocolOk(w', cfg, memory, file)
  {
    DispatchKeepsProtocol(w, w', cfg, {}, AutoTrigger(0), memory, file);
  }

  lemma ListedMarkerCarries(w: World, bot: string, t: Trigger, cs: seq<Comment>)
    requires ThreadListing(w, t.pr, cs)
    ensures Carries(w, bot, t) <==> exists c :: c in cs && ByBot(c, bot) && BodyHasMarkerKey(c.body, t)
  {
  }

  /** The world right after a listing: the horizon is raised and the answer is on record. */
  ghost predicate ListingTaken(at: World, w: World, since: string, cs: seq<Comment>) {
    w == at.(horizon := CursorAfter(at.horizon, KeysOf(cs)), events := at.events + [StreamAnswer(since, cs)])
  }

  lemma ListingKeepsProtocol(at: World, w: World, cfg: Config, memory: State, file: Option<State>, since: string, cs: seq<Comment>)
    requires ProtocolOk(at, cfg, memory, file) && ListingTaken(at, w, since, cs)
    ensures ProtocolOk(w, cfg, memory, file)
  {
    CursorIsTheMaximum(at.horizon, KeysOf(cs));
    RaisingTheHorizon(at, cfg, w.horizon, memory, file);
    DriftKeepsProtocol(at.(horizon := w.horizon), w, cfg, memory, file);
  }

  lemma ListingInHand(at: World, w: World, cs: seq<Comment>, sorted: seq<Comment>, since: string)
    requires WellKeyed(at) && ListingTaken(at, w, since, cs) && StreamListing(at, since, cs)
    requires SortedByKey(sorted) && forall c :: c in sorted <==> c in cs
    ensures InHand(w, sorted, since, |at.events|)
  {
    CursorIsTheMaximum(at.horizon, KeysOf(cs));
    assert w.events[|at.events|] == StreamAnswer(since, cs);
    forall c | c in sorted ensures KeyAtMost(KeyOf(c), w.horizon) {
      var i :| 0 <= i < |cs| && cs[i] == c;
      assert KeysOf(cs)[i] == KeyOf(c);
    }
  }

  class WatcherIo {
    const cfg: Config
    const store: StateStore
    var world: World
    /** How many calls have thrown; refusals of logins do not count. */
    ghost var faults: nat
    /** The process died at a call; a call threw an error that ends the process. Then no call follows. */
    ghost var died: bool
    ghost var fatal: bool

    constructor (cfg: Config, store: StateStore, world: World)
      ensures this.cfg == cfg && this.store == store && this.world == world && Running()
    {
      this.cfg, this.store, this.world := cfg, store, world;
      faults, died, fatal := 0, false, false;
    }

    ghost predicate Running()
      reads this
    {
      !died && !fatal
    }

    /** The process lives on unless the reply says otherwise. */
    ghost predicate Left<T>(r: Reply<T>)
      reads this
    {
      (died <==> r.Dies?) && (fatal <==> r.Throws? && IsFatalGithub(r.error))
    }

    ghost predicate Noted<T>(r: Reply<T>, before: nat)
      reads this
    {
      Left(r) && faults == if r.Throws? then before + 1 else before
    }

    /** The first cursor is seeded; this is only noted. */
    method Reseed(seed: Key)
      modifies this`world
      ensures world == Reseeded(old(world), seed)
    {
      world := Reseeded(world, seed);
    }

    /** Any number of environment steps. */
    method Drift()
      requires WellKeyed(world)
      modifies this`world
      ensures Drifts(old(world), world, cfg.botHandle) && world.events == old(world).events
    {
      var next: World := *;
      next := next.(events := world.events);
      if Moves(world, next, cfg.botHandle, {}) { world := next; }
    }

    method Fail<T>() returns (r: Reply<T>)
      requires Running()
      modifies this`faults, this`died, this`fatal
      ensures !r.Answer? && Noted(r, old(faults))
    {
      if * {
        var e: Error := *;
        faults := faults + 1;
        fatal := IsFatalGithub(e);
        r := Throws(e);
      } else {
        died := true;
        r := Dies;
      }
    }

    /** A call that returns an arbitrary answer, which goes on record. */
    method Record(event: Event)
      requires WellKeyed(world) && !event.ReviewerRan? && (event.CollaboratorAnswer? ==> PlainLogin(event.login))
      modifies this`world
      ensures Drifts(old(world), world, cfg.botHandle) && world.events == old(world).events + [event]
    {
      world := world.(events := world.events + [event]);
    }

    method ListOpenPrs() returns (r: Reply<seq<int>>)
      requires WellKeyed(world) && Running()
      modifies this`world, this`faults, this`died, this`fatal
      ensures Drifts(old(world), world, cfg.botHandle) && Noted(r, old(faults))
      ensures world.events == old(world).events + if r.Answer? then [OpenPrsAnswer(r.value)] else []
    {
      Drift();
      if * {
        var prs: seq<int> := *;
        Record(OpenPrsAnswer(prs));
        r := Answer(prs);
      } else {
        r := Fail();
      }
    }

    method ListReviews(pr: int) returns (r: Reply<seq<Review>>)
      requires WellKeyed(world) && Running()
      modifies this`world, this`faults, this`died, this`fatal
      ensures Drifts(old(world), world, cfg.botHandle) && Noted(r, old(faults))
      ensures world.events == old(world).events + if r.Answer? then [ReviewsAnswer(pr, r.value)] else []
    {
      Drift();
      if * {
        var reviews: seq<Review> := *;
        Record(ReviewsAnswer(pr, reviews));
        r := Answer(reviews);
      } else {
        r := Fail();
      }
    }

    method ListPrComments(n: int) returns (r: Reply<seq<Comment>>)
      requires WellKeyed(world) && Running()
      modifies this`world, this`faults, this`died, this`fatal
      ensures Drifts(old(world), world, cfg.botHandle) && world.events == old(world).events && Noted(r, old(faults))
      ensures r.Answer? ==> ThreadListing(world, n, r.value)
    {
      Drift();
      var cs: seq<Comment> := *;
      if ThreadListing(world, n, cs) {
        r := Answer(cs);
      } else {
        r := Fail();
      }
    }

    /** Listing the comment stream. `at` is the world at the moment of the listing. */
    method ListIssueComments(since: string) returns (r: Reply<seq<Comment>>, ghost at: World)
      requires WellKeyed(world) && Running()
      modifies this`world, this`faults, this`died, this`fatal
      ensures Drifts(old(world), at, cfg.botHandle) && at.events == old(world).events && Noted(r, old(faults))
      ensures !r.Answer? ==> world == at
      ensures r.Answer? ==> StreamListing(at, since, r.value) && ListingTaken(at, world, since, r.value)
    {
      Drift();
      at := world;
      var cs: seq<Comment> := *;
      if StreamListing(world, since, cs) {
        world := world.(horizon := CursorAfter(world.horizon, KeysOf(cs)), events := world.events + [StreamAnswer(since, cs)]);
        r := Answer(cs);
      } else {
        r := Fail();
      }
    }

    method GetIssueDetail(n: int) returns (r: Reply<PrDetail>)
      requires WellKeyed(world) && Running()
      modifies this`world, this`faults, this`died, this`fatal
      ensures Drifts(old(world), world, cfg.botHandle) && Noted(r, old(faults))
      ensures world.events == old(world).events + if r.Answer? then [DetailAnswer(n, r.value)] else []
    {
      Drift();
      if * {
        var detail: PrDetail := *;
        Record(DetailAnswer(n, detail));
        r := Answer(detail);
      } else {
        r := Fail();
      }
    }

    /** A login that nobody can have is refused before anything is sent, always: that is no fault. */
    method IsCollaborator(login: string) returns (r: Reply<bool>)
      requires WellKeyed(world) && Running()
      modifies this`world, this`faults, this`died, this`fatal
      ensures Drifts(old(world), world, cfg.botHandle) && Left(r)
      ensures !PlainLogin(login) ==> r == Throws(GithubError(0, false)) && faults == old(faults)
      ensures PlainLogin(login) ==> Noted(r, old(faults))
      ensures world.events == old(world).events + if r.Answer? then [CollaboratorAnswer(login, r.value)] else []
    {
      Drift();
      if !PlainLogin(login) { return Throws(GithubError(0, false)); }
      if * {
        var yes: bool := *;
        Record(CollaboratorAnswer(login, yes));
        r := Answer(yes);
      } else {
        r := Fail();
      }
    }

    method StreamDiff(pr: int) returns (r: Reply<DiffResult>)
      requires WellKeyed(world) && Running()
      modifies this`world, this`faults, this`died, this`fatal
      ensures Drifts(old(world), world, cfg.botHandle) && Noted(r, old(faults))
      ensures world.events == old(world).events + if r.Answer? then [DiffAnswer(pr, r.value)] else []
    {
      Drift();
      if * {
        var diff: DiffResult := *;
        Record(DiffAnswer(pr, diff));
        r := Answer(diff);
      } else {
        r := Fail();
      }
    }

    method GetPrInfo(pr: int) returns (r: Reply<PrInfo>)
      requires WellKeyed(world) && Running()
      modifies this`world, this`faults, this`died, this`fatal
      ensures Drifts(old(world), world, cfg.botHandle) && Noted(r, old(faults))
      ensures world.events == old(world).events + if r.Answer? then [InfoAnswer(pr, r.value)] else []
    {
      Drift();
      if * {
        var info: PrInfo := *;
        Record(InfoAnswer(pr, info));
        r := Answer(info);
      } else {
        r := Fail();
      }
    }

    /**
     A complete file is within the client's per-file cap, as Http.GetFileAtRef guarantees. This is
     the one call whose fatal errors are not: the context fetch swallows them.
     */
    method GetFileAtRef(path: string, ref: string) returns (r: Reply<FileContent>)
      requires WellKeyed(world) && Running()
      modifies this`world, this`faults, this`died
      ensures Drifts(old(world), world, cfg.botHandle) && (died <==> r.Dies?)
      ensures faults == if r.Throws? then old(faults) + 1 else old(faults)
      ensures world.events == old(world).events + if r.Answer? then [FileAnswer(path, ref, r.value)] else []
      ensures r.Answer? && r.value.found && !r.value.truncated ==> |r.value.body| <= cfg.maxContextFileBytes
    {
      Drift();
      var fc: FileContent := *;
      if !fc.found || fc.truncated || |fc.body| <= cfg.maxContextFileBytes {
        Record(FileAnswer(path, ref, fc));
        r := Answer(fc);
      } else if * {
        var e: Error := *;
        faults := faults + 1;
        r := Throws(e);
      } else {
        died := true;
        r := Dies;
      }
    }

    method RunReviewer(request: ReviewRequest) returns (r: Reply<string>)
      requires WellKeyed(world) && Running()
      modifies this`world, this`faults, this`died, this`fatal
      ensures Moves(old(world), world, cfg.botHandle, {}) && Noted(r, old(faults))
      ensures world.events
           == old(world).events + [ReviewerRan(request)] + if r.Answer? then [ReviewerSaid(request, r.value)] else []
    {
      Drift();
      world := world.(events := world.events + [ReviewerRan(request)]);
      if * {
        var output: string := *;
        world := world.(events := world.events + [ReviewerSaid(request, output)]);
        r := Answer(output);
      } else {
        r := Fail();
      }
    }

    /**
     Posting. The comment appears under a login that is the bot handle up to case, with a new id
     and a key after the horizon. It may land even when the call throws or the process dies.
     */
    method PostComment(n: int, body: string) returns (r: Reply<()>, ghost posted: set<int>)
      requires WellKeyed(world) && Running()
      modifies this`world, this`faults, this`died, this`fatal
      ensures Moves(old(world), world, cfg.botHandle, posted) && world.events == old(world).events && Noted(r, old(faults))
      ensures forall i, j :: i in posted && j in posted ==> i == j
      ensures forall id :: id in posted ==> world.comments[id].thread == n && world.comments[id].body == body
      ensures r.Answer? ==> Landed(posted)
    {
      Drift();
      posted := {};
      var c: Comment := *;
      c := c.(body := body, thread := n);
      var landed := c.id !in world.comments && ByBot(c, cfg.botHandle) && KeyLess(world.horizon, KeyOf(c));
      if landed {
        ghost var before := world;
        world := world.(comments := world.comments[c.id := c]);
        posted := {c.id};
        assert BotIds(world, cfg.botHandle) == BotIds(before, cfg.botHandle) + {c.id};
        if * { return Answer(()), posted; }
      }
      r := Fail();
    }

    method SaveState() returns (r: Reply<()>)
      requires Running()
      modifies store.file, this`faults, this`died, this`fatal
      ensures store.file.content == Some(store.Image()) || store.file.content == old(store.file.content)
      ensures r.Answer? ==> store.file.content == Some(store.Image())
      ensures Noted(r, old(faults)) && !fatal
    {
      var saved := store.Save();
      match saved {
        case Saved => r := Answer(());
        case SaveThrew =>
          faults := faults + 1;
          r := Throws(OtherError);
        case DiedSaving =>
          died := true;
          r := Dies;
      }
    }
  }
}
