/** The daemon over its whole life: processes that start, poll, fail, crash and are restarted (src/main.cpp:65-158). */
module Daemon {
  import opened Text
  import opened Markers
  import opened StateStore
  import opened Context
  import opened Protocol
  import opened Errors
  import opened WatcherIo
  import opened Watcher

  /** What holds whenever no process runs: all that a restart can rely on. */
  ghost predicate AtRest(w: World, cfg: Config, file: Option<State>) {
    WorldOk(w, cfg) && StateOk(w, cfg.botHandle, Loaded(file))
  }

  /**
   A repository the bot has never posted in, without a state file, is such a situation; comments
   written by hand under its handle may be there.
   */
  lemma FreshInstallIsAtRest(w: World, cfg: Config)
    requires WellKeyed(w) && BotIds(w, cfg.botHandle) <= w.foreign && w.events == []
    requires forall id, t :: id in BotIds(w, cfg.botHandle) ==> !PostedFor(w.comments[id].body, t)
    requires w.seed == EMPTY.cursor && KeyAtMost(EMPTY.cursor, w.horizon)
    ensures AtRest(w, cfg, None)
  {
    KeyOrder();
    forall id, t ensures !StandsFor(w, cfg.botHandle, id, t) {}
  }

  lemma RestartIsValid(w: World, cfg: Config, file: Option<State>)
    requires AtRest(w, cfg, file)
    ensures ProtocolOk(w, cfg, Loaded(file), file)
  {
    KeyOrder();
  }

  /** While no process runs, GitHub goes on without it. */
  lemma RestingIsSafe(w: World, w': World, cfg: Config, file: Option<State>)
    requires AtRest(w, cfg, file) && Drifts(w, w', cfg.botHandle)
    ensures AtRest(w', cfg, file)
  {
    RestartIsValid(w, cfg, file);
    DriftKeepsProtocol(w, w', cfg, Loaded(file), file);
  }

  method Meanwhile(cfg: Config, world: World) returns (world': World)
    requires WellKeyed(world)
    ensures Drifts(world, world', cfg.botHandle) && Grows(world, world')
  {
    world' := *;
    world' := world'.(events := world.events);
    if !Moves(world, world', cfg.botHandle, {}) { world' := world; }
  }

  /** How the polling ends: by a signal, by an error that no retry can clear, or with the process. */
  datatype End = Stopped | FatalError | Died

  /** Polls that follow one another from one moment to another. */
  ghost predicate Chained(polls: seq<Poll>, first: Moment, last: Moment) {
    && (polls == [] ==> last == first)
    && (polls != [] ==> polls[0].before == first && polls[|polls| - 1].after == last)
    && (forall i :: 0 <= i < |polls| - 1 ==> polls[i].after == polls[i + 1].before)
  }

  /** Every poll in which nothing threw or died did all there was to do. */
  ghost predicate AllComplete(bot: string, polls: seq<Poll>) {
    forall i :: 0 <= i < |polls| ==> CompleteOrFaulty(bot, polls[i])
  }

  ghost predicate CompleteOrFaulty(bot: string, p: Poll) {
    p.before.faults <= p.after.faults && (p.before.faults == p.after.faults && !p.exit.Crashed? ==> Watcher.Complete(bot, p))
  }

  /** An exit that ends the process. */
  predicate Ends(exit: Exit) {
    exit.Crashed? || (exit.Thrown? && IsFatalGithub(exit.error))
  }

  /** Only the last poll can leave an error that ends the process, or die. */
  ghost predicate OnlyTheLastEnds(polls: seq<Poll>) {
    forall i :: 0 <= i < |polls| - 1 ==> !Ends(polls[i].exit)
  }

  method PollOnce(watcher: Watcher) returns (exit: Exit, ghost poll: Poll)
    requires watcher.Valid() && watcher.io.Running()
    modifies watcher.io, watcher.store, watcher.store.file
    ensures watcher.Valid() && Grows(old(watcher.io.world), watcher.io.world) && watcher.LeftBy(exit)
    ensures poll.before == old(watcher.Now()) && poll.after == watcher.Now() && poll.exit == exit
    ensures CompleteOrFaulty(watcher.cfg.botHandle, poll)
  {
    ghost var before := watcher.Now();
    ghost var prs, sorted, decided, asked;
    exit, prs, sorted, decided, asked := watcher.Tick();
    poll := Poll(before, watcher.Now(), exit, prs, sorted, decided, asked);
  }

  /** The main loop: it polls until it is told to stop, which is after `ticks` polls, or until a poll ends the process. */
  method PollOn(watcher: Watcher, ticks: nat) returns (end: End, ghost polls: seq<Poll>)
    requires watcher.Valid() && watcher.io.Running()
    modifies watcher.io, watcher.store, watcher.store.file
    ensures watcher.Valid() && Grows(old(watcher.io.world), watcher.io.world)
    ensures (watcher.io.died <==> end.Died?) && (watcher.io.fatal <==> end.FatalError?)
    ensures |polls| <= ticks && (end.Stopped? ==> |polls| == ticks) && watcher.io.faults >= old(watcher.io.faults)
    ensures Chained(polls, old(watcher.Now()), watcher.Now()) && AllComplete(watcher.cfg.botHandle, polls) && OnlyTheLastEnds(polls)
  {
    end, polls := Stopped, [];
    for i := 0 to ticks
      invariant watcher.Valid() && watcher.io.Running() && Grows(old(watcher.io.world), watcher.io.world)
      invariant end.Stopped? && |polls| == i && watcher.io.faults >= old(watcher.io.faults)
      invariant Chained(polls, old(watcher.Now()), watcher.Now()) && AllComplete(watcher.cfg.botHandle, polls)
      invariant OnlyTheLastEnds(polls) && (polls != [] ==> !Ends(polls[|polls| - 1].exit))
    {
      var exit, poll := PollOnce(watcher);
      polls := polls + [poll];
      if exit.Crashed? { end := Died; return; }
      if exit.Thrown? && IsFatalGithub(exit.error) { end := FatalError; return; }
    }
  }

  /**
   One process on its own memory, from start to shutdown, fatal error or crash. It does not come to
   poll only if it could not save the first cursor. If nothing threw and it did not die, it polled
   until it was told to stop, and what it then remembered is in the file.
   */
  method RunProcess(cfg: Config, version: string, io: WatcherIo, now: string, ticks: nat)
    returns (started: bool, end: End, ghost polls: seq<Poll>, ghost first: Moment, ghost last: Moment)
    requires '>' !in version && io.cfg == cfg && io.Running()
    requires AtRest(io.world, cfg, io.store.file.content) && io.store.Image() == Loaded(io.store.file.content)
    modifies io, io.store, io.store.file
    ensures AtRest(io.world, cfg, io.store.file.content) && Grows(old(io.world), io.world) && io.faults >= old(io.faults)
    ensures !started ==> io.died || io.faults > old(io.faults)
    ensures io.fatal <==> started && end.FatalError?
    ensures started && end.Died? ==> io.died
    ensures started && end.Stopped? ==> |polls| == ticks
    ensures started ==> Chained(polls, first, last) && OnlyTheLastEnds(polls) && Brackets(first, last, old(io.world), old(io.faults), io)
    ensures started ==> AllComplete(cfg.botHandle, polls)
    ensures started ==> StartsFrom(old(io.store.Image()), old(io.store.file.content), now, first)
    ensures started && !io.died && !io.fatal && io.faults == old(io.faults) ==> io.store.file.content == Some(io.store.Image())
  {
    started, end, polls := false, Stopped, [];
    first, last := Moment(io.world, io.store.Image(), None, 0), Moment(io.world, io.store.Image(), None, 0);
    RestartIsValid(io.world, cfg, io.store.file.content);
    var seeded := io.store.InitCursorIfEmpty(now);
    if seeded {
      SeedingKeepsProtocol(io.world, cfg, Loaded(io.store.file.content), io.store.file.content, now);
      io.Reseed(Key(now, 0));
      SaveIsSafe(io.world, cfg, io.store.Image(), io.store.file.content);
      var saved := io.SaveState();
      if !saved.Answer? { return; }
    }
    var watcher := new Watcher(cfg, version, io);
    started, first := true, watcher.Now();
    end, polls := PollOn(watcher, ticks);
    last := watcher.Now();
    SaveIsSafe(io.world, cfg, io.store.Image(), io.store.file.content);
    match end {
      case Died =>
      case FatalError => var saved := io.store.Save();
      case Stopped => var saved := io.SaveState();
    }
  }

  /** The first poll finds the memory as it was loaded, or with its first cursor, which then is in the file already. */
  ghost predicate StartsFrom(st: State, file: Option<State>, now: string, first: Moment) {
    if st.cursor.updatedAt == "" && now != "" then
      first.memory == State(st.reviewed, st.handled, Key(now, 0)) && first.file == Some(first.memory)
    else first.memory == st && first.file == file
  }

  /** The polls began where the process did, and nothing but the last save was after them. */
  ghost predicate Brackets(first: Moment, last: Moment, world: World, faults: nat, io: WatcherIo)
    reads io, io.store
  {
    && first.world.events == world.events && first.faults == faults
    && last.world == io.world && last.memory == io.store.Image() && last.faults <= io.faults
  }

  /** The file's reviewed set and cursor are backed by comments that were posted, or by quoted keys. */
  ghost predicate Backed(w: World, bot: string, st: State) {
    (forall pr :: pr in st.reviewed ==> Served(w, bot, AutoTrigger(pr))) && NoneDropped(w, bot, st.cursor)
  }

  /** Where a key is quoted nowhere, what carries it was posted for its trigger. */
  ghost predicate QuotesAside(w: World, bot: string) {
    forall t :: (Carries(w, bot, t) <==> Served(w, bot, t)) && (Unquoted(w, bot, t) ==> (Served(w, bot, t) <==> Posted(w, bot, t)))
  }

  lemma KeysMeanComments(w: World, bot: string)
    requires AllWritten(w, bot)
    ensures QuotesAside(w, bot)
  {
    forall t ensures Carries(w, bot, t) <==> Served(w, bot, t) { CarriesExactly(w, bot, t); }
    forall t | Unquoted(w, bot, t) ensures Served(w, bot, t) <==> Posted(w, bot, t) { UnquotedIsPosted(w, bot, t); }
  }

  /**
   Any number of processes, one after the other, of any versions and lengths, with GitHub going on
   between them. At every rest no trigger has two comments and every comment was asked for; the
   reviewed set is backed, and nothing the saved cursor has passed was dropped, by comments posted
   for just that, except where the reviewer quoted a key.
   */
  method Run(cfg: Config, file: StateFile, world: World, processes: nat) returns (world': World)
    requires AtRest(world, cfg, file.content)
    modifies file
    ensures AtMostOnce(world', cfg.botHandle) && Justified(world', cfg.botHandle) && PayloadsOk(world', cfg)
    ensures Backed(world', cfg.botHandle, Loaded(file.content))
    ensures QuotesAside(world', cfg.botHandle)
    ensures Grows(world, world') && AtRest(world', cfg, file.content)
  {
    world' := world;
    for i := 0 to processes
      invariant AtRest(world', cfg, file.content) && Grows(world, world')
    {
      ghost var before := world';
      world' := Meanwhile(cfg, world');
      RestingIsSafe(before, world', cfg, file.content);
      var version: string := *;
      var now: string := *;
      var ticks: nat := *;
      if '>' !in version {
        var store := new StateStore(file);
        var io := new WatcherIo(cfg, store, world');
        var started, end, polls, first, last := RunProcess(cfg, version, io, now, ticks);
        world' := io.world;
      }
    }
    KeysMeanComments(world', cfg.botHandle);
  }
}
