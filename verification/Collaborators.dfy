/** The collaborator lookup and its cache (src/github_client.cpp:142-154, 226-239, 758-787). Times are in seconds. */
module Collaborators {
  import opened Text
  import opened Errors
  import opened Http

  const TTL := 900

  /** The login as a path segment; None is a refusal. */
  method UrlPathSegmentEncode(user: string) returns (r: Option<string>)
    ensures r == if PlainLogin(user) then Some(user) else None
    ensures r.Some? <==> 0 < |user| <= 39 && forall c :: c in user ==>
      'A' <= c <= 'Z' || 'a' <= c <= 'z' || '0' <= c <= '9' || c == '-'
  {
    assert forall k :: 0 <= k < |user| ==> user[k] in user;
    if user == [] || |user| > MAX_LOGIN { return None; }
    for i := 0 to |user|
      invariant forall k :: 0 <= k < i ==> IsLoginChar(user[k])
    {
      if !IsLoginChar(user[i]) { return None; }
    }
    return Some(user);
  }

  datatype CollabEntry = CollabEntry(isCollab: bool, expires: int)

  /** A definitive answer of the server: 204 is yes, 404 is no. */
  datatype Lookup = Lookup(user: string, began: int, answer: bool)

  datatype Answer = Yes | No | Raised(error: Error)

  /** The request ends in a definitive answer. */
  ghost predicate ServerSays(serve: nat -> Response, answer: bool) {
    exists sends :: StopsAt(true, serve, sends) && serve(sends).Response? && serve(sends).status == if answer then 204 else 404
  }

  ghost predicate Backs(l: Lookup, user: string, e: CollabEntry) {
    l.user == user && l.answer == e.isCollab && l.began + TTL == e.expires
  }

  ghost predicate Backed(lookups: seq<Lookup>, user: string, e: CollabEntry) {
    exists l :: l in lookups && Backs(l, user, e)
  }

  /** A lookup lies in the past, and its user's entry lasts at least as long as it does. */
  ghost predicate Tracked(entries: map<string, CollabEntry>, l: Lookup, clock: int) {
    l.began <= clock && l.user in entries && l.began + TTL <= entries[l.user].expires
  }

  /** Definitive lookups of one user are at least the TTL apart. */
  ghost predicate SpacedOut(lookups: seq<Lookup>) {
    forall i, j :: 0 <= i < j < |lookups| && lookups[i].user == lookups[j].user ==> lookups[i].began + TTL <= lookups[j].began
  }

  ghost predicate CacheOk(entries: map<string, CollabEntry>, lookups: seq<Lookup>, clock: int) {
    && (forall user :: user in entries ==> Backed(lookups, user, entries[user]))
    && (forall l :: l in lookups ==> Tracked(entries, l, clock))
    && SpacedOut(lookups)
  }

  /** A definitive answer that began less than the TTL ago. */
  ghost predicate Recent(lookups: seq<Lookup>, user: string, answer: bool, now: int) {
    exists l :: l in lookups && l.user == user && l.answer == answer && l.began <= now < l.began + TTL
  }

  predicate Hit(entries: map<string, CollabEntry>, user: string, now: int) {
    user in entries && now < entries[user].expires
  }

  /** The cache has an answer exactly when some lookup is recent, and then it is that lookup's. */
  lemma HitsAreRecent(entries: map<string, CollabEntry>, lookups: seq<Lookup>, clock: int, user: string, now: int)
    requires CacheOk(entries, lookups, clock) && clock <= now
    ensures Hit(entries, user, now) ==> Recent(lookups, user, entries[user].isCollab, now)
    ensures Hit(entries, user, now) <==> Recent(lookups, user, true, now) || Recent(lookups, user, false, now)
  {
    if Hit(entries, user, now) {
      assert Backed(lookups, user, entries[user]);
      var l :| l in lookups && Backs(l, user, entries[user]);
      assert Tracked(entries, l, clock);
    }
    forall l | l in lookups && l.user == user && l.began <= now < l.began + TTL ensures Hit(entries, user, now) {
      assert Tracked(entries, l, clock);
    }
  }

  /** Asking the server on a miss, and remembering a definitive answer, keeps the cache honest. */
  lemma LearningKeepsCacheOk(entries: map<string, CollabEntry>, lookups: seq<Lookup>, clock: int, user: string, now: int, answer: bool)
    requires CacheOk(entries, lookups, clock) && clock <= now && !Hit(entries, user, now)
    ensures CacheOk(entries[user := CollabEntry(answer, now + TTL)], lookups + [Lookup(user, now, answer)], now)
  {
    var entries', lookups' := entries[user := CollabEntry(answer, now + TTL)], lookups + [Lookup(user, now, answer)];
    assert lookups'[|lookups|] == Lookup(user, now, answer);
    assert forall l :: l in lookups' <==> l in lookups || l == Lookup(user, now, answer);
    forall u | u in entries' ensures Backed(lookups', u, entries'[u]) {
      if u == user {
        assert Backs(Lookup(user, now, answer), u, entries'[u]);
      } else {
        assert Backed(lookups, u, entries[u]);
      }
    }
    forall l | l in lookups' ensures Tracked(entries', l, now) {
      if l in lookups { assert Tracked(entries, l, clock); }
    }
    forall i | 0 <= i < |lookups| && lookups[i].user == user ensures lookups[i].began + TTL <= now {
      assert lookups[i] in lookups;
      assert Tracked(entries, lookups[i], clock);
    }
  }

  lemma TimePasses(entries: map<string, CollabEntry>, lookups: seq<Lookup>, clock: int, now: int)
    requires CacheOk(entries, lookups, clock) && clock <= now
    ensures CacheOk(entries, lookups, now)
  {
    forall l | l in lookups ensures Tracked(entries, l, now) {
      assert Tracked(entries, l, clock);
    }
  }

  /** What the server says is what the last response of the request says. */
  lemma OneAnswer(serve: nat -> Response, sends: nat)
    requires StopsAt(true, serve, sends)
    ensures forall answer :: ServerSays(serve, answer) <==>
      serve(sends).Response? && serve(sends).status == if answer then 204 else 404
  {
    forall n | StopsAt(true, serve, n) ensures n == sends { StopsOnce(true, serve, n, sends); }
  }

  class CollaboratorCache {
    var entries: map<string, CollabEntry>
    /** All definitive lookups so far, and the latest time seen. */
    ghost var lookups: seq<Lookup>
    ghost var clock: int

    constructor (now: int)
      ensures Valid() && entries == map[] && lookups == [] && clock == now
    {
      entries := map[];
      lookups := [];
      clock := now;
    }

    ghost predicate Valid()
      reads this
    {
      CacheOk(entries, lookups, clock)
    }

    /**
     One question at time `now`. `serve` is what the server would do on each attempt of a request.
     A returned answer is younger than the TTL, errors are never remembered, and a lookup is made
     only if no answer is that young.
     */
    method IsCollaborator(user: string, now: int, serve: nat -> Response, parse: RetryAfterParser) returns (r: Answer)
      requires Valid() && clock <= now
      modifies this
      ensures Valid() && clock == now
      ensures !PlainLogin(user) ==> r == Raised(GithubError(0, false))
      ensures r.Yes? || r.No? ==> Recent(lookups, user, r.Yes?, now)
      ensures r.Raised? ==> lookups == old(lookups) && entries == old(entries)
      ensures lookups == old(lookups)
        || (lookups == old(lookups) + [Lookup(user, now, r.Yes?)] && !r.Raised? && ServerSays(serve, r.Yes?))
      ensures r.Raised? && PlainLogin(user) ==> !ServerSays(serve, true) && !ServerSays(serve, false)
      ensures r.Raised? && PlainLogin(user) ==>
        exists sends :: StopsAt(true, serve, sends) && (IsFatalGithub(r.error) <==> Hopeless(serve(sends)))
      ensures PlainLogin(user) && (Recent(old(lookups), user, true, now) || Recent(old(lookups), user, false, now)) ==>
        lookups == old(lookups) && !r.Raised?
    {
      HitsAreRecent(entries, lookups, clock, user, now);
      TimePasses(entries, lookups, clock, now);
      clock := now;
      var segment := UrlPathSegmentEncode(user);
      if segment.None? { return Raised(GithubError(0, false)); }
      if user in entries && now < entries[user].expires {
        return if entries[user].isCollab then Yes else No;
      }
      var outcome, sends, slept := Request(true, serve, parse);
      OneAnswer(serve, sends);
      if outcome.Failed? { return Raised(outcome.error); }
      var status := if outcome.response.Response? then outcome.response.status else 0;
      if status == 204 || status == 404 {
        LearningKeepsCacheOk(entries, lookups, clock, user, now, status == 204);
        entries := entries[user := CollabEntry(status == 204, now + TTL)];
        lookups := lookups + [Lookup(user, now, status == 204)];
        assert lookups[|lookups| - 1] in lookups;
        return if status == 204 then Yes else No;
      }
      return Raised(GithubError(status, false));
    }
  }

  /** Within the TTL there is one answer: a user cannot be both a collaborator and not one. */
  lemma RecentAnswersAgree(lookups: seq<Lookup>, user: string, now: int)
    requires SpacedOut(lookups)
    ensures !(Recent(lookups, user, true, now) && Recent(lookups, user, false, now))
  {
    forall a, b | a in lookups && b in lookups && a.user == b.user == user && a != b
      ensures a.began + TTL <= b.began || b.began + TTL <= a.began
    {
      var i :| 0 <= i < |lookups| && lookups[i] == a;
      var j :| 0 <= j < |lookups| && lookups[j] == b;
      assert i < j || j < i;
    }
  }

  datatype Question = Question(user: string, now: int, serve: nat -> Response)

  /** Some question made this lookup, at its own time, and the server gave this answer to it. */
  ghost predicate Asked(questions: seq<Question>, n: nat, l: Lookup) {
    exists i :: 0 <= i < n && i < |questions| && Answers(questions[i], l)
  }

  ghost predicate Answers(q: Question, l: Lookup) {
    q.user == l.user && q.now == l.began && ServerSays(q.serve, l.answer)
  }

  ghost predicate AllAsked(questions: seq<Question>, n: nat, lookups: seq<Lookup>) {
    forall l :: l in lookups ==> Asked(questions, n, l)
  }

  /**
   A run of questions on a clock that never goes back: every answer is a definitive answer of the
   server to a lookup that began less than the TTL before.
   */
  method AskAll(questions: seq<Question>, start: int, parse: RetryAfterParser)
    returns (answers: seq<Answer>, ghost lookups: seq<Lookup>)
    requires forall i, j :: 0 <= i < j < |questions| ==> questions[i].now <= questions[j].now
    requires forall i :: 0 <= i < |questions| ==> start <= questions[i].now
    ensures SpacedOut(lookups) && AllAsked(questions, |questions|, lookups)
    ensures |answers| == |questions| && AllFresh(lookups, questions, answers)
    ensures forall i :: 0 <= i < |answers| && !answers[i].Raised? ==> AnsweredWithin(questions, i, answers[i].Yes?, 900)
    ensures forall i, j :: 0 <= i < j < |lookups| && lookups[i].user == lookups[j].user ==> lookups[j].began - lookups[i].began >= 900
  {
    var cache := new CollaboratorCache(start);
    answers := [];
    for i := 0 to |questions|
      invariant fresh(cache) && cache.Valid() && |answers| == i
      invariant i < |questions| ==> cache.clock <= questions[i].now
      invariant AllAsked(questions, i, cache.lookups) && AllFresh(cache.lookups, questions, answers)
    {
      var a := AskNext(cache, questions, answers, parse);
      answers := answers + [a];
    }
    lookups := cache.lookups;
    forall i | 0 <= i < |answers| && !answers[i].Raised? ensures AnsweredWithin(questions, i, answers[i].Yes?, 900) {
      assert FreshAnswer(lookups, questions[i], answers[i]);
      var l :| l in lookups && l.user == questions[i].user && l.answer == answers[i].Yes? && l.began <= questions[i].now < l.began + TTL;
      assert Asked(questions, |questions|, l);
    }
  }

  /** A question about the same user, no older than that, got this answer from the server: 204 for yes, 404 for no. */
  ghost predicate AnsweredWithin(questions: seq<Question>, i: nat, yes: bool, seconds: nat)
    requires i < |questions|
  {
    exists j :: 0 <= j < |questions| && Supports(questions[j], questions[i], yes, seconds)
  }

  ghost predicate Supports(q: Question, later: Question, yes: bool, seconds: nat) {
    q.user == later.user && 0 <= later.now - q.now < seconds && ServerSays(q.serve, yes)
  }

  method AskNext(cache: CollaboratorCache, questions: seq<Question>, answers: seq<Answer>, parse: RetryAfterParser)
    returns (a: Answer)
    requires |answers| < |questions| && cache.Valid() && cache.clock <= questions[|answers|].now
    requires AllAsked(questions, |answers|, cache.lookups) && AllFresh(cache.lookups, questions, answers)
    modifies cache
    ensures cache.Valid() && cache.clock == questions[|answers|].now
    ensures AllAsked(questions, |answers| + 1, cache.lookups) && AllFresh(cache.lookups, questions, answers + [a])
  {
    ghost var before := cache.lookups;
    var q := questions[|answers|];
    a := cache.IsCollaborator(q.user, q.now, q.serve, parse);
    LookupsStayAsked(before, cache.lookups, questions, |answers|, a.Yes?);
    AnswersStayFresh(before, cache.lookups, questions, answers, a);
  }

  lemma LookupsStayAsked(before: seq<Lookup>, after: seq<Lookup>, questions: seq<Question>, i: nat, yes: bool)
    requires i < |questions| && AllAsked(questions, i, before)
    requires after == before
      || (after == before + [Lookup(questions[i].user, questions[i].now, yes)] && ServerSays(questions[i].serve, yes))
    ensures AllAsked(questions, i + 1, after)
  {
    forall l | l in after ensures Asked(questions, i + 1, l) {
      if l in before {
        assert Asked(questions, i, l);
      } else {
        assert Answers(questions[i], l);
      }
    }
  }

  lemma AnswersStayFresh(before: seq<Lookup>, after: seq<Lookup>, questions: seq<Question>, answers: seq<Answer>, a: Answer)
    requires before <= after && |answers| < |questions| && AllFresh(before, questions, answers)
    requires FreshAnswer(after, questions[|answers|], a)
    ensures AllFresh(after, questions, answers + [a])
  {
    assert forall l :: l in before ==> l in after;
    forall k | 0 <= k < |answers| ensures FreshAnswer(after, questions[k], answers[k]) {
      assert FreshAnswer(before, questions[k], answers[k]);
    }
  }

  ghost predicate FreshAnswer(lookups: seq<Lookup>, q: Question, a: Answer) {
    a.Raised? || Recent(lookups, q.user, a.Yes?, q.now)
  }

  ghost predicate AllFresh(lookups: seq<Lookup>, questions: seq<Question>, answers: seq<Answer>) {
    |answers| <= |questions| && forall k :: 0 <= k < |answers| ==> FreshAnswer(lookups, questions[k], answers[k])
  }
}
