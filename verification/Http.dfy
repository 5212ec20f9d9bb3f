/**
  The client's bounded retries and capped downloads (src/github_client.cpp:284-428, 655-756,
  789-875). A run is driven by what the server does on each attempt, given as a function of the
  attempt number; Retry-After parsing is a parameter.
 */
module Http {
  import opened Text
  import opened Errors
  import opened Context
  import UrlPath
  import opened Utf8

  const MAX_ATTEMPTS := 6
  const MAX_SLEEP := 600

  datatype Response = NetworkError | Response(status: int, retryAfter: string, rateRemaining: string)

  predicate Success(r: Response) {
    r.Response? && 200 <= r.status < 300
  }

  /** GitHub's rate limiting also answers 403, but then says so. */
  predicate RateLimited403(r: Response) {
    r.Response? && r.status == 403 && (r.retryAfter != [] || r.rateRemaining == "0")
  }

  /** Worth another attempt, for a GET. */
  predicate Retryable(r: Response) {
    r.NetworkError? || r.status == 429 || RateLimited403(r) || 500 <= r.status < 600
  }

  type RetryAfterParser = string -> Option<int>

  function Doubling(attempt: nat): (s: nat)
    ensures 1 <= s <= 64
  {
    match attempt
    case 0 => 1 case 1 => 2 case 2 => 4 case 3 => 8 case 4 => 16 case 5 => 32 case _ => 64
  }

  /** The wait after a failed attempt. */
  function Wait(attempt: nat, retryAfter: string, parse: RetryAfterParser): nat {
    var asked := if retryAfter == [] then 0 else parse(retryAfter).GetOr(0);
    if asked <= 0 then Min(Doubling(attempt), 60) else Min(asked, MAX_SLEEP)
  }

  /** What the server asked for, if it did, up to 600 seconds; else 2, 4, 8, 16, 32 and then 60 seconds. */
  lemma WaitExactly(attempt: nat, retryAfter: string, parse: RetryAfterParser)
    ensures var asked := if retryAfter == [] then 0 else parse(retryAfter).GetOr(0);
      var seconds := Wait(attempt, retryAfter, parse);
      if asked > 0 then seconds == Min(asked, 600)
      else if 1 <= attempt <= 5 then seconds == [2, 4, 8, 16, 32][attempt - 1]
      else seconds == if attempt == 0 then 1 else 60
  {
    if 1 <= attempt <= 5 { assert Doubling(attempt) == [2, 4, 8, 16, 32][attempt - 1]; }
  }

  /** The waits after the first `n` attempts together. A failure without an answer asks for nothing. */
  function TotalWait(serve: nat -> Response, n: nat, parse: RetryAfterParser): nat {
    if n == 0 then 0
    else TotalWait(serve, n - 1, parse) + Wait(n, if serve(n).NetworkError? then "" else serve(n).retryAfter, parse)
  }

  /** How long to wait after a failed attempt: what the server asked for, capped, or 2, 4, 8, .. 60. */
  method SleepBackoff(attempt: nat, retryAfter: string, parse: RetryAfterParser) returns (seconds: nat)
    ensures 1 <= seconds <= 600 && seconds == Wait(attempt, retryAfter, parse)
  {
    var wait := 0;
    if retryAfter != [] {
      var parsed := parse(retryAfter);
      if parsed.Some? { wait := parsed.value; }
    }
    if wait <= 0 { wait := Min(60, Doubling(attempt)); }
    if wait > MAX_SLEEP { wait := MAX_SLEEP; }
    return wait;
  }

  // --- Requests --------------------------------------------------------------------

  /** How a request ends for its caller. */
  datatype Outcome = Returned(response: Response) | Failed(error: Error)

  function MaxAttempts(isGet: bool): nat {
    if isGet then MAX_ATTEMPTS else 1
  }

  /** What the last response turns into. */
  function Verdict(isGet: bool, r: Response): Outcome {
    if r.NetworkError? then Failed(GithubError(0, false))
    else if Success(r) then Returned(r)
    else if isGet && Retryable(r) then Failed(GithubError(r.status, RateLimited403(r)))
    else if !isGet && RateLimited403(r) then Failed(GithubError(r.status, true))
    else Returned(r)
  }

  /** The attempts stop at the first response that is not worth a retry, or when they are used up. */
  predicate StopsAt(isGet: bool, serve: nat -> Response, sends: nat) {
    && 1 <= sends <= MaxAttempts(isGet)
    && (forall k :: 1 <= k < sends ==> Retryable(serve(k)))
    && (sends < MaxAttempts(isGet) ==> !Retryable(serve(sends)))
  }

  /** The error a caller raises: the client's own, or one for any response that is not a success. */
  function RaisedBy(o: Outcome): Option<Error> {
    match o
    case Failed(e) => Some(e)
    case Returned(r) => if Success(r) || r.NetworkError? then None else Some(GithubError(r.status, false))
  }

  /** An answer that no retry can clear: a 401, a 422, or a 403 without rate-limit markers. */
  predicate Hopeless(r: Response) {
    r.Response? && (r.status == 401 || r.status == 422 || (r.status == 403 && r.retryAfter == "" && r.rateRemaining != "0"))
  }

  lemma VerdictFatal(isGet: bool, r: Response)
    ensures RaisedBy(Verdict(isGet, r)).Some? && IsFatalGithub(RaisedBy(Verdict(isGet, r)).value) <==> Hopeless(r)
  {
  }

  lemma WaitedOnce(serve: nat -> Response, n: nat, parse: RetryAfterParser)
    requires n > 0
    ensures TotalWait(serve, n, parse)
         == TotalWait(serve, n - 1, parse) + Wait(n, if serve(n).NetworkError? then "" else serve(n).retryAfter, parse)
  {
  }

  /**
   `sends` is the number of requests sent, `slept` the seconds slept in all. Whatever the server
   answers and however often, the error that the caller then raises is fatal exactly when the last
   answer was hopeless: a rate limit never ends the process.
   */
  method Request(isGet: bool, serve: nat -> Response, parse: RetryAfterParser)
    returns (outcome: Outcome, sends: nat, slept: nat)
    ensures StopsAt(isGet, serve, sends) && outcome == Verdict(isGet, serve(sends))
    ensures !isGet ==> sends == 1 && slept == 0
    ensures sends <= 6 && slept == TotalWait(serve, sends - 1, parse) <= 3000
    ensures RaisedBy(outcome).Some? && IsFatalGithub(RaisedBy(outcome).value) <==> Hopeless(serve(sends))
  {
    sends, slept := 0, 0;
    while true
      invariant sends < MaxAttempts(isGet) && slept == TotalWait(serve, sends, parse) <= MAX_SLEEP * sends
      invariant forall k :: 1 <= k <= sends ==> Retryable(serve(k))
      decreases MaxAttempts(isGet) - sends
    {
      sends := sends + 1;
      var got, seconds := RequestOnce(isGet, serve(sends), sends, parse);
      if got.Some? {
        VerdictFatal(isGet, serve(sends));
        return got.value, sends, slept;
      }
      WaitedOnce(serve, sends, parse);
      slept := slept + seconds;
    }
  }

  /** One attempt: its outcome, or None and the seconds slept if there is to be another one. */
  method RequestOnce(isGet: bool, res: Response, attempt: nat, parse: RetryAfterParser)
    returns (r: Option<Outcome>, seconds: nat)
    requires 1 <= attempt
    ensures r.None? <==> attempt < MaxAttempts(isGet) && Retryable(res)
    ensures r.Some? ==> r.value == Verdict(isGet, res)
    ensures r.None? ==> seconds == Wait(attempt, if res.NetworkError? then "" else res.retryAfter, parse) <= MAX_SLEEP
  {
    seconds := 0;
    var maxAttempts := if isGet then MAX_ATTEMPTS else 1;
    if res.NetworkError? {
      if attempt >= maxAttempts { return Some(Failed(GithubError(0, false))), 0; }
      seconds := SleepBackoff(attempt, "", parse);
      return None, seconds;
    }
    if 200 <= res.status < 300 { return Some(Returned(res)), 0; }
    var rateLimited := RateLimited403(res);
    if isGet && (res.status == 429 || rateLimited || 500 <= res.status < 600) {
      if attempt >= maxAttempts { return Some(Failed(GithubError(res.status, rateLimited))), 0; }
      seconds := SleepBackoff(attempt, res.retryAfter, parse);
      return None, seconds;
    }
    if !isGet && rateLimited { return Some(Failed(GithubError(res.status, true))), 0; }
    return Some(Returned(res)), 0;
  }

  /** The number of attempts, and with it the outcome, is determined by the server: no two runs differ. */
  lemma StopsOnce(isGet: bool, serve: nat -> Response, m: nat, n: nat)
    requires StopsAt(isGet, serve, m) && StopsAt(isGet, serve, n)
    ensures m == n
  {
    assert m < n ==> Retryable(serve(m));
    assert n < m ==> Retryable(serve(n));
  }

  /** A failure that may pass: no answer, a server error, or being asked to slow down. */
  predicate MayPass(r: Response) {
    r.NetworkError? || 500 <= r.status <= 599 || r.status == 429
    || (r.status == 403 && (r.retryAfter != "" || r.rateRemaining == "0"))
  }

  /** A GET is repeated while failures may pass: it gets the first other answer among the first six, and gives up after the sixth. */
  lemma GetsTheFirstAnswer(serve: nat -> Response, n: nat, sends: nat)
    requires 1 <= n <= 6 && (n < 6 ==> !MayPass(serve(n)))
    requires forall k :: 1 <= k < n ==> MayPass(serve(k))
    requires StopsAt(true, serve, sends)
    ensures sends == n
    ensures !MayPass(serve(n)) ==> Verdict(true, serve(sends)) == Returned(serve(n))
    ensures MayPass(serve(n)) ==>
      Verdict(true, serve(sends))
        == Failed(GithubError(if serve(n).NetworkError? then 0 else serve(n).status, serve(n).Response? && serve(n).status == 403))
  {
    assert forall k :: MayPass(serve(k)) <==> Retryable(serve(k));
    StopsOnce(true, serve, n, sends);
  }

  // --- Capped downloads ----------------------------------------------------------------

  /** The content receiver: keeps at most `cap` bytes, and cancels the transfer beyond them. */
  method Receive(chunks: seq<string>, cap: nat) returns (body: string, aborted: bool)
    ensures aborted <==> |Concat(chunks)| > cap
    ensures body == if aborted then Concat(chunks)[..cap] else Concat(chunks)
  {
    body, aborted := [], false;
    for i := 0 to |chunks|
      invariant body == Concat(chunks[..i]) && |body| <= cap
    {
      ConcatNext(chunks, chunks[..i], chunks[i], chunks[i + 1..]);
      assert chunks[..i + 1] == chunks[..i] + [chunks[i]];
      if |body| + |chunks[i]| > cap {
        var take := if cap > |body| then cap - |body| else 0;
        assert Concat(chunks)[..cap] == body + chunks[i][..take];
        return body + chunks[i][..take], true;
      }
      body := body + chunks[i];
    }
    assert chunks[..|chunks|] == chunks;
  }

  /** One attempt at a download: the chunks as they arrive, then how the transfer ended. */
  datatype Transfer = Transfer(chunks: seq<string>, end: Response)

  function Ends(serve: nat -> Transfer): nat -> Response {
    (k: nat) => serve(k).end
  }

  datatype Fetched = Complete(body: string) | CutOff(body: string) | Absent | FetchFailed(error: Error)

  /** The cap is checked while bytes arrive, so it cuts off even the body of an error response. */
  function FetchVerdict(t: Transfer, cap: nat, absentOk: bool): Fetched {
    if |Concat(t.chunks)| > cap then CutOff(Concat(t.chunks)[..cap])
    else if t.end.NetworkError? then FetchFailed(GithubError(0, false))
    else if Success(t.end) then Complete(Concat(t.chunks))
    else if absentOk && t.end.status == 404 then Absent
    else FetchFailed(GithubError(t.end.status, RateLimited403(t.end)))
  }

  /** Worth another attempt: the body fits, and what went wrong may pass. */
  predicate Passing(t: Transfer, cap: nat) {
    |Concat(t.chunks)| <= cap && Retryable(t.end)
  }

  predicate FetchStopsAt(serve: nat -> Transfer, cap: nat, sends: nat) {
    && 1 <= sends <= MAX_ATTEMPTS
    && (forall k :: 1 <= k < sends ==> Passing(serve(k), cap))
    && (sends < MAX_ATTEMPTS ==> !Passing(serve(sends), cap))
  }

  /**
   The same for downloads. Then the result is a cut exactly if the body is over the cap, the whole
   body exactly for a 2xx within it, and absence exactly for a 404 where that is allowed.
   */
  lemma FetchesTheFirstAnswer(serve: nat -> Transfer, cap: nat, absentOk: bool, n: nat, sends: nat)
    requires 1 <= n <= 6 && (n < 6 ==> |Concat(serve(n).chunks)| > cap || !MayPass(serve(n).end))
    requires forall k :: 1 <= k < n ==> |Concat(serve(k).chunks)| <= cap && MayPass(serve(k).end)
    requires FetchStopsAt(serve, cap, sends)
    ensures sends == n
    ensures var t, r := serve(n), FetchVerdict(serve(sends), cap, absentOk);
      var body := Concat(t.chunks);
      && (r.CutOff? <==> |body| > cap) && (r.CutOff? ==> r.body == body[..cap])
      && (r.Complete? <==> |body| <= cap && t.end.Response? && 200 <= t.end.status <= 299) && (r.Complete? ==> r.body == body)
      && (r.Absent? <==> |body| <= cap && absentOk && t.end.Response? && t.end.status == 404)
      && (r.FetchFailed? ==> r.error == if t.end.NetworkError? then GithubError(0, false) else
            GithubError(t.end.status, t.end.status == 403 && (t.end.retryAfter != "" || t.end.rateRemaining == "0")))
  {
    assert forall k :: MayPass(serve(k).end) <==> Retryable(serve(k).end);
    assert sends < n ==> |Concat(serve(sends).chunks)| <= cap && MayPass(serve(sends).end);
    assert n < sends ==> |Concat(serve(n).chunks)| <= cap && Retryable(serve(n).end);
  }

  lemma FetchedFatal(t: Transfer, cap: nat, absentOk: bool)
    ensures var r := FetchVerdict(t, cap, absentOk);
      r.FetchFailed? && IsFatalGithub(r.error) <==> |Concat(t.chunks)| <= cap && Hopeless(t.end)
  {
  }

  /** A rate-limited download never ends the process; an unmarked 403 does, unless its body was cut off. */
  method FetchCapped(serve: nat -> Transfer, cap: nat, absentOk: bool, parse: RetryAfterParser)
    returns (r: Fetched, sends: nat, slept: nat)
    ensures FetchStopsAt(serve, cap, sends) && r == FetchVerdict(serve(sends), cap, absentOk)
    ensures 1 <= sends <= 6 && slept == TotalWait(Ends(serve), sends - 1, parse) <= 3000
    ensures r.FetchFailed? && IsFatalGithub(r.error) <==> |Concat(serve(sends).chunks)| <= cap && Hopeless(serve(sends).end)
  {
    sends, slept := 0, 0;
    ghost var ends := Ends(serve);
    while true
      invariant sends < MAX_ATTEMPTS && slept == TotalWait(ends, sends, parse) <= MAX_SLEEP * sends
      invariant forall k :: 1 <= k <= sends ==> Passing(serve(k), cap)
      decreases MAX_ATTEMPTS - sends
    {
      sends := sends + 1;
      var got, seconds := FetchOnce(serve(sends), cap, absentOk, sends, parse);
      if got.Some? {
        FetchedFatal(serve(sends), cap, absentOk);
        return got.value, sends, slept;
      }
      WaitedOnce(ends, sends, parse);
      slept := slept + seconds;
    }
  }

  /** One attempt: its result, or None and the seconds slept if there is to be another one. */
  method FetchOnce(t: Transfer, cap: nat, absentOk: bool, attempt: nat, parse: RetryAfterParser)
    returns (r: Option<Fetched>, seconds: nat)
    ensures r.None? <==> attempt < MAX_ATTEMPTS && Passing(t, cap)
    ensures r.Some? ==> r.value == FetchVerdict(t, cap, absentOk)
    ensures r.None? ==> seconds == Wait(attempt, if t.end.NetworkError? then "" else t.end.retryAfter, parse) <= MAX_SLEEP
  {
    seconds := 0;
    var body, aborted := Receive(t.chunks, cap);
    if aborted { return Some(CutOff(body)), 0; }
    if t.end.NetworkError? {
      if attempt >= MAX_ATTEMPTS { return Some(FetchFailed(GithubError(0, false))), 0; }
      seconds := SleepBackoff(attempt, "", parse);
      return None, seconds;
    }
    if 200 <= t.end.status < 300 { return Some(Complete(body)), 0; }
    if absentOk && t.end.status == 404 { return Some(Absent), 0; }
    var rateLimited := RateLimited403(t.end);
    if t.end.status == 429 || rateLimited || 500 <= t.end.status < 600 {
      if attempt >= MAX_ATTEMPTS { return Some(FetchFailed(GithubError(t.end.status, rateLimited))), 0; }
      seconds := SleepBackoff(attempt, t.end.retryAfter, parse);
      return None, seconds;
    }
    return Some(FetchFailed(GithubError(t.end.status, false))), 0;
  }

  method StreamDiff(serve: nat -> Transfer, cfg: Config, parse: RetryAfterParser) returns (r: Fetched, diff: DiffResult)
    ensures exists sends :: FetchStopsAt(serve, cfg.maxDiffFetchBytes, sends)
                         && r == FetchVerdict(serve(sends), cfg.maxDiffFetchBytes, false)
    ensures !r.Absent?
    ensures !r.FetchFailed? ==> diff == DiffResult(r.body, r.CutOff?) && |diff.body| <= cfg.maxDiffFetchBytes
  {
    var sends, slept;
    r, sends, slept := FetchCapped(serve, cfg.maxDiffFetchBytes, false, parse);
    diff := if r.FetchFailed? then DiffResult("", false) else DiffResult(r.body, r.CutOff?);
  }

  predicate IsHexDigit(c: char) {
    '0' <= c <= '9' || 'a' <= c <= 'f' || 'A' <= c <= 'F'
  }

  /** A commit id as the API prints it. */
  predicate PlainRef(ref: string) {
    0 < |ref| <= 64 && forall i :: 0 <= i < |ref| ==> IsHexDigit(ref[i])
  }

  /** Refused paths and refs count as absent, and nothing is sent for them. */
  method GetFileAtRef(path: seq<byte>, ref: string, serve: nat -> Transfer, cfg: Config, parse: RetryAfterParser)
    returns (r: Fetched, sends: nat)
    ensures sends == 0 <==> UrlPath.Refused(path) || !PlainRef(ref)
    ensures PlainRef(ref) <==> 0 < |ref| <= 64 && forall i :: 0 <= i < |ref| ==>
      '0' <= ref[i] <= '9' || 'a' <= ref[i] <= 'f' || 'A' <= ref[i] <= 'F'
    ensures sends == 0 ==> r == Absent
    ensures sends > 0 ==> FetchStopsAt(serve, cfg.maxContextFileBytes, sends)
    ensures sends > 0 ==> r == FetchVerdict(serve(sends), cfg.maxContextFileBytes, true)
    ensures r.Complete? ==> |r.body| <= cfg.maxContextFileBytes
  {
    var encoded := UrlPath.UrlEncodePath(path);
    UrlPath.EncodePathInjective(path, path);
    if encoded == [] { return Absent, 0; }
    if !PlainRef(ref) { return Absent, 0; }
    var slept;
    r, sends, slept := FetchCapped(serve, cfg.maxContextFileBytes, true, parse);
  }
}
