/**
 * `fetch`: answer from the cache when it can, otherwise GET the URL until it
 * succeeds, sleeping through 429 throttling without counting it and giving
 * up after the fifth failure of any other kind.
 *
 * The network is the finite list of responses the server would give to the
 * successive requests; when the list runs out before the loop has decided,
 * the outcome is `Pending`. Sleeps are recorded as delays, not waited out.
 */
module Fetcher {
  import opened Wrappers
  import opened Text
  import opened ResponseCache

  /** What one GET produced: a response, or an exception before one arrived. */
  datatype Response =
    | Response(status: int, retryAfter: Option<string>, body: Option<string>)
    | ConnectionFailed

  /** How the loop treats one attempt. */
  datatype Attempt = Succeeded(text: string) | Throttled(delay: int) | Failed

  /** Retries allowed after failures other than throttling. */
  const MaxFailures: nat := 5
  /** Seconds slept after a failure. */
  const FailureBackoff: int := 5
  /** Seconds slept on a 429 whose `Retry-After` header is empty. */
  const DefaultRetryAfter: string := "5"

  /**
   * One attempt of the loop: 429 sleeps for `int(Retry-After or '5')`, where
   * a missing header (KeyError) or an unparsable one (ValueError) is an
   * ordinary failure; any other status but 200 is a failure; 200 succeeds
   * once its body decodes (`body` is None when it does not).
   */
  function Classify(r: Response): (a: Attempt)
    ensures a.Succeeded? <==> r.Response? && r.status == 200 && r.body.Some?
    ensures a.Succeeded? ==> a.text == r.body.value
    ensures a.Throttled? ==> r.Response? && r.status == 429 && r.retryAfter.Some?
  {
    match r
    case ConnectionFailed => Failed
    case Response(status, retryAfter, body) =>
      if status == 429 then
        match retryAfter
        case None => Failed
        case Some(h) =>
          match ParseInt(if h == "" then DefaultRetryAfter else h)
          case None => Failed
          case Some(d) => Throttled(d)
      else if status != 200 then Failed
      else if body.None? then Failed
      else Succeeded(body.value)
  }

  /** A 429 sleeps for the number its `Retry-After` header spells. */
  lemma ClassifyThrottled(n: nat, body: Option<string>)
    ensures Classify(Response(429, Some(Render(n)), body)) == Throttled(n)
  {
    ParseIntRender(n);
  }

  /** An empty `Retry-After` means five seconds; a missing or unreadable one is a failure. */
  lemma ClassifyRetryAfterEdgeCases(body: Option<string>)
    ensures Classify(Response(429, Some(""), body)) == Throttled(5)
    ensures Classify(Response(429, None, body)) == Failed
    ensures Classify(Response(429, Some("soon"), body)) == Failed
  {
    ParseIntRender(5);
    assert Render(5) == "5";
    StripNoop("soon");
    assert !UnderscoredDigits("soon");
  }

  /** Only a 200 with a readable body succeeds. */
  lemma ClassifyOtherStatuses(text: string, header: Option<string>)
    ensures Classify(Response(200, header, Some(text))) == Succeeded(text)
    ensures Classify(Response(200, header, None)) == Failed
    ensures Classify(Response(503, header, Some(text))) == Failed
    ensures Classify(ConnectionFailed) == Failed
  {
  }

  /** Where the loop ended. */
  datatype Outcome = Fetched(text: string) | Exhausted | Pending

  /** The outcome, the number of responses consumed and the sleeps taken. */
  datatype RetryRun = RetryRun(outcome: Outcome, used: nat, sleeps: seq<int>)

  /** The retry loop, entered with `errCount` failures already counted. */
  function Run(rs: seq<Response>, errCount: nat): (o: RetryRun)
    ensures o.used <= |rs|
    ensures o.outcome.Pending? ==> o.used == |rs|
    ensures o.outcome.Fetched? ==> 1 <= o.used && Classify(rs[o.used - 1]) == Succeeded(o.outcome.text)
    ensures |o.sleeps| == if o.outcome.Fetched? then o.used - 1 else o.used
    decreases |rs|
  {
    if errCount >= MaxFailures then RetryRun(Exhausted, 0, [])
    else if rs == [] then RetryRun(Pending, 0, [])
    else match Classify(rs[0])
      case Succeeded(t) => RetryRun(Fetched(t), 1, [])
      case Throttled(d) =>
        var r := Run(rs[1..], errCount);
        RetryRun(r.outcome, r.used + 1, [d] + r.sleeps)
      case Failed =>
        var r := Run(rs[1..], errCount + 1);
        RetryRun(r.outcome, r.used + 1, [FailureBackoff] + r.sleeps)
  }

  /** One turn of the loop, on the responses from `i` on. */
  lemma RunStep(rs: seq<Response>, i: nat, errCount: nat)
    requires i < |rs| && errCount < MaxFailures
    ensures Run(rs[i..], errCount) == match Classify(rs[i])
      case Succeeded(t) => RetryRun(Fetched(t), 1, [])
      case Throttled(d) =>
        var r := Run(rs[i + 1..], errCount);
        RetryRun(r.outcome, r.used + 1, [d] + r.sleeps)
      case Failed =>
        var r := Run(rs[i + 1..], errCount + 1);
        RetryRun(r.outcome, r.used + 1, [FailureBackoff] + r.sleeps)
  {
    assert rs[i..][1..] == rs[i + 1..];
  }

  /** The `while err_count < 5` loop of fetch. */
  method RetryLoop(responses: seq<Response>) returns (outcome: Outcome, used: nat, sleeps: seq<int>)
    ensures RetryRun(outcome, used, sleeps) == Run(responses, 0)
  {
    var errCount: nat := 0;
    var i := 0;
    sleeps := [];
    while errCount < MaxFailures
      invariant 0 <= i <= |responses|
      invariant var r := Run(responses[i..], errCount);
        Run(responses, 0) == RetryRun(r.outcome, i + r.used, sleeps + r.sleeps)
      decreases |responses| - i
    {
      if i == |responses| {
        return Pending, i, sleeps;
      }
      var rest := Run(responses[i + 1..], errCount);
      RunStep(responses, i, errCount);
      match Classify(responses[i]) {
        case Succeeded(t) =>
          return Fetched(t), i + 1, sleeps;
        case Throttled(d) =>
          assert sleeps + ([d] + rest.sleeps) == (sleeps + [d]) + rest.sleeps;
          sleeps := sleeps + [d];
        case Failed =>
          var rest' := Run(responses[i + 1..], errCount + 1);
          assert sleeps + ([FailureBackoff] + rest'.sleeps) == (sleeps + [FailureBackoff]) + rest'.sleeps;
          sleeps := sleeps + [FailureBackoff];
          errCount := errCount + 1;
      }
      i := i + 1;
    }
    assert sleeps + [] == sleeps;
    outcome, used := Exhausted, i;
  }

  /** How many attempts of `rs` count as failures. */
  function FailureCount(rs: seq<Response>): (n: nat)
    ensures n <= |rs|
  {
    if rs == [] then 0
    else FailureCount(rs[..|rs| - 1]) + (if Classify(rs[|rs| - 1]).Failed? then 1 else 0)
  }

  /** The sleep that follows an attempt that did not succeed. */
  function SleepAfter(a: Attempt): int {
    if a.Throttled? then a.delay else FailureBackoff
  }

  /** The sleep after each attempt of `rs`. */
  function Delays(rs: seq<Response>): (d: seq<int>)
    ensures |d| == |rs|
  {
    if rs == [] then []
    else Delays(rs[..|rs| - 1]) + [SleepAfter(Classify(rs[|rs| - 1]))]
  }

  lemma FailureCountCons(rs: seq<Response>)
    requires rs != []
    ensures FailureCount(rs) == (if Classify(rs[0]).Failed? then 1 else 0) + FailureCount(rs[1..])
    decreases |rs|
  {
    if |rs| > 1 {
      var n := |rs| - 1;
      FailureCountCons(rs[..n]);
      assert rs[..n][1..] == rs[1..][..n - 1];
    } else {
      assert rs[1..] == [];
    }
  }

  lemma DelaysCons(rs: seq<Response>)
    requires rs != []
    ensures Delays(rs) == [SleepAfter(Classify(rs[0]))] + Delays(rs[1..])
    decreases |rs|
  {
    if |rs| > 1 {
      var n := |rs| - 1;
      DelaysCons(rs[..n]);
      assert rs[..n][1..] == rs[1..][..n - 1];
    } else {
      assert rs[1..] == [];
    }
  }

  /**
   * The first success, reached while fewer than five failures have
   * accumulated, is what fetch returns; everything before it was slept
   * through.
   */
  lemma {:induction false} RunFetchesAt(rs: seq<Response>, errCount: nat, k: nat)
    requires k < |rs| && Classify(rs[k]).Succeeded?
    requires forall j :: 0 <= j < k ==> !Classify(rs[j]).Succeeded?
    requires errCount + FailureCount(rs[..k]) < MaxFailures
    ensures Run(rs, errCount) == RetryRun(Fetched(Classify(rs[k]).text), k + 1, Delays(rs[..k]))
  {
    if k > 0 {
      assert rs[..k][1..] == rs[1..][..k - 1];
      FailureCountCons(rs[..k]);
      DelaysCons(rs[..k]);
      assert rs[..k][0] == rs[0];
      var e := if Classify(rs[0]).Failed? then errCount + 1 else errCount;
      RunFetchesAt(rs[1..], e, k - 1);
    }
  }

  /**
   * Once the fifth failure has happened with no success before it, fetch
   * gives up, whatever the server would have answered afterwards.
   */
  lemma {:induction false} RunExhaustsAt(rs: seq<Response>, errCount: nat, k: nat)
    requires k <= |rs| && errCount <= MaxFailures
    requires forall j :: 0 <= j < k ==> !Classify(rs[j]).Succeeded?
    requires errCount + FailureCount(rs[..k]) == MaxFailures
    requires k == 0 || Classify(rs[k - 1]).Failed?
    ensures Run(rs, errCount) == RetryRun(Exhausted, k, Delays(rs[..k]))
  {
    if k > 0 {
      assert rs[..k][1..] == rs[1..][..k - 1];
      FailureCountCons(rs[..k]);
      DelaysCons(rs[..k]);
      assert rs[..k][0] == rs[0];
      var e := if Classify(rs[0]).Failed? then errCount + 1 else errCount;
      assert k == 1 || rs[1..][k - 2] == rs[k - 1];
      RunExhaustsAt(rs[1..], e, k - 1);
    }
  }

  /** Without a success or a fifth failure the loop is still waiting for the server. */
  lemma {:induction false} RunPending(rs: seq<Response>, errCount: nat)
    requires forall j :: 0 <= j < |rs| ==> !Classify(rs[j]).Succeeded?
    requires errCount + FailureCount(rs) < MaxFailures
    ensures Run(rs, errCount) == RetryRun(Pending, |rs|, Delays(rs))
  {
    if rs != [] {
      FailureCountCons(rs);
      DelaysCons(rs);
      var e := if Classify(rs[0]).Failed? then errCount + 1 else errCount;
      RunPending(rs[1..], e);
    }
  }

  /** A server that only ever throttles is waited on indefinitely: 429s never exhaust the retries. */
  lemma {:induction false} ThrottlingNeverExhausts(rs: seq<Response>, errCount: nat)
    requires errCount < MaxFailures
    requires forall j :: 0 <= j < |rs| ==> !Classify(rs[j]).Failed?
    ensures !Run(rs, errCount).outcome.Exhausted?
  {
    if rs != [] {
      ThrottlingNeverExhausts(rs[1..], errCount);
    }
  }

  lemma AllFailedCount(rs: seq<Response>)
    requires forall j :: 0 <= j < |rs| ==> Classify(rs[j]).Failed?
    ensures FailureCount(rs) == |rs|
  {
    if rs != [] {
      AllFailedCount(rs[..|rs| - 1]);
    }
  }

  /** Four failures followed by a success still fetch; a fifth failure first does not. */
  lemma FifthFailureIsFinal(text: string)
    ensures var ok := Response(200, None, Some(text));
      Run([ConnectionFailed, ConnectionFailed, ConnectionFailed, ConnectionFailed, ok], 0).outcome == Fetched(text)
    ensures var ok := Response(200, None, Some(text));
      Run([ConnectionFailed, ConnectionFailed, ConnectionFailed, ConnectionFailed, ConnectionFailed, ok], 0).outcome == Exhausted
  {
    var ok := Response(200, None, Some(text));
    var four := [ConnectionFailed, ConnectionFailed, ConnectionFailed, ConnectionFailed, ok];
    RunFetchesAt(four, 0, 4);
    var five := [ConnectionFailed, ConnectionFailed, ConnectionFailed, ConnectionFailed, ConnectionFailed, ok];
    AllFailedCount(five[..5]);
    RunExhaustsAt(five, 0, 5);
  }

  /** What fetch produced: the outcome and the responses consumed (0 on a cache hit). */
  datatype FetchResult = FetchResult(outcome: Outcome, used: nat, files: map<string, CacheEntry>)

  /**
   * fetch as a function of the cache directory: looked up at `now`; on a
   * miss the retry loop runs and a fetched text is written at `storedAt`.
   */
  function FetchSpec(files: map<string, CacheEntry>, key: string, rs: seq<Response>, now: real, storedAt: real): FetchResult {
    var looked := LookupFile(files, key, now);
    if looked.text.Some? then FetchResult(Fetched(looked.text.value), 0, looked.files)
    else
      var run := Run(rs, 0);
      match run.outcome
      case Fetched(t) => FetchResult(run.outcome, run.used, looked.files[key := CacheEntry(storedAt, t)])
      case _ => FetchResult(run.outcome, run.used, looked.files)
  }

  /**
   * A page fetched from the server and stored at `storedAt` is served again
   * from the cache, with no request at all, by every fetch up to 12 hours
   * later.
   */
  lemma RefetchServedFromCache(files: map<string, CacheEntry>, key: string, rs: seq<Response>, rs2: seq<Response>,
                               now: real, storedAt: real, now2: real, storedAt2: real)
    requires LookupFile(files, key, now).text.None?
    requires FetchSpec(files, key, rs, now, storedAt).outcome.Fetched?
    requires storedAt <= now2 <= storedAt + CacheExpiry
    ensures var first := FetchSpec(files, key, rs, now, storedAt);
      var second := FetchSpec(first.files, key, rs2, now2, storedAt2);
      second.outcome == first.outcome && second.used == 0 && second.files == first.files
  {
    var first := FetchSpec(files, key, rs, now, storedAt);
    StoredTextServedUntilExpiry(LookupFile(files, key, now).files, key, first.outcome.text, storedAt, now2);
  }

  /** A cache miss that ends without a page leaves no file under the key. */
  lemma FailedFetchStoresNothing(files: map<string, CacheEntry>, key: string, rs: seq<Response>, now: real, storedAt: real)
    requires !FetchSpec(files, key, rs, now, storedAt).outcome.Fetched?
    ensures key !in FetchSpec(files, key, rs, now, storedAt).files
  {
  }

  /** fetch(session, url, **kwargs) against the cache directory and the server's responses. */
  method Fetch(cache: Cache, url: string, kwargs: seq<Kwarg>, responses: seq<Response>, now: real, storedAt: real)
      returns (outcome: Outcome, used: nat)
    modifies cache
    ensures var r := FetchSpec(old(cache.files), cache.sha1(Preimage(url, kwargs)), responses, now, storedAt);
      outcome == r.outcome && used == r.used && cache.files == r.files
  {
    var cached := cache.Lookup(url, kwargs, now);
    if cached.Some? {
      return Fetched(cached.value), 0;
    }
    var sleeps;
    outcome, used, sleeps := RetryLoop(responses);
    if outcome.Fetched? {
      cache.Store(outcome.text, url, kwargs, storedAt);
    }
  }
}
