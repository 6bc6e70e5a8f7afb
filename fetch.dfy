/** The fetcher, `fetch_stock_data` (stock_pipeline.py:35-64): up to three
    calls of the market-data provider, a fixed five-second pause after every
    failed attempt but the last, and an error naming the attempt count once all
    three have failed. The provider is an oracle: `responses[i]` is what the
    call in attempt `i` does. The pauses are returned in order, in seconds. */
module Fetch {
  import opened Wrappers
  import opened Errors
  import opened Frames

  const MaxRetries: nat := 3
  const RetryDelay: nat := 5
  const NoDataMessage: string := "No data received from yfinance"

  /** What one call of `msft.history(period="1d", interval="1d")` does. */
  datatype Response =
    | Returned(data: Frame)
      /** It raised a `requests.exceptions.RequestException`. */
    | RequestError(detail: string)
      /** It raised any other exception. */
    | ProviderError(detail: string)

  /** An attempt fails when the call raised or returned an empty frame. */
  predicate Fails(resp: Response) {
    !resp.Returned? || IsEmpty(resp.data)
  }

  /** The exception raised when the last attempt failed with `resp`: an empty
      frame is a ValueError, so it takes the generic branch. */
  function FinalError(resp: Response): (e: Error)
    requires Fails(resp)
    ensures e.FetchNetworkError? || e.FetchFailed?
    ensures e.FetchNetworkError? <==> resp.RequestError?
    ensures e.attempts == MaxRetries
    ensures e.detail == if resp.Returned? then NoDataMessage else resp.detail
  {
    match resp
    case RequestError(d) => FetchNetworkError(MaxRetries, d)
    case ProviderError(d) => FetchFailed(MaxRetries, d)
    case Returned(_) => FetchFailed(MaxRetries, NoDataMessage)
  }

  /** What a run of the fetcher returns or raises, the pauses it took and the
      number of provider calls it made. */
  datatype Run = Run(result: Result<Frame, Error>, delays: seq<nat>, attempts: nat)

  /** `n` pauses of `d` seconds. */
  function Repeat(d: nat, n: nat): (s: seq<nat>)
    ensures |s| == n && forall i :: 0 <= i < n ==> s[i] == d
  {
    if n == 0 then [] else Repeat(d, n - 1) + [d]
  }

  /** The loop of `fetch_stock_data` from attempt `attempt` on. */
  function FetchFrom(responses: seq<Response>, attempt: nat): Run
    requires attempt < MaxRetries <= |responses|
    decreases MaxRetries - attempt
  {
    var resp := responses[attempt];
    if !Fails(resp) then
      Run(Ok(resp.data), [], 1)
    else if attempt < MaxRetries - 1 then
      var rest := FetchFrom(responses, attempt + 1);
      Run(rest.result, [RetryDelay] + rest.delays, 1 + rest.attempts)
    else
      Run(Err(FinalError(resp)), [], 1)
  }

  /** `fetch_stock_data()`. */
  method FetchStockData(responses: seq<Response>) returns (r: Result<Frame, Error>, delays: seq<nat>, attempts: nat)
    requires MaxRetries <= |responses|
    ensures Run(r, delays, attempts) == FetchFrom(responses, 0)
    ensures 1 <= attempts <= MaxRetries
    ensures r.Ok? ==> !IsEmpty(r.value)
  {
    FetchRunShape(responses, 0);
    delays, attempts := [], 0;
    var attempt := 0;
    while attempt < MaxRetries
      invariant attempt < MaxRetries
      invariant attempts == attempt
      invariant delays == Repeat(RetryDelay, attempt)
      invariant forall i :: 0 <= i < attempt ==> Fails(responses[i])
      invariant var rest := FetchFrom(responses, attempt);
                FetchFrom(responses, 0) == Run(rest.result, delays + rest.delays, attempts + rest.attempts)
    {
      attempts := attempts + 1;
      var resp := responses[attempt];
      if !Fails(resp) {
        r := Ok(resp.data);
        return;
      }
      if attempt < MaxRetries - 1 {
        delays := delays + [RetryDelay];
      } else {
        r := Err(FinalError(resp));
        return;
      }
      attempt := attempt + 1;
    }
    assert false;
  }

  /** If attempts `a` to `k - 1` fail and attempt `k` succeeds, the fetcher
      returns attempt `k`'s data after `k - a` pauses of five seconds. */
  lemma {:induction false} FetchFirstSuccessFrom(responses: seq<Response>, a: nat, k: nat)
    requires a <= k < MaxRetries <= |responses|
    requires forall i :: a <= i < k ==> Fails(responses[i])
    requires !Fails(responses[k])
    ensures FetchFrom(responses, a) == Run(Ok(responses[k].data), Repeat(RetryDelay, k - a), k - a + 1)
    decreases k - a
  {
    if a < k {
      FetchFirstSuccessFrom(responses, a + 1, k);
      assert [RetryDelay] + Repeat(RetryDelay, k - a - 1) == Repeat(RetryDelay, k - a);
    }
  }

  /** `k` failed attempts followed by a success: the data of attempt `k` is
      returned, after exactly `k` pauses of five seconds and `k + 1` calls. */
  lemma FetchFirstSuccess(responses: seq<Response>, k: nat)
    requires k < MaxRetries <= |responses|
    requires forall i :: 0 <= i < k ==> Fails(responses[i])
    requires !Fails(responses[k])
    ensures FetchFrom(responses, 0) == Run(Ok(responses[k].data), Repeat(RetryDelay, k), k + 1)
  {
    FetchFirstSuccessFrom(responses, 0, k);
  }

  /** If attempts `a` to the last fail, the fetcher raises the last attempt's
      error after a pause before every attempt but the first. */
  lemma {:induction false} FetchAllFailFrom(responses: seq<Response>, a: nat)
    requires a < MaxRetries <= |responses|
    requires forall i :: a <= i < MaxRetries ==> Fails(responses[i])
    ensures FetchFrom(responses, a)
            == Run(Err(FinalError(responses[MaxRetries - 1])), Repeat(RetryDelay, MaxRetries - 1 - a), MaxRetries - a)
    decreases MaxRetries - a
  {
    if a < MaxRetries - 1 {
      FetchAllFailFrom(responses, a + 1);
      assert [RetryDelay] + Repeat(RetryDelay, MaxRetries - 2 - a) == Repeat(RetryDelay, MaxRetries - 1 - a);
    }
  }

  /** Three failed attempts: no value is returned, the error names the three
      attempts and is the network one exactly when the third failure was a
      `RequestException`, and there were two pauses, none after the last
      failure. */
  lemma FetchAllFail(responses: seq<Response>)
    requires MaxRetries <= |responses|
    requires forall i :: 0 <= i < MaxRetries ==> Fails(responses[i])
    ensures var run := FetchFrom(responses, 0);
            && run.result.Err?
            && run.result.error.attempts == 3
            && (run.result.error.FetchNetworkError? <==> responses[2].RequestError?)
            && (run.result.error.FetchFailed? <==> !responses[2].RequestError?)
            && run.delays == [5, 5]
            && run.attempts == 3
  {
    FetchAllFailFrom(responses, 0);
    assert Repeat(RetryDelay, 2) == [5, 5];
  }

  /** The fetcher never calls the provider more than three times: responses
      past the third are never consulted. */
  lemma {:induction false} FetchIgnoresLaterResponses(responses: seq<Response>, a: nat)
    requires a < MaxRetries <= |responses|
    ensures FetchFrom(responses, a) == FetchFrom(responses[..MaxRetries], a)
    decreases MaxRetries - a
  {
    if a < MaxRetries - 1 && Fails(responses[a]) {
      FetchIgnoresLaterResponses(responses, a + 1);
    }
  }

  /** An empty frame is handled exactly like a provider exception whose text
      is "No data received from yfinance". */
  lemma {:induction false} FetchEmptyIsError(responses: seq<Response>, a: nat, k: nat)
    requires a < MaxRetries <= |responses| && k < |responses|
    requires responses[k].Returned? && IsEmpty(responses[k].data)
    ensures FetchFrom(responses, a) == FetchFrom(responses[k := ProviderError(NoDataMessage)], a)
    decreases MaxRetries - a
  {
    if a < MaxRetries - 1 && Fails(responses[a]) {
      FetchEmptyIsError(responses, a + 1, k);
    }
  }

  /** A returned frame is the non-empty frame of one of the first three
      responses; every pause is five seconds and there is one pause fewer than
      attempts, at most three attempts in all. */
  lemma {:induction false} FetchRunShape(responses: seq<Response>, a: nat)
    requires a < MaxRetries <= |responses|
    ensures var run := FetchFrom(responses, a);
            && 1 <= run.attempts <= MaxRetries - a
            && run.delays == Repeat(RetryDelay, run.attempts - 1)
            && (run.result.Ok? ==> exists k :: a <= k < MaxRetries && responses[k] == Returned(run.result.value)
                                                && !IsEmpty(run.result.value))
    decreases MaxRetries - a
  {
    if a < MaxRetries - 1 && Fails(responses[a]) {
      FetchRunShape(responses, a + 1);
      var run := FetchFrom(responses, a + 1);
      assert [RetryDelay] + Repeat(RetryDelay, run.attempts - 1) == Repeat(RetryDelay, run.attempts);
    }
  }
}
