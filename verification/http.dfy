/**
 The fetch helpers of src/utils/http.js: the request headers `politeFetch` sends (the
 defaults overridden key by key by the caller's) and the retry schedule of
 `fetchRetry`. What the k-th attempt returns is given as a function of `k`; timers
 and the abort controller are not modelled.
 */
module Http {

  /** What one `politeFetch` call gives: a response with its status, or a thrown error. */
  datatype Attempt = Response(status: int) | Thrown(message: string)

  /** `res.ok`: a status in 200-299. */
  predicate IsOk(a: Attempt) {
    a.Response? && 200 <= a.status <= 299
  }

  /** Why an attempt failed: a non-ok status (`HTTP <status>`) or the error thrown. */
  datatype Failure = HttpStatus(status: int) | NetworkError(message: string)

  function FailureOf(a: Attempt): Failure
    requires !IsOk(a)
  {
    match a
    case Response(s) => HttpStatus(s)
    case Thrown(m) => NetworkError(m)
  }

  /** How `fetchRetry` ends: the ok response, or the rethrown error of the last attempt. */
  datatype FetchOutcome = Fetched(status: int) | FetchFailed(failure: Failure)

  const DefaultRetries: int := 2
  const DefaultBackoffMs: int := 600

  /** The number of attempts after which `fetchRetry` gives up: `retries + 1`, and at least one. */
  function MaxFetchAttempts(retries: int): (n: nat)
    ensures n >= 1 && n >= retries + 1
    ensures n == 1 || n == retries + 1
  {
    if retries <= 0 then 1 else retries + 1
  }

  /** The pause after the k-th failed attempt (counting from 0): `backoffMs * (k + 1)`. */
  function Backoff(backoffMs: int, k: nat): int {
    backoffMs * (k + 1)
  }

  /**
   `fetchRetry`: try, return the first ok response, otherwise rethrow once `retries`
   failures have been retried, pausing `backoffMs * n` after the n-th failure.
   `attempts` counts the calls made and `waits` lists the pauses in order.
   */
  method FetchRetry(retries: int, backoffMs: int, respond: nat -> Attempt) returns (r: FetchOutcome, attempts: nat, waits: seq<int>)
    ensures 1 <= attempts <= MaxFetchAttempts(retries)
    ensures forall k :: 0 <= k < attempts - 1 ==> !IsOk(respond(k))
    ensures r.Fetched? <==> exists k :: 0 <= k < MaxFetchAttempts(retries) && IsOk(respond(k))
    ensures r.Fetched? ==> IsOk(respond(attempts - 1)) && r.status == respond(attempts - 1).status
    ensures r.FetchFailed? ==> attempts == MaxFetchAttempts(retries) && !IsOk(respond(attempts - 1))
    ensures r.FetchFailed? ==> r.failure == FailureOf(respond(attempts - 1))
    ensures |waits| == attempts - 1 && forall k :: 0 <= k < |waits| ==> waits[k] == Backoff(backoffMs, k)
  {
    var attempt: nat := 0;
    waits := [];
    while true
      invariant attempt < MaxFetchAttempts(retries)
      invariant forall k :: 0 <= k < attempt ==> !IsOk(respond(k))
      invariant |waits| == attempt && forall k :: 0 <= k < attempt ==> waits[k] == Backoff(backoffMs, k)
      decreases MaxFetchAttempts(retries) - attempt
    {
      var a := respond(attempt);
      if IsOk(a) {
        return Fetched(a.status), attempt + 1, waits;
      }
      if attempt >= retries {
        return FetchFailed(FailureOf(a)), attempt + 1, waits;
      }
      attempt := attempt + 1;
      waits := waits + [backoffMs * attempt];
    }
  }

  /** With a positive base the pauses grow strictly. */
  lemma BackoffIncreasing(backoffMs: int, j: nat, k: nat)
    requires backoffMs > 0 && j < k
    ensures Backoff(backoffMs, j) < Backoff(backoffMs, k)
  {
    assert Backoff(backoffMs, k) - Backoff(backoffMs, j) == backoffMs * (k - j);
  }

  /** With the defaults: three attempts, pauses of 600 and 1200 milliseconds. */
  lemma DefaultSchedule()
    ensures MaxFetchAttempts(DefaultRetries) == 3
    ensures Backoff(DefaultBackoffMs, 0) == 600 && Backoff(DefaultBackoffMs, 1) == 1200
  {
  }

  /** The headers `politeFetch` sends unless the caller overrides them. */
  const DefaultHeaders: map<string, string> := map[
    "User-Agent" := "Mozilla/5.0 (Windows NT 10.0; Win64; x64) AppleWebKit/537.36 (KHTML, like Gecko) Chrome/123.0.0.0 Safari/537.36",
    "Accept" := "text/html,application/xhtml+xml,application/xml;q=0.9,image/avif,image/webp,*/*;q=0.8",
    "Accept-Language" := "en-US,en;q=0.9",
    "Connection" := "keep-alive",
    "Upgrade-Insecure-Requests" := "1",
    "Sec-Fetch-Dest" := "document",
    "Sec-Fetch-Mode" := "navigate",
    "Sec-Fetch-Site" := "none",
    "Sec-Fetch-User" := "?1"
  ]

  /** `{ ...DEFAULT_HEADERS, ...headers }`: every default name is sent, and a caller's value wins. */
  function RequestHeaders(caller: map<string, string>): (h: map<string, string>)
    ensures h.Keys == DefaultHeaders.Keys + caller.Keys
    ensures forall name :: name in caller ==> h[name] == caller[name]
    ensures forall name :: name in DefaultHeaders && name !in caller ==> h[name] == DefaultHeaders[name]
  {
    DefaultHeaders + caller
  }

  /** Without caller headers the defaults go out unchanged. */
  lemma NoOverrideSendsDefaults()
    ensures RequestHeaders(map[]) == DefaultHeaders
  {
    assert RequestHeaders(map[]).Keys == DefaultHeaders.Keys;
  }
}
