/** The fetch handler of public/sw.js: every intercepted request is routed
    through the proxy engine or passed through, and a failed attempt is
    retried a bounded number of times when its error looks like a transient
    libcurl failure. The engine and the network are oracles indexed by the
    attempt number; the 300 ms wait between attempts is counted, not timed. */
module ServiceWorker {
  import opened Wrappers
  import opened JsErrors
  import JsString

  /** libcurl's SSL connect error, send failure, receive failure, connect
      failure and timeout. */
  const RetryableCurlCodes: seq<nat> := [35, 55, 56, 7, 28]
  const MaxRetries: nat := 2
  const RetryDelayMs: nat := 300

  datatype Response = Response(status: nat, statusText: string, body: Option<string>)

  /** The response for data that is not in the expected format. */
  const BadRequest := Response(400, "Bad Request", None)

  /** The response once delivery has failed for good. */
  const ServiceWorkerError :=
    Response(500, "Service Worker Error",
             Some("Failed to fetch resource. Please check your connection and try again."))

  datatype FetchOutcome = Responded(response: Response) | Threw(error: JsError)

  /** What the collaborators do at each attempt: whether `loadConfig` throws,
      whether the engine claims the request, and what the engine's fetch
      and the plain `fetch` give. */
  datatype Network = Network(
    loadConfig: nat -> Option<JsError>,
    route: nat -> bool,
    engineFetch: nat -> FetchOutcome,
    passthrough: nat -> FetchOutcome)

  /** The outcome of a delivery: the response returned, how many attempts
      were made, how many delays were waited, and the error logged with
      `console.error` (none when a response was returned directly). */
  datatype Delivery = Delivery(response: Response, attempts: nat, delays: nat, logged: Option<JsError>)

  /** The number a string of decimal digits denotes. */
  function DigitsValue(s: string): int
    decreases |s|
  {
    if s == [] then 0 else 10 * DigitsValue(s[..|s| - 1]) + (s[|s| - 1] as int - '0' as int)
  }

  /** The decimal digits of `n`, as a template literal prints it: they
      denote `n` and have no leading zero. */
  function Decimal(n: nat): (s: string)
    ensures |s| >= 1 && forall k :: 0 <= k < |s| ==> '0' <= s[k] <= '9'
    ensures DigitsValue(s) == n
    ensures s[0] == '0' ==> s == "0"
  {
    var d := ('0' as int + n % 10) as char;
    if n < 10 then [d]
    else
      var t := Decimal(n / 10);
      assert (t + [d])[..|t|] == t;
      t + [d]
  }

  lemma DecimalOneDigit(n: nat)
    requires n < 10
    ensures Decimal(n) == [('0' as int + n) as char]
  {
  }

  lemma DecimalTwoDigits(n: nat)
    requires 10 <= n < 100
    ensures Decimal(n) == [('0' as int + n / 10) as char, ('0' as int + n % 10) as char]
  {
    DecimalOneDigit(n / 10);
  }

  /** The retryable codes print as `35`, `55`, `56`, `7` and `28`. */
  lemma RetryableCodesPrinted()
    ensures Decimal(35) == "35" && Decimal(55) == "55" && Decimal(56) == "56"
    ensures Decimal(7) == "7" && Decimal(28) == "28"
  {
    DecimalTwoDigits(35);
    DecimalTwoDigits(55);
    DecimalTwoDigits(56);
    DecimalOneDigit(7);
    DecimalTwoDigits(28);
  }

  /** `isRetryableError`: a `TypeError` whose message mentions
      `error code N` for one of the retryable codes. */
  predicate IsRetryableError(err: JsError)
    ensures IsRetryableError(err) ==> err.kind == TypeError && err.message != ""
  {
    err.kind == TypeError && MentionsCode(err.message, RetryableCurlCodes)
  }

  /** `codes.some(code => message && message.includes(`error code ${code}`))`. */
  predicate MentionsCode(message: string, codes: seq<nat>)
    ensures MentionsCode(message, codes) ==> message != [] && codes != []
  {
    if codes == [] then false
    else (message != [] && JsString.Contains(message, "error code " + Decimal(codes[0])))
         || MentionsCode(message, codes[1..])
  }

  lemma {:induction false} MentionsCodeIff(message: string, codes: seq<nat>)
    ensures MentionsCode(message, codes) <==>
      exists k :: 0 <= k < |codes| && JsString.Contains(message, "error code " + Decimal(codes[k]))
  {
    if codes != [] {
      MentionsCodeIff(message, codes[1..]);
      if MentionsCode(message, codes[1..]) {
        var k :| 0 <= k < |codes| - 1 && JsString.Contains(message, "error code " + Decimal(codes[1..][k]));
        assert codes[1..][k] == codes[k + 1];
      }
      if exists k :: 0 <= k < |codes| && JsString.Contains(message, "error code " + Decimal(codes[k])) {
        var k :| 0 <= k < |codes| && JsString.Contains(message, "error code " + Decimal(codes[k]));
        if k > 0 {
          assert codes[1..][k - 1] == codes[k];
        }
      }
    }
  }

  /** An error is retried exactly when it is a `TypeError` whose message
      contains `error code N`, as a substring, for some retryable code N. */
  lemma RetryableIff(err: JsError)
    ensures IsRetryableError(err) <==>
      err.kind == TypeError &&
      exists k :: 0 <= k < |RetryableCurlCodes| &&
        JsString.Contains(err.message, "error code " + Decimal(RetryableCurlCodes[k]))
  {
    MentionsCodeIff(err.message, RetryableCurlCodes);
  }

  /** One pass through the `try` block. */
  function Attempt(net: Network, attempt: nat): (o: FetchOutcome)
    ensures o.Responded? ==>
      net.loadConfig(attempt).None? &&
      o == (if net.route(attempt) then net.engineFetch(attempt) else net.passthrough(attempt))
  {
    match net.loadConfig(attempt)
    case Some(err) => Threw(err)
    case None => if net.route(attempt) then net.engineFetch(attempt) else net.passthrough(attempt)
  }

  /** A failure that ends delivery with 400 at once. No such failure is
      also retryable, so the order of the two tests does not matter. */
  predicate IsMalformedData(err: JsError)
    ensures IsMalformedData(err) ==> !IsRetryableError(err)
    ensures err.kind == SyntaxError && !IsMalformedData(err) ==> err.message == ""
  {
    err.kind == SyntaxError && err.message != ""
  }

  /** The delivery from attempt `attempt` on: the reference definition of
      `handleRequest`'s loop. */
  function DeliverFrom(net: Network, attempt: nat): (d: Delivery)
    requires attempt <= MaxRetries
    ensures attempt < d.attempts <= MaxRetries + 1
    ensures d.delays == d.attempts - 1
    ensures d.logged.Some? ==> d.response == ServiceWorkerError
    decreases MaxRetries - attempt
  {
    match Attempt(net, attempt)
    case Responded(r) => Delivery(r, attempt + 1, attempt, None)
    case Threw(err) =>
      if IsMalformedData(err) then Delivery(BadRequest, attempt + 1, attempt, None)
      else if IsRetryableError(err) && attempt < MaxRetries then DeliverFrom(net, attempt + 1)
      else Delivery(ServiceWorkerError, attempt + 1, attempt, Some(err))
  }

  /** The whole delivery: one to three attempts, one delay fewer, and an
      error logged only with the 500 response. */
  function Deliver(net: Network): (d: Delivery)
    ensures 1 <= d.attempts <= MaxRetries + 1
    ensures d.delays == d.attempts - 1
    ensures d.logged.Some? ==> d.response == ServiceWorkerError
  {
    DeliverFrom(net, 0)
  }

  /** `handleRequest`: the `for` loop over attempts, with `continue` after a
      retryable failure, `break` after any other failure, and the final
      500 response. */
  method HandleRequest(net: Network) returns (d: Delivery)
    ensures d == Deliver(net)
    ensures 1 <= d.attempts <= MaxRetries + 1
    ensures d.delays == d.attempts - 1
  {
    var lastErr: Option<JsError> := None;
    var delays := 0;
    var attempt := 0;
    while attempt <= MaxRetries
      invariant attempt <= MaxRetries
      invariant delays == attempt
      invariant DeliverFrom(net, attempt) == Deliver(net)
    {
      var outcome: FetchOutcome;
      var configError := net.loadConfig(attempt);
      if configError.Some? {
        outcome := Threw(configError.value);
      } else if net.route(attempt) {
        outcome := net.engineFetch(attempt);
      } else {
        outcome := net.passthrough(attempt);
      }
      if outcome.Responded? {
        return Delivery(outcome.response, attempt + 1, delays, None);
      }
      var err := outcome.error;
      if err.kind == SyntaxError && err.message != "" {
        return Delivery(BadRequest, attempt + 1, delays, None);
      }
      if IsRetryableError(err) && attempt < MaxRetries {
        delays := delays + 1;
        lastErr := Some(err);
        attempt := attempt + 1;
        continue;
      }
      lastErr := Some(err);
      break;
    }
    return Delivery(ServiceWorkerError, attempt + 1, delays, lastErr);
  }

  /** Attempt `j` failed with a retryable error and was followed by a delay
      and another attempt. */
  predicate RetriedAt(net: Network, j: nat) {
    && Attempt(net, j).Threw?
    && !IsMalformedData(Attempt(net, j).error)
    && IsRetryableError(Attempt(net, j).error)
    && j < MaxRetries
  }

  /** Attempt `j`, the last one, accounts for delivery `d`: a response is
      returned as it is, malformed data gives 400, and any other failure,
      not retryable or at the last permitted attempt, gives 500 with that
      failure logged. */
  predicate Concludes(net: Network, j: nat, d: Delivery) {
    match Attempt(net, j)
    case Responded(r) => d.response == r && d.logged.None?
    case Threw(err) =>
      if IsMalformedData(err) then d.response == BadRequest && d.logged.None?
      else d.response == ServiceWorkerError && d.logged == Some(err) &&
           (!IsRetryableError(err) || j == MaxRetries)
  }

  lemma {:induction false} DeliverFromExplained(net: Network, attempt: nat)
    requires attempt <= MaxRetries
    ensures var d := DeliverFrom(net, attempt);
      && (forall j :: attempt <= j < d.attempts - 1 ==> RetriedAt(net, j))
      && Concludes(net, d.attempts - 1, d)
    decreases MaxRetries - attempt
  {
    var d := DeliverFrom(net, attempt);
    if RetriedAt(net, attempt) {
      DeliverFromExplained(net, attempt + 1);
      assert d == DeliverFrom(net, attempt + 1);
    } else {
      assert d.attempts == attempt + 1;
    }
  }

  /** Every attempt before the last failed retryably, and the last attempt
      alone decides the response. */
  lemma DeliverExplained(net: Network)
    ensures var d := Deliver(net);
      && (forall j :: 0 <= j < d.attempts - 1 ==> RetriedAt(net, j))
      && Concludes(net, d.attempts - 1, d)
  {
    DeliverFromExplained(net, 0);
  }

  /** When every attempt fails retryably there are exactly three attempts
      and two delays, and the third error is logged with the 500 response. */
  lemma AllRetryableFailures(net: Network)
    requires forall j :: 0 <= j <= MaxRetries ==>
      Attempt(net, j).Threw? && !IsMalformedData(Attempt(net, j).error) && IsRetryableError(Attempt(net, j).error)
    ensures Deliver(net) == Delivery(ServiceWorkerError, 3, 2, Some(Attempt(net, 2).error))
  {
    assert Attempt(net, 0).Threw? && Attempt(net, 1).Threw? && Attempt(net, 2).Threw?;
  }

  /** Data in the wrong format ends delivery at once with 400: no delay, no
      further attempt. */
  lemma MalformedDataStopsAtOnce(net: Network, j: nat)
    requires j <= MaxRetries
    requires Attempt(net, j).Threw? && IsMalformedData(Attempt(net, j).error)
    ensures DeliverFrom(net, j) == Delivery(BadRequest, j + 1, j, None)
  {
  }

  /** A response, from the engine when it claims the request and from the
      network otherwise, is returned unchanged after that one attempt. */
  lemma SuccessIsReturnedUnchanged(net: Network, j: nat, r: Response)
    requires j <= MaxRetries && net.loadConfig(j).None?
    requires (if net.route(j) then net.engineFetch(j) else net.passthrough(j)) == Responded(r)
    ensures DeliverFrom(net, j) == Delivery(r, j + 1, j, None)
  {
  }

  /** A failure that is neither malformed data nor retryable ends the loop
      after that attempt with the fixed 500 response. */
  lemma OtherFailureStops(net: Network, j: nat)
    requires j <= MaxRetries
    requires Attempt(net, j).Threw?
    requires !IsMalformedData(Attempt(net, j).error) && !IsRetryableError(Attempt(net, j).error)
    ensures DeliverFrom(net, j) == Delivery(ServiceWorkerError, j + 1, j, Some(Attempt(net, j).error))
  {
  }

  /** The codes are matched as substrings: `error code 70` counts as code 7. */
  lemma ErrorCode70IsRetried(err: JsError)
    requires err == JsError(TypeError, "TypeError", "curl error code 70")
    ensures IsRetryableError(err)
  {
    var m := err.message;
    DecimalOneDigit(7);
    var p := "error code " + Decimal(RetryableCurlCodes[3]);
    assert p == "error code 7";
    assert m[5..17] == p;
    assert JsString.OccursAt(m, p, 5);
    RetryableIff(err);
  }

  /** Only a `TypeError` is ever retried, whatever its message says. */
  lemma OnlyTypeErrorsRetried(err: JsError)
    requires err.kind != TypeError
    ensures !IsRetryableError(err)
  {
  }

  /** Delivery waits one 300 ms delay per retried attempt, so at most
      600 ms in all. */
  lemma WaitIsBounded(net: Network)
    ensures var d := Deliver(net);
      d.delays * RetryDelayMs == (d.attempts - 1) * 300 && d.delays * RetryDelayMs <= 600
  {
  }
}
