/** The `errorHandler` of public/scramjet.config.js: engine-internal errors
    are sorted into JSON noise (warned about and skipped), operation errors
    (warned about and skipped) and everything else (logged as an error).
    The handler's only effect is logging; the model returns which log it
    writes, with the message excerpt of a warning. */
module ScramjetConfig {
  import opened JsErrors
  import JsString

  const ExcerptLength: nat := 100

  /** The message fragments that mark a `SyntaxError` as JSON noise. */
  const JsonErrorPatterns: seq<string> := [
    "is not valid JSON",
    "Unexpected token",
    "Unexpected end of JSON",
    "JSON.parse",
    "[object Object]",
    "ima://",
    "data://",
    "blob://"
  ]

  datatype HandlerAction =
    | SkipInvalidData(excerpt: string)
    | SkipOperationError(excerpt: string)
    | LogError

  /** `jsonErrorPatterns.some(p => message && message.includes(p))`. */
  predicate MatchesPattern(message: string, patterns: seq<string>)
    ensures MatchesPattern(message, patterns) ==> message != [] && patterns != []
  {
    if patterns == [] then false
    else (message != [] && JsString.Contains(message, patterns[0])) || MatchesPattern(message, patterns[1..])
  }

  lemma {:induction false} MatchesPatternIff(message: string, patterns: seq<string>)
    ensures MatchesPattern(message, patterns) <==>
      message != [] && exists k :: 0 <= k < |patterns| && JsString.Contains(message, patterns[k])
  {
    if patterns != [] {
      MatchesPatternIff(message, patterns[1..]);
      if MatchesPattern(message, patterns[1..]) {
        var k :| 0 <= k < |patterns| - 1 && JsString.Contains(message, patterns[1..][k]);
        assert patterns[1..][k] == patterns[k + 1];
      }
      if message != [] && exists k :: 0 <= k < |patterns| && JsString.Contains(message, patterns[k]) {
        var k :| 0 <= k < |patterns| && JsString.Contains(message, patterns[k]);
        if k > 0 {
          assert patterns[1..][k - 1] == patterns[k];
        }
      }
    }
  }

  predicate IsJsonError(err: JsError)
    ensures IsJsonError(err) ==> err.kind == SyntaxError && err.message != ""
  {
    err.kind == SyntaxError && MatchesPattern(err.message, JsonErrorPatterns)
  }

  predicate IsOperationError(err: JsError)
    ensures err.kind == DomException ==> IsOperationError(err)
    ensures err.kind != DomException ==> (IsOperationError(err) <==> err.name == "OperationError")
  {
    err.name == "OperationError" || err.kind == DomException
  }

  /** `errorHandler(err)`. */
  function ErrorHandler(err: JsError): (a: HandlerAction)
    ensures a.SkipInvalidData? ==> a.excerpt <= err.message
    ensures a.SkipOperationError? && err.message != "" ==> a.excerpt <= err.message
    ensures a.SkipOperationError? && err.message == "" ==> a.excerpt == err.name
    ensures !a.LogError? && err.message != "" ==>
      |a.excerpt| == if |err.message| <= ExcerptLength then |err.message| else ExcerptLength
  {
    if IsJsonError(err) then SkipInvalidData(JsString.Take(err.message, ExcerptLength))
    else if IsOperationError(err) then
      SkipOperationError(if err.message != "" then JsString.Take(err.message, ExcerptLength) else err.name)
    else LogError
  }

  /** What running `errorHandler` on a thrown value does: it returns the
      action for a value with properties, and throws a `TypeError` itself
      for `null` or `undefined`, which fail every `instanceof` test and
      have no `name` to read. */
  datatype HandlerOutcome = Returned(action: HandlerAction) | ThrowsTypeError

  function RunErrorHandler(t: Thrown): (o: HandlerOutcome)
    ensures o.ThrowsTypeError? <==> t.Nullish?
    ensures t.Raised? ==> o == Returned(ErrorHandler(t.error))
  {
    match t
    case Nullish => ThrowsTypeError
    case Raised(err) => Returned(ErrorHandler(err))
  }

  /** A `SyntaxError` whose message contains any one of the patterns is
      skipped as invalid data, never logged as an error. */
  lemma JsonNoiseSkipped(err: JsError, k: nat)
    requires err.kind == SyntaxError && k < |JsonErrorPatterns|
    requires JsString.Contains(err.message, JsonErrorPatterns[k])
    ensures ErrorHandler(err).SkipInvalidData?
  {
    JsString.ContainsChar(err.message, JsonErrorPatterns[k][0]);
    MatchesPatternIff(err.message, JsonErrorPatterns);
  }

  /** Without a message a `SyntaxError` is never taken for JSON noise. */
  lemma EmptyMessageIsNotJson(err: JsError)
    requires err.message == ""
    ensures !ErrorHandler(err).SkipInvalidData?
  {
    MatchesPatternIff(err.message, JsonErrorPatterns);
  }

  /** An `OperationError` or any `DOMException` that is not JSON noise is
      skipped as an operation error. */
  lemma OperationErrorSkipped(err: JsError)
    requires err.name == "OperationError" || err.kind == DomException
    ensures ErrorHandler(err).SkipInvalidData? || ErrorHandler(err).SkipOperationError?
    ensures err.kind != SyntaxError ==> ErrorHandler(err).SkipOperationError?
    ensures !IsJsonError(err) ==> ErrorHandler(err).SkipOperationError?
  {
  }

  /** A `SyntaxError` matching no pattern is handled as if it were any other
      error with the same name and message. */
  lemma UnmatchedSyntaxErrorFallsThrough(err: JsError)
    requires err.kind == SyntaxError
    requires forall k :: 0 <= k < |JsonErrorPatterns| ==> !JsString.Contains(err.message, JsonErrorPatterns[k])
    ensures ErrorHandler(err) == ErrorHandler(err.(kind := OtherError))
  {
    MatchesPatternIff(err.message, JsonErrorPatterns);
  }

  /** Only what none of the earlier checks catches is logged as an error. */
  lemma LoggedExactlyWhenUncaught(err: JsError)
    ensures ErrorHandler(err).LogError? <==> !IsJsonError(err) && !IsOperationError(err)
  {
  }

  /** A warning's excerpt is at most the first 100 characters of the
      message, or the error's name when there is no message. */
  lemma ExcerptBounded(err: JsError)
    requires !ErrorHandler(err).LogError?
    ensures var x := ErrorHandler(err).excerpt;
      if err.message != "" then |x| <= ExcerptLength && x <= err.message else x == err.name
  {
    MatchesPatternIff(err.message, JsonErrorPatterns);
  }

  /** A typical message from `JSON.parse` on non-JSON data is skipped. */
  lemma UnexpectedTokenSkipped(err: JsError)
    requires err == JsError(SyntaxError, "SyntaxError", "Unexpected token < in JSON at position 0")
    ensures ErrorHandler(err) == SkipInvalidData("Unexpected token < in JSON at position 0")
  {
    assert JsString.OccursAt(err.message, JsonErrorPatterns[1], 0);
    JsonNoiseSkipped(err, 1);
  }
}
