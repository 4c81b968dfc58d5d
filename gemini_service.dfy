// `evaluateAnswerSheet` (services/geminiService.ts): the credential guard,
// request composition, the model call, the empty-response check, decoding
// and reconciliation. The model call and the JSON decoder are foreign code;
// they are the parameters `generate` and `decode`.
module GeminiService {
  import opened Types
  import opened Request
  import opened ScoreReconciler

  const ApiKeyMissingMessage: string := "API_KEY_MISSING"
  const EmptyResponseMessage: string := "Empty AI response."

  /** The errors `evaluateAnswerSheet` throws. */
  datatype EvalError =
    | ApiKeyMissing              // no usable credential; thrown before any call
    | EmptyResponse              // the model answered with no text
    | Malformed(detail: string)  // the decoder rejected the text
    | Upstream(detail: string)   // the model call itself failed

  /** The thrown error's `message`. */
  function Message(e: EvalError): string {
    match e
    case ApiKeyMissing => ApiKeyMissingMessage
    case EmptyResponse => EmptyResponseMessage
    case Malformed(d) => d
    case Upstream(d) => d
  }

  /** What the model call yields: a response whose text may be missing, or
      a failure with its message. */
  datatype ModelReply = Replied(text: Option<string>) | CallFailed(message: string)

  /** The key guard: a key that is unset, the literal `"undefined"` or empty
      is not usable. */
  predicate KeyUsable(apiKey: Option<string>) {
    apiKey.Some? && apiKey.value != "undefined" && apiKey.value != ""
  }

  /** Everything after the model call: a failed call propagates, an empty text
      is an error, text the decoder rejects is an error, and a decoded report
      is reconciled before it is returned. `decode` stands for `JSON.parse` of
      the trimmed text. */
  function Interpret(reply: ModelReply, decode: string -> Result<EvaluationReport, string>)
    : (outcome: Result<EvaluationReport, EvalError>)
    ensures outcome.Success? ==> Reconciled(outcome.value)
    ensures outcome == Failure(EmptyResponse) <==> reply == Replied(None) || reply == Replied(Some(""))
    ensures outcome.Failure? ==> outcome.error != ApiKeyMissing
    ensures reply.CallFailed? <==> outcome.Failure? && outcome.error.Upstream?
    ensures reply.CallFailed? ==> outcome == Failure(Upstream(reply.message))
    ensures reply.Replied? && reply.text.Some? && reply.text.value != "" ==>
      match decode(reply.text.value)
      case Success(raw) => outcome == Success(Reconcile(raw))
      case Failure(d) => outcome == Failure(Malformed(d))
  {
    match reply
    case CallFailed(m) => Failure(Upstream(m))
    case Replied(text) =>
      if text.None? || text.value == "" then Failure(EmptyResponse)
      else
        match decode(text.value)
        case Failure(d) => Failure(Malformed(d))
        case Success(raw) => Success(Reconcile(raw))
  }

  /** The outcome of one evaluation: the key guard first, then the model's
      reply to the composed request. */
  function EvaluationOutcome(
    apiKey: Option<string>, qp: seq<string>, key: seq<string>, student: seq<string>,
    generate: seq<Part> -> ModelReply, decode: string -> Result<EvaluationReport, string>)
    : Result<EvaluationReport, EvalError>
  {
    if !KeyUsable(apiKey) then Failure(ApiKeyMissing)
    else Interpret(generate(RequestParts(qp, key, student)), decode)
  }

  /** `evaluateAnswerSheet`. `request` is the part list handed to the model,
      or `None` when the key guard stopped the call before any part was
      built. */
  method EvaluateAnswerSheet(
    apiKey: Option<string>, qp: seq<string>, key: seq<string>, student: seq<string>,
    generate: seq<Part> -> ModelReply, decode: string -> Result<EvaluationReport, string>)
    returns (outcome: Result<EvaluationReport, EvalError>, request: Option<seq<Part>>)
    ensures request.None? <==> !KeyUsable(apiKey)
    ensures request.Some? ==> request.value == RequestParts(qp, key, student)
    ensures outcome == EvaluationOutcome(apiKey, qp, key, student, generate, decode)
  {
    if !KeyUsable(apiKey) {
      return Failure(ApiKeyMissing), None;
    }
    var parts := ComposeRequest(qp, key, student);
    request := Some(parts);
    var reply := generate(parts);
    outcome := Interpret(reply, decode);
  }

  /** The evaluation fails with the key error exactly when the key is not
      usable, whatever the model would have answered. */
  lemma KeyErrorIffUnusableKey(
    apiKey: Option<string>, qp: seq<string>, key: seq<string>, student: seq<string>,
    generate: seq<Part> -> ModelReply, decode: string -> Result<EvaluationReport, string>)
    ensures EvaluationOutcome(apiKey, qp, key, student, generate, decode) == Failure(ApiKeyMissing)
        <==> !KeyUsable(apiKey)
  {
  }

  /** A successful evaluation returns the decoded report reconciled: its
      total and percentage agree with its grades, and everything else is as
      decoded. */
  lemma SuccessIsDecodedAndReconciled(
    apiKey: Option<string>, qp: seq<string>, key: seq<string>, student: seq<string>,
    generate: seq<Part> -> ModelReply, decode: string -> Result<EvaluationReport, string>)
    requires EvaluationOutcome(apiKey, qp, key, student, generate, decode).Success?
    ensures var reply := generate(RequestParts(qp, key, student));
      var report := EvaluationOutcome(apiKey, qp, key, student, generate, decode).value;
      && KeyUsable(apiKey)
      && reply.Replied? && reply.text.Some? && reply.text.value != ""
      && decode(reply.text.value).Success?
      && report == Reconcile(decode(reply.text.value).value)
      && Reconciled(report)
  {
  }

  /** With a usable key, a model call that fails makes the evaluation fail
      with that same error, so its own message is what the caller sees. */
  lemma CallFailureRethrown(
    apiKey: Option<string>, qp: seq<string>, key: seq<string>, student: seq<string>,
    generate: seq<Part> -> ModelReply, decode: string -> Result<EvaluationReport, string>, m: string)
    requires KeyUsable(apiKey)
    requires generate(RequestParts(qp, key, student)) == CallFailed(m)
    ensures EvaluationOutcome(apiKey, qp, key, student, generate, decode) == Failure(Upstream(m))
  {
  }

  /** Conversely, with a usable key and a non-empty reply text, a text that
      decodes gives that report reconciled, and a text the decoder rejects
      gives the malformed-response error carrying the decoder's detail. */
  lemma NonEmptyReplyOutcome(
    apiKey: Option<string>, qp: seq<string>, key: seq<string>, student: seq<string>,
    generate: seq<Part> -> ModelReply, decode: string -> Result<EvaluationReport, string>)
    requires KeyUsable(apiKey)
    requires var reply := generate(RequestParts(qp, key, student));
      reply.Replied? && reply.text.Some? && reply.text.value != ""
    ensures var text := generate(RequestParts(qp, key, student)).text.value;
      var outcome := EvaluationOutcome(apiKey, qp, key, student, generate, decode);
      && (decode(text).Success? ==> outcome == Success(Reconcile(decode(text).value)))
      && (decode(text).Failure? ==> outcome == Failure(Malformed(decode(text).error)))
  {
  }
}
