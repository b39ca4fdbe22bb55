/** The per-request authentication runtime (`AuthenticationFramework.processMessage`).
    Every asynchronous module outcome is an already-settled value, so one request is
    a pure function from those outcomes to the final response, the sequence of
    collaborator calls and the outer attribute store. */
module AuthRuntime {
  import opened Wrappers
  import opened AuthTypes

  /** A call the runtime makes on a collaborator, in the order it makes it. */
  datatype Call =
    | ValidateRequest
    | NextHandler
    | SecureResponse
    | CleanSubject
    | HandleError(error: AuthException)
    | LogCleanFailure(error: AuthException)

  /** The settled outcomes the collaborators produce for one request. `next` is what
      the next handler answers; it is only consulted when validation succeeds. */
  datatype Scenario = Scenario(
    validate: StatusOutcome,
    effects: ValidationEffects,
    next: Response,
    secure: StatusOutcome,
    clean: CleanOutcome)

  /** What one call of processMessage produces. */
  datatype Processed = Processed(response: Response, calls: seq<Call>, attributes: Attributes)

  /** Validation let the request through to the protected resource. */
  predicate ValidatedSuccess(s: Scenario) {
    s.validate == Resolved(Some(Success))
  }

  /** Validation answered the client itself (the module wrote the response). */
  predicate ValidationAnswered(s: Scenario) {
    s.validate == Resolved(Some(SendSuccess)) || s.validate == Resolved(Some(SendContinue))
  }

  /** secureResponse accepted the downstream response as it is. */
  predicate SecureAccepted(s: Scenario) {
    s.secure == Resolved(Some(SendSuccess)) || s.secure == Resolved(Some(SendContinue))
  }

  /** The request ends in the error converter: validation failed or returned a
      status other than SUCCESS, SEND_SUCCESS, SEND_CONTINUE and SEND_FAILURE, or
      validation succeeded and securing failed or returned a status other than
      SEND_SUCCESS, SEND_CONTINUE and SEND_FAILURE. */
  predicate Converted(s: Scenario) {
    || s.validate.Rejected?
    || s.validate in {Resolved(None), Resolved(Some(Failure))}
    || (ValidatedSuccess(s)
        && (s.secure.Rejected? || s.secure in {Resolved(None), Resolved(Some(Success)), Resolved(Some(Failure))}))
  }

  /** The exception handed to the error converter on a converted path. */
  function ConvertedError(s: Scenario): AuthException
    requires Converted(s)
  {
    if s.validate.Rejected? then s.validate.error
    else if !ValidatedSuccess(s) then InvalidValidateStatus(s.validate.status)
    else if s.secure.Rejected? then s.secure.error
    else InvalidSecureStatus(s.secure.status)
  }

  /** Securing the next handler's response `candidate`; yields the decided response
      and the error-converter call it needed, if any. */
  function SecurePhase(secure: StatusOutcome, candidate: Response, handleError: AuthException -> Response)
    : (Response, seq<Call>)
  {
    match secure
    case Rejected(e) => (handleError(e), [HandleError(e)])
    case Resolved(Some(SendFailure)) => (ServerErrorResponse, [])
    case Resolved(Some(SendSuccess)) => (candidate, [])
    case Resolved(Some(SendContinue)) => (candidate, [])
    case Resolved(st) => (handleError(InvalidSecureStatus(st)), [HandleError(InvalidSecureStatus(st))])
  }

  /** The logging call that a failed cleanSubject causes; a failure never reaches the response. */
  function CleanLog(clean: CleanOutcome): seq<Call>
  {
    if clean.CleanRejected? then [LogCleanFailure(clean.error)] else []
  }

  /** The outer attributes once validation has succeeded: the resolved principal
      (null when there is none) and a reference to the module chain. */
  function PropagateIdentity(attrs: Attributes, effects: ValidationEffects): Attributes
  {
    attrs[AuthPrincipalKey := PrincipalName(ResolvePrincipal(effects))][AuthContextKey := ModuleChainRef]
  }

  /** One request through validate, then (on SUCCESS) the next handler and
      secureResponse, then cleanSubject on every path. The result is always a
      response: every failure is converted before it leaves the runtime. */
  function ProcessMessage(outer: Attributes, requestId: string, s: Scenario, handleError: AuthException -> Response)
    : (r: Processed)
    // The request identifier is published on every path; other keys are left alone.
    ensures RequestIdKey in r.attributes && r.attributes[RequestIdKey] == RequestId(requestId)
    ensures forall k: AttributeKey :: k.OtherKey? ==> (k in r.attributes <==> k in outer)
    ensures forall k: AttributeKey :: k.OtherKey? && k in outer ==> k in r.attributes && r.attributes[k] == outer[k]
    // Identity is published when validation succeeded, even without a principal;
    // on every other path nothing but the request identifier is written.
    ensures ValidatedSuccess(s) ==> && AuthPrincipalKey in r.attributes
                                    && r.attributes[AuthPrincipalKey] == PrincipalName(ResolvePrincipal(s.effects))
                                    && AuthContextKey in r.attributes
                                    && r.attributes[AuthContextKey] == ModuleChainRef
    ensures !ValidatedSuccess(s) ==>
              forall k: AttributeKey :: k != RequestIdKey ==>
                (k in r.attributes <==> k in outer) && (k in outer ==> r.attributes[k] == outer[k])
    // The status-to-response mapping.
    ensures s.validate == Resolved(Some(SendFailure)) ==> r.response.status == UNAUTHORIZED
    ensures ValidationAnswered(s) ==> r.response == ContextResponse(s.effects)
    ensures ValidatedSuccess(s) && SecureAccepted(s) ==> r.response == s.next
    ensures ValidatedSuccess(s) && s.secure == Resolved(Some(SendFailure)) ==> r.response.status == INTERNAL_SERVER_ERROR
    ensures Converted(s) ==> r.response == handleError(ConvertedError(s))
  {
    var attrs := outer[RequestIdKey := RequestId(requestId)];
    var (response, calls, attributes) :=
      match s.validate
      case Rejected(e) =>
        (handleError(e), [ValidateRequest, HandleError(e)], attrs)
      case Resolved(Some(Success)) =>
        var (secured, secureCalls) := SecurePhase(s.secure, s.next, handleError);
        (secured, [ValidateRequest, NextHandler, SecureResponse] + secureCalls, PropagateIdentity(attrs, s.effects))
      case Resolved(Some(SendSuccess)) =>
        (ContextResponse(s.effects), [ValidateRequest], attrs)
      case Resolved(Some(SendContinue)) =>
        (ContextResponse(s.effects), [ValidateRequest], attrs)
      case Resolved(Some(SendFailure)) =>
        (UnauthorizedResponse, [ValidateRequest], attrs)
      case Resolved(st) =>
        (handleError(InvalidValidateStatus(st)), [ValidateRequest, HandleError(InvalidValidateStatus(st))], attrs);
    Processed(response, calls + [CleanSubject] + CleanLog(s.clean), attributes)
  }
}
