/** Values exchanged between the authentication runtime, the module chain and the
    surrounding HTTP chain: statuses, settled module outcomes, responses, the
    per-request message context's observable parts and the outer attribute store. */
module AuthTypes {
  import opened Wrappers

  /** The outcome code of a validate or secure phase (JASPI `AuthStatus`). A null
      status is modelled as `None` wherever a status is returned. */
  datatype AuthStatus = Success | SendSuccess | SendContinue | SendFailure | Failure

  /** An `AuthenticationException`: either one a module raised, or one the runtime
      generates itself when a phase settles with a status it cannot act on. */
  datatype AuthException =
    | Raised(message: string)
    | InvalidValidateStatus(validateStatus: Option<AuthStatus>)
    | InvalidSecureStatus(secureStatus: Option<AuthStatus>)

  /** An already-settled asynchronous outcome of validateRequest or secureResponse. */
  datatype StatusOutcome = Resolved(status: Option<AuthStatus>) | Rejected(error: AuthException)

  /** An already-settled outcome of cleanSubject. */
  datatype CleanOutcome = Cleaned | CleanRejected(error: AuthException)

  const OK: int := 200
  const BAD_REQUEST: int := 400
  const UNAUTHORIZED: int := 401
  const INTERNAL_SERVER_ERROR: int := 500

  /** An HTTP response reduced to its status code and an opaque entity token. */
  datatype Response = Response(status: int, entity: nat)

  const NoEntity: nat := 0

  /** The message context's response before any module writes to it. */
  const DefaultResponse := Response(OK, NoEntity)
  const UnauthorizedResponse := Response(UNAUTHORIZED, NoEntity)
  const ServerErrorResponse := Response(INTERNAL_SERVER_ERROR, NoEntity)

  /** Keys of the outer attribute store shared with downstream handlers. */
  datatype AttributeKey = RequestIdKey | AuthPrincipalKey | AuthContextKey | OtherKey(name: string)

  /** Values stored under those keys; `PrincipalName(None)` is a key mapped to null. */
  datatype AttributeValue =
    | RequestId(id: string)
    | PrincipalName(name: Option<string>)
    | ModuleChainRef
    | OpaqueValue(token: nat)

  type Attributes = map<AttributeKey, AttributeValue>

  /** What the module chain leaves behind while validating: a principal name put
      into the message context's request map, the principals added to the fresh
      client subject (in iteration order), and the response it wrote, if any. */
  datatype ValidationEffects = ValidationEffects(
    contextPrincipal: Option<string>,
    subjectPrincipals: seq<string>,
    contextResponse: Option<Response>)

  /** The principal name propagated after a successful validation: the one a module
      put into the message context, else the first principal of the client subject. */
  function ResolvePrincipal(e: ValidationEffects): (p: Option<string>)
    ensures p.None? <==> e.contextPrincipal.None? && |e.subjectPrincipals| == 0
    ensures p.Some? ==> p == e.contextPrincipal || p.value in e.subjectPrincipals
    ensures e.contextPrincipal.Some? ==> p == e.contextPrincipal
    ensures e.contextPrincipal.None? && |e.subjectPrincipals| > 0 ==> p == Some(e.subjectPrincipals[0])
  {
    if e.contextPrincipal.Some? then e.contextPrincipal
    else if |e.subjectPrincipals| > 0 then Some(e.subjectPrincipals[0])
    else None
  }

  /** The response the message context holds after validation. */
  function ContextResponse(e: ValidationEffects): (r: Response)
    ensures e.contextResponse.None? ==> r.status == OK
    ensures e.contextResponse.Some? ==> r == e.contextResponse.value
  {
    if e.contextResponse.Some? then e.contextResponse.value else DefaultResponse
  }
}
