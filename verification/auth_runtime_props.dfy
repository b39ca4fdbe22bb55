/** Properties of one processMessage call that relate its collaborator calls to
    the settled outcomes: phase order, cleanup exactly once, and when the error
    converter is used. */
module AuthRuntimeProperties {
  import opened Wrappers
  import opened AuthTypes
  import opened AuthRuntime
  import ModuleAdapter

  /** Number of calls to the error converter. */
  function ErrorConversions(calls: seq<Call>): nat
  {
    if |calls| == 0 then 0 else (if calls[0].HandleError? then 1 else 0) + ErrorConversions(calls[1..])
  }

  lemma {:induction false} ErrorConversionsAppend(a: seq<Call>, b: seq<Call>)
    ensures ErrorConversions(a + b) == ErrorConversions(a) + ErrorConversions(b)
  {
    if |a| == 0 {
      assert a + b == b;
    } else {
      assert (a + b)[1..] == a[1..] + b;
      ErrorConversionsAppend(a[1..], b);
    }
  }

  /** The calls made before cleanSubject, as a function of the validate and secure outcomes. */
  lemma CallsBeforeCleanup(outer: Attributes, requestId: string, s: Scenario, handleError: AuthException -> Response)
    returns (before: seq<Call>)
    ensures ProcessMessage(outer, requestId, s, handleError).calls == before + [CleanSubject] + CleanLog(s.clean)
    ensures |before| >= 1 && before[0] == ValidateRequest
    ensures ValidatedSuccess(s) ==> |before| >= 3 && before[1] == NextHandler && before[2] == SecureResponse
    ensures ValidatedSuccess(s) ==> before == [ValidateRequest, NextHandler, SecureResponse] + SecurePhase(s.secure, s.next, handleError).1
    ensures !ValidatedSuccess(s) && Converted(s) ==> before == [ValidateRequest, HandleError(ConvertedError(s))]
    ensures !ValidatedSuccess(s) && !Converted(s) ==> before == [ValidateRequest]
  {
    var r := ProcessMessage(outer, requestId, s, handleError);
    match s.validate
    case Rejected(e) =>
      before := [ValidateRequest, HandleError(e)];
    case Resolved(Some(Success)) =>
      before := [ValidateRequest, NextHandler, SecureResponse] + SecurePhase(s.secure, s.next, handleError).1;
    case Resolved(Some(SendSuccess)) =>
      before := [ValidateRequest];
    case Resolved(Some(SendContinue)) =>
      before := [ValidateRequest];
    case Resolved(Some(SendFailure)) =>
      before := [ValidateRequest];
    case Resolved(st) =>
      before := [ValidateRequest, HandleError(InvalidValidateStatus(st))];
  }

  /** A call sequence of the shape every request produces: validation first, no
      second validation or cleanup before cleanSubject, only logging after it. */
  lemma {:induction false} CleanupShape(before: seq<Call>, log: seq<Call>)
    requires |before| >= 1 && before[0] == ValidateRequest
    requires ValidateRequest !in before[1..] && CleanSubject !in before
    requires forall j :: 0 <= j < |log| ==> log[j].LogCleanFailure?
    ensures var calls := before + [CleanSubject] + log;
      && calls[0] == ValidateRequest
      && Count(calls, ValidateRequest) == 1
      && Count(calls, CleanSubject) == 1
      && calls[|before|] == CleanSubject
      && forall j :: |before| < j < |calls| ==> calls[j].LogCleanFailure?
  {
    var calls := before + [CleanSubject] + log;
    CountAppend(before + [CleanSubject], log, CleanSubject);
    CountAppend(before, [CleanSubject], CleanSubject);
    CountAppend(before + [CleanSubject], log, ValidateRequest);
    CountAppend(before, [CleanSubject], ValidateRequest);
    assert before == [ValidateRequest] + before[1..];
    CountAppend([ValidateRequest], before[1..], ValidateRequest);
    CountAbsent(before, CleanSubject);
    CountAbsent(before[1..], ValidateRequest);
    assert CleanSubject !in log && ValidateRequest !in log;
    CountAbsent(log, CleanSubject);
    CountAbsent(log, ValidateRequest);
    forall j | |before| < j < |calls|
      ensures calls[j].LogCleanFailure?
    {
      assert calls[j] == log[j - |before| - 1];
    }
  }

  /** validateRequest is the first call and is made exactly once; cleanSubject is
      made exactly once, after every other call except the logging of its own failure. */
  lemma {:induction false} ValidateFirstCleanupOnceLast(outer: Attributes, requestId: string, s: Scenario,
                                                         handleError: AuthException -> Response)
    ensures var calls := ProcessMessage(outer, requestId, s, handleError).calls;
      && calls[0] == ValidateRequest
      && Count(calls, ValidateRequest) == 1
      && Count(calls, CleanSubject) == 1
      && exists i :: 0 <= i < |calls| && calls[i] == CleanSubject
                     && forall j :: i < j < |calls| ==> calls[j].LogCleanFailure?
  {
    var before := CallsBeforeCleanup(outer, requestId, s, handleError);
    CleanupShape(before, CleanLog(s.clean));
    var calls := before + [CleanSubject] + CleanLog(s.clean);
    assert calls[|before|] == CleanSubject;
  }

  /** The next handler and secureResponse are called exactly when validation
      returned SUCCESS, each at most once, the handler before securing. */
  lemma {:induction false} DispatchAndSecureIffSuccess(outer: Attributes, requestId: string, s: Scenario,
                                                       handleError: AuthException -> Response)
    ensures var calls := ProcessMessage(outer, requestId, s, handleError).calls;
      && Count(calls, NextHandler) == (if ValidatedSuccess(s) then 1 else 0)
      && Count(calls, SecureResponse) == (if ValidatedSuccess(s) then 1 else 0)
      && (ValidatedSuccess(s) ==> calls[1] == NextHandler && calls[2] == SecureResponse)
  {
    var before := CallsBeforeCleanup(outer, requestId, s, handleError);
    PhaseCallCount(outer, requestId, s, handleError, before, NextHandler);
    PhaseCallCount(outer, requestId, s, handleError, before, SecureResponse);
  }

  /** How often one of the two phase calls occurs in a request's call log. */
  lemma PhaseCallCount(outer: Attributes, requestId: string, s: Scenario,
                       handleError: AuthException -> Response, before: seq<Call>, c: Call)
    requires c == NextHandler || c == SecureResponse
    requires ProcessMessage(outer, requestId, s, handleError).calls == before + [CleanSubject] + CleanLog(s.clean)
    requires ValidatedSuccess(s) ==> before == [ValidateRequest, NextHandler, SecureResponse] + SecurePhase(s.secure, s.next, handleError).1
    requires !ValidatedSuccess(s) ==> forall j :: 0 <= j < |before| ==> before[j].ValidateRequest? || before[j].HandleError?
    ensures Count(ProcessMessage(outer, requestId, s, handleError).calls, c) == (if ValidatedSuccess(s) then 1 else 0)
  {
    var log := CleanLog(s.clean);
    CountAppend(before + [CleanSubject], log, c);
    CountAppend(before, [CleanSubject], c);
    CountAbsent(log, c);
    CountAbsent([CleanSubject], c);
    if ValidatedSuccess(s) {
      var tail := SecurePhase(s.secure, s.next, handleError).1;
      CountAbsent(tail, c);
      CountAppend([ValidateRequest, NextHandler, SecureResponse], tail, c);
      ThreePhaseCount(c);
    } else {
      CountAbsent(before, c);
    }
  }

  lemma ThreePhaseCount(c: Call)
    requires c == NextHandler || c == SecureResponse
    ensures Count([ValidateRequest, NextHandler, SecureResponse], c) == 1
  {
    var three := [ValidateRequest, NextHandler, SecureResponse];
    assert three[1..] == [NextHandler, SecureResponse];
    assert three[1..][1..] == [SecureResponse];
    assert three[1..][1..][1..] == [];
  }

  /** The error converter is called exactly when the request takes a converted
      path, then exactly once and with the exception that path produced. */
  lemma {:induction false} ErrorConverterIffConverted(outer: Attributes, requestId: string, s: Scenario,
                                                      handleError: AuthException -> Response)
    ensures var calls := ProcessMessage(outer, requestId, s, handleError).calls;
      && ErrorConversions(calls) == (if Converted(s) then 1 else 0)
      && (Converted(s) ==> HandleError(ConvertedError(s)) in calls)
  {
    var calls := ProcessMessage(outer, requestId, s, handleError).calls;
    var before := CallsBeforeCleanup(outer, requestId, s, handleError);
    var log := CleanLog(s.clean);
    BeforeConversions(s, handleError, before);
    ErrorConversionsAppend(before + [CleanSubject], log);
    ErrorConversionsAppend(before, [CleanSubject]);
    assert ErrorConversions(log) == 0 by {
      if |log| > 0 {
        assert log[1..] == [];
      }
    }
    assert ErrorConversions([CleanSubject]) == 0 by {
      assert [CleanSubject][1..] == [];
    }
    if Converted(s) {
      assert calls[|before| - 1] == before[|before| - 1];
    }
  }

  /** The error-converter calls before cleanSubject, case by case. */
  lemma BeforeConversions(s: Scenario, handleError: AuthException -> Response, before: seq<Call>)
    requires ValidatedSuccess(s) ==> before == [ValidateRequest, NextHandler, SecureResponse] + SecurePhase(s.secure, s.next, handleError).1
    requires !ValidatedSuccess(s) && Converted(s) ==> before == [ValidateRequest, HandleError(ConvertedError(s))]
    requires !ValidatedSuccess(s) && !Converted(s) ==> before == [ValidateRequest]
    ensures ErrorConversions(before) == (if Converted(s) then 1 else 0)
    ensures Converted(s) ==> |before| >= 2 && before[|before| - 1] == HandleError(ConvertedError(s))
  {
    if ValidatedSuccess(s) {
      SecureTailConversions(s, handleError);
    } else if Converted(s) {
      ValidationConversions(ConvertedError(s));
    } else {
      ValidationConversions(Raised(""));
    }
  }

  /** The calls before cleanup on the SUCCESS path hold the converter call that
      securing needed, if any, as their last call. */
  lemma SecureTailConversions(s: Scenario, handleError: AuthException -> Response)
    requires ValidatedSuccess(s)
    ensures var before := [ValidateRequest, NextHandler, SecureResponse] + SecurePhase(s.secure, s.next, handleError).1;
      && ErrorConversions(before) == (if Converted(s) then 1 else 0)
      && (Converted(s) ==> |before| >= 2 && before[|before| - 1] == HandleError(ConvertedError(s)))
  {
    var tail := SecurePhase(s.secure, s.next, handleError).1;
    ErrorConversionsAppend([ValidateRequest, NextHandler, SecureResponse], tail);
    assert [ValidateRequest, NextHandler, SecureResponse][1..] == [NextHandler, SecureResponse];
    assert [NextHandler, SecureResponse][1..] == [SecureResponse];
    assert [SecureResponse][1..] == [];
    if |tail| > 0 {
      assert tail[1..] == [];
    }
  }

  /** Validation alone calls no converter; validation and one conversion call it once. */
  lemma ValidationConversions(e: AuthException)
    ensures ErrorConversions([ValidateRequest]) == 0
    ensures ErrorConversions([ValidateRequest, HandleError(e)]) == 1
  {
    assert [ValidateRequest][1..] == [];
    assert [ValidateRequest, HandleError(e)][1..] == [HandleError(e)];
    assert [HandleError(e)][1..] == [];
  }

  /** A failing cleanSubject is only logged: response and attributes are those of a clean run. */
  lemma CleanupFailureIsSwallowed(outer: Attributes, requestId: string, s: Scenario, e: AuthException,
                                  handleError: AuthException -> Response)
    requires s.clean == Cleaned
    ensures var ok := ProcessMessage(outer, requestId, s, handleError);
            var failed := ProcessMessage(outer, requestId, s.(clean := CleanRejected(e)), handleError);
      && failed.response == ok.response
      && failed.attributes == ok.attributes
      && failed.calls == ok.calls + [LogCleanFailure(e)]
  {
  }

  /** Validation SUCCESS and securing SEND_SUCCESS: the resource's response is
      returned, all three identity keys are published (the principal one even when
      no principal was resolved), and each chain operation runs once. */
  lemma SuccessfulRequestReturnsResourceResponse(outer: Attributes, requestId: string, s: Scenario,
                                                 handleError: AuthException -> Response)
    requires s.validate == Resolved(Some(Success)) && s.secure == Resolved(Some(SendSuccess))
    ensures var r := ProcessMessage(outer, requestId, s, handleError);
      && r.response == s.next
      && RequestIdKey in r.attributes && AuthPrincipalKey in r.attributes && AuthContextKey in r.attributes
      && Count(r.calls, ValidateRequest) == 1
      && Count(r.calls, SecureResponse) == 1
      && Count(r.calls, CleanSubject) == 1
      && ErrorConversions(r.calls) == 0
  {
    ValidateFirstCleanupOnceLast(outer, requestId, s, handleError);
    DispatchAndSecureIffSuccess(outer, requestId, s, handleError);
    ErrorConverterIffConverted(outer, requestId, s, handleError);
  }

  /** Validation SEND_FAILURE: 401, the resource and secureResponse are never
      reached, cleanSubject runs once. */
  lemma ValidationFailureIsUnauthorized(outer: Attributes, requestId: string, s: Scenario,
                                        handleError: AuthException -> Response)
    requires s.validate == Resolved(Some(SendFailure))
    ensures var r := ProcessMessage(outer, requestId, s, handleError);
      && r.response.status == UNAUTHORIZED
      && Count(r.calls, NextHandler) == 0
      && Count(r.calls, SecureResponse) == 0
      && Count(r.calls, CleanSubject) == 1
  {
    ValidateFirstCleanupOnceLast(outer, requestId, s, handleError);
    DispatchAndSecureIffSuccess(outer, requestId, s, handleError);
  }

  /** Validation SEND_SUCCESS or SEND_CONTINUE with the message context's response
      left alone: a successful 200, no resource call, no securing, one cleanup. */
  lemma ValidationAnsweredStopsProcessing(outer: Attributes, requestId: string, s: Scenario,
                                          handleError: AuthException -> Response)
    requires s.validate in {Resolved(Some(SendSuccess)), Resolved(Some(SendContinue))}
    requires s.effects.contextResponse.None?
    ensures var r := ProcessMessage(outer, requestId, s, handleError);
      && r.response.status == OK
      && Count(r.calls, NextHandler) == 0
      && Count(r.calls, SecureResponse) == 0
      && Count(r.calls, CleanSubject) == 1
      && ErrorConversions(r.calls) == 0
  {
    ValidateFirstCleanupOnceLast(outer, requestId, s, handleError);
    DispatchAndSecureIffSuccess(outer, requestId, s, handleError);
    ErrorConverterIffConverted(outer, requestId, s, handleError);
  }

  /** Validation FAILURE, null, or a rejected outcome: the error converter gets an
      exception, the resource and secureResponse are never reached, one cleanup. A
      rejected outcome's own exception is the one converted. */
  lemma InvalidValidationIsConverted(outer: Attributes, requestId: string, s: Scenario,
                                     handleError: AuthException -> Response)
    requires s.validate.Rejected? || s.validate in {Resolved(None), Resolved(Some(Failure))}
    ensures var r := ProcessMessage(outer, requestId, s, handleError);
      && ErrorConversions(r.calls) == 1
      && (exists e :: HandleError(e) in r.calls && r.response == handleError(e))
      && (s.validate.Rejected? ==> r.response == handleError(s.validate.error))
      && Count(r.calls, NextHandler) == 0
      && Count(r.calls, SecureResponse) == 0
      && Count(r.calls, CleanSubject) == 1
  {
    ValidateFirstCleanupOnceLast(outer, requestId, s, handleError);
    DispatchAndSecureIffSuccess(outer, requestId, s, handleError);
    ErrorConverterIffConverted(outer, requestId, s, handleError);
  }

  /** Validation SUCCESS, then securing SEND_FAILURE gives 500 whatever the resource
      answered, and SEND_CONTINUE gives the resource's response; validate, secure
      and clean each run once. */
  lemma SecureOutcomeDecidesResponse(outer: Attributes, requestId: string, s: Scenario,
                                     handleError: AuthException -> Response)
    requires s.validate == Resolved(Some(Success))
    requires s.secure in {Resolved(Some(SendFailure)), Resolved(Some(SendContinue))}
    ensures var r := ProcessMessage(outer, requestId, s, handleError);
      && (s.secure == Resolved(Some(SendFailure)) ==> r.response.status == INTERNAL_SERVER_ERROR)
      && (s.secure == Resolved(Some(SendContinue)) ==> r.response == s.next)
      && Count(r.calls, ValidateRequest) == 1
      && Count(r.calls, SecureResponse) == 1
      && Count(r.calls, CleanSubject) == 1
  {
    ValidateFirstCleanupOnceLast(outer, requestId, s, handleError);
    DispatchAndSecureIffSuccess(outer, requestId, s, handleError);
  }

  /** Validation SUCCESS, then securing SUCCESS, FAILURE, null or a rejected
      outcome: the error converter decides the response and cleanup still runs once. */
  lemma InvalidSecureIsConverted(outer: Attributes, requestId: string, s: Scenario,
                                 handleError: AuthException -> Response)
    requires s.validate == Resolved(Some(Success))
    requires s.secure.Rejected? || s.secure in {Resolved(None), Resolved(Some(Success)), Resolved(Some(Failure))}
    ensures var r := ProcessMessage(outer, requestId, s, handleError);
      && ErrorConversions(r.calls) == 1
      && (exists e :: HandleError(e) in r.calls && r.response == handleError(e))
      && Count(r.calls, SecureResponse) == 1
      && Count(r.calls, CleanSubject) == 1
  {
    ValidateFirstCleanupOnceLast(outer, requestId, s, handleError);
    DispatchAndSecureIffSuccess(outer, requestId, s, handleError);
    ErrorConverterIffConverted(outer, requestId, s, handleError);
  }

  // ---------------------------------------------------------------------------
  // A legacy module behind the adapter
  // ---------------------------------------------------------------------------

  /** A legacy module whose validateRequest throws `e`: the adapter's rejected
      outcome reaches the error converter with `e`, which decides the response;
      the resource and securing are skipped and cleanup runs once. */
  lemma LegacyValidateThrowIsConverted(outer: Attributes, requestId: string, s: Scenario, e: AuthException,
                                       handleError: AuthException -> Response)
    requires s.validate == ModuleAdapter.AdaptOutcome(ModuleAdapter.Threw(e))
    ensures var r := ProcessMessage(outer, requestId, s, handleError);
      && r.response == handleError(e)
      && HandleError(e) in r.calls
      && ErrorConversions(r.calls) == 1
      && Count(r.calls, NextHandler) == 0
      && Count(r.calls, SecureResponse) == 0
      && Count(r.calls, CleanSubject) == 1
  {
    InvalidValidationIsConverted(outer, requestId, s, handleError);
    ErrorConverterIffConverted(outer, requestId, s, handleError);
  }

  /** A legacy module that returns SUCCESS from validateRequest and throws `e`
      from secureResponse: `e` is converted after the resource has answered. */
  lemma LegacySecureThrowIsConverted(outer: Attributes, requestId: string, s: Scenario, e: AuthException,
                                     handleError: AuthException -> Response)
    requires s.validate == ModuleAdapter.AdaptOutcome(ModuleAdapter.Returned(Some(Success)))
    requires s.secure == ModuleAdapter.AdaptOutcome(ModuleAdapter.Threw(e))
    ensures var r := ProcessMessage(outer, requestId, s, handleError);
      && r.response == handleError(e)
      && HandleError(e) in r.calls
      && ErrorConversions(r.calls) == 1
      && Count(r.calls, NextHandler) == 1
      && Count(r.calls, CleanSubject) == 1
  {
    InvalidSecureIsConverted(outer, requestId, s, handleError);
    ErrorConverterIffConverted(outer, requestId, s, handleError);
    DispatchAndSecureIffSuccess(outer, requestId, s, handleError);
  }

  /** A legacy module whose cleanSubject throws changes nothing but the log:
      response and attributes are those of a cleanup that returned. */
  lemma LegacyCleanupThrowIsSwallowed(outer: Attributes, requestId: string, s: Scenario, e: AuthException,
                                      handleError: AuthException -> Response)
    requires s.clean == ModuleAdapter.AdaptCleanOutcome(ModuleAdapter.CleanReturned)
    ensures var ok := ProcessMessage(outer, requestId, s, handleError);
            var failed := ProcessMessage(outer, requestId,
                                         s.(clean := ModuleAdapter.AdaptCleanOutcome(ModuleAdapter.CleanThrew(e))), handleError);
      && failed.response == ok.response
      && failed.attributes == ok.attributes
      && failed.calls == ok.calls + [LogCleanFailure(e)]
  {
    CleanupFailureIsSwallowed(outer, requestId, s, e, handleError);
  }
}
