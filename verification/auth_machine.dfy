/** An independent, small-step description of one request: the runtime's states
    START, VALIDATING, DISPATCH, SECURING, SHORT_CIRCUIT, ERROR, then cleanup just
    before DONE. Each step performs at most one phase. The lemma at the end shows
    that running the machine to completion yields exactly what `ProcessMessage`
    computes in one go. */
module AuthMachine {
  import opened Wrappers
  import opened AuthTypes
  import opened AuthRuntime

  datatype State =
    | Start
    | Validating
    | Dispatching
    | Securing(candidate: Response)
    | ShortCircuit(decided: Response)
    | Errored(error: AuthException)
    | Cleaning(decided: Response)
    | Done(response: Response)

  datatype Machine = Machine(state: State, calls: seq<Call>, attributes: Attributes)

  /** How far along a request is; every step that is not at DONE strictly increases it. */
  function Rank(st: State): nat
  {
    match st
    case Start => 0
    case Validating => 1
    case Dispatching => 2
    case Securing(_) => 3
    case ShortCircuit(_) => 4
    case Errored(_) => 5
    case Cleaning(_) => 6
    case Done(_) => 7
  }

  /** One transition. */
  function Step(m: Machine, requestId: string, s: Scenario, handleError: AuthException -> Response): (m': Machine)
    ensures m.state.Done? ==> m' == m
    ensures !m.state.Done? ==> Rank(m'.state) > Rank(m.state)
  {
    match m.state
    case Start =>
      m.(state := Validating, attributes := m.attributes[RequestIdKey := RequestId(requestId)])
    case Validating =>
      var calls := m.calls + [ValidateRequest];
      (match s.validate
       case Rejected(e) => Machine(Errored(e), calls, m.attributes)
       case Resolved(Some(Success)) => Machine(Dispatching, calls, PropagateIdentity(m.attributes, s.effects))
       case Resolved(Some(SendSuccess)) => Machine(ShortCircuit(ContextResponse(s.effects)), calls, m.attributes)
       case Resolved(Some(SendContinue)) => Machine(ShortCircuit(ContextResponse(s.effects)), calls, m.attributes)
       case Resolved(Some(SendFailure)) => Machine(ShortCircuit(UnauthorizedResponse), calls, m.attributes)
       case Resolved(st) => Machine(Errored(InvalidValidateStatus(st)), calls, m.attributes))
    case Dispatching =>
      Machine(Securing(s.next), m.calls + [NextHandler], m.attributes)
    case Securing(candidate) =>
      var calls := m.calls + [SecureResponse];
      (match s.secure
       case Rejected(e) => Machine(Errored(e), calls, m.attributes)
       case Resolved(Some(SendFailure)) => Machine(Cleaning(ServerErrorResponse), calls, m.attributes)
       case Resolved(Some(SendSuccess)) => Machine(Cleaning(candidate), calls, m.attributes)
       case Resolved(Some(SendContinue)) => Machine(Cleaning(candidate), calls, m.attributes)
       case Resolved(st) => Machine(Errored(InvalidSecureStatus(st)), calls, m.attributes))
    case ShortCircuit(decided) =>
      m.(state := Cleaning(decided))
    case Errored(e) =>
      Machine(Cleaning(handleError(e)), m.calls + [HandleError(e)], m.attributes)
    case Cleaning(decided) =>
      Machine(Done(decided), m.calls + [CleanSubject] + CleanLog(s.clean), m.attributes)
    case Done(_) =>
      m
  }

  /** A step only ever appends to the call log. */
  lemma StepOnlyAppends(m: Machine, requestId: string, s: Scenario, handleError: AuthException -> Response)
    ensures var m' := Step(m, requestId, s, handleError);
      |m'.calls| >= |m.calls| && m'.calls[..|m.calls|] == m.calls
  {
  }

  /** At most `fuel` transitions, stopping at DONE. */
  function Run(m: Machine, fuel: nat, requestId: string, s: Scenario, handleError: AuthException -> Response): Machine
    decreases fuel
  {
    if fuel == 0 || m.state.Done? then m else Run(Step(m, requestId, s, handleError), fuel - 1, requestId, s, handleError)
  }

  function Initial(outer: Attributes): Machine
  {
    Machine(Start, [], outer)
  }

  /** Seven transitions from START always reach DONE, and the machine then agrees
      with `ProcessMessage` on the response, the call sequence and the attributes. */
  lemma {:induction false} MachineAgreesWithProcessMessage(outer: Attributes, requestId: string, s: Scenario,
                                                           handleError: AuthException -> Response)
    ensures var final := Run(Initial(outer), 7, requestId, s, handleError);
            var r := ProcessMessage(outer, requestId, s, handleError);
      && final.state == Done(r.response)
      && final.calls == r.calls
      && final.attributes == r.attributes
  {
    var m0 := Initial(outer);
    RunSteps(m0, 7, requestId, s, handleError);
    FromValidating(outer, 6, requestId, s, handleError);
  }

  /** The tail of a run: cleanup, then DONE with the decided response. */
  function Finished(m: Machine, calls: seq<Call>, decided: Response, s: Scenario): Machine
  {
    Machine(Done(decided), m.calls + calls + [CleanSubject] + CleanLog(s.clean), m.attributes)
  }

  lemma FromCleaning(m: Machine, fuel: nat, requestId: string, s: Scenario, handleError: AuthException -> Response)
    requires m.state.Cleaning? && fuel >= 1
    ensures Run(m, fuel, requestId, s, handleError) == Finished(m, [], m.state.decided, s)
  {
    RunSteps(m, fuel, requestId, s, handleError);
    var m' := Step(m, requestId, s, handleError);
    assert m' == Finished(m, [], m.state.decided, s);
    DoneIsFinal(m', fuel - 1, requestId, s, handleError);
  }

  lemma FromErrored(m: Machine, fuel: nat, requestId: string, s: Scenario, handleError: AuthException -> Response)
    requires m.state.Errored? && fuel >= 2
    ensures Run(m, fuel, requestId, s, handleError)
         == Finished(m, [HandleError(m.state.error)], handleError(m.state.error), s)
  {
    RunSteps(m, fuel, requestId, s, handleError);
    var m' := Step(m, requestId, s, handleError);
    FromCleaning(m', fuel - 1, requestId, s, handleError);
  }

  lemma FromShortCircuit(m: Machine, fuel: nat, requestId: string, s: Scenario, handleError: AuthException -> Response)
    requires m.state.ShortCircuit? && fuel >= 2
    ensures Run(m, fuel, requestId, s, handleError) == Finished(m, [], m.state.decided, s)
  {
    RunSteps(m, fuel, requestId, s, handleError);
    var m' := Step(m, requestId, s, handleError);
    FromCleaning(m', fuel - 1, requestId, s, handleError);
  }

  lemma FromSecuring(m: Machine, fuel: nat, requestId: string, s: Scenario, handleError: AuthException -> Response)
    requires m.state.Securing? && fuel >= 3
    ensures var (decided, calls) := SecurePhase(s.secure, m.state.candidate, handleError);
      Run(m, fuel, requestId, s, handleError) == Finished(m, [SecureResponse] + calls, decided, s)
  {
    RunSteps(m, fuel, requestId, s, handleError);
    var m' := Step(m, requestId, s, handleError);
    if m'.state.Errored? {
      FromErrored(m', fuel - 1, requestId, s, handleError);
    } else {
      FromCleaning(m', fuel - 1, requestId, s, handleError);
    }
  }

  lemma FromDispatching(m: Machine, fuel: nat, requestId: string, s: Scenario, handleError: AuthException -> Response)
    requires m.state.Dispatching? && fuel >= 4
    ensures var (decided, calls) := SecurePhase(s.secure, s.next, handleError);
      Run(m, fuel, requestId, s, handleError) == Finished(m, [NextHandler, SecureResponse] + calls, decided, s)
  {
    RunSteps(m, fuel, requestId, s, handleError);
    var m' := Step(m, requestId, s, handleError);
    FromSecuring(m', fuel - 1, requestId, s, handleError);
  }

  lemma FromValidating(outer: Attributes, fuel: nat, requestId: string, s: Scenario,
                       handleError: AuthException -> Response)
    requires fuel >= 5
    ensures var m := Machine(Validating, [], outer[RequestIdKey := RequestId(requestId)]);
            var r := ProcessMessage(outer, requestId, s, handleError);
      Run(m, fuel, requestId, s, handleError) == Machine(Done(r.response), r.calls, r.attributes)
  {
    var m := Machine(Validating, [], outer[RequestIdKey := RequestId(requestId)]);
    RunSteps(m, fuel, requestId, s, handleError);
    var m' := Step(m, requestId, s, handleError);
    match m'.state {
      case Errored(_) => ValidationErrored(outer, m, m', fuel - 1, requestId, s, handleError);
      case ShortCircuit(_) => ValidationShortCircuit(outer, m, m', fuel - 1, requestId, s, handleError);
      case Dispatching => ValidationDispatching(outer, m, m', fuel - 1, requestId, s, handleError);
      case _ => assert false;
    }
  }

  /** Validation failed or returned an invalid status: the error converter decides. */
  lemma ValidationErrored(outer: Attributes, m: Machine, m': Machine, fuel: nat, requestId: string, s: Scenario,
                          handleError: AuthException -> Response)
    requires m == Machine(Validating, [], outer[RequestIdKey := RequestId(requestId)]) && fuel >= 4
    requires m' == Step(m, requestId, s, handleError) && m'.state.Errored?
    ensures var r := ProcessMessage(outer, requestId, s, handleError);
      Run(m', fuel, requestId, s, handleError) == Machine(Done(r.response), r.calls, r.attributes)
  {
    FromErrored(m', fuel, requestId, s, handleError);
    var e := m'.state.error;
    var r := ProcessMessage(outer, requestId, s, handleError);
    assert r.response == handleError(e) && r.attributes == m.attributes
        && r.calls == [ValidateRequest, HandleError(e)] + [CleanSubject] + CleanLog(s.clean);
    assert m'.calls + [HandleError(e)] == [ValidateRequest, HandleError(e)];
  }

  /** Validation answered the client itself. */
  lemma ValidationShortCircuit(outer: Attributes, m: Machine, m': Machine, fuel: nat, requestId: string, s: Scenario,
                               handleError: AuthException -> Response)
    requires m == Machine(Validating, [], outer[RequestIdKey := RequestId(requestId)]) && fuel >= 4
    requires m' == Step(m, requestId, s, handleError) && m'.state.ShortCircuit?
    ensures var r := ProcessMessage(outer, requestId, s, handleError);
      Run(m', fuel, requestId, s, handleError) == Machine(Done(r.response), r.calls, r.attributes)
  {
    FromShortCircuit(m', fuel, requestId, s, handleError);
    var r := ProcessMessage(outer, requestId, s, handleError);
    assert r.response == m'.state.decided && r.attributes == m.attributes
        && r.calls == [ValidateRequest] + [CleanSubject] + CleanLog(s.clean);
    assert m'.calls + [] == [ValidateRequest];
  }

  /** Validation succeeded: the next handler and securing follow. */
  lemma ValidationDispatching(outer: Attributes, m: Machine, m': Machine, fuel: nat, requestId: string, s: Scenario,
                              handleError: AuthException -> Response)
    requires m == Machine(Validating, [], outer[RequestIdKey := RequestId(requestId)]) && fuel >= 4
    requires m' == Step(m, requestId, s, handleError) && m'.state.Dispatching?
    ensures var r := ProcessMessage(outer, requestId, s, handleError);
      Run(m', fuel, requestId, s, handleError) == Machine(Done(r.response), r.calls, r.attributes)
  {
    FromDispatching(m', fuel, requestId, s, handleError);
    assert s.validate == Resolved(Some(Success));
    var (decided, tail) := SecurePhase(s.secure, s.next, handleError);
    var r := ProcessMessage(outer, requestId, s, handleError);
    assert r.response == decided && r.attributes == m'.attributes
        && r.calls == [ValidateRequest, NextHandler, SecureResponse] + tail + [CleanSubject] + CleanLog(s.clean);
    assert m'.calls + ([NextHandler, SecureResponse] + tail) == [ValidateRequest, NextHandler, SecureResponse] + tail;
  }

  /** One unfolding of `Run`, valid also at DONE because DONE is a fixed point of `Step`. */
  lemma RunSteps(m: Machine, fuel: nat, requestId: string, s: Scenario, handleError: AuthException -> Response)
    requires fuel > 0
    ensures Run(m, fuel, requestId, s, handleError) == Run(Step(m, requestId, s, handleError), fuel - 1, requestId, s, handleError)
    decreases fuel
  {
    if m.state.Done? {
      DoneIsFinal(m, fuel - 1, requestId, s, handleError);
    }
  }

  /** Once DONE, further fuel changes nothing. */
  lemma {:induction false} DoneIsFinal(m: Machine, fuel: nat, requestId: string, s: Scenario,
                                       handleError: AuthException -> Response)
    requires m.state.Done?
    ensures Run(m, fuel, requestId, s, handleError) == m
  {
  }
}
