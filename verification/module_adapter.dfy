/** Authentication modules and the adapter that puts a legacy synchronous JASPI
    `ServerAuthModule` behind the asynchronous capability set. */
module ModuleAdapter {
  import opened Wrappers
  import opened AuthTypes

  datatype MessageType = RequestMessage | ResponseMessage

  /** A configured module: a native asynchronous one, or a legacy synchronous one
      that reports its supported message types as an array. */
  datatype AuthModule =
    | AsyncModule(id: nat, supportedTypes: set<MessageType>)
    | LegacyModule(id: nat, supportedArray: seq<MessageType>)

  /** What the module chain holds: native modules as they are, legacy ones wrapped. */
  datatype ChainModule =
    | Native(id: nat, supportedTypes: set<MessageType>)
    | Adapted(id: nat, supportedTypes: set<MessageType>)

  /** How a legacy module's synchronous call ended: it returned a status (possibly
      null) or threw an `AuthException`. */
  datatype LegacyOutcome = Returned(status: Option<AuthStatus>) | Threw(error: AuthException)

  /** How a legacy module's cleanSubject ended. */
  datatype LegacyCleanOutcome = CleanReturned | CleanThrew(error: AuthException)

  /** Wrapping a module for the chain keeps its identity and supported message types. */
  function AsChainModule(m: AuthModule): (c: ChainModule)
    ensures c.id == m.id
    ensures c.Adapted? <==> m.LegacyModule?
    ensures m.AsyncModule? ==> c.supportedTypes == m.supportedTypes
    ensures m.LegacyModule? ==> forall t :: t in c.supportedTypes <==> t in m.supportedArray
  {
    match m
    case AsyncModule(id, types) => Native(id, types)
    case LegacyModule(id, types) => Adapted(id, set t | t in types)
  }

  /** The adapter runs the legacy call on the calling thread and returns an
      already-settled outcome; a thrown exception becomes a rejected outcome. */
  function AdaptOutcome(o: LegacyOutcome): (r: StatusOutcome)
    ensures r.Resolved? <==> o.Returned?
    ensures o.Returned? ==> r.status == o.status
    ensures o.Threw? ==> r.error == o.error
  {
    match o
    case Returned(st) => Resolved(st)
    case Threw(e) => Rejected(e)
  }

  function AdaptCleanOutcome(o: LegacyCleanOutcome): (r: CleanOutcome)
    ensures r.Cleaned? <==> o.CleanReturned?
    ensures o.CleanThrew? ==> r.error == o.error
  {
    match o
    case CleanReturned => Cleaned
    case CleanThrew(e) => CleanRejected(e)
  }

  /** What a synchronous caller observes when it blocks on a settled outcome
      (`getOrThrow` on the promise): the status it resolved with, or the
      exception it was rejected with, rethrown. */
  function AwaitOutcome(r: StatusOutcome): LegacyOutcome
  {
    match r
    case Resolved(st) => Returned(st)
    case Rejected(e) => Threw(e)
  }

  /** The adapter loses nothing: waiting on the adapted outcome gives back the
      legacy outcome, and every settled outcome is the adaptation of one. */
  lemma AdaptationIsLossless(o: LegacyOutcome, r: StatusOutcome)
    ensures AwaitOutcome(AdaptOutcome(o)) == o
    ensures AdaptOutcome(AwaitOutcome(r)) == r
  {
  }
}
