/** `AuthenticationFilter.AuthenticationFilterBuilder`: validates the configuration,
    supplies defaults, initializes every configured module once, and hands the
    pieces to `createFilter`, which assembles the runtime around a module chain. */
module FilterBuilder {
  import opened Wrappers
  import opened AuthTypes
  import opened ModuleAdapter

  /** An opaque, non-null reference to a collaborator (audit API, policy, writer, ...). */
  datatype Token = Token(id: nat)

  datatype Logger = ProvidedLogger(token: Token) | NamedLogger(name: string) | DefaultLogger

  datatype CallbackHandler = NoOpCallbackHandler | ProvidedCallbackHandler(token: Token)

  /** The error-to-response converter; configured response writers are registered on it. */
  datatype ResponseHandler = ResponseHandler(writers: seq<Token>)

  /** A JAAS subject reduced to the names of its principals. */
  datatype Subject = Subject(principals: seq<string>)

  /** One module bound to its request policy, response policy, callback handler and settings. */
  datatype ModuleConfiguration = ModuleConfiguration(
    authModule: AuthModule,
    requestPolicy: Option<Token>,
    responsePolicy: Option<Token>,
    callbackHandler: CallbackHandler,
    settings: map<string, string>)

  /** `configureModule(module)`: no policies yet, a no-op callback handler, empty settings. */
  function ConfigureModule(m: AuthModule): (c: ModuleConfiguration)
    ensures c.authModule == m && c.settings == map[] && c.callbackHandler == NoOpCallbackHandler
    ensures c.requestPolicy.None? && c.responsePolicy.None?
  {
    ModuleConfiguration(m, None, None, NoOpCallbackHandler, map[])
  }

  /** Everything set on the builder; `None` is a setter never called. Calling
      `logger(..)` or `named(..)` sets `logger`, the later call winning. */
  datatype BuilderConfig = BuilderConfig(
    auditApi: Option<Token>,
    logger: Option<Logger>,
    serviceSubject: Option<Subject>,
    responseWriters: seq<Token>,
    sessionModule: Option<ModuleConfiguration>,
    authModules: seq<ModuleConfiguration>)

  /** `AuthenticationFilter.builder()` */
  const NewBuilder := BuilderConfig(None, None, None, [], None, [])

  /** One call of `initialize(requestPolicy, responsePolicy, callbackHandler, settings)`. */
  datatype InitCall = InitCall(
    moduleId: nat,
    requestPolicy: Option<Token>,
    responsePolicy: Option<Token>,
    callbackHandler: CallbackHandler,
    settings: map<string, string>)

  function InitCallOf(c: ModuleConfiguration): InitCall
  {
    InitCall(c.authModule.id, c.requestPolicy, c.responsePolicy, c.callbackHandler, c.settings)
  }

  /** The arguments `build()` passes to `createFilter`. */
  datatype FilterArgs = FilterArgs(
    logger: Logger,
    auditApi: Token,
    responseHandler: ResponseHandler,
    serviceSubject: Subject,
    sessionModule: Option<ChainModule>,
    authModules: seq<ChainModule>)

  datatype Built = Built(args: FilterArgs, initialized: seq<InitCall>)

  datatype BuildError =
    | MissingAuditApi                                      // IllegalStateException
    | InitializationFailed(moduleId: nat, error: AuthException)

  /** The configured modules in initialization order: the session module first. */
  function Configured(cfg: BuilderConfig): seq<ModuleConfiguration>
  {
    (if cfg.sessionModule.Some? then [cfg.sessionModule.value] else []) + cfg.authModules
  }

  /** The modules handed to the chain, in configured order. */
  function ChainModules(configs: seq<ModuleConfiguration>): (ms: seq<ChainModule>)
    ensures |ms| == |configs|
    ensures forall i :: 0 <= i < |configs| ==> ms[i] == AsChainModule(configs[i].authModule)
  {
    if |configs| == 0 then [] else [AsChainModule(configs[0].authModule)] + ChainModules(configs[1..])
  }

  /** The `initialize` calls made for `configs`, one per module, in order. */
  function InitCalls(configs: seq<ModuleConfiguration>): (calls: seq<InitCall>)
    ensures |calls| == |configs|
    ensures forall i :: 0 <= i < |configs| ==> calls[i] == InitCallOf(configs[i])
  {
    if |configs| == 0 then [] else [InitCallOf(configs[0])] + InitCalls(configs[1..])
  }

  /** The first module, in initialization order, whose `initialize` throws; `failing`
      says which modules throw and what. */
  function FirstFailure(configs: seq<ModuleConfiguration>, failing: map<nat, AuthException>): (f: Option<nat>)
    ensures f.None? <==> forall i :: 0 <= i < |configs| ==> configs[i].authModule.id !in failing
    ensures f.Some? ==> && f.value < |configs|
                        && configs[f.value].authModule.id in failing
                        && forall i :: 0 <= i < f.value ==> configs[i].authModule.id !in failing
  {
    if |configs| == 0 then None
    else if configs[0].authModule.id in failing then Some(0)
    else
      var rest := FirstFailure(configs[1..], failing);
      if rest.Some? then Some(rest.value + 1) else None
  }

  /** `build()`: the audit API is a hard precondition, checked before anything else;
      then every configured module is initialized once, failing fast; then the
      defaults are filled in and `createFilter` receives the result. */
  function Build(cfg: BuilderConfig, failing: map<nat, AuthException>): (r: Result<Built, BuildError>)
    ensures r == Err(MissingAuditApi) <==> cfg.auditApi.None?
    ensures r.Ok? <==> cfg.auditApi.Some? && forall c :: c in Configured(cfg) ==> c.authModule.id !in failing
    ensures r.Err? && r.error.InitializationFailed? ==>
              && r.error.moduleId in failing && r.error.error == failing[r.error.moduleId]
              && exists c :: c in Configured(cfg) && c.authModule.id == r.error.moduleId
    ensures r.Ok? ==> var a := r.value.args;
      && a.auditApi == cfg.auditApi.value
      && (cfg.logger.Some? ==> a.logger == cfg.logger.value)
      && (cfg.logger.None? ==> a.logger == DefaultLogger)
      && (cfg.serviceSubject.Some? ==> a.serviceSubject == cfg.serviceSubject.value)
      && (cfg.serviceSubject.None? ==> a.serviceSubject == Subject([]))
      && a.responseHandler.writers == cfg.responseWriters
      && (a.sessionModule.Some? <==> cfg.sessionModule.Some?)
      && (cfg.sessionModule.Some? ==> a.sessionModule.value == AsChainModule(cfg.sessionModule.value.authModule))
      && |a.authModules| == |cfg.authModules|
      && (forall i :: 0 <= i < |cfg.authModules| ==> a.authModules[i] == AsChainModule(cfg.authModules[i].authModule))
    ensures r.Ok? ==> && |r.value.initialized| == |Configured(cfg)|
                      && forall i :: 0 <= i < |Configured(cfg)| ==> r.value.initialized[i] == InitCallOf(Configured(cfg)[i])
  {
    if cfg.auditApi.None? then Err(MissingAuditApi)
    else
      var configured := Configured(cfg);
      var failure := FirstFailure(configured, failing);
      if failure.Some? then
        var id := configured[failure.value].authModule.id;
        Err(InitializationFailed(id, failing[id]))
      else
        var args := FilterArgs(
          if cfg.logger.Some? then cfg.logger.value else DefaultLogger,
          cfg.auditApi.value,
          ResponseHandler(cfg.responseWriters),
          if cfg.serviceSubject.Some? then cfg.serviceSubject.value else Subject([]),
          if cfg.sessionModule.Some? then Some(AsChainModule(cfg.sessionModule.value.authModule)) else None,
          ChainModules(cfg.authModules));
        Ok(Built(args, InitCalls(configured)))
  }

  /** The module chain: an optional session module and the ordered auth modules. */
  datatype ModuleChain = ModuleChain(sessionModule: Option<ChainModule>, authModules: seq<ChainModule>)

  /** What `createFilter` builds: the runtime's collaborators, wrapped in a filter. */
  datatype Runtime = Runtime(
    logger: Logger,
    auditApi: Token,
    responseHandler: ResponseHandler,
    chain: ModuleChain,
    serviceSubject: Subject)

  /** The order in which a chain consults its modules: the session module first. */
  function Candidates(chain: ModuleChain): (ms: seq<ChainModule>)
    ensures |ms| == |chain.authModules| + (if chain.sessionModule.Some? then 1 else 0)
    ensures chain.sessionModule.Some? ==> ms[0] == chain.sessionModule.value && ms[1..] == chain.authModules
    ensures chain.sessionModule.None? ==> ms == chain.authModules
  {
    (if chain.sessionModule.Some? then [chain.sessionModule.value] else []) + chain.authModules
  }

  /** `createFilter(logger, auditApi, responseHandler, serviceSubject, sessionModule, authModules)`. */
  function CreateFilter(a: FilterArgs): (rt: Runtime)
    ensures rt.chain.sessionModule == a.sessionModule && rt.chain.authModules == a.authModules
    ensures rt.serviceSubject == a.serviceSubject && rt.auditApi == a.auditApi
    ensures rt.logger == a.logger && rt.responseHandler == a.responseHandler
  {
    Runtime(a.logger, a.auditApi, a.responseHandler, ModuleChain(a.sessionModule, a.authModules), a.serviceSubject)
  }

  /** Build and assemble: the chain consults the modules in configured order. */
  lemma {:induction false} ChainFollowsConfiguration(cfg: BuilderConfig, failing: map<nat, AuthException>)
    requires Build(cfg, failing).Ok?
    ensures var cands := Candidates(CreateFilter(Build(cfg, failing).value.args).chain);
      && |cands| == |Configured(cfg)|
      && forall i :: 0 <= i < |cands| ==> cands[i] == AsChainModule(Configured(cfg)[i].authModule)
  {
    var a := Build(cfg, failing).value.args;
    var cands := Candidates(CreateFilter(a).chain);
    forall i | 0 <= i < |cands|
      ensures cands[i] == AsChainModule(Configured(cfg)[i].authModule)
    {
      if cfg.sessionModule.Some? && i > 0 {
        assert Configured(cfg)[i] == cfg.authModules[i - 1];
        assert cands[i] == a.authModules[i - 1];
      } else if cfg.sessionModule.None? {
        assert Configured(cfg) == cfg.authModules;
      }
    }
  }

  /** No two configured modules are the same module. */
  predicate DistinctModules(configs: seq<ModuleConfiguration>)
  {
    forall i, j :: 0 <= i < j < |configs| ==> configs[i].authModule.id != configs[j].authModule.id
  }

  lemma {:induction false} InitCallsOncePerModule(configs: seq<ModuleConfiguration>, k: nat)
    requires DistinctModules(configs) && k < |configs|
    ensures Count(InitCalls(configs), InitCallOf(configs[k])) == 1
  {
    var calls := InitCalls(configs);
    assert calls == [InitCallOf(configs[0])] + InitCalls(configs[1..]);
    CountAppend([InitCallOf(configs[0])], InitCalls(configs[1..]), InitCallOf(configs[k]));
    if k == 0 {
      assert InitCallOf(configs[k]) !in InitCalls(configs[1..]) by {
        forall i | 0 <= i < |configs| - 1
          ensures InitCalls(configs[1..])[i] != InitCallOf(configs[0])
        {
          assert configs[1..][i] == configs[i + 1];
        }
      }
      CountAbsent(InitCalls(configs[1..]), InitCallOf(configs[k]));
    } else {
      assert configs[k] == configs[1..][k - 1];
      assert InitCallOf(configs[0]).moduleId != InitCallOf(configs[k]).moduleId;
      InitCallsOncePerModule(configs[1..], k - 1);
    }
  }

  /** Each configured module, the session module included, is initialized exactly
      once, and with exactly its own policies, callback handler and settings. */
  lemma InitializedExactlyOnce(cfg: BuilderConfig, failing: map<nat, AuthException>)
    requires Build(cfg, failing).Ok? && DistinctModules(Configured(cfg))
    ensures forall c :: c in Configured(cfg) ==>
      && Count(Build(cfg, failing).value.initialized, InitCallOf(c)) == 1
      && InitCallOf(c) == InitCall(c.authModule.id, c.requestPolicy, c.responsePolicy, c.callbackHandler, c.settings)
  {
    var configured := Configured(cfg);
    assert Build(cfg, failing).value.initialized == InitCalls(configured);
    forall c | c in configured
      ensures Count(InitCalls(configured), InitCallOf(c)) == 1
    {
      var k :| 0 <= k < |configured| && configured[k] == c;
      InitCallsOncePerModule(configured, k);
    }
  }

  /** With only an audit API set, `createFilter` receives the default logger,
      response handler and an empty service subject, no session module and no
      auth modules, and nothing is initialized. */
  lemma OnlyAuditApiUsesDefaults(audit: Token, failing: map<nat, AuthException>)
    ensures var r := Build(NewBuilder.(auditApi := Some(audit)), failing);
      && r.Ok?
      && r.value.args == FilterArgs(DefaultLogger, audit, ResponseHandler([]), Subject([]), None, [])
      && r.value.initialized == []
  {
  }

  /** A legacy synchronous module is accepted, initialized with its configuration,
      and reaches `createFilter` wrapped by the adapter with the same message types. */
  lemma LegacyModuleIsAdaptedAndInitialized(audit: Token, legacy: AuthModule, reqPolicy: Token, respPolicy: Token,
                                            handler: Token, settings: map<string, string>)
    requires legacy.LegacyModule?
    ensures var config := ConfigureModule(legacy).(requestPolicy := Some(reqPolicy), responsePolicy := Some(respPolicy),
                                                  callbackHandler := ProvidedCallbackHandler(handler), settings := settings);
            var r := Build(NewBuilder.(auditApi := Some(audit), authModules := [config]), map[]);
      && r.Ok?
      && r.value.initialized == [InitCall(legacy.id, Some(reqPolicy), Some(respPolicy), ProvidedCallbackHandler(handler), settings)]
      && |r.value.args.authModules| == 1
      && r.value.args.authModules[0].Adapted?
      && (forall t :: t in r.value.args.authModules[0].supportedTypes <==> t in legacy.supportedArray)
  {
  }
}
