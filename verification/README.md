# Authentication runtime, filter builder, resource helpers and router — a Dafny model

This project models four pieces of the ForgeRock commons libraries.

- **The authentication framework's message processing** (`AuthenticationFramework.processMessage`). One HTTP request goes through `validateRequest` on the module chain. On `SUCCESS` it continues to the next handler and then `secureResponse`. `cleanSubject` runs on every path. Each `AuthStatus` and each exception becomes a response: 401 for `SEND_FAILURE` at validation, 500 for `SEND_FAILURE` at securing, and the error converter for invalid statuses and exceptions. The request identifier and, after a successful validation, the principal and module-chain context are published in the request attributes.
- **The authentication filter builder** (`AuthenticationFilterBuilder.build`, `createFilter`, `configureModule`). The audit API is mandatory. Defaults are supplied for the logger, the response handler and the service subject. Every configured module is initialized exactly once. Legacy synchronous modules are adapted to the asynchronous interface.
- **The resource helpers** (`Resources`):
  - `filterResource` projects a JSON resource onto a list of JSON pointers. Pointer tokens are escaped as in section 3 of RFC 6901. Unlike that standard, empty tokens are dropped when a pointer is parsed, so `/` is the root pointer, as the filter tests require.
  - Collection handlers percent-decode the id segment per section 2.1 of RFC 3986, and `+` is not a space.
  - The annotated-provider dispatch table gives, for each of the singleton, collection and plain request handler variants, which operations are routed, which fail with `BadRequestException`, `NotSupportedException` or 404, and how a response is filtered to the requested fields.
- **The request router** (`Router`). A URI matcher selects the best of the routes: fewer remaining segments wins, then an exact match beats a prefix match. Without a match, the default route is used. The chosen handler receives the request itself or a copy carrying the remaining path. No route gives a 404 `Resource '<path>' not found` for resource requests and an `IllegalStateException` for API requests. An incomparable match gives an `UnsupportedOperationException`.

Layout:

| file | module | contents |
|---|---|---|
| `wrappers.dfy` | `Wrappers` | `Option`, `Result`, occurrence counting |
| `auth_types.dfy` | `AuthTypes` | statuses, exceptions, responses, attribute keys, principal resolution |
| `auth_runtime.dfy` | `AuthRuntime` | `ProcessMessage` as a function of the outcomes of each phase |
| `auth_runtime_props.dfy` | `AuthRuntimeProperties` | call-order and per-scenario properties of `ProcessMessage` |
| `auth_machine.dfy` | `AuthMachine` | the same processing as a small-step state machine, proved equal to `ProcessMessage` |
| `module_adapter.dfy` | `ModuleAdapter` | the adapter from legacy synchronous modules to asynchronous ones |
| `filter_builder.dfy` | `FilterBuilder` | `configureModule`, `build`, `createFilter` |
| `json.dfy` | `Json` | JSON values; objects as insertion-ordered maps (`put`, `putAll`) |
| `json_pointer.dfy` | `JsonPointer` | pointer syntax, escaping, resolution |
| `resource_filter.dfy` | `ResourceFilter` | `filterResource` and its last-writer-wins reference |
| `percent.dfy` | `PercentCoding` | path segments, percent decoding, collection id extraction |
| `dispatch.dfy` | `Dispatch` | the annotated-provider dispatch table |
| `router.dfy` | `Router` | route matching, best-route selection, forwarding and errors |

The implementation classes (`AuthenticationFramework`, `AuthenticationFilter`, `Resources`, `Router`) are not part of this model. Their behaviour is taken from their tests, which the table below cites. Where the tests leave a case open, the model makes its own choice. Those choices are listed under "## Left out".

Collaborators are parameters of the model:

- the outcome of each module-chain call (a `Scenario`);
- the error converter, a function from exception to response;
- which modules fail to initialize (a map from module id to exception);
- each route's matcher.

## Model

| member | source | states |
|---|---|---|
| AuthRuntime.ProcessMessage | auth-filters/forgerock-authn-filter/forgerock-jaspi-runtime/src/test/java/org/forgerock/caf/authentication/framework/AuthenticationFrameworkTest.java:117-409 | the request id is published on every path and other attributes are untouched; principal and context are published exactly after a successful validation; SEND_FAILURE at validation is 401, SEND_SUCCESS/SEND_CONTINUE return the context's response, accepted securing returns the resource's response, SEND_FAILURE at securing is 500, every invalid status or exception goes through the error converter |
| AuthTypes.ResolvePrincipal | auth-filters/forgerock-authn-filter/forgerock-jaspi-runtime/src/test/java/org/forgerock/caf/authentication/framework/AuthenticationFrameworkTest.java:357-409 | the principal set in the message context wins; otherwise the client subject's first principal; none exactly when neither source has one |
| AuthTypes.ContextResponse | auth-filters/forgerock-authn-filter/forgerock-jaspi-runtime/src/test/java/org/forgerock/caf/authentication/framework/AuthenticationFrameworkTest.java:166-195 | a validation that answers itself returns the response a module left in the context, 200 OK by default |
| AuthRuntimeProperties.CallsBeforeCleanup | auth-filters/forgerock-authn-filter/forgerock-jaspi-runtime/src/test/java/org/forgerock/caf/authentication/framework/AuthenticationFrameworkTest.java:117-332 | the call log is validate first, then next handler and securing on SUCCESS or the error converter on a converted failure, then cleanSubject, then only the logging of a cleanup failure |
| AuthRuntimeProperties.ValidateFirstCleanupOnceLast | auth-filters/forgerock-authn-filter/forgerock-jaspi-runtime/src/test/java/org/forgerock/caf/authentication/framework/AuthenticationFrameworkTest.java:117-332 | validateRequest is called first and once; cleanSubject is called once on every path, after everything but its own failure log |
| AuthRuntimeProperties.DispatchAndSecureIffSuccess | auth-filters/forgerock-authn-filter/forgerock-jaspi-runtime/src/test/java/org/forgerock/caf/authentication/framework/AuthenticationFrameworkTest.java:174-246 | the next handler and secureResponse are each called once if validation returned SUCCESS and never otherwise, the handler before securing |
| AuthRuntimeProperties.ErrorConverterIffConverted | auth-filters/forgerock-authn-filter/forgerock-jaspi-runtime/src/test/java/org/forgerock/caf/authentication/framework/AuthenticationFrameworkTest.java:197-332 | the error converter runs exactly once on an invalid status or an exception, with that exception, and never on any other path |
| AuthRuntimeProperties.CleanupFailureIsSwallowed | auth-filters/forgerock-authn-filter/forgerock-jaspi-runtime/src/test/java/org/forgerock/caf/authentication/framework/AuthenticationFrameworkTest.java:104-114 | a failing cleanSubject changes neither the response nor the attributes; it only adds a log entry |
| AuthRuntimeProperties.SuccessfulRequestReturnsResourceResponse | auth-filters/forgerock-authn-filter/forgerock-jaspi-runtime/src/test/java/org/forgerock/caf/authentication/framework/AuthenticationFrameworkTest.java:117-142 | SUCCESS then SEND_SUCCESS returns the resource's response and publishes request id, principal and context |
| AuthRuntimeProperties.ValidationFailureIsUnauthorized | auth-filters/forgerock-authn-filter/forgerock-jaspi-runtime/src/test/java/org/forgerock/caf/authentication/framework/AuthenticationFrameworkTest.java:144-164 | SEND_FAILURE at validation is 401 and neither the handler nor securing runs |
| AuthRuntimeProperties.ValidationAnsweredStopsProcessing | auth-filters/forgerock-authn-filter/forgerock-jaspi-runtime/src/test/java/org/forgerock/caf/authentication/framework/AuthenticationFrameworkTest.java:166-195 | SEND_SUCCESS or SEND_CONTINUE at validation is 200 without calling the handler or securing, and cleanup still runs |
| AuthRuntimeProperties.InvalidValidationIsConverted | auth-filters/forgerock-authn-filter/forgerock-jaspi-runtime/src/test/java/org/forgerock/caf/authentication/framework/AuthenticationFrameworkTest.java:197-246 | FAILURE, null or an exception at validation is written by the error converter and securing is skipped |
| AuthRuntimeProperties.SecureOutcomeDecidesResponse | auth-filters/forgerock-authn-filter/forgerock-jaspi-runtime/src/test/java/org/forgerock/caf/authentication/framework/AuthenticationFrameworkTest.java:248-278 | SEND_FAILURE at securing is 500; SEND_CONTINUE returns the resource's response |
| AuthRuntimeProperties.InvalidSecureIsConverted | auth-filters/forgerock-authn-filter/forgerock-jaspi-runtime/src/test/java/org/forgerock/caf/authentication/framework/AuthenticationFrameworkTest.java:280-332 | an invalid status or an exception at securing is written by the error converter |
| AuthMachine.MachineAgreesWithProcessMessage | auth-filters/forgerock-authn-filter/forgerock-jaspi-runtime/src/test/java/org/forgerock/caf/authentication/framework/AuthenticationFrameworkTest.java:117-409 | the phase-by-phase state machine reaches its final state within seven steps with the same response, calls and attributes as `ProcessMessage` |
| AuthMachine.DoneIsFinal | auth-filters/forgerock-authn-filter/forgerock-jaspi-runtime/src/test/java/org/forgerock/caf/authentication/framework/AuthenticationFrameworkTest.java:117-142 | once processing is done, further steps change nothing |
| ModuleAdapter.AsChainModule | auth-filters/forgerock-authn-filter/forgerock-jaspi-runtime/src/test/java/org/forgerock/caf/authentication/framework/AuthenticationFilterTest.java:196-227 | a module keeps its identity; it is wrapped exactly when it is a legacy module; the wrapper supports the same message types as the legacy array |
| ModuleAdapter.AdaptOutcome | auth-filters/forgerock-authn-filter/forgerock-jaspi-runtime/src/test/java/org/forgerock/caf/authentication/framework/AuthenticationFilterTest.java:196-227 | a legacy call that returns a status becomes a resolved outcome with that status; one that throws becomes a rejected outcome with that exception |
| ModuleAdapter.AdaptCleanOutcome | auth-filters/forgerock-authn-filter/forgerock-jaspi-runtime/src/test/java/org/forgerock/caf/authentication/framework/AuthenticationFilterTest.java:196-227 | a legacy cleanSubject that returns becomes a clean outcome; one that throws becomes a rejected outcome with that exception |
| AuthRuntimeProperties.LegacyValidateThrowIsConverted | auth-filters/forgerock-authn-filter/forgerock-jaspi-runtime/src/test/java/org/forgerock/caf/authentication/framework/AuthenticationFrameworkTest.java:226-246 | a legacy module whose validateRequest throws reaches the error converter once with that exception, which decides the response; the resource and securing are skipped; cleanup runs once |
| AuthRuntimeProperties.LegacySecureThrowIsConverted | auth-filters/forgerock-authn-filter/forgerock-jaspi-runtime/src/test/java/org/forgerock/caf/authentication/framework/AuthenticationFrameworkTest.java:311-332 | a legacy module whose secureResponse throws after a successful validation reaches the error converter once with that exception, after the resource ran once |
| AuthRuntimeProperties.LegacyCleanupThrowIsSwallowed | auth-filters/forgerock-authn-filter/forgerock-jaspi-runtime/src/test/java/org/forgerock/caf/authentication/framework/AuthenticationFrameworkTest.java:104-114 | a legacy module whose cleanSubject throws changes neither the response nor the attributes; only a log entry is added |
| ModuleAdapter.AdaptationIsLossless | auth-filters/forgerock-authn-filter/forgerock-jaspi-runtime/src/test/java/org/forgerock/caf/authentication/framework/AuthenticationFilterTest.java:196-227 | turning a legacy call's return or exception into a promise outcome and back is the identity, both ways |
| FilterBuilder.ConfigureModule | auth-filters/forgerock-authn-filter/forgerock-jaspi-runtime/src/test/java/org/forgerock/caf/authentication/framework/AuthenticationFilterTest.java:122-194 | a freshly configured module has no policies, the no-op callback handler and empty settings |
| FilterBuilder.FirstFailure | auth-filters/forgerock-authn-filter/forgerock-jaspi-runtime/src/test/java/org/forgerock/caf/authentication/framework/AuthenticationFilterTest.java:122-194 | the earliest module, in initialization order, whose initialization throws; none exactly when none throws |
| FilterBuilder.Build | auth-filters/forgerock-authn-filter/forgerock-jaspi-runtime/src/test/java/org/forgerock/caf/authentication/framework/AuthenticationFilterTest.java:55-194 | a missing audit API is an illegal state, checked first; success exactly when no module fails to initialize; otherwise the failing module's own exception; on success createFilter receives the configured or default logger and subject, the response writers, and the session and auth modules in order; every configured module is initialized |
| FilterBuilder.Candidates | auth-filters/forgerock-authn-filter/forgerock-jaspi-runtime/src/test/java/org/forgerock/caf/authentication/framework/AuthenticationFilterTest.java:122-194 | a chain consults the session module first, then the auth modules in order |
| FilterBuilder.CreateFilter | auth-filters/forgerock-authn-filter/forgerock-jaspi-runtime/src/test/java/org/forgerock/caf/authentication/framework/AuthenticationFilterTest.java:69-194 | the runtime gets exactly the logger, audit API, response handler, module chain and service subject it was given |
| FilterBuilder.ChainFollowsConfiguration | auth-filters/forgerock-authn-filter/forgerock-jaspi-runtime/src/test/java/org/forgerock/caf/authentication/framework/AuthenticationFilterTest.java:122-194 | the built runtime consults modules in the order they were configured |
| FilterBuilder.InitializedExactlyOnce | auth-filters/forgerock-authn-filter/forgerock-jaspi-runtime/src/test/java/org/forgerock/caf/authentication/framework/AuthenticationFilterTest.java:187-193 | each configured module is initialized exactly once with its own policies, handler and settings |
| FilterBuilder.OnlyAuditApiUsesDefaults | auth-filters/forgerock-authn-filter/forgerock-jaspi-runtime/src/test/java/org/forgerock/caf/authentication/framework/AuthenticationFilterTest.java:69-96 | with only an audit API set, createFilter gets the default logger, an empty response handler and subject, and no modules |
| FilterBuilder.LegacyModuleIsAdaptedAndInitialized | auth-filters/forgerock-authn-filter/forgerock-jaspi-runtime/src/test/java/org/forgerock/caf/authentication/framework/AuthenticationFilterTest.java:196-227 | a legacy module is initialized with its configuration and reaches createFilter adapted, with the same message types |
| Json.Lookup | rest/json-resource/src/test/java/org/forgerock/json/resource/ResourcesTest.java:144-179 | a member is found exactly when some member has that key; with distinct keys it is that member's value |
| Json.Put | rest/json-resource/src/test/java/org/forgerock/json/resource/ResourcesTest.java:181-197 | after a put, the key holds the new value and no other key changes; a new key is appended; an existing key keeps its place |
| Json.PutAllLookup | rest/json-resource/src/test/java/org/forgerock/json/resource/ResourcesTest.java:151-155 | after putAll, a key holds its value from the added members if it has one there, and its old value otherwise |
| Json.PutAllFreshAppends | rest/json-resource/src/test/java/org/forgerock/json/resource/ResourcesTest.java:151-155 | putting members with fresh, distinct keys appends them in order |
| JsonPointer.UnescapeEscape | rest/json-resource/src/test/java/org/forgerock/json/resource/ResourcesTest.java:89-207 | unescaping a reference token's escaped form gives the token back |
| JsonPointer.SplitJoin | rest/json-resource/src/test/java/org/forgerock/json/resource/ResourcesTest.java:89-207 | splitting on `/` undoes joining pieces that contain no `/` |
| JsonPointer.ParseFormat | rest/json-resource/src/test/java/org/forgerock/json/resource/ResourcesTest.java:89-207 | every pointer whose tokens are non-empty is parsed back from its text; `/` and the empty text are the root pointer |
| JsonPointer.Leaf | rest/json-resource/src/test/java/org/forgerock/json/resource/ResourcesTest.java:157-197 | the last token; none exactly for the root pointer |
| JsonPointer.ParseIndex | rest/json-resource/src/test/java/org/forgerock/json/resource/ResourcesTest.java:112-117 | an array index exactly when the token is non-empty and all decimal digits |
| JsonPointer.ParseIndexDecimal | rest/json-resource/src/test/java/org/forgerock/json/resource/ResourcesTest.java:112-117 | an index token is read as the decimal number it writes |
| JsonPointer.ArrayChildAt | rest/json-resource/src/test/java/org/forgerock/json/resource/ResourcesTest.java:112-117 | the child of an array under the numeral of an index is the element at that index when it is in range, and none otherwise |
| JsonPointer.Child | rest/json-resource/src/test/java/org/forgerock/json/resource/ResourcesTest.java:162-167 | an object's child is its member; an array's child is the element at the parsed index, and there is none when the token is not an index or is out of range; scalars and null have none |
| JsonPointer.GetConcat | rest/json-resource/src/test/java/org/forgerock/json/resource/ResourcesTest.java:163-179 | resolving `p` then `q` is resolving `p + q` |
| ResourceFilter.Collect | rest/json-resource/src/test/java/org/forgerock/json/resource/ResourcesTest.java:89-207 | one field fails exactly when it is the root pointer and the content is not an object |
| ResourceFilter.FilterResource | rest/json-resource/src/test/java/org/forgerock/json/resource/ResourcesTest.java:94-155 | no fields, null content or empty content is returned unchanged; any other filtered result is an object |
| ResourceFilter.CollectAllFails | rest/json-resource/src/test/java/org/forgerock/json/resource/ResourcesTest.java:89-207 | filtering fails exactly when the root pointer is asked of content that is not an object |
| ResourceFilter.CollectAllLookup | rest/json-resource/src/test/java/org/forgerock/json/resource/ResourcesTest.java:181-197 | every key holds the value the last field writing it wrote, on top of the accumulator |
| ResourceFilter.CollectAllKeepsKeysUnique | rest/json-resource/src/test/java/org/forgerock/json/resource/ResourcesTest.java:89-207 | the filtered map never holds a key twice |
| ResourceFilter.FilterMatchesReference | rest/json-resource/src/test/java/org/forgerock/json/resource/ResourcesTest.java:89-207 | filtering fails exactly for an array under the root pointer; otherwise the result is an object with distinct keys whose every key holds the value the last field writing it gives (the last-writer-wins reference) |
| ResourceFilter.FilterKeepsFieldOrder | rest/json-resource/src/test/java/org/forgerock/json/resource/ResourcesTest.java:181-197 | when the hits land on distinct keys, the result holds exactly the hits in field order |
| ResourceFilter.RootPointerKeepsObject | rest/json-resource/src/test/java/org/forgerock/json/resource/ResourcesTest.java:151-155 | the root pointer returns a non-empty object's members as they are |
| ResourceFilter.NestedThenParent | rest/json-resource/src/test/java/org/forgerock/json/resource/ResourcesTest.java:187-191 | `/a/b` then `/a` gives `{b, a}` with the whole `a` |
| ResourceFilter.PathThroughScalar | rest/json-resource/src/test/java/org/forgerock/json/resource/ResourcesTest.java:163-167 | a pointer through a scalar resolves to nothing and the result is empty |
| PercentCoding.HexDigit | rest/json-resource/src/test/java/org/forgerock/json/resource/ResourcesTest.java:209-220 | the digit written for a value decodes back to that value |
| PercentCoding.Decode | rest/json-resource/src/test/java/org/forgerock/json/resource/ResourcesTest.java:209-237 | a decoding error points at a `%` of the input |
| PercentCoding.DecodeEncode | rest/json-resource/src/test/java/org/forgerock/json/resource/ResourcesTest.java:209-237 | decoding undoes encoding for every segment |
| PercentCoding.DecodeWithoutPercent | rest/json-resource/src/test/java/org/forgerock/json/resource/ResourcesTest.java:213-217 | text without `%` decodes to itself, so `+` and a space stay as they are |
| PercentCoding.DecodeAll | rest/json-resource/src/test/java/org/forgerock/json/resource/ResourcesTest.java:209-237 | the segments decode one by one; failure exactly when some segment fails |
| PercentCoding.SingleSegment | rest/json-resource/src/test/java/org/forgerock/json/resource/ResourcesTest.java:222-237 | a one-segment path yields that segment, decoded |
| PercentCoding.CollectionRoute | rest/json-resource/src/test/java/org/forgerock/json/resource/ResourcesTest.java:222-237 | an empty path addresses the collection; a single well-formed segment addresses the instance with that decoded id and nothing remaining; a malformed escape is an error exactly when the path does not decode; two or more segments have no route |
| PercentCoding.PlainCollectionIds | rest/json-resource/src/test/java/org/forgerock/json/resource/ResourcesTest.java:213-215 | `test` and `test user` reach readInstance as they are |
| PercentCoding.EncodedSlashId | rest/json-resource/src/test/java/org/forgerock/json/resource/ResourcesTest.java:214 | `test%2fuser` is the id `test/user` |
| PercentCoding.EncodedSpaceId | rest/json-resource/src/test/java/org/forgerock/json/resource/ResourcesTest.java:216 | `test%20user` is the id `test user` |
| PercentCoding.PlusIsNotSpace | rest/json-resource/src/test/java/org/forgerock/json/resource/ResourcesTest.java:217 | `test+%2buser` is the id `test++user` |
| PercentCoding.EscapedId | rest/json-resource/src/test/java/org/forgerock/json/resource/ResourcesTest.java:209-237 | a segment with one escape of any character reaches readInstance with that character in its place |
| Dispatch.Handle | rest/json-resource/src/test/java/org/forgerock/json/resource/ResourcesTest.java:239-572 | an item of a singleton is 404 and nothing else is; only actions are unsupported and only non-actions are bad requests; a resource response carries the provider's content filtered to the requested fields |
| Dispatch.CreateOnResource | rest/json-resource/src/test/java/org/forgerock/json/resource/ResourcesTest.java:257-276 | create succeeds exactly for an implemented create on a non-singleton, and is a bad request otherwise |
| Dispatch.ResourceLevelOps | rest/json-resource/src/test/java/org/forgerock/json/resource/ResourcesTest.java:278-414 | read, update and patch of the resource itself succeed exactly when implemented by a non-collection |
| Dispatch.ItemOps | rest/json-resource/src/test/java/org/forgerock/json/resource/ResourcesTest.java:299-439 | item operations: a request handler answers, a collection answers with the id appended, a singleton is 404, everything else is a bad request |
| Dispatch.ActionOnResource | rest/json-resource/src/test/java/org/forgerock/json/resource/ResourcesTest.java:441-466 | an action on the resource runs exactly when a matching resource or collection action method exists, else it is unsupported |
| Dispatch.ActionOnItem | rest/json-resource/src/test/java/org/forgerock/json/resource/ResourcesTest.java:468-497 | an action on an item runs exactly for collection-level actions, else it is unsupported, or 404 on a singleton |
| Dispatch.QueryOnResource | rest/json-resource/src/test/java/org/forgerock/json/resource/ResourcesTest.java:520-542 | a query runs exactly for an implemented query on a non-singleton |
| Dispatch.ReadResponseIsFiltered | rest/json-resource/src/test/java/org/forgerock/json/resource/ResourcesTest.java:565-572 | reading `users/0` with the field `age` returns only `{age: 20}` |
| Router.AddRoute | rest/json-resource/src/test/java/org/forgerock/json/resource/RouterTest.java:69-95 | a new route goes after the existing ones and the default route is kept |
| Router.CopyOf | rest/json-resource/src/test/java/org/forgerock/json/resource/RouterTest.java:69-95 | the copy has the same routes and default route |
| Router.Evaluate | rest/json-resource/src/test/java/org/forgerock/json/resource/RouterTest.java:97-127 | an exact match leaves nothing; a prefix match leaves the rest of the path; a matching template always yields a match |
| Router.IsBetterMatchThan | rest/json-resource/src/test/java/org/forgerock/json/resource/RouterTest.java:522-539 | comparing with an incomparable match fails in both directions; any match beats no match |
| Router.BetterIsLowerRank | rest/json-resource/src/test/java/org/forgerock/json/resource/RouterTest.java:306-336 | between URI matches, the comparison is the strict order on (remaining length, exact before prefix) |
| Router.BestOfFails | rest/json-resource/src/test/java/org/forgerock/json/resource/RouterTest.java:522-539 | selection fails exactly when some route's matcher yields an incomparable match |
| Router.BestIsFirstLowest | rest/json-resource/src/test/java/org/forgerock/json/resource/RouterTest.java:306-336 | among URI matchers, the chosen route is the first whose match has the lowest rank, and none is chosen exactly when nothing matches |
| Router.ExactMatchWins | rest/json-resource/src/test/java/org/forgerock/json/resource/RouterTest.java:306-336 | a route matching the whole path exactly is never beaten by a prefix route |
| Router.Forward | rest/json-resource/src/test/java/org/forgerock/json/resource/RouterTest.java:128-292 | the request is passed on unchanged exactly when the remaining path is the whole path; otherwise a copy carries the remaining path |
| Router.NothingMatchesGoesToDefault | rest/json-resource/src/test/java/org/forgerock/json/resource/RouterTest.java:128-292 | when no URI route matches, the default route's handler gets the request with the context's remaining path, or the request's own path; it is the same request exactly when that path is the request's |
| Router.RouteRequest | rest/json-resource/src/test/java/org/forgerock/json/resource/RouterTest.java:128-539 | the best route's handler gets the remaining path; with no match the default route's handler gets the context's remaining path, or the request's own path without a context; no route is a 404 `Resource '<path>' not found` for resource requests and an illegal state for API requests; an incomparable match is unsupported for API requests |
| Router.CopyRoutesAlike | rest/json-resource/src/test/java/org/forgerock/json/resource/RouterTest.java:69-95 | a copied router routes every request as the original does |
| Router.CopiedRouterExample | rest/json-resource/src/test/java/org/forgerock/json/resource/RouterTest.java:69-95 | the copy of a router with a prefix route, an exact route and a default sends each test path to the same handler |
| Router.DefaultRouteForwarding | rest/json-resource/src/test/java/org/forgerock/json/resource/RouterTest.java:128-292 | through the default route the request is forwarded as it is exactly when the remaining path is the request's own path |
| Router.ExactBeforePrefixExample | rest/json-resource/src/test/java/org/forgerock/json/resource/RouterTest.java:294-336 | `users` goes to the exact route, `users/bjensen` to the prefix route with `bjensen` remaining, `groups` to the default route unchanged |
| Router.NoRouteIsNotFound | rest/json-resource/src/test/java/org/forgerock/json/resource/RouterTest.java:338-505 | every resource request for `users/demo` on an empty router is a 404 `Resource 'users/demo' not found` |
| Router.NoRouteApiRequest | rest/json-resource/src/test/java/org/forgerock/json/resource/RouterTest.java:507-520 | an API request on an empty router is an illegal state |
| Router.IncomparableApiRequest | rest/json-resource/src/test/java/org/forgerock/json/resource/RouterTest.java:522-539 | an API request whose match cannot be compared is unsupported |
| Router.CollectionProviderReadsInstance | rest/json-resource/src/test/java/org/forgerock/json/resource/RouterTest.java:97-111 | a read of `users/demo` under a `users` prefix route reaches the collection's readInstance for `demo` |
| Router.SingletonProviderReadsResource | rest/json-resource/src/test/java/org/forgerock/json/resource/RouterTest.java:113-127 | a read of `config` under an exact `config` route reaches the singleton with nothing remaining, and the singleton reads itself |

## Left out

- Logging, auditing and the `AuditApi` calls of the runtime are not modelled. They do not change a response.
- Asynchrony: promises are modelled by their settled outcome. Threading and the order in which callbacks are registered are not modelled.
- The module chain's policy for falling through several modules is an opaque outcome given as a parameter. The `Scenario` records what `validateRequest`, `secureResponse` and `cleanSubject` answered as a whole.
- The keys of the request attributes are an enumeration. Their string values are not modelled.
- AuthTypes.ResolvePrincipal: the context's principal takes precedence over the client subject's first principal. The tests check each source on its own, so the order when both are present is the model's choice.
- AuthRuntime.ProcessMessage: publishes the principal key, mapped to null, even when no principal was resolved, because the success test expects the key after a validation that set none.
- AuthRuntime.ProcessMessage: writes the request id on every path. The tests check it only on the success path.
- FilterBuilder.Build: the exact text of exceptions and the logger's name resolution are not modelled. A named logger is an opaque value.
- FilterBuilder.Build: initializes the session module first and then the auth modules in order, and stops at the first module that fails. The tests verify each initialization without an order and never have a failing one, so the order and which failure is reported are the model's choice.
- The benchmark tests of the audit JSON handler and the annotation package description are outside the modelled core.
- Numbers in JSON are integers. Floating point is not modelled.
- PercentCoding.Decode: decodes each escape to the code point of its byte. Multi-byte UTF-8 sequences are not combined into one character. A malformed escape is an error.
- PercentCoding.CollectionRoute: paths of two or more segments are a routing error. Sub-resource paths below an instance are not modelled.
- JsonPointer.Parse: empty reference tokens are dropped, so `/` and the empty text are both the root pointer, and text that does not start with `/` is accepted. Section 3 of RFC 6901 reads `/` as the member named by the empty string and rejects such text. The filter tests (ResourcesTest.java:98-155) need `/` to be the root.
- JsonPointer.Child: an array index must be all decimal digits. Leading zeros are accepted, and `-` is not an index.
- Dispatch.Handle: cells of the dispatch table that no test exercises follow the same rule as the tested cells. These are create and query on an item, and delete of the resource itself: a bad request for a singleton or a collection, and `delete` for a request handler.
- The overloaded action-name test (ResourcesTest.java:499-518) is not modelled. Action names are free strings and every action method takes any name.
- API descriptors, `Describable` handlers, sub-path handling and interface-based providers (ResourcesTest.java:574-981) are not modelled.
- The handlers' id results in the dispatch lemmas are the test providers' convention: the operation name, followed by `-` and the id for collection items.
- Router.RouteRequest: an incomparable match on a resource request gives a distinct `IncomparableMatch` error. The tests show only the API request case.
- Router.BestIsFirstLowest: among equally good matches the earlier route wins. The tests never have two equally good matches.
- The URI template matcher is reduced to literal and variable segments. Template syntax and parsing are not modelled.
