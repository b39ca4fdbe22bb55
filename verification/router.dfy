/** The request router: an ordered list of routes, each a URI matcher and a
    handler, plus an optional default route. A request goes to the route
    whose match is best; the request is forwarded unchanged when the URI left
    over after the match is its own resource path, and as a copy with that
    remaining path otherwise. */
module Router {
  import opened Wrappers
  import JsonPointer
  import Json
  import Dispatch
  import PercentCoding

  /** `RoutingMode`: the template must cover the whole path, or a prefix of it. */
  datatype Mode = Equals | StartsWith

  datatype SegmentPattern = Literal(text: string) | Variable(name: string)

  /** Handlers are opaque; routes name them by number. */
  type HandlerId = nat

  /** A URI template matcher, or a matcher whose matches cannot be compared
      with any other match (a stand-in for a matcher the router does not know). */
  datatype Matcher =
    | UriMatcher(mode: Mode, template: seq<SegmentPattern>)
    | OpaqueMatcher(matches: bool)

  datatype RouteMatch =
    | UriMatch(mode: Mode, remaining: seq<string>, variables: map<string, string>)
    | OpaqueMatch

  datatype Route = Route(matcher: Matcher, handler: HandlerId)

  datatype RouterState = RouterState(routes: seq<Route>, defaultRoute: Option<HandlerId>)

  function NewRouter(): RouterState
  {
    RouterState([], None)
  }

  /** `addRoute`: the new route goes after the existing ones. */
  function AddRoute(router: RouterState, matcher: Matcher, handler: HandlerId): (r: RouterState)
    ensures r.routes == router.routes + [Route(matcher, handler)]
    ensures r.defaultRoute == router.defaultRoute
  {
    router.(routes := router.routes + [Route(matcher, handler)])
  }

  function SetDefaultRoute(router: RouterState, handler: HandlerId): (r: RouterState)
    ensures r.defaultRoute == Some(handler) && r.routes == router.routes
  {
    router.(defaultRoute := Some(handler))
  }

  /** `new Router(Router)`: a router with the same routes and default route. */
  function CopyOf(router: RouterState): (r: RouterState)
    ensures r.routes == router.routes && r.defaultRoute == router.defaultRoute
  {
    RouterState(router.routes, router.defaultRoute)
  }

  // ---------------------------------------------------------------------------
  // Matching
  // ---------------------------------------------------------------------------

  predicate SegmentMatches(p: SegmentPattern, segment: string)
  {
    p.Literal? ==> p.text == segment
  }

  /** The template matches the first segments of the path. */
  predicate PrefixMatches(template: seq<SegmentPattern>, path: seq<string>)
  {
    |template| <= |path| && forall i :: 0 <= i < |template| ==> SegmentMatches(template[i], path[i])
  }

  /** The values the template's variables take. */
  function Bindings(template: seq<SegmentPattern>, path: seq<string>): map<string, string>
    requires |template| <= |path|
    decreases |template|
  {
    if |template| == 0 then map[]
    else
      var rest := Bindings(template[1..], path[1..]);
      if template[0].Variable? then rest[template[0].name := path[0]] else rest
  }

  /** `RouteMatcher.evaluate`. */
  function Evaluate(m: Matcher, path: seq<string>): (r: Option<RouteMatch>)
    ensures m.OpaqueMatcher? ==> (r.Some? <==> m.matches) && (r.Some? ==> r.value.OpaqueMatch?)
    ensures m.UriMatcher? && r.Some? ==>
      r.value.UriMatch? && r.value.mode == m.mode
      && |m.template| + |r.value.remaining| == |path|
      && r.value.remaining == path[|m.template|..]
      && PrefixMatches(m.template, path)
    ensures m.UriMatcher? && r.Some? && m.mode == Equals ==> r.value.remaining == []
    ensures m.UriMatcher? && PrefixMatches(m.template, path) && (m.mode == StartsWith || |m.template| == |path|) ==> r.Some?
  {
    match m
    case OpaqueMatcher(matches) => if matches then Some(OpaqueMatch) else None
    case UriMatcher(mode, template) =>
      if PrefixMatches(template, path) && (mode == StartsWith || |template| == |path|)
      then Some(UriMatch(mode, path[|template|..], Bindings(template, path)))
      else None
  }

  datatype Incomparable = Incomparable

  /** `RouteMatch.isBetterMatchThan`: fewer remaining segments wins, and on a
      tie an exact match beats a prefix match. Any match beats no match, and a
      match that is not a URI match cannot be compared with anything. */
  function IsBetterMatchThan(m: RouteMatch, best: Option<RouteMatch>): (r: Result<bool, Incomparable>)
    ensures r.Err? <==> m.OpaqueMatch? || (best.Some? && best.value.OpaqueMatch?)
    ensures r.Ok? && best.None? ==> r.value
  {
    if m.OpaqueMatch? then Err(Incomparable)
    else if best.None? then Ok(true)
    else if best.value.OpaqueMatch? then Err(Incomparable)
    else if |m.remaining| != |best.value.remaining| then Ok(|m.remaining| < |best.value.remaining|)
    else Ok(m.mode == Equals && best.value.mode == StartsWith)
  }

  /** A URI match's place in the preference order: lower is better. */
  function Rank(m: RouteMatch): nat
    requires m.UriMatch?
  {
    2 * |m.remaining| + (if m.mode == Equals then 0 else 1)
  }

  /** The comparison is the strict order of ranks. */
  lemma BetterIsLowerRank(m: RouteMatch, best: RouteMatch)
    requires m.UriMatch? && best.UriMatch?
    ensures IsBetterMatchThan(m, Some(best)) == Ok(Rank(m) < Rank(best))
  {
  }

  datatype Best = Best(index: nat, m: RouteMatch)

  /** One route tried: its match, if any, replaces the best so far only when
      it is strictly better, so ties keep the earlier route. */
  function Step(prev: Result<Option<Best>, Incomparable>, index: nat, m: Option<RouteMatch>): Result<Option<Best>, Incomparable>
  {
    match prev
    case Err(e) => Err(e)
    case Ok(best) =>
      if m.None? then Ok(best)
      else
        match IsBetterMatchThan(m.value, if best.Some? then Some(best.value.m) else None)
        case Err(e) => Err(e)
        case Ok(better) => if better then Ok(Some(Best(index, m.value))) else Ok(best)
  }

  /** `getBestMatch`: the routes tried in order. */
  function BestOf(routes: seq<Route>, path: seq<string>): (r: Result<Option<Best>, Incomparable>)
    ensures r.Ok? && r.value.Some? ==>
      var b := r.value.value;
      b.index < |routes| && Evaluate(routes[b.index].matcher, path) == Some(b.m) && b.m.UriMatch?
    decreases |routes|
  {
    if |routes| == 0 then Ok(None)
    else
      var last := |routes| - 1;
      Step(BestOf(routes[..last], path), last, Evaluate(routes[last].matcher, path))
  }

  lemma BestOfSnoc(routes: seq<Route>, route: Route, path: seq<string>)
    ensures BestOf(routes + [route], path) == Step(BestOf(routes, path), |routes|, Evaluate(route.matcher, path))
  {
    assert (routes + [route])[..|routes|] == routes;
  }

  lemma BestOfTwo(r0: Route, r1: Route, path: seq<string>)
    ensures BestOf([r0, r1], path) == Step(Step(Ok(None), 0, Evaluate(r0.matcher, path)), 1, Evaluate(r1.matcher, path))
  {
    BestOfSnoc([], r0, path);
    BestOfSnoc([r0], r1, path);
    assert [] + [r0] == [r0] && [r0] + [r1] == [r0, r1];
  }

  /** A matcher whose match cannot be compared fails the selection exactly
      when it matches. */
  lemma {:induction false} BestOfFails(routes: seq<Route>, path: seq<string>)
    ensures BestOf(routes, path).Err? <==> exists i :: 0 <= i < |routes| && routes[i].matcher == OpaqueMatcher(true)
    decreases |routes|
  {
    if |routes| > 0 {
      var last := |routes| - 1;
      var init := routes[..last];
      BestOfFails(init, path);
      assert forall i :: 0 <= i < last ==> init[i] == routes[i];
      var prev := BestOf(init, path);
      if prev.Err? {
        var i :| 0 <= i < |init| && init[i].matcher == OpaqueMatcher(true);
        assert routes[i].matcher == OpaqueMatcher(true);
      } else {
        assert forall i :: 0 <= i < |routes| && routes[i].matcher == OpaqueMatcher(true) ==> i == last;
      }
    }
  }

  predicate AllUri(routes: seq<Route>)
  {
    forall i :: 0 <= i < |routes| ==> routes[i].matcher.UriMatcher?
  }

  /** The route chosen among URI matchers is the FIRST route whose match has
      the lowest rank; there is none exactly when no route matches. */
  lemma {:induction false} BestIsFirstLowest(routes: seq<Route>, path: seq<string>)
    requires AllUri(routes)
    ensures BestOf(routes, path).Ok? && FirstLowest(routes, path, BestOf(routes, path).value)
    ensures BestOf(routes, path).value.None? <==> forall j :: 0 <= j < |routes| ==> Evaluate(routes[j].matcher, path).None?
    ensures BestOf(routes, path).Ok? && BestOf(routes, path).value.Some? ==>
      var b := BestOf(routes, path).value.value;
      forall j :: 0 <= j < |routes| && Evaluate(routes[j].matcher, path).Some? ==>
        Rank(b.m) <= Rank(Evaluate(routes[j].matcher, path).value)
        && (j < b.index ==> Rank(b.m) < Rank(Evaluate(routes[j].matcher, path).value))
    decreases |routes|
  {
    if |routes| > 0 {
      var last := |routes| - 1;
      var init := routes[..last];
      BestIsFirstLowest(init, path);
      StepKeepsFirstLowest(routes, path, BestOf(init, path).value);
    }
  }

  /** `best` is the first route of `routes` whose match has the lowest rank,
      or none when no route matches. */
  predicate FirstLowest(routes: seq<Route>, path: seq<string>, best: Option<Best>)
  {
    && (best.None? <==> forall j :: 0 <= j < |routes| ==> Evaluate(routes[j].matcher, path).None?)
    && (best.Some? ==>
          best.value.m.UriMatch? && best.value.index < |routes|
          && forall j :: 0 <= j < |routes| && Evaluate(routes[j].matcher, path).Some? ==>
               Evaluate(routes[j].matcher, path).value.UriMatch?
               && Rank(best.value.m) <= Rank(Evaluate(routes[j].matcher, path).value)
               && (j < best.value.index ==> Rank(best.value.m) < Rank(Evaluate(routes[j].matcher, path).value)))
  }

  /** Trying one more URI route keeps the first lowest-ranked match. */
  lemma StepKeepsFirstLowest(routes: seq<Route>, path: seq<string>, best: Option<Best>)
    requires AllUri(routes) && |routes| > 0
    requires FirstLowest(routes[..|routes| - 1], path, best)
    ensures var next := Step(Ok(best), |routes| - 1, Evaluate(routes[|routes| - 1].matcher, path));
      next.Ok? && FirstLowest(routes, path, next.value)
  {
    var last := |routes| - 1;
    var init := routes[..last];
    assert forall i :: 0 <= i < last ==> init[i] == routes[i];
    match Evaluate(routes[last].matcher, path)
    case None =>
    case Some(m) =>
      if best.Some? {
        BetterIsLowerRank(m, best.value.m);
      }
  }

  /** An exact match of the whole path wins over every prefix match. */
  lemma ExactMatchWins(routes: seq<Route>, path: seq<string>, i: nat)
    requires AllUri(routes)
    requires i < |routes| && routes[i].matcher.mode == Equals && Evaluate(routes[i].matcher, path).Some?
    ensures BestOf(routes, path).Ok? && BestOf(routes, path).value.Some?
    ensures var b := BestOf(routes, path).value.value;
      b.m.mode == Equals && b.m.remaining == [] && routes[b.index].matcher.mode == Equals
  {
    BestIsFirstLowest(routes, path);
    var b := BestOf(routes, path).value.value;
    assert Rank(Evaluate(routes[i].matcher, path).value) == 0;
  }

  // ---------------------------------------------------------------------------
  // Routing a request
  // ---------------------------------------------------------------------------

  datatype RequestKind = ApiRequest | ResourceRequest(op: Dispatch.Op)

  datatype Request = Request(kind: RequestKind, path: seq<string>)

  /** What the chosen handler receives: the very same request, or a copy whose
      resource path is the remaining URI. */
  datatype Forwarded = SameRequest | CopyWithPath(path: seq<string>)

  datatype Routed = Routed(handler: HandlerId, request: Forwarded, remaining: seq<string>)

  datatype RouteError =
    | NotFound(code: int, message: string)
    | IllegalState
    | UnsupportedOperation
    | IncomparableMatch

  /** The resource path as text: its segments separated by `/`. */
  function PathText(path: seq<string>): string
  {
    if |path| == 0 then "" else JsonPointer.Join(path)
  }

  function Forward(request: Request, remaining: seq<string>): (f: Forwarded)
    ensures f.SameRequest? <==> remaining == request.path
    ensures f.CopyWithPath? ==> f.path == remaining
  {
    if remaining == request.path then SameRequest else CopyWithPath(remaining)
  }

  /** Routing one request. `context` is the remaining URI of an enclosing
      router's context, when there is one; the default route forwards that
      (or the request's own path) since it matched nothing itself. */
  function RouteRequest(router: RouterState, context: Option<seq<string>>, request: Request): (r: Result<Routed, RouteError>)
    ensures r.Ok? ==> (r.value.request.SameRequest? <==> r.value.remaining == request.path)
    ensures r.Ok? && r.value.request.CopyWithPath? ==> r.value.request.path == r.value.remaining
    ensures BestOf(router.routes, request.path).Ok? && BestOf(router.routes, request.path).value.Some? ==>
      var b := BestOf(router.routes, request.path).value.value;
      r.Ok? && r.value.handler == router.routes[b.index].handler && r.value.remaining == b.m.remaining
    ensures BestOf(router.routes, request.path) == Ok(None) && router.defaultRoute.Some? ==>
      r.Ok? && r.value.handler == router.defaultRoute.value
      && r.value.remaining == (if context.Some? then context.value else request.path)
    ensures r.Err? && r.error.NotFound? <==>
      request.kind.ResourceRequest? && BestOf(router.routes, request.path) == Ok(None) && router.defaultRoute.None?
    ensures r.Err? && r.error.IllegalState? <==>
      request.kind.ApiRequest? && BestOf(router.routes, request.path) == Ok(None) && router.defaultRoute.None?
    ensures r.Err? && r.error.UnsupportedOperation? <==> request.kind.ApiRequest? && BestOf(router.routes, request.path).Err?
    ensures r.Err? && r.error.IncomparableMatch? <==> request.kind.ResourceRequest? && BestOf(router.routes, request.path).Err?
    ensures r.Err? && r.error.NotFound? ==> r.error.code == 404 && r.error.message == "Resource '" + PathText(request.path) + "' not found"
  {
    match BestOf(router.routes, request.path)
    case Err(_) => Err(if request.kind.ApiRequest? then UnsupportedOperation else IncomparableMatch)
    case Ok(None) =>
      if router.defaultRoute.Some? then
        var remaining := if context.Some? then context.value else request.path;
        Ok(Routed(router.defaultRoute.value, Forward(request, remaining), remaining))
      else if request.kind.ApiRequest? then Err(IllegalState)
      else Err(NotFound(404, "Resource '" + PathText(request.path) + "' not found"))
    case Ok(Some(b)) =>
      Ok(Routed(router.routes[b.index].handler, Forward(request, b.m.remaining), b.m.remaining))
  }

  // ---------------------------------------------------------------------------
  // Properties the router tests pin down
  // ---------------------------------------------------------------------------

  /** When no URI route matches, the default route's handler gets the request,
      with the enclosing context's remaining URI or else the request's own path. */
  lemma NothingMatchesGoesToDefault(router: RouterState, context: Option<seq<string>>, request: Request)
    requires AllUri(router.routes) && router.defaultRoute.Some?
    requires forall j :: 0 <= j < |router.routes| ==> Evaluate(router.routes[j].matcher, request.path).None?
    ensures var r := RouteRequest(router, context, request);
      && r.Ok? && r.value.handler == router.defaultRoute.value
      && r.value.remaining == (if context.Some? then context.value else request.path)
      && (r.value.request.SameRequest? <==> context.None? || context.value == request.path)
  {
    BestIsFirstLowest(router.routes, request.path);
  }

  /** A copied router routes every request exactly as the original does. */
  lemma CopyRoutesAlike(router: RouterState, context: Option<seq<string>>, request: Request)
    ensures RouteRequest(CopyOf(router), context, request) == RouteRequest(router, context, request)
  {
  }

  /** The router of the copy test: `users/{id}` (prefix), `config` (exact) and a default. */
  function CopyTestRouter(): RouterState
  {
    SetDefaultRoute(AddRoute(AddRoute(NewRouter(),
      UriMatcher(StartsWith, [Literal("users"), Variable("id")]), 1),
      UriMatcher(Equals, [Literal("config")]), 2), 3)
  }

  /** The copy of that router sends `users/demo` to the first route, `config`
      to the second and `groups/admin` to the default. */
  lemma CopiedRouterExample(router: RouterState, op: Dispatch.Op)
    requires router == CopyOf(CopyTestRouter())
    ensures RouteRequest(router, None, Request(ResourceRequest(op), ["users", "demo"])) == Ok(Routed(1, CopyWithPath([]), []))
    ensures RouteRequest(router, None, Request(ResourceRequest(op), ["config"])) == Ok(Routed(2, CopyWithPath([]), []))
    ensures RouteRequest(router, None, Request(ResourceRequest(op), ["groups", "admin"]))
         == Ok(Routed(3, SameRequest, ["groups", "admin"]))
  {
    var r0 := Route(UriMatcher(StartsWith, [Literal("users"), Variable("id")]), 1);
    var r1 := Route(UriMatcher(Equals, [Literal("config")]), 2);
    assert [] + [r0] == [r0] && [r0] + [r1] == [r0, r1];
    assert router == RouterState([r0, r1], Some(3));
    CopyUsersDemo(r0, r1, router, op, ["users", "demo"]);
    CopyConfig(r0, r1, router, op, ["config"]);
    CopyGroupsAdmin(r0, r1, router, op, ["groups", "admin"]);
  }

  lemma CopyUsersDemo(r0: Route, r1: Route, router: RouterState, op: Dispatch.Op, path: seq<string>)
    requires r0 == Route(UriMatcher(StartsWith, [Literal("users"), Variable("id")]), 1)
    requires r1 == Route(UriMatcher(Equals, [Literal("config")]), 2)
    requires router == RouterState([r0, r1], Some(3)) && path == ["users", "demo"]
    ensures RouteRequest(router, None, Request(ResourceRequest(op), path)) == Ok(Routed(1, CopyWithPath([]), []))
  {
    BestOfTwo(r0, r1, path);
    assert Evaluate(r0.matcher, path) == Some(UriMatch(StartsWith, [], map["id" := "demo"]));
    assert Evaluate(r1.matcher, path).None?;
  }

  lemma CopyConfig(r0: Route, r1: Route, router: RouterState, op: Dispatch.Op, path: seq<string>)
    requires r0 == Route(UriMatcher(StartsWith, [Literal("users"), Variable("id")]), 1)
    requires r1 == Route(UriMatcher(Equals, [Literal("config")]), 2)
    requires router == RouterState([r0, r1], Some(3)) && path == ["config"]
    ensures RouteRequest(router, None, Request(ResourceRequest(op), path)) == Ok(Routed(2, CopyWithPath([]), []))
  {
    BestOfTwo(r0, r1, path);
    assert Evaluate(r0.matcher, path).None?;
    assert Evaluate(r1.matcher, path) == Some(UriMatch(Equals, [], map[]));
  }

  lemma CopyGroupsAdmin(r0: Route, r1: Route, router: RouterState, op: Dispatch.Op, path: seq<string>)
    requires r0 == Route(UriMatcher(StartsWith, [Literal("users"), Variable("id")]), 1)
    requires r1 == Route(UriMatcher(Equals, [Literal("config")]), 2)
    requires router == RouterState([r0, r1], Some(3)) && path == ["groups", "admin"]
    ensures RouteRequest(router, None, Request(ResourceRequest(op), path)) == Ok(Routed(3, SameRequest, path))
  {
    BestOfTwo(r0, r1, path);
    assert !PrefixMatches(r0.matcher.template, path);
    assert Evaluate(r1.matcher, path).None?;
  }

  /** With only a default route, the request is forwarded as it is exactly when
      the enclosing context's remaining URI is its resource path. */
  lemma DefaultRouteForwarding(handler: HandlerId, remaining: seq<string>, request: Request)
    ensures var r := RouteRequest(SetDefaultRoute(NewRouter(), handler), Some(remaining), request);
      r.Ok? && r.value.handler == handler
      && r.value.request == (if remaining == request.path then SameRequest else CopyWithPath(remaining))
  {
  }

  /** The router of the API routing test: an exact `users` route, a prefix
      `users` route and a default. */
  function ApiTestRouter(): RouterState
  {
    SetDefaultRoute(AddRoute(AddRoute(NewRouter(),
      UriMatcher(Equals, [Literal("users")]), 1),
      UriMatcher(StartsWith, [Literal("users")]), 2), 3)
  }

  /** For API requests, `users` goes to the exact route with nothing remaining,
      `users/bjensen` to the prefix route with `bjensen` remaining, and `groups`
      to the default route as the very same request. */
  lemma ExactBeforePrefixExample(router: RouterState)
    requires router == ApiTestRouter()
    ensures RouteRequest(router, Some([]), Request(ApiRequest, ["users"])) == Ok(Routed(1, CopyWithPath([]), []))
    ensures RouteRequest(router, Some(["bjensen"]), Request(ApiRequest, ["users", "bjensen"]))
         == Ok(Routed(2, CopyWithPath(["bjensen"]), ["bjensen"]))
    ensures RouteRequest(router, Some(["groups"]), Request(ApiRequest, ["groups"])) == Ok(Routed(3, SameRequest, ["groups"]))
  {
    var r0 := Route(UriMatcher(Equals, [Literal("users")]), 1);
    var r1 := Route(UriMatcher(StartsWith, [Literal("users")]), 2);
    assert [] + [r0] == [r0] && [r0] + [r1] == [r0, r1];
    assert router == RouterState([r0, r1], Some(3));
    ApiUsers(r0, r1, router, ["users"]);
    ApiUsersBjensen(r0, r1, router, ["users", "bjensen"]);
    ApiGroups(r0, r1, router, ["groups"]);
  }

  lemma ApiUsers(r0: Route, r1: Route, router: RouterState, path: seq<string>)
    requires r0 == Route(UriMatcher(Equals, [Literal("users")]), 1)
    requires r1 == Route(UriMatcher(StartsWith, [Literal("users")]), 2)
    requires router == RouterState([r0, r1], Some(3)) && path == ["users"]
    ensures RouteRequest(router, Some([]), Request(ApiRequest, path)) == Ok(Routed(1, CopyWithPath([]), []))
  {
    var m0 := UriMatch(Equals, [], map[]);
    var m1 := UriMatch(StartsWith, [], map[]);
    assert Evaluate(r0.matcher, path) == Some(m0);
    assert Evaluate(r1.matcher, path) == Some(m1);
    var first := Step(Ok(None), 0, Some(m0));
    assert first == Ok(Some(Best(0, m0)));
    assert IsBetterMatchThan(m1, Some(m0)) == Ok(false);
    assert Step(first, 1, Some(m1)) == first;
    BestOfTwo(r0, r1, path);
    assert BestOf(router.routes, path) == first;
  }

  lemma ApiUsersBjensen(r0: Route, r1: Route, router: RouterState, path: seq<string>)
    requires r0 == Route(UriMatcher(Equals, [Literal("users")]), 1)
    requires r1 == Route(UriMatcher(StartsWith, [Literal("users")]), 2)
    requires router == RouterState([r0, r1], Some(3)) && path == ["users", "bjensen"]
    ensures RouteRequest(router, Some(["bjensen"]), Request(ApiRequest, path)) == Ok(Routed(2, CopyWithPath(["bjensen"]), ["bjensen"]))
  {
    BestOfTwo(r0, r1, path);
    assert Evaluate(r0.matcher, path).None?;
    assert path[1..] == ["bjensen"];
    assert Evaluate(r1.matcher, path) == Some(UriMatch(StartsWith, ["bjensen"], map[]));
  }

  lemma ApiGroups(r0: Route, r1: Route, router: RouterState, path: seq<string>)
    requires r0 == Route(UriMatcher(Equals, [Literal("users")]), 1)
    requires r1 == Route(UriMatcher(StartsWith, [Literal("users")]), 2)
    requires router == RouterState([r0, r1], Some(3)) && path == ["groups"]
    ensures RouteRequest(router, Some(["groups"]), Request(ApiRequest, path)) == Ok(Routed(3, SameRequest, path))
  {
    BestOfTwo(r0, r1, path);
    assert Evaluate(r0.matcher, path).None?;
    assert Evaluate(r1.matcher, path).None?;
  }

  /** Without routes or a default route every resource request fails with 404. */
  lemma NoRouteIsNotFound(op: Dispatch.Op, context: Option<seq<string>>)
    ensures RouteRequest(NewRouter(), context, Request(ResourceRequest(op), ["users", "demo"]))
         == Err(NotFound(404, "Resource 'users/demo' not found"))
  {
    var path := ["users", "demo"];
    assert path[1..] == ["demo"];
    assert PathText(path) == "users" + "/" + "demo" == "users/demo";
    assert BestOf(NewRouter().routes, path) == Ok(None);
    assert "Resource '" + "users/demo" + "' not found" == "Resource 'users/demo' not found";
  }

  /** Without routes or a default route an API request is an illegal state. */
  lemma NoRouteApiRequest(context: Option<seq<string>>, path: seq<string>)
    ensures RouteRequest(NewRouter(), context, Request(ApiRequest, path)) == Err(IllegalState)
  {
  }

  /** A match that cannot be compared fails an API request as unsupported. */
  lemma IncomparableApiRequest(handler: HandlerId, context: Option<seq<string>>, path: seq<string>)
    ensures RouteRequest(AddRoute(NewRouter(), OpaqueMatcher(true), handler), context, Request(ApiRequest, path))
         == Err(UnsupportedOperation)
  {
    var routes := [Route(OpaqueMatcher(true), handler)];
    BestOfFails(routes, path);
    assert routes[0].matcher == OpaqueMatcher(true);
  }

  /** A collection provider is mounted under a prefix route; what remains of
      `users/demo` is the instance id `demo` for the collection. */
  lemma CollectionProviderReadsInstance(handler: HandlerId, op: Dispatch.Op)
    ensures var router := AddRoute(NewRouter(), UriMatcher(StartsWith, [Literal("users")]), handler);
      var r := RouteRequest(router, None, Request(ResourceRequest(op), ["users", "demo"]));
      r.Ok? && r.value.handler == handler
      && PercentCoding.CollectionRoute(PathText(r.value.remaining)) == Ok(PercentCoding.Instance("demo", []))
  {
    var route := Route(UriMatcher(StartsWith, [Literal("users")]), handler);
    BestOfSnoc([], route, ["users", "demo"]);
    assert [] + [route] == [route];
    assert Evaluate(route.matcher, ["users", "demo"]) == Some(UriMatch(StartsWith, ["demo"], map[]));
    assert PathText(["demo"]) == "demo";
    PercentCoding.DecodeWithoutPercent("demo", 0);
    PercentCoding.SingleSegment("demo", "demo");
  }

  /** A singleton provider is mounted under an exact route: `config` leaves
      nothing remaining, so the singleton itself is read. */
  lemma SingletonProviderReadsResource(handler: HandlerId, caps: Dispatch.Caps, content: Json.Json)
    requires caps.read
    ensures var router := AddRoute(NewRouter(), UriMatcher(Equals, [Literal("config")]), handler);
      var r := RouteRequest(router, None, Request(ResourceRequest(Dispatch.Read), ["config"]));
      && r.Ok? && r.value.handler == handler && r.value.remaining == []
      && Dispatch.Handle(Dispatch.Singleton, caps, Dispatch.Read, None, content, []).Resource?
  {
    var route := Route(UriMatcher(Equals, [Literal("config")]), handler);
    BestOfSnoc([], route, ["config"]);
    assert [] + [route] == [route];
    assert Evaluate(route.matcher, ["config"]) == Some(UriMatch(Equals, [], map[]));
  }
}
