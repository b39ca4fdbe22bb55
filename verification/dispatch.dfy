/** How a handler built from an annotated provider answers a request, by
    provider variant (singleton, collection, plain request handler), by the
    operations the provider implements, and by whether the request names an
    item of the resource. */
module Dispatch {
  import opened Wrappers
  import opened Json
  import JsonPointer
  import ResourceFilter

  datatype Variant = Singleton | Collection | RequestHandler

  /** The methods a provider class implements; the action flags distinguish
      actions on the resource itself from actions on a whole collection. */
  datatype Caps = Caps(
    create: bool, read: bool, update: bool, delete: bool, patch: bool,
    resourceAction: bool, collectionAction: bool, query: bool)

  datatype Op = Create | Read | Update | Delete | Patch | Action(name: string) | Query

  /** A successful resource operation carries the id the provider returned and
      its content restricted to the requested fields. */
  datatype Outcome =
    | Resource(id: string, content: Result<Json, ResourceFilter.FilterError>)
    | ActionResult(result: string)
    | QueryResult(cookie: string)
    | BadRequest
    | NotSupported
    | NotFound

  /** Whether the variant routes this operation to a provider method at all:
      a singleton has only itself, a collection splits into the collection
      (create, query) and its items (read, update, delete, patch), and a
      request handler takes everything. Actions are routed separately. */
  predicate Routed(v: Variant, op: Op, item: bool)
    requires !op.Action?
  {
    match v
    case RequestHandler => true
    case Singleton => !item && (op.Read? || op.Update? || op.Patch?)
    case Collection => if item then op.Read? || op.Update? || op.Delete? || op.Patch? else op.Create? || op.Query?
  }

  function Implemented(caps: Caps, op: Op): bool
    requires !op.Action?
  {
    match op
    case Create => caps.create
    case Read => caps.read
    case Update => caps.update
    case Delete => caps.delete
    case Patch => caps.patch
    case Query => caps.query
  }

  /** Whether an action reaches an action method: on an item only collection-level
      action methods apply; on the resource itself a collection's or a request
      handler's collection actions, or a singleton's or a request handler's
      resource actions. */
  predicate ActionRouted(v: Variant, caps: Caps, item: bool)
  {
    if item then caps.collectionAction
    else (v != Singleton && caps.collectionAction) || (v != Collection && caps.resourceAction)
  }

  function OpName(op: Op): string
    requires !op.Action? && !op.Query?
  {
    match op
    case Create => "create"
    case Read => "read"
    case Update => "update"
    case Delete => "delete"
    case Patch => "patch"
  }

  /** Collection item methods receive the item id and the test providers
      append it to what they return; the other variants do not see it. */
  function Suffix(v: Variant, id: Option<string>): string
  {
    if v == Collection && id.Some? then "-" + id.value else ""
  }

  /** The outcome of one request. `content` is what the provider's method
      returns and `fields` the pointers the request asks for. */
  function Handle(v: Variant, caps: Caps, op: Op, id: Option<string>, content: Json, fields: seq<JsonPointer.Pointer>): (r: Outcome)
    ensures r.NotFound? <==> v == Singleton && id.Some?
    ensures r.NotSupported? ==> op.Action?
    ensures r.BadRequest? ==> !op.Action?
    ensures r.Resource? ==> r.content == ResourceFilter.FilterResource(content, fields)
  {
    if v == Singleton && id.Some? then NotFound
    else if op.Action? then
      if ActionRouted(v, caps, id.Some?) then ActionResult(op.name + Suffix(v, id)) else NotSupported
    else if !Routed(v, op, id.Some?) || !Implemented(caps, op) then BadRequest
    else if op.Query? then QueryResult("query")
    else Resource(OpName(op) + Suffix(v, id), ResourceFilter.FilterResource(content, fields))
  }

  // ---------------------------------------------------------------------------
  // The expectations of the dispatch tests, each as the test states it
  // ---------------------------------------------------------------------------

  /** What a test observes of an outcome: the returned id, the action result,
      the paging cookie, or the kind of failure. */
  datatype Observed = Id(id: string) | ActionText(text: string) | Cookie(cookie: string) | Failed(kind: Outcome)

  function Observe(o: Outcome): Observed
  {
    match o
    case Resource(id, _) => Id(id)
    case ActionResult(result) => ActionText(result)
    case QueryResult(cookie) => Cookie(cookie)
    case _ => Failed(o)
  }

  /** Create on the resource succeeds only for an implemented, non-singleton create. */
  lemma CreateOnResource(v: Variant, caps: Caps, content: Json, fields: seq<JsonPointer.Pointer>)
    ensures Observe(Handle(v, caps, Create, None, content, fields))
         == if caps.create && v != Singleton then Id("create") else Failed(BadRequest)
  {
  }

  /** Read, update and patch of the resource itself succeed unless it is a collection. */
  lemma ResourceLevelOps(v: Variant, caps: Caps, op: Op, content: Json, fields: seq<JsonPointer.Pointer>)
    requires op == Read || op == Update || op == Patch
    ensures Observe(Handle(v, caps, op, None, content, fields))
         == if Implemented(caps, op) && v != Collection then Id(OpName(op)) else Failed(BadRequest)
  {
  }

  /** Read, update, delete and patch of an item: a request handler answers
      without the id, a collection with it, a singleton has no items. */
  lemma ItemOps(v: Variant, caps: Caps, op: Op, id: string, content: Json, fields: seq<JsonPointer.Pointer>)
    requires op == Read || op == Update || op == Delete || op == Patch
    ensures Observe(Handle(v, caps, op, Some(id), content, fields))
         == if Implemented(caps, op) && v == RequestHandler then Id(OpName(op))
            else if Implemented(caps, op) && v == Collection then Id(OpName(op) + "-" + id)
            else if v != Singleton then Failed(BadRequest)
            else Failed(NotFound)
  {
  }

  /** An action on the resource itself runs when a matching action method exists. */
  lemma ActionOnResource(v: Variant, caps: Caps, name: string, content: Json, fields: seq<JsonPointer.Pointer>)
    ensures Observe(Handle(v, caps, Action(name), None, content, fields))
         == if (v != Singleton && caps.collectionAction) || (v != Collection && caps.resourceAction)
            then ActionText(name) else Failed(NotSupported)
  {
  }

  /** An action on an item. */
  lemma ActionOnItem(v: Variant, caps: Caps, name: string, id: string, content: Json, fields: seq<JsonPointer.Pointer>)
    ensures Observe(Handle(v, caps, Action(name), Some(id), content, fields))
         == if caps.collectionAction && v == RequestHandler then ActionText(name)
            else if caps.collectionAction && v == Collection then ActionText(name + "-" + id)
            else if v != Singleton then Failed(NotSupported)
            else Failed(NotFound)
  {
  }

  /** A query of the resource runs for an implemented, non-singleton query. */
  lemma QueryOnResource(v: Variant, caps: Caps, content: Json, fields: seq<JsonPointer.Pointer>)
    ensures Observe(Handle(v, caps, Query, None, content, fields))
         == if caps.query && v != Singleton then Cookie("query") else Failed(BadRequest)
  {
  }

  /** A read that asks for one field gets back only that field. */
  lemma ReadResponseIsFiltered(caps: Caps)
    requires caps.read
    ensures var alice := Obj([("name", Str("alice")), ("age", Num(20)), ("role", Str("sales"))]);
      Handle(Collection, caps, Read, Some("0"), alice, [["age"]]).content == Ok(Obj([("age", Num(20))]))
  {
    var alice := Obj([("name", Str("alice")), ("age", Num(20)), ("role", Str("sales"))]);
    var r := Handle(Collection, caps, Read, Some("0"), alice, [["age"]]);
    assert r.Resource? by {
      assert Routed(Collection, Read, true) && Implemented(caps, Read);
    }
    AliceAge();
  }

  /** Filtering the test user to `age`. */
  lemma AliceAge()
    ensures var alice := Obj([("name", Str("alice")), ("age", Num(20)), ("role", Str("sales"))]);
      ResourceFilter.FilterResource(alice, [["age"]]) == Ok(Obj([("age", Num(20))]))
  {
    var alice := Obj([("name", Str("alice")), ("age", Num(20)), ("role", Str("sales"))]);
    var fields: seq<JsonPointer.Pointer> := [["age"]];
    assert JsonPointer.Get(alice, ["age"]) == Some(Num(20)) by {
      assert alice.fields[1] == ("age", Num(20));
      assert UniqueKeys(alice.fields);
    }
    assert ResourceFilter.HitOf(alice, fields[0]) == [("age", Num(20))];
    assert fields[1..] == [];
    assert ResourceFilter.Hits(alice, fields) == [("age", Num(20))];
    assert !ResourceFilter.Unfiltered(alice, fields) by {
      assert Size(alice) == 3;
    }
    ResourceFilter.FilterKeepsFieldOrder(alice, fields);
  }
}
